/**
 What a plan asks the terminal to do: which items are planned with which directory and command, the exact command lines,
 and what a grouped command line means to a program that ends its options at `--`.
 */
module LaunchCommands {
  import opened Wrappers
  import opened RecoveryRecord
  import opened TerminalLaunch
  import opened LaunchCoverage

  // ----- which items are planned -----

  predicate Fine(env: Env, item: ItemId) {
    && item in env.shells
    && (env.shells[item].adapter in env.supported ==>
          UsableAncestor(env.shells[item].cwd, env.usable) || env.usable(env.home))
  }

  /** Planning succeeds if and only if every item is known and every one of a supported terminal has a directory to go
      to. */
  lemma {:induction false} PlanningFailsExactly(env: Env, selected: seq<ItemId>)
    ensures Launches(env, selected).Ok? <==> forall item :: item in selected ==> Fine(env, item)
  {
    if selected != [] {
      var front, item := selected[..|selected| - 1], selected[|selected| - 1];
      assert selected == front + [item];
      PlanningFailsExactly(env, front);
      if item in env.shells {
        ResolvedIsDeepest(env.shells[item].cwd, env.home, env.usable);
      }
      assert (forall i :: i in selected ==> Fine(env, i)) <==> (forall i :: i in front ==> Fine(env, i)) && Fine(env, item);
    }
  }

  /** The first item that is not fine decides the error. */
  lemma {:induction false} PlanningErrorIsTheFirst(env: Env, selected: seq<ItemId>)
    requires Launches(env, selected).Err?
    ensures exists n :: 0 <= n < |selected| && !Fine(env, selected[n]) && (forall m :: 0 <= m < n ==> Fine(env, selected[m]))
              && Launches(env, selected).error == if selected[n] in env.shells then HomeUnusable else UnknownItem
  {
    var front, n := selected[..|selected| - 1], |selected| - 1;
    PlanningFailsExactly(env, front);
    if Launches(env, front).Err? {
      PlanningErrorIsTheFirst(env, front);
      var k :| 0 <= k < |front| && !Fine(env, front[k]) && (forall m :: 0 <= m < k ==> Fine(env, front[m]))
        && Launches(env, front).error == if front[k] in env.shells then HomeUnusable else UnknownItem;
      assert forall m :: 0 <= m < k ==> front[m] == selected[m];
      assert !Fine(env, selected[k]);
    } else {
      assert forall m :: 0 <= m < n ==> selected[m] in front;
      if selected[n] in env.shells {
        ResolvedIsDeepest(env.shells[selected[n]].cwd, env.home, env.usable);
      }
      assert !Fine(env, selected[n]);
    }
  }

  /** The item is planned in the nearest usable directory, and with its command if that is approved and installed. */
  predicate PlannedAs(env: Env, item: ItemId, planned: LaunchItem) {
    && planned.item == item && Supported(env, item)
    && Resolved(env.shells[item].cwd, env.home, env.usable) == Ok(planned.cwd)
    && (planned.command.Some? <==> env.approvals(item).Runs?)
    && (planned.command.Some? ==> planned.command.value == env.approvals(item).argv)
  }

  // `at[i]` is where the i-th planned item stands in the selection.
  ghost predicate Places(env: Env, selected: seq<ItemId>, items: seq<LaunchItem>, at: seq<nat>) {
    && |at| == |items|
    && (forall i, j :: 0 <= i < j < |at| ==> at[i] < at[j])
    && (forall i :: 0 <= i < |at| ==> at[i] < |selected| && PlannedAs(env, selected[at[i]], items[i]))
    && forall k :: 0 <= k < |selected| && Supported(env, selected[k]) ==> k in at
  }

  lemma OneMorePlace(env: Env, front: seq<ItemId>, item: ItemId, items: seq<LaunchItem>, planned: LaunchItem, at: seq<nat>)
    requires Places(env, front, items, at) && PlannedAs(env, item, planned)
    ensures Places(env, front + [item], items + [planned], at + [|front|])
  {
    var selected, at' := front + [item], at + [|front|];
    forall k | 0 <= k < |selected| && Supported(env, selected[k])
      ensures k in at'
    {
      if k < |front| {
        assert Supported(env, front[k]) && k in at;
      } else {
        assert at'[|at|] == k;
      }
    }
  }

  lemma SamePlaces(env: Env, front: seq<ItemId>, item: ItemId, items: seq<LaunchItem>, at: seq<nat>)
    requires Places(env, front, items, at) && !Supported(env, item)
    ensures Places(env, front + [item], items, at)
  {
    var selected := front + [item];
    assert forall k :: 0 <= k < |front| ==> selected[k] == front[k];
  }

  /** The items of supported terminals, all of them, in the order of the selection. */
  lemma {:induction false} PlannedInOrder(env: Env, selected: seq<ItemId>)
    requires Launches(env, selected).Ok?
    ensures exists at :: Places(env, selected, Launches(env, selected).value, at)
  {
    if selected == [] {
      assert Places(env, selected, [], []);
    } else {
      var front, item := selected[..|selected| - 1], selected[|selected| - 1];
      assert selected == front + [item];
      PlannedInOrder(env, front);
      var items := Launches(env, front).value;
      var at :| Places(env, front, items, at);
      if Supported(env, item) {
        var planned := LaunchItem(
          item, Resolved(env.shells[item].cwd, env.home, env.usable).value, CommandOf(env.approvals(item)));
        OneMorePlace(env, front, item, items, planned, at);
        assert Launches(env, selected).value == items + [planned];
      } else {
        SamePlaces(env, front, item, items, at);
      }
    }
  }

  // ----- the grouped command line -----

  /** The items whose directory can be opened. */
  function Openable(env: Env, items: seq<LaunchItem>): seq<LaunchItem> {
    if items == [] then []
    else (if items[0].cwd.absolute && env.isDir(items[0].cwd) then [items[0]] else []) + Openable(env, items[1..])
  }

  /** The items whose directory cannot be opened. */
  function Missing(env: Env, items: seq<LaunchItem>): seq<LaunchItem> {
    if items == [] then []
    else (if items[0].cwd.absolute && env.isDir(items[0].cwd) then [] else [items[0]]) + Missing(env, items[1..])
  }

  /** What runs the approved words, unchanged, before the tab falls back to a shell. */
  function Wrapped(words: seq<string>): seq<string> {
    ["bash", "-c", "exec \"$@\"; status=$?; exec bash -i", "bash"] + words
  }

  function TabSegment(item: LaunchItem, opensWindow: bool): seq<string> {
    [if opensWindow then "--window" else "--tab", "--working-directory", PathText(item.cwd)]
    + if item.command.None? then [] else ["--"] + Wrapped(item.command.value)
  }

  function TabSegments(kept: seq<LaunchItem>, opensWindow: bool): seq<string> {
    if kept == [] then [] else TabSegment(kept[0], opensWindow) + TabSegments(kept[1..], false)
  }

  lemma {:induction false} OpenableOfOneMore(env: Env, front: seq<LaunchItem>, last: LaunchItem)
    ensures Openable(env, front + [last]) == Openable(env, front) + if Launchable(env, last) then [last] else []
    ensures Missing(env, front + [last]) == Missing(env, front) + if Launchable(env, last) then [] else [last]
  {
    if front == [] {
      assert ([] + [last])[1..] == [];
    } else {
      assert (front + [last])[1..] == front[1..] + [last];
      OpenableOfOneMore(env, front[1..], last);
    }
  }

  lemma {:induction false} SegmentsOfOneMore(kept: seq<LaunchItem>, last: LaunchItem, opensWindow: bool)
    ensures TabSegments(kept + [last], opensWindow)
         == TabSegments(kept, opensWindow) + TabSegment(last, kept == [] && opensWindow)
  {
    if kept == [] {
      assert ([] + [last])[1..] == [];
    } else {
      assert (kept + [last])[1..] == kept[1..] + [last];
      SegmentsOfOneMore(kept[1..], last, false);
    }
  }

  /** The first of the planned items, unless its directory is missing, opens the window. */
  predicate FirstOpens(env: Env, items: seq<LaunchItem>) {
    items != [] && items[0].cwd.absolute && env.isDir(items[0].cwd)
  }

  lemma {:induction false} WhatTabsHold(env: Env, items: seq<LaunchItem>)
    ensures Tabs(env, items) == Ids(Openable(env, items)) && Dropped(env, items) == Ids(Missing(env, items))
    ensures FirstOpens(env, items) ==> Openable(env, items) != []
  {
    if items != [] {
      var front, last := items[..|items| - 1], items[|items| - 1];
      assert items == front + [last];
      WhatTabsHold(env, front);
      OpenableOfOneMore(env, front, last);
    }
  }

  lemma SegmentText(item: LaunchItem, opensWindow: bool)
    ensures TabSegment(item, opensWindow)
         == [if opensWindow then "--window" else "--tab", "--working-directory", PathText(item.cwd)]
            + CommandArgs("--", item.command)
  {
    if item.command.Some? {
      assert ["--"] + Wrapped(item.command.value) == CommandArgs("--", item.command);
    }
  }

  lemma JoinSegment(before: seq<string>, item: LaunchItem, opensWindow: bool)
    ensures before + [if opensWindow then "--window" else "--tab", "--working-directory", PathText(item.cwd)]
            + CommandArgs("--", item.command)
         == before + TabSegment(item, opensWindow)
  {
    SegmentText(item, opensWindow);
  }

  // One more item: the words so far, and its segment if it can be opened.
  lemma OneMoreSegment(env: Env, front: seq<LaunchItem>, last: LaunchItem)
    requires TabArgs(env, front) == TabSegments(Openable(env, front), FirstOpens(env, front))
    requires Launchable(env, last) && (FirstOpens(env, front) ==> Openable(env, front) != [])
    ensures TabArgs(env, front) + TabSegment(last, front == [])
         == TabSegments(Openable(env, front) + [last], FirstOpens(env, front + [last]))
  {
    var items, kept := front + [last], Openable(env, front);
    assert front != [] ==> items[0] == front[0];
    SegmentsOfOneMore(kept, last, FirstOpens(env, items));
    assert (kept == [] && FirstOpens(env, items)) == (front == []);
  }

  lemma TabArgsOfOneMore(env: Env, front: seq<LaunchItem>, last: LaunchItem)
    ensures TabArgs(env, front + [last])
         == if Launchable(env, last) then TabArgs(env, front) + TabSegment(last, front == []) else TabArgs(env, front)
  {
    var items := front + [last];
    assert items[..|items| - 1] == front && items[|items| - 1] == last;
    JoinSegment(TabArgs(env, front), last, front == []);
  }

  lemma {:induction false} TabArgsAreSegments(env: Env, items: seq<LaunchItem>)
    ensures TabArgs(env, items) == TabSegments(Openable(env, items), FirstOpens(env, items))
  {
    if items != [] {
      var front, last := items[..|items| - 1], items[|items| - 1];
      assert items == front + [last];
      TabArgsAreSegments(env, front);
      TabArgsOfOneMore(env, front, last);
      OpenableOfOneMore(env, front, last);
      if Launchable(env, last) {
        WhatTabsHold(env, front);
        OneMoreSegment(env, front, last);
      } else {
        assert Openable(env, front) + [] == Openable(env, front);
        assert front != [] ==> items[0] == front[0];
      }
    }
  }

  lemma {:induction false} OpenableExactly(env: Env, items: seq<LaunchItem>, item: LaunchItem)
    ensures item in Openable(env, items) <==> item in items && Launchable(env, item)
    ensures item in Missing(env, items) <==> item in items && !Launchable(env, item)
  {
    if items != [] {
      assert items == [items[0]] + items[1..];
      OpenableExactly(env, items[1..], item);
    }
  }

  lemma LevelExactly(env: Env, items: seq<LaunchItem>)
    requires Openable(env, items) != []
    ensures Highest(Levels(env, items))
         == if exists item :: item in Openable(env, items) && item.command.Some? then Reconstructed else Partial
  {
    var levels, kept := Levels(env, items), Openable(env, items);
    if item :| item in kept && item.command.Some? {
      OpenableExactly(env, items, item);
      var i :| 0 <= i < |items| && items[i] == item;
      assert Reconstructed in levels;
    } else {
      if Reconstructed in levels {
        var i :| 0 <= i < |items| && Launchable(env, items[i]) && items[i].command.Some?;
        OpenableExactly(env, items, items[i]);
        assert false;
      }
      OpenableExactly(env, items, kept[0]);
      var i :| 0 <= i < |items| && items[i] == kept[0];
      assert Partial in levels;
    }
  }

  /** The gnome-terminal plan: one window with a tab for each item that can be opened, in order, in its directory and with
      its command; a warning for each that cannot; no command line at all without the program or an item to open. */
  lemma GnomeGroups(env: Env, items: seq<LaunchItem>)
    ensures var actions, kept, missing := GnomeActions(env, items), Openable(env, items), Missing(env, items);
            if env.executable.None? || kept == [] then
              && |actions| == |items|
              && forall i :: 0 <= i < |items| ==>
                   actions[i] == Action([items[i].item], [], Unavailable, [TerminalUnavailable])
            else
              && |actions| == 1 && actions[0].items == Ids(kept)
              && actions[0].argv == [env.executable.value] + TabSegments(kept, FirstOpens(env, items))
              && (actions[0].level == if exists item :: item in kept && item.command.Some? then Reconstructed else Partial)
              && |actions[0].warnings| == |missing|
              && forall i :: 0 <= i < |missing| ==> actions[0].warnings[i] == DirectoryUnavailable(missing[i].item)
  {
    WhatTabsHold(env, items);
    TabArgsAreSegments(env, items);
    if Openable(env, items) != [] {
      LevelExactly(env, items);
    }
  }

  /** The ghostty plan: a window of its own for each item, asked for in its directory and with its command; no command
      line for an item that cannot be opened or without the program. */
  lemma GhosttyOpensEach(env: Env, items: seq<LaunchItem>, i: nat)
    requires i < |items|
    ensures var action, item := GhosttyActions(env, items)[i], items[i];
            if env.executable.None? then action == Action([item.item], [], Unavailable, [TerminalUnavailable])
            else if !item.cwd.absolute || !env.isDir(item.cwd) then
              action == Action([item.item], [], Unavailable, [DirectoryUnavailable(item.item)])
            else
              && action.items == [item.item]
              && action.argv == [env.executable.value, "--working-directory=" + PathText(item.cwd)]
                                + (if item.command.None? then [] else ["-e"] + Wrapped(item.command.value))
              && (action.level == if item.command.Some? then Reconstructed else Partial)
              && action.warnings == if |items| > 1 then [SeparateWindows] else []
  {
    if items[i].command.Some? {
      assert CommandArgs("-e", items[i].command) == ["-e"] + Wrapped(items[i].command.value);
    }
  }

  // ----- which actions warn of a missing program -----

  lemma {:induction false} UnsupportedWarnings(env: Env, selected: seq<ItemId>)
    ensures forall action :: action in UnsupportedActions(env, selected) ==> action.warnings == [UnsupportedAdapter]
  {
    if selected != [] {
      UnsupportedWarnings(env, selected[..|selected| - 1]);
    }
  }

  lemma PlanWarnings(env: Env, items: seq<LaunchItem>, k: nat)
    requires k < |PlanOf(env, items)|
    ensures ExecutableUnavailable !in PlanOf(env, items)[k].warnings
  {
    GnomeGroups(env, items);
    if env.terminal.Ghostty? {
      GhosttyOpensEach(env, items, k);
    }
  }

  /** An action warns of a missing program if and only if it holds an item of a supported terminal whose approved command
      has none. */
  lemma MissingProgramIsNoted(env: Env, selected: seq<ItemId>, k: nat)
    requires Launches(env, selected).Ok?
    requires k < |Actions(env, selected, Launches(env, selected).value)|
    ensures var action := Actions(env, selected, Launches(env, selected).value)[k];
            ExecutableUnavailable in action.warnings
            <==> exists item :: item in action.items && Supported(env, item) && env.approvals(item).ExecutableMissing?
  {
    var plan, rest := PlanOf(env, Launches(env, selected).value), UnsupportedActions(env, selected);
    UnsupportedWarnings(env, selected);
    var action := (plan + rest)[k];
    if k < |plan| {
      PlanWarnings(env, Launches(env, selected).value, k);
    } else {
      assert action == rest[k - |plan|] && action in rest;
    }
    assert ExecutableUnavailable !in action.warnings;
  }

  // ----- which items get a command line -----

  predicate HasCommandLine(actions: seq<Action>, item: ItemId) {
    exists k :: 0 <= k < |actions| && item in actions[k].items && actions[k].argv != []
  }

  /** The item is planned and can be opened now. */
  predicate CanOpen(env: Env, items: seq<LaunchItem>, item: ItemId) {
    exists i :: 0 <= i < |items| && items[i].item == item && items[i].cwd.absolute && env.isDir(items[i].cwd)
  }

  lemma {:induction false} UnsupportedHaveNone(env: Env, selected: seq<ItemId>)
    ensures forall action :: action in UnsupportedActions(env, selected) ==> action.argv == []
  {
    if selected != [] {
      UnsupportedHaveNone(env, selected[..|selected| - 1]);
    }
  }

  lemma OpenableIds(env: Env, items: seq<LaunchItem>, item: ItemId)
    ensures item in Ids(Openable(env, items)) <==> CanOpen(env, items, item)
  {
    var kept := Openable(env, items);
    if CanOpen(env, items, item) {
      var i :| 0 <= i < |items| && items[i].item == item && Launchable(env, items[i]);
      OpenableExactly(env, items, items[i]);
      var j :| 0 <= j < |kept| && kept[j] == items[i];
      assert Ids(kept)[j] == item;
    }
    if item in Ids(kept) {
      var j :| 0 <= j < |kept| && Ids(kept)[j] == item;
      OpenableExactly(env, items, kept[j]);
      var i :| 0 <= i < |items| && items[i] == kept[j];
      assert Launchable(env, items[i]);
    }
  }

  lemma GnomeCommandLines(env: Env, items: seq<LaunchItem>, item: ItemId)
    ensures HasCommandLine(GnomeActions(env, items), item) <==> env.executable.Some? && CanOpen(env, items, item)
  {
    var actions := GnomeActions(env, items);
    GnomeGroups(env, items);
    OpenableIds(env, items, item);
    if env.executable.Some? && Openable(env, items) != [] {
      assert HasCommandLine(actions, item) <==> item in actions[0].items;
    } else {
      assert Openable(env, items) == [] ==> Ids(Openable(env, items)) == [];
    }
  }

  lemma GhosttyCommandLines(env: Env, items: seq<LaunchItem>, item: ItemId)
    ensures HasCommandLine(GhosttyActions(env, items), item) <==> env.executable.Some? && CanOpen(env, items, item)
  {
    var actions := GhosttyActions(env, items);
    forall i | 0 <= i < |items|
      ensures actions[i].items == [items[i].item]
      ensures actions[i].argv != [] <==> env.executable.Some? && Launchable(env, items[i])
    {
      GhosttyOpensEach(env, items, i);
    }
    if CanOpen(env, items, item) && env.executable.Some? {
      var i :| 0 <= i < |items| && items[i].item == item && Launchable(env, items[i]);
      assert item in actions[i].items;
    }
  }

  lemma AnnotatedCommandLines(env: Env, plan: seq<Action>, rest: seq<Action>, item: ItemId)
    requires forall action :: action in rest ==> action.argv == []
    ensures HasCommandLine(Annotated(env, plan + rest), item) <==> HasCommandLine(plan, item)
  {
    var all := Annotated(env, plan + rest);
    if k :| 0 <= k < |all| && item in all[k].items && all[k].argv != [] {
      assert (plan + rest)[k] in rest || k < |plan|;
      assert k < |plan| && plan[k] == (plan + rest)[k];
    }
    if k :| 0 <= k < |plan| && item in plan[k].items && plan[k].argv != [] {
      assert (plan + rest)[k] == plan[k] && item in all[k].items && all[k].argv != [];
    }
  }

  /** An item stands in a command line if and only if the terminal program is installed, the item is planned and its
      directory can be opened now. */
  lemma CommandLineExactly(env: Env, selected: seq<ItemId>, item: ItemId)
    requires Launches(env, selected).Ok?
    ensures var items := Launches(env, selected).value;
            HasCommandLine(Actions(env, selected, items), item) <==> env.executable.Some? && CanOpen(env, items, item)
  {
    var items := Launches(env, selected).value;
    UnsupportedHaveNone(env, selected);
    AnnotatedCommandLines(env, PlanOf(env, items), UnsupportedActions(env, selected), item);
    if env.terminal.Gnome? {
      GnomeCommandLines(env, items, item);
    } else {
      GhosttyCommandLines(env, items, item);
    }
  }

  // ----- reading a grouped command line -----

  /** The tabs a command line asks for, read as utilities read their options: up to the first `--`. */
  function TabsAsked(words: seq<string>): nat {
    if words == [] || words[0] == "--" then 0
    else if words[0] == "--window" || words[0] == "--tab" then 1 + TabsAsked(words[1..])
    else if words[0] == "--working-directory" && |words| > 1 then TabsAsked(words[2..])
    else TabsAsked(words[1..])
  }

  function Arguments(argv: seq<string>): seq<string> {
    if argv == [] then [] else argv[1..]
  }

  function UpToFirstCommand(kept: seq<LaunchItem>): (n: nat)
    ensures n <= |kept|
    ensures n == |kept| <==> forall j :: 0 <= j < |kept| - 1 ==> kept[j].command.None?
  {
    if kept == [] then 0
    else if kept[0].command.Some? then 1
    else 1 + UpToFirstCommand(kept[1..])
  }

  lemma {:induction false} AskedUpToFirstCommand(kept: seq<LaunchItem>, opensWindow: bool)
    ensures TabsAsked(TabSegments(kept, opensWindow)) == UpToFirstCommand(kept)
  {
    if kept != [] {
      var first, rest := TabSegment(kept[0], opensWindow), TabSegments(kept[1..], false);
      var words := first + rest;
      AskedUpToFirstCommand(kept[1..], false);
      assert words[0] == if opensWindow then "--window" else "--tab";
      assert words[1..][0] == "--working-directory" && words[1..][2..] == words[3..];
      assert TabsAsked(words) == 1 + TabsAsked(words[3..]);
      if kept[0].command.None? {
        assert words[3..] == rest;
      } else {
        assert words[3] == first[3] == "--";
        assert TabsAsked(words[3..]) == 0;
      }
    }
  }

  /** A grouped command line asks for a tab for each of its items if and only if no item before the last one has a
      command: the words after the first command's `--` belong to that command. */
  lemma EveryTabIsAskedForExactly(env: Env, items: seq<LaunchItem>)
    requires env.executable.Some? && Openable(env, items) != []
    ensures var action, kept := GnomeActions(env, items)[0], Openable(env, items);
            TabsAsked(Arguments(action.argv)) == |action.items|
            <==> forall j :: 0 <= j < |kept| - 1 ==> kept[j].command.None?
  {
    var kept, opens := Openable(env, items), FirstOpens(env, items);
    GnomeGroups(env, items);
    AskedUpToFirstCommand(kept, opens);
    assert ([env.executable.value] + TabSegments(kept, opens))[1..] == TabSegments(kept, opens);
  }

  // ----- directories as text -----

  /** The text between the slashes. */
  function Pieces(text: string): (pieces: seq<string>)
    ensures pieces != []
  {
    if text == [] then [""]
    else
      var before, last := Pieces(text[..|text| - 1]), text[|text| - 1];
      if last == '/' then before + [""]
      else before[..|before| - 1] + [before[|before| - 1] + [last]]
  }

  predicate IsName(part: string) {
    part != "" && '/' !in part
  }

  lemma {:induction false} PiecesOfName(before: string, name: string)
    requires '/' !in name
    ensures var ps := Pieces(before);
            Pieces(before + name) == ps[..|ps| - 1] + [ps[|ps| - 1] + name]
  {
    if name == "" {
      assert before + name == before;
      var ps := Pieces(before);
      assert ps[|ps| - 1] + name == ps[|ps| - 1];
      assert ps == ps[..|ps| - 1] + [ps[|ps| - 1]];
    } else {
      var front, last := name[..|name| - 1], name[|name| - 1];
      assert (before + name)[..|before + name| - 1] == before + front && last in name;
      PiecesOfName(before, front);
      var ps := Pieces(before);
      assert ps[|ps| - 1] + front + [last] == ps[|ps| - 1] + name;
    }
  }

  lemma PiecesAfterSlash(before: string, name: string)
    requires '/' !in name
    ensures Pieces(before + "/" + name) == Pieces(before) + [name]
  {
    assert (before + "/")[..|before|] == before;
    assert Pieces(before + "/") == Pieces(before) + [""];
    PiecesOfName(before + "/", name);
    assert "" + name == name;
  }

  lemma PiecesOfOne(name: string)
    requires '/' !in name
    ensures Pieces(name) == [name]
  {
    PiecesOfName("", name);
    assert "" + name == name;
  }

  lemma OneNameReadsBack(name: string, absolute: bool)
    requires IsName(name)
    ensures Pieces(PathText(Path(absolute, [name]))) == (if absolute then [""] else []) + [name]
  {
    if absolute {
      assert "" + "/" + name == "/" + name;
      PiecesAfterSlash("", name);
    } else {
      assert "" + name == name;
      PiecesOfOne(name);
    }
  }

  /** The root and the directory of no name. */
  lemma NoNamesReadBack(absolute: bool)
    ensures PathText(Path(absolute, [])) == if absolute then "/" else "."
    ensures Pieces(PathText(Path(absolute, []))) == if absolute then ["", ""] else ["."]
  {
    assert "/"[..0] == "" && Pieces("") == [""];
    PiecesOfOne(".");
  }

  lemma LongerPathText(p: Path)
    requires |p.parts| > 1
    ensures PathText(p) == PathText(p.(parts := p.parts[..|p.parts| - 1])) + "/" + p.parts[|p.parts| - 1]
  {}

  /** The directory a terminal is given reads back as the directory meant. */
  lemma {:induction false} DirectoryReadsBack(p: Path)
    requires p.parts != [] && forall part :: part in p.parts ==> IsName(part)
    ensures Pieces(PathText(p)) == (if p.absolute then [""] else []) + p.parts
    decreases |p.parts|
  {
    var n := |p.parts| - 1;
    assert p.parts[n] in p.parts && p.parts == p.parts[..n] + [p.parts[n]];
    if n == 0 {
      assert p == Path(p.absolute, [p.parts[0]]);
      OneNameReadsBack(p.parts[0], p.absolute);
    } else {
      var parent := p.(parts := p.parts[..n]);
      DirectoryReadsBack(parent);
      LongerPathText(p);
      PiecesAfterSlash(PathText(parent), p.parts[n]);
    }
  }
}
