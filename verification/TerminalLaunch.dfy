/**
 From an attempt's selection to launch outcomes: directory fallback and planning (recovery.py), and the gnome-terminal
 and ghostty adapters. The file system and the results of running commands are given.
 */
module TerminalLaunch {
  import opened Wrappers
  import opened RecoveryRecord

  // A lexical path; the parent of the root and of "." is itself.
  datatype Path = Path(absolute: bool, parts: seq<string>)

  datatype Approval = NoCommand | ExecutableMissing | Runs(argv: seq<string>)

  datatype Shell = Shell(adapter: string, cwd: Path)

  datatype LaunchItem = LaunchItem(item: ItemId, cwd: Path, command: Option<seq<string>>)

  datatype Level = Unavailable | Partial | Reconstructed

  datatype Note =
    | TerminalUnavailable
    | DirectoryUnavailable(item: ItemId)
    | SeparateWindows
    | UnsupportedAdapter
    | ExecutableUnavailable

  datatype Action = Action(items: seq<ItemId>, argv: seq<string>, level: Level, warnings: seq<Note>)

  datatype Terminal = Gnome | Ghostty

  // How running a command ended.
  datatype Run = Exited(status: int) | NotFound | TimedOut

  datatype BuildError = UnknownItem | HomeUnusable

  /** What planning reads: stored shells, approved commands as far as resolved, and the file system. */
  datatype Env = Env(
    shells: map<ItemId, Shell>,
    supported: set<string>,
    approvals: ItemId -> Approval,
    usable: Path -> bool, // a real directory, readable and searchable
    isDir: Path -> bool, // a directory, perhaps through a symbolic link
    home: Path,
    terminal: Terminal,
    executable: Option<string>)

  const COMMAND_WRAPPER := "exec \"$@\"; status=$?; exec bash -i"

  function PathText(p: Path): string
    decreases |p.parts|
  {
    if p.parts == [] then if p.absolute then "/" else "."
    else if |p.parts| == 1 then (if p.absolute then "/" else "") + p.parts[0]
    else PathText(p.(parts := p.parts[..|p.parts| - 1])) + "/" + p.parts[|p.parts| - 1]
  }

  // ----- directories -----

  function Parent(p: Path): Path {
    if p.parts == [] then p else p.(parts := p.parts[..|p.parts| - 1])
  }

  function Ancestor(p: Path, n: nat): Path
    requires n <= |p.parts|
  {
    p.(parts := p.parts[..n])
  }

  predicate UsableAncestor(p: Path, usable: Path -> bool) {
    exists n :: 0 <= n <= |p.parts| && usable(Ancestor(p, n))
  }

  /** The nearest usable ancestor, else a usable home, else an error. */
  function Resolved(recorded: Path, home: Path, usable: Path -> bool): Result<Path, BuildError>
    decreases |recorded.parts|
  {
    if usable(recorded) then Ok(recorded)
    else if recorded.parts != [] then Resolved(Parent(recorded), home, usable)
    else if usable(home) then Ok(home)
    else Err(HomeUnusable)
  }

  /** The chosen directory is the deepest usable ancestor; home only if there is none; an error only if home is not
      usable either. */
  lemma {:induction false} ResolvedIsDeepest(recorded: Path, home: Path, usable: Path -> bool)
    ensures var r := Resolved(recorded, home, usable);
            if UsableAncestor(recorded, usable) then
              exists n :: 0 <= n <= |recorded.parts| && r == Ok(Ancestor(recorded, n)) && usable(Ancestor(recorded, n))
                && forall m :: n < m <= |recorded.parts| ==> !usable(Ancestor(recorded, m))
            else r == if usable(home) then Ok(home) else Err(HomeUnusable)
    decreases |recorded.parts|
  {
    var k := |recorded.parts|;
    assert Ancestor(recorded, k) == recorded;
    if !usable(recorded) && k > 0 {
      var parent := Parent(recorded);
      ResolvedIsDeepest(parent, home, usable);
      assert forall n :: 0 <= n < k ==> Ancestor(parent, n) == Ancestor(recorded, n);
      if UsableAncestor(parent, usable) {
        var n :| 0 <= n <= |parent.parts| && Resolved(parent, home, usable) == Ok(Ancestor(parent, n))
          && usable(Ancestor(parent, n)) && forall m :: n < m <= |parent.parts| ==> !usable(Ancestor(parent, m));
        assert usable(Ancestor(recorded, n));
        assert forall m :: n < m <= k ==> !usable(Ancestor(recorded, m)) by {
          forall m | n < m <= k ensures !usable(Ancestor(recorded, m)) {
            if m < k { assert !usable(Ancestor(parent, m)); }
          }
        }
      }
    }
  }

  method ResolveDirectory(recorded: Path, home: Path, usable: Path -> bool) returns (r: Result<Path, BuildError>)
    ensures r == Resolved(recorded, home, usable)
  {
    var candidate := recorded;
    while true
      invariant Resolved(candidate, home, usable) == Resolved(recorded, home, usable)
      decreases |candidate.parts|
    {
      if usable(candidate) {
        return Ok(candidate);
      }
      var parent := Parent(candidate);
      if parent == candidate {
        break;
      }
      candidate := parent;
    }
    r := if usable(home) then Ok(home) else Err(HomeUnusable);
  }

  // ----- planning -----

  predicate Supported(env: Env, item: ItemId) {
    item in env.shells && env.shells[item].adapter in env.supported
  }

  /** The items to launch, in order: an unknown item, or one with no directory to fall back to, fails the whole. */
  function Launches(env: Env, selected: seq<ItemId>): Result<seq<LaunchItem>, BuildError> {
    if selected == [] then Ok([])
    else
      var front, item := Launches(env, selected[..|selected| - 1]), selected[|selected| - 1];
      if front.Err? then front
      else if item !in env.shells then Err(UnknownItem)
      else if !Supported(env, item) then front
      else
        var cwd := Resolved(env.shells[item].cwd, env.home, env.usable);
        if cwd.Err? then Err(cwd.error)
        else Ok(front.value + [LaunchItem(item, cwd.value, CommandOf(env.approvals(item)))])
  }

  function CommandOf(approval: Approval): Option<seq<string>> {
    if approval.Runs? then Some(approval.argv) else None
  }

  predicate Launchable(env: Env, item: LaunchItem) {
    item.cwd.absolute && env.isDir(item.cwd)
  }

  function Single(item: LaunchItem, level: Level, argv: seq<string>, warnings: seq<Note>): Action {
    Action([item.item], argv, level, warnings)
  }

  function AllUnavailable(items: seq<LaunchItem>): (actions: seq<Action>)
    ensures |actions| == |items|
    ensures forall i :: 0 <= i < |items| ==> actions[i].items == [items[i].item] && actions[i].argv == []
  {
    seq(|items|, i requires 0 <= i < |items| => Single(items[i], Unavailable, [], [TerminalUnavailable]))
  }

  function CommandArgs(flag: string, command: Option<seq<string>>): seq<string> {
    if command.None? then [] else [flag, "bash", "-c", COMMAND_WRAPPER, "bash"] + command.value
  }

  // gnome-terminal: what each list holds after the loop over `items`.

  function Tabs(env: Env, items: seq<LaunchItem>): seq<ItemId> {
    if items == [] then []
    else
      var front, last := items[..|items| - 1], items[|items| - 1];
      if Launchable(env, last) then Tabs(env, front) + [last.item] else Tabs(env, front)
  }

  function Dropped(env: Env, items: seq<LaunchItem>): seq<ItemId> {
    if items == [] then []
    else
      var front, last := items[..|items| - 1], items[|items| - 1];
      if Launchable(env, last) then Dropped(env, front) else Dropped(env, front) + [last.item]
  }

  function TabArgs(env: Env, items: seq<LaunchItem>): seq<string> {
    if items == [] then []
    else
      var front, last := items[..|items| - 1], items[|items| - 1];
      if Launchable(env, last) then
        TabArgs(env, front) + [if front == [] then "--window" else "--tab", "--working-directory", PathText(last.cwd)]
        + CommandArgs("--", last.command)
      else TabArgs(env, front)
  }

  function Levels(env: Env, items: seq<LaunchItem>): set<Level> {
    set i | 0 <= i < |items| && Launchable(env, items[i]) ::
      if items[i].command.Some? then Reconstructed else Partial
  }

  function Highest(levels: set<Level>): Level {
    if Reconstructed in levels then Reconstructed else if Partial in levels then Partial else Unavailable
  }

  function DirectoryWarnings(dropped: seq<ItemId>): (warnings: seq<Note>)
    ensures |warnings| == |dropped|
  {
    seq(|dropped|, i requires 0 <= i < |dropped| => DirectoryUnavailable(dropped[i]))
  }

  function GnomeActions(env: Env, items: seq<LaunchItem>): seq<Action> {
    if env.executable.None? || Tabs(env, items) == [] then AllUnavailable(items)
    else [Action(Tabs(env, items), [env.executable.value] + TabArgs(env, items), Highest(Levels(env, items)),
                 DirectoryWarnings(Dropped(env, items)))]
  }

  lemma LevelsOfFront(env: Env, front: seq<LaunchItem>, last: LaunchItem)
    ensures Levels(env, front + [last])
         == Levels(env, front) + if !Launchable(env, last) then {}
                                 else if last.command.Some? then {Reconstructed} else {Partial}
  {
    var all := front + [last];
    var extra := if !Launchable(env, last) then {} else if last.command.Some? then {Reconstructed} else {Partial};
    assert all[|front|] == last;
    forall level | level in Levels(env, front) + extra ensures level in Levels(env, all) {
      if level in Levels(env, front) {
        var i :| 0 <= i < |front| && Launchable(env, front[i])
          && level == if front[i].command.Some? then Reconstructed else Partial;
        assert all[i] == front[i];
      }
    }
    forall level | level in Levels(env, all) ensures level in Levels(env, front) + extra {
      var i :| 0 <= i < |all| && Launchable(env, all[i])
        && level == if all[i].command.Some? then Reconstructed else Partial;
      if i < |front| {
        assert all[i] == front[i];
      }
    }
  }

  // With nothing to launch, everything was dropped, in order.
  lemma {:induction false} AllDropped(env: Env, items: seq<LaunchItem>)
    requires Tabs(env, items) == []
    ensures |Dropped(env, items)| == |items|
    ensures forall i :: 0 <= i < |items| ==> Dropped(env, items)[i] == items[i].item
  {
    if items != [] {
      AllDropped(env, items[..|items| - 1]);
    }
  }

  method GnomePlan(env: Env, items: seq<LaunchItem>) returns (actions: seq<Action>)
    ensures actions == GnomeActions(env, items)
  {
    if env.executable.None? {
      return AllUnavailable(items);
    }
    var itemIds: seq<ItemId>, argv: seq<string>, levels: set<Level>, missing: seq<ItemId> := [], [], {}, [];
    for index := 0 to |items|
      invariant itemIds == Tabs(env, items[..index]) && argv == TabArgs(env, items[..index])
      invariant levels == Levels(env, items[..index]) && missing == Dropped(env, items[..index])
    {
      var item := items[index];
      assert items[..index + 1][..index] == items[..index] && items[..index + 1] == items[..index] + [item];
      LevelsOfFront(env, items[..index], item);
      if !Launchable(env, item) {
        missing := missing + [item.item];
        continue;
      }
      argv := argv + [if index == 0 then "--window" else "--tab", "--working-directory", PathText(item.cwd)]
              + CommandArgs("--", item.command);
      levels := levels + {if item.command.Some? then Reconstructed else Partial};
      itemIds := itemIds + [item.item];
    }
    assert items[..|items|] == items;
    if itemIds == [] {
      AllDropped(env, items);
      var ids := if missing != [] then missing else seq(|items|, i requires 0 <= i < |items| => items[i].item);
      return seq(|ids|, i requires 0 <= i < |ids| => Action([ids[i]], [], Unavailable, [TerminalUnavailable]));
    }
    actions := [Action(itemIds, [env.executable.value] + argv, Highest(levels), DirectoryWarnings(missing))];
  }

  // ghostty: one action for each item.

  function GhosttyAction(env: Env, item: LaunchItem, count: nat): Action
    requires env.executable.Some?
  {
    if !Launchable(env, item) then Single(item, Unavailable, [], [DirectoryUnavailable(item.item)])
    else
      Single(item, if item.command.Some? then Reconstructed else Partial,
             [env.executable.value, "--working-directory=" + PathText(item.cwd)] + CommandArgs("-e", item.command),
             if count > 1 then [SeparateWindows] else [])
  }

  function GhosttyActions(env: Env, items: seq<LaunchItem>): (actions: seq<Action>)
    ensures |actions| == |items|
    ensures forall i :: 0 <= i < |items| ==> actions[i].items == [items[i].item]
  {
    if env.executable.None? then AllUnavailable(items)
    else seq(|items|, i requires 0 <= i < |items| => GhosttyAction(env, items[i], |items|))
  }

  method GhosttyPlan(env: Env, items: seq<LaunchItem>) returns (actions: seq<Action>)
    ensures actions == GhosttyActions(env, items)
  {
    if env.executable.None? {
      return AllUnavailable(items);
    }
    actions := [];
    for i := 0 to |items|
      invariant actions == GhosttyActions(env, items)[..i]
    {
      actions := actions + [GhosttyAction(env, items[i], |items|)];
    }
  }

  function PlanOf(env: Env, items: seq<LaunchItem>): seq<Action> {
    if env.terminal.Gnome? then GnomeActions(env, items) else GhosttyActions(env, items)
  }

  function UnsupportedActions(env: Env, selected: seq<ItemId>): seq<Action> {
    if selected == [] then []
    else
      var front, item := UnsupportedActions(env, selected[..|selected| - 1]), selected[|selected| - 1];
      if Supported(env, item) then front else front + [Action([item], [], Unavailable, [UnsupportedAdapter])]
  }

  predicate NotesMissing(env: Env, action: Action) {
    exists item :: item in action.items && Supported(env, item) && env.approvals(item).ExecutableMissing?
  }

  function Annotated(env: Env, actions: seq<Action>): (r: seq<Action>)
    ensures |r| == |actions|
    ensures forall i :: 0 <= i < |r| ==> r[i].items == actions[i].items && r[i].argv == actions[i].argv
  {
    seq(|actions|, i requires 0 <= i < |actions| =>
      if NotesMissing(env, actions[i]) then actions[i].(warnings := actions[i].warnings + [ExecutableUnavailable])
      else actions[i])
  }

  function Actions(env: Env, selected: seq<ItemId>, items: seq<LaunchItem>): seq<Action> {
    Annotated(env, PlanOf(env, items) + UnsupportedActions(env, selected))
  }

  method BuildActions(env: Env, selected: seq<ItemId>) returns (r: Result<seq<Action>, BuildError>)
    ensures var items := Launches(env, selected);
            r == if items.Err? then Err(items.error) else Ok(Actions(env, selected, items.value))
  {
    var launches: seq<LaunchItem> := [];
    for i := 0 to |selected|
      invariant Launches(env, selected[..i]) == Ok(launches)
    {
      var item := selected[i];
      assert selected[..i + 1][..i] == selected[..i];
      LaunchesFailsOn(env, selected, i + 1);
      if item !in env.shells {
        return Err(UnknownItem);
      }
      if !Supported(env, item) {
        continue;
      }
      var cwd := ResolveDirectory(env.shells[item].cwd, env.home, env.usable);
      if cwd.Err? {
        return Err(cwd.error);
      }
      launches := launches + [LaunchItem(item, cwd.value, CommandOf(env.approvals(item)))];
    }
    assert selected[..|selected|] == selected;
    var actions;
    match env.terminal {
      case Gnome => actions := GnomePlan(env, launches);
      case Ghostty => actions := GhosttyPlan(env, launches);
    }
    var unsupported: seq<Action> := [];
    for i := 0 to |selected|
      invariant unsupported == UnsupportedActions(env, selected[..i])
    {
      assert selected[..i + 1][..i] == selected[..i];
      if !Supported(env, selected[i]) {
        unsupported := unsupported + [Action([selected[i]], [], Unavailable, [UnsupportedAdapter])];
      }
    }
    r := Ok(Annotated(env, actions + unsupported));
  }

  // A failure on some prefix is the failure of the whole.
  lemma {:induction false} LaunchesFailsOn(env: Env, selected: seq<ItemId>, n: nat)
    requires n <= |selected|
    ensures Launches(env, selected[..n]).Err? ==> Launches(env, selected) == Launches(env, selected[..n])
    decreases |selected|
  {
    if n == |selected| {
      assert selected[..n] == selected;
    } else {
      assert selected[..|selected| - 1][..n] == selected[..n];
      LaunchesFailsOn(env, selected[..|selected| - 1], n);
    }
  }

  // ----- executing -----

  function KindOf(action: Action, run: Run): OutcomeKind {
    if action.argv == [] then Skip
    else match run
      case NotFound => Skip
      case TimedOut => Failure
      case Exited(status) => if status == 0 then Success else Failure
  }

  function Decimal(n: int): string
    decreases if n < 0 then 1 - n else n
  {
    if n < 0 then "-" + Decimal(-n)
    else (if n < 10 then "" else Decimal(n / 10)) + [(n % 10) as char + '0']
  }

  function MessageOf(item: ItemId, action: Action, run: Run): string {
    item + ": "
    + if action.argv == [] then "terminal unavailable"
      else match run
        case NotFound => "terminal unavailable"
        case TimedOut => "terminal launch timed out; retryable"
        case Exited(status) =>
          if status == 0 then "terminal launch succeeded"
          else "terminal launch failed with status " + Decimal(status)
  }

  function OutcomeOf(item: ItemId, action: Action, run: Run): Outcome {
    Outcome(item, KindOf(action, run), MessageOf(item, action, run))
  }

  function OutcomesOf(action: Action, run: Run): (os: seq<Outcome>)
    ensures |os| == |action.items|
    ensures forall i :: 0 <= i < |os| ==> os[i] == OutcomeOf(action.items[i], action, run)
  {
    seq(|action.items|, i requires 0 <= i < |action.items| => OutcomeOf(action.items[i], action, run))
  }

  function Executed(actions: seq<Action>, runs: nat -> Run): seq<Outcome> {
    if actions == [] then []
    else Executed(actions[..|actions| - 1], runs) + OutcomesOf(actions[|actions| - 1], runs(|actions| - 1))
  }

  method Execute(actions: seq<Action>, runs: nat -> Run) returns (outcomes: seq<Outcome>)
    ensures outcomes == Executed(actions, runs)
  {
    outcomes := [];
    for i := 0 to |actions|
      invariant outcomes == Executed(actions[..i], runs)
    {
      assert actions[..i + 1][..i] == actions[..i];
      outcomes := outcomes + OutcomesOf(actions[i], runs(i));
    }
    assert actions[..|actions|] == actions;
  }
}
