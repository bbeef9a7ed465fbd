/** Every selected item is launched by exactly one action and reported by exactly one outcome, or the server refuses. */
module LaunchCoverage {
  import opened Wrappers
  import opened RecoveryRecord
  import opened TerminalLaunch
  import RestoreProtocol

  /** The items named by a list of actions, action after action. */
  function Named(actions: seq<Action>): seq<ItemId> {
    if actions == [] then [] else Named(actions[..|actions| - 1]) + actions[|actions| - 1].items
  }

  /** Each of `ids`, as often as it stands there, in some action. */
  ghost predicate Covers(actions: seq<Action>, ids: seq<ItemId>) {
    multiset(Named(actions)) == multiset(ids)
  }

  function Ids(items: seq<LaunchItem>): (ids: seq<ItemId>)
    ensures |ids| == |items| && forall i :: 0 <= i < |ids| ==> ids[i] == items[i].item
  {
    seq(|items|, i requires 0 <= i < |items| => items[i].item)
  }

  lemma {:induction false} NamedAppend(a: seq<Action>, b: seq<Action>)
    ensures Named(a + b) == Named(a) + Named(b)
  {
    if b == [] {
      assert a + b == a;
    } else {
      assert (a + b)[..|a + b| - 1] == a + b[..|b| - 1];
      NamedAppend(a, b[..|b| - 1]);
    }
  }

  // One action for each id.
  lemma {:induction false} SinglesName(actions: seq<Action>, ids: seq<ItemId>)
    requires |actions| == |ids| && forall i :: 0 <= i < |ids| ==> actions[i].items == [ids[i]]
    ensures Named(actions) == ids
  {
    if ids != [] {
      SinglesName(actions[..|ids| - 1], ids[..|ids| - 1]);
      assert ids == ids[..|ids| - 1] + [ids[|ids| - 1]];
    }
  }

  lemma {:induction false} SameItemsNameTheSame(a: seq<Action>, b: seq<Action>)
    requires |a| == |b| && forall i :: 0 <= i < |a| ==> a[i].items == b[i].items
    ensures Named(a) == Named(b)
  {
    if a != [] {
      SameItemsNameTheSame(a[..|a| - 1], b[..|b| - 1]);
    }
  }

  // ----- the adapters -----

  lemma {:induction false} TabsAndDropped(env: Env, items: seq<LaunchItem>)
    ensures multiset(Tabs(env, items)) + multiset(Dropped(env, items)) == multiset(Ids(items))
  {
    if items != [] {
      var front, last := items[..|items| - 1], items[|items| - 1];
      assert Ids(items) == Ids(front) + [last.item];
      TabsAndDropped(env, front);
    }
  }

  lemma {:induction false} WhatIsEmpty(env: Env, items: seq<LaunchItem>)
    ensures Dropped(env, items) == [] <==> NoneMissing(env, items)
    ensures Tabs(env, items) == [] <==> AllMissing(env, items)
  {
    if items != [] {
      var front, last := items[..|items| - 1], items[|items| - 1];
      WhatIsEmpty(env, front);
      assert items == front + [last];
      assert last in items && forall item :: item in front ==> item in items;
      assert NoneMissing(env, items) <==> NoneMissing(env, front) && Launchable(env, last);
      assert AllMissing(env, items) <==> AllMissing(env, front) && !Launchable(env, last);
    }
  }

  predicate NoneMissing(env: Env, items: seq<LaunchItem>) {
    forall item :: item in items ==> Launchable(env, item)
  }

  predicate AllMissing(env: Env, items: seq<LaunchItem>) {
    forall item :: item in items ==> !Launchable(env, item)
  }

  /** The grouped gnome-terminal plan covers its items exactly when it is not a mixture: one window opens some tabs and
      the items whose directory is missing are in no action. */
  lemma GnomeCoversUnlessMixed(env: Env, items: seq<LaunchItem>)
    ensures Covers(GnomeActions(env, items), Ids(items))
       <==> env.executable.None? || NoneMissing(env, items) || AllMissing(env, items)
  {
    var tabs, dropped := Tabs(env, items), Dropped(env, items);
    TabsAndDropped(env, items);
    WhatIsEmpty(env, items);
    if env.executable.None? || tabs == [] {
      SinglesName(AllUnavailable(items), Ids(items));
    } else {
      var actions := GnomeActions(env, items);
      assert Named(actions) == Named([]) + tabs by {
        assert actions[..0] == [];
      }
      if dropped != [] {
        assert |multiset(dropped)| > 0;
      }
    }
  }

  lemma GhosttyCovers(env: Env, items: seq<LaunchItem>)
    ensures Named(GhosttyActions(env, items)) == Ids(items)
  {
    SinglesName(GhosttyActions(env, items), Ids(items));
  }

  lemma PlanCoversExactly(env: Env, items: seq<LaunchItem>)
    ensures Covers(PlanOf(env, items), Ids(items))
       <==> env.terminal.Ghostty? || env.executable.None? || NoneMissing(env, items) || AllMissing(env, items)
  {
    if env.terminal.Gnome? {
      GnomeCoversUnlessMixed(env, items);
    } else {
      GhosttyCovers(env, items);
    }
  }

  // ----- all actions of an attempt -----

  lemma NamedOfOneMore(actions: seq<Action>, action: Action)
    ensures Named(actions + [action]) == Named(actions) + action.items
  {
    assert (actions + [action])[..|actions|] == actions;
  }

  lemma OneMoreLaunch(env: Env, front: seq<ItemId>, item: ItemId)
    requires Launches(env, front + [item]).Ok? && Supported(env, item)
    ensures Launches(env, front).Ok?
    ensures Ids(Launches(env, front + [item]).value) == Ids(Launches(env, front).value) + [item]
    ensures UnsupportedActions(env, front + [item]) == UnsupportedActions(env, front)
  {
    assert (front + [item])[..|front|] == front;
  }

  lemma OneMoreUnsupported(env: Env, front: seq<ItemId>, item: ItemId)
    requires Launches(env, front + [item]).Ok? && !Supported(env, item)
    ensures Launches(env, front + [item]) == Launches(env, front)
    ensures Named(UnsupportedActions(env, front + [item])) == Named(UnsupportedActions(env, front)) + [item]
  {
    assert (front + [item])[..|front|] == front;
    NamedOfOneMore(UnsupportedActions(env, front), Action([item], [], Unavailable, [UnsupportedAdapter]));
  }

  lemma {:induction false} SupportedAndNot(env: Env, selected: seq<ItemId>)
    requires Launches(env, selected).Ok?
    ensures multiset(Ids(Launches(env, selected).value)) + multiset(Named(UnsupportedActions(env, selected)))
         == multiset(selected)
  {
    if selected != [] {
      var front, item := selected[..|selected| - 1], selected[|selected| - 1];
      assert selected == front + [item];
      if Supported(env, item) {
        OneMoreLaunch(env, front, item);
      } else {
        OneMoreUnsupported(env, front, item);
      }
      SupportedAndNot(env, front);
    }
  }

  lemma Cancel<T>(a: multiset<T>, b: multiset<T>, c: multiset<T>)
    ensures a + c == b + c <==> a == b
  {
    if a + c == b + c {
      forall x
        ensures a[x] == b[x]
      {
        assert (a + c)[x] == a[x] + c[x] && (b + c)[x] == b[x] + c[x];
      }
    }
  }

  lemma NamedOfActions(env: Env, selected: seq<ItemId>, items: seq<LaunchItem>)
    ensures multiset(Named(Actions(env, selected, items)))
         == multiset(Named(PlanOf(env, items))) + multiset(Named(UnsupportedActions(env, selected)))
  {
    var plan, rest := PlanOf(env, items), UnsupportedActions(env, selected);
    SameItemsNameTheSame(Annotated(env, plan + rest), plan + rest);
    NamedAppend(plan, rest);
  }

  lemma ActionsCoverExactly(env: Env, selected: seq<ItemId>)
    requires Launches(env, selected).Ok?
    ensures var items := Launches(env, selected).value;
            Covers(Actions(env, selected, items), selected) <==> Covers(PlanOf(env, items), Ids(items))
  {
    var items := Launches(env, selected).value;
    NamedOfActions(env, selected, items);
    SupportedAndNot(env, selected);
    Cancel(multiset(Named(PlanOf(env, items))), multiset(Ids(items)), multiset(Named(UnsupportedActions(env, selected))));
  }

  // ----- outcomes and the server's check -----

  lemma {:induction false} OutcomesNameActions(actions: seq<Action>, runs: nat -> Run)
    ensures OutcomeItems(Executed(actions, runs)) == Named(actions)
  {
    if actions != [] {
      var front, last := actions[..|actions| - 1], actions[|actions| - 1];
      var os := OutcomesOf(last, runs(|actions| - 1));
      OutcomesNameActions(front, runs);
      assert OutcomeItems(Executed(front, runs) + os) == OutcomeItems(Executed(front, runs)) + OutcomeItems(os);
      assert OutcomeItems(os) == last.items;
    }
  }

  /** These adapters report a success, a skip or a failure, never a warning. */
  lemma {:induction false} NeverAWarning(actions: seq<Action>, runs: nat -> Run)
    ensures forall o :: o in Executed(actions, runs) ==> !o.kind.Warning?
  {
    if actions != [] {
      NeverAWarning(actions[..|actions| - 1], runs);
    }
  }

  lemma {:induction false} UniqueCounts(ids: seq<ItemId>)
    ensures Unique(ids) <==> forall id :: multiset(ids)[id] <= 1
  {
    if ids != [] {
      var front, last := ids[..|ids| - 1], ids[|ids| - 1];
      assert ids == front + [last];
      UniqueCounts(front);
      assert last in front <==> multiset(front)[last] > 0;
      if last in front {
        assert multiset(ids)[last] > 1;
        var i :| 0 <= i < |front| && front[i] == last;
        assert ids[i] == ids[|front|];
      } else {
        assert forall id :: id != last ==> multiset(ids)[id] == multiset(front)[id];
        if !Unique(front) {
          var i, j :| 0 <= i < j < |front| && front[i] == front[j];
          assert ids[i] == ids[j];
        }
      }
    }
  }

  lemma CheckMeansSameItems(named: seq<ItemId>, selected: seq<ItemId>)
    requires Unique(selected)
    ensures Unique(named) && ToSet(named) == ToSet(selected) <==> multiset(named) == multiset(selected)
  {
    UniqueCounts(named);
    UniqueCounts(selected);
    assert forall id :: id in named <==> multiset(named)[id] > 0;
    assert forall id :: id in selected <==> multiset(selected)[id] > 0;
    if multiset(named) == multiset(selected) {
      assert forall id :: id in ToSet(named) <==> id in ToSet(selected);
    } else if Unique(named) && ToSet(named) == ToSet(selected) {
      forall id
        ensures multiset(named)[id] == multiset(selected)[id]
      {
        assert id in ToSet(named) <==> id in ToSet(selected);
        assert multiset(named)[id] <= 1 && multiset(selected)[id] <= 1;
      }
    }
  }

  // What the protocol does with the outcomes of executing these actions.
  function AfterRuns(plan: RestoreProtocol.LaunchPlan, adapter: string, actions: seq<Action>, runs: nat -> Run)
    : RestoreProtocol.Pc
  {
    RestoreProtocol.AfterLaunch(plan, Some(adapter), RestoreProtocol.Launched(Executed(actions, runs)))
  }

  /** The server goes on to commit the outcomes exactly when the actions cover the selection. */
  lemma CommittedExactlyWhenCovered(
    plan: RestoreProtocol.LaunchPlan, adapter: string, actions: seq<Action>, runs: nat -> Run)
    requires Unique(plan.selected)
    ensures AfterRuns(plan, adapter, actions, runs).WantDispatchToCommit? <==> Covers(actions, plan.selected)
  {
    OutcomesNameActions(actions, runs);
    CheckMeansSameItems(Named(actions), plan.selected);
  }

  /** On a file system that does not change meanwhile, absolute directories resolve to ones that launch. */
  lemma ResolvedIsLaunchable(env: Env, recorded: Path)
    requires recorded.absolute && env.home.absolute && forall p :: env.usable(p) ==> env.isDir(p)
    requires Resolved(recorded, env.home, env.usable).Ok?
    ensures var cwd := Resolved(recorded, env.home, env.usable).value; cwd.absolute && env.isDir(cwd)
    decreases |recorded.parts|
  {
    if !env.usable(recorded) && recorded.parts != [] {
      ResolvedIsLaunchable(env, Parent(recorded));
    }
  }

  ghost predicate Quiescent(env: Env) {
    && env.home.absolute && (forall p :: env.usable(p) ==> env.isDir(p))
    && forall item :: item in env.shells ==> env.shells[item].cwd.absolute
  }

  /** Planning fails only on an unknown item or when home itself is unusable. */
  lemma {:induction false} PlanningSucceeds(env: Env, selected: seq<ItemId>)
    requires (forall item :: item in selected ==> item in env.shells) && env.usable(env.home)
    ensures Launches(env, selected).Ok?
  {
    if selected != [] {
      var front, item := selected[..|selected| - 1], selected[|selected| - 1];
      PlanningSucceeds(env, front);
      assert item in env.shells;
      ResolvedIsDeepest(env.shells[item].cwd, env.home, env.usable);
    }
  }

  lemma {:induction false} NothingIsMissing(env: Env, selected: seq<ItemId>)
    requires Quiescent(env) && Launches(env, selected).Ok?
    ensures NoneMissing(env, Launches(env, selected).value)
  {
    if selected != [] {
      var front, item := selected[..|selected| - 1], selected[|selected| - 1];
      NothingIsMissing(env, front);
      if Supported(env, item) {
        ResolvedIsLaunchable(env, env.shells[item].cwd);
      }
    }
  }

  /** For every selection of distinct items, whatever the commands do, planning that succeeds leads to a commit: the
      server's check of the outcomes never fails. */
  lemma EveryPlanIsCommitted(env: Env, plan: RestoreProtocol.LaunchPlan, adapter: string, runs: nat -> Run)
    requires Quiescent(env) && Unique(plan.selected) && Launches(env, plan.selected).Ok?
    ensures var actions := Actions(env, plan.selected, Launches(env, plan.selected).value);
            AfterRuns(plan, adapter, actions, runs).WantDispatchToCommit?
  {
    var items := Launches(env, plan.selected).value;
    NothingIsMissing(env, plan.selected);
    PlanCoversExactly(env, items);
    ActionsCoverExactly(env, plan.selected);
    CommittedExactlyWhenCovered(plan, adapter, Actions(env, plan.selected, items), runs);
  }

  /** If directories can vanish between planning and launching, it leads to a commit exactly when the plan is not a
      mixture. */
  lemma CommittedUnlessMixed(env: Env, plan: RestoreProtocol.LaunchPlan, adapter: string, runs: nat -> Run)
    requires Unique(plan.selected) && Launches(env, plan.selected).Ok?
    ensures var items := Launches(env, plan.selected).value;
            (AfterRuns(plan, adapter, Actions(env, plan.selected, items), runs).WantDispatchToCommit?
             <==> env.terminal.Ghostty? || env.executable.None? || NoneMissing(env, items) || AllMissing(env, items))
  {
    var items := Launches(env, plan.selected).value;
    PlanCoversExactly(env, items);
    ActionsCoverExactly(env, plan.selected);
    CommittedExactlyWhenCovered(plan, adapter, Actions(env, plan.selected, items), runs);
  }

  const HERE := Path(true, ["here"])
  const GONE := Path(true, ["gone"])

  // Two items, one of whose directories vanishes between resolving and planning.
  function VanishingEnv(): Env {
    Env(map["a" := Shell("gnome-terminal", HERE), "b" := Shell("gnome-terminal", GONE)], {"gnome-terminal"},
        _ => NoCommand, _ => true, p => p == HERE, HERE, Gnome, Some("gnome-terminal"))
  }

  lemma VanishingLaunches()
    ensures Launches(VanishingEnv(), ["a", "b"]) == Ok([LaunchItem("a", HERE, None), LaunchItem("b", GONE, None)])
  {
    var env, selected := VanishingEnv(), ["a", "b"];
    var a, b := LaunchItem("a", HERE, None), LaunchItem("b", GONE, None);
    assert selected[..1] == ["a"] && ["a"][..0] == [];
    assert Launches(env, []) == Ok([]);
    assert Launches(env, ["a"]) == Ok([] + [a]);
    assert [] + [a] == [a] && [a] + [b] == [a, b];
  }

  /** A selection that ends in an internal error. */
  lemma VanishedDirectoryIsRefused(runs: nat -> Run)
    ensures var env, record := VanishingEnv(), Record("w", 0, ["a", "b"], [], [], "");
            var plan := RestoreProtocol.LaunchPlan(record, ["a", "b"], {}, None);
            var items := Launches(env, plan.selected);
            && Fresh(record) && items.Ok?
            && AfterRuns(plan, "gnome", Actions(env, plan.selected, items.value), runs)
               == RestoreProtocol.Answered(RestoreProtocol.InternalError)
  {
    var env, record := VanishingEnv(), Record("w", 0, ["a", "b"], [], [], "");
    var plan := RestoreProtocol.LaunchPlan(record, ["a", "b"], {}, None);
    VanishingLaunches();
    var items := Launches(env, plan.selected).value;
    assert Launchable(env, items[0]) && !Launchable(env, items[1]);
    assert items[0] in items && items[1] in items;
    assert !NoneMissing(env, items) && !AllMissing(env, items);
    CommittedUnlessMixed(env, plan, "gnome", runs);
    AfterRunsIsCommitOrError(plan, "gnome", Actions(env, plan.selected, items), runs);
  }

  lemma AfterRunsIsCommitOrError(
    plan: RestoreProtocol.LaunchPlan, adapter: string, actions: seq<Action>, runs: nat -> Run)
    ensures var pc := AfterRuns(plan, adapter, actions, runs);
            pc.WantDispatchToCommit? || pc == RestoreProtocol.Answered(RestoreProtocol.InternalError)
  {}
}
