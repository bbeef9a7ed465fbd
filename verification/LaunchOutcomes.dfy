/**
 What becomes of each launched item: the outcome it is reported with and whether it counts as restored, said by the
 command line it was in and how that ended.
 */
module LaunchOutcomes {
  import opened Wrappers
  import opened RecoveryRecord
  import opened TerminalLaunch
  import opened LaunchCommands
  import opened LaunchCoverage
  import RestoreDecisions
  import RestoreProtocol

  // ----- the number in a message -----

  predicate AllDigits(text: string) {
    forall i :: 0 <= i < |text| ==> '0' <= text[i] <= '9'
  }

  /** The number that decimal digits stand for, with a sign before them if it is negative. */
  function Number(text: string): int {
    if text == "" then 0
    else if text[0] == '-' then -Number(text[1..])
    else 10 * Number(text[..|text| - 1]) + (text[|text| - 1] as int - '0' as int)
  }

  lemma {:induction false} DigitsReadBack(n: nat)
    ensures Decimal(n) != "" && AllDigits(Decimal(n)) && Number(Decimal(n)) == n
    decreases n
  {
    if n >= 10 {
      DigitsReadBack(n / 10);
      var text := Decimal(n);
      assert text[..|text| - 1] == Decimal(n / 10);
      assert text[0] == Decimal(n / 10)[0];
    }
  }

  lemma NegativeNumber(text: string)
    ensures Number("-" + text) == -Number(text)
  {
    assert ("-" + text)[1..] == text;
  }

  /** The status in a message reads back as the status of the command. */
  lemma StatusReadsBack(status: int)
    ensures Number(Decimal(status)) == status
  {
    if status < 0 {
      DigitsReadBack(-status);
      NegativeNumber(Decimal(-status));
      assert Decimal(status) == "-" + Decimal(-status);
    } else {
      DigitsReadBack(status);
    }
  }

  // ----- outcomes -----

  predicate RanWell(action: Action, run: Run) {
    action.argv != [] && run == Exited(0)
  }

  predicate NeverStarted(action: Action, run: Run) {
    action.argv == [] || run == NotFound
  }

  /** An outcome that tells how this action ended for one of its items. */
  predicate Tells(o: Outcome, action: Action, run: Run) {
    && o.item in action.items
    && (o.kind == Success <==> RanWell(action, run))
    && (o.kind == Skip <==> NeverStarted(action, run))
    && (o.kind == Failure <==> !RanWell(action, run) && !NeverStarted(action, run))
    && (o.kind == Success ==> o.message == o.item + ": " + "terminal launch succeeded")
    && (o.kind == Skip ==> o.message == o.item + ": " + "terminal unavailable")
    && (o.kind == Failure && run == TimedOut ==> o.message == o.item + ": " + "terminal launch timed out; retryable")
    && (o.kind == Failure && run.Exited? ==>
          o.message == o.item + ": " + ("terminal launch failed with status " + Decimal(run.status)))
  }

  lemma OneTells(item: ItemId, action: Action, run: Run)
    requires item in action.items
    ensures Tells(OutcomeOf(item, action, run), action, run)
  {
    if action.argv != [] && run.Exited? {
      assert run == Exited(0) <==> run.status == 0;
    }
  }

  lemma LastTells(action: Action, run: Run, o: Outcome)
    requires o in OutcomesOf(action, run)
    ensures Tells(o, action, run)
  {
    var j :| 0 <= j < |action.items| && OutcomesOf(action, run)[j] == o;
    OneTells(action.items[j], action, run);
  }

  lemma {:induction false} OutcomesTell(actions: seq<Action>, runs: nat -> Run, o: Outcome)
    requires o in Executed(actions, runs)
    ensures exists k :: 0 <= k < |actions| && Tells(o, actions[k], runs(k))
  {
    var n := |actions| - 1;
    if o in Executed(actions[..n], runs) {
      OutcomesTell(actions[..n], runs, o);
      var k :| 0 <= k < n && Tells(o, actions[..n][k], runs(k));
      assert Tells(o, actions[k], runs(k));
    } else {
      LastTells(actions[n], runs(n), o);
    }
  }

  lemma {:induction false} EachIsTold(actions: seq<Action>, runs: nat -> Run, k: nat, item: ItemId)
    requires k < |actions| && item in actions[k].items
    ensures exists o :: o in Executed(actions, runs) && o.item == item && Tells(o, actions[k], runs(k))
  {
    var n := |actions| - 1;
    if k < n {
      EachIsTold(actions[..n], runs, k, item);
      var o :| o in Executed(actions[..n], runs) && o.item == item && Tells(o, actions[k], runs(k));
      assert o in Executed(actions, runs);
    } else {
      var j :| 0 <= j < |actions[n].items| && actions[n].items[j] == item;
      var o := OutcomesOf(actions[n], runs(n))[j];
      OneTells(item, actions[n], runs(n));
      assert o in OutcomesOf(actions[n], runs(n)) && o in Executed(actions, runs);
    }
  }

  lemma {:induction false} NamedByAction(actions: seq<Action>, k: nat, item: ItemId)
    requires k < |actions| && item in actions[k].items
    ensures item in Named(actions)
  {
    if k < |actions| - 1 {
      NamedByAction(actions[..|actions| - 1], k, item);
    }
  }

  lemma UniqueParts(a: seq<ItemId>, b: seq<ItemId>)
    requires Unique(a + b)
    ensures Unique(a) && forall x :: x in a ==> x !in b
  {
    forall i, j | 0 <= i < j < |a| ensures a[i] != a[j] {
      assert (a + b)[i] == a[i] && (a + b)[j] == a[j];
    }
    forall i, j | 0 <= i < |a| && 0 <= j < |b| ensures a[i] != b[j] {
      assert (a + b)[i] == a[i] && (a + b)[|a| + j] == b[j];
    }
  }

  // Actions that name distinct items name each once.
  lemma {:induction false} OneAction(actions: seq<Action>, j: nat, k: nat, item: ItemId)
    requires Unique(Named(actions)) && j < |actions| && k < |actions|
    requires item in actions[j].items && item in actions[k].items
    ensures j == k
  {
    var n := |actions| - 1;
    var front := actions[..n];
    UniqueParts(Named(front), actions[n].items);
    if j < n {
      NamedByAction(front, j, item);
    }
    if k < n {
      NamedByAction(front, k, item);
    }
    if j < n && k < n {
      OneAction(front, j, k, item);
    }
  }

  /** Of actions over distinct items: each item is reported, as a success exactly if its action has a command line that
      exited with 0, as skipped exactly if it has none or its program was not found, and otherwise as a failure. */
  lemma OutcomesExactly(actions: seq<Action>, runs: nat -> Run, k: nat, item: ItemId)
    requires Unique(Named(actions)) && k < |actions| && item in actions[k].items
    ensures exists o :: o in Executed(actions, runs) && o.item == item
    ensures forall o :: o in Executed(actions, runs) && o.item == item ==>
              && (o.kind == Success <==> actions[k].argv != [] && runs(k) == Exited(0))
              && (o.kind == Skip <==> actions[k].argv == [] || runs(k) == NotFound)
              && (o.kind == Failure <==> actions[k].argv != [] && runs(k) != Exited(0) && runs(k) != NotFound)
  {
    EachIsTold(actions, runs, k, item);
    forall o | o in Executed(actions, runs) && o.item == item
      ensures Tells(o, actions[k], runs(k))
    {
      OutcomesTell(actions, runs, o);
      var j :| 0 <= j < |actions| && Tells(o, actions[j], runs(j));
      OneAction(actions, j, k, item);
    }
  }

  // ----- what the commit records -----

  /** The item stands in a command line that exited with 0. */
  predicate Opened(actions: seq<Action>, runs: nat -> Run, item: ItemId) {
    exists k :: 0 <= k < |actions| && item in actions[k].items && actions[k].argv != [] && runs(k) == Exited(0)
  }

  predicate Succeeded(os: seq<Outcome>, item: ItemId) {
    exists o :: o in os && o.item == item && (o.kind == Success || o.kind == Warning)
  }

  lemma SucceededExactly(actions: seq<Action>, runs: nat -> Run, item: ItemId)
    ensures Succeeded(Executed(actions, runs), item) <==> Opened(actions, runs, item)
  {
    var os := Executed(actions, runs);
    if Succeeded(os, item) {
      var o :| o in os && o.item == item && (o.kind == Success || o.kind == Warning);
      OutcomesTell(actions, runs, o);
    }
    if Opened(actions, runs, item) {
      var k :| 0 <= k < |actions| && item in actions[k].items && actions[k].argv != [] && runs(k) == Exited(0);
      EachIsTold(actions, runs, k, item);
    }
  }

  lemma ClippingKeepsSuccess(os: seq<Outcome>, item: ItemId)
    ensures Succeeded(RestoreProtocol.Clipped(os), item) <==> Succeeded(os, item)
  {
    var clipped := RestoreProtocol.Clipped(os);
    if o :| o in os && o.item == item && (o.kind == Success || o.kind == Warning) {
      var k :| 0 <= k < |os| && os[k] == o;
      assert clipped[k] in clipped && OutcomeItems(clipped)[k] == OutcomeItems(os)[k];
    }
    if o :| o in clipped && o.item == item && (o.kind == Success || o.kind == Warning) {
      var k :| 0 <= k < |os| && clipped[k] == o;
      assert os[k] in os && OutcomeItems(clipped)[k] == OutcomeItems(os)[k];
    }
  }

  /** From launch to record: an attempt that is committed newly completes exactly the items whose command line exited
      with 0. All others stay open. */
  lemma CompletedExactlyTheOpened(
    fits: Record -> bool, plan: RestoreProtocol.LaunchPlan, adapter: string, actions: seq<Action>, runs: nat -> Run,
    item: ItemId)
    requires Unique(plan.record.completed) && AfterRuns(plan, adapter, actions, runs).WantDispatchToCommit?
    requires var pc := AfterRuns(plan, adapter, actions, runs);
             Commit(fits, plan.record, plan.record.workspace, pc.attempt, pc.outcomes).Ok?
    ensures var pc := AfterRuns(plan, adapter, actions, runs);
            item in Commit(fits, plan.record, plan.record.workspace, pc.attempt, pc.outcomes).value.completed
            <==> item in plan.record.completed || Opened(actions, runs, item)
  {
    var pc := AfterRuns(plan, adapter, actions, runs);
    RestoreDecisions.CompletedExactly(fits, plan.record, plan.record.workspace, pc.attempt, pc.outcomes, item);
    assert pc.outcomes == RestoreProtocol.Clipped(Executed(actions, runs));
    ClippingKeepsSuccess(Executed(actions, runs), item);
    SucceededExactly(actions, runs, item);
  }

  /** Only items that could be opened are completed by it. */
  lemma OnlyTheOpenableAreCompleted(
    env: Env, fits: Record -> bool, plan: RestoreProtocol.LaunchPlan, adapter: string, runs: nat -> Run, item: ItemId)
    requires Unique(plan.record.completed) && Launches(env, plan.selected).Ok?
    requires var actions := Actions(env, plan.selected, Launches(env, plan.selected).value);
             var pc := AfterRuns(plan, adapter, actions, runs);
             && pc.WantDispatchToCommit?
             && Commit(fits, plan.record, plan.record.workspace, pc.attempt, pc.outcomes).Ok?
             && item in Commit(fits, plan.record, plan.record.workspace, pc.attempt, pc.outcomes).value.completed
    ensures item in plan.record.completed
            || (env.executable.Some? && CanOpen(env, Launches(env, plan.selected).value, item))
  {
    var actions := Actions(env, plan.selected, Launches(env, plan.selected).value);
    CompletedExactlyTheOpened(fits, plan, adapter, actions, runs, item);
    CommandLineExactly(env, plan.selected, item);
  }

  // ----- a tab that is reported but never opened -----

  function TwoTabs(words: seq<string>): seq<LaunchItem> {
    [LaunchItem("a", HERE, Some(words)), LaunchItem("b", HERE, None)]
  }

  /** The first of two items has a command: the command line then asks for one tab only, and an exit status of 0 still
      reports both as restored. */
  lemma SwallowedTabIsReported(env: Env, words: seq<string>, runs: nat -> Run)
    requires env.executable.Some? && env.isDir(HERE) && runs(0) == Exited(0)
    ensures var actions := GnomeActions(env, TwoTabs(words));
            && |actions| == 1 && TabsAsked(Arguments(actions[0].argv)) == 1
            && Succeeded(Executed(actions, runs), "a") && Succeeded(Executed(actions, runs), "b")
  {
    var items, actions := TwoTabs(words), GnomeActions(env, TwoTabs(words));
    assert Openable(env, items) == items by {
      assert Openable(env, items[1..]) == items[1..];
    }
    GnomeGroups(env, items);
    AskedUpToFirstCommand(items, true);
    assert Ids(items)[0] == "a" && Ids(items)[1] == "b";
    SucceededExactly(actions, runs, "a");
    SucceededExactly(actions, runs, "b");
  }
}
