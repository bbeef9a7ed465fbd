/**
 Every final outcome a launch reports over a run is recorded, lost or still on its way to the file. A report is lost with
 the launch that made it: refused by the outcome check or by the store, stopped by an I/O error, or cut off by a crash.
 */
module LaunchAccounting {
  import opened Wrappers
  import opened RecoveryRecord
  import opened RecoveryStore
  import opened RestoreProtocol
  import opened RestoreSafety

  /** How often the launch of this task ended `item` for good in outcomes that are not in the file yet. */
  function Held(pc: Pc, item: ItemId): nat {
    match pc
    case WantDispatchToCommit(_, _, os) => OutcomeCount(os, item)
    case WantStore(stage) => if stage.Commitment? then OutcomeCount(stage.outcomes, item) else 0
    case InStore(stage, _, taken) => if stage.Commitment? && taken == 0 then OutcomeCount(stage.outcomes, item) else 0
    case _ => 0
  }

  function InFlight(tasks: seq<Task>, item: ItemId): nat {
    if tasks == [] then 0 else Held(tasks[0].pc, item) + InFlight(tasks[1..], item)
  }

  function Recorded(s: System, item: ItemId): nat {
    if s.disk.recovery.Some? then TerminalCount(s.disk.recovery.value.attempts, item) else 0
  }

  /** What the adapter reports in this event. */
  function Reported(s: System, e: Event, item: ItemId): nat
    requires Can(s, e)
  {
    if e.TaskStep? && s.tasks[e.task].pc.Launching? && s.adapter.Some? && e.choice.Launched? then
      OutcomeCount(e.choice.outcomes, item)
    else 0
  }

  /** The operation a task is in ends with this step. */
  predicate LeavesStore(s: System, t: nat, c: Choice)
    requires CanStep(s, t, c)
  {
    var pc := s.tasks[t].pc;
    pc.InStore? && (c.IoError? || pc.taken >= |PlanOp(s.fits, pc.start, OpOf(pc.stage)).steps|)
  }

  /** What this event loses: reports that fail the outcome check, that leave the store unwritten, or that a crash finds
      unwritten. */
  function Lost(s: System, e: Event, item: ItemId): nat
    requires Can(s, e)
  {
    match e
    case TaskStep(t, c) =>
      var pc := s.tasks[t].pc;
      if pc.Launching? then
        if AfterLaunch(pc.plan, s.adapter, c).WantDispatchToCommit? then 0 else Reported(s, e, item)
      else if LeavesStore(s, t, c) then Held(pc, item)
      else 0
    case Crash => InFlight(s.tasks, item)
    case _ => 0
  }

  // ----- one event -----

  lemma {:induction false} InFlightUpdate(tasks: seq<Task>, t: nat, task: Task, item: ItemId)
    requires t < |tasks|
    ensures InFlight(tasks[t := task], item) + Held(tasks[t].pc, item) == InFlight(tasks, item) + Held(task.pc, item)
  {
    if t == 0 {
      assert tasks[t := task][1..] == tasks[1..];
    } else {
      assert tasks[t := task][1..] == tasks[1..][t - 1 := task];
      InFlightUpdate(tasks[1..], t - 1, task, item);
    }
  }

  lemma {:induction false} InFlightArrival(tasks: seq<Task>, task: Task, item: ItemId)
    ensures InFlight(tasks + [task], item) == InFlight(tasks, item) + Held(task.pc, item)
  {
    if tasks == [] {
      assert tasks + [task] == [task];
    } else {
      assert (tasks + [task])[1..] == tasks[1..] + [task];
      InFlightArrival(tasks[1..], task, item);
    }
  }

  lemma {:induction false} ClippedCounts(os: seq<Outcome>, item: ItemId)
    ensures OutcomeCount(Clipped(os), item) == OutcomeCount(os, item)
  {
    if os != [] {
      var front := os[..|os| - 1];
      assert Clipped(os)[..|os| - 1] == Clipped(front);
      assert OutcomeItems(Clipped(os))[|os| - 1] == OutcomeItems(os)[|os| - 1];
      ClippedCounts(front, item);
    }
  }

  lemma LaunchConserves(s: System, t: nat, c: Choice, item: ItemId)
    requires CanStep(s, t, c) && s.tasks[t].pc.Launching?
    ensures Reported(s, TaskStep(t, c), item)
         == Held(DoStep(s, t, c).tasks[t].pc, item) + Lost(s, TaskStep(t, c), item)
    ensures DoStep(s, t, c).disk == s.disk
  {
    if c.Launched? {
      ClippedCounts(c.outcomes, item);
    }
  }

  // A file step either writes a commit or leaves the stored record as it is.
  lemma FileStepConserves(s: System, t: nat, item: ItemId)
    requires Inv(s) && CanStep(s, t, Proceed) && s.tasks[t].pc.InStore? && !LeavesStore(s, t, Proceed)
    requires s.disk.recovery.Some? && FileStepped(s, t).disk.recovery.Some?
    ensures Held(s.tasks[t].pc, item) + Recorded(s, item)
         == Held(FileStepped(s, t).tasks[t].pc, item) + Recorded(FileStepped(s, t), item)
  {
    var pc := s.tasks[t].pc;
    assert InProgress(s.fits, s.disk, pc) && TaskOk(s.tasks[t]);
    assert View(s) == pc.start;
    match pc.stage
    case Commitment(record, a, os) =>
      assert Load(pc.start) == Some(record);
      CommitCounts(s.fits, record, record.workspace, a, os, item);
    case _ =>
  }

  lemma StoreExitHoldsNothing(s: System, t: nat, c: Choice, item: ItemId)
    requires CanStep(s, t, c) && LeavesStore(s, t, c)
    ensures Held(DoStep(s, t, c).tasks[t].pc, item) == 0 && DoStep(s, t, c).disk == s.disk
  {}

  // Outside launch and store a task carries its outcomes on.
  lemma QuietStepConserves(s: System, t: nat, c: Choice, item: ItemId)
    requires CanStep(s, t, c) && !s.tasks[t].pc.Launching? && !s.tasks[t].pc.InStore?
    ensures Held(DoStep(s, t, c).tasks[t].pc, item) == Held(s.tasks[t].pc, item)
    ensures DoStep(s, t, c).disk == s.disk
  {}

  lemma TaskStepConserves(s: System, t: nat, c: Choice, item: ItemId)
    requires Inv(s) && CanStep(s, t, c) && s.disk.recovery.Some? && DoStep(s, t, c).disk.recovery.Some?
    ensures var s' := DoStep(s, t, c);
            Held(s.tasks[t].pc, item) + Recorded(s, item) + Reported(s, TaskStep(t, c), item)
            == Held(s'.tasks[t].pc, item) + Recorded(s', item) + Lost(s, TaskStep(t, c), item)
  {
    if s.tasks[t].pc.Launching? {
      LaunchConserves(s, t, c, item);
    } else if !s.tasks[t].pc.InStore? {
      QuietStepConserves(s, t, c, item);
    } else if LeavesStore(s, t, c) {
      StoreExitHoldsNothing(s, t, c, item);
    } else {
      FileStepConserves(s, t, item);
    }
  }

  lemma TaskStepInFlight(s: System, t: nat, c: Choice, item: ItemId)
    requires CanStep(s, t, c)
    ensures InFlight(DoStep(s, t, c).tasks, item) + Held(s.tasks[t].pc, item)
         == InFlight(s.tasks, item) + Held(DoStep(s, t, c).tasks[t].pc, item)
  {
    var task := DoStep(s, t, c).tasks[t];
    assert DoStep(s, t, c).tasks == s.tasks[t := task];
    InFlightUpdate(s.tasks, t, task, item);
  }

  lemma StepConserves(s: System, e: Event, item: ItemId)
    requires Inv(s) && Can(s, e) && s.disk.recovery.Some? && Do(s, e).disk.recovery.Some?
    ensures var s' := Do(s, e);
            Recorded(s, item) + InFlight(s.tasks, item) + Reported(s, e, item)
            == Recorded(s', item) + InFlight(s'.tasks, item) + Lost(s, e, item)
  {
    match e
    case TaskStep(t, c) =>
      TaskStepConserves(s, t, c, item);
      TaskStepInFlight(s, t, c, item);
    case Arrive(request) => InFlightArrival(s.tasks, Do(s, e).tasks[|s.tasks|], item);
    case _ =>
  }

  // ----- whole runs -----

  /** The record stays in place: it is neither finished nor replaced by that of another workspace. */
  predicate Kept(s: System, es: seq<Event>)
    requires CanRun(s, es)
    decreases |es|
  {
    s.disk.recovery.Some? && (es != [] ==> Kept(Do(s, es[0]), es[1..]))
  }

  function AllReported(s: System, es: seq<Event>, item: ItemId): nat
    requires CanRun(s, es)
    decreases |es|
  {
    if es == [] then 0 else Reported(s, es[0], item) + AllReported(Do(s, es[0]), es[1..], item)
  }

  function AllLost(s: System, es: seq<Event>, item: ItemId): nat
    requires CanRun(s, es)
    decreases |es|
  {
    if es == [] then 0 else Lost(s, es[0], item) + AllLost(Do(s, es[0]), es[1..], item)
  }

  /** Conservation: over any run, what launches report of an item is recorded, lost or still in flight. */
  lemma {:induction false} ReportsAreAccountedFor(s: System, es: seq<Event>, item: ItemId)
    requires Inv(s) && CanRun(s, es) && Kept(s, es)
    ensures var s' := Run(s, es);
            Recorded(s, item) + InFlight(s.tasks, item) + AllReported(s, es, item)
            == Recorded(s', item) + InFlight(s'.tasks, item) + AllLost(s, es, item)
    decreases |es|
  {
    if es != [] {
      StepConserves(s, es[0], item);
      StepKeepsInv(s, es[0]);
      ReportsAreAccountedFor(Do(s, es[0]), es[1..], item);
    }
  }

  lemma {:induction false} KeptToTheEnd(s: System, es: seq<Event>)
    requires CanRun(s, es) && Kept(s, es)
    ensures Run(s, es).disk.recovery.Some?
    decreases |es|
  {
    if es != [] {
      KeptToTheEnd(Do(s, es[0]), es[1..]);
    }
  }

  lemma {:induction false} NothingInFlight(tasks: seq<Task>, item: ItemId)
    requires forall u :: 0 <= u < |tasks| ==> Held(tasks[u].pc, item) == 0
    ensures InFlight(tasks, item) == 0
  {
    if tasks != [] {
      assert forall u :: 0 <= u < |tasks[1..]| ==> tasks[1..][u] == tasks[u + 1];
      NothingInFlight(tasks[1..], item);
    }
  }

  /** At most one success: when an item is handed to the adapter again, every success reported for it before has been
      lost with the launch that reported it. `s` is any reachable state with nothing in flight. */
  lemma LaunchedAgainOnlyAfterALoss(s: System, es: seq<Event>, t: nat, item: ItemId)
    requires Inv(s) && InFlight(s.tasks, item) == 0 && CanRun(s, es) && Kept(s, es)
    requires var s' := Run(s, es);
             t < |s'.tasks| && s'.tasks[t].pc.Launching? && item in s'.tasks[t].pc.plan.selected
    ensures AllReported(s, es, item) == AllLost(s, es, item)
    ensures Recorded(s, item) == 0
  {
    var s' := Run(s, es);
    ReportsAreAccountedFor(s, es, item);
    RunKeepsInv(s, es);
    KeptToTheEnd(s, es);
    NothingElseInFlight(s', t, item);
    OpenWhenLaunched(s', t, item);
    RecordedNeverShrinks(s, es, item);
  }

  lemma NothingElseInFlight(s: System, t: nat, item: ItemId)
    requires Inv(s) && t < |s.tasks| && s.tasks[t].pc.Launching?
    ensures InFlight(s.tasks, item) == 0
  {
    forall u | 0 <= u < |s.tasks|
      ensures Held(s.tasks[u].pc, item) == 0
    {
      if Held(s.tasks[u].pc, item) > 0 {
        OnePinned(s, t, u);
      }
    }
    NothingInFlight(s.tasks, item);
  }

  lemma OpenWhenLaunched(s: System, t: nat, item: ItemId)
    requires Inv(s) && t < |s.tasks| && s.tasks[t].pc.Launching? && item in s.tasks[t].pc.plan.selected
    ensures Recorded(s, item) == 0
  {
    var plan := s.tasks[t].pc.plan;
    DecisionIsStored(s, t);
    assert TaskOk(s.tasks[t]);
    assert item in ToSet(plan.selected) && item !in ToSet(plan.record.completed);
    ViewIsSettled(s, t);
    assert TerminalCount(plan.record.attempts, item) <= 1;
  }

  lemma ViewIsSettled(s: System, t: nat)
    requires Inv(s) && t < |s.tasks| && s.tasks[t].pc.Launching?
    ensures Settled(s.tasks[t].pc.plan.record)
  {
    assert Load(View(s)) == Pinned(s.tasks[t].pc);
  }

  lemma {:induction false} RecordedNeverShrinks(s: System, es: seq<Event>, item: ItemId)
    requires Inv(s) && CanRun(s, es) && Kept(s, es)
    ensures Recorded(s, item) <= Recorded(Run(s, es), item)
    decreases |es|
  {
    if es != [] {
      StepRecords(s, es[0], item);
      StepKeepsInv(s, es[0]);
      RecordedNeverShrinks(Do(s, es[0]), es[1..], item);
    }
  }

  lemma StepRecords(s: System, e: Event, item: ItemId)
    requires Inv(s) && Can(s, e) && s.disk.recovery.Some? && Do(s, e).disk.recovery.Some?
    ensures Recorded(s, item) <= Recorded(Do(s, e), item)
  {
    match e
    case TaskStep(t, c) => TaskStepRecords(s, t, c, item);
    case _ =>
  }

  lemma TaskStepRecords(s: System, t: nat, c: Choice, item: ItemId)
    requires Inv(s) && CanStep(s, t, c) && s.disk.recovery.Some? && DoStep(s, t, c).disk.recovery.Some?
    ensures Recorded(s, item) <= Recorded(DoStep(s, t, c), item)
  {
    if s.tasks[t].pc.Launching? {
      LaunchConserves(s, t, c, item);
    } else if !s.tasks[t].pc.InStore? {
      QuietStepConserves(s, t, c, item);
    } else if LeavesStore(s, t, c) {
      StoreExitHoldsNothing(s, t, c, item);
    } else {
      FileStepConserves(s, t, item);
    }
  }

  /** Exactly: an item not recorded at the start is still open, with no launch of it under way, if and only if every
      success reported for it since has been lost; otherwise exactly one report is not lost. */
  lemma OpenExactlyWhenAllLost(s: System, es: seq<Event>, item: ItemId)
    requires Inv(s) && InFlight(s.tasks, item) == 0 && Recorded(s, item) == 0 && CanRun(s, es) && Kept(s, es)
    ensures var s' := Run(s, es);
            && (Recorded(s', item) + InFlight(s'.tasks, item) == 0 <==> AllReported(s, es, item) == AllLost(s, es, item))
            && (InFlight(s'.tasks, item) == 0 ==> AllReported(s, es, item) <= AllLost(s, es, item) + 1)
  {
    ReportsAreAccountedFor(s, es, item);
    KeptToTheEnd(s, es);
    RunKeepsInv(s, es);
    StoredIsSettled(Run(s, es));
    assert TerminalCount(Run(s, es).disk.recovery.value.attempts, item) <= 1;
  }
}
