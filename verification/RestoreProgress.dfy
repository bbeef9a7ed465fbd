/** The lock order of the restore protocol never deadlocks, and without new requests every run comes to an end. */
module RestoreProgress {
  import opened Wrappers
  import opened RecoveryRecord
  import opened RecoveryStore
  import opened RestoreProtocol
  import opened RestoreSafety

  /** A snapshot never waits for a generation the engine has not reached. */
  predicate FlushesDue(s: System) {
    forall t :: 0 <= t < |s.tasks| && s.tasks[t].pc.FlushWait? ==> s.tasks[t].pc.target <= s.dirty
  }

  predicate Internal(e: Event) {
    e.TaskStep? || e.WriterStep?
  }

  lemma StepKeepsFlushesDue(s: System, e: Event)
    requires FlushesDue(s) && Can(s, e)
    ensures FlushesDue(Do(s, e))
  {
    if e.TaskStep? {
      var s' := Do(s, e);
      forall t | 0 <= t < |s'.tasks| && s'.tasks[t].pc.FlushWait?
        ensures s'.tasks[t].pc.target <= s'.dirty
      {
        if t != e.task {
          assert s'.tasks[t] == s.tasks[t];
        }
      }
    }
  }

  // A task that wants neither the dispatch lock nor the store's lock can go on by itself.
  function SomeChoice(pc: Pc): Choice {
    if pc.Reconciling? then NothingToRecover
    else if pc.Launching? then AdapterDown
    else Proceed
  }

  lemma SomeStep(s: System, t: nat) returns (e: Event)
    requires Inv(s) && FlushesDue(s) && t < |s.tasks| && !s.tasks[t].pc.Answered?
    ensures Internal(e) && Can(s, e)
  {
    if s.storeLock == Some(ByWriter) {
      return WriterStep(true);
    }
    if s.storeLock.Some? {
      return TaskStep(s.storeLock.value.task, Proceed);
    }
    if s.dispatch.Some? {
      var u := s.dispatch.value;
      if s.tasks[u].pc.FlushWait? && s.durable < s.tasks[u].pc.target {
        return WriterStep(true);
      }
      return TaskStep(u, SomeChoice(s.tasks[u].pc));
    }
    if s.tasks[t].pc.WantWorkspace? {
      var owner := s.workspaceLocks[s.tasks[t].request.workspace];
      if owner.Some? {
        return TaskStep(owner.value, SomeChoice(s.tasks[owner.value].pc));
      }
    }
    return TaskStep(t, SomeChoice(s.tasks[t].pc));
  }

  lemma {:induction false} RunKeepsFlushesDue(s: System, es: seq<Event>)
    requires FlushesDue(s) && CanRun(s, es)
    ensures FlushesDue(Run(s, es))
    decreases |es|
  {
    if es != [] {
      StepKeepsFlushesDue(s, es[0]);
      RunKeepsFlushesDue(Do(s, es[0]), es[1..]);
    }
  }

  /** In every reachable state some step is enabled as long as a task has not been answered. */
  lemma NoDeadlock(fits: Record -> bool, disk: Disk, adapter: Option<string>, faults: nat, es: seq<Event>)
    requires DiskOk(disk) && CanRun(Boot(fits, disk, adapter, faults), es)
    requires var s := Run(Boot(fits, disk, adapter, faults), es);
             exists t :: 0 <= t < |s.tasks| && !s.tasks[t].pc.Answered?
    ensures exists e :: Internal(e) && Can(Run(Boot(fits, disk, adapter, faults), es), e)
  {
    var s := Run(Boot(fits, disk, adapter, faults), es);
    RunKeepsInv(Boot(fits, disk, adapter, faults), es);
    RunKeepsFlushesDue(Boot(fits, disk, adapter, faults), es);
    var t :| 0 <= t < |s.tasks| && !s.tasks[t].pc.Answered?;
    var e := SomeStep(s, t);
  }

  // ----- a measure that every step decreases -----

  function StageRank(stage: Stage): nat {
    match stage
    case FirstLoad => 30
    case Install(_) => 6
    case SecondLoad => 0
    case Commitment(_, _, _) => 6
    case Ending(_, _, _) => 0
  }

  function Rank(pc: Pc): nat {
    match pc
    case WantDispatchForLock => 38
    case WantWorkspace => 37
    case WantDispatch => 36
    case WantStore(stage) => StageRank(stage) + 5
    case InStore(stage, _, taken) => StageRank(stage) + if taken < 3 then 4 - taken else 1
    case Launching(_) => 13
    case Reconciling => 12
    case WantDispatchToCommit(_, _, _) => 12
    case FlushWait(_) => 1
    case Answered(_) => 0
  }

  function WriterRank(s: System): nat {
    match s.writer
    case Asleep => if s.dirty > s.durable then 3 else 0
    case Queued(target) => 2 + if s.dirty > target then 3 else 0
    case Writing(target) => 1 + if s.dirty > target then 3 else 0
  }

  function TaskRanks(tasks: seq<Task>): nat {
    if tasks == [] then 0 else Rank(tasks[0].pc) + TaskRanks(tasks[1..])
  }

  function Measure(s: System): nat {
    TaskRanks(s.tasks) + WriterRank(s) + 10 * s.faults
  }

  lemma {:induction false} TaskRanksUpdate(tasks: seq<Task>, t: nat, task: Task)
    requires t < |tasks|
    ensures TaskRanks(tasks[t := task]) + Rank(tasks[t].pc) == TaskRanks(tasks) + Rank(task.pc)
  {
    if t == 0 {
      assert tasks[t := task][1..] == tasks[1..];
    } else {
      assert tasks[t := task][1..] == tasks[1..][t - 1 := task];
      TaskRanksUpdate(tasks[1..], t - 1, task);
    }
  }

  lemma AfterStoreRank(fits: Record -> bool, task: Task, adapter: Option<string>, d: Disk, stage: Stage)
    ensures Rank(AfterStore(task, adapter, stage, PlanOp(fits, d, OpOf(stage)).result)) <= StageRank(stage) + 1
    ensures |PlanOp(fits, d, OpOf(stage)).steps| <= 2
  {
    match stage
    case FirstLoad => assert Rank(AfterLoad(task.request, adapter, Load(d))) <= 13;
    case _ =>
  }

  lemma TaskRankDecreases(s: System, t: nat, c: Choice)
    requires CanStep(s, t, c) && InProgress(s.fits, s.disk, s.tasks[t].pc)
    ensures var engine := s.tasks[t].pc.WantDispatch? && s.tasks[t].request.EngineRequest?;
            Rank(DoStep(s, t, c).tasks[t].pc) + (if engine then 4 else 1) <= Rank(s.tasks[t].pc)
  {
    var pc := s.tasks[t].pc;
    match pc
    case InStore(stage, start, _) => AfterStoreRank(s.fits, s.tasks[t], s.adapter, start, stage);
    case Launching(plan) => assert Rank(AfterLaunch(plan, s.adapter, c)) <= 12;
    case _ =>
  }

  lemma TaskStepDecreases(s: System, t: nat, c: Choice)
    requires Inv(s) && CanStep(s, t, c)
    ensures Measure(DoStep(s, t, c)) < Measure(s)
  {
    var s' := DoStep(s, t, c);
    TaskRankDecreases(s, t, c);
    TaskRanksUpdate(s.tasks, t, s'.tasks[t]);
    assert s'.tasks == s.tasks[t := s'.tasks[t]];
    assert s'.writer == s.writer && s'.faults == s.faults && s'.durable == s.durable;
  }

  lemma WriterStepDecreases(s: System, ok: bool)
    requires CanWrite(s, ok)
    ensures Measure(DoWrite(s, ok)) < Measure(s)
  {}

  lemma StepDecreases(s: System, e: Event)
    requires Inv(s) && Internal(e) && Can(s, e)
    ensures Measure(Do(s, e)) < Measure(s)
  {
    match e
    case TaskStep(t, c) => TaskStepDecreases(s, t, c);
    case WriterStep(ok) => WriterStepDecreases(s, ok);
    case _ =>
  }

  /** From any reachable state, a run without new requests or crashes takes a bounded number of steps; when no step
      is left, every task has been answered. */
  lemma {:induction false} EveryRequestIsAnswered(s: System, es: seq<Event>)
    requires Inv(s) && FlushesDue(s) && CanRun(s, es) && forall e :: e in es ==> Internal(e)
    ensures |es| <= Measure(s)
    ensures (forall e :: Internal(e) ==> !Can(Run(s, es), e))
        ==> forall t :: 0 <= t < |Run(s, es).tasks| ==> Run(s, es).tasks[t].pc.Answered?
    decreases |es|
  {
    if es == [] {
      if forall e :: Internal(e) ==> !Can(s, e) {
        forall t | 0 <= t < |s.tasks|
          ensures s.tasks[t].pc.Answered?
        {
          if !s.tasks[t].pc.Answered? {
            var e := SomeStep(s, t);
          }
        }
      }
    } else {
      StepKeepsInv(s, es[0]);
      StepKeepsFlushesDue(s, es[0]);
      StepDecreases(s, es[0]);
      EveryRequestIsAnswered(Do(s, es[0]), es[1..]);
    }
  }
}
