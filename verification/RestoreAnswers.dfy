/** The answers of the restore protocol that report no attempt: what an answered snapshot means, and which fault is told. */
module RestoreAnswers {
  import opened Wrappers
  import opened RecoveryRecord
  import opened RecoveryStore
  import opened RestoreProtocol
  import opened RestoreSafety

  // ----- snapshots -----

  // A waiting snapshot waits for all there is, and snapshots do nothing but wait.
  predicate SnapshotOk(s: System, task: Task) {
    && (task.pc.FlushWait? ==> task.pc.target == s.dirty)
    && (task.request.SnapshotRequest? ==> task.pc.WantDispatch? || task.pc.FlushWait? || task.pc.Answered?)
  }

  ghost predicate SnapshotsOk(s: System) {
    forall t :: 0 <= t < |s.tasks| ==> SnapshotOk(s, s.tasks[t])
  }

  lemma OneStepKeepsSnapshotsOk(s: System, t: nat, c: Choice)
    requires SnapshotsOk(s) && CanStep(s, t, c)
    ensures SnapshotOk(DoStep(s, t, c), DoStep(s, t, c).tasks[t])
  {
    assert SnapshotOk(s, s.tasks[t]);
  }

  // Only a task with the dispatch lock makes anything dirty, and so does a waiting snapshot hold it.
  lemma NothingGetsDirtier(s: System, t: nat, c: Choice, u: nat)
    requires Inv(s) && CanStep(s, t, c) && u < |s.tasks| && u != t && s.tasks[u].pc.FlushWait?
    ensures DoStep(s, t, c).dirty == s.dirty
  {
    assert s.dispatch == Some(u);
  }

  lemma TaskStepKeepsSnapshotsOk(s: System, t: nat, c: Choice)
    requires Inv(s) && SnapshotsOk(s) && CanStep(s, t, c)
    ensures SnapshotsOk(DoStep(s, t, c))
  {
    var s' := DoStep(s, t, c);
    OneStepKeepsSnapshotsOk(s, t, c);
    forall u | 0 <= u < |s'.tasks|
      ensures SnapshotOk(s', s'.tasks[u])
    {
      if u != t {
        assert s'.tasks[u] == s.tasks[u] && SnapshotOk(s, s.tasks[u]);
        if s.tasks[u].pc.FlushWait? {
          NothingGetsDirtier(s, t, c, u);
        }
      }
    }
  }

  lemma StepKeepsSnapshotsOk(s: System, e: Event)
    requires Inv(s) && SnapshotsOk(s) && Can(s, e)
    ensures SnapshotsOk(Do(s, e))
  {
    match e
    case TaskStep(t, c) => TaskStepKeepsSnapshotsOk(s, t, c);
    case _ =>
  }

  lemma {:induction false} RunKeepsSnapshotsOk(s: System, es: seq<Event>)
    requires Inv(s) && SnapshotsOk(s) && CanRun(s, es)
    ensures SnapshotsOk(Run(s, es))
    decreases |es|
  {
    if es != [] {
      StepKeepsSnapshotsOk(s, es[0]);
      StepKeepsInv(s, es[0]);
      RunKeepsSnapshotsOk(Do(s, es[0]), es[1..]);
    }
  }

  /** In every run, at the moment a snapshot request is answered everything accepted so far is durable, and the answer says
      that it was handled. */
  lemma SnapshotsAreAnsweredDurable(
    fits: Record -> bool, disk: Disk, adapter: Option<string>, faults: nat, es: seq<Event>, t: nat, c: Choice)
    requires DiskOk(disk) && CanRun(Boot(fits, disk, adapter, faults), es)
    requires CanStep(Run(Boot(fits, disk, adapter, faults), es), t, c)
    ensures var s := Run(Boot(fits, disk, adapter, faults), es);
            var s' := DoStep(s, t, c);
            s.tasks[t].request.SnapshotRequest? && s'.tasks[t].pc.Answered? ==>
              s'.durable >= s'.dirty && s'.tasks[t].pc.response == Handled
  {
    var boot := Boot(fits, disk, adapter, faults);
    RunKeepsInv(boot, es);
    RunKeepsSnapshotsOk(boot, es);
    assert SnapshotOk(Run(boot, es), Run(boot, es).tasks[t]);
  }

  // ----- what is durable -----

  /** How many register and event requests this service run has answered. */
  function Accepted(tasks: seq<Task>): nat {
    if tasks == [] then 0
    else
      var last := tasks[|tasks| - 1];
      Accepted(tasks[..|tasks| - 1]) + if last.request.EngineRequest? && last.pc.Answered? then 1 else 0
  }

  lemma {:induction false} AcceptedAfter(tasks: seq<Task>, t: nat, task: Task)
    requires t < |tasks| && task.request == tasks[t].request && !tasks[t].pc.Answered?
    ensures Accepted(tasks[t := task])
         == Accepted(tasks) + if task.request.EngineRequest? && task.pc.Answered? then 1 else 0
  {
    var n := |tasks| - 1;
    if t == n {
      assert tasks[t := task][..n] == tasks[..n];
    } else {
      assert tasks[t := task][..n] == tasks[..n][t := task];
      AcceptedAfter(tasks[..n], t, task);
    }
  }

  lemma AcceptedOfOneMore(tasks: seq<Task>, task: Task)
    requires !task.pc.Answered?
    ensures Accepted(tasks + [task]) == Accepted(tasks)
  {
    assert (tasks + [task])[..|tasks|] == tasks;
  }

  /** Of this service run: what the write under way will make durable, and what a finished one has. */
  datatype Writes = Writes(underWay: nat, finished: nat)

  const NO_WRITES := Writes(0, 0)

  function AfterEvent(w: Writes, s: System, e: Event): Writes {
    match e
    case WriterStep(ok) =>
      if s.writer.Asleep? then w.(underWay := Accepted(s.tasks))
      else if s.writer.Writing? && ok then w.(finished := w.underWay)
      else w
    case Crash => NO_WRITES
    case _ => w
  }

  function WritesOf(w: Writes, s: System, es: seq<Event>): Writes
    requires CanRun(s, es)
    decreases |es|
  {
    if es == [] then w else WritesOf(AfterEvent(w, s, es[0]), Do(s, es[0]), es[1..])
  }

  // Requests that make the engine newer do nothing else.
  predicate EngineTasksOk(s: System) {
    forall t :: 0 <= t < |s.tasks| && s.tasks[t].request.EngineRequest? ==>
      s.tasks[t].pc.WantDispatch? || s.tasks[t].pc.Answered?
  }

  ghost predicate CountsOk(w: Writes, s: System) {
    && EngineTasksOk(s)
    && s.dirty == Accepted(s.tasks)
    && s.durable == w.finished <= w.underWay <= s.dirty
    && (s.writer.Queued? ==> s.writer.target == w.underWay)
    && (s.writer.Writing? ==> s.writer.target == w.underWay)
  }

  lemma TaskStepCounts(w: Writes, s: System, t: nat, c: Choice)
    requires CountsOk(w, s) && CanStep(s, t, c)
    ensures CountsOk(w, DoStep(s, t, c))
  {
    var s' := DoStep(s, t, c);
    assert s'.tasks == s.tasks[t := s'.tasks[t]] && s'.tasks[t].request == s.tasks[t].request;
    AcceptedAfter(s.tasks, t, s'.tasks[t]);
  }

  lemma WriterStepCounts(w: Writes, s: System, ok: bool)
    requires CountsOk(w, s) && CanWrite(s, ok)
    ensures CountsOk(AfterEvent(w, s, WriterStep(ok)), DoWrite(s, ok))
  {
    assert DoWrite(s, ok).tasks == s.tasks && DoWrite(s, ok).dirty == s.dirty;
  }

  lemma ArrivalCounts(w: Writes, s: System, request: Request)
    requires CountsOk(w, s)
    ensures CountsOk(w, Do(s, Arrive(request)))
  {
    AcceptedOfOneMore(s.tasks, Task(request, if request.Scoped() then WantDispatchForLock else WantDispatch));
  }

  lemma BootCounts(fits: Record -> bool, disk: Disk, adapter: Option<string>, faults: nat)
    ensures CountsOk(NO_WRITES, Boot(fits, disk, adapter, faults))
  {}

  lemma StepCounts(w: Writes, s: System, e: Event)
    requires CountsOk(w, s) && Can(s, e)
    ensures CountsOk(AfterEvent(w, s, e), Do(s, e))
  {
    match e
    case TaskStep(t, c) => TaskStepCounts(w, s, t, c);
    case WriterStep(ok) => WriterStepCounts(w, s, ok);
    case Arrive(request) => ArrivalCounts(w, s, request);
    case Crash => BootCounts(s.fits, s.disk, s.adapter, s.faults);
  }

  lemma {:induction false} RunCounts(w: Writes, s: System, es: seq<Event>)
    requires CountsOk(w, s) && CanRun(s, es)
    ensures CountsOk(WritesOf(w, s, es), Run(s, es))
    decreases |es|
  {
    if es != [] {
      StepCounts(w, s, es[0]);
      RunCounts(AfterEvent(w, s, es[0]), Do(s, es[0]), es[1..]);
    }
  }

  /** Over every run, what is dirty is what the service has accepted since it started, and what is durable is what it had
      accepted when the last write that succeeded began. */
  lemma DurableIsWhatWasWritten(fits: Record -> bool, disk: Disk, adapter: Option<string>, faults: nat, es: seq<Event>)
    requires CanRun(Boot(fits, disk, adapter, faults), es)
    ensures var boot := Boot(fits, disk, adapter, faults);
            var s := Run(boot, es);
            s.dirty == Accepted(s.tasks) && s.durable == WritesOf(NO_WRITES, boot, es).finished
  {
    RunCounts(NO_WRITES, Boot(fits, disk, adapter, faults), es);
  }

  // ----- faults -----

  /** A store operation that fails on the file system or refuses ends its request with the persistence error. */
  lemma StoreFaultsAreTold(s: System, t: nat, c: Choice)
    requires CanStep(s, t, c) && s.tasks[t].pc.InStore?
    requires var pc := s.tasks[t].pc;
             var plan := PlanOp(s.fits, pc.start, OpOf(pc.stage));
             c.IoError? || (pc.taken >= |plan.steps| && plan.result.Refused?)
    ensures DoStep(s, t, c).tasks[t].pc == Answered(PersistenceFailed)
  {}

  /** After a launch: without a terminal the request is told so; an I/O error is told as such; anything else but outcomes
      for exactly the selected items, each once, is an internal error. */
  lemma LaunchFaultsAreTold(plan: LaunchPlan, adapter: Option<string>, c: Choice)
    ensures AfterLaunch(plan, adapter, c)
         == if adapter.None? || c.AdapterDown? then Answered(AdapterUnavailable)
            else if c.IoError? then Answered(PersistenceFailed)
            else if c.Launched? && Unique(OutcomeItems(c.outcomes))
                    && (forall i :: i in OutcomeItems(c.outcomes) <==> i in plan.selected) then
              WantDispatchToCommit(plan, BuildAttempt(plan, adapter.value), Clipped(c.outcomes))
            else Answered(InternalError)
  {
    if c.Launched? {
      SameItems(OutcomeItems(c.outcomes), plan.selected);
    }
  }

  lemma SameItems(a: seq<ItemId>, b: seq<ItemId>)
    ensures ToSet(a) == ToSet(b) <==> forall i :: i in a <==> i in b
  {
    assert forall i :: i in a <==> i in ToSet(a);
    assert forall i :: i in b <==> i in ToSet(b);
  }

  /** What is stored of a message is its first 160 characters; items and kinds stay. */
  lemma ClippedExactly(os: seq<Outcome>, k: nat)
    requires k < |os|
    ensures var clipped := Clipped(os)[k];
            && clipped.item == os[k].item && clipped.kind == os[k].kind && clipped.message <= os[k].message
            && |clipped.message| == if |os[k].message| > 160 then 160 else |os[k].message|
  {
    assert OutcomeItems(Clipped(os))[k] == OutcomeItems(os)[k];
  }

  /** A list request that finds nothing, installs what reconciliation gives and looks again lists what is stored then. */
  lemma ListingShowsTheStored(task: Task, adapter: Option<string>, result: OpResult)
    requires result.Loaded? || result.Installed?
    ensures AfterStore(task, adapter, SecondLoad, result)
         == if result.Installed? then WantStore(SecondLoad)
            else Answered(Listed(if result.found.Some? then Some(result.found.value.workspace) else None))
  {}
}
