/**
 What every interleaving of restore requests keeps, over any number of tasks, arrivals, I/O errors and crashes.
 */
module RestoreSafety {
  import opened Wrappers
  import opened RecoveryRecord
  import opened RecoveryStore
  import opened RestoreProtocol

  // ----- the invariant -----

  ghost predicate DispatchAgrees(s: System) {
    && (s.dispatch.Some? ==> s.dispatch.value < |s.tasks| && s.tasks[s.dispatch.value].pc.HoldsDispatch())
    && (forall t :: 0 <= t < |s.tasks| && s.tasks[t].pc.HoldsDispatch() ==> s.dispatch == Some(t))
  }

  ghost predicate WorkspacesAgree(s: System) {
    && (forall w :: w in s.workspaceLocks && s.workspaceLocks[w].Some? ==>
          var t := s.workspaceLocks[w].value;
          t < |s.tasks| && s.tasks[t].HoldsWorkspace() && s.tasks[t].request.workspace == w)
    && (forall t :: 0 <= t < |s.tasks| && s.tasks[t].HoldsWorkspace() ==>
          s.tasks[t].request.workspace in s.workspaceLocks
          && s.workspaceLocks[s.tasks[t].request.workspace] == Some(t))
    && (forall t :: 0 <= t < |s.tasks| && s.tasks[t].pc.WantWorkspace? ==>
          s.tasks[t].request.Scoped() && s.tasks[t].request.workspace in s.workspaceLocks)
  }

  ghost predicate StoreAgrees(s: System) {
    && (s.storeLock.Some? && s.storeLock.value.ByTask? ==>
          s.storeLock.value.task < |s.tasks| && s.tasks[s.storeLock.value.task].pc.InStore?)
    && (forall t :: 0 <= t < |s.tasks| && s.tasks[t].pc.InStore? ==> s.storeLock == Some(ByTask(t)))
    && (s.storeLock == Some(ByWriter) <==> s.writer.Writing?)
  }

  /** Every lock is held by exactly the one task whose program counter calls for it. */
  ghost predicate LocksAgree(s: System) {
    DispatchAgrees(s) && WorkspacesAgree(s) && StoreAgrees(s)
  }

  /** The record a task has decided on and not yet given up. */
  function Pinned(pc: Pc): Option<Record> {
    match pc
    case Launching(plan) => Some(plan.record)
    case WantDispatchToCommit(plan, _, _) => Some(plan.record)
    case WantStore(stage) => if stage.Commitment? || stage.Ending? then Some(stage.record) else None
    case InStore(stage, _, _) => if stage.Commitment? || stage.Ending? then Some(stage.record) else None
    case _ => None
  }

  /** Nothing already completed is about to be launched. */
  predicate PlanOk(plan: LaunchPlan) {
    && plan.selected != [] && |plan.selected| <= MAX_ITEMS && Unique(plan.selected)
    && ToSet(plan.selected) <= ToSet(plan.record.items)
    && ToSet(plan.selected) !! ToSet(plan.record.completed)
    && plan.approved <= ToSet(plan.selected)
  }

  predicate AttemptOk(record: Record, a: Attempt, os: seq<Outcome>) {
    && WellFormedAttempt(a) && a.outcomes == [] && a.workspace == record.workspace
    && ToSet(a.selected) <= ToSet(record.items)
    && ToSet(a.selected) !! ToSet(record.completed)
    && Unique(OutcomeItems(os)) && ToSet(OutcomeItems(os)) == ToSet(a.selected)
  }

  predicate StageOk(request: Request, stage: Stage) {
    match stage
    case FirstLoad => !request.EngineRequest? && !request.SnapshotRequest?
    case SecondLoad => request.ListRequest?
    case Install(candidate) => request.ListRequest? && Fresh(candidate)
    case Commitment(record, a, os) => (request.ExecuteRequest? || request.RetryRequest?) && AttemptOk(record, a, os)
    case Ending(record, discard, _) => request.Scoped() && (!discard ==> AllCompleted(record))
  }

  ghost predicate TaskOk(task: Task) {
    && (Pinned(task.pc).Some? ==> task.request.Scoped() && Pinned(task.pc).value.workspace == task.request.workspace)
    && match task.pc
       case WantDispatchForLock => task.request.Scoped()
       case WantWorkspace => task.request.Scoped()
       case WantStore(stage) => StageOk(task.request, stage)
       case InStore(stage, _, _) => StageOk(task.request, stage)
       case Reconciling => task.request.ListRequest?
       case FlushWait(_) => task.request.SnapshotRequest?
       case Launching(plan) => (task.request.ExecuteRequest? || task.request.RetryRequest?) && PlanOk(plan)
       case WantDispatchToCommit(plan, a, os) =>
         (task.request.ExecuteRequest? || task.request.RetryRequest?) && AttemptOk(plan.record, a, os)
       case _ => true
  }

  /** The directory as it stands between store operations: one in progress has not happened yet. */
  function View(s: System): Disk {
    if s.storeLock.Some? && s.storeLock.value.ByTask? && s.storeLock.value.task < |s.tasks|
       && s.tasks[s.storeLock.value.task].pc.InStore?
    then s.tasks[s.storeLock.value.task].pc.start
    else s.disk
  }

  ghost predicate DiskOk(d: Disk) {
    d.recovery.Some? ==> Settled(d.recovery.value)
  }

  predicate InProgress(fits: Record -> bool, disk: Disk, pc: Pc) {
    pc.InStore? ==>
      && disk == DiskAfter(fits, pc.start, OpOf(pc.stage), pc.taken)
      && pc.taken <= |PlanOp(fits, pc.start, OpOf(pc.stage)).steps|
  }

  ghost predicate Inv(s: System) {
    && LocksAgree(s)
    && DiskOk(View(s))
    && (forall t :: 0 <= t < |s.tasks| ==> TaskOk(s.tasks[t]))
    && (forall t :: 0 <= t < |s.tasks| ==> InProgress(s.fits, s.disk, s.tasks[t].pc))
    && (forall t :: 0 <= t < |s.tasks| && Pinned(s.tasks[t].pc).Some? ==> Load(View(s)) == Pinned(s.tasks[t].pc))
  }

  // ----- one step -----

  /** Two tasks never hold a decision at once, whatever workspaces they asked for. */
  lemma OnePinned(s: System, t: nat, u: nat)
    requires Inv(s) && t < |s.tasks| && u < |s.tasks|
    requires Pinned(s.tasks[t].pc).Some? && Pinned(s.tasks[u].pc).Some?
    ensures t == u
  {
    assert s.tasks[t].HoldsWorkspace() && s.tasks[u].HoldsWorkspace();
    assert TaskOk(s.tasks[t]) && TaskOk(s.tasks[u]);
  }

  // The locks `pc` calls for are held already or free.
  predicate MayTake(s: System, t: nat, pc: Pc)
    requires t < |s.tasks|
  {
    var task := s.tasks[t].(pc := pc);
    && (pc.HoldsDispatch() ==> s.tasks[t].pc.HoldsDispatch() || s.dispatch.None?)
    && (pc.InStore? ==> s.tasks[t].pc.InStore? || s.storeLock.None?)
    && (pc.WantWorkspace? ==> task.request.Scoped())
    && (task.HoldsWorkspace() ==>
          s.tasks[t].HoldsWorkspace()
          || (task.request.workspace in s.workspaceLocks && s.workspaceLocks[task.request.workspace].None?))
  }

  lemma MoveKeepsDispatch(s: System, t: nat, pc: Pc)
    requires DispatchAgrees(s) && t < |s.tasks| && MayTake(s, t, pc)
    ensures DispatchAgrees(Move(s, t, pc))
  {}

  lemma MoveKeepsWorkspaces(s: System, t: nat, pc: Pc)
    requires WorkspacesAgree(s) && t < |s.tasks| && MayTake(s, t, pc)
    ensures WorkspacesAgree(Move(s, t, pc))
  {}

  lemma MoveKeepsStore(s: System, t: nat, pc: Pc)
    requires StoreAgrees(s) && t < |s.tasks| && MayTake(s, t, pc)
    ensures StoreAgrees(Move(s, t, pc))
  {}

  lemma MoveKeepsLocks(s: System, t: nat, pc: Pc)
    requires LocksAgree(s) && t < |s.tasks| && MayTake(s, t, pc)
    ensures LocksAgree(Move(s, t, pc))
  {
    MoveKeepsDispatch(s, t, pc);
    MoveKeepsWorkspaces(s, t, pc);
    MoveKeepsStore(s, t, pc);
  }

  /** An operation that changes what is stored belongs to the task that has decided on it. */
  lemma OthersDoNotWrite(fits: Record -> bool, d: Disk, stage: Stage, cut: nat)
    requires Load(d).Some? && !stage.Commitment? && !stage.Ending?
    ensures PlanOp(fits, d, OpOf(stage)).steps == [] && DiskAfter(fits, d, OpOf(stage), cut) == d
  {}

  lemma StoppedDiskOk(fits: Record -> bool, d: Disk, request: Request, stage: Stage, cut: nat)
    requires DiskOk(d) && StageOk(request, stage)
    requires stage.Commitment? || stage.Ending? ==> Load(d) == Some(stage.record)
    ensures DiskOk(DiskAfter(fits, d, OpOf(stage), cut))
  {
    match stage
    case Install(candidate) => FreshIsSettled(candidate);
    case Commitment(record, a, os) =>
      var committed := Commit(fits, record, record.workspace, a, os);
      if committed.Ok? {
        forall o | o in os && Terminal(o.kind)
          ensures o.item !in record.completed
        {
          var j :| 0 <= j < |os| && os[j] == o;
          assert OutcomeItems(os)[j] in ToSet(a.selected);
          assert o.item !in ToSet(record.completed);
        }
        CommitKeepsSettled(fits, record, record.workspace, a, os);
      }
    case _ =>
  }

  /** What a task may decide on a settled record: never an item that is completed. */
  lemma DecisionOk(request: Request, adapter: Option<string>, found: Option<Record>)
    requires found.Some? ==> Settled(found.value)
    requires !request.EngineRequest? && !request.SnapshotRequest?
    ensures TaskOk(Task(request, AfterLoad(request, adapter, found)))
    ensures Pinned(AfterLoad(request, adapter, found)).Some? ==> Pinned(AfterLoad(request, adapter, found)) == found
  {
    var pc := AfterLoad(request, adapter, found);
    if request.ExecuteRequest? && pc.Launching? {
      DistinctWithinBound(request.selected, found.value.items);
    }
    if request.RetryRequest? && pc.Launching? {
      var source := FindAttempt(found.value.attempts, request.attempt).value;
      assert WellFormedAttempt(source);
    }
  }

  lemma LaunchOk(request: Request, plan: LaunchPlan, adapter: Option<string>, c: Choice)
    requires TaskOk(Task(request, Launching(plan)))
    ensures TaskOk(Task(request, AfterLaunch(plan, adapter, c)))
    ensures Pinned(AfterLaunch(plan, adapter, c)).Some? ==> Pinned(AfterLaunch(plan, adapter, c)) == Some(plan.record)
  {
    if adapter.Some? {
      var attempt := BuildAttempt(plan, adapter.value);
      assert ToSet(OutcomeItems(attempt.outcomes)) == {};
      SetAtMost(plan.selected);
      SubsetSize(plan.approved, ToSet(plan.selected));
      assert WellFormedAttempt(attempt);
    }
  }

  // What a task holds after its store operation fits what is now stored.
  ghost predicate AnswerOk(fits: Record -> bool, task: Task, d: Disk, pc: Pc)
    requires task.pc.InStore?
  {
    && TaskOk(task.(pc := pc))
    && (Pinned(pc).Some? ==> Load(Done(fits, d, OpOf(task.pc.stage))) == Pinned(pc))
    && (pc.WantStore? || pc.Launching? || pc.Reconciling? || pc.Answered?)
  }

  lemma FirstLoadOk(fits: Record -> bool, task: Task, adapter: Option<string>, d: Disk)
    requires task.pc.InStore? && task.pc.stage.FirstLoad? && TaskOk(task) && DiskOk(d)
    ensures AnswerOk(fits, task, d, AfterStore(task, adapter, FirstLoad, PlanOp(fits, d, LoadOp).result))
  {
    DecisionOk(task.request, adapter, Load(d));
    assert Load(Done(fits, d, LoadOp)) == Load(d);
  }

  lemma CommitmentOk(fits: Record -> bool, task: Task, adapter: Option<string>, d: Disk)
    requires task.pc.InStore? && task.pc.stage.Commitment? && TaskOk(task) && Load(d) == Some(task.pc.stage.record)
    ensures var stage := task.pc.stage;
            AnswerOk(fits, task, d, AfterStore(task, adapter, stage, PlanOp(fits, d, OpOf(stage)).result))
  {}

  /** After its store operation a task again holds only a decision on what is now stored. */
  lemma StoreAnswerOk(fits: Record -> bool, task: Task, adapter: Option<string>, d: Disk)
    requires task.pc.InStore? && d == task.pc.start && TaskOk(task) && DiskOk(d)
    requires Pinned(task.pc).Some? ==> Load(d) == Pinned(task.pc)
    ensures var stage := task.pc.stage;
            AnswerOk(fits, task, d, AfterStore(task, adapter, stage, PlanOp(fits, d, OpOf(stage)).result))
  {
    match task.pc.stage
    case FirstLoad => FirstLoadOk(fits, task, adapter, d);
    case Commitment(_, _, _) => CommitmentOk(fits, task, adapter, d);
    case _ =>
  }

  /** A move keeps the invariant if the mover's new decision and every other decision match what is now stored. */
  lemma MoveKeepsInv(s: System, disk: Disk, dirty: nat, t: nat, pc: Pc)
    requires Inv(s) && t < |s.tasks| && MayTake(s, t, pc)
    requires disk != s.disk ==> s.tasks[t].pc.InStore?
    requires TaskOk(s.tasks[t].(pc := pc)) && InProgress(s.fits, disk, pc)
    requires var view := View(Move(s.(disk := disk, dirty := dirty), t, pc));
             && DiskOk(view)
             && (Pinned(pc).Some? ==> Load(view) == Pinned(pc))
             && (Load(view) == Load(View(s))
                 || forall u :: 0 <= u < |s.tasks| && u != t ==> Pinned(s.tasks[u].pc).None?)
    ensures Inv(Move(s.(disk := disk, dirty := dirty), t, pc))
  {
    var s0 := s.(disk := disk, dirty := dirty);
    var s' := Move(s0, t, pc);
    assert LocksAgree(s0);
    MoveKeepsLocks(s0, t, pc);
    forall u | 0 <= u < |s'.tasks|
      ensures TaskOk(s'.tasks[u]) && InProgress(s.fits, s'.disk, s'.tasks[u].pc)
      ensures Pinned(s'.tasks[u].pc).Some? ==> Load(View(s')) == Pinned(s'.tasks[u].pc)
    {
      if u != t {
        assert s'.tasks[u] == s.tasks[u];
        assert TaskOk(s.tasks[u]) && InProgress(s.fits, s.disk, s.tasks[u].pc);
      }
    }
  }

  /** Leaving the store, early or at the end. */
  lemma StopKeepsInv(s: System, t: nat, pc: Pc)
    requires Inv(s) && t < |s.tasks| && s.tasks[t].pc.InStore?
    requires TaskOk(s.tasks[t].(pc := pc)) && (Pinned(pc).Some? ==> Load(s.disk) == Pinned(pc))
    requires pc.WantStore? || pc.Launching? || pc.Reconciling? || pc.Answered?
    ensures Inv(Move(s, t, pc))
  {
    var task := s.tasks[t];
    var stage, start, taken := task.pc.stage, task.pc.start, task.pc.taken;
    assert View(s) == start && TaskOk(task) && InProgress(s.fits, s.disk, task.pc);
    assert View(Move(s, t, pc)) == s.disk;
    StoppedDiskOk(s.fits, start, task.request, stage, taken);
    if Pinned(task.pc).Some? {
      forall u | 0 <= u < |s.tasks| && u != t
        ensures Pinned(s.tasks[u].pc).None?
      {
        if Pinned(s.tasks[u].pc).Some? {
          OnePinned(s, t, u);
        }
      }
    } else if Load(start).Some? {
      OthersDoNotWrite(s.fits, start, stage, taken);
    }
    MoveKeepsInv(s, s.disk, s.dirty, t, pc);
  }

  lemma FileStepIsProgress(fits: Record -> bool, start: Disk, stage: Stage, taken: nat)
    requires taken < |PlanOp(fits, start, OpOf(stage)).steps|
    ensures InProgress(fits, PlanOp(fits, start, OpOf(stage)).steps[taken], InStore(stage, start, taken + 1))
  {}

  // Between two file steps the operation has not happened yet.
  lemma ViewInStore(s: System, t: nat, pc: Pc)
    requires t < |s.tasks| && pc.InStore?
    ensures View(Move(s, t, pc)) == pc.start
  {}

  // One more file step changes neither what the task may do nor what it has decided.
  lemma StillInStore(s: System, t: nat, pc: Pc)
    requires Inv(s) && t < |s.tasks| && s.tasks[t].pc.InStore?
    requires pc == InStore(s.tasks[t].pc.stage, s.tasks[t].pc.start, s.tasks[t].pc.taken + 1)
    ensures MayTake(s, t, pc) && TaskOk(s.tasks[t].(pc := pc))
    ensures View(s) == pc.start && DiskOk(pc.start)
    ensures Pinned(pc).Some? ==> Load(pc.start) == Pinned(pc)
  {
    assert TaskOk(s.tasks[t]);
    assert Pinned(pc) == Pinned(s.tasks[t].pc);
  }

  lemma FileStepKeepsInv(s: System, t: nat)
    requires Inv(s) && t < |s.tasks| && s.tasks[t].pc.InStore?
    requires s.tasks[t].pc.taken < |PlanOp(s.fits, s.tasks[t].pc.start, OpOf(s.tasks[t].pc.stage)).steps|
    ensures Inv(FileStepped(s, t))
  {
    var before := s.tasks[t].pc;
    var disk := PlanOp(s.fits, before.start, OpOf(before.stage)).steps[before.taken];
    var pc := InStore(before.stage, before.start, before.taken + 1);
    FileStepIsProgress(s.fits, before.start, before.stage, before.taken);
    StillInStore(s, t, pc);
    ViewInStore(s.(disk := disk, dirty := s.dirty), t, pc);
    MoveKeepsInv(s, disk, s.dirty, t, pc);
    assert s.(disk := disk, dirty := s.dirty) == s.(disk := disk);
  }

  lemma ReturnKeepsInv(s: System, t: nat)
    requires Inv(s) && t < |s.tasks| && s.tasks[t].pc.InStore?
    requires s.tasks[t].pc.taken == |PlanOp(s.fits, s.tasks[t].pc.start, OpOf(s.tasks[t].pc.stage)).steps|
    ensures Inv(Returned(s, t))
  {
    var task := s.tasks[t];
    var stage, start := task.pc.stage, task.pc.start;
    assert View(s) == start && TaskOk(task) && InProgress(s.fits, s.disk, task.pc);
    StoreAnswerOk(s.fits, task, s.adapter, start);
    StopKeepsInv(s, t, AfterStore(task, s.adapter, stage, PlanOp(s.fits, start, OpOf(stage)).result));
  }

  lemma StoreFailureKeepsInv(s: System, t: nat)
    requires Inv(s) && CanStep(s, t, IoError) && s.tasks[t].pc.InStore?
    ensures Inv(DoStep(s, t, IoError))
  {
    assert TaskOk(s.tasks[t]);
    StopKeepsInv(s, t, Answered(PersistenceFailed));
  }

  lemma StoreProgressKeepsInv(s: System, t: nat)
    requires Inv(s) && CanStep(s, t, Proceed) && s.tasks[t].pc.InStore?
    ensures Inv(DoStep(s, t, Proceed))
  {
    var pc := s.tasks[t].pc;
    assert InProgress(s.fits, s.disk, pc);
    if pc.taken < |PlanOp(s.fits, pc.start, OpOf(pc.stage)).steps| {
      FileStepKeepsInv(s, t);
    } else {
      ReturnKeepsInv(s, t);
    }
  }

  lemma StoreStepKeepsInv(s: System, t: nat, c: Choice)
    requires Inv(s) && CanStep(s, t, c) && s.tasks[t].pc.InStore?
    ensures Inv(DoStep(s, t, c))
  {
    if c.IoError? {
      StoreFailureKeepsInv(s, t);
    } else {
      StoreProgressKeepsInv(s, t);
    }
  }

  /** Outside the store a step leaves the directory alone. */
  lemma QuietStepKeepsInv(s: System, dirty: nat, t: nat, pc: Pc)
    requires Inv(s) && t < |s.tasks| && MayTake(s, t, pc)
    requires !s.tasks[t].pc.InStore? && (pc.InStore? ==> pc == InStore(pc.stage, s.disk, 0))
    requires TaskOk(s.tasks[t].(pc := pc))
    requires Pinned(pc).Some? ==> Pinned(pc) == Pinned(s.tasks[t].pc)
    ensures Inv(Move(s.(dirty := dirty), t, pc))
  {
    assert View(Move(s.(dirty := dirty), t, pc)) == View(s);
    MoveKeepsInv(s, s.disk, dirty, t, pc);
  }

  lemma DispatchStepKeepsInv(s: System, t: nat, c: Choice)
    requires Inv(s) && CanStep(s, t, c) && s.tasks[t].pc.WantDispatch?
    ensures Inv(DoStep(s, t, c))
  {
    assert TaskOk(s.tasks[t]);
    var s' := DoStep(s, t, c);
    QuietStepKeepsInv(s, s'.dirty, t, s'.tasks[t].pc);
  }

  lemma LaunchStepKeepsInv(s: System, t: nat, c: Choice)
    requires Inv(s) && CanStep(s, t, c) && s.tasks[t].pc.Launching?
    ensures Inv(DoStep(s, t, c))
  {
    var task := s.tasks[t];
    assert TaskOk(task);
    LaunchOk(task.request, task.pc.plan, s.adapter, c);
    QuietStepKeepsInv(s, s.dirty, t, AfterLaunch(task.pc.plan, s.adapter, c));
  }

  lemma ReconcileStepKeepsInv(s: System, t: nat, c: Choice)
    requires Inv(s) && CanStep(s, t, c) && s.tasks[t].pc.Reconciling?
    ensures Inv(DoStep(s, t, c))
  {
    assert TaskOk(s.tasks[t]);
    QuietStepKeepsInv(
      s, s.dirty, t, if c.Reconciled? then WantStore(Install(c.candidate)) else Answered(Listed(None)));
  }

  lemma TaskStepKeepsInv(s: System, t: nat, c: Choice)
    requires Inv(s) && CanStep(s, t, c)
    ensures Inv(DoStep(s, t, c))
  {
    var task := s.tasks[t];
    assert TaskOk(task);
    assert s.(dirty := s.dirty) == s;
    match task.pc
    case WantDispatchForLock => QuietStepKeepsInv(s, s.dirty, t, WantWorkspace);
    case WantWorkspace => QuietStepKeepsInv(s, s.dirty, t, WantDispatch);
    case WantDispatch => DispatchStepKeepsInv(s, t, c);
    case WantStore(stage) => QuietStepKeepsInv(s, s.dirty, t, InStore(stage, s.disk, 0));
    case InStore(_, _, _) => StoreStepKeepsInv(s, t, c);
    case Reconciling => ReconcileStepKeepsInv(s, t, c);
    case FlushWait(_) => QuietStepKeepsInv(s, s.dirty, t, Answered(Handled));
    case Launching(plan) => LaunchStepKeepsInv(s, t, c);
    case WantDispatchToCommit(plan, attempt, outcomes) =>
      QuietStepKeepsInv(s, s.dirty, t, WantStore(Commitment(plan.record, attempt, outcomes)));
    case Answered(_) =>
  }

  lemma WriterStepKeepsInv(s: System, ok: bool)
    requires Inv(s) && CanWrite(s, ok)
    ensures Inv(DoWrite(s, ok))
  {
    assert View(DoWrite(s, ok)) == View(s);
  }

  lemma ArrivalKeepsInv(s: System, request: Request)
    requires Inv(s)
    ensures Inv(Do(s, Arrive(request)))
  {
    var s' := Do(s, Arrive(request));
    assert View(s') == View(s);
    assert TaskOk(s'.tasks[|s.tasks|]);
    assert DispatchAgrees(s');
    assert WorkspacesAgree(s');
    assert StoreAgrees(s');
  }

  lemma CrashKeepsInv(s: System)
    requires Inv(s)
    ensures Inv(Boot(s.fits, s.disk, s.adapter, s.faults))
  {
    if s.storeLock.Some? && s.storeLock.value.ByTask? {
      var owner := s.tasks[s.storeLock.value.task];
      assert TaskOk(owner);
      StoppedDiskOk(s.fits, View(s), owner.request, owner.pc.stage, owner.pc.taken);
    }
  }

  lemma StepKeepsInv(s: System, e: Event)
    requires Inv(s) && Can(s, e)
    ensures Inv(Do(s, e))
  {
    match e
    case TaskStep(t, c) => TaskStepKeepsInv(s, t, c);
    case WriterStep(ok) => WriterStepKeepsInv(s, ok);
    case Arrive(request) => ArrivalKeepsInv(s, request);
    case Crash => CrashKeepsInv(s);
  }

  // ----- runs -----

  predicate CanRun(s: System, es: seq<Event>)
    decreases |es|
  {
    es != [] ==> Can(s, es[0]) && CanRun(Do(s, es[0]), es[1..])
  }

  function Run(s: System, es: seq<Event>): System
    requires CanRun(s, es)
    decreases |es|
  {
    if es == [] then s else Run(Do(s, es[0]), es[1..])
  }

  lemma {:induction false} RunKeepsInv(s: System, es: seq<Event>)
    requires Inv(s) && CanRun(s, es)
    ensures Inv(Run(s, es))
    decreases |es|
  {
    if es != [] {
      StepKeepsInv(s, es[0]);
      RunKeepsInv(Do(s, es[0]), es[1..]);
    }
  }

  lemma {:induction false} RunKeepsFits(s: System, es: seq<Event>)
    requires CanRun(s, es)
    ensures Run(s, es).fits == s.fits
    decreases |es|
  {
    if es != [] {
      RunKeepsFits(Do(s, es[0]), es[1..]);
    }
  }

  /** While a task holds a decision, the file is the record it decided on. */
  lemma DecisionIsStored(s: System, t: nat)
    requires Inv(s) && t < |s.tasks| && Pinned(s.tasks[t].pc).Some?
    requires s.tasks[t].pc.InStore? ==> s.tasks[t].pc.taken == 0
    ensures s.disk.recovery == Pinned(s.tasks[t].pc) && Load(s.disk) == s.disk.recovery
  {
    if s.storeLock.Some? && s.storeLock.value.ByTask? {
      var u := s.storeLock.value.task;
      assert InProgress(s.fits, s.disk, s.tasks[u].pc);
      if Pinned(s.tasks[u].pc).Some? {
        OnePinned(s, t, u);
      } else {
        OthersDoNotWrite(s.fits, View(s), s.tasks[u].pc.stage, s.tasks[u].pc.taken);
      }
    }
  }

  /** Interference freedom: when an attempt commits, the stored record is the one it loaded before the launch, and
      the commit is refused only because the attempt's id was used before, the attempt list is full, or the record would
      exceed the size limit. */
  lemma CommitFindsItsRecord(
    fits: Record -> bool, disk: Disk, adapter: Option<string>, faults: nat, es: seq<Event>, t: nat)
    requires DiskOk(disk) && CanRun(Boot(fits, disk, adapter, faults), es)
    requires var s := Run(Boot(fits, disk, adapter, faults), es);
             t < |s.tasks| && s.tasks[t].pc.InStore? && s.tasks[t].pc.stage.Commitment? && s.tasks[t].pc.taken == 0
    ensures var s := Run(Boot(fits, disk, adapter, faults), es);
            var stage := s.tasks[t].pc.stage;
            && s.disk.recovery == Some(stage.record)
            && (PlanOp(fits, s.disk, OpOf(stage)).result.Committed?
                <==> && stage.attempt.id !in AttemptIds(stage.record.attempts)
                     && |stage.record.attempts| < MAX_ITEMS
                     && fits(Grown(stage.record, stage.attempt, stage.outcomes)))
  {
    RunKeepsInv(Boot(fits, disk, adapter, faults), es);
    var s := Run(Boot(fits, disk, adapter, faults), es);
    RunKeepsFits(Boot(fits, disk, adapter, faults), es);
    DecisionIsStored(s, t);
    assert TaskOk(s.tasks[t]);
  }

  /** Whatever the adapter is given is stored as not completed at that moment, and no second launch is under way. */
  lemma OnlyOpenItemsAreLaunched(
    fits: Record -> bool, disk: Disk, adapter: Option<string>, faults: nat, es: seq<Event>, t: nat)
    requires DiskOk(disk) && CanRun(Boot(fits, disk, adapter, faults), es)
    requires var s := Run(Boot(fits, disk, adapter, faults), es); t < |s.tasks| && s.tasks[t].pc.Launching?
    ensures var s := Run(Boot(fits, disk, adapter, faults), es);
            var plan := s.tasks[t].pc.plan;
            && s.disk.recovery == Some(plan.record)
            && plan.selected != [] && Unique(plan.selected) && ToSet(plan.selected) <= ToSet(plan.record.items)
            && (forall i :: i in plan.selected ==> TerminalCount(plan.record.attempts, i) == 0)
            && forall u :: 0 <= u < |s.tasks| && s.tasks[u].pc.Launching? ==> u == t
  {
    RunKeepsInv(Boot(fits, disk, adapter, faults), es);
    var s := Run(Boot(fits, disk, adapter, faults), es);
    var plan := s.tasks[t].pc.plan;
    DecisionIsStored(s, t);
    assert TaskOk(s.tasks[t]);
    forall i | i in plan.selected
      ensures TerminalCount(plan.record.attempts, i) == 0
    {
      assert i in ToSet(plan.selected) && i !in ToSet(plan.record.completed);
      assert TerminalCount(plan.record.attempts, i) <= 1;
    }
    forall u | 0 <= u < |s.tasks| && s.tasks[u].pc.Launching?
      ensures u == t
    {
      OnePinned(s, t, u);
    }
  }

  lemma StoredIsSettled(s: System)
    requires Inv(s)
    ensures DiskOk(s.disk)
  {
    if s.storeLock.Some? && s.storeLock.value.ByTask? {
      var owner := s.tasks[s.storeLock.value.task];
      assert TaskOk(owner);
      StoppedDiskOk(s.fits, View(s), owner.request, owner.pc.stage, owner.pc.taken);
    }
  }

  /** Every record that is ever on disk, also in the middle of an operation and after a crash, ended each item for
      good at most once and lists exactly the items it ended. */
  lemma StoredRecordsAreSettled(
    fits: Record -> bool, disk: Disk, adapter: Option<string>, faults: nat, es: seq<Event>)
    requires DiskOk(disk) && CanRun(Boot(fits, disk, adapter, faults), es)
    ensures DiskOk(Run(Boot(fits, disk, adapter, faults), es).disk)
  {
    RunKeepsInv(Boot(fits, disk, adapter, faults), es);
    StoredIsSettled(Run(Boot(fits, disk, adapter, faults), es));
  }

  /** Ids are deterministic, so repeating an execute whose items all failed launches again and is then refused, whatever
      the second launch reports: a success it reports is lost. */
  lemma RepeatedExecuteIsRefused(
    fits: Record -> bool, request: Request, adapter: string, record: Record, os: seq<Outcome>, later: seq<Outcome>)
    requires request.ExecuteRequest?
    requires AfterExecuteLoad(request, Some(adapter), Some(record)).Launching?
    requires forall o :: o in os ==> !Terminal(o.kind)
    requires var plan := AfterExecuteLoad(request, Some(adapter), Some(record)).plan;
             Commit(fits, record, record.workspace, BuildAttempt(plan, adapter), os).Ok?
    ensures var plan := AfterExecuteLoad(request, Some(adapter), Some(record)).plan;
            var record' := Commit(fits, record, record.workspace, BuildAttempt(plan, adapter), os).value;
            var again := AfterExecuteLoad(request, Some(adapter), Some(record'));
            && again.Launching?
            && Commit(fits, record', record'.workspace, BuildAttempt(again.plan, adapter), later) == Err(AttemptExists)
  {
    var plan := AfterExecuteLoad(request, Some(adapter), Some(record)).plan;
    var record' := Commit(fits, record, record.workspace, BuildAttempt(plan, adapter), os).value;
    NothingCompletes(record.completed, os);
    assert AttemptIds(record'.attempts)[|record.attempts|] == DeriveAttemptId(plan, adapter);
  }

  lemma {:induction false} NothingCompletes(completed: seq<ItemId>, os: seq<Outcome>)
    requires forall o :: o in os ==> !Terminal(o.kind)
    ensures AppendCompleted(completed, os) == completed
  {
    if os != [] {
      assert forall o :: o in os[..|os| - 1] ==> o in os;
      assert os[|os| - 1] in os;
      NothingCompletes(completed, os[..|os| - 1]);
    }
  }
}
