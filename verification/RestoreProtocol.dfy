/**
 The restore half of server.py as a transition system. Every connection is a task; a task moves by one step
 between two suspension points of the service, so a step happens with the event loop to itself.

 Locks, always taken in this order: the lock of one workspace, the dispatch lock, the store's lock. A scoped
 request (execute, retry, discard) keeps its workspace lock from start to end, but gives the dispatch lock up
 while the terminal is launched. Snapshots wait, under the dispatch lock, for a checkpoint writer that itself
 needs the store's lock.
 */
module RestoreProtocol {
  import opened Wrappers
  import opened RecoveryRecord
  import opened RecoveryStore

  const MAX_OUTCOME_MESSAGE_CHARS: nat := 160

  datatype Request =
    | ListRequest
    | StatusRequest
    | EngineRequest // register or event: the engine state becomes newer than the last checkpoint
    | SnapshotRequest
    | ExecuteRequest(workspace: WorkspaceId, selected: seq<ItemId>, approved: set<ItemId>)
    | RetryRequest(workspace: WorkspaceId, attempt: AttemptId, approved: set<ItemId>)
    | DiscardRequest(workspace: WorkspaceId)
  {
    predicate Scoped() {
      ExecuteRequest? || RetryRequest? || DiscardRequest?
    }
  }

  datatype Response =
    | Handled
    | Listed(workspace: Option<WorkspaceId>)
    | Restored(attempt: AttemptId)
    | Discarded
    | WorkspaceMismatched
    | UnknownItem
    | AttemptMismatch
    | AdapterUnavailable
    | PersistenceFailed
    | InternalError

  // What a task is about to launch, and the record it decided on.
  datatype LaunchPlan = LaunchPlan(
    record: Record,
    selected: seq<ItemId>,
    approved: set<ItemId>,
    source: Option<AttemptId>)

  // Why a task is in the store.
  datatype Stage =
    | FirstLoad
    | Install(candidate: Record)
    | SecondLoad
    | Commitment(record: Record, attempt: Attempt, outcomes: seq<Outcome>)
    | Ending(record: Record, discard: bool, response: Response)

  datatype Pc =
    | WantDispatchForLock
    | WantWorkspace
    | WantDispatch
    | WantStore(stage: Stage)
    | InStore(stage: Stage, start: Disk, taken: nat) // directory at entry, file steps taken since
    | Reconciling
    | FlushWait(target: nat)
    | Launching(plan: LaunchPlan)
    | WantDispatchToCommit(plan: LaunchPlan, attempt: Attempt, outcomes: seq<Outcome>)
    | Answered(response: Response)
  {
    predicate HoldsDispatch() {
      WantStore? || InStore? || Reconciling? || FlushWait?
    }
  }

  datatype Task = Task(request: Request, pc: Pc)
  {
    predicate HoldsWorkspace() {
      request.Scoped() && !pc.WantDispatchForLock? && !pc.WantWorkspace? && !pc.Answered?
    }
  }

  datatype Writer = Asleep | Queued(target: nat) | Writing(target: nat)

  datatype StoreOwner = ByTask(task: nat) | ByWriter

  datatype System = System(
    fits: Record -> bool, // whether a record's JSON is within the size limit
    disk: Disk,
    adapter: Option<string>,
    dispatch: Option<nat>,
    workspaceLocks: map<WorkspaceId, Option<nat>>,
    storeLock: Option<StoreOwner>,
    tasks: seq<Task>,
    dirty: nat,
    durable: nat,
    writer: Writer,
    faults: nat) // failed checkpoint writes still to come

  // What the environment decides in a step.
  datatype Choice =
    | Proceed
    | IoError
    | NothingToRecover
    | Reconciled(candidate: Record)
    | AdapterDown
    | Launched(outcomes: seq<Outcome>)

  datatype Event =
    | TaskStep(task: nat, choice: Choice)
    | WriterStep(ok: bool)
    | Arrive(request: Request)
    | Crash

  // ----- the decisions a task takes after loading the record -----

  function Without(selected: seq<ItemId>, completed: seq<ItemId>): (rest: seq<ItemId>)
    ensures ToSet(rest) == ToSet(selected) - ToSet(completed)
    ensures Unique(selected) ==> Unique(rest)
    ensures |rest| <= |selected|
  {
    if selected == [] then []
    else
      var front := Without(selected[..|selected| - 1], completed);
      var last := selected[|selected| - 1];
      assert selected == selected[..|selected| - 1] + [last];
      assert last in front ==> last in ToSet(front);
      assert ToSet(front + [last]) == ToSet(front) + {last};
      if last in completed then front else front + [last]
  }

  /** The items of an earlier attempt that may be tried again. */
  function Retryable(outcomes: seq<Outcome>, completed: seq<ItemId>): (items: seq<ItemId>)
    ensures ToSet(items) <= ToSet(OutcomeItems(outcomes)) - ToSet(completed)
    ensures Unique(OutcomeItems(outcomes)) ==> Unique(items)
    ensures |items| <= |outcomes|
  {
    if outcomes == [] then []
    else
      var front, last := outcomes[..|outcomes| - 1], outcomes[|outcomes| - 1];
      var items := Retryable(front, completed);
      assert OutcomeItems(outcomes) == OutcomeItems(front) + [last.item];
      assert last.item in items ==> last.item in ToSet(items);
      assert ToSet(items + [last.item]) == ToSet(items) + {last.item};
      assert ToSet(OutcomeItems(outcomes)) == ToSet(OutcomeItems(front)) + {last.item};
      if !Terminal(last.kind) && last.item !in completed then items + [last.item] else items
  }

  function FindAttempt(attempts: seq<Attempt>, id: AttemptId): (found: Option<Attempt>)
    ensures found.Some? ==> found.value in attempts && found.value.id == id
    ensures found.None? ==> id !in AttemptIds(attempts)
  {
    if attempts == [] then None
    else if attempts[0].id == id then Some(attempts[0])
    else
      assert AttemptIds(attempts) == [attempts[0].id] + AttemptIds(attempts[1..]);
      FindAttempt(attempts[1..], id)
  }

  function LastMatching(attempts: seq<Attempt>, id: AttemptId, selected: seq<ItemId>, approved: set<ItemId>)
    : (found: Option<Attempt>)
    ensures found.Some? ==> found.value in attempts && found.value.id == id
  {
    if attempts == [] then None
    else
      var last := attempts[|attempts| - 1];
      if last.id == id && multiset(last.selected) == multiset(selected) && last.approved == approved then Some(last)
      else LastMatching(attempts[..|attempts| - 1], id, selected, approved)
  }

  function DeriveAttemptId(plan: LaunchPlan, adapter: string): AttemptId {
    AttemptId(plan.record.workspace, ToSet(plan.selected), plan.approved, adapter, plan.source)
  }

  function BuildAttempt(plan: LaunchPlan, adapter: string): Attempt {
    Attempt(DeriveAttemptId(plan, adapter), plan.record.workspace, plan.selected, plan.approved, [])
  }

  function AfterExecuteLoad(request: Request, adapter: Option<string>, found: Option<Record>): Pc
    requires request.ExecuteRequest?
  {
    if found.None? || found.value.workspace != request.workspace then Answered(WorkspaceMismatched)
    else
      var record := found.value;
      if !Unique(request.selected) || !(ToSet(request.selected) <= ToSet(record.items)) then Answered(UnknownItem)
      else if !(request.approved <= ToSet(request.selected)) then Answered(UnknownItem)
      else
        var effective := Without(request.selected, record.completed);
        if effective != [] then
          Launching(LaunchPlan(record, effective, request.approved * ToSet(effective), None))
        else if adapter.None? then Answered(UnknownItem)
        else
          var expected := LaunchPlan(record, request.selected, request.approved, None);
          var prior := LastMatching(
            record.attempts, DeriveAttemptId(expected, adapter.value), request.selected, request.approved);
          if prior.None? then Answered(UnknownItem)
          else if AllCompleted(record) then WantStore(Ending(record, false, Restored(prior.value.id)))
          else Answered(Restored(prior.value.id))
  }

  function AfterRetryLoad(request: Request, found: Option<Record>): Pc
    requires request.RetryRequest?
  {
    if found.None? || found.value.workspace != request.workspace then Answered(WorkspaceMismatched)
    else
      var record := found.value;
      var source := FindAttempt(record.attempts, request.attempt);
      if source.None? then Answered(AttemptMismatch)
      else
        var retryable := Retryable(source.value.outcomes, record.completed);
        if !(request.approved <= ToSet(retryable)) then Answered(UnknownItem)
        else if retryable == [] then Answered(AttemptMismatch)
        else Launching(LaunchPlan(record, retryable, request.approved, Some(request.attempt)))
  }

  function AfterLoad(request: Request, adapter: Option<string>, found: Option<Record>): Pc {
    match request
    case ListRequest => if found.None? then Reconciling else Answered(Listed(Some(found.value.workspace)))
    case ExecuteRequest(_, _, _) => AfterExecuteLoad(request, adapter, found)
    case RetryRequest(_, _, _) => AfterRetryLoad(request, found)
    case DiscardRequest(w) =>
      if found.None? || found.value.workspace != w then Answered(WorkspaceMismatched)
      else WantStore(Ending(found.value, true, Discarded))
    case _ => Answered(Handled)
  }

  function OpOf(stage: Stage): StoreOp {
    match stage
    case FirstLoad => LoadOp
    case SecondLoad => LoadOp
    case Install(candidate) => InstallOp(candidate)
    case Commitment(record, attempt, outcomes) => CommitOp(record.workspace, attempt, outcomes)
    case Ending(record, discard, _) => FinishOp(record.workspace, discard)
  }

  /** Where a task goes with the answer of its store operation. */
  function AfterStore(task: Task, adapter: Option<string>, stage: Stage, result: OpResult): Pc {
    match result
    case Refused(_) => Answered(PersistenceFailed)
    case Loaded(found) =>
      if stage.SecondLoad? then Answered(Listed(if found.None? then None else Some(found.value.workspace)))
      else AfterLoad(task.request, adapter, found)
    case Installed => WantStore(SecondLoad)
    case Committed(record) =>
      if !stage.Commitment? then Answered(InternalError)
      else if AllCompleted(record) then WantStore(Ending(record, false, Restored(stage.attempt.id)))
      else Answered(Restored(stage.attempt.id))
    case Finished => if stage.Ending? then Answered(stage.response) else Answered(InternalError)
  }

  /** The outcomes with their messages cut to size. */
  function Clipped(os: seq<Outcome>): (clipped: seq<Outcome>)
    ensures |clipped| == |os| && OutcomeItems(clipped) == OutcomeItems(os)
    ensures forall i :: 0 <= i < |os| ==> clipped[i].kind == os[i].kind
  {
    seq(|os|, i requires 0 <= i < |os| =>
      if |os[i].message| <= MAX_OUTCOME_MESSAGE_CHARS then os[i]
      else os[i].(message := os[i].message[..MAX_OUTCOME_MESSAGE_CHARS]))
  }

  function AfterLaunch(plan: LaunchPlan, adapter: Option<string>, choice: Choice): Pc {
    if adapter.None? || choice.AdapterDown? then Answered(AdapterUnavailable)
    else if choice.IoError? then Answered(PersistenceFailed)
    else if !choice.Launched? then Answered(InternalError)
    else
      var items := OutcomeItems(choice.outcomes);
      if !Unique(items) || ToSet(items) != ToSet(plan.selected) then Answered(InternalError)
      else WantDispatchToCommit(plan, BuildAttempt(plan, adapter.value), Clipped(choice.outcomes))
  }

  // ----- steps -----

  /** The task goes on at `pc`; it holds from now on exactly the locks that `pc` calls for. */
  function Move(s: System, t: nat, pc: Pc): System
    requires t < |s.tasks|
  {
    var task := s.tasks[t].(pc := pc);
    s.(tasks := s.tasks[t := task],
       dispatch :=
         if pc.HoldsDispatch() then Some(t) else if s.dispatch == Some(t) then None else s.dispatch,
       workspaceLocks :=
         if !task.request.Scoped() then s.workspaceLocks
         else if task.HoldsWorkspace() then s.workspaceLocks[task.request.workspace := Some(t)]
         else if s.tasks[t].HoldsWorkspace() then s.workspaceLocks[task.request.workspace := None]
         else if task.request.workspace in s.workspaceLocks then s.workspaceLocks
         else s.workspaceLocks[task.request.workspace := None],
       storeLock :=
         if pc.InStore? then Some(ByTask(t)) else if s.storeLock == Some(ByTask(t)) then None else s.storeLock)
  }

  predicate CanStep(s: System, t: nat, c: Choice) {
    t < |s.tasks| &&
    var task := s.tasks[t];
    match task.pc
    case WantDispatchForLock => s.dispatch.None? && c.Proceed?
    case WantWorkspace =>
      && c.Proceed? && task.request.Scoped()
      && task.request.workspace in s.workspaceLocks && s.workspaceLocks[task.request.workspace].None?
    case WantDispatch => s.dispatch.None? && c.Proceed?
    case WantStore(_) => s.storeLock.None? && c.Proceed?
    case InStore(_, _, _) => c.Proceed? || c.IoError?
    case Reconciling => c.NothingToRecover? || (c.Reconciled? && Fresh(c.candidate) && c.candidate.items != [])
    case FlushWait(target) => s.durable >= target && c.Proceed?
    case Launching(_) => c.AdapterDown? || c.IoError? || c.Launched?
    case WantDispatchToCommit(_, _, _) => s.dispatch.None? && c.Proceed?
    case Answered(_) => false
  }

  /** The next file step of the operation in progress takes effect. */
  function FileStepped(s: System, t: nat): System
    requires t < |s.tasks| && s.tasks[t].pc.InStore?
    requires s.tasks[t].pc.taken < |PlanOp(s.fits, s.tasks[t].pc.start, OpOf(s.tasks[t].pc.stage)).steps|
  {
    var pc := s.tasks[t].pc;
    Move(s.(disk := PlanOp(s.fits, pc.start, OpOf(pc.stage)).steps[pc.taken]), t, InStore(pc.stage, pc.start, pc.taken + 1))
  }

  /** The operation is through and its answer settles where the task goes. */
  function Returned(s: System, t: nat): System
    requires t < |s.tasks| && s.tasks[t].pc.InStore?
  {
    var task := s.tasks[t];
    Move(s, t, AfterStore(task, s.adapter, task.pc.stage, PlanOp(s.fits, task.pc.start, OpOf(task.pc.stage)).result))
  }

  function DoStep(s: System, t: nat, c: Choice): System
    requires CanStep(s, t, c)
  {
    var task := s.tasks[t];
    match task.pc
    case WantDispatchForLock => Move(s, t, WantWorkspace) // takes and gives back the dispatch lock at once
    case WantWorkspace => Move(s, t, WantDispatch)
    case WantDispatch =>
      if task.request.EngineRequest? then Move(s.(dirty := s.dirty + 1), t, Answered(Handled))
      else if !task.request.SnapshotRequest? then Move(s, t, WantStore(FirstLoad))
      else if s.dirty <= s.durable then Move(s, t, Answered(Handled))
      else Move(s, t, FlushWait(s.dirty))
    case WantStore(stage) => Move(s, t, InStore(stage, s.disk, 0))
    case InStore(stage, start, taken) =>
      if c.IoError? then Move(s, t, Answered(PersistenceFailed))
      else if taken < |PlanOp(s.fits, start, OpOf(stage)).steps| then FileStepped(s, t)
      else Returned(s, t)
    case Reconciling =>
      if c.Reconciled? then Move(s, t, WantStore(Install(c.candidate))) else Move(s, t, Answered(Listed(None)))
    case FlushWait(_) => Move(s, t, Answered(Handled))
    case Launching(plan) => Move(s, t, AfterLaunch(plan, s.adapter, c))
    case WantDispatchToCommit(plan, attempt, outcomes) =>
      Move(s, t, WantStore(Commitment(plan.record, attempt, outcomes)))
  }

  predicate CanWrite(s: System, ok: bool) {
    match s.writer
    case Asleep => s.dirty > s.durable && ok
    case Queued(_) => s.storeLock.None? && ok
    case Writing(_) => ok || s.faults > 0
  }

  function DoWrite(s: System, ok: bool): System
    requires CanWrite(s, ok)
  {
    match s.writer
    case Asleep => s.(writer := Queued(s.dirty))
    case Queued(target) => s.(writer := Writing(target), storeLock := Some(ByWriter))
    case Writing(target) =>
      if ok then s.(writer := Asleep, storeLock := None, durable := if target > s.durable then target else s.durable)
      else s.(writer := Asleep, storeLock := None, faults := s.faults - 1)
  }

  /** A service that has just opened this state directory. */
  function Boot(fits: Record -> bool, disk: Disk, adapter: Option<string>, faults: nat): System {
    System(fits, Done(fits, disk, LoadOp), adapter, None, map[], None, [], 0, 0, Asleep, faults)
  }

  predicate Can(s: System, e: Event) {
    match e
    case TaskStep(t, c) => CanStep(s, t, c)
    case WriterStep(ok) => CanWrite(s, ok)
    case Arrive(_) => true
    case Crash => true
  }

  function Do(s: System, e: Event): System
    requires Can(s, e)
  {
    match e
    case TaskStep(t, c) => DoStep(s, t, c)
    case WriterStep(ok) => DoWrite(s, ok)
    case Arrive(request) =>
      s.(tasks := s.tasks + [Task(request, if request.Scoped() then WantDispatchForLock else WantDispatch)])
    case Crash => Boot(s.fits, s.disk, s.adapter, s.faults)
  }
}
