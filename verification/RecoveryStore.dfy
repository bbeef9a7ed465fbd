/**
 The recovery half of store.py: three files, each replaced or unlinked atomically, read and written
 inside one transaction at a time. An operation is a short list of file steps; a crash or an I/O error
 can stop it after any of them, because every step is flushed before the next one starts.
 */
module RecoveryStore {
  import opened Wrappers
  import opened RecoveryRecord

  datatype Disk = Disk(recovery: Option<Record>, completion: Option<WorkspaceId>, discarded: Option<WorkspaceId>)

  datatype StoreOp =
    | LoadOp
    | InstallOp(candidate: Record)
    | CommitOp(workspace: WorkspaceId, attempt: Attempt, outcomes: seq<Outcome>)
    | FinishOp(workspace: WorkspaceId, discard: bool)

  datatype StoreError = NoWorkspace | WorkspaceChanged | Unfinished | CommitRefused(reason: CommitError) | RecordTooLarge

  datatype OpResult =
    | Loaded(found: Option<Record>)
    | Installed
    | Committed(record: Record)
    | Finished
    | Refused(error: StoreError)

  datatype OpPlan = OpPlan(steps: seq<Disk>, result: OpResult)

  predicate Tombstoned(d: Disk, w: WorkspaceId) {
    d.completion == Some(w) || d.discarded == Some(w)
  }

  /** What a reader sees: a record whose workspace has a tombstone is already gone. */
  function Load(d: Disk): Option<Record> {
    if d.recovery.Some? && !Tombstoned(d, d.recovery.value.workspace) then d.recovery else None
  }

  function PurgeSteps(d: Disk): seq<Disk> {
    if d.recovery.Some? && Tombstoned(d, d.recovery.value.workspace) then [d.(recovery := None)] else []
  }

  predicate AllCompleted(r: Record) {
    ToSet(r.completed) == ToSet(r.items)
  }

  function Bury(d: Disk, w: WorkspaceId, discard: bool): Disk {
    if discard then d.(discarded := Some(w)) else d.(completion := Some(w))
  }

  /** The file steps of one operation, each given by the directory it leaves, and its answer if all are taken. */
  function PlanOp(fits: Record -> bool, d: Disk, op: StoreOp): OpPlan {
    match op
    case LoadOp => OpPlan(PurgeSteps(d), Loaded(Load(d)))
    case InstallOp(candidate) =>
      if d.recovery.Some? then OpPlan([], Installed)
      else if !fits(candidate) then OpPlan([], Refused(RecordTooLarge))
      else OpPlan([d.(recovery := Some(candidate))], Installed)
    case CommitOp(w, a, os) => (
      match Load(d)
      case None => OpPlan(PurgeSteps(d), Refused(NoWorkspace))
      case Some(r) => (
        match Commit(fits, r, w, a, os)
        case Err(e) => OpPlan([], Refused(CommitRefused(e)))
        case Ok(r') => OpPlan([d.(recovery := Some(r'))], Committed(r'))
      )
    )
    case FinishOp(w, discard) => (
      match Load(d)
      case None => OpPlan(PurgeSteps(d), Refused(NoWorkspace))
      case Some(r) =>
        if r.workspace != w then OpPlan([], Refused(WorkspaceChanged))
        else if !discard && !AllCompleted(r) then OpPlan([], Refused(Unfinished))
        else OpPlan([Bury(d, w, discard), Bury(d, w, discard).(recovery := None)], Finished)
    )
  }

  /** The directory after at most `cut` file steps of the operation. */
  function DiskAfter(fits: Record -> bool, d: Disk, op: StoreOp, cut: nat): Disk {
    var steps := PlanOp(fits, d, op).steps;
    if cut == 0 || steps == [] then d
    else if cut <= |steps| then steps[cut - 1]
    else steps[|steps| - 1]
  }

  function Done(fits: Record -> bool, d: Disk, op: StoreOp): Disk {
    DiskAfter(fits, d, op, |PlanOp(fits, d, op).steps|)
  }

  // ----- the store object -----

  class RecoveryStore {
    const fits: Record -> bool
    var recovery: Option<Record>
    var completion: Option<WorkspaceId>
    var discarded: Option<WorkspaceId>
    // Every directory this store has left behind, oldest first: where a crash could have stopped it.
    ghost var trace: seq<Disk>

    ghost function Files(): Disk
      reads this
    {
      Disk(recovery, completion, discarded)
    }

    /** Opening the state directory drops a record that a tombstone already buried. */
    constructor (
      fits: Record -> bool, recovery: Option<Record>, completion: Option<WorkspaceId>, discarded: Option<WorkspaceId>)
      ensures this.fits == fits
      ensures Files() == Done(fits, Disk(recovery, completion, discarded), LoadOp)
      ensures trace == PlanOp(fits, Disk(recovery, completion, discarded), LoadOp).steps
    {
      this.fits, this.recovery, this.completion, this.discarded := fits, recovery, completion, discarded;
      trace := [];
      new;
      if recovery.Some? {
        var buried := HasTerminalTombstone(recovery.value.workspace);
        if buried {
          UnlinkRecovery();
        }
      }
    }

    method HasTerminalTombstone(w: WorkspaceId) returns (found: bool)
      ensures found == Tombstoned(Files(), w)
    {
      if completion.Some? && completion.value == w {
        return true;
      }
      return discarded.Some? && discarded.value == w;
    }

    method ReplaceRecovery(r: Record)
      modifies this
      ensures Files() == old(Files()).(recovery := Some(r))
      ensures trace == old(trace) + [Files()]
    {
      recovery := Some(r);
      trace := trace + [Files()];
    }

    method ReplaceTombstone(w: WorkspaceId, discard: bool)
      modifies this
      ensures Files() == Bury(old(Files()), w, discard)
      ensures trace == old(trace) + [Files()]
    {
      if discard {
        discarded := Some(w);
      } else {
        completion := Some(w);
      }
      trace := trace + [Files()];
    }

    method UnlinkRecovery()
      modifies this
      ensures Files() == old(Files()).(recovery := None)
      ensures trace == old(trace) + [Files()]
    {
      recovery := None;
      trace := trace + [Files()];
    }

    method LoadRecovery() returns (found: Option<Record>)
      modifies this
      ensures Files() == Done(fits, old(Files()), LoadOp)
      ensures trace == old(trace) + PlanOp(fits, old(Files()), LoadOp).steps
      ensures Loaded(found) == PlanOp(fits, old(Files()), LoadOp).result
    {
      if recovery.None? {
        return None;
      }
      var buried := HasTerminalTombstone(recovery.value.workspace);
      if buried {
        UnlinkRecovery();
        return None;
      }
      return recovery;
    }

    method WriteRecovery(candidate: Record) returns (result: OpResult)
      modifies this
      ensures Files() == Done(fits, old(Files()), InstallOp(candidate))
      ensures trace == old(trace) + PlanOp(fits, old(Files()), InstallOp(candidate)).steps
      ensures result == PlanOp(fits, old(Files()), InstallOp(candidate)).result
    {
      if recovery.None? {
        if !fits(candidate) {
          return Refused(RecordTooLarge);
        }
        ReplaceRecovery(candidate);
      }
      return Installed;
    }

    method CommitOutcomes(w: WorkspaceId, attempt: Attempt, outcomes: seq<Outcome>) returns (result: OpResult)
      modifies this
      ensures Files() == Done(fits, old(Files()), CommitOp(w, attempt, outcomes))
      ensures trace == old(trace) + PlanOp(fits, old(Files()), CommitOp(w, attempt, outcomes)).steps
      ensures result == PlanOp(fits, old(Files()), CommitOp(w, attempt, outcomes)).result
    {
      var found := LoadRecovery();
      if found.None? {
        return Refused(NoWorkspace);
      }
      var record := found.value;
      if w != record.workspace || attempt.workspace != w {
        return Refused(CommitRefused(WorkspaceMismatch));
      }
      if attempt.id in AttemptIds(record.attempts) {
        return Refused(CommitRefused(AttemptExists));
      }
      if !(ToSet(attempt.selected) <= ToSet(record.items)) {
        return Refused(CommitRefused(UnknownSelected));
      }
      if !Unique(OutcomeItems(outcomes)) {
        return Refused(CommitRefused(DuplicateOutcome));
      }
      if !(ToSet(OutcomeItems(outcomes)) <= ToSet(attempt.selected)) {
        return Refused(CommitRefused(UnselectedOutcome));
      }
      if attempt.outcomes != [] && attempt.outcomes != outcomes {
        return Refused(CommitRefused(OutcomesDiffer));
      }
      var completed := record.completed;
      for i := 0 to |outcomes|
        invariant completed == AppendCompleted(record.completed, outcomes[..i])
      {
        assert outcomes[..i + 1][..i] == outcomes[..i];
        if Terminal(outcomes[i].kind) && outcomes[i].item !in completed {
          completed := completed + [outcomes[i].item];
        }
      }
      assert outcomes[..|outcomes|] == outcomes;
      if |record.attempts| == MAX_ITEMS {
        return Refused(CommitRefused(TooManyAttempts));
      }
      var updated := record.(attempts := record.attempts + [attempt.(outcomes := outcomes)], completed := completed);
      if !fits(updated) {
        return Refused(CommitRefused(TooLarge));
      }
      ReplaceRecovery(updated);
      return Committed(updated);
    }

    method CompleteOrDiscard(w: WorkspaceId, discard: bool) returns (result: OpResult)
      modifies this
      ensures Files() == Done(fits, old(Files()), FinishOp(w, discard))
      ensures trace == old(trace) + PlanOp(fits, old(Files()), FinishOp(w, discard)).steps
      ensures result == PlanOp(fits, old(Files()), FinishOp(w, discard)).result
    {
      var found := LoadRecovery();
      if found.None? {
        return Refused(NoWorkspace);
      }
      if found.value.workspace != w {
        return Refused(WorkspaceChanged);
      }
      if !discard && ToSet(found.value.completed) != ToSet(found.value.items) {
        return Refused(Unfinished);
      }
      ReplaceTombstone(w, discard);
      UnlinkRecovery();
      return Finished;
    }
  }

  // ----- crashes -----

  /** Wherever an operation stops, a reader sees what it saw before the operation or what it sees after it. */
  lemma CrashIsAtomic(fits: Record -> bool, d: Disk, op: StoreOp, cut: nat)
    ensures Load(DiskAfter(fits, d, op, cut)) in {Load(d), Load(Done(fits, d, op))}
  {
    var steps := PlanOp(fits, d, op).steps;
    assert |steps| <= 2;
  }

  /** Ending a workspace: stopped before the tombstone the record is untouched, stopped after it the record is
      gone for every reader, and reopening removes the file. */
  lemma CrashDuringFinish(fits: Record -> bool, d: Disk, w: WorkspaceId, discard: bool, cut: nat)
    requires PlanOp(fits, d, FinishOp(w, discard)).result.Finished?
    ensures var stopped := DiskAfter(fits, d, FinishOp(w, discard), cut);
            var reopened := Done(fits, stopped, LoadOp);
            if cut == 0 then reopened == d && Load(reopened) == d.recovery
            else Load(stopped).None? && reopened.recovery.None? && Tombstoned(reopened, w)
  {}

  // ----- histories: no workspace comes back after it ended -----

  // One operation, stopped after `cut` file steps; reopening is a LoadOp.
  datatype Act = Act(op: StoreOp, cut: nat)

  // The directory, and every workspace a tombstone has ever named.
  datatype History = History(disk: Disk, ended: set<WorkspaceId>)

  function Apply(fits: Record -> bool, h: History, act: Act): History {
    History(
      DiskAfter(fits, h.disk, act.op, act.cut),
      h.ended + if act.op.FinishOp? && PlanOp(fits, h.disk, act.op).result.Finished? && act.cut > 0
                then {act.op.workspace} else {})
  }

  // The act puts a new record file in place.
  predicate Installs(fits: Record -> bool, h: History, act: Act) {
    act.op.InstallOp? && act.cut > 0 && h.disk.recovery.None? && fits(act.op.candidate)
  }

  /** An ended workspace may be installed again only while a tombstone file still names it. */
  predicate Guarded(fits: Record -> bool, h: History, act: Act) {
    Installs(fits, h, act) && act.op.candidate.workspace in h.ended ==> Tombstoned(h.disk, act.op.candidate.workspace)
  }

  /** No reader sees a workspace that ended. */
  predicate Buried(h: History) {
    Load(h.disk).Some? ==> Load(h.disk).value.workspace !in h.ended
  }

  predicate AlwaysBuried(fits: Record -> bool, h: History, acts: seq<Act>)
    decreases |acts|
  {
    Buried(h) && (acts != [] ==> AlwaysBuried(fits, Apply(fits, h, acts[0]), acts[1..]))
  }

  predicate AlwaysGuarded(fits: Record -> bool, h: History, acts: seq<Act>)
    decreases |acts|
  {
    acts != [] ==> Guarded(fits, h, acts[0]) && AlwaysGuarded(fits, Apply(fits, h, acts[0]), acts[1..])
  }

  predicate InstallsNeverEnded(fits: Record -> bool, h: History, acts: seq<Act>)
    decreases |acts|
  {
    acts != [] ==>
      && (Installs(fits, h, acts[0]) ==> acts[0].op.candidate.workspace !in h.ended)
      && InstallsNeverEnded(fits, Apply(fits, h, acts[0]), acts[1..])
  }

  lemma StepBuried(fits: Record -> bool, h: History, act: Act)
    requires Buried(h)
    ensures Buried(Apply(fits, h, act)) <==> Guarded(fits, h, act)
  {
    assert |PlanOp(fits, h.disk, act.op).steps| <= 2;
  }

  /** Over any run with any crashes, no ended workspace is ever loaded exactly when every reinstall of one is guarded. */
  lemma {:induction false} EndedStaysEnded(fits: Record -> bool, h: History, acts: seq<Act>)
    requires Buried(h)
    ensures AlwaysBuried(fits, h, acts) <==> AlwaysGuarded(fits, h, acts)
    decreases |acts|
  {
    if acts != [] {
      StepBuried(fits, h, acts[0]);
      if Buried(Apply(fits, h, acts[0])) {
        EndedStaysEnded(fits, Apply(fits, h, acts[0]), acts[1..]);
      }
    }
  }

  lemma {:induction false} FreshIdsStayEnded(fits: Record -> bool, h: History, acts: seq<Act>)
    requires Buried(h) && InstallsNeverEnded(fits, h, acts)
    ensures AlwaysBuried(fits, h, acts)
    decreases |acts|
  {
    if acts != [] {
      StepBuried(fits, h, acts[0]);
      FreshIdsStayEnded(fits, Apply(fits, h, acts[0]), acts[1..]);
    }
  }

  /** The tombstone files hold one id each: once another workspace has overwritten it, an old id can come back. */
  lemma OverwrittenTombstoneRevives(fits: Record -> bool, first: Record, second: Record)
    requires fits(first) && fits(second) && first.workspace != second.workspace
    ensures var h0 := History(Disk(None, None, None), {});
            var h2 := Apply(fits, Apply(fits, h0, Act(InstallOp(first), 1)), Act(FinishOp(first.workspace, true), 2));
            var h4 := Apply(fits, Apply(fits, h2, Act(InstallOp(second), 1)), Act(FinishOp(second.workspace, true), 2));
            var h5 := Apply(fits, h4, Act(InstallOp(first), 1));
            Buried(h0) && Buried(h4) && Load(h5.disk) == Some(first) && first.workspace in h5.ended
  {
    var h0 := History(Disk(None, None, None), {});
    var h1 := Apply(fits, h0, Act(InstallOp(first), 1));
    var h2 := Apply(fits, h1, Act(FinishOp(first.workspace, true), 2));
    assert h2 == History(Disk(None, None, Some(first.workspace)), {first.workspace});
    var h3 := Apply(fits, h2, Act(InstallOp(second), 1));
    assert h3.disk == Disk(Some(second), None, Some(first.workspace));
    var h4 := Apply(fits, h3, Act(FinishOp(second.workspace, true), 2));
    assert h4.disk == Disk(None, None, Some(second.workspace));
  }
}
