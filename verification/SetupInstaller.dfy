/**
 Setup as the code runs it: file-system calls one after another, each of which may fail before or after it took effect,
 then rollback or cleanup.
 */
module SetupInstaller {
  import opened Wrappers
  import opened MarkerEncoding
  import opened SetupTransaction

  datatype Exit = Installed | CleanupWarning | RolledBack | RollbackIncomplete

  // What the outside world does to one file-system call: nothing, an error before it, or an error just after it.
  datatype Fault = Fine | FailsBefore | FailsAfter

  /** Setup stopped after `k` of its steps, and rollback after `j` of its own. */
  predicate StoppedAt(before: Fs, after: Fs, plan: Plan, k: nat, j: nat) {
    && k <= |SetupSteps(before, plan)|
    && var failed := ApplyAll(before, SetupSteps(before, plan)[..k]);
       var rollback := RollbackSteps(before, failed, plan);
       j <= |rollback| && after == ApplyAll(failed, rollback[..j])
  }

  /** Rollback went through, to its last step and with a marker that verifies where one is needed. */
  predicate Undone(before: Fs, plan: Plan, k: nat, j: nat)
    requires k <= |SetupSteps(before, plan)|
  {
    var failed := ApplyAll(before, SetupSteps(before, plan)[..k]);
    j == |RollbackSteps(before, failed, plan)| && RollbackCompletes(failed, plan)
  }

  lemma AllSteps(fs: Fs, plan: Plan)
    ensures ApplyAll(fs, SetupSteps(fs, plan)[..|SetupSteps(fs, plan)|]) == ApplyAll(fs, SetupSteps(fs, plan))
  {
    assert SetupSteps(fs, plan)[..|SetupSteps(fs, plan)|] == SetupSteps(fs, plan);
  }

  lemma StoppedIsOk(before: Fs, after: Fs, plan: Plan, k: nat, j: nat)
    requires Ready(before, plan) && StoppedAt(before, after, plan, k, j)
    ensures CurrentOk(before, plan.root) ==> CurrentOk(after, plan.root)
  {
    if CurrentOk(before, plan.root) {
      RollbackIsSound(before, plan, k, j);
    }
  }

  /** A complete rollback leaves everything as it was unless a restored file had mode 0. */
  lemma UndoneIsRestored(before: Fs, after: Fs, plan: Plan, k: nat, j: nat)
    requires Ready(before, plan) && StoppedAt(before, after, plan, k, j) && Undone(before, plan, k, j)
    ensures SameState(after, before) <==> ModesKept(before, plan)
  {
    var failed := ApplyAll(before, SetupSteps(before, plan)[..k]);
    var rollback := RollbackSteps(before, failed, plan);
    assert rollback[..j] == rollback;
    FailedDirectories(before, plan, k);
    RollbackRestores(before, plan, k);
  }

  /** Setup stopped after `k` steps and rollback after `j`; if that was all of rollback, everything is as it was unless
      a restored file had mode 0. */
  ghost predicate Reverted(before: Fs, after: Fs, plan: Plan, k: nat, j: nat, complete: bool) {
    && StoppedAt(before, after, plan, k, j)
    && (complete ==> Undone(before, plan, k, j) && (SameState(after, before) <==> ModesKept(before, plan)))
  }

  lemma AfterRollback(before: Fs, failed: Fs, after: Fs, plan: Plan, k: nat, j: nat, complete: bool)
    requires Ready(before, plan) && k <= |SetupSteps(before, plan)|
    requires failed == ApplyAll(before, SetupSteps(before, plan)[..k])
    requires j <= |RollbackSteps(before, failed, plan)|
    requires after == ApplyAll(failed, RollbackSteps(before, failed, plan)[..j])
    requires complete ==> j == |RollbackSteps(before, failed, plan)| && RollbackCompletes(failed, plan)
    ensures Reverted(before, after, plan, k, j, complete)
    ensures CurrentOk(before, plan.root) ==> CurrentOk(after, plan.root)
  {
    StoppedIsOk(before, after, plan, k, j);
    if complete {
      UndoneIsRestored(before, after, plan, k, j);
    }
  }

  /** The name begins with a dot. */
  predicate IsHidden(name: Text) {
    name != [] && name[0] == 46
  }

  // Other generations are as before, emptied or gone, and those untouched that are hidden or whose marker does not name
  // another generation.
  ghost predicate OthersCleaned(before: map<Text, Tree>, after: map<Text, Tree>, id: Text) {
    && after.Keys <= before.Keys
    && forall g :: g in before ==>
         if g == id || IsHidden(g) || before[g].marker == None || before[g].marker == Some([])
            || before[g].marker == Some(id) then
           g in after && after[g] == before[g]
         else g in after ==> after[g] == before[g] || after[g] == BARE
  }

  /** A generation directory the cleanup looks into: another one, and not hidden. */
  predicate Listed(name: Text, id: Text) {
    name != id && !(name != [] && name[0] == 46)
  }

  /** One it tries to delete: its marker names another generation. */
  predicate Superseded(name: Text, tree: Tree, id: Text) {
    && Listed(name, id)
    && tree.marker.Some? && tree.marker.value != [] && tree.marker.value != id
  }

  // No superseded generation is there but those of `left`.
  ghost predicate AllCleaned(before: map<Text, Tree>, after: map<Text, Tree>, left: set<Text>, id: Text) {
    forall g :: g in before && g !in left && g != id && !IsHidden(g)
                && before[g].marker.Some? && before[g].marker.value != [] && before[g].marker.value != id ==>
      g !in after
  }

  /** The new installation stands, superseded generations cleaned up as far as that went. */
  ghost predicate Finished(before: Fs, after: Fs, plan: Plan) {
    var committed := ApplyAll(before, SetupSteps(before, plan));
    && after.slots == committed.slots && after.stage.None?
    && Get(after, Current) == NewCurrent(plan)
    && OthersCleaned(committed.generations, after.generations, plan.id)
    && plan.id in after.generations && Complete(after.generations[plan.id])
  }

  lemma FinishedIsOk(before: Fs, after: Fs, plan: Plan)
    requires Finished(before, after, plan)
    ensures CurrentOk(after, plan.root)
  {}

  // Where in the list of setup steps each part of it stands; `base` is where the integration files begin.
  ghost predicate Ordered(start: Fs, steps: seq<Step>, base: nat, plan: Plan) {
    && base == 5 + |BackupSteps(start, plan)|
    && |steps| == base + |plan.mutations| + |plan.links| + 2
    && Part(steps, 0, StageSteps(plan)) && Part(steps, 5, BackupSteps(start, plan))
    && Part(steps, base, MutationSteps(plan.mutations)) && Part(steps, base + |plan.mutations|, LinkSteps(plan))
    && steps[|steps| - 2] == Put(Current, NewCurrent(plan))
    && steps[|steps| - 1] == Put(Manifest, File(PRIVATE_MODE, plan.manifest))
    && Get(ApplyAll(start, steps[..5]), BashrcBackup) == Get(start, BashrcBackup)
  }

  lemma SetupIsOrdered(fs: Fs, plan: Plan)
    ensures Ordered(fs, SetupSteps(fs, plan), 5 + |BackupSteps(fs, plan)|, plan)
  {
    SetupParts(fs, plan);
    BackupUntouched(fs, plan);
  }

  class Installer {
    var slots: map<Slot, Image>
    var stage: Option<Tree>
    var generations: map<Text, Tree>
    var tick: nat
    const faults: nat -> Fault

    constructor (fs: Fs, faults: nat -> Fault)
      ensures Files() == fs && tick == 0 && this.faults == faults
    {
      slots, stage, generations := fs.slots, fs.stage, fs.generations;
      tick := 0;
      this.faults := faults;
    }

    function Files(): Fs
      reads this
    {
      Fs(slots, stage, generations)
    }

    /** Success means that none of these calls failed, failure that the last of them did. */
    ghost predicate Went(ok: bool, from: nat, to: nat) {
      from <= to
      && if ok then forall i | from <= i < to :: faults(i).Fine? else from < to && !faults(to - 1).Fine?
    }

    ghost predicate LastFailed()
      reads this
    {
      tick > 0 && !faults(tick - 1).Fine?
    }

    // Some call among these failed.
    ghost predicate Faulted(from: nat, to: nat) {
      exists i :: from <= i < to && !faults(i).Fine?
    }

    lemma FaultStays(from: nat, at: nat, to: nat)
      requires from <= at < to && !faults(at).Fine?
      ensures Faulted(from, to)
    {}

    /** One file-system call. */
    method Perform(step: Step) returns (ok: bool)
      modifies this
      ensures ok == faults(old(tick)).Fine? && tick == old(tick) + 1
      ensures Files() == if faults(old(tick)).FailsBefore? then old(Files()) else Apply(old(Files()), step)
    {
      var fault := faults(tick);
      tick := tick + 1;
      if fault.FailsBefore? {
        return false;
      }
      match step {
        case MakeStage => stage := Some(BARE);
        case AddVenv => stage := Some(Staged(Files()).(venv := true));
        case AddWheel => stage := Some(Staged(Files()).(wheel := true));
        case AddMarker(id) => stage := Some(Staged(Files()).(marker := Some(id)));
        case Promote(id) => generations, stage := generations[id := Staged(Files())], None;
        case Put(slot, image) => slots := slots[slot := image];
        case EmptyStage => stage := Some(BARE);
        case RemoveStage => stage := None;
        case EmptyGeneration(id) => generations := generations[id := BARE];
        case RemoveGeneration(id) => generations := generations - {id};
      }
      ok := fault.Fine?;
    }

    // The next call of a list of which `k` have taken effect.
    method Advance(ghost start: Fs, ghost steps: seq<Step>, ghost k: nat, step: Step)
      returns (ok: bool, ghost done: nat)
      requires k < |steps| && steps[k] == step && Files() == ApplyAll(start, steps[..k])
      modifies this
      ensures k <= done <= k + 1 && Files() == ApplyAll(start, steps[..done]) && (ok ==> done == k + 1)
      ensures tick == old(tick) + 1 && ok == faults(old(tick)).Fine?
    {
      assert steps[..k + 1][..k] == steps[..k];
      ok := Perform(step);
      done := if faults(old(tick)).FailsBefore? then k else k + 1;
    }

    // Steps 1 to 5: the staged generation and its rename.
    method BuildGeneration(ghost start: Fs, ghost steps: seq<Step>, plan: Plan) returns (ok: bool, ghost done: nat)
      requires Files() == start && Part(steps, 0, StageSteps(plan))
      modifies this
      ensures done <= 5 && Files() == ApplyAll(start, steps[..done]) && (ok ==> done == 5)
      ensures Went(ok, old(tick), tick)
    {
      ghost var stages := StageSteps(plan);
      assert steps[0] == stages[0] && steps[1] == stages[1] && steps[2] == stages[2];
      assert steps[3] == stages[3] && steps[4] == stages[4];
      ok, done := Advance(start, steps, 0, MakeStage);
      if !ok { return; }
      ok, done := Advance(start, steps, 1, AddVenv);
      if !ok { return; }
      ok, done := Advance(start, steps, 2, AddWheel);
      if !ok { return; }
      ok, done := Advance(start, steps, 3, AddMarker(plan.id));
      if !ok { return; }
      ok, done := Advance(start, steps, 4, Promote(plan.id));
    }

    // The one-time backup of .bashrc.
    method BackUp(ghost start: Fs, ghost steps: seq<Step>, ghost k: nat, plan: Plan) returns (ok: bool, ghost done: nat)
      requires Get(Files(), BashrcBackup) == Get(start, BashrcBackup)
      requires Part(steps, k, BackupSteps(start, plan)) && Files() == ApplyAll(start, steps[..k])
      modifies this
      ensures k <= done <= k + |BackupSteps(start, plan)| && Files() == ApplyAll(start, steps[..done])
      ensures ok ==> done == k + |BackupSteps(start, plan)|
      ensures Went(ok, old(tick), tick)
    {
      ok, done := true, k;
      if plan.backup.Some? && Get(Files(), BashrcBackup).Absent? {
        assert steps[k] == BackupSteps(start, plan)[0];
        ok, done := Advance(start, steps, k, Put(BashrcBackup, File(PRIVATE_MODE, plan.backup.value)));
      }
    }

    // Steps 6 to 8: the integration files.
    method ApplyMutations(ghost start: Fs, ghost steps: seq<Step>, ghost k: nat, plan: Plan)
      returns (ok: bool, ghost done: nat)
      requires Part(steps, k, MutationSteps(plan.mutations)) && Files() == ApplyAll(start, steps[..k])
      modifies this
      ensures k <= done <= k + |plan.mutations| && Files() == ApplyAll(start, steps[..done])
      ensures ok ==> done == k + |plan.mutations|
      ensures Went(ok, old(tick), tick)
    {
      ok, done := true, k;
      for i := 0 to |plan.mutations|
        invariant ok && Went(true, old(tick), tick) && done == k + i && Files() == ApplyAll(start, steps[..done])
      {
        assert steps[k + i] == MutationSteps(plan.mutations)[i];
        ok, done := Advance(start, steps, done, Put(plan.mutations[i].slot, Written(plan.mutations[i].after)));
        if !ok { return; }
      }
    }

    // Step 9: the command links.
    method LinkCommands(ghost start: Fs, ghost steps: seq<Step>, ghost k: nat, plan: Plan)
      returns (ok: bool, ghost done: nat)
      requires Part(steps, k, LinkSteps(plan)) && Files() == ApplyAll(start, steps[..k])
      modifies this
      ensures k <= done <= k + |plan.links| && Files() == ApplyAll(start, steps[..done])
      ensures ok ==> done == k + |plan.links|
      ensures Went(ok, old(tick), tick)
    {
      ok, done := true, k;
      for i := 0 to |plan.links|
        invariant ok && Went(true, old(tick), tick) && done == k + i && Files() == ApplyAll(start, steps[..done])
      {
        assert steps[k + i] == LinkSteps(plan)[i];
        ok, done := Advance(start, steps, done, Put(CommandLink(i), Symlink(plan.links[i])));
        if !ok { return; }
      }
    }

    // Steps 10 and 11: the switch to the new generation and the manifest, the commit point.
    method Commit(ghost start: Fs, ghost steps: seq<Step>, ghost k: nat, plan: Plan) returns (ok: bool, ghost done: nat)
      requires k + 2 == |steps| && steps[k] == Put(Current, NewCurrent(plan))
      requires steps[k + 1] == Put(Manifest, File(PRIVATE_MODE, plan.manifest)) && Files() == ApplyAll(start, steps[..k])
      modifies this
      ensures k <= done <= |steps| && Files() == ApplyAll(start, steps[..done]) && (ok ==> done == |steps|)
      ensures Went(ok, old(tick), tick)
    {
      ok, done := Advance(start, steps, k, Put(Current, NewCurrent(plan)));
      if !ok { return; }
      ok, done := Advance(start, steps, k + 1, Put(Manifest, File(PRIVATE_MODE, plan.manifest)));
    }

    // Steps 9 to 11.
    method Activate(ghost start: Fs, ghost steps: seq<Step>, ghost k: nat, plan: Plan)
      returns (ok: bool, ghost done: nat)
      requires Part(steps, k, LinkSteps(plan)) && Files() == ApplyAll(start, steps[..k])
      requires k + |plan.links| + 2 == |steps| && steps[k + |plan.links|] == Put(Current, NewCurrent(plan))
      requires steps[k + |plan.links| + 1] == Put(Manifest, File(PRIVATE_MODE, plan.manifest))
      modifies this
      ensures k <= done <= |steps| && Files() == ApplyAll(start, steps[..done]) && (ok ==> done == |steps|)
      ensures Went(ok, old(tick), tick)
    {
      ok, done := LinkCommands(start, steps, k, plan);
      if !ok { return; }
      ok, done := Commit(start, steps, done, plan);
    }

    // Steps 6 to 8, with the backup.
    method Integrate(ghost start: Fs, ghost steps: seq<Step>, ghost k: nat, plan: Plan)
      returns (ok: bool, ghost done: nat)
      requires Part(steps, k, BackupSteps(start, plan)) && Files() == ApplyAll(start, steps[..k])
      requires Get(Files(), BashrcBackup) == Get(start, BashrcBackup)
      requires Part(steps, k + |BackupSteps(start, plan)|, MutationSteps(plan.mutations))
      modifies this
      ensures k <= done <= k + |BackupSteps(start, plan)| + |plan.mutations|
      ensures Files() == ApplyAll(start, steps[..done])
      ensures ok ==> done == k + |BackupSteps(start, plan)| + |plan.mutations|
      ensures Went(ok, old(tick), tick)
    {
      ok, done := BackUp(start, steps, k, plan);
      if !ok { return; }
      ok, done := ApplyMutations(start, steps, done, plan);
    }

    // All of them, in their order within `steps`.
    method TakeSteps(ghost start: Fs, ghost steps: seq<Step>, ghost base: nat, plan: Plan)
      returns (ok: bool, ghost done: nat)
      requires Files() == start && Ordered(start, steps, base, plan)
      modifies this
      ensures done <= |steps| && Files() == ApplyAll(start, steps[..done]) && (ok ==> done == |steps|)
      ensures Went(ok, old(tick), tick)
    {
      ok, done := BuildGeneration(start, steps, plan);
      if !ok { return; }
      ok, done := Integrate(start, steps, 5, plan);
      if !ok { return; }
      ok, done := Activate(start, steps, done, plan);
    }

    /** The steps up to the commit; `done` of them have taken effect when it returns. */
    method Install(plan: Plan) returns (ok: bool, ghost done: nat)
      modifies this
      ensures done <= |SetupSteps(old(Files()), plan)|
      ensures Files() == ApplyAll(old(Files()), SetupSteps(old(Files()), plan)[..done])
      ensures ok ==> done == |SetupSteps(old(Files()), plan)|
      ensures Went(ok, old(tick), tick)
    {
      ghost var start := Files();
      SetupIsOrdered(start, plan);
      ok, done := TakeSteps(start, SetupSteps(start, plan), 5 + |BackupSteps(start, plan)|, plan);
    }

    method RestoreLinked(ghost failed: Fs, ghost steps: seq<Step>, ghost k: nat, before: Fs, count: nat)
      returns (ok: bool, ghost done: nat)
      requires Part(steps, k, RestoreLinks(before, count)) && Files() == ApplyAll(failed, steps[..k])
      modifies this
      ensures k <= done <= k + count && Files() == ApplyAll(failed, steps[..done]) && (ok ==> done == k + count)
      ensures Went(ok, old(tick), tick)
    {
      ok, done := true, k;
      for i := 0 to count
        invariant ok && Went(true, old(tick), tick) && done == k + i && Files() == ApplyAll(failed, steps[..done])
      {
        var slot := CommandLink(count - 1 - i);
        assert steps[k + i] == RestoreLinks(before, count)[i];
        ok, done := Advance(failed, steps, done, Put(slot, Written(Get(before, slot))));
        if !ok { return; }
      }
    }

    method RestoreMutated(
      ghost failed: Fs, ghost steps: seq<Step>, ghost k: nat, before: Fs, mutations: seq<Mutation>)
      returns (ok: bool, ghost done: nat)
      requires Part(steps, k, RestoreMutations(before, mutations)) && Files() == ApplyAll(failed, steps[..k])
      modifies this
      ensures k <= done <= k + |mutations| && Files() == ApplyAll(failed, steps[..done])
      ensures ok ==> done == k + |mutations|
      ensures Went(ok, old(tick), tick)
    {
      ok, done := true, k;
      for i := 0 to |mutations|
        invariant ok && Went(true, old(tick), tick) && done == k + i && Files() == ApplyAll(failed, steps[..done])
      {
        var slot := mutations[|mutations| - 1 - i].slot;
        assert steps[k + i] == RestoreMutations(before, mutations)[i];
        ok, done := Advance(failed, steps, done, Put(slot, Written(Get(before, slot))));
        if !ok { return; }
      }
    }

    method RestoreFiles(ghost failed: Fs, ghost steps: seq<Step>, before: Fs, plan: Plan)
      returns (ok: bool, ghost done: nat)
      requires Files() == failed && Part(steps, 0, RestoreSteps(before, plan))
      modifies this
      ensures done <= |RestoreSteps(before, plan)| && Files() == ApplyAll(failed, steps[..done])
      ensures ok ==> done == |RestoreSteps(before, plan)|
      ensures Went(ok, old(tick), tick)
    {
      RestoreParts(steps, before, plan);
      ok, done := Advance(failed, steps, 0, Put(Manifest, Written(Get(before, Manifest))));
      if !ok { return; }
      ok, done := Advance(failed, steps, 1, Put(Current, Written(Get(before, Current))));
      if !ok { return; }
      ok, done := RestoreLinked(failed, steps, done, before, |plan.links|);
      if !ok { return; }
      ok, done := RestoreMutated(failed, steps, done, before, plan.mutations);
    }

    // Two deletes in a row.
    method DeletePair(ghost failed: Fs, ghost steps: seq<Step>, ghost k: nat, first: Step, second: Step)
      returns (ok: bool, ghost done: nat)
      requires k + 2 == |steps| && steps[k] == first && steps[k + 1] == second && Files() == ApplyAll(failed, steps[..k])
      modifies this
      ensures k <= done <= k + 2 && Files() == ApplyAll(failed, steps[..done]) && (ok ==> done == k + 2)
      ensures Went(ok, old(tick), tick)
    {
      ok, done := Advance(failed, steps, k, first);
      if !ok { return; }
      ok, done := Advance(failed, steps, k + 1, second);
    }

    // The new generation, refused if its marker does not verify, or else the stage.
    method DeleteNew(ghost failed: Fs, ghost steps: seq<Step>, ghost k: nat, plan: Plan)
      returns (ok: bool, ghost done: nat)
      requires k + |DeleteSteps(failed, plan)| == |steps| && steps[k..] == DeleteSteps(failed, plan)
      requires Files() == ApplyAll(failed, steps[..k])
      requires generations == failed.generations && stage == failed.stage
      modifies this
      ensures k <= done <= |steps| && Files() == ApplyAll(failed, steps[..done])
      ensures ok ==> done == |steps| && RollbackCompletes(failed, plan)
      ensures if !ok && !RollbackCompletes(failed, plan) then old(tick) <= tick else Went(ok, old(tick), tick)
    {
      ok, done := true, k;
      ghost var deletes := steps[k..];
      assert |deletes| == 2 ==> steps[k] == deletes[0] && steps[k + 1] == deletes[1];
      if plan.id in generations {
        ok := MarkerVerifies(plan);
        if !ok { return; }
        ok, done := DeletePair(failed, steps, k, EmptyGeneration(plan.id), RemoveGeneration(plan.id));
      } else if stage.Some? {
        ok, done := DeletePair(failed, steps, k, EmptyStage, RemoveStage);
      }
    }

    /** Undoes a failed setup from the images captured before it; complete unless a call fails or the new generation's
        marker does not verify. */
    method Rollback(before: Fs, plan: Plan) returns (ok: bool, ghost done: nat)
      modifies this
      ensures done <= |RollbackSteps(before, old(Files()), plan)|
      ensures Files() == ApplyAll(old(Files()), RollbackSteps(before, old(Files()), plan)[..done])
      ensures ok ==> done == |RollbackSteps(before, old(Files()), plan)| && RollbackCompletes(old(Files()), plan)
      ensures if !ok && !RollbackCompletes(old(Files()), plan) then old(tick) <= tick else Went(ok, old(tick), tick)
    {
      ghost var failed := Files();
      ghost var restores := RestoreSteps(before, plan);
      ghost var steps := RollbackSteps(before, failed, plan);
      ok, done := RestoreFiles(failed, steps, before, plan);
      if !ok { return; }
      assert steps[..done] == restores;
      RestoreStepsArePuts(before, plan);
      PutsKeepDirectories(failed, restores);
      ok, done := DeleteNew(failed, steps, done, plan);
    }

    method DeleteEntry(entry: Text)
      modifies this
      ensures slots == old(slots) && stage == old(stage)
      ensures generations == old(generations) || generations == old(generations)[entry := BARE]
              || generations == old(generations) - {entry}
      ensures old(tick) <= tick
      ensures Went(true, old(tick), tick) ==> generations == old(generations) - {entry}
    {
      var ok := Perform(EmptyGeneration(entry));
      if ok {
        ok := Perform(RemoveGeneration(entry));
      }
    }

    /** Looks whether a file is there. */
    method LookUp() returns (ok: bool)
      modifies this`tick
      ensures ok == faults(old(tick)).Fine? && tick == old(tick) + 1
    {
      ok := faults(tick).Fine?;
      tick := tick + 1;
    }

    /** Deletes superseded generations. A failure to delete one of them, a refused marker included, skips it; a failure
        to look up a marker ends the cleanup, whatever was deleted before. */
    method CleanUp(id: Text) returns (ok: bool)
      modifies this
      ensures slots == old(slots) && stage == old(stage) && OthersCleaned(old(generations), generations, id)
      ensures old(tick) <= tick && (!ok ==> LastFailed())
      ensures Went(true, old(tick), tick) ==> ok && AllCleaned(old(generations), generations, {}, id)
    {
      ghost var before := generations;
      var left := generations.Keys;
      while left != {}
        invariant slots == old(slots) && stage == old(stage) && left <= before.Keys
        invariant OthersCleaned(before, generations, id)
        invariant forall g :: g in left ==> g in generations && generations[g] == before[g]
        invariant old(tick) <= tick
        invariant Went(true, old(tick), tick) ==> AllCleaned(before, generations, left, id)
        decreases |left|
      {
        var entry :| entry in left;
        left := left - {entry};
        if Listed(entry, id) {
          ok := LookUp();
          if !ok {
            return;
          }
          if Superseded(entry, generations[entry], id) {
            DeleteEntry(entry);
          }
        }
      }
      ok := true;
    }

    // What follows a failure after `k` steps.
    method Undo(before: Fs, plan: Plan, ghost k: nat) returns (exit: Exit, ghost j: nat)
      requires Ready(before, plan) && k <= |SetupSteps(before, plan)|
      requires Files() == ApplyAll(before, SetupSteps(before, plan)[..k])
      modifies this
      ensures exit.RolledBack? || exit.RollbackIncomplete?
      ensures Reverted(before, Files(), plan, k, j, exit.RolledBack?)
      ensures exit.RollbackIncomplete? ==> LastFailed() || !RollbackCompletes(old(Files()), plan)
      ensures old(tick) <= tick
      ensures CurrentOk(before, plan.root) ==> CurrentOk(Files(), plan.root)
    {
      ghost var failed := Files();
      var ok;
      ok, j := Rollback(before, plan);
      exit := if ok then RolledBack else RollbackIncomplete;
      AfterRollback(before, failed, Files(), plan, k, j, ok);
    }

    // What follows the commit.
    method Finish(before: Fs, plan: Plan) returns (exit: Exit)
      requires Ready(before, plan) && Files() == ApplyAll(before, SetupSteps(before, plan))
      modifies this
      ensures exit.Installed? || exit.CleanupWarning?
      ensures Finished(before, Files(), plan) && CurrentOk(Files(), plan.root)
      ensures exit.CleanupWarning? ==> LastFailed()
    {
      Committed(before, plan);
      var ok := LookUp();
      if ok {
        ok := CleanUp(plan.id);
      }
      exit := if ok then Installed else CleanupWarning;
      FinishedIsOk(before, Files(), plan);
    }

    /** The whole transaction. Rolled back means every file as before (the backup of .bashrc aside) unless one of them
        had mode 0; past the commit the new installation stands; it is undone only if a call failed; and however it
        ends, `current` is whole. */
    method Setup(plan: Plan) returns (exit: Exit, ghost k: nat, ghost j: nat)
      requires Ready(Files(), plan)
      modifies this
      ensures exit.RolledBack? || exit.RollbackIncomplete? ==>
                Reverted(old(Files()), Files(), plan, k, j, exit.RolledBack?)
      ensures exit.RolledBack? || exit.RollbackIncomplete? ==> Faulted(old(tick), tick)
      ensures exit.RollbackIncomplete? ==>
                k <= |SetupSteps(old(Files()), plan)|
                && (LastFailed() || !RollbackCompletes(ApplyAll(old(Files()), SetupSteps(old(Files()), plan)[..k]), plan))
      ensures exit.Installed? || exit.CleanupWarning? ==> Finished(old(Files()), Files(), plan)
      ensures exit.CleanupWarning? ==> LastFailed()
      ensures CurrentOk(old(Files()), plan.root) ==> CurrentOk(Files(), plan.root)
    {
      var before := Files();
      var ok;
      ok, k := Install(plan);
      j := 0;
      if !ok {
        ghost var at := tick - 1;
        exit, j := Undo(before, plan, k);
        FaultStays(old(tick), at, tick);
        return;
      }
      AllSteps(before, plan);
      exit := Finish(before, plan);
    }
  }
}
