/**
 The install transaction of lifecycle.py. Setup is a list of atomic file-system steps; a failure stops it after any
 of them, and rollback is another such list, which may itself be cut short.
 */
module SetupTransaction {
  import opened Wrappers
  import opened MarkerEncoding

  // The paths setup writes to, other than the generations directory.
  datatype Slot = Current | CommandLink(index: nat) | Manifest | Bashrc | Autostart | Chooser | BashrcBackup

  datatype Image = Absent | File(mode: nat, content: seq<bv8>) | Symlink(target: Text)

  // A generation directory, as far as it has been built.
  datatype Tree = Tree(venv: bool, wheel: bool, marker: Option<Text>)

  datatype Fs = Fs(slots: map<Slot, Image>, stage: Option<Tree>, generations: map<Text, Tree>)

  datatype Mutation = Mutation(slot: Slot, after: Image)

  datatype Plan = Plan(
    root: Text, // of the generations directory
    id: Text,
    installId: Text,
    links: seq<Text>, // targets of the command links
    mutations: seq<Mutation>, // bashrc, autostart, chooser
    backup: Option<seq<bv8>>,
    manifest: seq<bv8>)

  datatype Step =
    | MakeStage
    | AddVenv
    | AddWheel
    | AddMarker(id: Text)
    | Promote(id: Text)
    | Put(slot: Slot, image: Image)
    | EmptyStage
    | RemoveStage
    | EmptyGeneration(id: Text)
    | RemoveGeneration(id: Text)

  const PRIVATE_MODE: nat := 384 // 0o600

  const BARE := Tree(false, false, None)

  function Get(fs: Fs, slot: Slot): Image {
    if slot in fs.slots then fs.slots[slot] else Absent
  }

  function Staged(fs: Fs): Tree {
    if fs.stage.Some? then fs.stage.value else BARE
  }

  function Apply(fs: Fs, step: Step): Fs {
    match step
    case MakeStage => fs.(stage := Some(BARE))
    case AddVenv => fs.(stage := Some(Staged(fs).(venv := true)))
    case AddWheel => fs.(stage := Some(Staged(fs).(wheel := true)))
    case AddMarker(id) => fs.(stage := Some(Staged(fs).(marker := Some(id))))
    case Promote(id) => fs.(generations := fs.generations[id := Staged(fs)], stage := None)
    case Put(slot, image) => fs.(slots := fs.slots[slot := image])
    case EmptyStage => fs.(stage := Some(BARE))
    case RemoveStage => fs.(stage := None)
    case EmptyGeneration(id) => fs.(generations := fs.generations[id := BARE])
    case RemoveGeneration(id) => fs.(generations := fs.generations - {id})
  }

  function ApplyAll(fs: Fs, steps: seq<Step>): Fs {
    if steps == [] then fs else Apply(ApplyAll(fs, steps[..|steps| - 1]), steps[|steps| - 1])
  }

  // ----- what setup does -----

  function GenerationPath(root: Text, id: Text): Text {
    root + [47] + id
  }

  /** Writing an image: a mode of 0 counts as missing and becomes 0o600. */
  function Written(image: Image): Image {
    if image.File? && image.mode == 0 then image.(mode := PRIVATE_MODE) else image
  }

  function StageSteps(plan: Plan): seq<Step> {
    [MakeStage, AddVenv, AddWheel, AddMarker(plan.id), Promote(plan.id)]
  }

  function BackupSteps(fs: Fs, plan: Plan): seq<Step> {
    if plan.backup.Some? && Get(fs, BashrcBackup).Absent? then
      [Put(BashrcBackup, File(PRIVATE_MODE, plan.backup.value))]
    else []
  }

  function MutationSteps(mutations: seq<Mutation>): (steps: seq<Step>)
    ensures |steps| == |mutations|
    ensures forall i :: 0 <= i < |steps| ==> steps[i] == Put(mutations[i].slot, Written(mutations[i].after))
  {
    seq(|mutations|, i requires 0 <= i < |mutations| => Put(mutations[i].slot, Written(mutations[i].after)))
  }

  function LinkSteps(plan: Plan): (steps: seq<Step>)
    ensures |steps| == |plan.links|
    ensures forall i :: 0 <= i < |steps| ==> steps[i] == Put(CommandLink(i), Symlink(plan.links[i]))
  {
    seq(|plan.links|, i requires 0 <= i < |plan.links| => Put(CommandLink(i), Symlink(plan.links[i])))
  }

  function NewCurrent(plan: Plan): Image {
    Symlink(GenerationPath(plan.root, plan.id))
  }

  function PutSteps(fs: Fs, plan: Plan): seq<Step> {
    BackupSteps(fs, plan) + MutationSteps(plan.mutations) + LinkSteps(plan)
    + [Put(Current, NewCurrent(plan)), Put(Manifest, File(PRIVATE_MODE, plan.manifest))]
  }

  function SetupSteps(fs: Fs, plan: Plan): seq<Step> {
    StageSteps(plan) + PutSteps(fs, plan)
  }

  // ----- what rollback does -----

  function RestoreStep(before: Fs, slot: Slot): Step {
    Put(slot, Written(Get(before, slot)))
  }

  function RestoreLinks(before: Fs, count: nat): (steps: seq<Step>)
    ensures |steps| == count
    ensures forall i :: 0 <= i < |steps| ==> steps[i] == RestoreStep(before, CommandLink(count - 1 - i))
  {
    seq(count, i requires 0 <= i < count => RestoreStep(before, CommandLink(count - 1 - i)))
  }

  function RestoreMutations(before: Fs, mutations: seq<Mutation>): (steps: seq<Step>)
    ensures |steps| == |mutations|
    ensures forall i :: 0 <= i < |steps| ==>
              steps[i] == RestoreStep(before, mutations[|mutations| - 1 - i].slot)
  {
    seq(|mutations|,
        i requires 0 <= i < |mutations| => RestoreStep(before, mutations[|mutations| - 1 - i].slot))
  }

  function RestoreSteps(before: Fs, plan: Plan): seq<Step> {
    [RestoreStep(before, Manifest), RestoreStep(before, Current)]
    + RestoreLinks(before, |plan.links|) + RestoreMutations(before, plan.mutations)
  }

  /** The marker holds the generation's path and the install id; the rest of it is plain hexadecimal. */
  predicate MarkerVerifies(plan: Plan) {
    Canonical(GenerationPath(plan.root, plan.id)) && Canonical(plan.installId)
  }

  /** The directories rollback deletes; a generation whose marker does not verify is refused and stays. */
  function DeleteSteps(failed: Fs, plan: Plan): seq<Step> {
    if plan.id in failed.generations then
      if MarkerVerifies(plan) then [EmptyGeneration(plan.id), RemoveGeneration(plan.id)] else []
    else if failed.stage.Some? then [EmptyStage, RemoveStage]
    else []
  }

  predicate RollbackCompletes(failed: Fs, plan: Plan) {
    plan.id in failed.generations ==> MarkerVerifies(plan)
  }

  function RollbackSteps(before: Fs, failed: Fs, plan: Plan): seq<Step> {
    RestoreSteps(before, plan) + DeleteSteps(failed, plan)
  }

  // ----- preconditions and claims -----

  /** The id is new, nothing is staged, and only the three integration files are mutated. */
  predicate Ready(fs: Fs, plan: Plan) {
    && plan.id !in fs.generations && fs.stage.None?
    && forall m :: m in plan.mutations ==> m.slot.Bashrc? || m.slot.Autostart? || m.slot.Chooser?
  }

  // The slots rollback restores.
  predicate Restored(plan: Plan, slot: Slot) {
    || slot.Current? || slot.Manifest?
    || (slot.CommandLink? && slot.index < |plan.links|)
    || exists m :: m in plan.mutations && m.slot == slot
  }

  /** Everything but the one-time backup of .bashrc. */
  ghost predicate SameState(a: Fs, b: Fs) {
    && (forall slot :: slot != BashrcBackup ==> Get(a, slot) == Get(b, slot))
    && a.stage == b.stage && a.generations == b.generations
  }

  /** No file that rollback restores was captured with mode 0. */
  ghost predicate ModesKept(fs: Fs, plan: Plan) {
    forall slot :: Restored(plan, slot) && Get(fs, slot).File? ==> Get(fs, slot).mode != 0
  }

  predicate Complete(tree: Tree) {
    tree.venv && tree.wheel && tree.marker.Some?
  }

  /** `current` is absent or names a complete generation. */
  ghost predicate CurrentOk(fs: Fs, root: Text) {
    || Get(fs, Current).Absent?
    || exists id :: id in fs.generations && Complete(fs.generations[id])
                    && Get(fs, Current) == Symlink(GenerationPath(root, id))
  }

  // ----- steps on slots -----

  lemma {:induction false} ApplyAllAppend(fs: Fs, a: seq<Step>, b: seq<Step>)
    ensures ApplyAll(fs, a + b) == ApplyAll(ApplyAll(fs, a), b)
  {
    if b == [] {
      assert a + b == a;
    } else {
      assert (a + b)[..|a + b| - 1] == a + b[..|b| - 1];
      ApplyAllAppend(fs, a, b[..|b| - 1]);
    }
  }

  predicate Puts(step: Step, slot: Slot) {
    step.Put? && step.slot == slot
  }

  // If every step that writes the slot writes `image`, that is what it holds after one has.
  lemma {:induction false} SlotAfter(fs: Fs, steps: seq<Step>, slot: Slot, image: Image)
    requires forall s :: s in steps && Puts(s, slot) ==> s.image == image
    ensures Get(ApplyAll(fs, steps), slot)
         == if exists s :: s in steps && Puts(s, slot) then image else Get(fs, slot)
  {
    if steps != [] {
      var front, last := steps[..|steps| - 1], steps[|steps| - 1];
      assert steps == front + [last];
      SlotAfter(fs, front, slot, image);
      if Puts(last, slot) {
        assert last in steps;
      }
      assert (exists s :: s in steps && Puts(s, slot)) <==> Puts(last, slot) || exists s :: s in front && Puts(s, slot);
    }
  }

  lemma {:induction false} SlotUntouched(fs: Fs, steps: seq<Step>, slot: Slot)
    requires forall s :: s in steps ==> !Puts(s, slot)
    ensures Get(ApplyAll(fs, steps), slot) == Get(fs, slot)
  {
    SlotAfter(fs, steps, slot, Absent);
  }

  lemma {:induction false} PutsKeepDirectories(fs: Fs, steps: seq<Step>)
    requires forall s :: s in steps ==> s.Put?
    ensures ApplyAll(fs, steps).stage == fs.stage && ApplyAll(fs, steps).generations == fs.generations
  {
    if steps != [] {
      assert steps[|steps| - 1] in steps;
      PutsKeepDirectories(fs, steps[..|steps| - 1]);
    }
  }

  lemma PutStepsArePuts(fs: Fs, plan: Plan)
    ensures forall s :: s in PutSteps(fs, plan) ==>
              s.Put? && (s.slot == BashrcBackup || Restored(plan, s.slot))
              && (s.slot == Current ==> s.image == NewCurrent(plan) || !Ready(fs, plan))
  {
    forall s | s in MutationSteps(plan.mutations)
      ensures s.Put? && exists m :: m in plan.mutations && m.slot == s.slot
    {
      var i :| 0 <= i < |plan.mutations| && MutationSteps(plan.mutations)[i] == s;
      assert plan.mutations[i] in plan.mutations;
    }
  }

  lemma RestoreStepsArePuts(before: Fs, plan: Plan)
    ensures forall s :: s in RestoreSteps(before, plan) ==>
              s.Put? && Restored(plan, s.slot) && s.image == Written(Get(before, s.slot))
    ensures forall slot :: Restored(plan, slot) ==> exists s :: s in RestoreSteps(before, plan) && Puts(s, slot)
  {
    var links, mutations := RestoreLinks(before, |plan.links|), RestoreMutations(before, plan.mutations);
    forall s | s in mutations
      ensures s.Put? && Restored(plan, s.slot) && s.image == Written(Get(before, s.slot))
    {
      var i :| 0 <= i < |mutations| && mutations[i] == s;
      assert plan.mutations[|plan.mutations| - 1 - i] in plan.mutations;
    }
    forall slot | Restored(plan, slot)
      ensures exists s :: s in RestoreSteps(before, plan) && Puts(s, slot)
    {
      var steps := RestoreSteps(before, plan);
      if slot.Manifest? {
        assert Puts(steps[0], slot);
      } else if slot.Current? {
        assert Puts(steps[1], slot);
      } else if slot.CommandLink? && slot.index < |plan.links| {
        assert Puts(links[|plan.links| - 1 - slot.index], slot);
        assert links[|plan.links| - 1 - slot.index] in steps;
      } else {
        var m :| m in plan.mutations && m.slot == slot;
        var i :| 0 <= i < |plan.mutations| && plan.mutations[i] == m;
        assert Puts(mutations[|plan.mutations| - 1 - i], slot);
        assert mutations[|plan.mutations| - 1 - i] in steps;
      }
    }
  }

  // ----- a failed setup -----

  /** The directories after `k` steps of setup. */
  lemma FailedDirectories(fs: Fs, plan: Plan, k: nat)
    requires Ready(fs, plan) && k <= |SetupSteps(fs, plan)|
    ensures var failed := ApplyAll(fs, SetupSteps(fs, plan)[..k]);
            if k < 5 then failed.generations == fs.generations && (k > 0 <==> failed.stage.Some?)
            else failed.generations == fs.generations[plan.id := Tree(true, true, Some(plan.id))] && failed.stage.None?
  {
    var steps, stage, puts := SetupSteps(fs, plan), StageSteps(plan), PutSteps(fs, plan);
    if k >= 5 {
      assert steps[..k] == stage + puts[..k - 5];
      ApplyAllAppend(fs, stage, puts[..k - 5]);
      PutStepsArePuts(fs, plan);
      PutsKeepDirectories(ApplyAll(fs, stage), puts[..k - 5]);
      StageFive(fs, plan);
    } else {
      assert steps[..k] == stage[..k];
      StagePrefix(fs, plan, k);
    }
  }

  lemma StagePrefix(fs: Fs, plan: Plan, k: nat)
    requires k < 5
    ensures var failed := ApplyAll(fs, StageSteps(plan)[..k]);
            failed.generations == fs.generations && failed.slots == fs.slots
            && (k == 0 ==> failed == fs) && (k > 0 ==> failed.stage.Some?)
  {
    var stage := StageSteps(plan);
    if k > 0 {
      assert stage[..k][..k - 1] == stage[..k - 1];
      StagePrefix(fs, plan, k - 1);
    }
  }

  lemma StageFive(fs: Fs, plan: Plan)
    ensures ApplyAll(fs, StageSteps(plan))
         == fs.(stage := None, generations := fs.generations[plan.id := Tree(true, true, Some(plan.id))])
  {
    var s := StageSteps(plan);
    assert s[..4][..3] == s[..3] && s[..3][..2] == s[..2] && s[..2][..1] == s[..1] && s[..1][..0] == s[..0];
    assert ApplyAll(fs, s[..0]) == fs;
    assert ApplyAll(fs, s[..1]) == fs.(stage := Some(BARE));
    assert ApplyAll(fs, s[..2]) == fs.(stage := Some(Tree(true, false, None)));
    assert ApplyAll(fs, s[..3]) == fs.(stage := Some(Tree(true, true, None)));
    assert ApplyAll(fs, s[..4]) == fs.(stage := Some(Tree(true, true, Some(plan.id))));
  }

  lemma FailedSlots(fs: Fs, plan: Plan, k: nat, slot: Slot)
    requires Ready(fs, plan) && k <= |SetupSteps(fs, plan)|
    requires slot != BashrcBackup && !Restored(plan, slot)
    ensures Get(ApplyAll(fs, SetupSteps(fs, plan)[..k]), slot) == Get(fs, slot)
  {
    PutStepsArePuts(fs, plan);
    SlotUntouched(fs, SetupSteps(fs, plan)[..k], slot);
  }

  /** Setup stopped after any of its steps and rolled back without a further failure: every file is as it was before,
      and no stage and no new generation is left, exactly when no restored file had mode 0 and the new generation,
      if it was already in place, has a marker that verifies. */
  lemma RollbackRestores(fs: Fs, plan: Plan, k: nat)
    requires Ready(fs, plan) && k <= |SetupSteps(fs, plan)|
    ensures var failed := ApplyAll(fs, SetupSteps(fs, plan)[..k]);
            SameState(ApplyAll(failed, RollbackSteps(fs, failed, plan)), fs)
            <==> ModesKept(fs, plan) && (k >= 5 ==> MarkerVerifies(plan))
  {
    var failed := ApplyAll(fs, SetupSteps(fs, plan)[..k]);
    var restores, deletes := RestoreSteps(fs, plan), DeleteSteps(failed, plan);
    var restored := ApplyAll(failed, restores);
    var final := ApplyAll(failed, RollbackSteps(fs, failed, plan));
    ApplyAllAppend(failed, restores, deletes);
    RestoreStepsArePuts(fs, plan);
    PutsKeepDirectories(failed, restores);
    FailedDirectories(fs, plan, k);
    forall slot | slot != BashrcBackup
      ensures Get(final, slot) == if Restored(plan, slot) then Written(Get(fs, slot)) else Get(fs, slot)
    {
      SlotUntouched(restored, deletes, slot);
      SlotAfter(failed, restores, slot, Written(Get(fs, slot)));
      if !Restored(plan, slot) {
        FailedSlots(fs, plan, k, slot);
      }
    }
    DeletedDirectories(fs, failed, restored, plan, k);
  }

  // A plan that installs nothing but the generation.
  function BarePlan(root: Text): Plan {
    Plan(root, [97], [97], [], [], None, [])
  }

  /** A root outside ASCII: once the generation is in place, rollback leaves it there. */
  lemma AccentedRootIsNotRolledBack()
    ensures var fs, plan := Fs(map[], None, map[]), BarePlan([47, 233]);
            var failed := ApplyAll(fs, SetupSteps(fs, plan)[..5]);
            && Ready(fs, plan) && |SetupSteps(fs, plan)| >= 5 && CurrentOk(fs, plan.root) && ModesKept(fs, plan)
            && !SameState(ApplyAll(failed, RollbackSteps(fs, failed, plan)), fs)
  {
    var fs, plan := Fs(map[], None, map[]), BarePlan([47, 233]);
    var path := GenerationPath(plan.root, plan.id);
    CanonicalExactly(path);
    assert path[1] == 233;
    RollbackRestores(fs, plan, 5);
  }

  /** A manifest with mode 0: rollback leaves it with mode 0600, even if setup failed before its first step. */
  lemma ModeZeroIsNotRolledBack()
    ensures var fs, plan := Fs(map[Manifest := File(0, [])], None, map[]), BarePlan([47]);
            && Ready(fs, plan) && CurrentOk(fs, plan.root)
            && !SameState(ApplyAll(fs, RollbackSteps(fs, fs, plan)), fs)
  {
    var fs, plan := Fs(map[Manifest := File(0, [])], None, map[]), BarePlan([47]);
    assert SetupSteps(fs, plan)[..0] == [];
    assert Restored(plan, Manifest) && Get(fs, Manifest) == File(0, []);
    RollbackRestores(fs, plan, 0);
  }

  lemma DeletedDirectories(fs: Fs, failed: Fs, restored: Fs, plan: Plan, k: nat)
    requires Ready(fs, plan) && restored.stage == failed.stage && restored.generations == failed.generations
    requires if k < 5 then failed.generations == fs.generations && (k > 0 <==> failed.stage.Some?)
             else failed.generations == fs.generations[plan.id := Tree(true, true, Some(plan.id))] && failed.stage.None?
    ensures var final := ApplyAll(restored, DeleteSteps(failed, plan));
            (final.stage == fs.stage && final.generations == fs.generations) <==> (k >= 5 ==> MarkerVerifies(plan))
  {
    var deletes := DeleteSteps(failed, plan);
    if deletes != [] {
      var middle := Apply(restored, deletes[0]);
      assert ApplyAll(restored, deletes[..1][..0]) == restored;
      assert ApplyAll(restored, deletes[..1]) == middle;
      assert ApplyAll(restored, deletes) == Apply(middle, deletes[1]);
      if k >= 5 {
        assert (fs.generations[plan.id := Tree(true, true, Some(plan.id))][plan.id := BARE] - {plan.id}) == fs.generations;
      }
    }
  }

  // ----- `current` at every moment -----

  // The old generations are all there, and `current` is as before or names the new, complete one.
  ghost predicate Sound(before: Fs, plan: Plan, fs: Fs) {
    && (forall g :: g in before.generations ==> g in fs.generations && fs.generations[g] == before.generations[g])
    && (Get(fs, Current) == Get(before, Current)
        || (Get(fs, Current) == NewCurrent(plan) && plan.id in fs.generations && Complete(fs.generations[plan.id])))
  }

  lemma SoundIsOk(before: Fs, plan: Plan, fs: Fs)
    requires CurrentOk(before, plan.root) && Sound(before, plan, fs)
    ensures CurrentOk(fs, plan.root)
  {}

  lemma {:induction false} PutsKeepSound(before: Fs, plan: Plan, fs: Fs, steps: seq<Step>)
    requires Sound(before, plan, fs) && plan.id !in before.generations
    requires forall s :: s in steps ==> s.Put?
    requires forall s :: s in steps && Puts(s, Current) ==>
               s.image == Get(before, Current)
               || (s.image == NewCurrent(plan) && plan.id in fs.generations && Complete(fs.generations[plan.id]))
    ensures Sound(before, plan, ApplyAll(fs, steps))
  {
    if steps != [] {
      var front, last := steps[..|steps| - 1], steps[|steps| - 1];
      PutsKeepSound(before, plan, fs, front);
      PutsKeepDirectories(fs, front);
      assert last in steps;
    }
  }

  lemma SetupIsSound(fs: Fs, plan: Plan, k: nat)
    requires Ready(fs, plan) && k <= |SetupSteps(fs, plan)|
    ensures Sound(fs, plan, ApplyAll(fs, SetupSteps(fs, plan)[..k]))
  {
    var steps, stage, puts := SetupSteps(fs, plan), StageSteps(plan), PutSteps(fs, plan);
    if k < 5 {
      assert steps[..k] == stage[..k];
      StagePrefix(fs, plan, k);
    } else {
      assert steps[..k] == stage + puts[..k - 5];
      ApplyAllAppend(fs, stage, puts[..k - 5]);
      StageFive(fs, plan);
      PutStepsArePuts(fs, plan);
      PutsKeepSound(fs, plan, ApplyAll(fs, stage), puts[..k - 5]);
    }
  }

  // The restoring part of rollback, stopped after `j` steps.
  lemma RestoringIsSound(fs: Fs, plan: Plan, k: nat, j: nat)
    requires Ready(fs, plan) && k <= |SetupSteps(fs, plan)| && j <= |RestoreSteps(fs, plan)|
    requires Get(fs, Current) == Written(Get(fs, Current))
    ensures Sound(fs, plan, ApplyAll(ApplyAll(fs, SetupSteps(fs, plan)[..k]), RestoreSteps(fs, plan)[..j]))
  {
    SetupIsSound(fs, plan, k);
    RestoreStepsArePuts(fs, plan);
    PutsKeepSound(fs, plan, ApplyAll(fs, SetupSteps(fs, plan)[..k]), RestoreSteps(fs, plan)[..j]);
  }

  // The deleting part, after all of the restoring.
  lemma DeletingIsSound(fs: Fs, plan: Plan, k: nat, j: nat)
    requires Ready(fs, plan) && CurrentOk(fs, plan.root) && k <= |SetupSteps(fs, plan)|
    requires j <= |DeleteSteps(ApplyAll(fs, SetupSteps(fs, plan)[..k]), plan)|
    ensures var failed := ApplyAll(fs, SetupSteps(fs, plan)[..k]);
            CurrentOk(ApplyAll(ApplyAll(failed, RestoreSteps(fs, plan)), DeleteSteps(failed, plan)[..j]), plan.root)
  {
    var failed, restores := ApplyAll(fs, SetupSteps(fs, plan)[..k]), RestoreSteps(fs, plan);
    RestoreStepsArePuts(fs, plan);
    RestoringIsSound(fs, plan, k, |restores|);
    assert restores[..|restores|] == restores;
    SlotAfter(failed, restores, Current, Get(fs, Current));
    assert Puts(restores[1], Current);
    DeletesKeepOk(fs, failed, ApplyAll(failed, restores), plan, j);
  }

  /** Setup stopped anywhere, rollback stopped anywhere: `current` never names a missing or incomplete generation. */
  lemma RollbackIsSound(fs: Fs, plan: Plan, k: nat, j: nat)
    requires Ready(fs, plan) && CurrentOk(fs, plan.root) && k <= |SetupSteps(fs, plan)|
    requires j <= |RollbackSteps(fs, ApplyAll(fs, SetupSteps(fs, plan)[..k]), plan)|
    ensures var failed := ApplyAll(fs, SetupSteps(fs, plan)[..k]);
            CurrentOk(failed, plan.root)
            && CurrentOk(ApplyAll(failed, RollbackSteps(fs, failed, plan)[..j]), plan.root)
  {
    var failed, restores := ApplyAll(fs, SetupSteps(fs, plan)[..k]), RestoreSteps(fs, plan);
    SetupIsSound(fs, plan, k);
    SoundIsOk(fs, plan, failed);
    if j <= |restores| {
      assert RollbackSteps(fs, failed, plan)[..j] == restores[..j];
      RestoringIsSound(fs, plan, k, j);
      SoundIsOk(fs, plan, ApplyAll(failed, restores[..j]));
    } else {
      var deletes := DeleteSteps(failed, plan)[..j - |restores|];
      assert RollbackSteps(fs, failed, plan)[..j] == restores + deletes;
      ApplyAllAppend(failed, restores, deletes);
      DeletingIsSound(fs, plan, k, j - |restores|);
    }
  }

  lemma DeletesKeepOk(fs: Fs, failed: Fs, restored: Fs, plan: Plan, j: nat)
    requires Ready(fs, plan) && CurrentOk(fs, plan.root) && Sound(fs, plan, restored)
    requires Get(restored, Current) == Get(fs, Current) && j <= |DeleteSteps(failed, plan)|
    ensures CurrentOk(ApplyAll(restored, DeleteSteps(failed, plan)[..j]), plan.root)
  {
    var deletes := DeleteSteps(failed, plan);
    SlotUntouched(restored, deletes[..j], Current);
    assert forall g :: g in fs.generations ==> g != plan.id;
    if j > 0 {
      assert deletes[..j][..j - 1] == deletes[..j - 1];
      DeletesKeepOk(fs, failed, restored, plan, j - 1);
      DeletesKeepOld(fs, failed, restored, plan, j);
    }
  }

  lemma DeletesKeepOld(fs: Fs, failed: Fs, restored: Fs, plan: Plan, j: nat)
    requires plan.id !in fs.generations && j <= |DeleteSteps(failed, plan)|
    requires forall g :: g in fs.generations ==> g in restored.generations && restored.generations[g] == fs.generations[g]
    ensures var after := ApplyAll(restored, DeleteSteps(failed, plan)[..j]);
            forall g :: g in fs.generations ==> g in after.generations && after.generations[g] == fs.generations[g]
  {
    var deletes := DeleteSteps(failed, plan);
    if j > 0 {
      assert deletes[..j][..j - 1] == deletes[..j - 1];
      DeletesKeepOld(fs, failed, restored, plan, j - 1);
    }
  }

  /** Deleting directories other than generation `id`, each step on its own, touches neither it nor any file. */
  lemma {:induction false} CleanupKeeps(fs: Fs, id: Text, steps: seq<Step>)
    requires id in fs.generations
    requires forall s :: s in steps ==> (s.EmptyGeneration? || s.RemoveGeneration?) && s.id != id
    ensures var after := ApplyAll(fs, steps);
            id in after.generations && after.generations[id] == fs.generations[id] && after.slots == fs.slots
  {
    if steps != [] {
      assert steps[|steps| - 1] in steps;
      CleanupKeeps(fs, id, steps[..|steps| - 1]);
    }
  }

  /** After the commit, deleting superseded generations in any order and however incompletely leaves `current` naming
      the new, complete generation. */
  lemma CleanupIsSound(fs: Fs, plan: Plan, deletes: seq<Step>)
    requires Ready(fs, plan)
    requires forall s :: s in deletes ==> (s.EmptyGeneration? || s.RemoveGeneration?) && s.id != plan.id
    ensures var after := ApplyAll(ApplyAll(fs, SetupSteps(fs, plan)), deletes);
            && Get(after, Current) == NewCurrent(plan) && CurrentOk(after, plan.root)
            && Get(after, Manifest) == File(PRIVATE_MODE, plan.manifest)
  {
    Committed(fs, plan);
    CleanupKeeps(ApplyAll(fs, SetupSteps(fs, plan)), plan.id, deletes);
  }

  lemma Committed(fs: Fs, plan: Plan)
    requires Ready(fs, plan)
    ensures var committed := ApplyAll(fs, SetupSteps(fs, plan));
            && Get(committed, Current) == NewCurrent(plan)
            && Get(committed, Manifest) == File(PRIVATE_MODE, plan.manifest)
            && committed.stage.None?
            && committed.generations == fs.generations[plan.id := Tree(true, true, Some(plan.id))]
  {
    var steps, stage, puts := SetupSteps(fs, plan), StageSteps(plan), PutSteps(fs, plan);
    ApplyAllAppend(fs, stage, puts);
    assert steps[..|steps|] == steps;
    FailedDirectories(fs, plan, |steps|);
    PutStepsArePuts(fs, plan);
    SlotAfter(ApplyAll(fs, stage), puts, Current, NewCurrent(plan));
    assert Puts(puts[|puts| - 2], Current);
    assert puts[|puts| - 1] == Put(Manifest, File(PRIVATE_MODE, plan.manifest));
  }

  // ----- the parts of the lists -----

  // `part` stands at position k of `steps`.
  ghost predicate Part(steps: seq<Step>, k: nat, part: seq<Step>) {
    k + |part| <= |steps| && forall i :: 0 <= i < |part| ==> steps[k + i] == part[i]
  }

  lemma SetupParts(fs: Fs, plan: Plan)
    ensures var steps, base := SetupSteps(fs, plan), 5 + |BackupSteps(fs, plan)|;
            var links := base + |plan.mutations|;
            var last := links + |plan.links|;
            && Part(steps, 0, StageSteps(plan)) && Part(steps, 5, BackupSteps(fs, plan))
            && Part(steps, base, MutationSteps(plan.mutations)) && Part(steps, links, LinkSteps(plan))
            && |steps| == last + 2 && steps[last] == Put(Current, NewCurrent(plan))
            && steps[last + 1] == Put(Manifest, File(PRIVATE_MODE, plan.manifest))
  {}

  lemma RestoreParts(steps: seq<Step>, before: Fs, plan: Plan)
    requires Part(steps, 0, RestoreSteps(before, plan))
    ensures steps[0] == RestoreStep(before, Manifest) && steps[1] == RestoreStep(before, Current)
    ensures Part(steps, 2, RestoreLinks(before, |plan.links|))
    ensures Part(steps, 2 + |plan.links|, RestoreMutations(before, plan.mutations))
  {
    var restores := RestoreSteps(before, plan);
    assert forall i :: 0 <= i < |restores| ==> steps[0 + i] == restores[i];
    assert steps[0] == restores[0] && steps[1] == restores[1];
    forall i | 0 <= i < |plan.links|
      ensures steps[2 + i] == RestoreLinks(before, |plan.links|)[i]
    {
      assert steps[2 + i] == restores[2 + i];
    }
    forall i | 0 <= i < |plan.mutations|
      ensures steps[2 + |plan.links| + i] == RestoreMutations(before, plan.mutations)[i]
    {
      assert steps[2 + |plan.links| + i] == restores[2 + |plan.links| + i];
    }
  }

  lemma BackupUntouched(fs: Fs, plan: Plan)
    ensures Get(ApplyAll(fs, SetupSteps(fs, plan)[..5]), BashrcBackup) == Get(fs, BashrcBackup)
  {
    assert SetupSteps(fs, plan)[..5] == StageSteps(plan);
    SlotUntouched(fs, StageSteps(plan), BashrcBackup);
  }

  // ----- the order of the commit -----

  // Which steps write a slot.
  lemma StepsOfSlot(fs: Fs, plan: Plan, s: Step)
    requires Ready(fs, plan) && s in SetupSteps(fs, plan) && s.Put?
    ensures s.slot == Manifest ==> s == Put(Manifest, File(PRIVATE_MODE, plan.manifest))
    ensures s.slot == Current ==> s == Put(Current, NewCurrent(plan))
    ensures s.slot.CommandLink? ==> s.slot.index < |plan.links| && s.image == Symlink(plan.links[s.slot.index])
    ensures s.slot.Bashrc? || s.slot.Autostart? || s.slot.Chooser? ==>
              exists m :: m in plan.mutations && s == Put(m.slot, Written(m.after))
  {
    if s in MutationSteps(plan.mutations) {
      var i :| 0 <= i < |plan.mutations| && MutationSteps(plan.mutations)[i] == s;
      assert plan.mutations[i] in plan.mutations;
    }
  }

  /** The manifest is the commit point: it changes with the very last step, and `current` with the one before. */
  lemma CommitIsLast(fs: Fs, plan: Plan, k: nat)
    requires Ready(fs, plan) && k < |SetupSteps(fs, plan)|
    ensures var partial := ApplyAll(fs, SetupSteps(fs, plan)[..k]);
            && Get(partial, Manifest) == Get(fs, Manifest)
            && (k < |SetupSteps(fs, plan)| - 1 ==> Get(partial, Current) == Get(fs, Current))
  {
    var steps := SetupSteps(fs, plan);
    var body := StageSteps(plan) + BackupSteps(fs, plan) + MutationSteps(plan.mutations) + LinkSteps(plan);
    assert steps == body + [Put(Current, NewCurrent(plan)), Put(Manifest, File(PRIVATE_MODE, plan.manifest))];
    forall i | 0 <= i < |body|
      ensures !Puts(steps[i], Manifest) && !Puts(steps[i], Current)
    {
      BodyWritesOthers(fs, plan, body[i]);
    }
    SlotUntouched(fs, steps[..k], Manifest);
    if k < |steps| - 1 {
      SlotUntouched(fs, steps[..k], Current);
    }
  }

  lemma BodyWritesOthers(fs: Fs, plan: Plan, s: Step)
    requires Ready(fs, plan)
    requires s in StageSteps(plan) + BackupSteps(fs, plan) + MutationSteps(plan.mutations) + LinkSteps(plan)
    ensures !Puts(s, Manifest) && !Puts(s, Current)
  {
    if s in MutationSteps(plan.mutations) {
      var i :| 0 <= i < |plan.mutations| && MutationSteps(plan.mutations)[i] == s;
      assert plan.mutations[i] in plan.mutations;
    }
  }

  /** After setup every command link has its target and every file its new content, and its mode or, for 0, 0600. */
  lemma InstalledFiles(fs: Fs, plan: Plan, slot: Slot, image: Image)
    requires Ready(fs, plan)
    requires || (slot.CommandLink? && slot.index < |plan.links| && image == Symlink(plan.links[slot.index]))
             || (&& (exists m :: m in plan.mutations && m.slot == slot)
                 && forall m :: m in plan.mutations && m.slot == slot ==> m.after == image)
    ensures Get(ApplyAll(fs, SetupSteps(fs, plan)), slot)
         == if image.File? && image.mode == 0 then File(384, image.content) else image
  {
    var steps := SetupSteps(fs, plan);
    forall s | s in steps && Puts(s, slot)
      ensures s.image == Written(image)
    {
      StepsOfSlot(fs, plan, s);
    }
    SetupParts(fs, plan);
    if slot.CommandLink? {
      assert Puts(LinkSteps(plan)[slot.index], slot) && LinkSteps(plan)[slot.index] in steps;
    } else {
      var m :| m in plan.mutations && m.slot == slot;
      var i :| 0 <= i < |plan.mutations| && plan.mutations[i] == m;
      assert Puts(MutationSteps(plan.mutations)[i], slot) && MutationSteps(plan.mutations)[i] in steps;
    }
    SlotAfter(fs, steps, slot, Written(image));
  }

  // The i-th restoring step and the i-th last step of setup write the same slot.
  ghost predicate Mirrors(restores: seq<Step>, steps: seq<Step>, i: nat) {
    && i < |restores| && i < |steps|
    && restores[i].Put? && steps[|steps| - 1 - i].Put? && restores[i].slot == steps[|steps| - 1 - i].slot
  }

  lemma HowMany(fs: Fs, plan: Plan)
    ensures |RestoreSteps(fs, plan)| == 2 + |plan.links| + |plan.mutations|
    ensures |SetupSteps(fs, plan)| == 5 + |BackupSteps(fs, plan)| + |RestoreSteps(fs, plan)|
  {}

  lemma FirstMirror(fs: Fs, plan: Plan, i: nat)
    requires i < 2
    ensures Mirrors(RestoreSteps(fs, plan), SetupSteps(fs, plan), i)
  {
    SetupParts(fs, plan);
    RestoreParts(RestoreSteps(fs, plan), fs, plan);
  }

  lemma LinksMirror(fs: Fs, plan: Plan, i: nat)
    requires 2 <= i < 2 + |plan.links|
    ensures Mirrors(RestoreSteps(fs, plan), SetupSteps(fs, plan), i)
  {
    var steps, restores, links := SetupSteps(fs, plan), RestoreSteps(fs, plan), |plan.links|;
    SetupParts(fs, plan);
    RestoreParts(restores, fs, plan);
    assert restores[2 + (i - 2)] == RestoreLinks(fs, links)[i - 2];
    var at := 5 + |BackupSteps(fs, plan)| + |plan.mutations|;
    assert steps[at + (links + 1 - i)] == LinkSteps(plan)[links + 1 - i];
  }

  lemma MutationStep(fs: Fs, plan: Plan, k: nat)
    requires k < |plan.mutations|
    ensures 5 + |BackupSteps(fs, plan)| + k < |SetupSteps(fs, plan)|
    ensures SetupSteps(fs, plan)[5 + |BackupSteps(fs, plan)| + k] == MutationSteps(plan.mutations)[k]
  {
    SetupParts(fs, plan);
  }

  lemma MutationRestore(fs: Fs, plan: Plan, k: nat)
    requires k < |plan.mutations|
    ensures 2 + |plan.links| + k < |RestoreSteps(fs, plan)|
    ensures RestoreSteps(fs, plan)[2 + |plan.links| + k] == RestoreMutations(fs, plan.mutations)[k]
  {
    RestoreParts(RestoreSteps(fs, plan), fs, plan);
  }

  lemma MutationsMirror(fs: Fs, plan: Plan, i: nat)
    requires 2 + |plan.links| <= i < |RestoreSteps(fs, plan)|
    ensures Mirrors(RestoreSteps(fs, plan), SetupSteps(fs, plan), i)
  {
    HowMany(fs, plan);
    var k := i - 2 - |plan.links|;
    MutationRestore(fs, plan, k);
    MutationStep(fs, plan, |plan.mutations| - 1 - k);
  }

  /** Rollback restores in the reverse order of setup: its steps, from the first, write the slots that the steps of setup
      wrote, from the last, down to the backup, which it leaves alone. */
  lemma RollbackMirrorsSetup(fs: Fs, plan: Plan, i: nat)
    requires i < |RestoreSteps(fs, plan)|
    ensures |SetupSteps(fs, plan)| == 5 + |BackupSteps(fs, plan)| + |RestoreSteps(fs, plan)|
    ensures Mirrors(RestoreSteps(fs, plan), SetupSteps(fs, plan), i)
  {
    HowMany(fs, plan);
    if i < 2 {
      FirstMirror(fs, plan, i);
    } else if i < 2 + |plan.links| {
      LinksMirror(fs, plan, i);
    } else {
      MutationsMirror(fs, plan, i);
    }
  }

  // ----- the backup -----

  /** The backup of .bashrc: what it was before the first setup that had one to make. */
  function BackupAfter(fs: Fs, plan: Plan): Image {
    if Get(fs, BashrcBackup).Absent? && plan.backup.Some? then File(384, plan.backup.value) else Get(fs, BashrcBackup)
  }

  lemma BackupSlot(fs: Fs, plan: Plan, steps: seq<Step>)
    requires Ready(fs, plan) && forall s :: s in steps ==> s in SetupSteps(fs, plan)
    ensures Get(ApplyAll(fs, steps), BashrcBackup)
         == if exists s :: s in steps && Puts(s, BashrcBackup) then BackupAfter(fs, plan) else Get(fs, BashrcBackup)
  {
    forall s | s in MutationSteps(plan.mutations)
      ensures !Puts(s, BashrcBackup)
    {
      var i :| 0 <= i < |plan.mutations| && MutationSteps(plan.mutations)[i] == s;
      assert plan.mutations[i] in plan.mutations;
    }
    assert forall s :: s in steps && Puts(s, BashrcBackup) ==> s in BackupSteps(fs, plan);
    SlotAfter(fs, steps, BashrcBackup, BackupAfter(fs, plan));
  }

  // Up to the backup nothing touches .bashrc.
  lemma BashrcComesLater(fs: Fs, plan: Plan, k: nat)
    requires Ready(fs, plan) && k < 5 + |BackupSteps(fs, plan)|
    ensures Get(ApplyAll(fs, SetupSteps(fs, plan)[..k]), Bashrc) == Get(fs, Bashrc)
  {
    var steps := SetupSteps(fs, plan);
    SetupParts(fs, plan);
    forall i | 0 <= i < k
      ensures !Puts(steps[i], Bashrc)
    {
      assert steps[0 + i] == StageSteps(plan)[i];
    }
    SlotUntouched(fs, steps[..k], Bashrc);
  }

  // From there on the backup stands.
  lemma BackupStands(fs: Fs, plan: Plan, k: nat)
    requires Ready(fs, plan) && 5 + |BackupSteps(fs, plan)| <= k <= |SetupSteps(fs, plan)|
    ensures Get(ApplyAll(fs, SetupSteps(fs, plan)[..k]), BashrcBackup) == BackupAfter(fs, plan)
  {
    var steps := SetupSteps(fs, plan);
    BackupSlot(fs, plan, steps[..k]);
    SetupParts(fs, plan);
    if BackupSteps(fs, plan) != [] {
      assert steps[5 + 0] == BackupSteps(fs, plan)[0];
      assert Puts(steps[..k][5], BashrcBackup) && steps[..k][5] in steps[..k];
    }
  }

  lemma RollbackKeepsBackup(before: Fs, failed: Fs, plan: Plan)
    requires Ready(before, plan)
    ensures Get(ApplyAll(failed, RollbackSteps(before, failed, plan)), BashrcBackup) == Get(failed, BashrcBackup)
  {
    RestoreStepsArePuts(before, plan);
    SlotUntouched(failed, RollbackSteps(before, failed, plan), BashrcBackup);
  }

  /** The backup is made once, before .bashrc is touched, and no rollback removes it: wherever setup stops, either .bashrc
      is as it was before or the backup stands; after all of setup it stands. */
  lemma BackupComesFirst(fs: Fs, plan: Plan, k: nat)
    requires Ready(fs, plan) && k <= |SetupSteps(fs, plan)|
    ensures var failed := ApplyAll(fs, SetupSteps(fs, plan)[..k]);
            && (k == |SetupSteps(fs, plan)| || Get(failed, Bashrc) != Get(fs, Bashrc) ==>
                  Get(failed, BashrcBackup) == BackupAfter(fs, plan))
            && (Get(failed, BashrcBackup) == Get(fs, BashrcBackup) || Get(failed, BashrcBackup) == BackupAfter(fs, plan))
            && Get(ApplyAll(failed, RollbackSteps(fs, failed, plan)), BashrcBackup) == Get(failed, BashrcBackup)
  {
    var steps := SetupSteps(fs, plan);
    if k >= 5 + |BackupSteps(fs, plan)| {
      BackupStands(fs, plan, k);
    } else {
      BashrcComesLater(fs, plan, k);
      SetupParts(fs, plan);
      BackupSlot(fs, plan, steps[..k]);
    }
    RollbackKeepsBackup(fs, ApplyAll(fs, steps[..k]), plan);
  }

  lemma PrintableMeans(t: Text)
    ensures Printable(t) <==> forall c :: c in t ==> c <= 126
  {
    assert forall i :: 0 <= i < |t| ==> t[i] in t;
    if Printable(t) {
      forall c | c in t
        ensures c <= 126
      {
        var i :| 0 <= i < |t| && t[i] == c;
      }
    }
  }

  /** Which markers verify: those of a root, id and install id without a character beyond the tilde. */
  lemma MarkerVerifiesExactly(plan: Plan)
    ensures MarkerVerifies(plan) <==> forall c :: c in plan.root || c in plan.id || c in plan.installId ==> c <= 126
  {
    var path := GenerationPath(plan.root, plan.id);
    CanonicalExactly(path);
    CanonicalExactly(plan.installId);
    assert forall c :: c in path <==> c in plan.root || c in [47] || c in plan.id;
    PrintableMeans(path);
    PrintableMeans(plan.installId);
  }
}
