/**
 Where answered snapshots do not survive, and where a snapshot request is refused. The store goes by file names and the
 service by what the files hold, so a file named above what the service writes next hides every write from the readers.
 */
module DurabilityLimits {
  import opened Wrappers
  import opened EngineState
  import opened CheckpointNames
  import opened CheckpointStore
  import opened CheckpointSafety
  import opened DurabilityPipeline
  import Scheduler = CheckpointManager
  import Loop = CheckpointLoop

  lemma OneMoreAct(p: Pipeline, act: Act, acts: seq<Act>)
    requires Can(p, act) && CanRun(Do(p, act), acts)
    ensures CanRun(p, [act] + acts) && Run(p, [act] + acts) == Run(Do(p, act), acts)
  {
    assert ([act] + acts)[1..] == acts;
  }

  const LOOP_STEP := Background(Loop.LoopStep(true, false))

  // A registration the engine accepts: of a shell it knows from the snapshot, or of the first one.
  function SomeRegistration(snapshot: Snapshot): Input {
    var id := if snapshot.shells == [] then "shell" else snapshot.shells[0].id;
    Register(RegisterRequest(id, Identity("boot", 1, 0), "kitty", "/", 0), "capability", None)
  }

  lemma RegistrationIsAccepted(snapshot: Snapshot)
    requires |snapshot.shells| <= MAX_SHELLS
    ensures React(Started(snapshot), SomeRegistration(snapshot)).dirtyGeneration == snapshot.generation + 1
    ensures React(Started(snapshot), SomeRegistration(snapshot)).snapshot.generation == snapshot.generation + 1
  {}

  // A service in the middle of its first write, with one snapshot request waiting for it.
  ghost predicate FirstWrite(p: Pipeline, dir: Directory, cut: nat) {
    && p.bootGeneration == BootSnapshot(dir).generation && p.engine.dirtyGeneration == p.bootGeneration + 1
    && p.sys.loop == Loop.InWrite(p.bootGeneration + 1) && p.sys.m.dirty == p.bootGeneration + 1
    && p.sys.m.durable == 0 && p.sys.m.running && Scheduler.ConfigOk(p.sys.config)
    && p.waiting == map[0 := p.bootGeneration + 1] && p.sys.flushes == map[0 := p.bootGeneration + 1]
    && p.writing.Some? && p.writing.value.base == dir && p.writing.value.cut == cut
    && p.writing.value.snapshot.generation == p.bootGeneration + 1
    && p.dir == WriteAfter(dir, p.writing.value.snapshot, cut)
    && cut <= |WriteSteps(dir, p.writing.value.snapshot)|
  }

  // The write ends and the request is answered.
  lemma LastActs(p: Pipeline, dir: Directory)
    requires p.writing.Some? && FirstWrite(p, dir, |WriteSteps(dir, p.writing.value.snapshot)|)
    ensures CanRun(p, [LOOP_STEP, SnapshotReturns(0)])
    ensures Run(p, [LOOP_STEP, SnapshotReturns(0)]).dir == p.dir
    ensures p.bootGeneration + 1 in Run(p, [LOOP_STEP, SnapshotReturns(0)]).answered
  {
    var p' := Do(p, LOOP_STEP);
    assert p'.sys.m.durable == p.bootGeneration + 1;
    assert Can(p', SnapshotReturns(0));
    var last := Do(p', SnapshotReturns(0));
    assert CanRun(last, []) && Run(last, []) == last;
    OneMoreAct(p', SnapshotReturns(0), []);
    assert [SnapshotReturns(0)] + [] == [SnapshotReturns(0)];
    OneMoreAct(p, LOOP_STEP, [SnapshotReturns(0)]);
    assert [LOOP_STEP] + [SnapshotReturns(0)] == [LOOP_STEP, SnapshotReturns(0)];
  }

  lemma {:induction false} WritingActs(p: Pipeline, dir: Directory, cut: nat) returns (acts: seq<Act>)
    requires FirstWrite(p, dir, cut)
    ensures CanRun(p, acts) && p.bootGeneration + 1 in Run(p, acts).answered
    ensures Run(p, acts).dir == WriteAfter(dir, p.writing.value.snapshot, |WriteSteps(dir, p.writing.value.snapshot)|)
    decreases |WriteSteps(dir, p.writing.value.snapshot)| - cut
  {
    if cut == |WriteSteps(dir, p.writing.value.snapshot)| {
      LastActs(p, dir);
      acts := [LOOP_STEP, SnapshotReturns(0)];
    } else {
      var rest := WritingActs(Do(p, FileStep), dir, cut + 1);
      OneMoreAct(p, FileStep, rest);
      acts := [FileStep] + rest;
    }
  }

  ghost predicate CanStart(dir: Directory, config: Scheduler.Config) {
    && Scheduler.ConfigOk(config) && !Latest(dir).Unreadable?
    && |BootSnapshot(dir).shells| <= MAX_SHELLS && BootSnapshot(dir).generation + 1 < Pow10(DIGITS)
  }

  // The service has started, registered a shell and been asked for a snapshot.
  ghost predicate Asked(p: Pipeline, dir: Directory) {
    && p.bootGeneration == BootSnapshot(dir).generation && p.engine.dirtyGeneration == p.bootGeneration + 1
    && p.engine.snapshot.generation == p.bootGeneration + 1
    && p.sys.loop.Top? && !p.sys.stop && Scheduler.ConfigOk(p.sys.config)
    && p.sys.m.dirty == p.bootGeneration + 1 && p.sys.m.flushGeneration == p.bootGeneration + 1
    && p.sys.m.durable == 0 && p.sys.m.running && !p.sys.m.writeActive && p.sys.m.nextRetryAt.None?
    && p.waiting == map[0 := p.bootGeneration + 1] && p.sys.flushes == map[0 := p.bootGeneration + 1]
    && p.writing.None? && p.dir == dir
  }

  lemma ThreeLoopSteps(p: Pipeline, dir: Directory) returns (acts: seq<Act>)
    requires Asked(p, dir)
    ensures CanRun(p, acts) && p.bootGeneration + 1 in Run(p, acts).answered
    ensures Run(p, acts).dir == WriteAfter(dir, p.engine.snapshot, |WriteSteps(dir, p.engine.snapshot)|)
  {
    assert Can(p, LOOP_STEP);
    var p1 := Do(p, LOOP_STEP);
    assert Can(p1, LOOP_STEP);
    var p2 := Do(p1, LOOP_STEP);
    assert p2.sys.loop == Loop.Observed(Some(p.sys.clock), p.sys.clock);
    assert Can(p2, LOOP_STEP);
    var p3 := Do(p2, LOOP_STEP);
    assert FirstWrite(p3, dir, 0) && p3.writing.value.snapshot == p.engine.snapshot;
    acts := WritingActs(p3, dir, 0);
    OneMoreAct(p2, LOOP_STEP, acts);
    OneMoreAct(p1, LOOP_STEP, [LOOP_STEP] + acts);
    OneMoreAct(p, LOOP_STEP, [LOOP_STEP] + ([LOOP_STEP] + acts));
    acts := [LOOP_STEP] + ([LOOP_STEP] + ([LOOP_STEP] + acts));
  }

  /** A service that starts can always run up to the answer of a first snapshot request. */
  lemma FirstAnswer(dir: Directory, config: Scheduler.Config, clock: real)
    returns (acts: seq<Act>, snapshot: Snapshot)
    requires CanStart(dir, config)
    ensures var p := Boot(dir, config, clock, {});
            && CanRun(p, acts) && snapshot.generation == BootSnapshot(dir).generation + 1
            && snapshot.generation in Run(p, acts).answered
            && Run(p, acts).dir == WriteAfter(dir, snapshot, |WriteSteps(dir, snapshot)|)
  {
    var start, input := Background(Loop.StartLoop), EngineInput(SomeRegistration(BootSnapshot(dir)));
    var p := Boot(dir, config, clock, {});
    RegistrationIsAccepted(BootSnapshot(dir));
    var p1 := Do(p, start);
    var p2 := Do(p1, input);
    assert p2.sys.m.dirty == p.bootGeneration + 1;
    var p3 := Do(p2, AskSnapshot(0));
    assert Asked(p3, dir);
    snapshot := p3.engine.snapshot;
    acts := ThreeLoopSteps(p3, dir);
    OneMoreAct(p2, AskSnapshot(0), acts);
    OneMoreAct(p1, input, [AskSnapshot(0)] + acts);
    OneMoreAct(p, start, [input] + ([AskSnapshot(0)] + acts));
    acts := [start] + ([input] + ([AskSnapshot(0)] + acts));
  }

  /** Every snapshot request answered with success survives every later crash. */
  ghost predicate AnswersSurvive(dir: Directory, config: Scheduler.Config, clock: real) {
    forall acts, required :: CanRun(Boot(dir, config, clock, {}), acts) ==>
      required in Run(Boot(dir, config, clock, {}), acts).answered ==>
        required <= BootSnapshot(Run(Boot(dir, config, clock, {}), acts).dir).generation
  }

  // A readable file above the written one keeps deciding.
  lemma HiddenWrite(dir: Directory, snapshot: Snapshot, m: string, cut: nat)
    requires m in dir && Recognized(m) && dir[m].Valid? && Generation(m) > snapshot.generation
    ensures Latest(WriteAfter(dir, snapshot, cut)) == Latest(dir)
  {
    if cut > 0 {
      PruningDoesNotChangeTheLatest(dir, snapshot, cut);
      ReplaceGivesOldOrNew(dir, snapshot);
      var replaced, name := Replaced(dir, snapshot), Name(snapshot.generation);
      NameIsRecognized(snapshot.generation);
      if Recognized(name) {
        RecognizedOrder(name, m);
        assert Below(name, m) && m in replaced && replaced[m] == dir[m];
      }
    }
  }

  /** The exact condition: answers survive if and only if no readable file is named above the next generation. */
  lemma AnswersSurviveExactly(dir: Directory, config: Scheduler.Config, clock: real)
    requires CanStart(dir, config)
    ensures AnswersSurvive(dir, config, clock) <==> NothingNewer(dir, BootSnapshot(dir).generation + 1)
  {
    var p := Boot(dir, config, clock, {});
    if NothingNewer(dir, BootSnapshot(dir).generation + 1) {
      forall acts, required | CanRun(p, acts) && required in Run(p, acts).answered
        ensures required <= BootSnapshot(Run(p, acts).dir).generation
      {
        AnsweredSnapshotsSurvive(dir, config, clock, acts, required);
      }
    } else {
      var acts, snapshot := FirstAnswer(dir, config, clock);
      var m :| m in dir && Recognized(m) && dir[m].Valid? && Generation(m) > BootSnapshot(dir).generation + 1;
      HiddenWrite(dir, snapshot, m, |WriteSteps(dir, snapshot)|);
      assert BootSnapshot(Run(p, acts).dir).generation < snapshot.generation;
    }
  }

  /** A directory with one readable checkpoint, and what it holds. */
  lemma OneCheckpoint(name: nat, snapshot: Snapshot)
    requires name < 10
    ensures Latest(map[Name(name) := Valid(snapshot)]) == Loaded(snapshot)
    ensures NothingNewer(map[Name(name) := Valid(snapshot)], name)
    ensures Recognized(Name(name)) && Generation(Name(name)) == name
    ensures 10 <= Pow10(DIGITS)
  {
    var dir: Directory := map[Name(name) := Valid(snapshot)];
    PowIsTen(DIGITS);
    NameIsRecognized(name);
    BelowIsTotal(Name(name), Name(name));
    assert Decides(dir, Name(name));
    LatestIsDecided(dir, Name(name));
  }

  lemma {:induction false} PowIsTen(n: nat)
    requires n > 0
    ensures Pow10(n) >= 10
  {
    if n > 1 {
      PowIsTen(n - 1);
    }
  }

  /** Such a directory: a file named 5 that holds generation 0. */
  lemma MisnamedFileLosesAnswers(config: Scheduler.Config, clock: real)
    requires Scheduler.ConfigOk(config)
    ensures !AnswersSurvive(map[Name(5) := Valid(Snapshot(0, []))], config, clock)
  {
    var dir: Directory := map[Name(5) := Valid(Snapshot(0, []))];
    OneCheckpoint(5, Snapshot(0, []));
    assert Name(5) in dir;
    AnswersSurviveExactly(dir, config, clock);
  }

  /** A service started from a checkpoint refuses the first snapshot request it gets: nothing is pending for its
      manager, which counts from 0, while the engine counts from the checkpoint. */
  lemma LoadedServiceRefusesSnapshot(config: Scheduler.Config, clock: real)
    requires Scheduler.ConfigOk(config)
    ensures var p := Boot(map[Name(5) := Valid(Snapshot(5, []))], config, clock, {});
            && p.engine.dirtyGeneration == 5
            && Scheduler.StartOfFlush(p.sys.m).AlreadyDurable? && ImmediateAnswer(p).PersistenceFailed?
            && CanRun(p, [AskSnapshot(0)]) && Run(p, [AskSnapshot(0)]).answered == {}
  {
    OneCheckpoint(5, Snapshot(5, []));
    var p := Boot(map[Name(5) := Valid(Snapshot(5, []))], config, clock, {});
    var p' := Do(p, AskSnapshot(0));
    assert CanRun(p', []) && Run(p', []) == p';
    OneMoreAct(p, AskSnapshot(0), []);
    assert [AskSnapshot(0)] + [] == [AskSnapshot(0)];
  }

  /** A request that had to wait is answered with success if and only if what it requires is durable, and else, since the
      manager has stopped, with the internal error. */
  lemma LateAnswersExactly(dir: Directory, config: Scheduler.Config, clock: real, acts: seq<Act>, id: nat)
    requires Scheduler.ConfigOk(config) && Readable(dir) && CanRun(Boot(dir, config, clock, {}), acts)
    requires var p := Run(Boot(dir, config, clock, {}), acts); id in p.waiting && id in p.sys.flushes
    ensures var p := Run(Boot(dir, config, clock, {}), acts);
            AnswerAfterFlush(p, id) == if p.sys.m.durable >= p.waiting[id] then Sent else InternalError
  {
    RunIsOk(dir, config, clock, acts);
  }
}
