/**
 The capture pipeline end to end: engine, checkpoint scheduler, checkpoint files and snapshot requests. A write goes
 through its file steps one at a time; a crash may happen between any two steps of anything and loses all but files.
 */
module DurabilityPipeline {
  import opened Wrappers
  import opened EngineState
  import opened CheckpointNames
  import opened CheckpointStore
  import opened CheckpointSafety
  import Scheduler = CheckpointManager
  import Loop = CheckpointLoop

  // A write in progress: what is written, over which directory, how many file steps are done.
  datatype Write = Write(snapshot: Snapshot, base: Directory, cut: nat)

  datatype Pipeline = Pipeline(
    engine: Engine,
    sys: Loop.Sys,
    dir: Directory,
    writing: Option<Write>,
    waiting: map<nat, nat>, // snapshot requests that wait for a flush, with the generation each requires
    answered: set<nat>, // required generation of every snapshot request ever answered with success
    bootGeneration: nat)

  datatype Act =
    | EngineInput(input: Input)
    | Background(act: Loop.Act)
    | FileStep
    | AskSnapshot(id: nat)
    | SnapshotReturns(id: nat)
    | Crash

  datatype Answer = Sent | PersistenceFailed | InternalError

  /** The snapshot a service starts from: the latest checkpoint, or an empty one. */
  ghost function BootSnapshot(dir: Directory): Snapshot {
    match Latest(dir)
    case Loaded(snapshot) => snapshot
    case _ => Snapshot(0, [])
  }

  ghost function Boot(dir: Directory, config: Scheduler.Config, clock: real, answered: set<nat>): Pipeline {
    var snapshot := BootSnapshot(dir);
    Pipeline(Started(snapshot), Loop.Boot(config, clock), dir, None, map[], answered, snapshot.generation)
  }

  /** A request that needs no waiting: the manager has nothing pending. */
  function ImmediateAnswer(p: Pipeline): Answer {
    if Scheduler.StartOfFlush(p.sys.m).NotRunning? then InternalError
    else if p.sys.m.durable < p.engine.dirtyGeneration then PersistenceFailed
    else Sent
  }

  function AnswerAfterFlush(p: Pipeline, id: nat): Answer
    requires id in p.waiting && id in p.sys.flushes
  {
    if p.sys.m.durable < p.sys.flushes[id] then InternalError
    else if p.sys.m.durable < p.waiting[id] then PersistenceFailed
    else Sent
  }

  ghost predicate Can(p: Pipeline, act: Act) {
    match act
    case EngineInput(input) => React(p.engine, input).dirtyGeneration < Pow10(DIGITS)
    case Background(a) =>
      && Loop.Can(p.sys, a) && (a.Tick? || a.Stop? || a.StartLoop? || a.LoopStep?)
      && (a.LoopStep? && a.ok && p.sys.loop.InWrite? ==>
            p.writing.Some? && p.writing.value.cut == |WriteSteps(p.writing.value.base, p.writing.value.snapshot)|)
    case FileStep =>
      p.writing.Some? && p.writing.value.cut < |WriteSteps(p.writing.value.base, p.writing.value.snapshot)|
    case AskSnapshot(id) => id !in p.sys.flushes && id !in p.waiting
    case SnapshotReturns(id) => id in p.waiting && Loop.Can(p.sys, Loop.FlushReturns(id))
    case Crash => true
  }

  ghost function Do(p: Pipeline, act: Act): Pipeline
    requires Can(p, act)
  {
    match act
    case EngineInput(input) =>
      // the engine state is replaced only together with the mark
      var engine := React(p.engine, input);
      if engine == p.engine then p
      else p.(engine := engine, sys := Loop.Do(p.sys, Loop.Mark(engine.dirtyGeneration)))
    case Background(a) =>
      var sys := Loop.Do(p.sys, a);
      p.(sys := sys,
         writing :=
           if p.sys.loop.InWrite? == sys.loop.InWrite? then p.writing
           else if sys.loop.InWrite? then Some(Write(p.engine.snapshot, p.dir, 0))
           else None)
    case FileStep =>
      var w := p.writing.value;
      p.(writing := Some(w.(cut := w.cut + 1)), dir := WriteAfter(w.base, w.snapshot, w.cut + 1))
    case AskSnapshot(id) =>
      if Scheduler.StartOfFlush(p.sys.m).Waits? then
        p.(sys := Loop.Do(p.sys, Loop.Flush(id)), waiting := p.waiting[id := p.engine.dirtyGeneration])
      else if ImmediateAnswer(p).Sent? then p.(answered := p.answered + {p.engine.dirtyGeneration})
      else p
    case SnapshotReturns(id) =>
      p.(sys := Loop.Do(p.sys, Loop.FlushReturns(id)),
         waiting := p.waiting - {id},
         answered := if AnswerAfterFlush(p, id).Sent? then p.answered + {p.waiting[id]} else p.answered)
    case Crash => Boot(p.dir, p.sys.config, p.sys.clock, p.answered)
  }

  // ----- the invariant -----

  /** The service starts, and no readable file is named above the next generation it will write. What the files hold
      need not be what their names say. */
  ghost predicate Readable(dir: Directory) {
    !Latest(dir).Unreadable? && NothingNewer(dir, BootSnapshot(dir).generation + 1)
  }

  ghost predicate WritingOk(p: Pipeline) {
    && (p.writing.Some? <==> p.sys.loop.InWrite?)
    && (p.writing.Some? ==>
          var w := p.writing.value;
          && w.snapshot.generation == p.sys.loop.target
          && p.bootGeneration < w.snapshot.generation <= p.engine.dirtyGeneration
          && !Latest(w.base).Unreadable? && NothingNewer(w.base, w.snapshot.generation)
          && p.bootGeneration <= BootSnapshot(w.base).generation <= w.snapshot.generation
          && w.cut <= |WriteSteps(w.base, w.snapshot)|
          && p.dir == WriteAfter(w.base, w.snapshot, w.cut))
  }

  // What is read now, and what no file is named above.
  ghost predicate DirectoryOk(p: Pipeline) {
    && !Latest(p.dir).Unreadable?
    && p.bootGeneration <= BootSnapshot(p.dir).generation <= p.engine.dirtyGeneration
    && NothingNewer(p.dir, Scheduler.Larger(BootSnapshot(p.dir).generation, p.bootGeneration + 1))
  }

  ghost predicate Inv(p: Pipeline) {
    && Loop.Inv(p.sys)
    && p.engine.snapshot.generation == p.engine.dirtyGeneration
    && (p.engine.dirtyGeneration == p.bootGeneration || p.engine.dirtyGeneration < Pow10(DIGITS))
    && p.bootGeneration <= p.engine.dirtyGeneration
    && p.sys.m.dirty == (if p.engine.dirtyGeneration == p.bootGeneration then 0 else p.engine.dirtyGeneration)
    && DirectoryOk(p)
    && p.sys.m.durable <= BootSnapshot(p.dir).generation
    && WritingOk(p)
    && (forall id :: id in p.waiting ==> id in p.sys.flushes && p.waiting[id] == p.sys.flushes[id])
    && (forall r :: r in p.answered ==> r <= BootSnapshot(p.dir).generation)
  }

  // ----- files -----

  // In a directory that reads at all, everything above the newest readable file is invalid.
  lemma ReadableDecides(dir: Directory, name: string)
    requires !Latest(dir).Unreadable? && Recognized(name) && NothingNewer(dir, Generation(name))
    ensures forall m :: m in dir && Recognized(m) && Below(name, m) ==> dir[m].Invalid?
  {
    forall m | m in dir && Recognized(m) && Below(name, m)
      ensures dir[m].Invalid?
    {
      RecognizedOrder(name, m);
      if dir[m].Unsupported? {
        forall n | n in dir && Recognized(n) && dir[n].Valid?
          ensures !Below(m, n)
        {
          RecognizedOrder(m, n);
        }
        UnsupportedAboveIsUnreadable(dir, m);
      }
    }
  }

  lemma ReplacedReadsNew(dir: Directory, snapshot: Snapshot)
    requires !Latest(dir).Unreadable? && snapshot.generation < Pow10(DIGITS)
    requires NothingNewer(dir, snapshot.generation)
    ensures Latest(Replaced(dir, snapshot)) == Loaded(snapshot) && NothingNewer(Replaced(dir, snapshot), snapshot.generation)
  {
    var replaced, name := Replaced(dir, snapshot), Name(snapshot.generation);
    NameIsRecognized(snapshot.generation);
    ReadableDecides(dir, name);
    BelowIsTotal(name, name);
    assert Decides(replaced, name);
    LatestIsDecided(replaced, name);
  }

  /** From the replace on, the written snapshot is what is read, whatever else the files hold. */
  lemma WrittenReadsNew(dir: Directory, snapshot: Snapshot, cut: nat)
    requires !Latest(dir).Unreadable? && snapshot.generation < Pow10(DIGITS)
    requires NothingNewer(dir, snapshot.generation) && cut > 0
    ensures Latest(WriteAfter(dir, snapshot, cut)) == Loaded(snapshot)
    ensures NothingNewer(WriteAfter(dir, snapshot, cut), snapshot.generation)
  {
    ReplacedReadsNew(dir, snapshot);
    PruningDoesNotChangeTheLatest(dir, snapshot, cut);
    WrittenFilesAreKept(dir, snapshot, cut);
  }

  lemma WrittenFilesAreKept(dir: Directory, snapshot: Snapshot, cut: nat)
    requires cut > 0
    ensures forall n :: n in WriteAfter(dir, snapshot, cut) ==>
                          n in Replaced(dir, snapshot) && WriteAfter(dir, snapshot, cut)[n] == Replaced(dir, snapshot)[n]
  {}

  // An unsupported file above every readable one makes the directory unreadable.
  lemma UnsupportedAboveIsUnreadable(dir: Directory, m: string)
    requires m in dir && Recognized(m) && dir[m].Unsupported?
    requires forall n :: n in dir && Recognized(n) && dir[n].Valid? ==> !Below(m, n)
    ensures Latest(dir).Unreadable?
  {
    var top := Decider(dir);
    LatestIsDecided(dir, top);
    BelowIsTotal(top, m);
  }

  // ----- steps -----

  lemma EngineKeepsInv(p: Pipeline, input: Input)
    requires Inv(p) && Can(p, EngineInput(input))
    ensures Inv(Do(p, EngineInput(input)))
  {
    var engine := React(p.engine, input);
    if engine != p.engine {
      assert engine.snapshot.generation == engine.dirtyGeneration == p.engine.dirtyGeneration + 1;
      Loop.StepKeepsInv(p.sys, Loop.Mark(engine.dirtyGeneration));
    }
  }

  // The checkpoint files of a write that is through its first file step.
  lemma WriteIsReadable(p: Pipeline)
    requires Inv(p) && p.writing.Some? && p.writing.value.cut > 0
    ensures BootSnapshot(p.dir).generation == p.writing.value.snapshot.generation == p.sys.loop.target
  {
    WrittenReadsNew(p.writing.value.base, p.writing.value.snapshot, p.writing.value.cut);
  }

  // What the scheduler does on its own: it never marks, and only a finished write makes anything durable.
  lemma BackgroundEffect(s: Loop.Sys, a: Loop.Act)
    requires Loop.Inv(s) && Loop.Can(s, a) && (a.Tick? || a.Stop? || a.StartLoop? || a.LoopStep?)
    ensures var s' := Loop.Do(s, a);
            && s'.m.dirty == s.m.dirty && s'.flushes == s.flushes && s'.config == s.config
            && s'.m.durable == if a.LoopStep? && a.ok && s.loop.InWrite? then s.loop.target else s.m.durable
  {
    if a.LoopStep? {
      LoopStepEffect(s, a.ok, a.timer);
    }
  }

  lemma LoopStepEffect(s: Loop.Sys, ok: bool, timer: bool)
    requires Loop.Can(s, Loop.LoopStep(ok, timer)) && (s.loop.InWrite? ==> s.m.durable <= s.loop.target)
    ensures var s' := Loop.LoopNext(s, ok, timer);
            && s'.m.dirty == s.m.dirty && s'.flushes == s.flushes && s'.config == s.config
            && s'.m.durable == if ok && s.loop.InWrite? then s.loop.target else s.m.durable
  {
    if !s.loop.InWrite? {
      MoveEffect(s, ok, timer);
    }
  }

  // Outside a write the loop only moves, begins a write or leaves.
  lemma MoveEffect(s: Loop.Sys, ok: bool, timer: bool)
    requires Loop.Can(s, Loop.LoopStep(ok, timer)) && !s.loop.InWrite?
    ensures var s' := Loop.LoopNext(s, ok, timer);
            && s'.m in {s.m, Scheduler.Begun(s.m), Scheduler.Ended(s.m)}
            && s' == s.(loop := s'.loop, changed := s'.changed, m := s'.m)
  {}

  lemma BackgroundTarget(s: Loop.Sys, a: Loop.Act)
    requires Loop.Inv(s) && Loop.Can(s, a) && (a.Tick? || a.Stop? || a.StartLoop? || a.LoopStep?)
    ensures var s' := Loop.Do(s, a);
            s'.loop.InWrite? ==>
              if s.loop.InWrite? then s'.loop.target == s.loop.target else s'.loop.target == s.m.dirty > 0
  {}

  lemma BackgroundKeepsInv(p: Pipeline, a: Loop.Act)
    requires Inv(p) && Can(p, Background(a))
    ensures Inv(Do(p, Background(a)))
  {
    Loop.StepKeepsInv(p.sys, a);
    BackgroundEffect(p.sys, a);
    BackgroundWriting(p, a);
    if a.LoopStep? && a.ok && p.sys.loop.InWrite? {
      WriteIsReadable(p);
    }
    OnlySchedulerAndWriteChange(p, Do(p, Background(a)));
  }

  lemma OnlySchedulerAndWriteChange(p: Pipeline, p': Pipeline)
    requires Inv(p) && Loop.Inv(p'.sys) && WritingOk(p') && p' == p.(sys := p'.sys, writing := p'.writing)
    requires p'.sys.m.dirty == p.sys.m.dirty && p'.sys.flushes == p.sys.flushes
    requires p'.sys.m.durable <= BootSnapshot(p.dir).generation
    ensures Inv(p')
  {
    assert DirectoryOk(p');
  }

  lemma BackgroundWriting(p: Pipeline, a: Loop.Act)
    requires Inv(p) && Can(p, Background(a))
    ensures WritingOk(Do(p, Background(a)))
  {
    BackgroundEffect(p.sys, a);
    BackgroundTarget(p.sys, a);
  }

  lemma FileStepKeepsInv(p: Pipeline)
    requires Inv(p) && Can(p, FileStep)
    ensures Inv(Do(p, FileStep))
  {
    var w := p.writing.value;
    WrittenReadsNew(w.base, w.snapshot, w.cut + 1);
    if w.cut > 0 {
      WrittenReadsNew(w.base, w.snapshot, w.cut);
    }
  }

  lemma AskKeepsInv(p: Pipeline, id: nat)
    requires Inv(p) && Can(p, AskSnapshot(id))
    ensures Inv(Do(p, AskSnapshot(id)))
  {
    if Scheduler.StartOfFlush(p.sys.m).Waits? {
      FlushKeepsInv(p, id);
    } else if ImmediateAnswer(p).Sent? {
      assert p.engine.dirtyGeneration <= BootSnapshot(p.dir).generation;
    }
  }

  lemma FlushKeepsInv(p: Pipeline, id: nat)
    requires Inv(p) && Can(p, AskSnapshot(id)) && Scheduler.StartOfFlush(p.sys.m).Waits?
    ensures Inv(p.(sys := Loop.Do(p.sys, Loop.Flush(id)), waiting := p.waiting[id := p.engine.dirtyGeneration]))
  {
    Loop.StepKeepsInv(p.sys, Loop.Flush(id));
    FlushEffect(p.sys, id);
    OnlySchedulerChanges(p, Loop.Do(p.sys, Loop.Flush(id)), p.waiting[id := p.engine.dirtyGeneration]);
  }

  lemma OnlySchedulerChanges(p: Pipeline, sys: Loop.Sys, waiting: map<nat, nat>)
    requires Inv(p) && Loop.Inv(sys)
    requires sys.m.dirty == p.sys.m.dirty && sys.m.durable == p.sys.m.durable && sys.loop == p.sys.loop
    requires forall id :: id in waiting ==> id in sys.flushes && waiting[id] == sys.flushes[id]
    ensures Inv(p.(sys := sys, waiting := waiting))
  {
    var p' := p.(sys := sys, waiting := waiting);
    assert DirectoryOk(p') && WritingOk(p');
  }

  lemma FlushEffect(s: Loop.Sys, id: nat)
    requires Loop.Inv(s) && Loop.Can(s, Loop.Flush(id)) && Scheduler.StartOfFlush(s.m).Waits?
    ensures var s' := Loop.Do(s, Loop.Flush(id));
            && s'.m.dirty == s.m.dirty && s'.m.durable == s.m.durable && s'.loop == s.loop
            && s'.flushes == s.flushes[id := s.m.dirty]
  {}

  lemma ReturnKeepsInv(p: Pipeline, id: nat)
    requires Inv(p) && Can(p, SnapshotReturns(id))
    ensures Inv(Do(p, SnapshotReturns(id)))
  {
    Loop.StepKeepsInv(p.sys, Loop.FlushReturns(id));
  }

  lemma BootKeepsInv(dir: Directory, config: Scheduler.Config, clock: real, answered: set<nat>)
    requires Readable(dir) && Scheduler.ConfigOk(config)
    requires forall r :: r in answered ==> r <= BootSnapshot(dir).generation
    ensures Inv(Boot(dir, config, clock, answered))
  {}

  lemma StepKeepsInv(p: Pipeline, act: Act)
    requires Inv(p) && Can(p, act)
    ensures Inv(Do(p, act))
  {
    match act
    case EngineInput(input) => EngineKeepsInv(p, input);
    case Background(a) => BackgroundKeepsInv(p, a);
    case FileStep => FileStepKeepsInv(p);
    case AskSnapshot(id) => AskKeepsInv(p, id);
    case SnapshotReturns(id) => ReturnKeepsInv(p, id);
    case Crash => BootKeepsInv(p.dir, p.sys.config, p.sys.clock, p.answered);
  }

  // ----- runs -----

  ghost predicate CanRun(p: Pipeline, acts: seq<Act>)
    decreases |acts|
  {
    acts != [] ==> Can(p, acts[0]) && CanRun(Do(p, acts[0]), acts[1..])
  }

  ghost function Run(p: Pipeline, acts: seq<Act>): Pipeline
    requires CanRun(p, acts)
    decreases |acts|
  {
    if acts == [] then p else Run(Do(p, acts[0]), acts[1..])
  }

  lemma {:induction false} RunKeepsInv(p: Pipeline, acts: seq<Act>)
    requires Inv(p) && CanRun(p, acts)
    ensures Inv(Run(p, acts))
    decreases |acts|
  {
    if acts != [] {
      StepKeepsInv(p, acts[0]);
      RunKeepsInv(Do(p, acts[0]), acts[1..]);
    }
  }

  /** Once a snapshot request has been answered with success, the directory at every later moment, hence after a
      crash at any later point, loads a generation at least that of the engine when the request was made. */
  lemma AnsweredSnapshotsSurvive(
    dir: Directory, config: Scheduler.Config, clock: real, acts: seq<Act>, required: nat)
    requires Readable(dir) && Scheduler.ConfigOk(config) && CanRun(Boot(dir, config, clock, {}), acts)
    requires required in Run(Boot(dir, config, clock, {}), acts).answered
    ensures var files := Run(Boot(dir, config, clock, {}), acts).dir;
            && !Latest(files).Unreadable?
            && (required > 0 ==> Latest(files).Loaded? && Latest(files).snapshot.generation >= required)
  {
    RunIsOk(dir, config, clock, acts);
  }

  lemma RunIsOk(dir: Directory, config: Scheduler.Config, clock: real, acts: seq<Act>)
    requires Readable(dir) && Scheduler.ConfigOk(config) && CanRun(Boot(dir, config, clock, {}), acts)
    ensures Inv(Run(Boot(dir, config, clock, {}), acts))
  {
    BootKeepsInv(dir, config, clock, {});
    RunKeepsInv(Boot(dir, config, clock, {}), acts);
  }

  lemma RefusedExactly(p: Pipeline)
    requires Inv(p) && Scheduler.StartOfFlush(p.sys.m).AlreadyDurable?
    ensures ImmediateAnswer(p).PersistenceFailed?
       <==> p.engine.dirtyGeneration == p.bootGeneration && p.bootGeneration > 0
  {}

  /** Safe but not live: the manager starts at 0/0, so a request is refused exactly when this run of the service has
      accepted nothing while the loaded generation is not 0; a request that waited for its flush never is. */
  lemma SnapshotRefusedExactly(dir: Directory, config: Scheduler.Config, clock: real, acts: seq<Act>)
    requires Readable(dir) && Scheduler.ConfigOk(config) && CanRun(Boot(dir, config, clock, {}), acts)
    ensures var p := Run(Boot(dir, config, clock, {}), acts);
            && (Scheduler.StartOfFlush(p.sys.m).AlreadyDurable? ==>
                  (ImmediateAnswer(p).PersistenceFailed?
                   <==> p.engine.dirtyGeneration == p.bootGeneration && p.bootGeneration > 0))
            && (forall id :: id in p.waiting && p.sys.m.running && Loop.Can(p.sys, Loop.FlushReturns(id)) ==>
                  AnswerAfterFlush(p, id).Sent?)
  {
    RunIsOk(dir, config, clock, acts);
    var p := Run(Boot(dir, config, clock, {}), acts);
    if Scheduler.StartOfFlush(p.sys.m).AlreadyDurable? {
      RefusedExactly(p);
    }
  }
}
