/** What a restarted service continues with: not only a recent generation, but a state the engine was really in. */
module DurabilityStates {
  import opened Wrappers
  import opened EngineState
  import opened CheckpointStore
  import opened CheckpointSafety
  import opened DurabilityPipeline
  import Scheduler = CheckpointManager
  import Loop = CheckpointLoop

  /** Every state the engine has been in on the way, over all restarts. */
  ghost function StatesOf(p: Pipeline, acts: seq<Act>): set<Snapshot>
    requires CanRun(p, acts)
    decreases |acts|
  {
    {p.engine.snapshot} + if acts == [] then {} else StatesOf(Do(p, acts[0]), acts[1..])
  }

  // What the directory would load is one of these states.
  ghost predicate Loads(dir: Directory, states: set<Snapshot>) {
    Latest(dir).Loaded? ==> Latest(dir).snapshot in states
  }

  ghost predicate StatesOk(p: Pipeline, states: set<Snapshot>) {
    && p.engine.snapshot in states && Loads(p.dir, states)
    && (p.writing.Some? ==>
          && p.writing.value.snapshot in states && Loads(p.writing.value.base, states)
          && p.dir == WriteAfter(p.writing.value.base, p.writing.value.snapshot, p.writing.value.cut))
  }

  lemma FileStepKeepsStates(p: Pipeline, states: set<Snapshot>)
    requires StatesOk(p, states) && Can(p, FileStep)
    ensures StatesOk(Do(p, FileStep), states)
  {
    var w := p.writing.value;
    CrashGivesOldOrNew(w.base, w.snapshot, w.cut + 1);
  }

  // The directory is as it was, and a write is the one before, none, or one that has just begun.
  ghost predicate SameFiles(p: Pipeline, p': Pipeline) {
    && p'.dir == p.dir
    && (p'.writing == p.writing || p'.writing.None? || p'.writing == Some(Write(p.engine.snapshot, p.dir, 0)))
  }

  lemma SameFilesKeepStates(p: Pipeline, p': Pipeline, states: set<Snapshot>)
    requires StatesOk(p, states) && SameFiles(p, p')
    ensures StatesOk(p', states + {p'.engine.snapshot})
  {
    assert forall d :: Loads(d, states) ==> Loads(d, states + {p'.engine.snapshot});
    if p'.writing == Some(Write(p.engine.snapshot, p.dir, 0)) {
      assert WriteAfter(p.dir, p.engine.snapshot, 0) == p.dir;
    }
  }

  lemma OtherActsKeepFiles(p: Pipeline, act: Act)
    requires Can(p, act) && !act.FileStep? && !act.Crash?
    ensures SameFiles(p, Do(p, act))
  {}

  // The service starts from what the directory loads, or from nothing.
  lemma BootState(dir: Directory, config: Scheduler.Config, clock: real, answered: set<nat>)
    requires !Latest(dir).Unreadable?
    ensures var boot := Boot(dir, config, clock, answered);
            && boot.writing.None? && boot.dir == dir
            && boot.engine.snapshot == if Latest(dir).Loaded? then Latest(dir).snapshot else Snapshot(0, [])
  {}

  lemma StepKeepsStates(p: Pipeline, act: Act, states: set<Snapshot>)
    requires Inv(p) && StatesOk(p, states) && Can(p, act)
    ensures StatesOk(Do(p, act), states + {Do(p, act).engine.snapshot})
  {
    if act.FileStep? {
      FileStepKeepsStates(p, states);
    } else if act.Crash? {
      BootState(p.dir, p.sys.config, p.sys.clock, p.answered);
    } else {
      OtherActsKeepFiles(p, act);
      SameFilesKeepStates(p, Do(p, act), states);
    }
  }

  lemma MoreStates(p: Pipeline, few: set<Snapshot>, many: set<Snapshot>)
    requires StatesOk(p, few) && few <= many
    ensures StatesOk(p, many)
  {}

  lemma {:induction false} RunKeepsStates(p: Pipeline, acts: seq<Act>, states: set<Snapshot>)
    requires Inv(p) && CanRun(p, acts) && StatesOk(p, states)
    ensures StatesOk(Run(p, acts), states + StatesOf(p, acts))
    decreases |acts|
  {
    if acts == [] {
      MoreStates(p, states, states + StatesOf(p, acts));
    } else {
      var p' := Do(p, acts[0]);
      StepKeepsStates(p, acts[0], states);
      StepKeepsInv(p, acts[0]);
      RunKeepsStates(p', acts[1..], states + {p'.engine.snapshot});
      MoreStates(Run(p, acts), states + {p'.engine.snapshot} + StatesOf(p', acts[1..]), states + StatesOf(p, acts));
    }
  }

  /** Whenever the service is restarted, it continues with a state the engine was in before, shells and all, and one of at
      least the generation of every snapshot request it had answered with success. */
  lemma RestartContinuesARealState(
    dir: Directory, config: Scheduler.Config, clock: real, acts: seq<Act>, required: nat)
    requires Readable(dir) && Scheduler.ConfigOk(config) && CanRun(Boot(dir, config, clock, {}), acts)
    ensures var p := Run(Boot(dir, config, clock, {}), acts);
            var again := Boot(p.dir, config, clock, p.answered);
            && (Latest(p.dir).Loaded? ==> again.engine.snapshot in StatesOf(Boot(dir, config, clock, {}), acts))
            && (Latest(p.dir).Nothing? ==> again.engine.snapshot == Snapshot(0, []))
            && again.engine.registrations == map[]
            && (required in p.answered ==> again.engine.snapshot.generation >= required)
  {
    var boot := Boot(dir, config, clock, {});
    BootKeepsInv(dir, config, clock, {});
    BootState(dir, config, clock, {});
    RunKeepsStates(boot, acts, {boot.engine.snapshot});
    var p := Run(boot, acts);
    RunIsOk(dir, config, clock, acts);
    BootState(p.dir, config, clock, p.answered);
    if required in p.answered {
      AnsweredSnapshotsSurvive(dir, config, clock, acts, required);
    }
    FirstState(boot, acts);
  }

  lemma FirstState(p: Pipeline, acts: seq<Act>)
    requires CanRun(p, acts)
    ensures {p.engine.snapshot} + StatesOf(p, acts) == StatesOf(p, acts)
  {}
}
