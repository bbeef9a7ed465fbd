/**
 The run loop of checkpoint.py interleaved with everything that may happen around it: marks, flushes, the passage
 of time and a stop request. The loop can be interrupted wherever it awaits.
 */
module CheckpointLoop {
  import opened Wrappers
  import opened CheckpointManager

  datatype Loop =
    | Off
    | Top
    | Cleared // the change event has been cleared, the due time not yet read
    | Observed(due: Option<real>, at: real)
    | Parked(due: Option<real>)
    | InWrite(target: nat)

  datatype Sys = Sys(
    config: Config,
    m: Manager,
    changed: bool,
    stop: bool,
    loop: Loop,
    clock: real,
    flushes: map<nat, nat>, // waiting flushes and the generation each waits for
    marks: map<nat, real>) // when each marked generation was marked

  datatype Act =
    | Tick(to: real)
    | Mark(generation: nat)
    | Flush(id: nat)
    | FlushReturns(id: nat)
    | Stop
    | StartLoop
    // `ok` says how a write in progress ends; `timer`, that a timer firing together with the change event is seen alone
    | LoopStep(ok: bool, timer: bool)

  function Boot(config: Config, clock: real): Sys {
    Sys(config, IDLE, false, false, Off, clock, map[], map[])
  }

  predicate Can(s: Sys, act: Act) {
    match act
    case Tick(to) => to >= s.clock
    case Mark(_) => true
    case Flush(id) => id !in s.flushes
    case FlushReturns(id) => id in s.flushes && (s.m.durable >= s.flushes[id] || !s.m.running)
    case Stop => true
    case StartLoop => s.loop.Off? && !s.m.running
    case LoopStep(ok, _) =>
      && !s.loop.Off?
      && (s.loop.Parked? ==>
            s.changed || s.stop || (s.loop.due.Some? && s.clock >= s.loop.due.value))
      && (s.loop.InWrite? && !ok ==> ConfigOk(s.config))
  }

  function Leave(s: Sys): Sys {
    s.(loop := Off, m := Ended(s.m), changed := true)
  }

  function StartWrite(s: Sys): Sys {
    if s.m.writeActive || !Pending(s.m) then s.(loop := Top)
    else s.(loop := InWrite(s.m.dirty), m := Begun(s.m), changed := true)
  }

  function LoopNext(s: Sys, ok: bool, timer: bool): Sys
    requires Can(s, LoopStep(ok, timer))
  {
    match s.loop
    case Top => if s.stop then Leave(s) else s.(loop := Cleared, changed := false)
    case Cleared => s.(loop := Observed(NextWriteTime(s.m, s.clock), s.clock))
    case Observed(due, _) =>
      if due.None? then s.(loop := if s.changed || s.stop then Top else Parked(None))
      else if due.value > s.clock then
        if s.stop then Leave(s) else s.(loop := if s.changed then Top else Parked(due))
      else if s.stop then Leave(s)
      else StartWrite(s)
    case Parked(due) =>
      if due.None? then s.(loop := Top)
      else if s.stop then Leave(s)
      else if s.changed && !(timer && due.value <= s.clock) then s.(loop := Top)
      else StartWrite(s)
    case InWrite(target) =>
      s.(loop := Top,
         changed := true,
         m := if ok then Succeeded(s.config, s.m, target, s.clock) else Failed(s.config, s.m, s.clock))
  }

  function Do(s: Sys, act: Act): Sys
    requires Can(s, act)
  {
    match act
    case Tick(to) => s.(clock := to)
    case Mark(g) =>
      if g <= s.m.dirty then s
      else s.(m := Marked(s.config, s.m, g, s.clock), changed := true, marks := s.marks[g := s.clock])
    case Flush(id) =>
      var start := StartOfFlush(s.m);
      if start.Waits? then
        s.(m := FlushRequested(s.m), changed := true, flushes := s.flushes[id := start.target])
      else s
    case FlushReturns(id) => s.(flushes := s.flushes - {id})
    case Stop => s.(stop := true)
    case StartLoop => s.(loop := Top, m := s.m.(running := true), changed := true)
    case LoopStep(ok, timer) => LoopNext(s, ok, timer)
  }

  // ----- the invariant -----

  predicate CountersOk(s: Sys) {
    && s.m.durable <= s.m.dirty && s.m.flushGeneration <= s.m.dirty
    && (s.m.running <==> !s.loop.Off?)
    && (s.m.writeActive <==> s.loop.InWrite?)
    && (s.loop.InWrite? ==> s.m.durable < s.loop.target <= s.m.dirty)
    && (s.m.nextRetryAt.Some? ==> Pending(s.m))
  }

  /** Every waiting flush is served already or known to the scheduler. */
  predicate FlushesKnown(s: Sys) {
    forall id :: id in s.flushes ==>
      s.flushes[id] <= s.m.dirty && (s.flushes[id] <= s.m.durable || s.flushes[id] <= s.m.flushGeneration)
  }

  /** What the loop observed still stands, unless the change event is set. */
  predicate ObservationStands(s: Sys) {
    && (s.loop.Observed? && !s.changed ==> s.loop.at <= s.clock && NextWriteTime(s.m, s.loop.at) == s.loop.due)
    && (s.loop.Parked? && !s.changed ==> !Urgent(s.m) && NextWriteTime(s.m, s.clock) == s.loop.due)
    && (s.loop.Observed? ==> s.loop.at <= s.clock)
  }

  /** The write window opens no later than any pending mark and closes within the deadline. */
  predicate WindowOk(s: Sys) {
    && (forall g :: g in s.marks ==> g <= s.m.dirty && s.marks[g] <= s.clock)
    && (Pending(s.m) ==>
          && s.m.firstDirtyAt.Some? && s.m.writeAt.Some?
          && s.m.firstDirtyAt.value <= s.clock
          && s.m.writeAt.value <= s.m.firstDirtyAt.value + s.config.deadline
          && forall g :: g in s.marks && g > s.m.durable ==> s.m.firstDirtyAt.value <= s.marks[g])
  }

  predicate Inv(s: Sys) {
    ConfigOk(s.config) && CountersOk(s) && FlushesKnown(s) && ObservationStands(s) && WindowOk(s)
  }

  lemma WriteEndKeepsInv(s: Sys, ok: bool, timer: bool)
    requires Inv(s) && s.loop.InWrite?
    ensures Inv(LoopNext(s, ok, timer))
  {
    var s' := LoopNext(s, ok, timer);
    assert FlushesKnown(s');
    assert WindowOk(s');
  }

  lemma LeaveKeepsInv(s: Sys)
    requires Inv(s) && !s.loop.InWrite?
    ensures Inv(Leave(s))
  {}

  lemma StartWriteKeepsInv(s: Sys)
    requires Inv(s) && !s.loop.Off? && !s.loop.InWrite?
    ensures Inv(StartWrite(s))
  {}

  lemma LoopKeepsInv(s: Sys, ok: bool, timer: bool)
    requires Inv(s) && Can(s, LoopStep(ok, timer))
    ensures Inv(LoopNext(s, ok, timer))
  {
    var s' := LoopNext(s, ok, timer);
    if s.loop.InWrite? {
      WriteEndKeepsInv(s, ok, timer);
    } else if s' == Leave(s) {
      LeaveKeepsInv(s);
    } else if s' == StartWrite(s) {
      StartWriteKeepsInv(s);
    } else {
      assert s' == s.(loop := s'.loop, changed := s'.changed);
      MoveKeepsInv(s, s'.loop, s'.changed);
    }
  }

  lemma MoveKeepsInv(s: Sys, loop: Loop, changed: bool)
    requires Inv(s) && !s.loop.Off? && !s.loop.InWrite? && !loop.Off? && !loop.InWrite?
    requires ObservationStands(s.(loop := loop, changed := changed))
    ensures Inv(s.(loop := loop, changed := changed))
  {}

  lemma MarkKeepsInv(s: Sys, generation: nat)
    requires Inv(s)
    ensures Inv(Do(s, Mark(generation)))
  {
    var s' := Do(s, Mark(generation));
    assert FlushesKnown(s');
    assert WindowOk(s');
  }

  lemma FlushKeepsInv(s: Sys, id: nat)
    requires Inv(s) && Can(s, Flush(id))
    ensures Inv(Do(s, Flush(id)))
  {
    var s' := Do(s, Flush(id));
    assert FlushesKnown(s');
    assert WindowOk(s');
  }

  lemma OtherActsKeepInv(s: Sys, act: Act)
    requires Inv(s) && Can(s, act) && !act.Mark? && !act.Flush? && !act.LoopStep?
    ensures Inv(Do(s, act))
  {}

  lemma StepKeepsInv(s: Sys, act: Act)
    requires Inv(s) && Can(s, act)
    ensures Inv(Do(s, act))
  {
    match act
    case LoopStep(ok, timer) => LoopKeepsInv(s, ok, timer);
    case Mark(generation) => MarkKeepsInv(s, generation);
    case Flush(id) => FlushKeepsInv(s, id);
    case _ => OtherActsKeepInv(s, act);
  }

  // ----- runs -----

  predicate CanRun(s: Sys, acts: seq<Act>)
    decreases |acts|
  {
    acts != [] ==> Can(s, acts[0]) && CanRun(Do(s, acts[0]), acts[1..])
  }

  function Run(s: Sys, acts: seq<Act>): Sys
    requires CanRun(s, acts)
    decreases |acts|
  {
    if acts == [] then s else Run(Do(s, acts[0]), acts[1..])
  }

  lemma {:induction false} RunKeepsInv(s: Sys, acts: seq<Act>)
    requires Inv(s) && CanRun(s, acts)
    ensures Inv(Run(s, acts))
    decreases |acts|
  {
    if acts != [] {
      StepKeepsInv(s, acts[0]);
      RunKeepsInv(Do(s, acts[0]), acts[1..]);
    }
  }

  /** No wakeup is lost: a loop parked without a pending change event waits for exactly the time the scheduler would
      give it at any moment, and a flush can only be waiting beside it during a retry backoff. */
  lemma NoLostWakeup(config: Config, clock: real, acts: seq<Act>, later: real)
    requires ConfigOk(config) && CanRun(Boot(config, clock), acts)
    requires var s := Run(Boot(config, clock), acts); s.loop.Parked? && !s.changed
    ensures var s := Run(Boot(config, clock), acts);
            && NextWriteTime(s.m, later) == s.loop.due
            && (forall id :: id in s.flushes && s.flushes[id] > s.m.durable ==>
                  s.m.nextRetryAt.Some? && s.loop.due == s.m.nextRetryAt)
  {
    RunKeepsInv(Boot(config, clock), acts);
  }

  /** Every waiting flush is already durable or counted into the generation the loop is told to write at once. */
  lemma WaitingFlushesAreKnown(config: Config, clock: real, acts: seq<Act>, id: nat)
    requires ConfigOk(config) && CanRun(Boot(config, clock), acts)
    requires id in Run(Boot(config, clock), acts).flushes
    ensures var s := Run(Boot(config, clock), acts);
            s.flushes[id] <= s.m.durable || s.flushes[id] <= s.m.flushGeneration
  {
    RunKeepsInv(Boot(config, clock), acts);
  }

  /** The durability delay is bounded: the scheduled write time is at most the deadline after the mark of any generation
      that is not durable yet, and unless a retry backoff is set or a write is running that is when the next write is
      due, if not at once. A backoff exists only while something is pending. */
  lemma PendingWorkIsDueInTime(config: Config, clock: real, acts: seq<Act>, g: nat)
    requires ConfigOk(config) && CanRun(Boot(config, clock), acts)
    ensures var s := Run(Boot(config, clock), acts);
            && (s.m.nextRetryAt.Some? ==> s.m.dirty > s.m.durable)
            && (g in s.marks && g > s.m.durable ==>
                  && s.m.writeAt.Some? && s.m.writeAt.value <= s.marks[g] + config.deadline
                  && (s.m.nextRetryAt.None? && !s.m.writeActive ==>
                        var due := NextWriteTime(s.m, s.clock);
                        due.Some? && (due.value <= s.marks[g] + config.deadline || due.value <= s.clock)))
  {
    RunKeepsInv(Boot(config, clock), acts);
    RunKeepsConfig(Boot(config, clock), acts);
  }

  lemma {:induction false} RunKeepsConfig(s: Sys, acts: seq<Act>)
    requires CanRun(s, acts)
    ensures Run(s, acts).config == s.config
    decreases |acts|
  {
    if acts != [] {
      RunKeepsConfig(Do(s, acts[0]), acts[1..]);
    }
  }

  /** A mark while work is pending changes no schedule: later events never postpone an earlier one. */
  lemma LaterMarksNeverPostpone(c: Config, m: Manager, generation: nat, now: real, at: real)
    requires Pending(m)
    ensures NextWriteTime(Marked(c, m, generation, now), at) == NextWriteTime(m, at)
    ensures Marked(c, m, generation, now).writeAt == m.writeAt
  {}

  // ----- progress: a flush is served -----

  // Nothing holds a write back any more.
  predicate Unhindered(s: Sys) {
    !s.stop && !s.loop.Off? && (s.m.nextRetryAt.Some? ==> s.m.nextRetryAt.value <= s.clock)
  }

  // What can happen while writes succeed and nobody stops the loop.
  predicate Favourable(act: Act) {
    !act.Stop? && (act.LoopStep? ==> act.ok)
  }

  /** How many loop steps at most until the flushed generation `g` is durable. */
  function StepsLeft(s: Sys, g: nat): nat {
    if g <= s.m.durable then 0
    else match s.loop
      case Off => 5
      case Top => 4
      case Cleared => 3
      case Observed(due, _) => if due.Some? && due.value <= s.clock then 2 else 5
      case Parked(due) => 5
      case InWrite(target) => if g <= target then 1 else 5
  }

  predicate Flushed(s: Sys, g: nat) {
    g <= s.m.durable || g <= s.m.flushGeneration
  }

  lemma FavourableStep(s: Sys, act: Act, g: nat)
    requires Inv(s) && Can(s, act) && Unhindered(s) && Flushed(s, g) && Favourable(act)
    ensures var s' := Do(s, act);
            && Unhindered(s') && Flushed(s', g)
            && StepsLeft(s', g) <= StepsLeft(s, g)
            && (act.LoopStep? && g > s.m.durable ==> StepsLeft(s', g) < StepsLeft(s, g))
  {
    if act.LoopStep? {
      FavourableLoopStep(s, act.timer, g);
    }
  }

  lemma FavourableLoopStep(s: Sys, timer: bool, g: nat)
    requires Inv(s) && Can(s, LoopStep(true, timer)) && Unhindered(s) && Flushed(s, g)
    ensures var s' := LoopNext(s, true, timer);
            && Unhindered(s') && Flushed(s', g)
            && StepsLeft(s', g) <= StepsLeft(s, g)
            && (g > s.m.durable ==> StepsLeft(s', g) < StepsLeft(s, g))
  {
    if g > s.m.durable && s.loop.Cleared? {
      var due := NextWriteTime(s.m, s.clock);
      assert due.Some? && due.value <= s.clock;
    }
  }

  function LoopSteps(acts: seq<Act>): nat {
    if acts == [] then 0 else (if acts[0].LoopStep? then 1 else 0) + LoopSteps(acts[1..])
  }

  lemma {:induction false} ServedAfter(s: Sys, acts: seq<Act>, g: nat)
    requires Inv(s) && CanRun(s, acts) && Unhindered(s) && Flushed(s, g)
    requires forall act :: act in acts ==> Favourable(act)
    ensures Flushed(Run(s, acts), g) && Unhindered(Run(s, acts))
    ensures StepsLeft(Run(s, acts), g) == 0 || StepsLeft(Run(s, acts), g) + LoopSteps(acts) <= StepsLeft(s, g)
    decreases |acts|
  {
    if acts != [] {
      var s' := Do(s, acts[0]);
      FavourableStep(s, acts[0], g);
      StepKeepsInv(s, acts[0]);
      ServedAfter(s', acts[1..], g);
    }
  }

  /** A waiting flush is served: once a retry backoff, if one is set, has run out, then whatever is marked, flushed or
      ticks by in between, five successful loop steps make its generation durable, and until then a step is enabled. */
  lemma FlushIsServed(config: Config, clock: real, before: seq<Act>, acts: seq<Act>, id: nat)
    requires ConfigOk(config) && CanRun(Boot(config, clock), before)
    requires var s := Run(Boot(config, clock), before);
             Unhindered(s) && id in s.flushes && CanRun(s, acts) && forall act :: act in acts ==> Favourable(act)
    ensures var s := Run(Boot(config, clock), before);
            && (LoopSteps(acts) >= 5 ==> s.flushes[id] <= Run(s, acts).m.durable)
            && (s.flushes[id] > Run(s, acts).m.durable ==> Can(Run(s, acts), LoopStep(true, false)))
  {
    RunKeepsInv(Boot(config, clock), before);
    var s := Run(Boot(config, clock), before);
    ServedAfter(s, acts, s.flushes[id]);
    RunKeepsInv(s, acts);
  }
}
