/**
 When the run loop writes, by what has happened rather than by the scheduler's fields: the failures in a row, the
 opening of the write window, the flushes asked for and the stop request.
 */
module CheckpointTiming {
  import opened Wrappers
  import opened CheckpointManager
  import opened CheckpointLoop

  /** What matters of the past. */
  datatype Past = Past(
    failures: nat, // writes that have failed since the last one that succeeded
    failedAt: real, // when the last of them ended
    openedAt: real, // the mark that found everything durable
    base: real, // that, or the end of a later write that left something pending
    asked: nat) // the highest generation a flush has waited for

  function Later(p: Past, s: Sys, act: Act): Past
    requires Can(s, act)
  {
    match act
    case LoopStep(ok, _) =>
      if !s.loop.InWrite? then p
      else if !ok then p.(failures := p.failures + 1, failedAt := s.clock)
      else p.(failures := 0, base := s.clock)
    case Mark(generation) =>
      if generation > s.m.dirty && s.m.dirty <= s.m.durable then p.(openedAt := s.clock, base := s.clock) else p
    case Flush(_) =>
      if s.m.dirty > s.m.durable && s.m.running && s.m.dirty > p.asked then p.(asked := s.m.dirty) else p
    case _ => p
  }

  function PastOf(p: Past, s: Sys, acts: seq<Act>): Past
    requires CanRun(s, acts)
    decreases |acts|
  {
    if acts == [] then p else PastOf(Later(p, s, acts[0]), Do(s, acts[0]), acts[1..])
  }

  const NO_PAST := Past(0, 0.0, 0.0, 0.0, 0)

  /** The n-th delay of the configured backoff, or the last one if there are fewer. */
  function Delay(c: Config, n: nat): real
    requires c.backoff != [] && n > 0
  {
    if n <= |c.backoff| then c.backoff[n - 1] else c.backoff[|c.backoff| - 1]
  }

  /** The end of the write window: the start delay after its last restart, at most the deadline after it opened. */
  function WindowEnd(c: Config, p: Past): real {
    var quiet, latest := p.base + c.startDelay, p.openedAt + c.deadline;
    if quiet <= latest then quiet else latest
  }

  // ----- the scheduler's fields say the same -----

  predicate RetryOk(s: Sys, p: Past)
    requires s.config.backoff != []
  {
    && s.m.retryIndex == p.failures
    && (s.m.lastFailed <==> p.failures > 0)
    && s.m.nextRetryAt == if p.failures == 0 then None else Some(p.failedAt + Delay(s.config, p.failures))
  }

  predicate FieldsOk(s: Sys, p: Past)
    requires s.config.backoff != []
  {
    && RetryOk(s, p)
    && (Pending(s.m) ==> s.m.firstDirtyAt == Some(p.openedAt) && s.m.writeAt == Some(WindowEnd(s.config, p)))
    && (s.m.flushGeneration > s.m.durable <==> p.asked > s.m.durable)
    && (s.m.flushGeneration > s.m.durable ==> s.m.flushGeneration == p.asked)
  }

  /** The time the past calls for, unless nothing is pending or a flush hurries. */
  function Called(s: Sys, p: Past): real
    requires s.config.backoff != []
  {
    if p.failures > 0 then p.failedAt + Delay(s.config, p.failures) else WindowEnd(s.config, p)
  }

  predicate Hurried(s: Sys, p: Past) {
    p.failures == 0 && p.asked > s.m.durable
  }

  // A due time the loop has read is the one called for, unless a flush hurries.
  predicate ReadOk(s: Sys, p: Past)
    requires s.config.backoff != []
  {
    && (s.loop.Observed? && s.loop.due.Some? && !Hurried(s, p) ==> s.loop.due.value == Called(s, p))
    && (s.loop.Parked? && s.loop.due.Some? && !Hurried(s, p) ==> s.loop.due.value == Called(s, p))
    && (s.loop.Observed? && s.loop.due.Some? ==> Pending(s.m))
    && (s.loop.Parked? && s.loop.due.Some? ==> Pending(s.m))
  }

  predicate TimingInv(s: Sys, p: Past) {
    Inv(s) && FieldsOk(s, p) && ReadOk(s, p)
  }

  lemma WriteEndKeepsTiming(s: Sys, p: Past, ok: bool, timer: bool)
    requires TimingInv(s, p) && s.loop.InWrite?
    ensures TimingInv(LoopNext(s, ok, timer), Later(p, s, LoopStep(ok, timer)))
  {
    WriteEndKeepsInv(s, ok, timer);
  }

  lemma ReadingKeepsTiming(s: Sys, p: Past)
    requires TimingInv(s, p) && s.loop.Cleared?
    ensures ReadOk(s.(loop := Observed(NextWriteTime(s.m, s.clock), s.clock)), p)
  {}

  // Outside a write the loop only notes that it writes or has left.
  lemma LoopKeepsSchedule(s: Sys, ok: bool, timer: bool)
    requires Can(s, LoopStep(ok, timer)) && !s.loop.InWrite?
    ensures var s' := LoopNext(s, ok, timer);
            && s'.config == s.config
            && s'.m == s.m.(running := s'.m.running, writeActive := s'.m.writeActive)
  {}

  lemma LoopKeepsFields(s: Sys, p: Past, ok: bool, timer: bool)
    requires s.config.backoff != [] && FieldsOk(s, p) && Can(s, LoopStep(ok, timer)) && !s.loop.InWrite?
    ensures LoopNext(s, ok, timer).config == s.config && FieldsOk(LoopNext(s, ok, timer), p)
  {
    LoopKeepsSchedule(s, ok, timer);
  }

  lemma LoopKeepsReadings(s: Sys, p: Past, ok: bool, timer: bool)
    requires TimingInv(s, p) && Can(s, LoopStep(ok, timer)) && !s.loop.InWrite? && !s.loop.Cleared?
    ensures ReadOk(LoopNext(s, ok, timer), p)
  {}

  lemma LoopKeepsTiming(s: Sys, p: Past, ok: bool, timer: bool)
    requires TimingInv(s, p) && Can(s, LoopStep(ok, timer)) && !s.loop.InWrite?
    ensures TimingInv(LoopNext(s, ok, timer), p)
  {
    LoopKeepsInv(s, ok, timer);
    LoopKeepsFields(s, p, ok, timer);
    if s.loop.Cleared? {
      ReadingKeepsTiming(s, p);
    } else {
      LoopKeepsReadings(s, p, ok, timer);
    }
  }

  lemma MarkKeepsTiming(s: Sys, p: Past, generation: nat)
    requires TimingInv(s, p)
    ensures FieldsOk(Do(s, Mark(generation)), Later(p, s, Mark(generation)))
    ensures ReadOk(Do(s, Mark(generation)), Later(p, s, Mark(generation)))
  {}

  lemma FlushKeepsTiming(s: Sys, p: Past, id: nat)
    requires TimingInv(s, p) && Can(s, Flush(id))
    ensures FieldsOk(Do(s, Flush(id)), Later(p, s, Flush(id))) && ReadOk(Do(s, Flush(id)), Later(p, s, Flush(id)))
  {}

  lemma OtherKeepsTiming(s: Sys, p: Past, act: Act)
    requires TimingInv(s, p) && Can(s, act) && !act.LoopStep?
    ensures TimingInv(Do(s, act), Later(p, s, act))
  {
    StepKeepsInv(s, act);
    match act
    case Mark(generation) => MarkKeepsTiming(s, p, generation);
    case Flush(id) => FlushKeepsTiming(s, p, id);
    case _ =>
  }

  lemma {:induction false} RunKeepsTiming(s: Sys, p: Past, acts: seq<Act>)
    requires TimingInv(s, p) && CanRun(s, acts)
    ensures TimingInv(Run(s, acts), PastOf(p, s, acts))
    decreases |acts|
  {
    if acts != [] {
      match acts[0] {
        case LoopStep(ok, timer) =>
          if s.loop.InWrite? {
            WriteEndKeepsTiming(s, p, ok, timer);
          } else {
            LoopKeepsTiming(s, p, ok, timer);
          }
        case _ => OtherKeepsTiming(s, p, acts[0]);
      }
      RunKeepsTiming(Do(s, acts[0]), Later(p, s, acts[0]), acts[1..]);
    }
  }

  // ----- when a write begins -----

  predicate Begins(s: Sys, act: Act)
    requires Can(s, act)
  {
    !s.loop.InWrite? && Do(s, act).loop.InWrite?
  }

  lemma BeginsInTime(s: Sys, p: Past, act: Act)
    requires TimingInv(s, p) && Can(s, act) && Begins(s, act)
    ensures Pending(s.m) && !s.stop && (Hurried(s, p) || s.clock >= Called(s, p))
  {}

  /** After the n-th failure in a row, ending at some time, no write begins before that time plus the n-th backoff delay,
      or the last one if there are fewer, whatever is flushed meanwhile; a success sets the count back. Without failures,
      and unless a flush waits, none begins before the write window ends. None begins with nothing to write or after a
      stop request. */
  lemma NoWriteBeginsEarly(config: Config, clock: real, acts: seq<Act>, act: Act)
    requires ConfigOk(config) && CanRun(Boot(config, clock), acts) && Can(Run(Boot(config, clock), acts), act)
    requires Begins(Run(Boot(config, clock), acts), act)
    ensures var s, p := Run(Boot(config, clock), acts), PastOf(NO_PAST, Boot(config, clock), acts);
            && s.m.dirty > s.m.durable && !s.stop
            && (p.failures > 0 ==> s.clock >= p.failedAt + Delay(config, p.failures))
            && (p.failures == 0 && p.asked <= s.m.durable ==> s.clock >= WindowEnd(config, p))
  {
    RunKeepsTiming(Boot(config, clock), NO_PAST, acts);
    RunKeepsConfig(Boot(config, clock), acts);
    BeginsInTime(Run(Boot(config, clock), acts), PastOf(NO_PAST, Boot(config, clock), acts), act);
  }

  /** And that is exactly when it is due, while something is pending and no write is running. */
  lemma WritesAreDueExactly(config: Config, clock: real, acts: seq<Act>, now: real)
    requires ConfigOk(config) && CanRun(Boot(config, clock), acts)
    ensures var s, p := Run(Boot(config, clock), acts), PastOf(NO_PAST, Boot(config, clock), acts);
            NextWriteTime(s.m, now)
            == if s.loop.InWrite? || s.m.dirty <= s.m.durable then None
               else if p.failures > 0 then Some(p.failedAt + Delay(config, p.failures))
               else if p.asked > s.m.durable then Some(now)
               else Some(WindowEnd(config, p))
  {
    RunKeepsTiming(Boot(config, clock), NO_PAST, acts);
    RunKeepsConfig(Boot(config, clock), acts);
  }

  // ----- the stop request -----

  function StepsToStop(loop: Loop): nat {
    match loop
    case Off => 0
    case Top => 1
    case Cleared => 3
    case _ => 2
  }

  lemma {:induction false} StopsAfter(s: Sys, acts: seq<Act>)
    requires ConfigOk(s.config) && s.stop && CanRun(s, acts) && forall act :: act in acts ==> !act.StartLoop?
    ensures Run(s, acts).stop && ConfigOk(Run(s, acts).config)
    ensures StepsToStop(Run(s, acts).loop) == 0 || StepsToStop(Run(s, acts).loop) + LoopSteps(acts) <= StepsToStop(s.loop)
    decreases |acts|
  {
    if acts != [] {
      StopsAfter(Do(s, acts[0]), acts[1..]);
    }
  }

  /** After a stop request the loop is through in at most three steps of its own, each of which it can take, and begins no
      write. */
  lemma StopIsHonoured(config: Config, clock: real, before: seq<Act>, acts: seq<Act>)
    requires ConfigOk(config) && CanRun(Boot(config, clock), before) && Run(Boot(config, clock), before).stop
    requires CanRun(Run(Boot(config, clock), before), acts) && forall act :: act in acts ==> !act.StartLoop?
    ensures var s := Run(Boot(config, clock), before);
            var s' := Run(s, acts);
            && (LoopSteps(acts) >= 3 ==> s'.loop.Off?)
            && (!s'.loop.Off? ==> forall ok, timer :: Can(s', LoopStep(ok, timer)))
            && (!s'.loop.Off? ==> forall ok, timer :: !Begins(s', LoopStep(ok, timer)))
  {
    var s := Run(Boot(config, clock), before);
    RunKeepsConfig(Boot(config, clock), before);
    StopsAfter(s, acts);
  }
}
