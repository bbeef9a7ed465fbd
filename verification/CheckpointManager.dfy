/** The write scheduler of checkpoint.py: which generation still has to be written, and when. */
module CheckpointManager {
  import opened Wrappers

  datatype Config = Config(startDelay: real, deadline: real, backoff: seq<real>)

  /** What the constructor insists on. */
  predicate ConfigOk(c: Config) {
    && c.startDelay >= 0.0 && c.deadline >= 0.0
    && c.backoff != [] && forall i :: 0 <= i < |c.backoff| ==> c.backoff[i] >= 0.0
  }

  datatype Manager = Manager(
    dirty: nat,
    durable: nat,
    writeActive: bool,
    lastFailed: bool,
    nextRetryAt: Option<real>,
    firstDirtyAt: Option<real>,
    writeAt: Option<real>,
    retryIndex: nat,
    flushGeneration: nat,
    running: bool)

  const IDLE := Manager(0, 0, false, false, None, None, None, 0, 0, false)

  function Earlier(a: real, b: real): real {
    if a <= b then a else b
  }

  function Larger(a: nat, b: nat): nat {
    if a >= b then a else b
  }

  predicate Pending(m: Manager) {
    m.dirty > m.durable
  }

  /** A newer generation; only the first one after a clean state opens a new write window. */
  function Marked(c: Config, m: Manager, generation: nat, now: real): Manager {
    if generation <= m.dirty then m
    else
      var window :=
        if Pending(m) then m
        else if m.nextRetryAt.Some? then m.(firstDirtyAt := Some(now))
        else m.(firstDirtyAt := Some(now), writeAt := Some(Earlier(now + c.startDelay, now + c.deadline)));
      window.(dirty := generation)
  }

  function FlushRequested(m: Manager): Manager {
    m.(flushGeneration := Larger(m.flushGeneration, m.dirty))
  }

  /** A flush that nothing delays: it is due at whatever time one asks. */
  predicate Urgent(m: Manager) {
    !m.writeActive && Pending(m) && m.nextRetryAt.None? && m.flushGeneration > m.durable
  }

  function NextWriteTime(m: Manager, now: real): Option<real> {
    if m.writeActive || !Pending(m) then None
    else if m.nextRetryAt.Some? then m.nextRetryAt
    else if m.flushGeneration > m.durable then Some(now)
    else m.writeAt
  }

  function Begun(m: Manager): Manager {
    m.(writeActive := true)
  }

  function Succeeded(c: Config, m: Manager, target: nat, now: real): Manager {
    var durable := Larger(m.durable, target);
    var first := if m.firstDirtyAt.Some? then m.firstDirtyAt.value else now;
    m.(writeActive := false,
       durable := durable,
       lastFailed := false,
       nextRetryAt := None,
       retryIndex := 0,
       firstDirtyAt := if durable >= m.dirty then None else m.firstDirtyAt,
       writeAt := if durable >= m.dirty then None else Some(Earlier(now + c.startDelay, first + c.deadline)),
       flushGeneration := if durable >= m.flushGeneration then 0 else m.flushGeneration)
  }

  function Failed(c: Config, m: Manager, now: real): Manager
    requires ConfigOk(c)
  {
    var delay := c.backoff[if m.retryIndex < |c.backoff| then m.retryIndex else |c.backoff| - 1];
    m.(writeActive := false,
       lastFailed := true,
       retryIndex := m.retryIndex + 1,
       nextRetryAt := Some(now + delay))
  }

  function Ended(m: Manager): Manager {
    m.(running := false, writeActive := false)
  }

  datatype FlushStart = AlreadyDurable | NotRunning | Waits(target: nat)

  function StartOfFlush(m: Manager): FlushStart {
    if !Pending(m) then AlreadyDurable else if !m.running then NotRunning else Waits(m.dirty)
  }

  /** The object itself; each method is one critical section of its condition. `changed` is the event the run
      loop waits for. */
  class CheckpointManager {
    const config: Config
    var dirty: nat
    var durable: nat
    var writeActive: bool
    var lastFailed: bool
    var nextRetryAt: Option<real>
    var firstDirtyAt: Option<real>
    var writeAt: Option<real>
    var retryIndex: nat
    var flushGeneration: nat
    var running: bool
    var changed: bool

    function State(): Manager
      reads this
    {
      Manager(dirty, durable, writeActive, lastFailed, nextRetryAt, firstDirtyAt, writeAt, retryIndex,
              flushGeneration, running)
    }

    constructor (config: Config)
      requires ConfigOk(config)
      ensures this.config == config && State() == IDLE && !changed
    {
      this.config := config;
      dirty, durable, retryIndex, flushGeneration := 0, 0, 0, 0;
      writeActive, lastFailed, running, changed := false, false, false, false;
      nextRetryAt, firstDirtyAt, writeAt := None, None, None;
    }

    method MarkDirty(generation: nat, now: real)
      modifies this
      ensures State() == Marked(config, old(State()), generation, now)
      ensures changed == (old(changed) || generation > old(dirty))
    {
      if generation <= dirty {
        return;
      }
      var opensWindow := dirty <= durable;
      if opensWindow {
        firstDirtyAt := Some(now);
        if nextRetryAt.None? {
          writeAt := Some(Earlier(now + config.startDelay, now + config.deadline));
        }
      }
      dirty := generation;
      changed := true;
    }

    method BeginFlush() returns (start: FlushStart)
      modifies this
      ensures start == StartOfFlush(old(State()))
      ensures State() == if start.Waits? then FlushRequested(old(State())) else old(State())
      ensures changed == (old(changed) || start.Waits?)
    {
      var target := dirty;
      if target <= durable {
        return AlreadyDurable;
      }
      if !running {
        return NotRunning;
      }
      if flushGeneration < target {
        flushGeneration := target;
      }
      changed := true;
      return Waits(target);
    }

    method Due(now: real) returns (due: Option<real>)
      ensures due == NextWriteTime(State(), now)
    {
      if writeActive || dirty <= durable {
        return None;
      }
      if nextRetryAt.Some? {
        return nextRetryAt;
      }
      if flushGeneration > durable {
        return Some(now);
      }
      return writeAt;
    }

    method BeginWrite() returns (target: Option<nat>)
      modifies this
      ensures target == if old(writeActive) || !Pending(old(State())) then None else Some(old(dirty))
      ensures State() == if target.Some? then Begun(old(State())) else old(State())
      ensures changed == (old(changed) || target.Some?)
    {
      if writeActive || dirty <= durable {
        return None;
      }
      target := Some(dirty);
      writeActive := true;
      changed := true;
    }

    method EndWrite(ok: bool, target: nat, now: real)
      requires ConfigOk(config)
      modifies this
      ensures State() == if ok then Succeeded(config, old(State()), target, now) else Failed(config, old(State()), now)
      ensures changed
    {
      writeActive := false;
      if !ok {
        lastFailed := true;
        var last := |config.backoff| - 1;
        var delay := config.backoff[if retryIndex < last then retryIndex else last];
        retryIndex := retryIndex + 1;
        nextRetryAt := Some(now + delay);
      } else {
        if durable < target {
          durable := target;
        }
        lastFailed := false;
        nextRetryAt := None;
        retryIndex := 0;
        if durable >= dirty {
          firstDirtyAt := None;
          writeAt := None;
        } else {
          var first := if firstDirtyAt.Some? then firstDirtyAt.value else now;
          writeAt := Some(Earlier(now + config.startDelay, first + config.deadline));
        }
        if durable >= flushGeneration {
          flushGeneration := 0;
        }
      }
      changed := true;
    }
  }
}
