/** The shell-side bridge of bridge.py: one frame in, at most one registration and one event out. */
module Bridge {
  import opened Wrappers
  import opened EngineState

  const RETRY_DELAYS: seq<real> := [0.05, 0.1, 0.25, 0.5, 1.0]

  // Who the bridge speaks for; never changes while it runs.
  datatype Client = Client(shell: ShellId, identity: Identity, adapter: string)

  datatype LocalEvent = LocalEvent(shell: ShellId, operation: Operation)

  // What an exchange ends with; Lost is a timeout, a closed stream or a reply that cannot be parsed.
  datatype Reply =
    | Registered(capability: Capability, resume: int)
    | Accepted(sequence: nat)
    | Error
    | Lost

  datatype BridgeState = BridgeState(
    capability: Option<Capability>,
    nextSequence: nat,
    cwd: Option<string>,
    retryIndex: nat,
    retryAt: real)

  const FIRST_STATE := BridgeState(None, 1, None, 0, 0.0)

  datatype FrameStart = Dropped | NeedsRegistration | Sends(request: EventRequest)

  function Min(a: nat, b: nat): nat {
    if a < b then a else b
  }

  function Noted(b: BridgeState, op: Operation): BridgeState {
    if op.PromptReady? || op.CwdChanged? then b.(cwd := Some(op.cwd)) else b
  }

  function EventOf(c: Client, b: BridgeState, op: Operation): EventRequest
    requires b.capability.Some?
  {
    EventRequest(op, c.shell, b.capability.value, c.identity, b.nextSequence)
  }

  /** What a frame makes the bridge send first, once its directory has been noted. */
  function StartFrame(c: Client, b: BridgeState, event: LocalEvent, now: real): FrameStart {
    if event.shell != c.shell || b.cwd.None? || now < b.retryAt then Dropped
    else if b.capability.None? then NeedsRegistration
    else Sends(EventOf(c, b, event.operation))
  }

  function RegistrationOf(c: Client, b: BridgeState): RegisterRequest
    requires b.cwd.Some?
  {
    RegisterRequest(c.shell, c.identity, c.adapter, b.cwd.value, 0)
  }

  predicate Adoptable(reply: Reply) {
    reply.Registered? && 32 <= |reply.capability| <= 128
  }

  /** Resume right after the sequence the service last accepted. */
  function Adopt(b: BridgeState, reply: Reply): BridgeState
    requires Adoptable(reply)
  {
    b.(capability := Some(reply.capability),
       nextSequence := (if reply.resume < 0 then 0 else reply.resume) + 1,
       retryIndex := 0,
       retryAt := 0.0)
  }

  function Acknowledge(b: BridgeState): BridgeState {
    b.(nextSequence := b.nextSequence + 1)
  }

  /** A failed exchange drops the capability and keeps the sequence. */
  function Fail(b: BridgeState, now: real): BridgeState {
    b.(capability := None,
       retryAt := now + RETRY_DELAYS[Min(b.retryIndex, |RETRY_DELAYS| - 1)],
       retryIndex := Min(b.retryIndex + 1, |RETRY_DELAYS| - 1))
  }

  /** The whole frame, given what each exchange ends with. */
  function AfterFrame(c: Client, b: BridgeState, event: LocalEvent, now: real, registration: Reply, answer: Reply)
    : BridgeState
  {
    var noted := if event.shell == c.shell then Noted(b, event.operation) else b;
    var start := StartFrame(c, noted, event, now);
    if start.Dropped? then noted
    else if start.NeedsRegistration? && !Adoptable(registration) then Fail(noted, now)
    else
      var ready := if start.NeedsRegistration? then Adopt(noted, registration) else noted;
      if answer == Accepted(ready.nextSequence) then Acknowledge(ready) else Fail(ready, now)
  }

  class Bridge {
    const client: Client
    var capability: Option<Capability>
    var nextSequence: nat
    var cwd: Option<string>
    var retryIndex: nat
    var retryAt: real

    function State(): BridgeState
      reads this
    {
      BridgeState(capability, nextSequence, cwd, retryIndex, retryAt)
    }

    constructor (client: Client)
      ensures this.client == client && State() == FIRST_STATE
    {
      this.client := client;
      capability, nextSequence, cwd, retryIndex, retryAt := None, 1, None, 0, 0.0;
    }

    method FailExchange(now: real)
      modifies this
      ensures State() == Fail(old(State()), now)
    {
      capability := None;
      retryAt := now + RETRY_DELAYS[Min(retryIndex, |RETRY_DELAYS| - 1)];
      retryIndex := Min(retryIndex + 1, |RETRY_DELAYS| - 1);
    }

    method Register(registration: Reply) returns (ok: bool)
      modifies this
      ensures ok == Adoptable(registration)
      ensures State() == if ok then Adopt(old(State()), registration) else old(State())
      ensures ok ==> nextSequence == if registration.resume >= 0 then registration.resume + 1 else 1
    {
      if !registration.Registered? || |registration.capability| < 32 || |registration.capability| > 128 {
        return false;
      }
      capability := Some(registration.capability);
      var resume := registration.resume;
      if resume < 0 {
        resume := 0;
      }
      nextSequence := resume + 1;
      retryIndex := 0;
      retryAt := 0.0;
      return true;
    }

    /** `registration` and `answer` are what the two exchanges, if they happen, end with. */
    method ProcessFrame(frame: Option<LocalEvent>, now: real, registration: Reply, answer: Reply)
      returns (delivered: bool, sent: Option<EventRequest>)
      modifies this
      ensures frame.None? ==> State() == old(State()) && !delivered
      ensures frame.Some? ==> State() == AfterFrame(client, old(State()), frame.value, now, registration, answer)
      ensures delivered ==> sent.Some? && answer == Accepted(sent.value.sequence)
                            && nextSequence == sent.value.sequence + 1 && capability == Some(sent.value.capability)
      ensures sent.Some? && !delivered ==> capability.None? && nextSequence == sent.value.sequence
      ensures sent.Some? ==> frame.Some? && sent.value.operation == frame.value.operation
    {
      delivered, sent := false, None;
      if frame.None? || frame.value.shell != client.shell {
        return;
      }
      var event := frame.value;
      if event.operation.PromptReady? || event.operation.CwdChanged? {
        cwd := Some(event.operation.cwd);
      }
      ghost var noted := State();
      assert noted == Noted(old(State()), event.operation);
      if cwd.None? || now < retryAt {
        return;
      }
      if capability.None? {
        var ok := Register(registration);
        if !ok {
          FailExchange(now);
          return;
        }
      }
      sent := Some(EventOf(client, State(), event.operation));
      if answer != Accepted(nextSequence) {
        FailExchange(now);
        return;
      }
      nextSequence := nextSequence + 1;
      delivered := true;
    }
  }
}
