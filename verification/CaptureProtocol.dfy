/**
 One bridge, one service and the connections between them. A bridge that gives up on an exchange closes its
 connection, but the request it sent may still reach the service at any later time, or never; so may requests
 from before a service restart. Requests therefore stay on the network for good once sent.
 */
module CaptureProtocol {
  import opened Wrappers
  import opened EngineState
  import opened Bridge

  datatype Outstanding =
    | Idle
    | AwaitRegister(rid: nat, operation: Operation)
    | AwaitEvent(rid: nat)

  // `session` is the registration exchange that gave the capability; `frame` the frame the event came from.
  datatype EventMessage = EventMessage(rid: nat, session: nat, frame: nat, request: EventRequest)
  datatype RegisterMessage = RegisterMessage(rid: nat, request: RegisterRequest)
  datatype ReplyMessage = ReplyMessage(rid: nat, reply: Reply)

  datatype Net = Net(
    client: Client,
    bridge: BridgeState,
    outstanding: Outstanding,
    session: nat,
    nextRid: nat,
    frames: seq<Operation>, // every frame the bridge has taken in
    events: set<EventMessage>,
    registers: set<RegisterMessage>,
    replies: set<ReplyMessage>,
    engine: Engine,
    issued: set<Capability>, // every capability ever generated
    applied: seq<nat>, // the frames of the events the service has accepted, over all its runs
    effects: seq<Operation>) // and what it accepted

  datatype Act =
    | Frame(operation: Operation, now: real)
    | ReplyArrives(message: ReplyMessage, now: real)
    | GiveUp(now: real)
    | ServeRegister(register: RegisterMessage, capability: Capability, peer: Option<int>)
    | ServeEvent(event: EventMessage)
    | OtherRegister(registration: RegisterRequest, capability: Capability, peer: Option<int>)
    | OtherEvent(foreign: EventRequest)
    | Restart(snapshot: Snapshot)

  function Boot(client: Client, snapshot: Snapshot): Net {
    Net(client, FIRST_STATE, Idle, 0, 0, [], {}, {}, {}, Started(snapshot), {}, [], [])
  }

  predicate Can(n: Net, act: Act) {
    match act
    case Frame(_, _) => n.outstanding.Idle?
    case ReplyArrives(message, _) =>
      message in n.replies && !n.outstanding.Idle? && message.rid == n.outstanding.rid
    case GiveUp(_) => !n.outstanding.Idle?
    case ServeRegister(register, capability, _) => register in n.registers && capability !in n.issued
    case ServeEvent(event) => event in n.events
    case OtherRegister(request, capability, _) => request.shell != n.client.shell && capability !in n.issued
    case OtherEvent(request) => request.shell != n.client.shell
    case Restart(_) => true
  }

  // Frame number `|frames| - 1` goes out as an event.
  function SendEvent(n: Net, op: Operation): Net
    requires n.bridge.capability.Some? && n.frames != []
  {
    n.(outstanding := AwaitEvent(n.nextRid),
       nextRid := n.nextRid + 1,
       events := n.events
                 + {EventMessage(n.nextRid, n.session, |n.frames| - 1, EventOf(n.client, n.bridge, op))})
  }

  function TakeFrame(n: Net, op: Operation, now: real): Net {
    TakeNoted(n.(bridge := Noted(n.bridge, op), frames := n.frames + [op]), op, now)
  }

  // The frame is noted; what goes out for it?
  function TakeNoted(n: Net, op: Operation, now: real): Net
    requires n.frames != []
  {
    var start := StartFrame(n.client, n.bridge, LocalEvent(n.client.shell, op), now);
    if start.Dropped? then n
    else if start.Sends? then SendEvent(n, op)
    else
      n.(outstanding := AwaitRegister(n.nextRid, op),
         nextRid := n.nextRid + 1,
         registers := n.registers + {RegisterMessage(n.nextRid, RegistrationOf(n.client, n.bridge))})
  }

  function TakeReply(n: Net, reply: Reply, now: real): Net
    requires !n.outstanding.Idle?
  {
    if n.outstanding.AwaitRegister? then
      if Adoptable(reply) && n.frames != [] then
        SendEvent(n.(bridge := Adopt(n.bridge, reply), session := n.outstanding.rid), n.outstanding.operation)
      else n.(bridge := Fail(n.bridge, now), outstanding := Idle)
    else if reply == Accepted(n.bridge.nextSequence) then
      n.(bridge := Acknowledge(n.bridge), outstanding := Idle)
    else n.(bridge := Fail(n.bridge, now), outstanding := Idle)
  }

  function LastAccepted(n: Net): nat {
    LastSequence(n.engine, n.client.shell)
  }

  function ServedRegister(n: Net, register: RegisterMessage, capability: Capability, peer: Option<int>): Net {
    var result := RegisterShell(n.engine, register.request, capability, peer);
    if result.Ok? then
      n.(engine := result.value,
         issued := n.issued + {capability},
         replies := n.replies
                    + {ReplyMessage(register.rid, Registered(capability, LastSequence(result.value, register.request.shell)))})
    else
      n.(issued := n.issued + {capability}, replies := n.replies + {ReplyMessage(register.rid, Error)})
  }

  function ServedEvent(n: Net, event: EventMessage): Net {
    var result := ApplyEvent(n.engine, event.request);
    if result.Ok? then
      n.(engine := result.value,
         applied := n.applied + [event.frame],
         effects := n.effects + [event.request.operation],
         replies := n.replies + {ReplyMessage(event.rid, Accepted(event.request.sequence))})
    else n.(replies := n.replies + {ReplyMessage(event.rid, Error)})
  }

  function Do(n: Net, act: Act): Net
    requires Can(n, act)
  {
    match act
    case Frame(op, now) => TakeFrame(n, op, now)
    case ReplyArrives(message, now) => TakeReply(n, message.reply, now)
    case GiveUp(now) => TakeReply(n, Lost, now)
    case ServeRegister(register, capability, peer) => ServedRegister(n, register, capability, peer)
    case ServeEvent(event) => ServedEvent(n, event)
    case OtherRegister(request, capability, peer) =>
      n.(engine := React(n.engine, Register(request, capability, peer)), issued := n.issued + {capability})
    case OtherEvent(request) => n.(engine := React(n.engine, Event(request)))
    case Restart(snapshot) => n.(engine := Started(snapshot))
  }

  /** A frame followed by the replies to what it sent is one call of the bridge's ProcessFrame. */
  lemma FrameIsProcessFrame(n: Net, op: Operation, now: real, registration: Reply, answer: Reply)
    requires n.outstanding.Idle?
    ensures var sent := TakeFrame(n, op, now);
            var known := if sent.outstanding.AwaitRegister? then TakeReply(sent, registration, now) else sent;
            var done := if known.outstanding.AwaitEvent? then TakeReply(known, answer, now) else known;
            && done.outstanding.Idle?
            && done.bridge == AfterFrame(n.client, n.bridge, LocalEvent(n.client.shell, op), now, registration, answer)
  {}

  // ----- the invariant -----

  /** The service would accept an event carrying capability `c`. */
  predicate Current(n: Net, c: Capability) {
    n.client.shell in n.engine.registrations && n.engine.registrations[n.client.shell].capability == c
  }

  // Everything on the network was sent by this bridge, in the past.
  predicate Numbered(n: Net) {
    && (forall m :: m in n.events ==>
          && m.rid < n.nextRid && m.session < m.rid && m.frame < |n.frames|
          && m.request.shell == n.client.shell && m.request.capability in n.issued
          && m.request.operation == n.frames[m.frame])
    && (forall m :: m in n.registers ==> m.rid < n.nextRid && m.request.shell == n.client.shell)
    && (forall m :: m in n.replies ==> m.rid < n.nextRid)
    && (forall id :: id in n.engine.registrations ==> n.engine.registrations[id].capability in n.issued)
    && (!n.outstanding.Idle? ==> n.frames != [] && n.nextRid == n.outstanding.rid + 1)
    && (n.outstanding.AwaitRegister? ==>
          && n.bridge.capability.None? && n.outstanding.operation == n.frames[|n.frames| - 1]
          && (forall m :: m in n.events ==> m.rid < n.outstanding.rid && m.frame < |n.frames| - 1)
          && forall i :: 0 <= i < |n.applied| ==> n.applied[i] < |n.frames| - 1)
  }

  // Under one capability, a higher sequence means a later frame.
  predicate SessionsOrdered(n: Net) {
    forall a, b :: a in n.events && b in n.events && a.request.capability == b.request.capability
                   && a.request.sequence <= b.request.sequence && a != b ==>
      a.request.sequence < b.request.sequence && a.frame < b.frame
  }

  // The capability the bridge holds: what went out under it, and which exchange it came from.
  predicate HeldCapability(n: Net) {
    && (n.outstanding.AwaitEvent? ==> n.bridge.capability.Some?)
    && (n.bridge.capability.Some? ==>
          && n.bridge.nextSequence > 0 && n.session < n.nextRid && n.bridge.capability.value in n.issued
          && (n.outstanding.AwaitEvent? ==> n.session < n.outstanding.rid)
          && forall m :: m in n.events && m.request.capability == n.bridge.capability.value ==>
               m.request.sequence < n.bridge.nextSequence
               || (m.request.sequence == n.bridge.nextSequence && n.outstanding == AwaitEvent(m.rid)))
  }

  // Which capability a registration reply carries.
  predicate Grants(m: ReplyMessage, c: Capability) {
    m.reply.Registered? && m.reply.capability == c
  }

  // A granted capability is unique to its exchange.
  predicate GrantsOk(n: Net) {
    && (forall m :: m in n.replies && m.reply.Registered? ==>
          m.reply.capability in n.issued && m.reply.resume >= 0)
    && (forall a, b :: a in n.replies && b in n.replies && a.reply.Registered? && Grants(b, a.reply.capability) ==> a == b)
    && (forall m, r :: m in n.events && r in n.replies && Grants(r, m.request.capability) ==> m.session == r.rid)
    && (n.bridge.capability.Some? ==>
          forall r :: r in n.replies && Grants(r, n.bridge.capability.value) ==> r.rid == n.session)
  }

  // Whatever the service could still accept is newer than everything it has accepted.
  predicate NewerPending(n: Net) {
    && |n.effects| == |n.applied|
    && (forall i :: 0 <= i < |n.applied| ==> n.applied[i] < |n.frames| && n.effects[i] == n.frames[n.applied[i]])
    && (forall i, j :: 0 <= i < j < |n.applied| ==> n.applied[i] < n.applied[j])
    && (forall m, i :: m in n.events && 0 <= i < |n.applied|
                       && Current(n, m.request.capability) && m.request.sequence > LastAccepted(n) ==>
          n.applied[i] < m.frame)
  }

  // Bridge and service agree on the sequence as long as the bridge holds the current capability.
  predicate InStep(n: Net) {
    && (forall r :: r in n.replies && r.reply.Registered? && Current(n, r.reply.capability)
                    && (forall m :: m in n.events ==> m.request.capability != r.reply.capability) ==>
          LastAccepted(n) == r.reply.resume)
    && (n.bridge.capability.Some? && Current(n, n.bridge.capability.value) ==>
          && n.bridge.nextSequence - 1 <= LastAccepted(n) <= n.bridge.nextSequence
          && (n.outstanding.Idle? ==> LastAccepted(n) == n.bridge.nextSequence - 1)
          && forall r :: r in n.replies && r.reply.Accepted? && n.outstanding == AwaitEvent(r.rid) ==>
               LastAccepted(n) == n.bridge.nextSequence)
  }

  predicate Inv(n: Net) {
    && Numbered(n) && SessionsOrdered(n) && HeldCapability(n) && GrantsOk(n) && NewerPending(n) && InStep(n)
  }

  // ----- the bridge's steps -----

  // What the bridge must know before it sends frame `|frames| - 1`.
  predicate ReadyToSend(n: Net) {
    && n.outstanding.Idle? && n.bridge.capability.Some? && n.frames != []
    && (forall m :: m in n.events ==> m.frame < |n.frames| - 1)
    && (forall i :: 0 <= i < |n.applied| ==> n.applied[i] < |n.frames| - 1)
  }

  lemma SendKeepsOrder(n: Net, op: Operation)
    requires Numbered(n) && SessionsOrdered(n) && HeldCapability(n) && GrantsOk(n)
    requires ReadyToSend(n) && op == n.frames[|n.frames| - 1]
    ensures SessionsOrdered(SendEvent(n, op)) && GrantsOk(SendEvent(n, op))
  {}

  lemma SendKeepsHeld(n: Net, op: Operation)
    requires Numbered(n) && HeldCapability(n) && ReadyToSend(n) && op == n.frames[|n.frames| - 1]
    ensures Numbered(SendEvent(n, op)) && HeldCapability(SendEvent(n, op))
  {}

  lemma SendKeepsInv(n: Net, op: Operation)
    requires Inv(n) && ReadyToSend(n) && op == n.frames[|n.frames| - 1]
    ensures Inv(SendEvent(n, op))
  {
    SendKeepsOrder(n, op);
    SendKeepsHeld(n, op);
    assert NewerPending(SendEvent(n, op));
    assert InStep(SendEvent(n, op));
  }

  lemma NoteKeepsInv(n: Net, op: Operation)
    requires Inv(n) && n.outstanding.Idle?
    ensures Inv(n.(bridge := Noted(n.bridge, op), frames := n.frames + [op]))
  {}

  // The new frame is later than everything sent or applied.
  lemma NotedIsNewest(n: Net, op: Operation)
    requires Numbered(n) && NewerPending(n)
    ensures var noted := n.(bridge := Noted(n.bridge, op), frames := n.frames + [op]);
            && (forall m :: m in noted.events ==> m.frame < |noted.frames| - 1)
            && (forall i :: 0 <= i < |noted.applied| ==> noted.applied[i] < |noted.frames| - 1)
            && noted.frames[|noted.frames| - 1] == op
  {}

  lemma FrameKeepsInv(n: Net, op: Operation, now: real)
    requires Inv(n) && n.outstanding.Idle?
    ensures Inv(TakeFrame(n, op, now))
  {
    var noted := n.(bridge := Noted(n.bridge, op), frames := n.frames + [op]);
    NoteKeepsInv(n, op);
    NotedIsNewest(n, op);
    NotedFrameKeepsInv(noted, op, now);
  }

  lemma NotedFrameKeepsInv(noted: Net, op: Operation, now: real)
    requires Inv(noted) && noted.outstanding.Idle? && noted.frames != [] && noted.frames[|noted.frames| - 1] == op
    requires forall m :: m in noted.events ==> m.frame < |noted.frames| - 1
    requires forall i :: 0 <= i < |noted.applied| ==> noted.applied[i] < |noted.frames| - 1
    ensures Inv(TakeNoted(noted, op, now))
  {
    var start := StartFrame(noted.client, noted.bridge, LocalEvent(noted.client.shell, op), now);
    if start.Sends? {
      SendKeepsInv(noted, op);
    } else if start.NeedsRegistration? {
      AskKeepsInv(noted, op);
    }
  }

  lemma AskKeepsInv(n: Net, op: Operation)
    requires Inv(n) && n.outstanding.Idle? && n.bridge.capability.None? && n.bridge.cwd.Some? && n.frames != []
    requires op == n.frames[|n.frames| - 1]
    requires forall m :: m in n.events ==> m.frame < |n.frames| - 1
    requires forall i :: 0 <= i < |n.applied| ==> n.applied[i] < |n.frames| - 1
    ensures Inv(n.(outstanding := AwaitRegister(n.nextRid, op),
                   nextRid := n.nextRid + 1,
                   registers := n.registers + {RegisterMessage(n.nextRid, RegistrationOf(n.client, n.bridge))}))
  {}

  // The registration reply the bridge waits for carries a capability nothing was sent under.
  lemma FreshGrant(n: Net, message: ReplyMessage)
    requires Numbered(n) && GrantsOk(n) && n.outstanding.AwaitRegister? && message in n.replies
    requires message.rid == n.outstanding.rid && message.reply.Registered?
    ensures forall m :: m in n.events ==> m.request.capability != message.reply.capability
  {
    assert Grants(message, message.reply.capability);
  }

  function Adopted(n: Net, reply: Reply): Net
    requires n.outstanding.AwaitRegister? && Adoptable(reply)
  {
    n.(bridge := Adopt(n.bridge, reply), session := n.outstanding.rid, outstanding := Idle)
  }

  lemma AdoptKeepsInv(n: Net, message: ReplyMessage, now: real)
    requires Inv(n) && n.outstanding.AwaitRegister? && message in n.replies
    requires message.rid == n.outstanding.rid && Adoptable(message.reply)
    ensures Inv(TakeReply(n, message.reply, now))
  {
    var adopted := Adopted(n, message.reply);
    AdoptedIsHeld(n, message);
    AdoptedNewer(n, message.reply);
    AdoptedInStep(n, message);
    assert ReadyToSend(adopted);
    SendKeepsInv(adopted, n.outstanding.operation);
    assert TakeReply(n, message.reply, now) == SendEvent(adopted, n.outstanding.operation);
  }

  lemma AdoptedNewer(n: Net, reply: Reply)
    requires NewerPending(n) && n.outstanding.AwaitRegister? && Adoptable(reply)
    ensures NewerPending(Adopted(n, reply))
  {}

  lemma AdoptedIsHeld(n: Net, message: ReplyMessage)
    requires Numbered(n) && SessionsOrdered(n) && GrantsOk(n) && n.outstanding.AwaitRegister? && message in n.replies
    requires message.rid == n.outstanding.rid && Adoptable(message.reply)
    ensures var adopted := Adopted(n, message.reply);
            Numbered(adopted) && SessionsOrdered(adopted) && HeldCapability(adopted) && GrantsOk(adopted)
  {
    FreshGrant(n, message);
    assert Grants(message, message.reply.capability);
  }

  lemma AdoptedInStep(n: Net, message: ReplyMessage)
    requires Numbered(n) && GrantsOk(n) && InStep(n) && n.outstanding.AwaitRegister? && message in n.replies
    requires message.rid == n.outstanding.rid && Adoptable(message.reply)
    ensures InStep(Adopted(n, message.reply))
  {
    FreshGrant(n, message);
  }

  lemma GiveUpKeepsInv(n: Net, now: real)
    requires Inv(n) && !n.outstanding.Idle?
    ensures Inv(n.(bridge := Fail(n.bridge, now), outstanding := Idle))
  {}

  lemma AcknowledgeKeepsInv(n: Net, message: ReplyMessage)
    requires Inv(n) && n.outstanding.AwaitEvent? && message in n.replies && message.rid == n.outstanding.rid
    requires message.reply.Accepted?
    ensures Inv(n.(bridge := Acknowledge(n.bridge), outstanding := Idle))
  {}

  lemma ReplyKeepsInv(n: Net, message: ReplyMessage, now: real)
    requires Inv(n) && Can(n, ReplyArrives(message, now))
    ensures Inv(TakeReply(n, message.reply, now))
  {
    if n.outstanding.AwaitRegister? && Adoptable(message.reply) {
      AdoptKeepsInv(n, message, now);
    } else if n.outstanding.AwaitEvent? && message.reply == Accepted(n.bridge.nextSequence) {
      AcknowledgeKeepsInv(n, message);
    } else {
      GiveUpKeepsInv(n, now);
    }
  }

  // ----- the service's steps -----

  // The engine changed in a way that does not concern this bridge's shell.
  lemma UnrelatedKeepsInv(n: Net, engine: Engine, issued: set<Capability>)
    requires Inv(n) && n.issued <= issued
    requires forall id :: id in engine.registrations ==> engine.registrations[id].capability in issued
    requires n.client.shell in engine.registrations ==>
               n.client.shell in n.engine.registrations
               && engine.registrations[n.client.shell] == n.engine.registrations[n.client.shell]
    ensures Inv(n.(engine := engine, issued := issued))
  {
    var n' := n.(engine := engine, issued := issued);
    assert forall c :: Current(n', c) ==> Current(n, c) && LastAccepted(n') == LastAccepted(n);
  }

  lemma RefusalKeepsGrants(n: Net, rid: nat)
    requires GrantsOk(n)
    ensures GrantsOk(n.(replies := n.replies + {ReplyMessage(rid, Error)}))
  {}

  lemma RefusalKeepsInStep(n: Net, rid: nat)
    requires InStep(n)
    ensures InStep(n.(replies := n.replies + {ReplyMessage(rid, Error)}))
  {}

  lemma RefusalKeepsInv(n: Net, rid: nat)
    requires Inv(n) && rid < n.nextRid
    ensures Inv(n.(replies := n.replies + {ReplyMessage(rid, Error)}))
  {
    var n' := n.(replies := n.replies + {ReplyMessage(rid, Error)});
    RefusalKeepsGrants(n, rid);
    RefusalKeepsInStep(n, rid);
    assert Numbered(n');
    assert NewerPending(n') && SessionsOrdered(n') && HeldCapability(n');
  }

  // The shell was registered under a capability never issued before.
  ghost predicate Grant(n: Net, rid: nat, capability: Capability, engine: Engine) {
    && rid < n.nextRid && capability !in n.issued
    && (forall id :: id in engine.registrations ==>
          engine.registrations[id].capability in n.issued + {capability})
    && n.client.shell in engine.registrations && engine.registrations[n.client.shell].capability == capability
  }

  function AfterGrant(n: Net, rid: nat, capability: Capability, engine: Engine): Net {
    n.(engine := engine,
       issued := n.issued + {capability},
       replies := n.replies + {ReplyMessage(rid, Registered(capability, LastSequence(engine, n.client.shell)))})
  }

  lemma GrantKeepsOrder(n: Net, rid: nat, capability: Capability, engine: Engine)
    requires Numbered(n) && SessionsOrdered(n) && HeldCapability(n) && Grant(n, rid, capability, engine)
    ensures var n' := AfterGrant(n, rid, capability, engine);
            Numbered(n') && SessionsOrdered(n') && HeldCapability(n')
  {}

  lemma GrantKeepsGrants(n: Net, rid: nat, capability: Capability, engine: Engine)
    requires Numbered(n) && HeldCapability(n) && GrantsOk(n) && Grant(n, rid, capability, engine)
    ensures GrantsOk(AfterGrant(n, rid, capability, engine))
  {}

  lemma GrantKeepsInv(n: Net, rid: nat, capability: Capability, engine: Engine)
    requires Inv(n) && Grant(n, rid, capability, engine)
    ensures Inv(AfterGrant(n, rid, capability, engine))
  {
    var n' := AfterGrant(n, rid, capability, engine);
    GrantKeepsOrder(n, rid, capability, engine);
    GrantKeepsGrants(n, rid, capability, engine);
    assert forall c :: Current(n', c) <==> c == capability;
    assert NewerPending(n');
    assert InStep(n');
  }

  predicate Accepts(n: Net, event: EventMessage, engine: Engine) {
    && event in n.events && Current(n, event.request.capability) && event.request.sequence > LastAccepted(n)
    && (forall id :: id in engine.registrations ==> engine.registrations[id].capability in n.issued)
    && n.client.shell in engine.registrations
    && engine.registrations[n.client.shell].capability == event.request.capability
    && LastSequence(engine, n.client.shell) == event.request.sequence
  }

  function AfterAccept(n: Net, event: EventMessage, engine: Engine): Net {
    n.(engine := engine,
       applied := n.applied + [event.frame],
       effects := n.effects + [event.request.operation],
       replies := n.replies + {ReplyMessage(event.rid, Accepted(event.request.sequence))})
  }

  lemma AcceptKeepsOrder(n: Net, event: EventMessage, engine: Engine)
    requires Numbered(n) && SessionsOrdered(n) && HeldCapability(n) && GrantsOk(n) && Accepts(n, event, engine)
    ensures Numbered(AfterAccept(n, event, engine)) && SessionsOrdered(AfterAccept(n, event, engine))
    ensures HeldCapability(AfterAccept(n, event, engine)) && GrantsOk(AfterAccept(n, event, engine))
  {}

  lemma AcceptKeepsNewer(n: Net, event: EventMessage, engine: Engine)
    requires Numbered(n) && SessionsOrdered(n) && NewerPending(n) && Accepts(n, event, engine)
    ensures NewerPending(AfterAccept(n, event, engine))
  {
    var n' := AfterAccept(n, event, engine);
    forall m, i | m in n'.events && 0 <= i < |n'.applied|
                  && Current(n', m.request.capability) && m.request.sequence > LastAccepted(n')
      ensures n'.applied[i] < m.frame
    {
      assert Current(n, m.request.capability) && m.request.sequence > LastAccepted(n);
    }
  }

  lemma AcceptKeepsStep(n: Net, event: EventMessage, engine: Engine)
    requires Numbered(n) && HeldCapability(n) && InStep(n) && Accepts(n, event, engine)
    ensures InStep(AfterAccept(n, event, engine))
  {
    var n' := AfterAccept(n, event, engine);
    if n.bridge.capability.Some? && Current(n', n.bridge.capability.value) {
      assert event.request.capability == n.bridge.capability.value;
      assert event.request.sequence == n.bridge.nextSequence && n.outstanding == AwaitEvent(event.rid);
    }
  }

  lemma ServeRegisterKeepsInv(n: Net, register: RegisterMessage, capability: Capability, peer: Option<int>)
    requires Inv(n) && register in n.registers && capability !in n.issued
    ensures Inv(ServedRegister(n, register, capability, peer))
  {
    var result := RegisterShell(n.engine, register.request, capability, peer);
    if result.Ok? {
      GrantKeepsInv(n, register.rid, capability, result.value);
    } else {
      UnrelatedKeepsInv(n, n.engine, n.issued + {capability});
      RefusalKeepsInv(n.(issued := n.issued + {capability}), register.rid);
      assert n.(engine := n.engine, issued := n.issued + {capability}) == n.(issued := n.issued + {capability});
    }
  }

  lemma ServeEventKeepsInv(n: Net, event: EventMessage)
    requires Inv(n) && event in n.events
    ensures Inv(ServedEvent(n, event))
  {
    var result := ApplyEvent(n.engine, event.request);
    if result.Ok? {
      AcceptKeepsOrder(n, event, result.value);
      AcceptKeepsNewer(n, event, result.value);
      AcceptKeepsStep(n, event, result.value);
    } else {
      RefusalKeepsInv(n, event.rid);
    }
  }

  lemma StepKeepsInv(n: Net, act: Act)
    requires Inv(n) && Can(n, act)
    ensures Inv(Do(n, act))
  {
    match act
    case Frame(op, now) => FrameKeepsInv(n, op, now);
    case ReplyArrives(message, now) => ReplyKeepsInv(n, message, now);
    case GiveUp(now) => GiveUpKeepsInv(n, now);
    case ServeRegister(register, capability, peer) => ServeRegisterKeepsInv(n, register, capability, peer);
    case ServeEvent(event) => ServeEventKeepsInv(n, event);
    case OtherRegister(registration, capability, peer) =>
      UnrelatedKeepsInv(n, React(n.engine, Register(registration, capability, peer)), n.issued + {capability});
    case OtherEvent(foreign) =>
      UnrelatedKeepsInv(n, React(n.engine, Event(foreign)), n.issued);
      assert n.(engine := React(n.engine, Event(foreign)), issued := n.issued) == Do(n, act);
    case Restart(snapshot) =>
      UnrelatedKeepsInv(n, Started(snapshot), n.issued);
      assert n.(engine := Started(snapshot), issued := n.issued) == Do(n, act);
  }

  // ----- runs -----

  predicate CanRun(n: Net, acts: seq<Act>)
    decreases |acts|
  {
    acts != [] ==> Can(n, acts[0]) && CanRun(Do(n, acts[0]), acts[1..])
  }

  function Run(n: Net, acts: seq<Act>): Net
    requires CanRun(n, acts)
    decreases |acts|
  {
    if acts == [] then n else Run(Do(n, acts[0]), acts[1..])
  }

  lemma {:induction false} RunKeepsInv(n: Net, acts: seq<Act>)
    requires Inv(n) && CanRun(n, acts)
    ensures Inv(Run(n, acts))
    decreases |acts|
  {
    if acts != [] {
      StepKeepsInv(n, acts[0]);
      RunKeepsInv(Do(n, acts[0]), acts[1..]);
    }
  }

  /** Whatever is delayed, lost, delivered late or again, and however often bridge and service reconnect or the
      service restarts, what the service accepts is a subsequence of the frames, in order and without repeats. */
  lemma AcceptedEventsAreASubsequence(client: Client, snapshot: Snapshot, acts: seq<Act>)
    requires CanRun(Boot(client, snapshot), acts)
    ensures var n := Run(Boot(client, snapshot), acts);
            && |n.effects| == |n.applied|
            && (forall i, j :: 0 <= i < j < |n.applied| ==> n.applied[i] < n.applied[j])
            && forall i :: 0 <= i < |n.applied| ==> n.applied[i] < |n.frames| && n.effects[i] == n.frames[n.applied[i]]
  {
    RunKeepsInv(Boot(client, snapshot), acts);
  }

  /** A bridge that holds the current capability and waits for nothing continues right after the watermark. */
  lemma QuietBridgeIsInStep(client: Client, snapshot: Snapshot, acts: seq<Act>)
    requires CanRun(Boot(client, snapshot), acts)
    ensures var n := Run(Boot(client, snapshot), acts);
            n.outstanding.Idle? && n.bridge.capability.Some? && Current(n, n.bridge.capability.value) ==>
              n.bridge.nextSequence == LastAccepted(n) + 1
  {
    RunKeepsInv(Boot(client, snapshot), acts);
  }
}
