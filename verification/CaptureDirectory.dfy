/**
 What the service holds of the bridge's shell: over every run of the capture protocol it is what the accepted events
 since the last registration say, and a bridge in session with the service agrees with it on the directory.
 */
module CaptureDirectory {
  import opened Wrappers
  import opened EngineState
  import opened Bridge
  import opened CaptureProtocol
  import EngineHistory

  function Stored(n: Net): Option<Shell> {
    FindShell(n.engine.snapshot.shells, n.client.shell)
  }

  // ----- the shell and the accepted events -----

  /** The directory of the last prompt or directory event. */
  function DirectoryAfter(ops: seq<Operation>, initial: Option<string>): Option<string> {
    if ops == [] then initial
    else
      var last := ops[|ops| - 1];
      if last.PromptReady? || last.CwdChanged? then Some(last.cwd) else DirectoryAfter(ops[..|ops| - 1], initial)
  }

  /** The last command started, unless its finish or a prompt came after it. */
  function CommandAfter(ops: seq<Operation>): Option<Command> {
    if ops == [] then None
    else
      match ops[|ops| - 1]
      case CommandStarted(number, text) => Some(Command(number, text))
      case CommandFinished(_) => None
      case PromptReady(_) => None
      case _ => CommandAfter(ops[..|ops| - 1])
  }

  /** Since the service last started: the snapshot it loaded; and since it last registered the shell: the directory it
      was registered with, and how many events had been accepted before. */
  datatype Since = Since(snapshot: Snapshot, registered: Option<string>, mark: nat)

  function Later(s: Since, n: Net, act: Act): Since {
    match act
    case Restart(snapshot) => Since(snapshot, None, |n.effects|)
    case ServeRegister(register, capability, peer) =>
      if RegisterShell(n.engine, register.request, capability, peer).Ok? then
        s.(registered := Some(register.request.cwd), mark := |n.effects|)
      else s
    case _ => s
  }

  function SinceLast(s: Since, n: Net, acts: seq<Act>): Since
    requires CanRun(n, acts)
    decreases |acts|
  {
    if acts == [] then s else SinceLast(Later(s, n, acts[0]), Do(n, acts[0]), acts[1..])
  }

  predicate Reflects(shell: Shell, cwd: string, ops: seq<Operation>) {
    && Some(shell.cwd) == DirectoryAfter(ops, Some(cwd))
    && shell.command == CommandAfter(ops)
    && (shell.exited <==> ExplicitExit in ops)
  }

  ghost predicate ServiceReflects(s: Since, n: Net) {
    && s.mark <= |n.effects|
    && (n.client.shell in n.engine.registrations <==> s.registered.Some?)
    && (if s.registered.None? then Stored(n) == FindShell(s.snapshot.shells, n.client.shell)
        else Stored(n).Some? && Reflects(Stored(n).value, s.registered.value, n.effects[s.mark..]))
  }

  lemma OneMoreEffect(shell: Shell, cwd: string, ops: seq<Operation>, registration: Registration, op: Operation)
    requires Reflects(shell, cwd, ops) && ReduceShell(shell, registration, op).Ok?
    ensures Reflects(ReduceShell(shell, registration, op).value, cwd, ops + [op])
  {
    assert (ops + [op])[..|ops + [op]| - 1] == ops;
    assert ExplicitExit in ops + [op] <==> ExplicitExit in ops || op == ExplicitExit;
  }

  lemma ServedRegisterReflects(s: Since, n: Net, register: RegisterMessage, capability: Capability, peer: Option<int>)
    requires ServiceReflects(s, n) && register.request.shell == n.client.shell
    ensures ServiceReflects(Later(s, n, ServeRegister(register, capability, peer)),
                            ServedRegister(n, register, capability, peer))
  {
    var r, result := register.request, RegisterShell(n.engine, register.request, capability, peer);
    if result.Ok? {
      var shells := n.engine.snapshot.shells;
      var shell := result.value.snapshot.shells[IndexOf(shells, r.shell)];
      EngineHistory.FoundAfterReplace(shells, shell, r.shell);
      assert result.value.snapshot.shells == ReplaceOrAppend(shells, shell);
      assert n.effects[|n.effects|..] == [];
    }
  }

  lemma AcceptedShell(e: Engine, r: EventRequest)
    requires ApplyEvent(e, r).Ok?
    ensures var shell, e' := FindShell(e.snapshot.shells, r.shell), ApplyEvent(e, r).value;
            && r.shell in e.registrations && e'.registrations.Keys == e.registrations.Keys
            && shell.Some? && ReduceShell(shell.value, e.registrations[r.shell], r.operation).Ok?
            && FindShell(e'.snapshot.shells, r.shell)
               == Some(ReduceShell(shell.value, e.registrations[r.shell], r.operation).value.(lastSequence := r.sequence))
  {
    var shells := e.snapshot.shells;
    var i := IndexOf(shells, r.shell);
    var reduced := ReduceShell(shells[i], e.registrations[r.shell], r.operation).value.(lastSequence := r.sequence);
    EngineHistory.FoundAfterReplace(shells, reduced, r.shell);
    assert ApplyEvent(e, r).value.snapshot.shells == ReplaceOrAppend(shells, reduced);
  }

  lemma ServedEventReflects(s: Since, n: Net, event: EventMessage)
    requires ServiceReflects(s, n) && event.request.shell == n.client.shell
    ensures ServiceReflects(s, ServedEvent(n, event))
  {
    var r := event.request;
    if ApplyEvent(n.engine, r).Ok? {
      AcceptedShell(n.engine, r);
      OneMoreEffect(
        Stored(n).value, s.registered.value, n.effects[s.mark..], n.engine.registrations[r.shell], r.operation);
      assert (n.effects + [r.operation])[s.mark..] == n.effects[s.mark..] + [r.operation];
    }
  }

  // What other shells send leaves this one as it is.
  lemma OtherInput(e: Engine, input: Input, id: ShellId)
    requires match input case Register(r, _, _) => r.shell != id case Event(r) => r.shell != id
    ensures FindShell(React(e, input).snapshot.shells, id) == FindShell(e.snapshot.shells, id)
    ensures id in React(e, input).registrations <==> id in e.registrations
    ensures id in e.registrations ==> React(e, input).registrations[id] == e.registrations[id]
  {
    var shells, e' := e.snapshot.shells, React(e, input);
    match input
    case Register(r, capability, peer) =>
      if RegisterShell(e, r, capability, peer).Ok? {
        var shell := e'.snapshot.shells[IndexOf(shells, r.shell)];
        assert e'.snapshot.shells == ReplaceOrAppend(shells, shell);
        EngineHistory.FoundAfterReplace(shells, shell, id);
      }
    case Event(r) =>
      if ApplyEvent(e, r).Ok? {
        var shell := e'.snapshot.shells[IndexOf(shells, r.shell)];
        assert e'.snapshot.shells == ReplaceOrAppend(shells, shell);
        EngineHistory.FoundAfterReplace(shells, shell, id);
      }
  }

  lemma BridgeLeavesService(n: Net, act: Act)
    requires Can(n, act) && (act.Frame? || act.ReplyArrives? || act.GiveUp?)
    ensures Do(n, act).engine == n.engine && Do(n, act).effects == n.effects && Do(n, act).client == n.client
  {}

  lemma StepReflects(s: Since, n: Net, act: Act)
    requires Inv(n) && Can(n, act) && ServiceReflects(s, n)
    ensures ServiceReflects(Later(s, n, act), Do(n, act))
  {
    match act
    case ServeRegister(register, capability, peer) => ServedRegisterReflects(s, n, register, capability, peer);
    case ServeEvent(event) => ServedEventReflects(s, n, event);
    case OtherRegister(r, capability, peer) => OtherInput(n.engine, Register(r, capability, peer), n.client.shell);
    case OtherEvent(r) => OtherInput(n.engine, Event(r), n.client.shell);
    case Restart(_) =>
    case _ => BridgeLeavesService(n, act);
  }

  lemma {:induction false} RunReflects(s: Since, n: Net, acts: seq<Act>)
    requires Inv(n) && CanRun(n, acts) && ServiceReflects(s, n)
    ensures ServiceReflects(SinceLast(s, n, acts), Run(n, acts))
    decreases |acts|
  {
    if acts != [] {
      StepReflects(s, n, acts[0]);
      StepKeepsInv(n, acts[0]);
      RunReflects(Later(s, n, acts[0]), Do(n, acts[0]), acts[1..]);
    }
  }

  /** Over every run: a shell the service has registered since it last started is stored with the directory of the last
      prompt or directory event accepted since the registration, or else the registration's; with the last command
      accepted since then that has not ended; and as exited exactly if an exit was accepted. Before that it is stored as
      the loaded snapshot has it. */
  lemma StoredShellIsItsEffects(client: Client, snapshot: Snapshot, acts: seq<Act>)
    requires CanRun(Boot(client, snapshot), acts)
    ensures var n := Run(Boot(client, snapshot), acts);
            var since := SinceLast(Since(snapshot, None, 0), Boot(client, snapshot), acts);
            var shell := FindShell(n.engine.snapshot.shells, n.client.shell);
            && since.mark <= |n.effects|
            && (since.registered.None? ==> shell == FindShell(since.snapshot.shells, n.client.shell))
            && (since.registered.Some? ==>
                  && shell.Some?
                  && Some(shell.value.cwd) == DirectoryAfter(n.effects[since.mark..], since.registered)
                  && shell.value.command == CommandAfter(n.effects[since.mark..])
                  && (shell.value.exited <==> ExplicitExit in n.effects[since.mark..]))
  {
    RunReflects(Since(snapshot, None, 0), Boot(client, snapshot), acts);
  }

  // ----- bridge and service hold the same directory -----

  /** Readings of a monotonic clock. */
  predicate ClockOk(acts: seq<Act>) {
    forall i :: 0 <= i < |acts| && acts[i].Frame? ==> acts[i].now >= 0.0
  }

  predicate StoredIs(n: Net, cwd: Option<string>) {
    Stored(n).Some? && Some(Stored(n).value.cwd) == cwd
  }

  predicate InSession(n: Net) {
    n.bridge.capability.Some? && Current(n, n.bridge.capability.value)
  }

  // The bridge knows the directory of the last frame that named one.
  predicate BridgeKnows(n: Net) {
    && n.bridge.cwd == DirectoryAfter(n.frames, None)
    && (n.bridge.capability.Some? ==> n.bridge.retryAt == 0.0 && n.bridge.cwd.Some?)
    && (n.outstanding.AwaitRegister? ==> n.bridge.cwd.Some?)
  }

  // What the bridge waits for carries its directory.
  predicate RequestsCarry(n: Net) {
    && (n.outstanding.AwaitRegister? ==>
          forall m :: m in n.registers && m.rid == n.outstanding.rid ==> Some(m.request.cwd) == n.bridge.cwd)
    && (n.outstanding.AwaitEvent? ==>
          forall m :: m in n.events && m.rid == n.outstanding.rid ==> m.frame == |n.frames| - 1)
  }

  predicate GrantCarries(n: Net) {
    n.outstanding.AwaitRegister? ==>
      forall r :: r in n.replies && r.rid == n.outstanding.rid && r.reply.Registered? && Current(n, r.reply.capability) ==>
        StoredIs(n, n.bridge.cwd)
  }

  // In session the service has the bridge's directory, once the frame in flight is applied.
  predicate SessionAgrees(n: Net) {
    InSession(n) ==>
      && Stored(n).Some?
      && (n.outstanding.Idle? || LastAccepted(n) == n.bridge.nextSequence ==> StoredIs(n, n.bridge.cwd))
      && (n.outstanding.AwaitEvent? && n.frames != [] && LastAccepted(n) < n.bridge.nextSequence ==>
            DirectoryAfter([n.frames[|n.frames| - 1]], Some(Stored(n).value.cwd)) == n.bridge.cwd)
  }

  predicate DirectoryInv(n: Net) {
    && Inv(n) && BridgeKnows(n) && RequestsCarry(n) && GrantCarries(n) && SessionAgrees(n)
  }

  lemma DirectoryOfNext(ops: seq<Operation>, op: Operation, b: BridgeState)
    requires b.cwd == DirectoryAfter(ops, None)
    ensures Noted(b, op).cwd == DirectoryAfter(ops + [op], None)
    ensures forall cwd :: b.cwd == Some(cwd) ==> Noted(b, op).cwd == DirectoryAfter([op], Some(cwd))
  {
    assert (ops + [op])[..|ops|] == ops;
  }

  // ----- the bridge's steps -----

  lemma FrameCarries(n: Net, op: Operation, now: real)
    requires DirectoryInv(n) && n.outstanding.Idle?
    ensures RequestsCarry(TakeFrame(n, op, now)) && GrantCarries(TakeFrame(n, op, now))
  {}

  lemma FrameKeepsDirectory(n: Net, op: Operation, now: real)
    requires DirectoryInv(n) && n.outstanding.Idle? && now >= 0.0
    ensures DirectoryInv(TakeFrame(n, op, now))
  {
    var n' := TakeFrame(n, op, now);
    FrameKeepsInv(n, op, now);
    FrameCarries(n, op, now);
    DirectoryOfNext(n.frames, op, n.bridge);
    assert n'.frames[|n'.frames| - 1] == op;
    assert InSession(n) ==> LastAccepted(n) == n.bridge.nextSequence - 1;
    assert SessionAgrees(n');
  }

  lemma AdoptKeepsDirectory(n: Net, message: ReplyMessage, now: real)
    requires DirectoryInv(n) && n.outstanding.AwaitRegister? && message in n.replies
    requires message.rid == n.outstanding.rid && Adoptable(message.reply)
    ensures DirectoryInv(TakeReply(n, message.reply, now))
  {
    var n' := TakeReply(n, message.reply, now);
    AdoptKeepsInv(n, message, now);
    assert RequestsCarry(n');
    assert InSession(n') ==> StoredIs(n, n.bridge.cwd);
    assert n.bridge.cwd == DirectoryAfter(n.frames, None);
    assert n'.frames == n.frames == n.frames[..|n.frames| - 1] + [n.frames[|n.frames| - 1]];
  }

  lemma ReplyKeepsDirectory(n: Net, message: ReplyMessage, now: real)
    requires DirectoryInv(n) && Can(n, ReplyArrives(message, now))
    ensures DirectoryInv(TakeReply(n, message.reply, now))
  {
    if n.outstanding.AwaitRegister? && Adoptable(message.reply) {
      AdoptKeepsDirectory(n, message, now);
    } else {
      ReplyKeepsInv(n, message, now);
    }
  }

  // ----- the service's steps -----

  lemma GrantKeepsDirectory(n: Net, register: RegisterMessage, capability: Capability, peer: Option<int>)
    requires DirectoryInv(n) && register in n.registers && capability !in n.issued
    requires RegisterShell(n.engine, register.request, capability, peer).Ok?
    ensures DirectoryInv(ServedRegister(n, register, capability, peer))
  {
    var r, n' := register.request, ServedRegister(n, register, capability, peer);
    ServeRegisterKeepsInv(n, register, capability, peer);
    var shells := n.engine.snapshot.shells;
    var shell := n'.engine.snapshot.shells[IndexOf(shells, r.shell)];
    EngineHistory.FoundAfterReplace(shells, shell, r.shell);
    assert n'.engine.snapshot.shells == ReplaceOrAppend(shells, shell);
    assert StoredIs(n', Some(r.cwd));
    assert forall c :: Current(n', c) <==> c == capability;
    assert !InSession(n');
    assert GrantCarries(n');
  }

  lemma ReducedDirectory(shell: Shell, registration: Registration, op: Operation)
    requires ReduceShell(shell, registration, op).Ok?
    ensures Some(ReduceShell(shell, registration, op).value.cwd) == DirectoryAfter([op], Some(shell.cwd))
  {
    assert [op][..0] == [];
  }

  lemma AcceptKeepsDirectory(n: Net, event: EventMessage)
    requires DirectoryInv(n) && event in n.events && ApplyEvent(n.engine, event.request).Ok?
    ensures DirectoryInv(ServedEvent(n, event))
  {
    var r, n' := event.request, ServedEvent(n, event);
    ServeEventKeepsInv(n, event);
    AcceptedShell(n.engine, r);
    assert forall c :: Current(n', c) <==> c == r.capability;
    assert Current(n, r.capability);
    if InSession(n') {
      assert r.sequence == n.bridge.nextSequence && n.outstanding == AwaitEvent(event.rid);
      assert r.operation == n.frames[|n.frames| - 1];
      ReducedDirectory(Stored(n).value, n.engine.registrations[r.shell], r.operation);
    }
    assert GrantCarries(n') by {
      if n.outstanding.AwaitRegister? {
        forall m | m in n'.replies && m.rid == n.outstanding.rid && m.reply.Registered?
          ensures !Current(n', m.reply.capability)
        {
          FreshGrant(n, m);
        }
      }
    }
  }

  lemma RefusalKeepsDirectory(n: Net, rid: nat)
    requires DirectoryInv(n) && rid < n.nextRid
    ensures DirectoryInv(n.(replies := n.replies + {ReplyMessage(rid, Error)}))
  {
    RefusalKeepsInv(n, rid);
  }

  lemma UnrelatedKeepsDirectory(n: Net, engine: Engine, issued: set<Capability>)
    requires DirectoryInv(n) && n.issued <= issued
    requires forall id :: id in engine.registrations ==> engine.registrations[id].capability in issued
    requires n.client.shell in engine.registrations ==>
               && n.client.shell in n.engine.registrations
               && engine.registrations[n.client.shell] == n.engine.registrations[n.client.shell]
               && FindShell(engine.snapshot.shells, n.client.shell) == Stored(n)
    ensures DirectoryInv(n.(engine := engine, issued := issued))
  {
    var n' := n.(engine := engine, issued := issued);
    UnrelatedKeepsInv(n, engine, issued);
    assert forall c :: Current(n', c) ==> Current(n, c) && LastAccepted(n') == LastAccepted(n) && Stored(n') == Stored(n);
  }

  lemma ServeRegisterKeepsDirectory(n: Net, register: RegisterMessage, capability: Capability, peer: Option<int>)
    requires DirectoryInv(n) && register in n.registers && capability !in n.issued
    ensures DirectoryInv(ServedRegister(n, register, capability, peer))
  {
    if RegisterShell(n.engine, register.request, capability, peer).Ok? {
      GrantKeepsDirectory(n, register, capability, peer);
    } else {
      var issued := n.issued + {capability};
      UnrelatedKeepsDirectory(n, n.engine, issued);
      RefusalKeepsDirectory(n.(engine := n.engine, issued := issued), register.rid);
      assert n.(engine := n.engine, issued := issued) == n.(issued := issued);
    }
  }

  lemma OthersKeepDirectory(n: Net, act: Act)
    requires DirectoryInv(n) && Can(n, act) && (act.OtherRegister? || act.OtherEvent? || act.Restart?)
    ensures DirectoryInv(Do(n, act))
  {
    match act
    case OtherRegister(r, capability, peer) =>
      OtherInput(n.engine, Register(r, capability, peer), n.client.shell);
      UnrelatedKeepsDirectory(n, React(n.engine, Register(r, capability, peer)), n.issued + {capability});
    case OtherEvent(r) =>
      OtherInput(n.engine, Event(r), n.client.shell);
      UnrelatedKeepsDirectory(n, React(n.engine, Event(r)), n.issued);
      assert n.(engine := React(n.engine, Event(r)), issued := n.issued) == Do(n, act);
    case Restart(snapshot) =>
      UnrelatedKeepsDirectory(n, Started(snapshot), n.issued);
      assert n.(engine := Started(snapshot), issued := n.issued) == Do(n, act);
  }

  lemma StepKeepsDirectory(n: Net, act: Act)
    requires DirectoryInv(n) && Can(n, act) && (act.Frame? ==> act.now >= 0.0)
    ensures DirectoryInv(Do(n, act))
  {
    match act
    case Frame(op, now) => FrameKeepsDirectory(n, op, now);
    case ReplyArrives(message, now) => ReplyKeepsDirectory(n, message, now);
    case GiveUp(now) => GiveUpKeepsInv(n, now);
    case ServeRegister(register, capability, peer) => ServeRegisterKeepsDirectory(n, register, capability, peer);
    case ServeEvent(event) =>
      if ApplyEvent(n.engine, event.request).Ok? {
        AcceptKeepsDirectory(n, event);
      } else {
        RefusalKeepsDirectory(n, event.rid);
      }
    case _ => OthersKeepDirectory(n, act);
  }

  lemma {:induction false} RunKeepsDirectory(n: Net, acts: seq<Act>)
    requires DirectoryInv(n) && CanRun(n, acts) && ClockOk(acts)
    ensures DirectoryInv(Run(n, acts))
    decreases |acts|
  {
    if acts != [] {
      StepKeepsDirectory(n, acts[0]);
      RunKeepsDirectory(Do(n, acts[0]), acts[1..]);
    }
  }

  /** Whatever was lost, dropped during a backoff or delivered late: a bridge that holds the current capability and
      waits for nothing has the shell stored in the directory of the last frame that named one. */
  lemma QuietBridgeIsStoredRight(client: Client, snapshot: Snapshot, acts: seq<Act>)
    requires CanRun(Boot(client, snapshot), acts) && ClockOk(acts)
    ensures var n := Run(Boot(client, snapshot), acts);
            n.outstanding.Idle? && n.bridge.capability.Some? && Current(n, n.bridge.capability.value) ==>
              var shell := FindShell(n.engine.snapshot.shells, n.client.shell);
              shell.Some? && Some(shell.value.cwd) == DirectoryAfter(n.frames, None)
  {
    RunKeepsDirectory(Boot(client, snapshot), acts);
  }
}
