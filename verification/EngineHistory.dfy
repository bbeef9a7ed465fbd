/**
 The capture engine seen from its history: what it stores of a shell, and which inputs it accepts, said by the inputs it
 has accepted since the snapshot was loaded and without the functions that reduce them.
 */
module EngineHistory {
  import opened Wrappers
  import opened EngineState

  type History = seq<Input>

  function About(input: Input): ShellId {
    match input
    case Register(r, _, _) => r.shell
    case Event(r) => r.shell
  }

  predicate WasAccepted(e: Engine, input: Input) {
    match input
    case Register(r, capability, peer) => RegisterShell(e, r, capability, peer).Ok?
    case Event(r) => ApplyEvent(e, r).Ok?
  }

  /** The inputs accepted on the way, in order. */
  function AcceptedInputs(e: Engine, inputs: seq<Input>): History
    decreases |inputs|
  {
    if inputs == [] then []
    else (if WasAccepted(e, inputs[0]) then [inputs[0]] else []) + AcceptedInputs(React(e, inputs[0]), inputs[1..])
  }

  // ----- what a history says of a shell: each function finds the last input that settles it -----

  function Front(h: History): History
    requires h != []
  {
    h[..|h| - 1]
  }

  function Last(h: History): Input
    requires h != []
  {
    h[|h| - 1]
  }

  predicate IsRegistered(h: History, id: ShellId) {
    exists i :: 0 <= i < |h| && h[i].Register? && About(h[i]) == id
  }

  /** The directory of the last registration, prompt or directory event. */
  function Directory(h: History, id: ShellId, initial: string): string {
    if h == [] then initial
    else if About(Last(h)) != id then Directory(Front(h), id, initial)
    else match Last(h)
      case Register(r, _, _) => r.cwd
      case Event(r) =>
        match r.operation
        case PromptReady(cwd) => cwd
        case CwdChanged(cwd) => cwd
        case _ => Directory(Front(h), id, initial)
  }

  /** The last command started, unless a finish, a prompt or a registration came after it. */
  function Running(h: History, id: ShellId, initial: Option<Command>): Option<Command> {
    if h == [] then initial
    else if About(Last(h)) != id then Running(Front(h), id, initial)
    else match Last(h)
      case Register(_, _, _) => None
      case Event(r) =>
        match r.operation
        case CommandStarted(number, text) => Some(Command(number, text))
        case CommandFinished(_) => None
        case PromptReady(_) => None
        case _ => Running(Front(h), id, initial)
  }

  /** An exit was accepted since the last registration. */
  function Exited(h: History, id: ShellId, initial: bool): bool {
    if h == [] then initial
    else if About(Last(h)) != id then Exited(Front(h), id, initial)
    else match Last(h)
      case Register(_, _, _) => false
      case Event(r) => r.operation.ExplicitExit? || Exited(Front(h), id, initial)
  }

  /** The sequence of the last event, over all registrations of this service run. */
  function LastEvent(h: History, id: ShellId): nat {
    if h == [] then 0
    else if Last(h).Event? && About(Last(h)) == id then Last(h).event.sequence
    else LastEvent(Front(h), id)
  }

  function LastStart(h: History, id: ShellId): nat {
    if h == [] then 0
    else if Last(h).Event? && About(Last(h)) == id && Last(h).event.operation.CommandStarted? then
      Last(h).event.operation.commandSequence
    else LastStart(Front(h), id)
  }

  /** The last registration. */
  function LastRegistration(h: History, id: ShellId): (r: Option<Input>)
    ensures r.Some? <==> IsRegistered(h, id)
    ensures r.Some? ==> r.value.Register? && About(r.value) == id
  {
    if h == [] then None
    else if Last(h).Register? && About(Last(h)) == id then Some(Last(h))
    else
      assert h == Front(h) + [Last(h)];
      LastRegistration(Front(h), id)
  }

  // ----- the engine that goes with a history -----

  function ShellOf(before: Option<Shell>, h: History, id: ShellId): Option<Shell> {
    match LastRegistration(h, id)
    case Some(Register(r, _, _)) =>
      Some(Shell(id, r.identity, r.adapter, Directory(h, id, ""), LastEvent(h, id), Running(h, id, None),
                 Exited(h, id, false)))
    case _ => before
  }

  function RegistrationOf(h: History, id: ShellId): Registration
    requires IsRegistered(h, id)
  {
    var last := LastRegistration(h, id).value;
    Registration(last.capability, last.request.identity, LastEvent(h, id), LastStart(h, id))
  }

  ghost predicate Follows(snapshot: Snapshot, e: Engine, h: History) {
    && (forall id :: FindShell(e.snapshot.shells, id) == ShellOf(FindShell(snapshot.shells, id), h, id))
    && (forall id :: id in e.registrations <==> IsRegistered(h, id))
    && (forall id :: id in e.registrations ==> e.registrations[id] == RegistrationOf(h, id))
    && e.dirtyGeneration == e.snapshot.generation == snapshot.generation + |h|
  }

  // ----- one more input -----

  lemma FoundAfterReplace(shells: seq<Shell>, shell: Shell, id: ShellId)
    ensures FindShell(ReplaceOrAppend(shells, shell), id) == if id == shell.id then Some(shell) else FindShell(shells, id)
  {
    var i := IndexOf(shells, shell.id);
    if i < |shells| {
      IndexAfterUpdate(shells, i, shell, id);
    } else {
      IndexAfterAppend(shells, shell, id);
    }
  }

  // An input about another shell says nothing of this one.
  lemma UnconcernedHistory(before: Option<Shell>, h: History, input: Input, id: ShellId)
    requires About(input) != id
    ensures LastRegistration(h + [input], id) == LastRegistration(h, id)
    ensures IsRegistered(h + [input], id) <==> IsRegistered(h, id)
    ensures ShellOf(before, h + [input], id) == ShellOf(before, h, id)
    ensures IsRegistered(h, id) ==> RegistrationOf(h + [input], id) == RegistrationOf(h, id)
  {
    assert Front(h + [input]) == h && Last(h + [input]) == input;
  }

  lemma EventHistory(h: History, r: EventRequest)
    requires IsRegistered(h, r.shell)
    ensures var h' := h + [Event(r)];
            && LastRegistration(h', r.shell) == LastRegistration(h, r.shell)
            && LastEvent(h', r.shell) == r.sequence
            && LastStart(h', r.shell) == (if r.operation.CommandStarted? then r.operation.commandSequence
                                          else LastStart(h, r.shell))
  {
    assert Front(h + [Event(r)]) == h && Last(h + [Event(r)]) == Event(r);
  }

  lemma EventShell(before: Option<Shell>, h: History, r: EventRequest, shell: Shell, registration: Registration)
    requires IsRegistered(h, r.shell) && ShellOf(before, h, r.shell) == Some(shell)
    requires ReduceShell(shell, registration, r.operation).Ok?
    ensures ShellOf(before, h + [Event(r)], r.shell)
         == Some(ReduceShell(shell, registration, r.operation).value.(lastSequence := r.sequence))
  {
    EventHistory(h, r);
    assert Front(h + [Event(r)]) == h && Last(h + [Event(r)]) == Event(r);
  }

  lemma RegisterHistory(before: Option<Shell>, h: History, input: Input)
    requires input.Register?
    ensures var h', r := h + [input], input.request;
            && LastRegistration(h', r.shell) == Some(input)
            && LastEvent(h', r.shell) == LastEvent(h, r.shell) && LastStart(h', r.shell) == LastStart(h, r.shell)
            && ShellOf(before, h', r.shell)
               == Some(Shell(r.shell, r.identity, r.adapter, r.cwd, LastEvent(h, r.shell), None, false))
  {
    assert Front(h + [input]) == h && Last(h + [input]) == input;
    assert (h + [input])[|h|] == input;
  }

  /** Events are accepted of registered shells only. */
  ghost predicate OnlyRegistered(h: History) {
    forall i :: 0 <= i < |h| && h[i].Event? ==> IsRegistered(h[..i], About(h[i]))
  }

  lemma RegisteredStays(h: History, k: nat, id: ShellId)
    requires k <= |h|
    ensures IsRegistered(h[..k], id) ==> IsRegistered(h, id)
  {
    if i :| 0 <= i < k && h[..k][i].Register? && About(h[..k][i]) == id {
      assert h[i] == h[..k][i];
    }
  }

  lemma {:induction false} NothingAbout(h: History, id: ShellId)
    requires OnlyRegistered(h) && !IsRegistered(h, id)
    ensures LastEvent(h, id) == 0 && LastStart(h, id) == 0
  {
    if h != [] {
      var front := Front(h);
      assert forall i :: 0 <= i < |front| ==> front[..i] == h[..i];
      RegisteredStays(h, |h| - 1, id);
      NothingAbout(front, id);
    }
  }

  /** The engine with this shell and its registration put in. */
  ghost predicate Changes(e: Engine, e': Engine, shell: Shell, registration: Registration) {
    && e'.snapshot.shells == ReplaceOrAppend(e.snapshot.shells, shell)
    && e'.registrations == e.registrations[shell.id := registration]
    && e'.dirtyGeneration == e'.snapshot.generation == e.dirtyGeneration + 1
  }

  lemma ChangeFollows(
    snapshot: Snapshot, e: Engine, e': Engine, h: History, input: Input, shell: Shell, registration: Registration)
    requires Follows(snapshot, e, h) && Changes(e, e', shell, registration) && About(input) == shell.id
    requires Some(shell) == ShellOf(FindShell(snapshot.shells, shell.id), h + [input], shell.id)
    requires IsRegistered(h + [input], shell.id) && registration == RegistrationOf(h + [input], shell.id)
    ensures Follows(snapshot, e', h + [input])
  {
    var h' := h + [input];
    forall id
      ensures FindShell(e'.snapshot.shells, id) == ShellOf(FindShell(snapshot.shells, id), h', id)
      ensures id in e'.registrations <==> IsRegistered(h', id)
      ensures id in e'.registrations ==> e'.registrations[id] == RegistrationOf(h', id)
    {
      FoundAfterReplace(e.snapshot.shells, shell, id);
      if id != shell.id {
        UnconcernedHistory(FindShell(snapshot.shells, id), h, input, id);
      }
    }
  }

  lemma RegisterFollows(snapshot: Snapshot, e: Engine, h: History, input: Input)
    requires Follows(snapshot, e, h) && OnlyRegistered(h) && input.Register? && WasAccepted(e, input)
    ensures Follows(snapshot, React(e, input), h + [input])
  {
    var r, e' := input.request, React(e, input);
    RegisterHistory(FindShell(snapshot.shells, r.shell), h, input);
    if r.shell !in e.registrations {
      NothingAbout(h, r.shell);
    }
    var shell := Shell(r.shell, r.identity, r.adapter, r.cwd, LastEvent(h, r.shell), None, false);
    assert Changes(e, e', shell, e'.registrations[r.shell]);
    ChangeFollows(snapshot, e, e', h, input, shell, e'.registrations[r.shell]);
  }

  // What an accepted event leaves of its shell.
  function Reduced(e: Engine, r: EventRequest): Shell
    requires ApplyEvent(e, r).Ok?
  {
    var shell := e.snapshot.shells[IndexOf(e.snapshot.shells, r.shell)];
    ReduceShell(shell, e.registrations[r.shell], r.operation).value.(lastSequence := r.sequence)
  }

  function Renewed(e: Engine, r: EventRequest): Registration
    requires r.shell in e.registrations
  {
    var registration := e.registrations[r.shell];
    registration.(
      lastSequence := r.sequence,
      lastCommandSequence :=
        if r.operation.CommandStarted? then r.operation.commandSequence else registration.lastCommandSequence)
  }

  lemma EventChanges(e: Engine, r: EventRequest)
    requires ApplyEvent(e, r).Ok?
    ensures Changes(e, React(e, Event(r)), Reduced(e, r), Renewed(e, r)) && Reduced(e, r).id == r.shell
  {}

  lemma EventFollowsHere(snapshot: Snapshot, e: Engine, h: History, r: EventRequest)
    requires Follows(snapshot, e, h) && ApplyEvent(e, r).Ok?
    ensures Some(Reduced(e, r)) == ShellOf(FindShell(snapshot.shells, r.shell), h + [Event(r)], r.shell)
    ensures IsRegistered(h + [Event(r)], r.shell) && Renewed(e, r) == RegistrationOf(h + [Event(r)], r.shell)
  {
    var shells := e.snapshot.shells;
    var shell := shells[IndexOf(shells, r.shell)];
    assert FindShell(shells, r.shell) == Some(shell);
    EventHistory(h, r);
    EventShell(FindShell(snapshot.shells, r.shell), h, r, shell, e.registrations[r.shell]);
  }

  lemma EventFollows(snapshot: Snapshot, e: Engine, h: History, r: EventRequest)
    requires Follows(snapshot, e, h) && ApplyEvent(e, r).Ok?
    ensures Follows(snapshot, React(e, Event(r)), h + [Event(r)])
  {
    EventChanges(e, r);
    EventFollowsHere(snapshot, e, h, r);
    ChangeFollows(snapshot, e, React(e, Event(r)), h, Event(r), Reduced(e, r), Renewed(e, r));
  }

  lemma OneMoreAccepted(h: History, input: Input)
    requires OnlyRegistered(h) && (input.Event? ==> IsRegistered(h, About(input)))
    ensures OnlyRegistered(h + [input])
  {
    var h' := h + [input];
    forall i | 0 <= i < |h'| && h'[i].Event?
      ensures IsRegistered(h'[..i], About(h'[i]))
    {
      if i < |h| {
        assert h'[..i] == h[..i];
      } else {
        assert h'[..i] == h;
      }
    }
  }

  lemma StepFollows(snapshot: Snapshot, e: Engine, h: History, input: Input)
    requires Follows(snapshot, e, h) && OnlyRegistered(h)
    ensures var h' := h + if WasAccepted(e, input) then [input] else [];
            Follows(snapshot, React(e, input), h') && OnlyRegistered(h')
  {
    if WasAccepted(e, input) {
      OneMoreAccepted(h, input);
      match input
      case Register(_, _, _) => RegisterFollows(snapshot, e, h, input);
      case Event(r) => EventFollows(snapshot, e, h, r);
    } else {
      assert h + [] == h;
    }
  }

  lemma Joined(a: History, b: History, c: History)
    ensures (a + b) + c == a + (b + c)
  {}

  lemma {:induction false} RunFollows(snapshot: Snapshot, e: Engine, h: History, inputs: seq<Input>)
    requires Follows(snapshot, e, h) && OnlyRegistered(h)
    ensures Follows(snapshot, ReactAll(e, inputs), h + AcceptedInputs(e, inputs))
    ensures OnlyRegistered(h + AcceptedInputs(e, inputs))
    decreases |inputs|
  {
    if inputs == [] {
      assert h + [] == h;
    } else {
      var own, e' := if WasAccepted(e, inputs[0]) then [inputs[0]] else [], React(e, inputs[0]);
      StepFollows(snapshot, e, h, inputs[0]);
      RunFollows(snapshot, e', h + own, inputs[1..]);
      Joined(h, own, AcceptedInputs(e', inputs[1..]));
    }
  }

  lemma EngineFollows(snapshot: Snapshot, inputs: seq<Input>)
    ensures Follows(snapshot, ReactAll(Started(snapshot), inputs), AcceptedInputs(Started(snapshot), inputs))
  {
    RunFollows(snapshot, Started(snapshot), [], inputs);
    assert [] + AcceptedInputs(Started(snapshot), inputs) == AcceptedInputs(Started(snapshot), inputs);
  }

  // ----- what is stored -----

  /** A shell registered in this service run is stored with the identity and adapter of its last registration, the
      directory of its last registration, prompt or directory event, its last command unless that ended, and as exited
      exactly if it has since. Every other shell is as the snapshot had it. Each accepted input is one generation. */
  lemma ShellIsItsHistory(snapshot: Snapshot, inputs: seq<Input>, id: ShellId)
    ensures var e, h := ReactAll(Started(snapshot), inputs), AcceptedInputs(Started(snapshot), inputs);
            var before, after := FindShell(snapshot.shells, id), FindShell(e.snapshot.shells, id);
            && (!IsRegistered(h, id) ==> after == before)
            && (IsRegistered(h, id) ==>
                  var r := LastRegistration(h, id).value.request;
                  && after.Some? && after.value.identity == r.identity && after.value.adapter == r.adapter
                  && after.value.cwd == Directory(h, id, "")
                  && after.value.command == Running(h, id, None)
                  && after.value.exited == Exited(h, id, false)
                  && after.value.lastSequence == LastEvent(h, id))
            && e.snapshot.generation == snapshot.generation + |h|
  {
    EngineFollows(snapshot, inputs);
  }

  // ----- what is accepted -----

  // A command starts with a higher number than the last and ends with the number of the running one.
  predicate NumbersFit(op: Operation, lastStart: nat, running: Option<Command>) {
    && (op.CommandStarted? ==> op.commandSequence > lastStart)
    && (op.CommandFinished? ==> running.Some? && running.value.sequence == op.commandSequence)
  }

  lemma ReducesExactly(shell: Shell, registration: Registration, op: Operation)
    ensures ReduceShell(shell, registration, op).Ok? <==> NumbersFit(op, registration.lastCommandSequence, shell.command)
  {}

  lemma EventAcceptedByState(e: Engine, r: EventRequest)
    ensures ApplyEvent(e, r).Ok?
       <==> && r.shell in e.registrations && FindShell(e.snapshot.shells, r.shell).Some?
            && var registration, shell := e.registrations[r.shell], FindShell(e.snapshot.shells, r.shell).value;
               && registration.capability == r.capability && registration.identity == r.identity
               && r.sequence > registration.lastSequence && !shell.exited
               && NumbersFit(r.operation, registration.lastCommandSequence, shell.command)
  {
    if r.shell in e.registrations && FindShell(e.snapshot.shells, r.shell).Some? {
      ReducesExactly(FindShell(e.snapshot.shells, r.shell).value, e.registrations[r.shell], r.operation);
    }
  }

  /** An event is accepted if and only if its shell is registered and not exited, it carries the capability and identity of
      the last registration and a sequence above the last event's; a command start, a number above the last start's; a
      finish, the number of the running command. */
  lemma EventAcceptedExactly(snapshot: Snapshot, inputs: seq<Input>, r: EventRequest)
    ensures var e, h := ReactAll(Started(snapshot), inputs), AcceptedInputs(Started(snapshot), inputs);
            ApplyEvent(e, r).Ok?
            <==> && IsRegistered(h, r.shell)
                 && r.capability == LastRegistration(h, r.shell).value.capability
                 && r.identity == LastRegistration(h, r.shell).value.request.identity
                 && r.sequence > LastEvent(h, r.shell)
                 && !Exited(h, r.shell, false)
                 && NumbersFit(r.operation, LastStart(h, r.shell), Running(h, r.shell, None))
  {
    EngineFollows(snapshot, inputs);
    var e, h := ReactAll(Started(snapshot), inputs), AcceptedInputs(Started(snapshot), inputs);
    EventAcceptedByState(e, r);
    assert FindShell(e.snapshot.shells, r.shell) == ShellOf(FindShell(snapshot.shells, r.shell), h, r.shell);
    assert r.shell in e.registrations <==> IsRegistered(h, r.shell);
  }

  lemma EventRefusedByState(e: Engine, r: EventRequest)
    requires ApplyEvent(e, r).Err?
    requires r.shell in e.registrations ==> FindShell(e.snapshot.shells, r.shell).Some?
    ensures ApplyEvent(e, r).error
         == if r.shell !in e.registrations then NotRegistered
            else if r.capability != e.registrations[r.shell].capability then AuthorityRejected
            else if r.identity != e.registrations[r.shell].identity then IdentityRejected
            else if r.sequence <= e.registrations[r.shell].lastSequence then SequenceRejected
            else if FindShell(e.snapshot.shells, r.shell).value.exited then Terminated
            else CommandSequenceRejected
  {}

  /** A refused event is told the first of these reasons that applies; that a registered shell is missing never does. */
  lemma EventRefusedFor(snapshot: Snapshot, inputs: seq<Input>, r: EventRequest)
    requires ApplyEvent(ReactAll(Started(snapshot), inputs), r).Err?
    ensures var h := AcceptedInputs(Started(snapshot), inputs);
            var error := ApplyEvent(ReactAll(Started(snapshot), inputs), r).error;
            error == if !IsRegistered(h, r.shell) then NotRegistered
                     else if r.capability != LastRegistration(h, r.shell).value.capability then AuthorityRejected
                     else if r.identity != LastRegistration(h, r.shell).value.request.identity then IdentityRejected
                     else if r.sequence <= LastEvent(h, r.shell) then SequenceRejected
                     else if Exited(h, r.shell, false) then Terminated
                     else CommandSequenceRejected
  {
    EngineFollows(snapshot, inputs);
    var e, h := ReactAll(Started(snapshot), inputs), AcceptedInputs(Started(snapshot), inputs);
    assert FindShell(e.snapshot.shells, r.shell) == ShellOf(FindShell(snapshot.shells, r.shell), h, r.shell);
    assert r.shell in e.registrations <==> IsRegistered(h, r.shell);
    EventRefusedByState(e, r);
  }

  ghost predicate IsFree(h: History, shell: ShellId, capability: Capability) {
    forall id :: IsRegistered(h, id) && id != shell ==> LastRegistration(h, id).value.capability != capability
  }

  predicate HasRoom(shells: seq<Shell>, id: ShellId) {
    if exists i :: 0 <= i < |shells| && shells[i].id == id then |shells| <= 256 else |shells| < 256
  }

  lemma RoomExactly(shells: seq<Shell>, shell: Shell)
    ensures |ReplaceOrAppend(shells, shell)| <= 256 <==> HasRoom(shells, shell.id)
  {}

  lemma RegisterAcceptedByState(e: Engine, r: RegisterRequest, capability: Capability, peer: Option<int>)
    ensures RegisterShell(e, r, capability, peer).Ok?
       <==> && r.sequence == 0 && r.adapter in SUPPORTED_ADAPTERS && (peer.Some? ==> peer.value == r.identity.pid)
            && (forall id :: id in e.registrations && id != r.shell ==> e.registrations[id].capability != capability)
            && HasRoom(e.snapshot.shells, r.shell)
  {
    forall shell: Shell | shell.id == r.shell
      ensures |ReplaceOrAppend(e.snapshot.shells, shell)| <= 256 <==> HasRoom(e.snapshot.shells, r.shell)
    {
      RoomExactly(e.snapshot.shells, shell);
    }
  }

  lemma CapabilityIsFree(snapshot: Snapshot, e: Engine, h: History, shell: ShellId, capability: Capability)
    requires Follows(snapshot, e, h)
    ensures (forall id :: id in e.registrations && id != shell ==> e.registrations[id].capability != capability)
       <==> IsFree(h, shell, capability)
  {
    assert forall id :: id in e.registrations <==> IsRegistered(h, id);
    assert forall id :: id in e.registrations ==>
        e.registrations[id].capability == LastRegistration(h, id).value.capability;
  }

  lemma SupportedAdapters(adapter: string)
    ensures adapter in SUPPORTED_ADAPTERS
       <==> adapter in ["gnome-terminal", "konsole", "xfce4-terminal", "kitty", "ghostty"]
  {}

  /** A registration is accepted if and only if it starts at sequence 0, for one of the five terminals, from the process it
      names, with a capability no other shell holds, and there is room for its shell. */
  lemma RegistrationAcceptedExactly(
    snapshot: Snapshot, inputs: seq<Input>, r: RegisterRequest, capability: Capability, peer: Option<int>)
    ensures var e, h := ReactAll(Started(snapshot), inputs), AcceptedInputs(Started(snapshot), inputs);
            RegisterShell(e, r, capability, peer).Ok?
            <==> && r.sequence == 0
                 && r.adapter in ["gnome-terminal", "konsole", "xfce4-terminal", "kitty", "ghostty"]
                 && (peer.Some? ==> peer.value == r.identity.pid)
                 && IsFree(h, r.shell, capability)
                 && HasRoom(e.snapshot.shells, r.shell)
  {
    EngineFollows(snapshot, inputs);
    var e, h := ReactAll(Started(snapshot), inputs), AcceptedInputs(Started(snapshot), inputs);
    RegisterAcceptedByState(e, r, capability, peer);
    CapabilityIsFree(snapshot, e, h, r.shell, capability);
    SupportedAdapters(r.adapter);
  }

  lemma RegistrationRefusedByState(e: Engine, r: RegisterRequest, capability: Capability, peer: Option<int>)
    requires RegisterShell(e, r, capability, peer).Err?
    ensures RegisterShell(e, r, capability, peer).error
         == if r.sequence != 0 then SequenceNotZero
            else if r.adapter !in SUPPORTED_ADAPTERS then UnsupportedAdapter
            else if peer.Some? && peer.value != r.identity.pid then PeerMismatch
            else if exists id :: id in e.registrations && id != r.shell && e.registrations[id].capability == capability
            then CapabilityCollision
            else TooManyShells
  {}

  /** A refused registration is told the first of these reasons that applies. */
  lemma RegistrationRefusedFor(
    snapshot: Snapshot, inputs: seq<Input>, r: RegisterRequest, capability: Capability, peer: Option<int>)
    requires RegisterShell(ReactAll(Started(snapshot), inputs), r, capability, peer).Err?
    ensures var h := AcceptedInputs(Started(snapshot), inputs);
            RegisterShell(ReactAll(Started(snapshot), inputs), r, capability, peer).error
            == if r.sequence != 0 then SequenceNotZero
               else if r.adapter !in ["gnome-terminal", "konsole", "xfce4-terminal", "kitty", "ghostty"] then
                 UnsupportedAdapter
               else if peer.Some? && peer.value != r.identity.pid then PeerMismatch
               else if !IsFree(h, r.shell, capability) then CapabilityCollision
               else TooManyShells
  {
    EngineFollows(snapshot, inputs);
    var e, h := ReactAll(Started(snapshot), inputs), AcceptedInputs(Started(snapshot), inputs);
    RegistrationRefusedByState(e, r, capability, peer);
    CapabilityIsFree(snapshot, e, h, r.shell, capability);
    SupportedAdapters(r.adapter);
  }
}
