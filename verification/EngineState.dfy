/** The capture engine of state.py: an immutable state, replaced by every registration and every accepted event. */
module EngineState {
  import opened Wrappers

  const MAX_SHELLS: nat := 256

  type ShellId = string
  type Capability = string

  datatype Identity = Identity(boot: string, pid: int, start: nat)

  datatype Command = Command(sequence: nat, text: string)

  datatype Shell = Shell(
    id: ShellId,
    identity: Identity,
    adapter: string,
    cwd: string,
    lastSequence: nat,
    command: Option<Command>,
    exited: bool)

  datatype Snapshot = Snapshot(generation: nat, shells: seq<Shell>)

  datatype Registration = Registration(
    capability: Capability,
    identity: Identity,
    lastSequence: nat,
    lastCommandSequence: nat)

  datatype Engine = Engine(snapshot: Snapshot, registrations: map<ShellId, Registration>, dirtyGeneration: nat)

  datatype RegisterRequest = RegisterRequest(
    shell: ShellId, identity: Identity, adapter: string, cwd: string, sequence: nat)

  datatype Operation =
    | CommandStarted(commandSequence: nat, text: string)
    | CommandFinished(commandSequence: nat)
    | PromptReady(cwd: string)
    | CwdChanged(cwd: string)
    | ExplicitExit

  datatype EventRequest = EventRequest(
    operation: Operation, shell: ShellId, capability: Capability, identity: Identity, sequence: nat)

  datatype EngineError =
    | SequenceNotZero
    | UnsupportedAdapter
    | PeerMismatch
    | CapabilityCollision
    | TooManyShells
    | NotRegistered
    | AuthorityRejected
    | IdentityRejected
    | SequenceRejected
    | ShellMissing
    | Terminated
    | CommandSequenceRejected

  const SUPPORTED_ADAPTERS: set<string> := {"gnome-terminal", "konsole", "xfce4-terminal", "kitty", "ghostty"}

  // ----- shells, by id -----

  function ShellIds(shells: seq<Shell>): (ids: seq<ShellId>)
    ensures |ids| == |shells| && forall i :: 0 <= i < |shells| ==> ids[i] == shells[i].id
  {
    seq(|shells|, i requires 0 <= i < |shells| => shells[i].id)
  }

  /** Position of the first shell with this id; the length if there is none. */
  function IndexOf(shells: seq<Shell>, id: ShellId): (i: nat)
    ensures i <= |shells|
    ensures i < |shells| ==> shells[i].id == id
    ensures forall j :: 0 <= j < i ==> shells[j].id != id
  {
    if shells == [] || shells[0].id == id then 0 else 1 + IndexOf(shells[1..], id)
  }

  function FindShell(shells: seq<Shell>, id: ShellId): Option<Shell> {
    var i := IndexOf(shells, id);
    if i < |shells| then Some(shells[i]) else None
  }

  function ReplaceOrAppend(shells: seq<Shell>, shell: Shell): seq<Shell> {
    var i := IndexOf(shells, shell.id);
    if i < |shells| then shells[i := shell] else shells + [shell]
  }

  method ReplaceOrAppendShell(shells: seq<Shell>, replacement: Shell) returns (updated: seq<Shell>)
    ensures updated == ReplaceOrAppend(shells, replacement)
  {
    updated := shells;
    for i := 0 to |shells|
      invariant updated == shells
      invariant forall j :: 0 <= j < i ==> shells[j].id != replacement.id
    {
      if updated[i].id == replacement.id {
        updated := updated[i := replacement];
        return;
      }
    }
    updated := updated + [replacement];
  }

  // ----- the two operations -----

  function RegisterShell(
    e: Engine, r: RegisterRequest, capability: Capability, peer: Option<int>): Result<Engine, EngineError>
  {
    if r.sequence != 0 then Err(SequenceNotZero)
    else if r.adapter !in SUPPORTED_ADAPTERS then Err(UnsupportedAdapter)
    else if peer.Some? && r.identity.pid != peer.value then Err(PeerMismatch)
    else
      var known := r.shell in e.registrations;
      var shellBefore := FindShell(e.snapshot.shells, r.shell);
      var preserved :=
        if !known then r.sequence
        else if shellBefore.Some? then shellBefore.value.lastSequence
        else e.registrations[r.shell].lastSequence;
      var shell := Shell(r.shell, r.identity, r.adapter, r.cwd, preserved, None, false);
      if exists id :: id in e.registrations && id != r.shell && e.registrations[id].capability == capability then
        Err(CapabilityCollision)
      else
        var registration :=
          if known then
            e.registrations[r.shell].(capability := capability, identity := r.identity)
          else Registration(capability, r.identity, r.sequence, 0);
        var shells := ReplaceOrAppend(e.snapshot.shells, shell);
        if |shells| > MAX_SHELLS then Err(TooManyShells)
        else
          var generation := e.dirtyGeneration + 1;
          Ok(Engine(Snapshot(generation, shells), e.registrations[r.shell := registration], generation))
  }

  function ReduceShell(shell: Shell, registration: Registration, op: Operation): Result<Shell, EngineError> {
    match op
    case CommandStarted(sequence, text) =>
      if sequence <= registration.lastCommandSequence then Err(CommandSequenceRejected)
      else Ok(shell.(command := Some(Command(sequence, text))))
    case CommandFinished(sequence) =>
      if shell.command.None? || shell.command.value.sequence != sequence then Err(CommandSequenceRejected)
      else Ok(shell.(command := None))
    case PromptReady(cwd) => Ok(shell.(cwd := cwd, command := None))
    case CwdChanged(cwd) => Ok(shell.(cwd := cwd))
    case ExplicitExit => Ok(shell.(exited := true))
  }

  function ApplyEvent(e: Engine, r: EventRequest): Result<Engine, EngineError> {
    if r.shell !in e.registrations then Err(NotRegistered)
    else
      var registration := e.registrations[r.shell];
      if registration.capability != r.capability then Err(AuthorityRejected)
      else if registration.identity != r.identity then Err(IdentityRejected)
      else if r.sequence <= registration.lastSequence then Err(SequenceRejected)
      else
        var i := IndexOf(e.snapshot.shells, r.shell);
        if i == |e.snapshot.shells| then Err(ShellMissing)
        else if e.snapshot.shells[i].exited then Err(Terminated)
        else
          var reduced := ReduceShell(e.snapshot.shells[i], registration, r.operation);
          if reduced.Err? then Err(reduced.error)
          else
            var lastCommand :=
              if r.operation.CommandStarted? then r.operation.commandSequence else registration.lastCommandSequence;
            var generation := e.dirtyGeneration + 1;
            Ok(Engine(
              Snapshot(generation, e.snapshot.shells[i := reduced.value.(lastSequence := r.sequence)]),
              e.registrations[r.shell :=
                registration.(lastSequence := r.sequence, lastCommandSequence := lastCommand)],
              generation))
  }

  // ----- what every run of the engine keeps -----

  ghost predicate Agree(shell: Shell, registration: Registration) {
    && shell.lastSequence == registration.lastSequence
    && shell.identity == registration.identity
    && (shell.command.Some? ==> shell.command.value.sequence == registration.lastCommandSequence)
  }

  ghost predicate EngineOk(e: Engine) {
    && Unique(ShellIds(e.snapshot.shells))
    && e.snapshot.generation == e.dirtyGeneration
    && (forall id :: id in e.registrations ==>
          var i := IndexOf(e.snapshot.shells, id);
          i < |e.snapshot.shells| && Agree(e.snapshot.shells[i], e.registrations[id]))
    && (forall a, b :: a in e.registrations && b in e.registrations && a != b ==>
          e.registrations[a].capability != e.registrations[b].capability)
  }

  /** The state of a service that has just loaded a snapshot. */
  function Started(snapshot: Snapshot): Engine {
    Engine(snapshot, map[], snapshot.generation)
  }

  lemma {:induction false} IndexAfterUpdate(shells: seq<Shell>, i: nat, shell: Shell, id: ShellId)
    requires i < |shells| && shells[i].id == shell.id
    ensures IndexOf(shells[i := shell], id) == IndexOf(shells, id)
  {
    if shells[0].id != id && shells[i := shell][0].id != id {
      if i == 0 {
        assert shells[i := shell][1..] == shells[1..];
      } else {
        assert shells[i := shell][1..] == shells[1..][i - 1 := shell];
        IndexAfterUpdate(shells[1..], i - 1, shell, id);
      }
    }
  }

  lemma {:induction false} IndexAfterAppend(shells: seq<Shell>, shell: Shell, id: ShellId)
    ensures IndexOf(shells + [shell], id)
         == if IndexOf(shells, id) < |shells| || shell.id == id then IndexOf(shells, id) else |shells| + 1
  {
    if shells != [] && shells[0].id != id {
      assert (shells + [shell])[1..] == shells[1..] + [shell];
      IndexAfterAppend(shells[1..], shell, id);
    }
  }

  /** Replacing or appending touches the one shell with that id. */
  lemma ReplacedShells(shells: seq<Shell>, shell: Shell, id: ShellId)
    requires Unique(ShellIds(shells))
    ensures Unique(ShellIds(ReplaceOrAppend(shells, shell)))
    ensures FindShell(ReplaceOrAppend(shells, shell), id) == if id == shell.id then Some(shell) else FindShell(shells, id)
  {
    var i := IndexOf(shells, shell.id);
    if i < |shells| {
      assert ShellIds(shells[i := shell]) == ShellIds(shells);
      IndexAfterUpdate(shells, i, shell, id);
      if id != shell.id && IndexOf(shells, id) == i {
        assert false;
      }
    } else {
      IndexAfterAppend(shells, shell, id);
      assert ShellIds(shells + [shell]) == ShellIds(shells) + [shell.id];
    }
  }

  /** A new shell record and a new registration that agree keep the state sound, if the capability is not taken. */
  lemma UpdateKeepsEngineOk(e: Engine, shell: Shell, registration: Registration)
    requires EngineOk(e) && Agree(shell, registration)
    requires forall id :: id in e.registrations && id != shell.id ==>
                            e.registrations[id].capability != registration.capability
    ensures EngineOk(Engine(
              Snapshot(e.dirtyGeneration + 1, ReplaceOrAppend(e.snapshot.shells, shell)),
              e.registrations[shell.id := registration],
              e.dirtyGeneration + 1))
  {
    var shells := ReplaceOrAppend(e.snapshot.shells, shell);
    var registrations := e.registrations[shell.id := registration];
    ReplacedShells(e.snapshot.shells, shell, shell.id);
    forall id | id in registrations
      ensures var i := IndexOf(shells, id); i < |shells| && Agree(shells[i], registrations[id])
    {
      ReplacedShells(e.snapshot.shells, shell, id);
      assert FindShell(shells, id) == if id == shell.id then Some(shell) else FindShell(e.snapshot.shells, id);
    }
  }

  lemma RegisterKeepsEngineOk(e: Engine, r: RegisterRequest, capability: Capability, peer: Option<int>)
    requires EngineOk(e) && RegisterShell(e, r, capability, peer).Ok?
    ensures EngineOk(RegisterShell(e, r, capability, peer).value)
  {
    var registration := RegisterShell(e, r, capability, peer).value.registrations[r.shell];
    UpdateKeepsEngineOk(
      e, Shell(r.shell, r.identity, r.adapter, r.cwd, registration.lastSequence, None, false), registration);
  }

  lemma EventKeepsEngineOk(e: Engine, r: EventRequest)
    requires EngineOk(e) && ApplyEvent(e, r).Ok?
    ensures EngineOk(ApplyEvent(e, r).value)
  {
    var i := IndexOf(e.snapshot.shells, r.shell);
    assert Agree(e.snapshot.shells[i], e.registrations[r.shell]);
    var e' := ApplyEvent(e, r).value;
    UpdateKeepsEngineOk(e, e'.snapshot.shells[i], e'.registrations[r.shell]);
  }

  // ----- runs -----

  datatype Input =
    | Register(request: RegisterRequest, capability: Capability, peer: Option<int>)
    | Event(event: EventRequest)

  /** The service replaces its state when an operation succeeds and keeps it when one is refused. */
  function React(e: Engine, input: Input): Engine {
    var result :=
      match input
      case Register(r, capability, peer) => RegisterShell(e, r, capability, peer)
      case Event(r) => ApplyEvent(e, r);
    if result.Ok? then result.value else e
  }

  function ReactAll(e: Engine, inputs: seq<Input>): Engine
    decreases |inputs|
  {
    if inputs == [] then e else ReactAll(React(e, inputs[0]), inputs[1..])
  }

  predicate Accepts(e: Engine, input: Input, id: ShellId) {
    input.Event? && input.event.shell == id && ApplyEvent(e, input.event).Ok?
  }

  /** The event sequences accepted for one shell, in order. */
  function AcceptedSequences(e: Engine, inputs: seq<Input>, id: ShellId): seq<nat>
    decreases |inputs|
  {
    if inputs == [] then []
    else
      (if Accepts(e, inputs[0], id) then [inputs[0].event.sequence] else [])
      + AcceptedSequences(React(e, inputs[0]), inputs[1..], id)
  }

  /** The command sequences of the command starts accepted for one shell, in order. */
  function AcceptedCommands(e: Engine, inputs: seq<Input>, id: ShellId): seq<nat>
    decreases |inputs|
  {
    if inputs == [] then []
    else
      (if Accepts(e, inputs[0], id) && inputs[0].event.operation.CommandStarted?
       then [inputs[0].event.operation.commandSequence] else [])
      + AcceptedCommands(React(e, inputs[0]), inputs[1..], id)
  }

  predicate Increasing(s: seq<nat>, floor: nat) {
    && (forall i :: 0 <= i < |s| ==> s[i] > floor)
    && (forall i, j :: 0 <= i < j < |s| ==> s[i] < s[j])
  }

  function LastSequence(e: Engine, id: ShellId): nat {
    if id in e.registrations then e.registrations[id].lastSequence else 0
  }

  function LastCommand(e: Engine, id: ShellId): nat {
    if id in e.registrations then e.registrations[id].lastCommandSequence else 0
  }

  lemma ReactKeepsEngineOk(e: Engine, input: Input)
    requires EngineOk(e)
    ensures EngineOk(React(e, input))
  {
    match input
    case Register(r, capability, peer) =>
      if RegisterShell(e, r, capability, peer).Ok? {
        RegisterKeepsEngineOk(e, r, capability, peer);
      }
    case Event(r) =>
      if ApplyEvent(e, r).Ok? {
        EventKeepsEngineOk(e, r);
      }
  }

  // Shells stay in place under their ids; a new one is appended.
  lemma ReactKeepsIds(e: Engine, input: Input)
    ensures ShellIds(e.snapshot.shells) <= ShellIds(React(e, input).snapshot.shells)
  {}

  lemma {:induction false} ReactAllKeepsIds(e: Engine, inputs: seq<Input>)
    ensures ShellIds(e.snapshot.shells) <= ShellIds(ReactAll(e, inputs).snapshot.shells)
    decreases |inputs|
  {
    if inputs != [] {
      ReactKeepsIds(e, inputs[0]);
      ReactAllKeepsIds(React(e, inputs[0]), inputs[1..]);
    }
  }

  /** Over every run from a loaded snapshot, if and only if no two shells of the snapshot share an id: nothing the engine
      does makes or removes such a pair. */
  lemma RunsKeepEngineOk(snapshot: Snapshot, inputs: seq<Input>)
    ensures EngineOk(ReactAll(Started(snapshot), inputs)) <==> Unique(ShellIds(snapshot.shells))
  {
    if Unique(ShellIds(snapshot.shells)) {
      ReactAllKeepsEngineOk(Started(snapshot), inputs);
    } else {
      ReactAllKeepsIds(Started(snapshot), inputs);
      var ids, all := ShellIds(snapshot.shells), ShellIds(ReactAll(Started(snapshot), inputs).snapshot.shells);
      var i, j :| 0 <= i < j < |ids| && ids[i] == ids[j];
      assert all[i] == all[j];
    }
  }

  lemma {:induction false} ReactAllKeepsEngineOk(e: Engine, inputs: seq<Input>)
    requires EngineOk(e)
    ensures EngineOk(ReactAll(e, inputs))
    decreases |inputs|
  {
    if inputs != [] {
      ReactKeepsEngineOk(e, inputs[0]);
      ReactAllKeepsEngineOk(React(e, inputs[0]), inputs[1..]);
    }
  }

  lemma PrependIncreasing(first: nat, rest: seq<nat>, floor: nat)
    requires first > floor && Increasing(rest, first)
    ensures Increasing([first] + rest, floor)
  {}

  // What one request does to the watermarks of a shell.
  lemma WatermarksMove(e: Engine, input: Input, id: ShellId)
    ensures var e' := React(e, input);
            if Accepts(e, input, id) then
              && input.event.sequence > LastSequence(e, id) && LastSequence(e', id) == input.event.sequence
              && (if input.event.operation.CommandStarted? then
                    && input.event.operation.commandSequence > LastCommand(e, id)
                    && LastCommand(e', id) == input.event.operation.commandSequence
                  else LastCommand(e', id) == LastCommand(e, id))
            else LastSequence(e', id) == LastSequence(e, id) && LastCommand(e', id) == LastCommand(e, id)
  {}

  lemma {:induction false} SequencesIncrease(e: Engine, inputs: seq<Input>, id: ShellId)
    ensures Increasing(AcceptedSequences(e, inputs, id), LastSequence(e, id))
    decreases |inputs|
  {
    if inputs != [] {
      var e' := React(e, inputs[0]);
      var rest := AcceptedSequences(e', inputs[1..], id);
      SequencesIncrease(e', inputs[1..], id);
      WatermarksMove(e, inputs[0], id);
      if Accepts(e, inputs[0], id) {
        PrependIncreasing(inputs[0].event.sequence, rest, LastSequence(e, id));
      } else {
        assert [] + rest == rest;
      }
    }
  }

  lemma {:induction false} CommandsIncrease(e: Engine, inputs: seq<Input>, id: ShellId)
    ensures Increasing(AcceptedCommands(e, inputs, id), LastCommand(e, id))
    decreases |inputs|
  {
    if inputs != [] {
      var e' := React(e, inputs[0]);
      var rest := AcceptedCommands(e', inputs[1..], id);
      CommandsIncrease(e', inputs[1..], id);
      WatermarksMove(e, inputs[0], id);
      if Accepts(e, inputs[0], id) && inputs[0].event.operation.CommandStarted? {
        PrependIncreasing(inputs[0].event.operation.commandSequence, rest, LastCommand(e, id));
      } else {
        assert [] + rest == rest;
      }
    }
  }

  /** Within one service run, whatever is registered again in between, no event and no command start is accepted
      twice or out of order: the accepted numbers strictly increase from the shell's watermarks. */
  lemma NothingIsReplayed(e: Engine, inputs: seq<Input>, id: ShellId)
    ensures Increasing(AcceptedSequences(e, inputs, id), LastSequence(e, id))
    ensures Increasing(AcceptedCommands(e, inputs, id), LastCommand(e, id))
  {
    SequencesIncrease(e, inputs, id);
    CommandsIncrease(e, inputs, id);
  }
}
