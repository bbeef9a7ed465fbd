/** How long the bridge keeps still after failures: a frame starts an exchange exactly when the delay has passed. */
module CaptureBackoff {
  import opened Wrappers
  import opened EngineState
  import opened Bridge
  import opened CaptureProtocol
  import opened CaptureDirectory

  /** How many exchanges have failed since a registration was last adopted, and when the last one did. */
  datatype Failures = Failures(count: nat, at: real)

  // Does this answer end the exchange the bridge waits for as it should?
  predicate Succeeds(n: Net, reply: Reply)
    requires !n.outstanding.Idle?
  {
    if n.outstanding.AwaitRegister? then reply.Registered? && 32 <= |reply.capability| <= 128
    else reply == Accepted(n.bridge.nextSequence)
  }

  function Counted(f: Failures, n: Net, reply: Reply, now: real): Failures
    requires !n.outstanding.Idle?
  {
    if !Succeeds(n, reply) then Failures(f.count + 1, now)
    else if n.outstanding.AwaitRegister? then Failures(0, now)
    else f
  }

  function CountedAct(f: Failures, n: Net, act: Act): Failures
    requires Can(n, act)
  {
    match act
    case ReplyArrives(message, now) => Counted(f, n, message.reply, now)
    case GiveUp(now) => Counted(f, n, Lost, now)
    case _ => f
  }

  function FailuresOf(f: Failures, n: Net, acts: seq<Act>): Failures
    requires CanRun(n, acts)
    decreases |acts|
  {
    if acts == [] then f else FailuresOf(CountedAct(f, n, acts[0]), Do(n, acts[0]), acts[1..])
  }

  /** The delay after so many failures in a row. */
  function Delay(count: nat): real {
    if count == 0 then 0.0
    else if count == 1 then 0.05
    else if count == 2 then 0.1
    else if count == 3 then 0.25
    else if count == 4 then 0.5
    else 1.0
  }

  predicate Open(f: Failures, now: real) {
    if f.count == 0 then now >= 0.0 else now >= f.at + Delay(f.count)
  }

  predicate BackoffInv(f: Failures, n: Net) {
    && n.bridge.retryIndex == Min(f.count, 4)
    && n.bridge.retryAt == (if f.count == 0 then 0.0 else f.at + Delay(f.count))
    && n.bridge.cwd == DirectoryAfter(n.frames, None)
  }

  lemma StepKeepsBackoff(f: Failures, n: Net, act: Act)
    requires BackoffInv(f, n) && Inv(n) && Can(n, act)
    ensures BackoffInv(CountedAct(f, n, act), Do(n, act))
  {
    if act.Frame? {
      DirectoryOfNext(n.frames, act.operation, n.bridge);
    }
  }

  lemma {:induction false} RunKeepsBackoff(f: Failures, n: Net, acts: seq<Act>)
    requires BackoffInv(f, n) && Inv(n) && CanRun(n, acts)
    ensures BackoffInv(FailuresOf(f, n, acts), Run(n, acts))
    decreases |acts|
  {
    if acts != [] {
      StepKeepsBackoff(f, n, acts[0]);
      StepKeepsInv(n, acts[0]);
      RunKeepsBackoff(CountedAct(f, n, acts[0]), Do(n, acts[0]), acts[1..]);
    }
  }

  /** Over every run: a frame starts an exchange if and only if some frame has named a directory and the delay for the
      failures in a row, counted from the last one, has passed; otherwise nothing is sent. */
  lemma ExchangesWaitExactly(client: Client, snapshot: Snapshot, acts: seq<Act>, op: Operation, now: real)
    requires CanRun(Boot(client, snapshot), acts) && Run(Boot(client, snapshot), acts).outstanding.Idle?
    ensures var n := Run(Boot(client, snapshot), acts);
            var f, n' := FailuresOf(Failures(0, 0.0), Boot(client, snapshot), acts), Do(n, Frame(op, now));
            && (!n'.outstanding.Idle? <==> DirectoryAfter(n.frames + [op], None).Some? && Open(f, now))
            && (n'.outstanding.Idle? ==> n'.events == n.events && n'.registers == n.registers)
  {
    var n := Run(Boot(client, snapshot), acts);
    RunKeepsBackoff(Failures(0, 0.0), Boot(client, snapshot), acts);
    RunKeepsInv(Boot(client, snapshot), acts);
    DirectoryOfNext(n.frames, op, n.bridge);
  }
}
