/** A client and a server joined by a datagram network.

    Every datagram an endpoint has ever sent stays in its log; a delivery hands the bytes of
    any logged datagram to the peer. Reordering is delivering out of log order, duplication
    is delivering one twice, loss is never delivering one. `seen` records which of the
    peer's datagrams have arrived at least once, so a datagram is in flight until it is in
    the receiver's `seen`. */
module Network {
  import opened ByteOrder
  import opened Protocol
  import opened CoreSpec
  import opened Receiver
  import opened MachineRuns
  import opened Delivery

  /** A machine with its history: the messages it sent, which of the peer's it has seen, the
      payloads the application submitted, the messages handed to the application, and the
      peer's timer proposals it has committed to. */
  datatype Endpoint = Endpoint(
    core: Core,
    log: seq<Msg>,
    seen: set<nat>,
    submitted: seq<Bytes>,
    received: seq<(u64, Bytes)>,
    agreed: set<(u32, TimerProposal)>)

  datatype System = System(client: Endpoint, server: Endpoint)

  datatype Act =
    | Local(input: Input)
    | Deliver(index: nat, now: nat, path: u32)

  function Messages(sends: seq<Send>): (ms: seq<Msg>)
    ensures |ms| == |sends|
    ensures forall i :: 0 <= i < |sends| ==> ms[i] == sends[i].msg
  {
    seq(|sends|, i requires 0 <= i < |sends| => sends[i].msg)
  }

  /** Output of a failed call is dropped; its state changes stay. */
  function Absorb(e: Endpoint, s: Step): Endpoint {
    if s.out.Err? then e.(core := s.core)
    else e.(core := s.core, log := e.log + Messages(s.out.value.sends),
            received := e.received + Received(s.out.value.events))
  }

  /** Calls the environment may make: no datagrams but the peer's, and neither the 64-bit
      message ids nor the 32-bit proposal ids run out. */
  predicate Possible(e: Endpoint, peerLog: seq<Msg>, a: Act) {
    match a
    case Deliver(i, _, _) => i < |peerLog| && WellFormed(peerLog[i])
    case Local(input) =>
      && !input.Datagram? && Allowed(e.core, input)
      && (input.ProposeTimers? ==> e.core.nextProposalId < U32_MAX)
  }

  function AgreedBy(m: Msg, s: Step): set<(u32, TimerProposal)> {
    if m.Status? && m.reneg.Propose? && s.out.Ok?
       && TimerRenegotiationCommitted(m.reneg.proposalId) in s.out.value.events
    then {(m.reneg.proposalId, m.reneg.proposal)}
    else {}
  }

  function StepEnd(e: Endpoint, peerLog: seq<Msg>, a: Act): Endpoint
    requires Possible(e, peerLog, a)
  {
    match a
    case Deliver(i, now, path) =>
      var s := OnDatagram(e.core, now, path, Render(e.core.cid, peerLog[i]));
      var d := Absorb(e, s);
      d.(seen := e.seen + {i}, agreed := e.agreed + AgreedBy(peerLog[i], s))
    case Local(input) =>
      var d := Absorb(e, Apply(e.core, input));
      if input.SendMessage? then d.(submitted := e.submitted + [input.payload]) else d
  }

  /** One endpoint acts; an impossible action changes nothing. */
  function Next(s: System, side: Role, a: Act): System {
    if side == Client then
      if Possible(s.client, s.server.log, a) then s.(client := StepEnd(s.client, s.server.log, a)) else s
    else
      if Possible(s.server, s.client.log, a) then s.(server := StepEnd(s.server, s.client.log, a)) else s
  }

  function Play(s: System, acts: seq<(Role, Act)>): System
    decreases |acts|
  {
    if acts == [] then s else Play(Next(s, acts[0].0, acts[0].1), acts[1..])
  }

  function Fresh(role: Role, cid: u64, cfg: Config): Endpoint {
    Endpoint(Init(role, cid, cfg), [], {}, [], [], {})
  }

  function Boot(cid: u64, clientCfg: Config, serverCfg: Config): System {
    System(Fresh(Client, cid, clientCfg), Fresh(Server, cid, serverCfg))
  }

  /** The step a delivery takes, message by message. */
  lemma DeliveryIsOnMsg(e: Endpoint, peerLog: seq<Msg>, i: nat, now: nat, path: u32)
    requires Possible(e, peerLog, Deliver(i, now, path))
    ensures OnDatagram(e.core, now, path, Render(e.core.cid, peerLog[i]))
         == OnMsg(Arrive(e.core, now, path), now, path, peerLog[i])
  {
    DeliverMsg(e.core, now, path, peerLog[i]);
  }

  /** No datagram is in flight to this endpoint. */
  ghost predicate AllSeen(e: Endpoint, peerLog: seq<Msg>) {
    forall i :: 0 <= i < |peerLog| ==> i in e.seen
  }

  ghost predicate Quiet(s: System) {
    AllSeen(s.client, s.server.log) && AllSeen(s.server, s.client.log)
  }
}
