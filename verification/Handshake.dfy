/** The handshake as a run, and what single actions change: the start of every run shown at
    an input. */
module Handshake {
  import opened ByteOrder
  import opened Wrappers
  import opened Protocol
  import opened CoreSpec
  import opened MachineRuns
  import opened Delivery
  import opened Network
  import opened Completeness

  /** What a delivery adds to the set of commitments. */
  lemma DeliverAgrees(y: Endpoint, peerLog: seq<Msg>, i: nat, now: nat, path: u32)
    requires Possible(y, peerLog, Deliver(i, now, path))
    ensures StepEnd(y, peerLog, Deliver(i, now, path)).agreed
      == y.agreed + AgreedBy(peerLog[i], OnMsg(Arrive(y.core, now, path), now, path, peerLog[i]))
  {
    hide OnMsg, OnDatagram, Apply;
    DeliveryIsOnMsg(y, peerLog, i, now, path);
  }

  /** What a call of the application or a timer changes at an endpoint. */
  lemma LocalFields(x: Endpoint, peerLog: seq<Msg>, input: Input)
    requires Possible(x, peerLog, Local(input))
    ensures var s := Apply(x.core, input);
      var z := StepEnd(x, peerLog, Local(input));
      && z.core == s.core && z.agreed == x.agreed && z.seen == x.seen
      && z.submitted == (if input.SendMessage? then x.submitted + [input.payload] else x.submitted)
      && z.log == (if s.out.Ok? then x.log + Messages(s.out.value.sends) else x.log)
  {
    hide Apply;
  }

  /** Logs and submitted messages only grow. */
  lemma EndpointGrows(x: Endpoint, peerLog: seq<Msg>, a: Act)
    requires Possible(x, peerLog, a)
    ensures var z := StepEnd(x, peerLog, a); x.log <= z.log && x.submitted <= z.submitted && x.seen <= z.seen
  {
    hide OnMsg, Apply, StepEnd, OnDatagram;
    match a
    case Deliver(i, now, path) => DeliverFields(x, peerLog, i, now, path);
    case Local(input) => LocalFields(x, peerLog, input);
  }

  lemma {:induction false} PlaySplits(s: System, a: seq<(Role, Act)>, b: seq<(Role, Act)>)
    ensures Play(s, a + b) == Play(Play(s, a), b)
    decreases |a|
  {
    hide Next;
    if a == [] {
      assert a + b == b;
    } else {
      PlaySplits(Next(s, a[0].0, a[0].1), a[1..], b);
      assert (a + b)[1..] == a[1..] + b;
    }
  }

  /** The run from action `k` on: that action, then the rest. */
  lemma PlayFrom(s: System, acts: seq<(Role, Act)>, k: nat)
    requires k < |acts|
    ensures Play(s, acts[k..]) == Play(Next(s, acts[k].0, acts[k].1), acts[k + 1..])
  {
    hide Next;
    assert acts[k..][1..] == acts[k + 1..];
  }

  lemma PlayEnds(s: System, acts: seq<(Role, Act)>)
    ensures Play(s, acts[|acts|..]) == s
  {
  }

  /** The arrival of one of the peer's datagrams at time 0. */
  function Hear(i: nat): Act {
    Deliver(i, 0, 1)
  }

  // -------------------------------------------------------------------- the handshake

  const HANDSHAKE: seq<(Role, Act)> := [(Client, Local(Begin)), (Server, Deliver(0, 0, 1)), (Client, Deliver(0, 0, 1))]

  /** A machine that has just shaken hands: nothing sent, taken in or negotiated yet. */
  predicate Ready(c: Core, role: Role, cid: u64, cfg: Config) {
    && c.role == role && c.cid == cid && c.cfg == cfg && c.state == Established
    && c.nextProposalId == 1 && c.pendingLocal == None
    && c.nextOutboundId == 1 && c.outbound == map[] && c.lastRequestedEnd == 0 && c.lastOrderedRx == 0
    && c.clientMsrRx == 0
  }

  /** The state after the handshake. */
  ghost predicate Connected(s: System, cid: u64, cfg: Config) {
    && Ready(s.client.core, Client, cid, cfg) && Ready(s.server.core, Server, cid, cfg)
    && s.client.log == [Hello, HelloDone] && s.server.log == [HelloReply]
    && s.client.agreed == {} && s.server.agreed == {}
    && s.client.submitted == [] && s.server.submitted == []
    && s.client.seen == {0} && s.server.seen == {0}
  }

  lemma HandshakeSteps(cid: u64, cfg: Config)
    ensures var c0 := Init(Client, cid, cfg);
      var s0 := Init(Server, cid, cfg);
      var s1 := OnMsg(Arrive(s0, 0, 1), 0, 1, Hello);
      var c1 := OnMsg(Arrive(c0, 0, 1), 0, 1, HelloReply);
      && BeginHandshake(c0) == Step(c0, Ok(Out([Send(0, Hello)], [HandshakeStarted], [])))
      && s1.out.Ok? && Ready(s1.core, Server, cid, cfg)
      && |s1.out.value.sends| == 1 && s1.out.value.sends[0].msg == HelloReply
      && c1.out.Ok? && Ready(c1.core, Client, cid, cfg)
      && |c1.out.value.sends| == 1 && c1.out.value.sends[0].msg == HelloDone
  {
  }

  lemma HandshakeConnects(cid: u64, cfg: Config)
    ensures Connected(Play(Boot(cid, cfg, cfg), HANDSHAKE), cid, cfg)
    ensures SmoothRun(Boot(cid, cfg, cfg), HANDSHAKE)
  {
    hide OnMsg, OnDatagram, BeginHandshake, StepEnd, Ready;
    HandshakeSteps(cid, cfg);
    var s0 := Boot(cid, cfg, cfg);
    LocalFields(s0.client, s0.server.log, Begin);
    var s1 := Next(s0, Client, Local(Begin));
    assert s1.client.log == [Hello];
    DeliverFields(s1.server, s1.client.log, 0, 0, 1);
    DeliverAgrees(s1.server, s1.client.log, 0, 0, 1);
    var s2 := Next(s1, Server, Deliver(0, 0, 1));
    assert s2.server.log == [HelloReply];
    DeliverFields(s2.client, s2.server.log, 0, 0, 1);
    DeliverAgrees(s2.client, s2.server.log, 0, 0, 1);
    var s3 := Next(s2, Client, Deliver(0, 0, 1));
    assert s3.client.log == [Hello, HelloDone];
    var acts := HANDSHAKE;
    assert acts[1..][1..] == acts[2..] && acts[2..][1..] == [];
    assert Play(s0, acts) == Play(s1, acts[1..]) == Play(s2, acts[2..]) == s3;
    assert SmoothRun(s2, acts[2..]) && SmoothRun(s1, acts[1..]);
  }
}
