/** A message that is lost although no datagram is: its datagram arrives while the receiver is
    reactivating, is ignored, and ends the reactivation. The run leaves both sides in session
    with nothing in flight. */
module QuietLoss {
  import opened ByteOrder
  import opened Wrappers
  import opened Protocol
  import opened CoreSpec
  import opened MachineRuns
  import opened Delivery
  import opened Network
  import opened Completeness
  import opened Handshake

  /** A server with this one message queued. */
  predicate Serves(c: Core, msg: Bytes) {
    c.role == Server && c.state == Established && c.outbound == map[1 := msg] && c.lastOrderedRx == 0
  }

  /** A client that has asked for message 1 and has heard nothing since time 0. */
  predicate Awaits(c: Core, cfg: Config, state: LifecycleState) {
    && c.role == Client && c.state == state && c.cfg == cfg && c.outbound == map[]
    && c.lastRequestedEnd == 1 && c.lastOrderedRx == 0
    && (state == Established ==> c.lastServerMsrAtMs == Some(0))
  }

  /** The first time at which the probe finds the server silent for too long. */
  function Late(cfg: Config): nat {
    SatMul(cfg.msrIntervalMs, cfg.missWindowCount) + 1
  }

  lemma ServerHearsDone(c: Core, cid: u64, cfg: Config)
    requires Ready(c, Server, cid, cfg)
    ensures var s := OnMsg(Arrive(c, 0, 1), 0, 1, HelloDone);
      s.out.Ok? && s.out.value.sends == [] && Ready(s.core, Server, cid, cfg)
  {
  }

  lemma ServerSends(c: Core, cid: u64, cfg: Config, msg: Bytes)
    requires Ready(c, Server, cid, cfg)
    ensures var s := OnApiSend(c, msg);
      && s.out.Ok? && |s.out.value.sends| == 1 && s.out.value.sends[0].msg == Status(0, 1, NoReneg)
      && Serves(s.core, msg)
  {
    OnlyOne(Enqueue(c, msg), msg);
  }

  lemma OnlyOne(c: Core, msg: Bytes)
    requires c.outbound == map[1 := msg]
    ensures MaxPending(c) == 1
  {
    assert c.outbound.Keys == {1};
  }

  lemma ClientAsks(c: Core, cid: u64, cfg: Config)
    requires Ready(c, Client, cid, cfg)
    ensures var s := OnMsg(Arrive(c, 0, 1), 0, 1, Status(0, 1, NoReneg));
      && s.out.Ok? && |s.out.value.sends| == 1 && s.out.value.sends[0].msg == Pull(1, 1, 0, 0)
      && Awaits(s.core, cfg, Established)
  {
    hide MaxKey;
  }

  lemma ServerAnswers(c: Core, msg: Bytes)
    requires Serves(c, msg) && IsSmall(msg)
    ensures var s := OnMsg(Arrive(c, 0, 1), 0, 1, Pull(1, 1, 0, 0));
      && s.out.Ok? && |s.out.value.sends| == 1 && s.out.value.sends[0].msg == Whole(1, msg, 0, 1)
      && Serves(s.core, msg)
  {
    hide MaxKey, IsSmall;
    var a := Arrive(c, 0, 1);
    OnlyOne(a, msg);
    assert Carriers(1, msg, 0, 1) == [Whole(1, msg, 0, 1)];
    var none: seq<Msg> := [];
    assert RangeReplies(a, 2, 1) == Ok(none);
    assert Sendable(a.outbound[1]) && Carriers(1, msg, 0, 1) + none == [Whole(1, msg, 0, 1)];
    assert RangeReplies(a, 1, 1) == Ok([Whole(1, msg, 0, 1)]);
  }

  lemma ClientProbes(c: Core, cfg: Config)
    requires Awaits(c, cfg, Established)
    ensures var s := OnTimer(c, Late(cfg), ClientProbe);
      && s.out.Ok? && |s.out.value.sends| == 1 && s.out.value.sends[0].msg == Status(0, 0, NoReneg)
      && Awaits(s.core, cfg, Reactivating)
  {
    hide MaxKey;
  }

  lemma ClientIgnores(c: Core, cfg: Config, msg: Bytes)
    requires Awaits(c, cfg, Reactivating)
    ensures var s := OnMsg(Arrive(c, Late(cfg), 1), Late(cfg), 1, Whole(1, msg, 0, 1));
      s.out.Ok? && s.out.value.sends == [] && s.core.state == Established
      && s.core.lastOrderedRx == 0 && s.core.lastRequestedEnd == 1
  {
    hide MaxKey;
  }

  lemma ServerHearsProbe(c: Core, msg: Bytes)
    requires Serves(c, msg)
    ensures var s := OnMsg(Arrive(c, 0, 1), 0, 1, Status(0, 0, NoReneg));
      s.out.Ok? && s.out.value.sends == [] && Serves(s.core, msg)
  {
    hide MaxKey;
  }

  /** The server submits and advertises, the client asks, the server answers. */
  function Exchange(msg: Bytes): seq<(Role, Act)> {
    [(Server, Hear(1)), (Server, Local(SendMessage(msg))), (Client, Hear(1)), (Server, Hear(2))]
  }

  /** The client's probe finds the server silent; then the answer arrives, and the probe. */
  function Silence(cfg: Config): seq<(Role, Act)> {
    [(Client, Local(Timer(Late(cfg), ClientProbe))), (Client, Deliver(2, Late(cfg), 1)), (Server, Hear(3))]
  }

  /** The answer is in flight, everything else has arrived. */
  ghost predicate Answered(s: System, cfg: Config, msg: Bytes) {
    && Awaits(s.client.core, cfg, Established) && Serves(s.server.core, msg)
    && s.client.log == [Hello, HelloDone, Pull(1, 1, 0, 0)]
    && s.server.log == [HelloReply, Status(0, 1, NoReneg), Whole(1, msg, 0, 1)]
    && s.client.seen == {0, 1} && s.server.seen == {0, 1, 2} && s.server.submitted == [msg]
  }

  lemma ExchangeAnswers(cid: u64, cfg: Config, msg: Bytes)
    requires IsSmall(msg)
    ensures Answered(Play(Boot(cid, cfg, cfg), HANDSHAKE + Exchange(msg)), cfg, msg)
  {
    hide OnMsg, OnDatagram, OnApiSend, StepEnd, Ready, Serves, Awaits, IsSmall, Play;
    HandshakeConnects(cid, cfg);
    var acts := Exchange(msg);
    var s := Play(Boot(cid, cfg, cfg), HANDSHAKE);
    PlaySplits(Boot(cid, cfg, cfg), HANDSHAKE, acts);
    assert acts[0..] == acts;
    PlayFrom(s, acts, 0);
    DeliverFields(s.server, s.client.log, 1, 0, 1);
    ServerHearsDone(s.server.core, cid, cfg);
    var s1 := Next(s, Server, Hear(1));
    PlayFrom(s1, acts, 1);
    CanSubmit(s1.server.core, cid, cfg);
    LocalFields(s1.server, s1.client.log, SendMessage(msg));
    ServerSends(s1.server.core, cid, cfg, msg);
    var s2 := Next(s1, Server, Local(SendMessage(msg)));
    PlayFrom(s2, acts, 2);
    assert s2.server.log == [HelloReply, Status(0, 1, NoReneg)];
    DeliverFields(s2.client, s2.server.log, 1, 0, 1);
    ClientAsks(s2.client.core, cid, cfg);
    var s3 := Next(s2, Client, Hear(1));
    PlayFrom(s3, acts, 3);
    assert s3.client.log == [Hello, HelloDone, Pull(1, 1, 0, 0)];
    DeliverFields(s3.server, s3.client.log, 2, 0, 1);
    ServerAnswers(s3.server.core, msg);
    PlayEnds(Next(s3, Server, Hear(2)), acts);
  }

  lemma SilenceLoses(s: System, cfg: Config, msg: Bytes)
    requires IsSmall(msg) && Answered(s, cfg, msg)
    ensures var z := Play(s, Silence(cfg));
      && Quiet(z) && z.client.core.state == Established && z.server.core.state == Established
      && z.server.submitted == [msg]
      && z.client.core.lastOrderedRx == 0 && z.client.core.lastRequestedEnd == 1
  {
    hide OnMsg, OnDatagram, OnTimer, StepEnd, Serves, Awaits, IsSmall, Play, Late;
    var acts := Silence(cfg);
    assert acts[0..] == acts;
    PlayFrom(s, acts, 0);
    LocalFields(s.client, s.server.log, Timer(Late(cfg), ClientProbe));
    ClientProbes(s.client.core, cfg);
    var s1 := Next(s, Client, Local(Timer(Late(cfg), ClientProbe)));
    assert s1.client.log == [Hello, HelloDone, Pull(1, 1, 0, 0), Status(0, 0, NoReneg)];
    PlayFrom(s1, acts, 1);
    SmallIsWellFormed(msg);
    DeliverFields(s1.client, s1.server.log, 2, Late(cfg), 1);
    ClientIgnores(s1.client.core, cfg, msg);
    var s2 := Next(s1, Client, Deliver(2, Late(cfg), 1));
    PlayFrom(s2, acts, 2);
    DeliverFields(s2.server, s2.client.log, 3, 0, 1);
    ServerHearsProbe(s2.server.core, msg);
    var s3 := Next(s2, Server, Hear(3));
    PlayEnds(s3, acts);
    ServesInSession(s3.server.core, msg);
  }

  /** For every small message: both sides are in session, every datagram sent has arrived, and
      the message has not been delivered, though it was asked for and will not be again. */
  lemma LostWithoutLoss(cid: u64, cfg: Config, msg: Bytes)
    requires IsSmall(msg)
    ensures var s := Play(Boot(cid, cfg, cfg), HANDSHAKE + Exchange(msg) + Silence(cfg));
      && Quiet(s) && s.client.core.state == Established && s.server.core.state == Established
      && s.server.submitted == [msg]
      && s.client.core.lastOrderedRx == 0 && s.client.core.lastRequestedEnd == 1
  {
    hide Play, IsSmall, Answered, Exchange, Silence;
    ExchangeAnswers(cid, cfg, msg);
    PlaySplits(Boot(cid, cfg, cfg), HANDSHAKE + Exchange(msg), Silence(cfg));
    SilenceLoses(Play(Boot(cid, cfg, cfg), HANDSHAKE + Exchange(msg)), cfg, msg);
  }

  lemma CanSubmit(c: Core, cid: u64, cfg: Config)
    requires Ready(c, Server, cid, cfg)
    ensures c.nextOutboundId < U64_MAX
  {
  }

  lemma SmallIsWellFormed(msg: Bytes)
    requires IsSmall(msg)
    ensures WellFormed(Whole(1, msg, 0, 1))
  {
  }

  lemma ServesInSession(c: Core, msg: Bytes)
    requires Serves(c, msg)
    ensures c.state == Established
  {
  }
}
