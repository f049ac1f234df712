/** Three ways to end with different timers and nothing pending: the answer comes too late, the
    proposals of both sides cross, an older proposal is delivered again. In the last two every
    datagram sent has arrived. */
module Disagreement {
  import opened ByteOrder
  import opened Wrappers
  import opened Protocol
  import opened CoreSpec
  import opened MachineRuns
  import opened Delivery
  import opened Network
  import opened Completeness
  import opened Handshake
  import opened Renegotiation
  import opened Agreement

  // ---------------------------------------------------- machines that only talk of timers

  /** Timers, pending proposal, next proposal id, and a bound on the status messages heard. */
  datatype Talk = Talk(cfg: Config, pending: Option<(u32, TimerProposal)>, next: u32, heard: nat)

  /** An established machine that has sent and been asked for no message. */
  predicate Talks(c: Core, t: Talk) {
    && c.state == Established && c.outbound == map[] && c.lastRequestedEnd == 0 && c.lastOrderedRx == 0
    && c.cfg == t.cfg && c.nextProposalId == t.next && c.clientMsrRx <= t.heard
    && t.pending == (if c.pendingLocal.None? then None
                     else Some((c.pendingLocal.value.proposalId, c.pendingLocal.value.proposal)))
  }

  lemma ReadyTalks(c: Core, role: Role, cid: u64, cfg: Config)
    requires Ready(c, role, cid, cfg)
    ensures Talks(c, Talk(cfg, None, 1, 0))
  {
  }

  lemma ArriveTalks(c: Core, t: Talk)
    requires Talks(c, t)
    ensures Talks(Arrive(c, 0, 1), t)
  {
  }

  lemma TalkProposes(c: Core, t: Talk, p: TimerProposal)
    requires Talks(c, t) && t.next < U32_MAX && ValidateTimerProposal(t.cfg, p).Ok?
    ensures var s := OnApiProposeTimers(c, 0, p);
      && s.out.Ok? && |s.out.value.sends| == 1 && s.out.value.sends[0].msg == Status(0, 0, Propose(t.next, p))
      && Talks(s.core, t.(pending := Some((t.next, p)), next := t.next + 1))
  {
    hide ValidateTimerProposal, MaxKey;
  }

  lemma TalkTakesProposal(c: Core, t: Talk, id: u32, p: TimerProposal)
    requires Talks(c, t) && t.heard < 3 && ValidateTimerProposal(t.cfg, p).Ok?
    ensures var s := OnMsg(c, 0, 1, Status(0, 0, Propose(id, p)));
      && s.out.Ok? && |s.out.value.sends| == 1 && s.out.value.sends[0].msg == Status(0, 0, Ack(id, true))
      && Talks(s.core, t.(cfg := p.ToConfig(), heard := t.heard + 1))
  {
    hide ValidateTimerProposal, MaxKey;
  }

  /** The machine after an acceptance: on its pending proposal if that has the id. */
  function Accepted(t: Talk, id: u32): Talk {
    if t.pending.Some? && t.pending.value.0 == id
    then t.(cfg := t.pending.value.1.ToConfig(), pending := None, heard := t.heard + 1)
    else t.(heard := t.heard + 1)
  }

  lemma TalkTakesAcceptance(c: Core, t: Talk, id: u32)
    requires Talks(c, t) && t.heard < 3
    ensures var s := OnMsg(c, 0, 1, Status(0, 0, Ack(id, true)));
      s.out.Ok? && s.out.value.sends == [] && Talks(s.core, Accepted(t, id))
  {
    hide MaxKey;
  }

  lemma TalkIgnoresDone(c: Core, t: Talk)
    requires Talks(c, t)
    ensures var s := OnMsg(c, 0, 1, HelloDone);
      s.out.Ok? && s.out.value.sends == [] && Talks(s.core, t)
  {
  }

  // ------------------------------------------------------------------ endpoints in a run

  ghost predicate Side(e: Endpoint, t: Talk, log: seq<Msg>, seen: set<nat>) {
    Talks(e.core, t) && e.log == log && e.seen == seen
  }

  function ProposeNow(p: TimerProposal): Act {
    Local(ProposeTimers(0, p))
  }

  lemma SideProposes(e: Endpoint, t: Talk, log: seq<Msg>, seen: set<nat>, peerLog: seq<Msg>, p: TimerProposal)
    requires Side(e, t, log, seen) && t.next < U32_MAX && ValidateTimerProposal(t.cfg, p).Ok?
    ensures Possible(e, peerLog, ProposeNow(p))
    ensures Side(StepEnd(e, peerLog, ProposeNow(p)), t.(pending := Some((t.next, p)), next := t.next + 1),
                 log + [Status(0, 0, Propose(t.next, p))], seen)
  {
    hide OnApiProposeTimers, StepEnd, ValidateTimerProposal;
    LocalFields(e, peerLog, ProposeTimers(0, p));
    TalkProposes(e.core, t, p);
  }

  lemma SideTakesProposal(e: Endpoint, t: Talk, log: seq<Msg>, seen: set<nat>, peerLog: seq<Msg>, i: nat,
                          id: u32, p: TimerProposal)
    requires Side(e, t, log, seen) && t.heard < 3 && ValidateTimerProposal(t.cfg, p).Ok?
    requires i < |peerLog| && peerLog[i] == Status(0, 0, Propose(id, p))
    ensures Possible(e, peerLog, Hear(i))
    ensures Side(StepEnd(e, peerLog, Hear(i)), t.(cfg := p.ToConfig(), heard := t.heard + 1),
                 log + [Status(0, 0, Ack(id, true))], seen + {i})
  {
    hide OnMsg, StepEnd, ValidateTimerProposal, Talks;
    DeliverFields(e, peerLog, i, 0, 1);
    ArriveTalks(e.core, t);
    TalkTakesProposal(Arrive(e.core, 0, 1), t, id, p);
  }

  lemma SideTakesAcceptance(e: Endpoint, t: Talk, log: seq<Msg>, seen: set<nat>, peerLog: seq<Msg>, i: nat, id: u32)
    requires Side(e, t, log, seen) && t.heard < 3 && i < |peerLog| && peerLog[i] == Status(0, 0, Ack(id, true))
    ensures Possible(e, peerLog, Hear(i))
    ensures Side(StepEnd(e, peerLog, Hear(i)), Accepted(t, id), log, seen + {i})
    ensures t.pending.Some? && t.pending.value.0 == id ==> ReportNow(e, peerLog, Hear(i)) == Some(Report(true, id))
  {
    hide OnMsg, StepEnd, Talks, CommitBy;
    PendingIsOwn(e.core, t, id);
    DeliverFields(e, peerLog, i, 0, 1);
    ArriveTalks(e.core, t);
    TalkTakesAcceptance(Arrive(e.core, 0, 1), t, id);
    assert log + [] == log;
  }

  lemma PendingIsOwn(c: Core, t: Talk, id: u32)
    requires Talks(c, t)
    ensures t.pending.Some? && t.pending.value.0 == id ==>
      CommitBy(c, Status(0, 0, Ack(id, true))) == [(id, t.pending.value.1)]
  {
  }

  lemma SideIgnoresDone(e: Endpoint, t: Talk, log: seq<Msg>, seen: set<nat>, peerLog: seq<Msg>, i: nat)
    requires Side(e, t, log, seen) && i < |peerLog| && peerLog[i] == HelloDone
    ensures Possible(e, peerLog, Hear(i))
    ensures Side(StepEnd(e, peerLog, Hear(i)), t, log, seen + {i})
  {
    hide OnMsg, StepEnd, Talks;
    DeliverFields(e, peerLog, i, 0, 1);
    ArriveTalks(e.core, t);
    TalkIgnoresDone(Arrive(e.core, 0, 1), t);
    assert log + [] == log;
  }

  lemma Greeted(cid: u64, cfg: Config)
    ensures var s := Play(Boot(cid, cfg, cfg), HANDSHAKE);
      && Side(s.client, Talk(cfg, None, 1, 0), [Hello, HelloDone], {0})
      && Side(s.server, Talk(cfg, None, 1, 0), [HelloReply], {0})
  {
    hide Play, Ready, Talks;
    HandshakeConnects(cid, cfg);
    var s := Play(Boot(cid, cfg, cfg), HANDSHAKE);
    ReadyTalks(s.client.core, Client, cid, cfg);
    ReadyTalks(s.server.core, Server, cid, cfg);
  }

  // -------------------------------------------------------------------- crossing proposals

  /** Both propose; each takes the other's proposal, then the other's acceptance. */
  function Crossing(p: TimerProposal, q: TimerProposal): seq<(Role, Act)> {
    [ (Client, ProposeNow(p)), (Server, ProposeNow(q)), (Server, Hear(1)), (Server, Hear(2)), (Client, Hear(1)),
      (Client, Hear(2)), (Server, Hear(3)) ]
  }

  /** The last reports of both sides. */
  datatype Reported = Reported(client: Option<Report>, server: Option<Report>)

  function Reports(s: System, acts: seq<(Role, Act)>, r: Reported): Reported {
    Reported(LastReport(s, acts, Client, r.client), LastReport(s, acts, Server, r.server))
  }

  /** One action of a run, as `PlayFrom`, with what it reports. */
  lemma ReportsThen(s: System, acts: seq<(Role, Act)>, k: nat, r: Reported) returns (after: Reported)
    requires k < |acts|
    ensures var (side, a) := acts[k];
      && after == (if side == Client then r.(client := Latest(r.client, ReportMade(s, side, a)))
                   else r.(server := Latest(r.server, ReportMade(s, side, a))))
      && Play(s, acts[k..]) == Play(Next(s, side, a), acts[k + 1..])
      && Reports(s, acts[k..], r) == Reports(Next(s, side, a), acts[k + 1..], after)
  {
    hide Next, Play, LastReport, ReportMade;
    var (side, a) := acts[k];
    after := if side == Client then r.(client := Latest(r.client, ReportMade(s, side, a)))
             else r.(server := Latest(r.server, ReportMade(s, side, a)));
    PlayFrom(s, acts, k);
    ReportsFrom(s, acts, k, Client, r.client);
    ReportsFrom(s, acts, k, Server, r.server);
  }

  lemma ReportsEnd(s: System, acts: seq<(Role, Act)>, r: Reported)
    ensures Reports(s, acts[|acts|..], r) == r
  {
  }

  /** For any two proposals acceptable to both sides: nothing is lost, nothing repeated, nothing
      in flight or pending, and each side runs on its own proposal, the last it reports. */
  lemma CrossingProposalsPart(cid: u64, cfg: Config, p: TimerProposal, q: TimerProposal)
    requires ValidateTimerProposal(cfg, p).Ok? && ValidateTimerProposal(cfg, q).Ok?
    ensures var s := Play(Boot(cid, cfg, cfg), HANDSHAKE + Crossing(p, q));
      && s.client.core.cfg == p.ToConfig() && s.server.core.cfg == q.ToConfig()
      && s.client.core.pendingLocal == None && s.server.core.pendingLocal == None
      && Quiet(s)
    ensures var s0 := Boot(cid, cfg, cfg);
      && LastReport(s0, HANDSHAKE + Crossing(p, q), Client, None) == Some(Report(true, 1))
      && LastReport(s0, HANDSHAKE + Crossing(p, q), Server, None) == Some(Report(true, 1))
  {
    hide StepEnd, ValidateTimerProposal, Talks, Possible, Play, ProposeNow, Hear, LastReport, ReportNow;
    Greeted(cid, cfg);
    var acts := Crossing(p, q);
    var s := Play(Boot(cid, cfg, cfg), HANDSHAKE);
    PlaySplits(Boot(cid, cfg, cfg), HANDSHAKE, acts);
    var r := Reports(Boot(cid, cfg, cfg), HANDSHAKE, Reported(None, None));
    ReportsSplit(Boot(cid, cfg, cfg), HANDSHAKE, acts, Client, None);
    ReportsSplit(Boot(cid, cfg, cfg), HANDSHAKE, acts, Server, None);
    assert acts[0..] == acts;
    var t := Talk(cfg, None, 1, 0);
    var r1 := ReportsThen(s, acts, 0, r);
    SideProposes(s.client, t, s.client.log, s.client.seen, s.server.log, p);
    var s1 := Next(s, Client, ProposeNow(p));
    var r2 := ReportsThen(s1, acts, 1, r1);
    SideProposes(s1.server, t, s1.server.log, s1.server.seen, s1.client.log, q);
    var s2 := Next(s1, Server, ProposeNow(q));
    var r3 := ReportsThen(s2, acts, 2, r2);
    var proposed := Talk(cfg, Some((1, q)), 2, 0);
    SideIgnoresDone(s2.server, proposed, s2.server.log, s2.server.seen, s2.client.log, 1);
    var s3 := Next(s2, Server, Hear(1));
    var r4 := ReportsThen(s3, acts, 3, r3);
    SideTakesProposal(s3.server, proposed, s3.server.log, s3.server.seen, s3.client.log, 2, 1, p);
    var s4 := Next(s3, Server, Hear(2));
    var r5 := ReportsThen(s4, acts, 4, r4);
    SideTakesProposal(s4.client, Talk(cfg, Some((1, p)), 2, 0), s4.client.log, s4.client.seen, s4.server.log, 1, 1, q);
    var s5 := Next(s4, Client, Hear(1));
    var r6 := ReportsThen(s5, acts, 5, r5);
    SideTakesAcceptance(s5.client, Talk(q.ToConfig(), Some((1, p)), 2, 1), s5.client.log, s5.client.seen,
                        s5.server.log, 2, 1);
    var s6 := Next(s5, Client, Hear(2));
    var r7 := ReportsThen(s6, acts, 6, r6);
    SideTakesAcceptance(s6.server, Talk(p.ToConfig(), Some((1, q)), 2, 1), s6.server.log, s6.server.seen,
                        s6.client.log, 3, 1);
    var s7 := Next(s6, Server, Hear(3));
    PlayEnds(s7, acts);
    ReportsEnd(s7, acts, r7);
    TalksTimers(s7.client.core, Talk(p.ToConfig(), None, 2, 2));
    TalksTimers(s7.server.core, Talk(q.ToConfig(), None, 2, 2));
  }

  lemma TalksTimers(c: Core, t: Talk)
    requires Talks(c, t)
    ensures c.state == Established && c.cfg == t.cfg && (t.pending == None ==> c.pendingLocal == None)
  {
  }

  // ----------------------------------------------------------------- an older one repeated

  /** The client proposes twice, each time accepted in time; then the first proposal arrives
      once more, and so does the answer to it. */
  function Repeated(p: TimerProposal, q: TimerProposal): seq<(Role, Act)> {
    [ (Client, ProposeNow(p)), (Server, Hear(1)), (Server, Hear(2)), (Client, Hear(1)), (Client, ProposeNow(q)),
      (Server, Hear(3)), (Client, Hear(2)), (Server, Hear(2)), (Client, Hear(3)) ]
  }

  /** For a proposal, a second one acceptable after it, and it acceptable after that: only the
      client proposes, nothing is lost, in flight or pending, and the repeated datagram has
      taken the server back. */
  lemma RepeatedProposalParts(cid: u64, cfg: Config, p: TimerProposal, q: TimerProposal)
    requires ValidateTimerProposal(cfg, p).Ok? && ValidateTimerProposal(p.ToConfig(), q).Ok?
    requires ValidateTimerProposal(q.ToConfig(), p).Ok?
    ensures var s := Play(Boot(cid, cfg, cfg), HANDSHAKE + Repeated(p, q));
      && s.client.core.cfg == q.ToConfig() && s.server.core.cfg == p.ToConfig()
      && s.client.core.pendingLocal == None && s.server.core.pendingLocal == None
      && Quiet(s)
  {
    hide StepEnd, ValidateTimerProposal, Talks, Possible, Play, ProposeNow, Hear;
    Greeted(cid, cfg);
    var acts := Repeated(p, q);
    var s := Play(Boot(cid, cfg, cfg), HANDSHAKE);
    PlaySplits(Boot(cid, cfg, cfg), HANDSHAKE, acts);
    assert acts[0..] == acts;
    var t := Talk(cfg, None, 1, 0);
    PlayFrom(s, acts, 0);
    SideProposes(s.client, t, s.client.log, s.client.seen, s.server.log, p);
    var s1 := Next(s, Client, ProposeNow(p));
    PlayFrom(s1, acts, 1);
    SideIgnoresDone(s1.server, t, s1.server.log, s1.server.seen, s1.client.log, 1);
    var s2 := Next(s1, Server, Hear(1));
    PlayFrom(s2, acts, 2);
    SideTakesProposal(s2.server, t, s2.server.log, s2.server.seen, s2.client.log, 2, 1, p);
    var s3 := Next(s2, Server, Hear(2));
    PlayFrom(s3, acts, 3);
    SideTakesAcceptance(s3.client, Talk(cfg, Some((1, p)), 2, 0), s3.client.log, s3.client.seen, s3.server.log, 1, 1);
    var s4 := Next(s3, Client, Hear(1));
    PlayFrom(s4, acts, 4);
    SideProposes(s4.client, Talk(p.ToConfig(), None, 2, 1), s4.client.log, s4.client.seen, s4.server.log, q);
    var s5 := Next(s4, Client, ProposeNow(q));
    PlayFrom(s5, acts, 5);
    SideTakesProposal(s5.server, Talk(p.ToConfig(), None, 1, 1), s5.server.log, s5.server.seen, s5.client.log, 3, 2, q);
    var s6 := Next(s5, Server, Hear(3));
    PlayFrom(s6, acts, 6);
    SideTakesAcceptance(s6.client, Talk(p.ToConfig(), Some((2, q)), 3, 1), s6.client.log, s6.client.seen,
                        s6.server.log, 2, 2);
    var s7 := Next(s6, Client, Hear(2));
    PlayFrom(s7, acts, 7);
    SideTakesProposal(s7.server, Talk(q.ToConfig(), None, 1, 2), s7.server.log, s7.server.seen, s7.client.log, 2, 1, p);
    var s8 := Next(s7, Server, Hear(2));
    PlayFrom(s8, acts, 8);
    SideTakesAcceptance(s8.client, Talk(q.ToConfig(), None, 3, 2), s8.client.log, s8.client.seen, s8.server.log, 3, 1);
    var s9 := Next(s8, Client, Hear(3));
    PlayEnds(s9, acts);
    TalksTimers(s9.client.core, Talk(q.ToConfig(), None, 3, 3));
    TalksTimers(s9.server.core, Talk(p.ToConfig(), None, 1, 3));
  }

  // -------------------------------------------------------------------- a late answer

  /** A proposal, its acceptance, and the proposer giving up before the answer arrives. */
  function LateAnswer(p: TimerProposal, expires: u64): seq<(Role, Act)> {
    [(Client, ProposeNow(p)), (Server, Hear(2)), (Client, Local(Timer(expires, RenegotiationTimeout)))]
  }

  lemma TalkGivesUp(c: Core, cfg: Config, p: TimerProposal)
    requires c.cfg == cfg
    ensures var s := OnRenegotiationTimeout(OnApiProposeTimers(c, 0, p).core, SatMul(cfg.msrIntervalMs, 2));
      c.state == Established && ValidateTimerProposal(cfg, p).Ok? ==>
        s.core.pendingLocal == None && s.core.cfg == cfg
  {
    hide ValidateTimerProposal;
  }

  lemma SideAgrees(e: Endpoint, t: Talk, peerLog: seq<Msg>, i: nat, id: u32, p: TimerProposal)
    requires Talks(e.core, t) && ValidateTimerProposal(t.cfg, p).Ok?
    requires i < |peerLog| && peerLog[i] == Status(0, 0, Propose(id, p))
    ensures Possible(e, peerLog, Hear(i)) && (id, p) in StepEnd(e, peerLog, Hear(i)).agreed
  {
    hide OnMsg, StepEnd, ValidateTimerProposal, AgreedBy;
    DeliverAgrees(e, peerLog, i, 0, 1);
    ArriveKeepsTimers(e.core, 0, 1);
    DeliveryCommits(Arrive(e.core, 0, 1), 0, 1, peerLog[i]);
  }

  /** For every acceptable proposal there is a run in which the server has committed to it, the
      client has given it up, and the two go on with different timers. */
  lemma LostAckLeavesPeersApart(cid: u64, cfg: Config, p: TimerProposal)
    requires ValidateTimerProposal(cfg, p).Ok?
    ensures var s := Play(Boot(cid, cfg, cfg), HANDSHAKE + LateAnswer(p, SatMul(cfg.msrIntervalMs, 2)));
      && (1, p) in s.server.agreed && s.server.core.cfg == p.ToConfig()
      && s.client.core.cfg == cfg && s.client.core.pendingLocal == None
  {
    hide StepEnd, ValidateTimerProposal, Talks, Play, OnMsg, OnApiProposeTimers, OnRenegotiationTimeout;
    Greeted(cid, cfg);
    var expires := SatMul(cfg.msrIntervalMs, 2);
    var acts := LateAnswer(p, expires);
    var s := Play(Boot(cid, cfg, cfg), HANDSHAKE);
    PlaySplits(Boot(cid, cfg, cfg), HANDSHAKE, acts);
    assert acts[0..] == acts;
    var t := Talk(cfg, None, 1, 0);
    PlayFrom(s, acts, 0);
    SideProposes(s.client, t, s.client.log, s.client.seen, s.server.log, p);
    LocalFields(s.client, s.server.log, ProposeTimers(0, p));
    TalksTimers(s.client.core, t);
    TalkGivesUp(s.client.core, cfg, p);
    var s1 := Next(s, Client, ProposeNow(p));
    PlayFrom(s1, acts, 1);
    SideTakesProposal(s1.server, t, s1.server.log, s1.server.seen, s1.client.log, 2, 1, p);
    SideAgrees(s1.server, t, s1.client.log, 2, 1, p);
    var s2 := Next(s1, Server, Hear(2));
    PlayFrom(s2, acts, 2);
    LocalFields(s2.client, s2.server.log, Timer(expires, RenegotiationTimeout));
    var s3 := Next(s2, Client, Local(Timer(expires, RenegotiationTimeout)));
    PlayEnds(s3, acts);
    TalksTimers(s3.server.core, Talk(p.ToConfig(), None, 1, 1));
  }
}
