/** Timer renegotiation between two honest machines on a network that loses, duplicates and
    reorders: a proposer never commits to values its peer has not committed to first. */
module Renegotiation {
  import opened ByteOrder
  import opened Wrappers
  import opened Protocol
  import opened CoreSpec
  import opened Receiver
  import opened MachineRuns
  import opened Delivery
  import opened Network
  import opened OrderedDelivery
  import opened Completeness
  import opened Handshake

  predicate IsProposal(m: Msg) {
    m.Status? && m.reneg.Propose?
  }

  predicate Proposes(m: Msg, id: u32, p: TimerProposal) {
    IsProposal(m) && m.reneg.proposalId == id && m.reneg.proposal == p
  }

  predicate Accepts(m: Msg) {
    m.Status? && m.reneg.Ack? && m.reneg.accepted
  }

  ghost predicate InLog(log: seq<Msg>, id: u32, p: TimerProposal) {
    exists k :: 0 <= k < |log| && Proposes(log[k], id, p)
  }

  /** Proposal ids in the log are below the next one and name one proposal each; a pending
      proposal is one of them. */
  ghost predicate ProposalsUnique(x: Endpoint) {
    && (forall k :: 0 <= k < |x.log| && IsProposal(x.log[k]) ==> x.log[k].reneg.proposalId < x.core.nextProposalId)
    && (forall j, k ::
          (0 <= j < |x.log| && 0 <= k < |x.log| && IsProposal(x.log[j]) && IsProposal(x.log[k])
           && x.log[j].reneg.proposalId == x.log[k].reneg.proposalId) ==> x.log[j].reneg == x.log[k].reneg)
    && (x.core.pendingLocal.Some? ==>
          InLog(x.log, x.core.pendingLocal.value.proposalId, x.core.pendingLocal.value.proposal))
  }

  ghost predicate HasAgreed(agreed: set<(u32, TimerProposal)>, id: u32) {
    exists p :: (id, p) in agreed
  }

  /** What `y` has committed to, `x` proposed; what `y` acknowledged, it has committed to. */
  ghost predicate AgreedFrom(x: Endpoint, y: Endpoint) {
    && (forall a :: a in y.agreed ==> InLog(x.log, a.0, a.1))
    && (forall k :: 0 <= k < |y.log| && Accepts(y.log[k]) ==> HasAgreed(y.agreed, y.log[k].reneg.proposalId))
  }

  ghost predicate Negotiated(s: System) {
    && ProposalsUnique(s.client) && ProposalsUnique(s.server)
    && AgreedFrom(s.client, s.server) && AgreedFrom(s.server, s.client)
  }

  // -------------------------------------------------------------------- single steps

  /** The message says nothing about timers. */
  predicate Neutral(m: Msg) {
    m.Status? ==> m.reneg == NoReneg
  }

  /** What is sent about timers is the answer to the proposal the message carries, and an
      acceptance comes with the commitment. */
  ghost predicate AnswersOnly(s: Step, m: Msg) {
    s.out.Ok? ==> forall i :: 0 <= i < |s.out.value.sends| ==>
      || Neutral(s.out.value.sends[i].msg)
      || (IsProposal(m) && Answers(s, m, s.out.value.sends[i].msg))
  }

  ghost predicate Answers(s: Step, m: Msg, reply: Msg)
    requires IsProposal(m) && s.out.Ok?
  {
    && reply.Status? && reply.reneg.Ack? && reply.reneg.proposalId == m.reneg.proposalId
    && (reply.reneg.accepted ==> TimerRenegotiationCommitted(m.reneg.proposalId) in s.out.value.events)
  }

  lemma HandleNegotiates(c: Core, now: nat, path: u32, m: Msg)
    requires ReceiverInv(c)
    ensures var s := Handle(c, now, path, m);
      && s.core.nextProposalId == c.nextProposalId
      && (s.core.pendingLocal == c.pendingLocal || s.core.pendingLocal == None)
      && AnswersOnly(s, m)
  {
    hide RangeReplies, AddFragment, Accept, ValidateTimerProposal;
    if m.Pull? {
      CarriersOnly(c, m.start, m.end);
    } else if m.Whole? && m.msgId !in c.receivedIds {
      AcceptChanges(c, m.msgId, m.payload);
    } else if m.Part? {
      AddFragmentChanges(c, m.msgId, m.index, m.total, m.chunk);
      AddFragmentSilent(c, m.msgId, m.index, m.total, m.chunk);
    }
  }

  /** A delivery proposes nothing, keeps or clears the pending proposal, and sends about
      timers at most the answer to a proposal it carries. */
  lemma OnMsgReneg(c: Core, now: nat, path: u32, m: Msg)
    requires ReceiverInv(c)
    ensures var s := OnMsg(c, now, path, m);
      && s.core.nextProposalId == c.nextProposalId
      && (s.core.pendingLocal == c.pendingLocal || s.core.pendingLocal == None)
      && AnswersOnly(s, m)
  {
    hide HandleMsrSignal, Handle;
    HandleNegotiates(c, now, path, m);
    var a := Handle(c, now, path, m);
    if CarriesSignal(m) && a.out.Ok? {
      var source := if m.Status? then ControlMsrFrame else PiggybackTlv;
      SignalKeeps(a.core, now, path, m.nextPending, source);
      SignalNeutral(a.core, now, path, m.nextPending, source);
    }
  }

  lemma SignalNeutral(c: Core, now: nat, path: u32, next: u64, source: MsrSource)
    ensures var sends := HandleMsrSignal(c, now, path, next, source).out.value.sends;
      forall i :: 0 <= i < |sends| ==> Neutral(sends[i].msg)
  {
  }

  lemma {:induction false} CarriersOnly(c: Core, start: nat, end: u64)
    ensures RangeReplies(c, start, end).Ok? ==>
      forall i :: 0 <= i < |RangeReplies(c, start, end).value| ==> !RangeReplies(c, start, end).value[i].Status?
    decreases end + 1 - start
  {
    if start <= end {
      CarriersOnly(c, start + 1, end);
    }
  }

  /** A commitment recorded in a step is to the proposal the message carries, and is the
      configuration the machine has after the step. */
  lemma AgreedMeansAdopted(c: Core, now: nat, path: u32, m: Msg)
    ensures var s := OnMsg(c, now, path, m);
      AgreedBy(m, s) != {} ==>
        && IsProposal(m) && AgreedBy(m, s) == {(m.reneg.proposalId, m.reneg.proposal)}
        && s.core.cfg == m.reneg.proposal.ToConfig()
  {
    hide HandleMsrSignal, RangeReplies, AddFragment, Accept, ValidateTimerProposal;
    if IsProposal(m) {
      var a := Handle(c, now, path, m);
      SignalKeeps(a.core, now, path, m.nextPending, ControlMsrFrame);
      SignalCommitsNothing(a.core, now, path, m.nextPending, ControlMsrFrame);
    }
  }

  lemma SignalCommitsNothing(c: Core, now: nat, path: u32, next: u64, source: MsrSource)
    ensures forall e :: e in HandleMsrSignal(c, now, path, next, source).out.value.events ==>
      !e.TimerRenegotiationCommitted?
  {
  }

  // ------------------------------------------------------------------------- actions

  lemma InLogGrows(log: seq<Msg>, more: seq<Msg>, id: u32, p: TimerProposal)
    requires InLog(log, id, p)
    ensures InLog(log + more, id, p)
  {
    var k :| 0 <= k < |log| && Proposes(log[k], id, p);
    assert (log + more)[k] == log[k];
  }

  lemma ProposerDelivers(x: Endpoint, peerLog: seq<Msg>, i: nat, now: nat, path: u32)
    requires ProposalsUnique(x) && ReceiverInv(x.core) && Possible(x, peerLog, Deliver(i, now, path))
    ensures ProposalsUnique(StepEnd(x, peerLog, Deliver(i, now, path)))
  {
    hide OnMsg, StepEnd, ReceiverInv, InLog;
    DeliverFields(x, peerLog, i, now, path);
    var c := Arrive(x.core, now, path);
    ReceiverInvTransfers(x.core, c);
    OnMsgReneg(c, now, path, peerLog[i]);
    var s := OnMsg(c, now, path, peerLog[i]);
    var z := StepEnd(x, peerLog, Deliver(i, now, path));
    var more := if s.out.Ok? then Messages(s.out.value.sends) else [];
    assert z.log == x.log + more;
    assert forall k :: 0 <= k < |more| ==> !IsProposal(more[k]);
    if x.core.pendingLocal.Some? {
      InLogGrows(x.log, more, x.core.pendingLocal.value.proposalId, x.core.pendingLocal.value.proposal);
    }
  }

  lemma AgreedGrowsWithProposer(x: Endpoint, y: Endpoint, more: seq<Msg>)
    requires AgreedFrom(x, y)
    ensures forall a :: a in y.agreed ==> InLog(x.log + more, a.0, a.1)
  {
    forall a | a in y.agreed
      ensures InLog(x.log + more, a.0, a.1)
    {
      InLogGrows(x.log, more, a.0, a.1);
    }
  }

  /** The responder takes in a datagram. */
  lemma ResponderDelivers(x: Endpoint, y: Endpoint, i: nat, now: nat, path: u32)
    requires AgreedFrom(x, y) && ReceiverInv(y.core) && Possible(y, x.log, Deliver(i, now, path))
    ensures AgreedFrom(x, StepEnd(y, x.log, Deliver(i, now, path)))
  {
    hide OnMsg, StepEnd, ReceiverInv;
    DeliverFields(y, x.log, i, now, path);
    DeliverAgrees(y, x.log, i, now, path);
    var m := x.log[i];
    var c := Arrive(y.core, now, path);
    ReceiverInvTransfers(y.core, c);
    OnMsgReneg(c, now, path, m);
    AgreedMeansAdopted(c, now, path, m);
    var s := OnMsg(c, now, path, m);
    var z := StepEnd(y, x.log, Deliver(i, now, path));
    forall k | 0 <= k < |z.log| && Accepts(z.log[k])
      ensures HasAgreed(z.agreed, z.log[k].reneg.proposalId)
    {
      if k < |y.log| {
        assert HasAgreed(y.agreed, y.log[k].reneg.proposalId);
        var p :| (y.log[k].reneg.proposalId, p) in y.agreed;
        assert (y.log[k].reneg.proposalId, p) in z.agreed;
      } else {
        assert Answers(s, m, z.log[k]);
        assert (m.reneg.proposalId, m.reneg.proposal) in z.agreed;
      }
    }
    assert IsProposal(m) ==> Proposes(x.log[i], m.reneg.proposalId, m.reneg.proposal);
  }

  /** What an endpoint sends on its own says nothing about timers, unless it proposes; then
      the proposal has a fresh id. */
  lemma LocalProposes(c: Core, input: Input)
    requires Allowed(c, input) && !input.Datagram? && (input.ProposeTimers? ==> c.nextProposalId < U32_MAX)
    ensures var s := Apply(c, input);
      if input.ProposeTimers? && s.out.Ok? then
        && |s.out.value.sends| == 1 && Proposes(s.out.value.sends[0].msg, c.nextProposalId, input.proposal)
        && s.core.nextProposalId == c.nextProposalId + 1
        && s.core.pendingLocal.Some? && s.core.pendingLocal.value.proposalId == c.nextProposalId
        && s.core.pendingLocal.value.proposal == input.proposal
      else
        && s.core.nextProposalId == c.nextProposalId
        && (s.core.pendingLocal == c.pendingLocal || s.core.pendingLocal == None)
        && (s.out.Ok? ==> forall i :: 0 <= i < |s.out.value.sends| ==> Neutral(s.out.value.sends[i].msg))
  {
    hide ValidateTimerProposal, MaxKey;
  }

  lemma LocalNegotiates(x: Endpoint, y: Endpoint, input: Input)
    requires ProposalsUnique(x) && AgreedFrom(x, y) && AgreedFrom(y, x) && Possible(x, y.log, Local(input))
    ensures var z := StepEnd(x, y.log, Local(input));
      ProposalsUnique(z) && AgreedFrom(z, y) && AgreedFrom(y, z)
  {
    hide Apply, InLog;
    LocalProposes(x.core, input);
    var s := Apply(x.core, input);
    var z := StepEnd(x, y.log, Local(input));
    var more := if s.out.Ok? then Messages(s.out.value.sends) else [];
    assert z.log == x.log + more;
    AgreedGrowsWithProposer(x, y, more);
    if x.core.pendingLocal.Some? {
      InLogGrows(x.log, more, x.core.pendingLocal.value.proposalId, x.core.pendingLocal.value.proposal);
    }
    if input.ProposeTimers? && s.out.Ok? {
      NewProposalInLog(x.log, more, x.core.nextProposalId, input.proposal);
    }
  }

  lemma NewProposalInLog(log: seq<Msg>, more: seq<Msg>, id: u32, p: TimerProposal)
    requires |more| == 1 && Proposes(more[0], id, p)
    ensures InLog(log + more, id, p)
  {
    assert (log + more)[|log|] == more[0];
  }

  lemma ActNegotiates(x: Endpoint, y: Endpoint, a: Act)
    requires ProposalsUnique(x) && AgreedFrom(x, y) && AgreedFrom(y, x) && ReceiverInv(x.core) && Possible(x, y.log, a)
    ensures var z := StepEnd(x, y.log, a);
      ProposalsUnique(z) && AgreedFrom(z, y) && AgreedFrom(y, z)
  {
    hide ProposalsUnique, ReceiverInv, OnMsg, Apply, OnDatagram, InLog;
    match a
    case Deliver(i, now, path) =>
      ProposerDelivers(x, y.log, i, now, path);
      ResponderDelivers(y, x, i, now, path);
      DeliverFields(x, y.log, i, now, path);
      var s := OnMsg(Arrive(x.core, now, path), now, path, y.log[i]);
      AgreedGrowsWithProposer(x, y, if s.out.Ok? then Messages(s.out.value.sends) else []);
      assert x.log + [] == x.log;
    case Local(input) => LocalNegotiates(x, y, input);
  }

  lemma NextNegotiated(s: System, side: Role, a: Act)
    requires Linked(s) && Negotiated(s)
    ensures Linked(Next(s, side, a)) && Negotiated(Next(s, side, a))
  {
    hide Link, ProposalsUnique, AgreedFrom, StepEnd, Possible, ReceiverInv;
    NextLinked(s, side, a);
    LinkGivesReceiver(s.client, s.server);
    LinkGivesReceiver(s.server, s.client);
    if side == Client && Possible(s.client, s.server.log, a) {
      ActNegotiates(s.client, s.server, a);
    } else if side == Server && Possible(s.server, s.client.log, a) {
      ActNegotiates(s.server, s.client, a);
    }
  }

  lemma {:induction false} PlayNegotiated(s: System, acts: seq<(Role, Act)>)
    requires Linked(s) && Negotiated(s)
    ensures Negotiated(Play(s, acts))
    decreases |acts|
  {
    hide Linked, Negotiated, Next;
    if acts != [] {
      NextNegotiated(s, acts[0].0, acts[0].1);
      PlayNegotiated(Next(s, acts[0].0, acts[0].1), acts[1..]);
    }
  }

  // -------------------------------------------------------------------- the theorem

  /** The acceptance in `m` is for the proposal `x` has pending. */
  predicate AcceptsPending(x: Endpoint, m: Msg) {
    Accepts(m) && x.core.pendingLocal.Some? && x.core.pendingLocal.value.proposalId == m.reneg.proposalId
  }

  lemma AcceptanceIsAgreed(x: Endpoint, y: Endpoint, i: nat)
    requires ProposalsUnique(x) && AgreedFrom(x, y) && i < |y.log| && AcceptsPending(x, y.log[i])
    ensures (x.core.pendingLocal.value.proposalId, x.core.pendingLocal.value.proposal) in y.agreed
  {
    var w := x.core.pendingLocal.value;
    assert HasAgreed(y.agreed, w.proposalId);
    var p :| (w.proposalId, p) in y.agreed;
    assert InLog(x.log, w.proposalId, p);
    var j :| 0 <= j < |x.log| && Proposes(x.log[j], w.proposalId, p);
    var k :| 0 <= k < |x.log| && Proposes(x.log[k], w.proposalId, w.proposal);
    assert x.log[j].reneg == x.log[k].reneg;
  }

  /** An acceptance that arrives makes a machine commit if and only if the proposal it has
      pending has that id; otherwise timers and pending proposal stay as they are. */
  lemma AcceptanceCommitsExactly(c: Core, now: nat, path: u32, m: Msg)
    requires Accepts(m)
    ensures var s := OnMsg(c, now, path, m);
      var answered := c.pendingLocal.Some? && c.pendingLocal.value.proposalId == m.reneg.proposalId;
      && s.out.Ok?
      && (TimerRenegotiationCommitted(m.reneg.proposalId) in s.out.value.events <==> answered)
      && s.core.cfg == (if answered then c.pendingLocal.value.proposal.ToConfig() else c.cfg)
      && s.core.pendingLocal == (if answered then None else c.pendingLocal)
  {
    hide HandleMsrSignal;
    var a := Handle(c, now, path, m);
    SignalKeeps(a.core, now, path, m.nextPending, ControlMsrFrame);
    SignalCommitsNothing(a.core, now, path, m.nextPending, ControlMsrFrame);
    if c.pendingLocal.Some? && c.pendingLocal.value.proposalId == m.reneg.proposalId {
      assert OnMsg(c, now, path, m).out.value.events[0] == TimerRenegotiationCommitted(m.reneg.proposalId);
    }
  }

  lemma ArriveKeepsTimers(c: Core, now: nat, path: u32)
    ensures var d := Arrive(c, now, path);
      d.cfg == c.cfg && d.pendingLocal == c.pendingLocal && d.nextProposalId == c.nextProposalId
  {
  }

  /** What the arrival of an acceptance does to an endpoint with this peer: it takes over its
      own pending proposal, to which the peer has committed before, or changes nothing. */
  ghost predicate CommitsOrIgnores(x: Endpoint, y: Endpoint, z: Endpoint, m: Msg) {
    if AcceptsPending(x, m) then
      && z.core.cfg == x.core.pendingLocal.value.proposal.ToConfig() && z.core.pendingLocal == None
      && (x.core.pendingLocal.value.proposalId, x.core.pendingLocal.value.proposal) in y.agreed
    else z.core.cfg == x.core.cfg && z.core.pendingLocal == x.core.pendingLocal
  }

  lemma AcceptanceArrives(x: Endpoint, y: Endpoint, i: nat, now: nat, path: u32)
    requires ProposalsUnique(x) && AgreedFrom(x, y)
    requires i < |y.log| && WellFormed(y.log[i]) && Accepts(y.log[i])
    ensures CommitsOrIgnores(x, y, StepEnd(x, y.log, Deliver(i, now, path)), y.log[i])
  {
    hide OnMsg, StepEnd, ProposalsUnique, AgreedFrom;
    DeliverFields(x, y.log, i, now, path);
    ArriveKeepsTimers(x.core, now, path);
    AcceptanceCommitsExactly(Arrive(x.core, now, path), now, path, y.log[i]);
    if AcceptsPending(x, y.log[i]) {
      AcceptanceIsAgreed(x, y, i);
    }
  }

  /** In every reachable state, whatever was lost, duplicated or reordered: an acceptance that
      arrives makes an endpoint commit exactly when its pending proposal has that id, and then
      the peer has committed to that same proposal, all three values of it, before. */
  lemma ProposerCommitsAfterPeer(cid: u64, clientCfg: Config, serverCfg: Config, acts: seq<(Role, Act)>,
                                 i: nat, now: nat, path: u32)
    ensures var s := Play(Boot(cid, clientCfg, serverCfg), acts);
      && (i < |s.server.log| && WellFormed(s.server.log[i]) && Accepts(s.server.log[i]) ==>
            var z := StepEnd(s.client, s.server.log, Deliver(i, now, path));
            CommitsOrIgnores(s.client, s.server, z, s.server.log[i]))
      && (i < |s.client.log| && WellFormed(s.client.log[i]) && Accepts(s.client.log[i]) ==>
            var z := StepEnd(s.server, s.client.log, Deliver(i, now, path));
            CommitsOrIgnores(s.server, s.client, z, s.client.log[i]))
  {
    hide Play, ProposalsUnique, AgreedFrom, StepEnd, CommitsOrIgnores;
    BootLinked(cid, clientCfg, serverCfg);
    BootNegotiated(cid, clientCfg, serverCfg);
    PlayNegotiated(Boot(cid, clientCfg, serverCfg), acts);
    var s := Play(Boot(cid, clientCfg, serverCfg), acts);
    if i < |s.server.log| && WellFormed(s.server.log[i]) && Accepts(s.server.log[i]) {
      AcceptanceArrives(s.client, s.server, i, now, path);
    }
    if i < |s.client.log| && WellFormed(s.client.log[i]) && Accepts(s.client.log[i]) {
      AcceptanceArrives(s.server, s.client, i, now, path);
    }
  }

  lemma BootNegotiated(cid: u64, clientCfg: Config, serverCfg: Config)
    ensures Negotiated(Boot(cid, clientCfg, serverCfg))
  {
  }
}
