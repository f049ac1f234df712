/** When two peers end with the same timers. Every endpoint runs on the last proposal it has
    committed to; where one side alone proposes, the two last commitments are the same exactly
    when the responder's last one is also the proposer's newest. */
module Agreement {
  import opened ByteOrder
  import opened Wrappers
  import opened Protocol
  import opened CoreSpec
  import opened Receiver
  import opened MachineRuns
  import opened Delivery
  import opened Network
  import opened OrderedDelivery
  import opened Completeness
  import opened Handshake
  import opened Renegotiation

  /** A proposal id and the proposal committed to under it. */
  type Commit = (u32, TimerProposal)

  /** What a message makes a machine commit to, if anything: a valid proposal, or its own
      pending one when the message accepts it. */
  function CommitBy(c: Core, m: Msg): seq<Commit> {
    if IsProposal(m) && ValidateTimerProposal(c.cfg, m.reneg.proposal).Ok? then [(m.reneg.proposalId, m.reneg.proposal)]
    else if Accepts(m) && c.pendingLocal.Some? && c.pendingLocal.value.proposalId == m.reneg.proposalId then
      [(m.reneg.proposalId, c.pendingLocal.value.proposal)]
    else []
  }

  /** The timers after a history of commitments: the last one's, or the initial ones. */
  function CfgAfter(initial: Config, commits: seq<Commit>): Config {
    if commits == [] then initial else commits[|commits| - 1].1.ToConfig()
  }

  lemma CfgAfterBoth(initial: Config, a: seq<Commit>, b: seq<Commit>)
    ensures CfgAfter(CfgAfter(initial, a), b) == CfgAfter(initial, a + b)
  {
  }

  /** The commitment is the one the machine reports, and nothing else changes its timers. */
  lemma DeliveryCommits(c: Core, now: nat, path: u32, m: Msg)
    ensures var s := OnMsg(c, now, path, m);
      && s.core.cfg == CfgAfter(c.cfg, CommitBy(c, m))
      && (s.out.Ok? ==> forall id :: TimerRenegotiationCommitted(id) in s.out.value.events <==>
            CommitBy(c, m) != [] && CommitBy(c, m)[0].0 == id)
      && AgreedBy(m, s) == (if IsProposal(m) && CommitBy(c, m) != [] then {CommitBy(c, m)[0]} else {})
  {
    hide HandleMsrSignal, Handle, ValidateTimerProposal;
    HandleCommits(c, now, path, m);
    var a := Handle(c, now, path, m);
    if CarriesSignal(m) && a.out.Ok? {
      var source := if m.Status? then ControlMsrFrame else PiggybackTlv;
      SignalKeeps(a.core, now, path, m.nextPending, source);
      SignalCommitsNothing(a.core, now, path, m.nextPending, source);
    }
  }

  lemma HandleCommits(c: Core, now: nat, path: u32, m: Msg)
    ensures var s := Handle(c, now, path, m);
      && s.core.cfg == CfgAfter(c.cfg, CommitBy(c, m)) && (m.Status? ==> s.out.Ok?)
      && (s.out.Ok? ==> forall id :: TimerRenegotiationCommitted(id) in s.out.value.events <==>
            CommitBy(c, m) != [] && CommitBy(c, m)[0].0 == id)
  {
    hide RangeReplies, AddFragment, Accept, ValidateTimerProposal;
    if m.Whole? && m.msgId !in c.receivedIds {
      AcceptCommitsNothing(c, m.msgId, m.payload);
    } else if m.Part? {
      FragmentCommitsNothing(c, m.msgId, m.index, m.total, m.chunk);
    }
  }

  lemma AcceptCommitsNothing(c: Core, id: u64, payload: Bytes)
    ensures var s := Accept(c, id, payload);
      s.core.cfg == c.cfg && forall e :: e in s.out.value.events ==> !e.TimerRenegotiationCommitted?
  {
    hide FlushOrdered;
    FlushCommitsNothing(c.(receivedIds := c.receivedIds + {id}, buffer := c.buffer[id := payload],
                           fragments := c.fragments - {id}));
  }

  lemma {:induction false} FlushCommitsNothing(c: Core)
    ensures var f := FlushOrdered(c);
      f.0.cfg == c.cfg && forall e :: e in f.1 ==> !e.TimerRenegotiationCommitted?
    decreases |c.buffer|
  {
    hide FlushOrdered;
    FlushUnfolds(c);
    if c.lastOrderedRx + 1 in c.buffer {
      var next: u64 := c.lastOrderedRx + 1;
      assert |(c.buffer - {next}).Keys| < |c.buffer.Keys|;
      FlushCommitsNothing(c.(buffer := c.buffer - {next}, lastOrderedRx := next));
    }
  }

  lemma FragmentCommitsNothing(c: Core, id: u64, index: u16, total: u16, chunk: Bytes)
    ensures var s := AddFragment(c, id, index, total, chunk);
      && s.core.cfg == c.cfg
      && (s.out.Ok? ==> forall e :: e in s.out.value.events ==> !e.TimerRenegotiationCommitted?)
  {
    hide Accept, AddChunk;
    if id !in c.receivedIds && index < total {
      var acc := AddChunk(c, id, index, total, chunk);
      var held := c.(fragments := c.fragments[id := acc]);
      if acc.total == total && |acc.chunks| == acc.total && Merge(acc.chunks, acc.total).Some? {
        AcceptCommitsNothing(held, id, Merge(acc.chunks, acc.total).value);
      }
    }
  }

  // --------------------------------------------------------------------- over whole runs

  function CommitNow(e: Endpoint, peerLog: seq<Msg>, a: Act): seq<Commit> {
    if a.Deliver? && Possible(e, peerLog, a) then CommitBy(e.core, peerLog[a.index]) else []
  }

  function CommitMade(s: System, side: Role, a: Act): seq<Commit> {
    if side == Client then CommitNow(s.client, s.server.log, a) else CommitNow(s.server, s.client.log, a)
  }

  /** What one side commits to in the course of a run, in order. */
  function Commitments(s: System, acts: seq<(Role, Act)>, side: Role): seq<Commit>
    decreases |acts|
  {
    if acts == [] then []
    else
      (if acts[0].0 == side then CommitMade(s, side, acts[0].1) else [])
      + Commitments(Next(s, acts[0].0, acts[0].1), acts[1..], side)
  }

  function TimersOf(s: System, side: Role): Config {
    if side == Client then s.client.core.cfg else s.server.core.cfg
  }

  lemma ActCommits(e: Endpoint, peerLog: seq<Msg>, a: Act)
    requires Possible(e, peerLog, a)
    ensures StepEnd(e, peerLog, a).core.cfg == CfgAfter(e.core.cfg, CommitNow(e, peerLog, a))
  {
    hide OnMsg, StepEnd, Apply, ValidateTimerProposal;
    match a
    case Deliver(i, now, path) =>
      DeliverFields(e, peerLog, i, now, path);
      ArriveKeepsTimers(e.core, now, path);
      DeliveryCommits(Arrive(e.core, now, path), now, path, peerLog[i]);
    case Local(input) =>
      LocalFields(e, peerLog, input);
      LocalKeepsCfg(e.core, input);
  }

  lemma LocalKeepsCfg(c: Core, input: Input)
    requires Allowed(c, input) && !input.Datagram?
    ensures Apply(c, input).core.cfg == c.cfg
  {
    hide ValidateTimerProposal;
  }

  lemma NextCommits(s: System, side: Role, a: Act, of: Role)
    ensures TimersOf(Next(s, side, a), of)
         == CfgAfter(TimersOf(s, of), if side == of then CommitMade(s, side, a) else [])
  {
    hide StepEnd, CommitBy, Possible;
    if side == Client && Possible(s.client, s.server.log, a) {
      ActCommits(s.client, s.server.log, a);
    } else if side == Server && Possible(s.server, s.client.log, a) {
      ActCommits(s.server, s.client.log, a);
    }
  }

  /** In every run, whatever both sides propose and the network does: the timers of a side are
      those of the last proposal it committed to. */
  lemma {:induction false} TimersAreLastCommitment(s: System, acts: seq<(Role, Act)>, side: Role)
    ensures TimersOf(Play(s, acts), side) == CfgAfter(TimersOf(s, side), Commitments(s, acts, side))
    decreases |acts|
  {
    hide Next, CommitMade, TimersOf;
    if acts != [] {
      NextCommits(s, acts[0].0, acts[0].1, side);
      TimersAreLastCommitment(Next(s, acts[0].0, acts[0].1), acts[1..], side);
      CfgAfterBoth(TimersOf(s, side), if acts[0].0 == side then CommitMade(s, side, acts[0].1) else [],
                   Commitments(Next(s, acts[0].0, acts[0].1), acts[1..], side));
    }
  }

  // ---------------------------------------------------------------- one side alone proposes

  predicate Proposing(a: Act) {
    a.Local? && a.input.ProposeTimers?
  }

  /** Only this side proposes timers. */
  predicate OneSided(acts: seq<(Role, Act)>, proposer: Role) {
    forall k :: 0 <= k < |acts| && acts[k].0 != proposer ==> !Proposing(acts[k].1)
  }

  /** Every commitment has a higher id than those before it. */
  predicate Rising(commits: seq<Commit>) {
    forall j, k :: 0 <= j < k < |commits| ==> commits[j].0 < commits[k].0
  }

  /** `y` never proposed; `mine` are the commitments of `x`, `theirs` those of `y`. */
  ghost predicate Follows(x: Endpoint, y: Endpoint, mine: seq<Commit>, theirs: seq<Commit>) {
    && Rising(mine)
    && (forall a :: a in mine ==> a in theirs && a.0 < x.core.nextProposalId)
    && (x.core.pendingLocal.Some? ==>
          && x.core.pendingLocal.value.proposalId < x.core.nextProposalId
          && forall a :: a in mine ==> a.0 < x.core.pendingLocal.value.proposalId)
    && (forall a :: a in y.agreed ==> a in theirs)
    && y.core.pendingLocal == None
    && (forall k :: 0 <= k < |y.log| ==> !IsProposal(y.log[k]))
  }

  lemma RisingAppend(commits: seq<Commit>, a: Commit)
    requires Rising(commits) && forall b :: b in commits ==> b.0 < a.0
    ensures Rising(commits + [a])
  {
    forall j | 0 <= j < |commits|
      ensures commits[j].0 < a.0
    {
      assert commits[j] in commits;
    }
  }

  /** The proposing side takes in a datagram. */
  lemma ProposerFollows(x: Endpoint, y: Endpoint, i: nat, now: nat, path: u32, mine: seq<Commit>, theirs: seq<Commit>)
    requires Follows(x, y, mine, theirs) && ProposalsUnique(x) && AgreedFrom(x, y) && ReceiverInv(x.core)
    requires Possible(x, y.log, Deliver(i, now, path))
    ensures Follows(StepEnd(x, y.log, Deliver(i, now, path)), y, mine + CommitBy(x.core, y.log[i]), theirs)
  {
    hide OnMsg, StepEnd, ReceiverInv, ProposalsUnique, AgreedFrom;
    DeliverFields(x, y.log, i, now, path);
    var m := y.log[i];
    var c := Arrive(x.core, now, path);
    ArriveKeepsTimers(x.core, now, path);
    ReceiverInvTransfers(x.core, c);
    OnMsgReneg(c, now, path, m);
    if AcceptsPending(x, m) {
      AcceptanceCommitsExactly(c, now, path, m);
      AcceptanceIsAgreed(x, y, i);
      RisingAppend(mine, CommitBy(x.core, m)[0]);
    } else {
      assert mine + [] == mine;
    }
  }

  /** The proposing side acts on its own. */
  lemma ProposerFollowsLocally(x: Endpoint, y: Endpoint, input: Input, mine: seq<Commit>, theirs: seq<Commit>)
    requires Follows(x, y, mine, theirs) && Possible(x, y.log, Local(input))
    ensures Follows(StepEnd(x, y.log, Local(input)), y, mine, theirs)
  {
    hide Apply, StepEnd, Rising;
    LocalFields(x, y.log, input);
    LocalProposes(x.core, input);
  }

  /** The responding side takes in a datagram. */
  lemma ResponderFollows(x: Endpoint, y: Endpoint, i: nat, now: nat, path: u32, mine: seq<Commit>, theirs: seq<Commit>)
    requires Follows(x, y, mine, theirs) && ReceiverInv(y.core) && Possible(y, x.log, Deliver(i, now, path))
    ensures Follows(x, StepEnd(y, x.log, Deliver(i, now, path)), mine, theirs + CommitBy(y.core, x.log[i]))
  {
    hide OnMsg, StepEnd, ReceiverInv, Rising, ValidateTimerProposal;
    DeliverFields(y, x.log, i, now, path);
    DeliverAgrees(y, x.log, i, now, path);
    var c := Arrive(y.core, now, path);
    ArriveKeepsTimers(y.core, now, path);
    ReceiverInvTransfers(y.core, c);
    OnMsgReneg(c, now, path, x.log[i]);
    DeliveryCommits(c, now, path, x.log[i]);
  }

  /** The responding side acts on its own. */
  lemma ResponderFollowsLocally(x: Endpoint, y: Endpoint, input: Input, mine: seq<Commit>, theirs: seq<Commit>)
    requires Follows(x, y, mine, theirs) && Possible(y, x.log, Local(input)) && !input.ProposeTimers?
    ensures Follows(x, StepEnd(y, x.log, Local(input)), mine, theirs)
  {
    hide Apply, StepEnd, Rising;
    LocalFields(y, x.log, input);
    LocalProposes(y.core, input);
  }

  ghost predicate FollowsIn(s: System, proposer: Role, mine: seq<Commit>, theirs: seq<Commit>) {
    if proposer == Client then Follows(s.client, s.server, mine, theirs) else Follows(s.server, s.client, mine, theirs)
  }

  function Other(r: Role): Role {
    if r == Client then Server else Client
  }

  lemma ActFollows(x: Endpoint, y: Endpoint, a: Act, mine: seq<Commit>, theirs: seq<Commit>)
    requires Follows(x, y, mine, theirs) && ProposalsUnique(x) && AgreedFrom(x, y)
    requires ReceiverInv(x.core) && ReceiverInv(y.core)
    ensures Possible(x, y.log, a) ==> Follows(StepEnd(x, y.log, a), y, mine + CommitNow(x, y.log, a), theirs)
    ensures Possible(y, x.log, a) && !Proposing(a) ==>
      Follows(x, StepEnd(y, x.log, a), mine, theirs + CommitNow(y, x.log, a))
  {
    hide StepEnd, Follows, ProposalsUnique, AgreedFrom, ReceiverInv, CommitBy;
    assert mine + [] == mine && theirs + [] == theirs;
    match a
    case Deliver(i, now, path) =>
      if Possible(x, y.log, a) {
        ProposerFollows(x, y, i, now, path, mine, theirs);
      }
      if Possible(y, x.log, a) {
        ResponderFollows(x, y, i, now, path, mine, theirs);
      }
    case Local(input) =>
      if Possible(x, y.log, a) {
        ProposerFollowsLocally(x, y, input, mine, theirs);
      }
      if Possible(y, x.log, a) && !Proposing(a) {
        ResponderFollowsLocally(x, y, input, mine, theirs);
      }
  }

  lemma NextFollows(s: System, side: Role, a: Act, proposer: Role, mine: seq<Commit>, theirs: seq<Commit>)
    requires Linked(s) && Negotiated(s) && FollowsIn(s, proposer, mine, theirs)
    requires side != proposer ==> !Proposing(a)
    ensures var made := CommitMade(s, side, a);
      FollowsIn(Next(s, side, a), proposer, if side == proposer then mine + made else mine,
                if side == proposer then theirs else theirs + made)
  {
    hide StepEnd, Follows, ProposalsUnique, AgreedFrom, ReceiverInv, Possible, Link, CommitBy;
    LinkGivesReceiver(s.client, s.server);
    LinkGivesReceiver(s.server, s.client);
    assert mine + [] == mine && theirs + [] == theirs;
    if proposer == Client {
      ActFollows(s.client, s.server, a, mine, theirs);
    } else {
      ActFollows(s.server, s.client, a, mine, theirs);
    }
  }

  lemma {:induction false} PlayFollows(s: System, acts: seq<(Role, Act)>, proposer: Role,
                                       mine: seq<Commit>, theirs: seq<Commit>)
    requires Linked(s) && Negotiated(s) && FollowsIn(s, proposer, mine, theirs) && OneSided(acts, proposer)
    ensures FollowsIn(Play(s, acts), proposer, mine + Commitments(s, acts, proposer),
                      theirs + Commitments(s, acts, Other(proposer)))
    decreases |acts|
  {
    hide Linked, Negotiated, FollowsIn, Next, CommitMade;
    if acts == [] {
      assert mine + [] == mine && theirs + [] == theirs;
    } else {
      var (side, a) := acts[0];
      var made := CommitMade(s, side, a);
      NextNegotiated(s, side, a);
      NextFollows(s, side, a, proposer, mine, theirs);
      var mine' := if side == proposer then mine + made else mine;
      var theirs' := if side == proposer then theirs else theirs + made;
      PlayFollows(Next(s, side, a), acts[1..], proposer, mine', theirs');
      var rest := Commitments(Next(s, side, a), acts[1..], proposer);
      var restOther := Commitments(Next(s, side, a), acts[1..], Other(proposer));
      assert mine' + rest == mine + Commitments(s, acts, proposer);
      assert theirs' + restOther == theirs + Commitments(s, acts, Other(proposer));
    }
  }

  // ---------------------------------------------------------------------- the theorem

  function LastOf(commits: seq<Commit>): Option<Commit> {
    if commits == [] then None else Some(commits[|commits| - 1])
  }

  /** The responder's last commitment, if there is one, is the newest of the proposer's: its
      acceptance arrived while the proposal was pending, and no newer one was. */
  ghost predicate LastWasAnswered(mine: seq<Commit>, theirs: seq<Commit>) {
    theirs == [] ||
    (var last := theirs[|theirs| - 1];
     last in mine && forall a :: a in mine ==> a.0 <= last.0)
  }

  /** No older proposal is committed to after a newer one. */
  predicate NeverBack(commits: seq<Commit>) {
    forall j, k :: 0 <= j < k < |commits| ==> commits[j].0 <= commits[k].0
  }

  /** Commitments differ in their timers when they differ, and from the initial timers. */
  ghost predicate Distinguishable(initial: Config, commits: seq<Commit>) {
    && (forall a :: a in commits ==> a.1.ToConfig() != initial)
    && (forall a, b :: a in commits && b in commits && a.1.ToConfig() == b.1.ToConfig() ==> a == b)
  }

  lemma SameLastExactly(mine: seq<Commit>, theirs: seq<Commit>)
    requires Rising(mine) && forall a :: a in mine ==> a in theirs
    ensures LastOf(mine) == LastOf(theirs) <==> LastWasAnswered(mine, theirs)
    ensures NeverBack(theirs) ==>
      (LastOf(mine) == LastOf(theirs) <==> (theirs == [] || theirs[|theirs| - 1] in mine))
  {
    if mine != [] {
      var newest := mine[|mine| - 1];
      assert newest in mine;
      assert theirs != [];
      var last := theirs[|theirs| - 1];
      forall a | a in mine
        ensures a.0 <= newest.0 && (a.0 == newest.0 ==> a == newest)
        ensures NeverBack(theirs) ==> a.0 <= last.0
      {
        var k :| 0 <= k < |mine| && mine[k] == a;
        var j :| 0 <= j < |theirs| && theirs[j] == a;
      }
    }
  }

  lemma TimersTellCommitments(initial: Config, mine: seq<Commit>, theirs: seq<Commit>)
    requires (forall a :: a in mine ==> a in theirs) && Distinguishable(initial, theirs)
    ensures CfgAfter(initial, mine) == CfgAfter(initial, theirs) <==> LastOf(mine) == LastOf(theirs)
  {
    if mine != [] {
      assert mine[|mine| - 1] in theirs && theirs[|theirs| - 1] in theirs;
    } else if theirs != [] {
      assert theirs[|theirs| - 1] in theirs;
    }
  }

  /** Runs in which one side alone proposes, from equal timers, whatever the network does: the
      proposer commits in rising order and only to what the responder committed to. The last
      commitments agree exactly when the responder's last one was answered in time, or, if it
      never went back to an older proposal, exactly when it is among the proposer's. The
      timers end equal exactly when those of the last commitments do, which is the same thing
      wherever different proposals ask for different timers. */
  lemma OneSidedEndsEqualExactly(cid: u64, cfg: Config, acts: seq<(Role, Act)>, proposer: Role)
    requires OneSided(acts, proposer)
    ensures var s0 := Boot(cid, cfg, cfg);
      var s := Play(s0, acts);
      var mine := Commitments(s0, acts, proposer);
      var theirs := Commitments(s0, acts, Other(proposer));
      && Rising(mine) && (forall a :: a in mine ==> a in theirs)
      && (LastOf(mine) == LastOf(theirs) <==> LastWasAnswered(mine, theirs))
      && (NeverBack(theirs) ==>
            (LastOf(mine) == LastOf(theirs) <==> (theirs == [] || theirs[|theirs| - 1] in mine)))
      && (s.client.core.cfg == s.server.core.cfg <==> CfgAfter(cfg, mine) == CfgAfter(cfg, theirs))
      && (Distinguishable(cfg, theirs) ==>
            (s.client.core.cfg == s.server.core.cfg <==> LastWasAnswered(mine, theirs)))
  {
    hide Play, Commitments, Negotiated, Linked, Rising, LastWasAnswered, CfgAfter, NeverBack, Distinguishable;
    var s0 := Boot(cid, cfg, cfg);
    BootLinked(cid, cfg, cfg);
    BootNegotiated(cid, cfg, cfg);
    BootFollows(cid, cfg, proposer);
    PlayFollows(s0, acts, proposer, [], []);
    var mine := Commitments(s0, acts, proposer);
    var theirs := Commitments(s0, acts, Other(proposer));
    assert [] + mine == mine && [] + theirs == theirs;
    SameLastExactly(mine, theirs);
    TimersAreLastCommitment(s0, acts, Client);
    TimersAreLastCommitment(s0, acts, Server);
    if Distinguishable(cfg, theirs) {
      TimersTellCommitments(cfg, mine, theirs);
    }
  }

  lemma BootFollows(cid: u64, cfg: Config, proposer: Role)
    ensures FollowsIn(Boot(cid, cfg, cfg), proposer, [], [])
  {
  }

  // ------------------------------------------------------------------- both sides propose

  /** What a side reports of a commitment: whether the proposal was its own, and the id. */
  datatype Report = Report(own: bool, id: u32)

  function ReportBy(c: Core, m: Msg): Option<Report> {
    if CommitBy(c, m) == [] then None else Some(Report(!IsProposal(m), CommitBy(c, m)[0].0))
  }

  function ReportNow(e: Endpoint, peerLog: seq<Msg>, a: Act): Option<Report> {
    if a.Deliver? && Possible(e, peerLog, a) then ReportBy(e.core, peerLog[a.index]) else None
  }

  function ReportMade(s: System, side: Role, a: Act): Option<Report> {
    if side == Client then ReportNow(s.client, s.server.log, a) else ReportNow(s.server, s.client.log, a)
  }

  function Latest(r: Option<Report>, made: Option<Report>): Option<Report> {
    if made.Some? then made else r
  }

  /** The last report of one side in the course of a run, `r` being its last one before. */
  function LastReport(s: System, acts: seq<(Role, Act)>, side: Role, r: Option<Report>): Option<Report>
    decreases |acts|
  {
    if acts == [] then r
    else
      LastReport(Next(s, acts[0].0, acts[0].1), acts[1..], side,
                 if acts[0].0 == side then Latest(r, ReportMade(s, side, acts[0].1)) else r)
  }

  /** Neither side has committed, or both have last committed to one and the same proposal,
      which one of them made. */
  predicate InStep(a: Option<Report>, b: Option<Report>) {
    (a.None? && b.None?) || (a.Some? && b.Some? && a.value.id == b.value.id && a.value.own != b.value.own)
  }

  /** These are the timers the log proposes under the id. */
  ghost predicate Proposed(log: seq<Msg>, id: u32, cfg: Config) {
    exists p :: InLog(log, id, p) && cfg == p.ToConfig()
  }

  /** The timers of `x` are those its last report names. */
  ghost predicate RunsAsReported(x: Endpoint, y: Endpoint, r: Option<Report>, initial: Config) {
    if r.None? then x.core.cfg == initial
    else Proposed(if r.value.own then x.log else y.log, r.value.id, x.core.cfg)
  }

  lemma ProposedGrows(log: seq<Msg>, more: seq<Msg>, id: u32, cfg: Config)
    requires Proposed(log, id, cfg)
    ensures Proposed(log + more, id, cfg)
  {
    var p :| InLog(log, id, p) && cfg == p.ToConfig();
    InLogGrows(log, more, id, p);
  }

  lemma ReportedIsProposed(x: Endpoint, peerLog: seq<Msg>, i: nat)
    requires ProposalsUnique(x) && i < |peerLog| && CommitBy(x.core, peerLog[i]) != []
    ensures var r := ReportBy(x.core, peerLog[i]).value;
      Proposed(if r.own then x.log else peerLog, r.id, CfgAfter(x.core.cfg, CommitBy(x.core, peerLog[i])))
  {
    hide ValidateTimerProposal;
    var m := peerLog[i];
    if IsProposal(m) {
      assert Proposes(peerLog[i], m.reneg.proposalId, m.reneg.proposal);
      assert InLog(peerLog, m.reneg.proposalId, m.reneg.proposal);
    } else {
      assert InLog(x.log, m.reneg.proposalId, x.core.pendingLocal.value.proposal);
    }
  }

  lemma ActRuns(x: Endpoint, y: Endpoint, a: Act, r: Option<Report>, peer: Option<Report>, mine: Config, theirs: Config)
    requires ProposalsUnique(x) && RunsAsReported(x, y, r, mine) && RunsAsReported(y, x, peer, theirs)
    requires Possible(x, y.log, a)
    ensures RunsAsReported(StepEnd(x, y.log, a), y, Latest(r, ReportNow(x, y.log, a)), mine)
    ensures RunsAsReported(y, StepEnd(x, y.log, a), peer, theirs)
  {
    hide StepEnd, CommitBy, Proposed, ProposalsUnique;
    ActCommits(x, y.log, a);
    EndpointGrows(x, y.log, a);
    var z := StepEnd(x, y.log, a);
    var more := z.log[|x.log|..];
    assert z.log == x.log + more;
    if a.Deliver? && CommitBy(x.core, y.log[a.index]) != [] {
      ReportedIsProposed(x, y.log, a.index);
    }
    forall id: u32, cfg | Proposed(x.log, id, cfg)
      ensures Proposed(z.log, id, cfg)
    {
      ProposedGrows(x.log, more, id, cfg);
    }
  }

  ghost predicate BothRun(s: System, client: Option<Report>, server: Option<Report>, c0: Config, s0: Config) {
    RunsAsReported(s.client, s.server, client, c0) && RunsAsReported(s.server, s.client, server, s0)
  }

  lemma NextRuns(s: System, side: Role, a: Act, client: Option<Report>, server: Option<Report>, c0: Config, s0: Config)
    requires Negotiated(s) && BothRun(s, client, server, c0, s0)
    ensures BothRun(Next(s, side, a), if side == Client then Latest(client, ReportMade(s, side, a)) else client,
                    if side == Server then Latest(server, ReportMade(s, side, a)) else server, c0, s0)
  {
    hide StepEnd, RunsAsReported, ProposalsUnique, AgreedFrom, Possible, ReportBy;
    if side == Client && Possible(s.client, s.server.log, a) {
      ActRuns(s.client, s.server, a, client, server, c0, s0);
    } else if side == Server && Possible(s.server, s.client.log, a) {
      ActRuns(s.server, s.client, a, server, client, s0, c0);
    }
  }

  lemma {:induction false} PlayRuns(s: System, acts: seq<(Role, Act)>, client: Option<Report>, server: Option<Report>,
                                    c0: Config, s0: Config)
    requires Linked(s) && Negotiated(s) && BothRun(s, client, server, c0, s0)
    ensures BothRun(Play(s, acts), LastReport(s, acts, Client, client), LastReport(s, acts, Server, server), c0, s0)
    ensures Negotiated(Play(s, acts))
    decreases |acts|
  {
    hide Linked, Negotiated, BothRun, Next, ReportMade;
    if acts != [] {
      var (side, a) := acts[0];
      NextNegotiated(s, side, a);
      NextRuns(s, side, a, client, server, c0, s0);
      PlayRuns(Next(s, side, a), acts[1..], if side == Client then Latest(client, ReportMade(s, side, a)) else client,
               if side == Server then Latest(server, ReportMade(s, side, a)) else server, c0, s0);
    }
  }

  lemma {:induction false} ReportsSplit(s: System, a: seq<(Role, Act)>, b: seq<(Role, Act)>, side: Role,
                                        r: Option<Report>)
    ensures LastReport(s, a + b, side, r) == LastReport(Play(s, a), b, side, LastReport(s, a, side, r))
    decreases |a|
  {
    hide Next, ReportMade;
    if a == [] {
      assert a + b == b;
    } else {
      assert (a + b)[1..] == a[1..] + b;
      ReportsSplit(Next(s, a[0].0, a[0].1), a[1..], b, side,
                   if a[0].0 == side then Latest(r, ReportMade(s, side, a[0].1)) else r);
    }
  }

  lemma ReportsFrom(s: System, acts: seq<(Role, Act)>, k: nat, side: Role, r: Option<Report>)
    requires k < |acts|
    ensures LastReport(s, acts[k..], side, r)
         == LastReport(Next(s, acts[k].0, acts[k].1), acts[k + 1..], side,
                       if acts[k].0 == side then Latest(r, ReportMade(s, side, acts[k].1)) else r)
  {
    hide Next, ReportMade;
    assert acts[k..][1..] == acts[k + 1..];
  }

  lemma OneProposalPerId(x: Endpoint, id: u32, a: Config, b: Config)
    requires ProposalsUnique(x) && Proposed(x.log, id, a) && Proposed(x.log, id, b)
    ensures a == b
  {
    var p :| InLog(x.log, id, p) && a == p.ToConfig();
    var q :| InLog(x.log, id, q) && b == q.ToConfig();
    var j :| 0 <= j < |x.log| && Proposes(x.log[j], id, p);
    var k :| 0 <= k < |x.log| && Proposes(x.log[k], id, q);
    assert x.log[j].reneg == x.log[k].reneg;
  }

  /** No proposal asks for the initial timers, and no two different ones, of whichever sides,
      for the same. */
  ghost predicate TimersTell(s: System, initial: Config) {
    && (forall id: u32 :: !Proposed(s.client.log, id, initial) && !Proposed(s.server.log, id, initial))
    && (forall i: u32, j: u32, cfg ::
          !(Proposed(s.client.log, i, cfg) && Proposed(s.server.log, j, cfg)))
    && (forall i: u32, j: u32, cfg :: i != j ==>
          && !(Proposed(s.client.log, i, cfg) && Proposed(s.client.log, j, cfg))
          && !(Proposed(s.server.log, i, cfg) && Proposed(s.server.log, j, cfg)))
  }

  /** Whatever both sides propose from equal timers, whatever the network does: sides in step
      have equal timers; and wherever different proposals ask for different timers, the timers
      are equal if and only if the sides are in step. */
  lemma TimersEndEqualExactly(cid: u64, cfg: Config, acts: seq<(Role, Act)>)
    ensures var s0 := Boot(cid, cfg, cfg);
      var s := Play(s0, acts);
      var inStep := InStep(LastReport(s0, acts, Client, None), LastReport(s0, acts, Server, None));
      && (inStep ==> s.client.core.cfg == s.server.core.cfg)
      && (TimersTell(s, cfg) ==> (s.client.core.cfg == s.server.core.cfg <==> inStep))
  {
    hide Play, LastReport, ProposalsUnique, AgreedFrom, Linked, Proposed;
    var s0 := Boot(cid, cfg, cfg);
    BootLinked(cid, cfg, cfg);
    BootNegotiated(cid, cfg, cfg);
    PlayRuns(s0, acts, None, None, cfg, cfg);
    var s := Play(s0, acts);
    var a, b := LastReport(s0, acts, Client, None), LastReport(s0, acts, Server, None);
    if InStep(a, b) && a.Some? {
      OneProposalPerId(if a.value.own then s.client else s.server, a.value.id, s.client.core.cfg, s.server.core.cfg);
    }
  }
}
