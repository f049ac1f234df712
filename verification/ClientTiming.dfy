/** When a client's timers take effect, over whole runs and told by the calls alone: how long a
    proposal waits for its answer, and when a probe finds the server silent. */
module ClientTiming {
  import opened ByteOrder
  import opened Wrappers
  import opened Protocol
  import opened CoreSpec
  import opened MachineRuns
  import opened TimerWheel
  import opened CoreTimers
  import opened ClientRuntime
  import opened ClientWatchdog
  import Wire

  // -------------------------------------------------------- answers to a proposal

  /** The TLV answers the proposal with this id. */
  predicate IsAnswer(t: Wire.Tlv, id: u32) {
    DecodeAckTlv(t).Some? && DecodeAckTlv(t).value.0 == id
  }

  predicate HasAnswer(tlvs: seq<Wire.Tlv>, id: u32) {
    exists i :: 0 <= i < |tlvs| && IsAnswer(tlvs[i], id)
  }

  /** The datagram is an MSR with an answer to the proposal. */
  predicate Answers(bytes: Bytes, id: u32) {
    var f := Wire.Decode(bytes);
    f.Ok? && f.value.messageType == Wire.Msr && HasAnswer(f.value.tlvs, id)
  }

  lemma TlvKeepsPending(c: Core, path: u32, t: Wire.Tlv, id: u32)
    requires c.pendingLocal.Some? && c.pendingLocal.value.proposalId == id && !IsAnswer(t, id)
    ensures HandleTlv(c, path, t).core.pendingLocal == c.pendingLocal
  {
    hide DecodeProposalTlv, DecodeAckTlv, ValidateTimerProposal;
  }

  lemma {:induction false} TlvsKeepPending(c: Core, path: u32, tlvs: seq<Wire.Tlv>, id: u32)
    requires c.pendingLocal.Some? && c.pendingLocal.value.proposalId == id && !HasAnswer(tlvs, id)
    ensures HandleTlvs(c, path, tlvs).core.pendingLocal == c.pendingLocal
    decreases |tlvs|
  {
    hide HandleTlv, IsAnswer;
    if tlvs != [] {
      assert !IsAnswer(tlvs[0], id);
      TlvKeepsPending(c, path, tlvs[0], id);
      assert forall i :: 0 <= i < |tlvs[1..]| ==> tlvs[1..][i] == tlvs[i + 1];
      TlvsKeepPending(HandleTlv(c, path, tlvs[0]).core, path, tlvs[1..], id);
    }
  }

  lemma DispatchKeepsPending(c: Core, now: nat, path: u32, f: Wire.WireFrame, id: u32)
    requires c.pendingLocal.Some? && c.pendingLocal.value.proposalId == id
    requires f.messageType == Wire.Msr ==> !HasAnswer(f.tlvs, id)
    ensures Dispatch(c, now, path, f).core.pendingLocal == c.pendingLocal
  {
    hide HandleTlvs, HandleMsrSignal, HandleRequestRange, AddFragment, Accept, HasAnswer;
    match f.messageType
    case Msr =>
      var pair := DecodePair(f.payload);
      if pair.Some? {
        TlvsKeepPending(c, path, f.tlvs, id);
        SignalKeeps(HandleTlvs(c, path, f.tlvs).core, now, path, pair.value.1, ControlMsrFrame);
      }
    case RequestRange => RangeKeeps(c, path, f.payload);
    case Data =>
      if |f.payload| >= 8 {
        AcceptFrame(c, U64Value(f.payload[..8]), f.payload[8..]);
      }
    case Fragment =>
      if |f.payload| >= FRAGMENT_HEADER_LEN {
        FragmentFrame(c, U64Value(f.payload[..8]), U16Value(f.payload[8..10]), U16Value(f.payload[10..12]),
                      f.payload[FRAGMENT_HEADER_LEN..]);
      }
    case _ =>
  }

  /** A datagram without an answer to it leaves a pending proposal alone. */
  lemma DatagramKeepsPending(c: Core, now: nat, path: u32, bytes: Bytes)
    requires c.pendingLocal.Some? && !Answers(bytes, c.pendingLocal.value.proposalId)
    ensures OnDatagram(c, now, path, bytes).core.pendingLocal == c.pendingLocal
  {
    hide Wire.Decode, Dispatch, HasAnswer;
    if Hears(c, bytes) {
      var f := Wire.Decode(bytes).value;
      var a := Arrive(c, now, path);
      DispatchKeepsPending(a, now, path, f, c.pendingLocal.value.proposalId);
      PiggybackKeeps(Dispatch(a, now, path, f).core, now, path, f);
    }
  }

  // ----------------------------------------------------------- how long a proposal waits

  /** Nothing that ends the wait: no answer to the proposal, no new proposal that succeeds, no
      poll at its end or later. */
  predicate Undisturbing(l: Life, c: Call, w: Pending) {
    match c
    case Polls(now, _) => now < w.expiresAtMs
    case Drives(Datagram(_, _, bytes)) => !Answers(bytes, w.proposalId)
    case Drives(ProposeTimers(now, p)) => OnApiProposeTimers(l.client.core, now, p).out.Err?
    case Drives(_) => true
  }

  ghost predicate Undisturbed(l: Life, calls: seq<Call>, w: Pending)
    decreases |calls|
  {
    calls == [] || (Undisturbing(l, calls[0], w) && Undisturbed(ClientWatchdog.Advance(l, calls[0]), calls[1..], w))
  }

  /** Firing entries before its expiry leaves a pending proposal alone, and from then on clears
      it if its own entry is among them, which is reported. */
  lemma {:induction false} FireAllAndPending(c: ClientState, now: nat, due: seq<(nat, TimerId)>, w: Pending)
    requires c.core.pendingLocal == Some(w)
    ensures var f := FireAll(c, now, due);
      && (now < w.expiresAtMs ==> f.0.core.pendingLocal == Some(w))
      && (f.0.core.pendingLocal == Some(w) || f.0.core.pendingLocal == None)
      && (TimerRenegotiationRolledBack(w.proposalId) in f.1.events <==> f.0.core.pendingLocal == None)
    decreases |due|
  {
    hide OnTimer;
    if due != [] {
      var n := |due| - 1;
      FireAllAndPending(c, now, due[..n], w);
      OnePendingTimer(FireAll(c, now, due[..n]).0.core, now, due[n].1, w);
    }
  }

  lemma OnePendingTimer(c: Core, now: nat, id: TimerId, w: Pending)
    requires c.pendingLocal == Some(w) || c.pendingLocal == None
    ensures var s := OnTimer(c, now, id);
      && s.out.Ok?
      && (c.pendingLocal == None ==> s.core.pendingLocal == None)
      && (s.core.pendingLocal == None || s.core.pendingLocal == Some(w))
      && (now < w.expiresAtMs ==> s.core.pendingLocal == c.pendingLocal)
      && (TimerRenegotiationRolledBack(w.proposalId) in s.out.value.events <==>
            c.pendingLocal == Some(w) && s.core.pendingLocal == None)
  {
  }

  lemma AdvanceWaits(l: Life, c: Call, w: Pending)
    requires l.client.core.pendingLocal == Some(w) && Undisturbing(l, c, w)
    ensures ClientWatchdog.Advance(l, c).client.core.pendingLocal == Some(w)
  {
    hide FireAll, OnDatagram, Ingest, Answers;
    if Proper(l, c) {
      match c
      case Polls(now, limit) => FireAllAndPending(l.client, now, Due(l.client.timers, now, limit), w);
      case Drives(Datagram(now, path, bytes)) => DatagramKeepsPending(l.client.core, now, path, bytes);
      case Drives(input) => OtherInputWaits(l.client.core, input);
    }
  }

  lemma OtherInputWaits(c: Core, i: Input)
    requires Allowed(c, i) && !i.Timer? && !i.Datagram?
    requires i.ProposeTimers? ==> OnApiProposeTimers(c, i.nowMs, i.proposal).out.Err?
    ensures Apply(c, i).core.pendingLocal == c.pendingLocal
  {
    hide ValidateTimerProposal;
  }

  lemma {:induction false} LifeWaits(l: Life, calls: seq<Call>, w: Pending)
    requires l.client.core.pendingLocal == Some(w) && Undisturbed(l, calls, w)
    ensures Live(l, calls).client.core.pendingLocal == Some(w)
    decreases |calls|
  {
    hide ClientWatchdog.Advance, Undisturbing;
    if calls != [] {
      AdvanceWaits(l, calls[0], w);
      LifeWaits(ClientWatchdog.Advance(l, calls[0]), calls[1..], w);
    }
  }

  lemma BirthIsSound(cid: u64, cfg: Config)
    ensures Sound(Birth(cid, cfg).client)
  {
  }

  /** Two intervals after the call that proposes, if 64 bits can hold it. */
  function WaitsUntil(nowMs: u64, intervalMs: u64): u64 {
    if nowMs + 2 * intervalMs <= U64_MAX then nowMs + 2 * intervalMs else U64_MAX
  }

  lemma ProposingWaits(c: Core, nowMs: u64, p: TimerProposal)
    requires OnApiProposeTimers(c, nowMs, p).out.Ok?
    ensures OnApiProposeTimers(c, nowMs, p).core.pendingLocal
         == Some(Pending(c.nextProposalId, p, WaitsUntil(nowMs, c.cfg.msrIntervalMs)))
  {
    hide ValidateTimerProposal;
  }

  /** In every run: a proposal made at some time under some interval, and not answered or
      replaced since, is still pending after any poll before two intervals have passed, and is
      given up, and reported so, by a large enough poll from then on. */
  lemma ProposalWaitsTwoIntervals(cid: u64, cfg: Config, before: seq<Call>, nowMs: u64, p: TimerProposal,
                                  after: seq<Call>, now: nat, limit: nat)
    requires OnApiProposeTimers(Live(Birth(cid, cfg), before).client.core, nowMs, p).out.Ok?
    requires var l := Live(Birth(cid, cfg), before);
      var w := Pending(l.client.core.nextProposalId, p, WaitsUntil(nowMs, l.client.core.cfg.msrIntervalMs));
      Undisturbed(ClientWatchdog.Advance(l, Drives(ProposeTimers(nowMs, p))), after, w)
    ensures var l := Live(Birth(cid, cfg), before);
      var id := l.client.core.nextProposalId;
      var end := WaitsUntil(nowMs, l.client.core.cfg.msrIntervalMs);
      var c := Live(ClientWatchdog.Advance(l, Drives(ProposeTimers(nowMs, p))), after).client;
      var polled := Poll(c, now, limit);
      && c.core.pendingLocal == Some(Pending(id, p, end))
      && (now < end ==>
            && polled.0.core.pendingLocal == c.core.pendingLocal
            && TimerRenegotiationRolledBack(id) !in polled.1.events)
      && (now >= end && limit >= |Entries(c.timers, DueKeys(c.timers, now))| ==>
            && polled.0.core.pendingLocal == None
            && TimerRenegotiationRolledBack(id) in polled.1.events)
  {
    hide Live, Undisturbed, FireAll, Entries, Sound, OnApiProposeTimers, Ingest, WaitsUntil;
    var l := Live(Birth(cid, cfg), before);
    var w := Pending(l.client.core.nextProposalId, p, WaitsUntil(nowMs, l.client.core.cfg.msrIntervalMs));
    BirthIsSound(cid, cfg);
    EveryLifeIsSound(Birth(cid, cfg), before);
    ProposingWaits(l.client.core, nowMs, p);
    var made := Drives(ProposeTimers(nowMs, p));
    AdvanceIsSound(l, made);
    LifeWaits(ClientWatchdog.Advance(l, made), after, w);
    EveryLifeIsSound(ClientWatchdog.Advance(l, made), after);
    var c := Live(ClientWatchdog.Advance(l, made), after).client;
    FireAllAndPending(c, now, Due(c.timers, now, limit), w);
    if now >= w.expiresAtMs && limit >= |Entries(c.timers, DueKeys(c.timers, now))| {
      ExpiredProposalGoes(c, now, limit);
    }
  }

  // ------------------------------------------------- when a probe finds the server silent

  /** The silence a probe puts up with, if 64 bits can hold it. */
  function Patience(cfg: Config): int {
    if cfg.msrIntervalMs * cfg.missWindowCount <= U64_MAX then cfg.msrIntervalMs * cfg.missWindowCount else U64_MAX
  }

  /** In session, the machine knows when it last heard a datagram. */
  ghost predicate KnowsLastHeard(l: Life) {
    && l.client.core.role == Client
    && (l.client.core.state == Established ==> l.heard.Some? && l.client.core.lastServerMsrAtMs == l.heard)
  }

  /** What keeps or gets a client established notes the time. */
  ghost predicate NotesTime(c: Core, d: Core, now: nat) {
    && d.role == c.role
    && (d.state == Established ==>
          d.lastServerMsrAtMs == Some(now) || (c.state == Established && d.lastServerMsrAtMs == c.lastServerMsrAtMs))
  }

  lemma SignalNotes(c: Core, now: nat, path: u32, next: u64, source: MsrSource)
    requires c.role == Client
    ensures NotesTime(c, HandleMsrSignal(c, now, path, next, source).core, now)
  {
    hide MaxPending;
  }

  lemma {:induction false} TlvsKeepClock(c: Core, path: u32, tlvs: seq<Wire.Tlv>)
    ensures var d := HandleTlvs(c, path, tlvs).core;
      d.role == c.role && d.state == c.state && d.lastServerMsrAtMs == c.lastServerMsrAtMs
  {
    TlvsChangeOnlyTimers(c, path, tlvs);
  }

  lemma DispatchNotes(c: Core, now: nat, path: u32, f: Wire.WireFrame)
    requires c.role == Client
    ensures NotesTime(c, Dispatch(c, now, path, f).core, now)
  {
    hide HandleTlvs, HandleMsrSignal, HandleRequestRange, AddFragment, Accept;
    match f.messageType
    case Msr =>
      var pair := DecodePair(f.payload);
      if pair.Some? {
        TlvsKeepClock(c, path, f.tlvs);
        SignalNotes(HandleTlvs(c, path, f.tlvs).core, now, path, pair.value.1, ControlMsrFrame);
      }
    case RequestRange => RangeKeeps(c, path, f.payload);
    case Data =>
      if |f.payload| >= 8 {
        AcceptFrame(c, U64Value(f.payload[..8]), f.payload[8..]);
      }
    case Fragment =>
      if |f.payload| >= FRAGMENT_HEADER_LEN {
        FragmentFrame(c, U64Value(f.payload[..8]), U16Value(f.payload[8..10]), U16Value(f.payload[10..12]),
                      f.payload[FRAGMENT_HEADER_LEN..]);
      }
    case _ =>
  }

  lemma DatagramNotes(c: Core, now: nat, path: u32, bytes: Bytes)
    requires c.role == Client
    ensures var d := OnDatagram(c, now, path, bytes).core;
      && d.role == Client
      && (Hears(c, bytes) ==> (d.state == Established ==> d.lastServerMsrAtMs == Some(now)))
      && (!Hears(c, bytes) ==> d == c)
  {
    hide Wire.Decode, Dispatch, FindSignalTlv, HandleMsrSignal;
    if Hears(c, bytes) {
      var f := Wire.Decode(bytes).value;
      var a := Arrive(c, now, path);
      DispatchNotes(a, now, path, f);
      var d := Dispatch(a, now, path, f).core;
      var signal := if f.messageType == Wire.Msr then None else FindSignalTlv(f.tlvs);
      if signal.Some? {
        SignalNotes(d, now, path, signal.value.1, PiggybackTlv);
      }
    }
  }

  lemma OtherInputNotes(c: Core, i: Input)
    requires Allowed(c, i) && !i.Timer? && !i.Datagram?
    ensures var d := Apply(c, i).core;
      && d.role == c.role && d.lastServerMsrAtMs == c.lastServerMsrAtMs
      && (d.state == Established ==> c.state == Established)
  {
    hide ValidateTimerProposal;
  }

  lemma TimerNotes(c: Core, now: nat, id: TimerId)
    ensures var d := OnTimer(c, now, id).core;
      && d.role == c.role && d.lastServerMsrAtMs == c.lastServerMsrAtMs && d.cfg == c.cfg
      && (d.state == Established ==> c.state == Established)
  {
  }

  lemma {:induction false} FireAllNotes(c: ClientState, now: nat, due: seq<(nat, TimerId)>)
    ensures var d := FireAll(c, now, due).0.core;
      && d.role == c.core.role && d.lastServerMsrAtMs == c.core.lastServerMsrAtMs && d.cfg == c.core.cfg
      && (d.state == Established ==> c.core.state == Established)
    decreases |due|
  {
    hide OnTimer;
    if due != [] {
      var n := |due| - 1;
      FireAllNotes(c, now, due[..n]);
      TimerNotes(FireAll(c, now, due[..n]).0.core, now, due[n].1);
    }
  }

  lemma AdvanceKnows(l: Life, c: Call)
    requires KnowsLastHeard(l)
    ensures KnowsLastHeard(ClientWatchdog.Advance(l, c))
  {
    hide FireAll, OnDatagram, Ingest, Hears;
    if Proper(l, c) {
      match c
      case Polls(now, limit) => FireAllNotes(l.client, now, Due(l.client.timers, now, limit));
      case Drives(Datagram(now, path, bytes)) => DatagramNotes(l.client.core, now, path, bytes);
      case Drives(input) => OtherInputNotes(l.client.core, input);
    }
  }

  lemma {:induction false} LifeKnows(l: Life, calls: seq<Call>)
    requires KnowsLastHeard(l)
    ensures KnowsLastHeard(Live(l, calls))
    decreases |calls|
  {
    hide ClientWatchdog.Advance, KnowsLastHeard;
    if calls != [] {
      AdvanceKnows(l, calls[0]);
      LifeKnows(ClientWatchdog.Advance(l, calls[0]), calls[1..]);
    }
  }

  /** The client has heard nothing for longer than its patience. */
  predicate Silent(l: Life, now: nat) {
    l.heard.Some? && now > l.heard.value + Patience(l.client.core.cfg)
  }

  /** In every reachable state of an established client, a probe that fires leaves it for
      Reactivating, sends an MSR with its queue and reports it, if and only if more than
      interval times miss count have passed since the last datagram it heard; otherwise it
      changes nothing and sends nothing. Either way it comes back after an interval. */
  lemma ProbeFindsSilenceExactly(cid: u64, cfg: Config, calls: seq<Call>, now: nat)
    requires Live(Birth(cid, cfg), calls).client.core.state == Established
    ensures var l := Live(Birth(cid, cfg), calls);
      var c := l.client.core;
      var s := OnTimer(c, now, ClientProbe);
      && l.heard.Some? && s.out.Ok?
      && s.core == (if Silent(l, now) then c.(state := Reactivating) else c)
      && s.out.value.sends == (if Silent(l, now) then [Send(c.pathId, Status(0, MaxPending(c), NoReneg))] else [])
      && s.out.value.events == (if Silent(l, now) then [ReactivationProbeSent] else [])
      && s.out.value.timers == [Schedule(ClientProbe, now + c.cfg.msrIntervalMs)]
  {
    hide Live;
    LifeKnows(Birth(cid, cfg), calls);
  }

  // --------------------------------------------------------------------- through a poll

  ghost predicate TakesProbe(due: seq<(nat, TimerId)>) {
    exists i :: 0 <= i < |due| && due[i].1 == ClientProbe
  }

  lemma TakesProbeSplits(due: seq<(nat, TimerId)>)
    requires due != []
    ensures TakesProbe(due) <==> TakesProbe(due[..|due| - 1]) || due[|due| - 1].1 == ClientProbe
  {
    var n := |due| - 1;
    if TakesProbe(due[..n]) {
      var i :| 0 <= i < n && due[..n][i].1 == ClientProbe;
      assert due[i].1 == ClientProbe;
    }
    if i :| 0 <= i < |due| && due[i].1 == ClientProbe {
      assert i < n ==> due[..n][i].1 == ClientProbe;
    }
  }

  lemma OneTimerOfSilentClient(c: Core, now: nat, id: TimerId)
    requires c.role == Client
    ensures var s := OnTimer(c, now, id);
      && s.out.Ok?
      && (InSession(c) && s.core.state != Lost ==>
            && s.core.state == (if id == ClientProbe && MissedMsr(c, now) then Reactivating else c.state)
            && (ReactivationProbeSent in s.out.value.events <==> id == ClientProbe && MissedMsr(c, now))
            && (s.out.value.sends != [] <==> id == ClientProbe && MissedMsr(c, now)))
      && (c.state == Lost ==> s.core.state == Lost)
  {
  }

  lemma {:induction false} FireAllProbes(c: ClientState, now: nat, due: seq<(nat, TimerId)>)
    requires c.core.role == Client && c.core.state == Established
    ensures var f := FireAll(c, now, due);
      f.0.core.state != Lost ==>
        && f.0.core.state == (if TakesProbe(due) && MissedMsr(c.core, now) then Reactivating else Established)
        && (ReactivationProbeSent in f.1.events <==> TakesProbe(due) && MissedMsr(c.core, now))
        && (f.1.sends != [] <==> TakesProbe(due) && MissedMsr(c.core, now))
    decreases |due|
  {
    hide OnTimer;
    if due != [] {
      var n := |due| - 1;
      FireAllProbes(c, now, due[..n]);
      FireAllNotes(c, now, due[..n]);
      TakesProbeSplits(due);
      OneTimerOfSilentClient(FireAll(c, now, due[..n]).0.core, now, due[n].1);
    }
  }

  /** So in every run, a poll that does not end an established client's session makes it
      reactivate, report it and send, if and only if it takes a probe and the server has been
      silent for too long. */
  lemma PollFindsSilenceExactly(cid: u64, cfg: Config, calls: seq<Call>, now: nat, limit: nat)
    requires var c := Live(Birth(cid, cfg), calls).client;
      c.core.state == Established && Poll(c, now, limit).0.core.state != Lost
    ensures var l := Live(Birth(cid, cfg), calls);
      var p := Poll(l.client, now, limit);
      var found := TakesProbe(Due(l.client.timers, now, limit)) && Silent(l, now);
      && p.0.core.state == (if found then Reactivating else Established)
      && (ReactivationProbeSent in p.1.events <==> found)
      && (p.1.sends != [] <==> found)
  {
    hide Live, FireAll, Due, TakesProbe;
    LifeKnows(Birth(cid, cfg), calls);
    var l := Live(Birth(cid, cfg), calls);
    FireAllProbes(l.client, now, Due(l.client.timers, now, limit));
  }
}
