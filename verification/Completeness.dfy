/** Completeness on a network that loses nothing: once no datagram is in flight, everything
    submitted has been delivered.

    The argument is one of conservation. Of each submitted message, some advertisement, some
    request, or every missing piece is in flight, or the receiver already has it. */
module Completeness {
  import opened ByteOrder
  import opened Protocol
  import opened CoreSpec
  import opened Receiver
  import opened MachineRuns
  import opened Delivery
  import opened Network
  import opened OrderedDelivery

  // ------------------------------------------------------------ what may still arrive

  ghost predicate AdvertUnseen(log: seq<Msg>, seen: set<nat>, n: nat) {
    exists k :: 0 <= k < |log| && k !in seen && CarriesSignal(log[k]) && log[k].nextPending == n
  }

  ghost predicate PullUnseen(log: seq<Msg>, seen: set<nat>, id: nat) {
    exists k :: 0 <= k < |log| && k !in seen && Covers(log[k], id)
  }

  predicate Covers(m: Msg, id: nat) {
    m.Pull? && m.start <= id <= m.end
  }

  ghost predicate WholeUnseen(log: seq<Msg>, seen: set<nat>, id: nat) {
    exists k :: 0 <= k < |log| && k !in seen && IsWhole(log[k], id)
  }

  predicate IsWhole(m: Msg, id: nat) {
    m.Whole? && m.msgId == id
  }

  ghost predicate PartUnseen(log: seq<Msg>, seen: set<nat>, id: nat, index: nat) {
    exists k :: 0 <= k < |log| && k !in seen && IsPiece(log[k], id, index)
  }

  predicate IsPiece(m: Msg, id: nat, index: nat) {
    m.Part? && m.msgId == id && m.index == index
  }

  /** The receiver has the message, or this piece of it. */
  predicate Holds(c: Core, id: u64, index: u16) {
    id in c.receivedIds || (id in c.fragments && index in c.fragments[id].chunks)
  }

  /** The message, or every piece the receiver lacks, is in flight to it. */
  ghost predicate Underway(msg: Bytes, id: u64, log: seq<Msg>, c: Core, seen: set<nat>) {
    if IsSmall(msg) then id in c.receivedIds || WholeUnseen(log, seen, id)
    else forall i: u16 :: i < PartCount(msg) ==> Holds(c, id, i) || PartUnseen(log, seen, id, i)
  }

  ghost predicate SeenInRange(seen: set<nat>, log: seq<Msg>) {
    forall i :: i in seen ==> i < |log|
  }

  /** Conservation, in the direction from `x` to `y`. */
  ghost predicate Conserved(x: Endpoint, y: Endpoint) {
    && SeenInRange(y.seen, x.log) && SeenInRange(x.seen, y.log)
    && (forall i :: 0 <= i < |x.submitted| ==> Sendable(x.submitted[i]))
    && y.core.lastRequestedEnd <= |x.submitted|
    && (y.core.lastRequestedEnd < |x.submitted| ==> AdvertUnseen(x.log, y.seen, |x.submitted|))
    && forall id: u64 :: 1 <= id <= y.core.lastRequestedEnd ==>
         PullUnseen(y.log, x.seen, id) || Underway(x.submitted[id - 1], id, x.log, y.core, y.seen)
  }

  // ----------------------------------------------------------------- smooth actions

  /** The receiver will act on what the message says. */
  predicate Heeds(c: Core, m: Msg) {
    CarriesSignal(m) ==> c.state == Established || (m.Status? && c.role == Client && c.state == Reactivating)
  }

  /** Sends happen while Established, with at most 65535 parts; what carries requests, data or
      advertisements arrives while the receiver heeds it. */
  predicate Smooth(e: Endpoint, peerLog: seq<Msg>, a: Act) {
    match a
    case Deliver(i, _, _) => i < |peerLog| ==> Heeds(e.core, peerLog[i])
    case Local(input) => input.SendMessage? ==> e.core.state == Established && Sendable(input.payload)
  }

  /** The size bound, in bytes. */
  lemma SendableExactly(msg: Bytes)
    ensures Sendable(msg) <==> |msg| <= U16_MAX * CHUNK_SIZE
  {
  }

  // -------------------------------------------------------- growing logs, seen datagrams

  lemma UnseenGrows(log: seq<Msg>, more: seq<Msg>, seen: set<nat>)
    ensures forall n :: AdvertUnseen(log, seen, n) ==> AdvertUnseen(log + more, seen, n)
    ensures forall id :: PullUnseen(log, seen, id) ==> PullUnseen(log + more, seen, id)
    ensures forall id :: WholeUnseen(log, seen, id) ==> WholeUnseen(log + more, seen, id)
    ensures forall id, i :: PartUnseen(log, seen, id, i) ==> PartUnseen(log + more, seen, id, i)
  {
    var all := log + more;
    assert forall k :: 0 <= k < |log| ==> all[k] == log[k];
  }

  lemma UnderwayGrows(msg: Bytes, id: u64, log: seq<Msg>, more: seq<Msg>, c: Core, seen: set<nat>)
    requires Underway(msg, id, log, c, seen)
    ensures Underway(msg, id, log + more, c, seen)
  {
    hide WholeUnseen, PartUnseen, PartCount, IsSmall;
    UnseenGrows(log, more, seen);
  }

  /** A message at the end of the log is in flight. */
  lemma NewIsUnseen(log: seq<Msg>, more: seq<Msg>, seen: set<nat>, k: nat)
    requires SeenInRange(seen, log) && k < |more|
    ensures CarriesSignal(more[k]) ==> AdvertUnseen(log + more, seen, more[k].nextPending)
    ensures forall id :: Covers(more[k], id) ==> PullUnseen(log + more, seen, id)
    ensures forall id :: IsWhole(more[k], id) ==> WholeUnseen(log + more, seen, id)
    ensures forall id, i :: IsPiece(more[k], id, i) ==> PartUnseen(log + more, seen, id, i)
  {
    var all := log + more;
    assert all[|log| + k] == more[k] && |log| + k !in seen;
  }

  // -------------------------------------------------------------- serving a request

  lemma {:induction false} RepliesContain(c: Core, submitted: seq<Bytes>, start: nat, end: u64, id: u64)
    requires QueueIs(c, submitted) && forall i :: 0 <= i < |submitted| ==> Sendable(submitted[i])
    ensures RangeReplies(c, start, end).Ok?
    ensures start <= id <= end && 1 <= id <= |submitted| ==>
      forall m :: m in Carriers(id, submitted[id - 1], c.lastOrderedRx, MaxPending(c)) ==>
        m in RangeReplies(c, start, end).value
    decreases end + 1 - start
  {
    hide Sendable, Carriers, MaxPending;
    if start <= end {
      RepliesContain(c, submitted, start + 1, end, id);
    }
  }

  /** Once all carriers of a message are new in the log, the message is under way. */
  lemma CarriersAreUnderway(msg: Bytes, id: u64, acked: u64, next: u64,
                            log: seq<Msg>, more: seq<Msg>, c: Core, seen: set<nat>)
    requires Sendable(msg) && SeenInRange(seen, log)
    requires forall m :: m in Carriers(id, msg, acked, next) ==> m in more
    ensures Underway(msg, id, log + more, c, seen)
  {
    var ms := Carriers(id, msg, acked, next);
    if IsSmall(msg) {
      assert ms[0] in more;
      var k :| 0 <= k < |more| && more[k] == ms[0];
      NewIsUnseen(log, more, seen, k);
      assert IsWhole(more[k], id);
    } else {
      forall i: u16 | i < PartCount(msg)
        ensures PartUnseen(log + more, seen, id, i)
      {
        assert ms[i] == PartOf(id, msg, i, acked, next) && ms[i] in more;
        var k :| 0 <= k < |more| && more[k] == ms[i];
        NewIsUnseen(log, more, seen, k);
        assert IsPiece(more[k], id, i);
      }
    }
  }

  lemma PullIsAnswered(c: Core, submitted: seq<Bytes>, now: nat, path: u32, m: Msg, id: u64)
    requires QueueIs(c, submitted) && forall i :: 0 <= i < |submitted| ==> Sendable(submitted[i])
    requires Covers(m, id) && 1 <= id <= |submitted| && c.state == Established
    ensures var s := OnMsg(c, now, path, m);
      s.out.Ok? && forall p :: p in Carriers(id, submitted[id - 1], c.lastOrderedRx, MaxPending(c)) ==>
        p in Messages(s.out.value.sends)
  {
    hide Sendable, Carriers, MaxPending, RangeReplies, HandleMsrSignal;
    RepliesContain(c, submitted, m.start, m.end, id);
    var replies := RangeReplies(c, m.start, m.end).value;
    var s := OnMsg(c, now, path, m);
    var first := SendAll(path, replies);
    var sends := s.out.value.sends;
    assert forall k :: 0 <= k < |replies| ==> sends[k] == first[k];
    forall p | p in replies
      ensures p in Messages(sends)
    {
      var k :| 0 <= k < |replies| && replies[k] == p;
      assert Messages(sends)[k] == p;
    }
  }

  // ------------------------------------------------------------ what arrivals achieve

  /** Nothing the receiver has is given up. */
  ghost predicate Gains(c: Core, d: Core) {
    && c.receivedIds <= d.receivedIds
    && forall id, i :: Holds(c, id, i) ==> Holds(d, id, i)
  }

  lemma AcceptGains(c: Core, id: u64, payload: Bytes)
    requires Partitioned(c) && id !in c.receivedIds
    ensures Gains(c, Accept(c, id, payload).core) && id in Accept(c, id, payload).core.receivedIds
  {
    AcceptChanges(c, id, payload);
    AcceptFields(c, id, payload);
  }

  lemma AcceptFields(c: Core, id: u64, payload: Bytes)
    requires Partitioned(c) && id !in c.receivedIds
    ensures var d := Accept(c, id, payload).core;
      d.receivedIds == c.receivedIds + {id} && d.fragments == c.fragments - {id}
  {
    var d := c.(receivedIds := c.receivedIds + {id}, buffer := c.buffer[id := payload],
                fragments := c.fragments - {id});
    assert Partitioned(d);
    FlushKeeps(d);
  }

  lemma PartGains(c: Core, submitted: seq<Bytes>, id: u64, index: u16, total: u16, chunk: Bytes)
    requires Matches(c, submitted) && 1 <= id <= |submitted| && IsPart(submitted[id - 1], index, total, chunk)
    ensures var s := AddFragment(c, id, index, total, chunk);
      s.out.Ok? && Gains(c, s.core) && Holds(s.core, id, index)
  {
    hide Accept, Chunk, PartCount, IsSmall, Merge, Matches, AddChunk;
    PartMatches(c, submitted, id, index, total, chunk);
    if id !in c.receivedIds {
      var acc := AddChunk(c, id, index, total, chunk);
      AddChunkAssembles(c, submitted, id, index, total, chunk);
      AddChunkGains(c, id, index, total, chunk);
      if |acc.chunks| == acc.total {
        MergeIsMessage(acc, submitted[id - 1]);
        HeldPartitioned(c, submitted, id, acc);
        AcceptFields(c.(fragments := c.fragments[id := acc]), id, submitted[id - 1]);
      }
    }
  }

  lemma HeldPartitioned(c: Core, submitted: seq<Bytes>, id: u64, acc: Accumulator)
    requires Matches(c, submitted) && id !in c.receivedIds
    ensures Partitioned(c.(fragments := c.fragments[id := acc]))
  {
  }

  lemma AddChunkGains(c: Core, id: u64, index: u16, total: u16, chunk: Bytes)
    requires AddChunk(c, id, index, total, chunk).total == total
    ensures var acc := AddChunk(c, id, index, total, chunk);
      && index in acc.chunks
      && (id in c.fragments ==> forall i :: i in c.fragments[id].chunks ==> i in acc.chunks)
  {
  }

  /** What the message brings arrives, and nothing is lost. */
  lemma HandleGains(c: Core, submitted: seq<Bytes>, now: nat, path: u32, m: Msg)
    requires Matches(c, submitted) && Honest(submitted, m) && Heeds(c, m)
    ensures var d := Handle(c, now, path, m).core;
      && Gains(c, d)
      && (m.Whole? ==> m.msgId in d.receivedIds)
      && (m.Part? ==> Holds(d, m.msgId, m.index))
      && d.lastRequestedEnd == c.lastRequestedEnd
      && (CarriesSignal(m) ==> d.state == c.state && d.role == c.role)
      && (!m.Pull? ==> Handle(c, now, path, m).out.Ok?)
  {
    hide AddFragment, Accept, RangeReplies, Matches, IsPart;
    MatchesGivesReceiver(c, submitted);
    if m.Whole? && m.msgId !in c.receivedIds {
      AcceptGains(c, m.msgId, m.payload);
      AcceptChanges(c, m.msgId, m.payload);
    } else if m.Part? {
      PartGains(c, submitted, m.msgId, m.index, m.total, m.chunk);
      AddFragmentChanges(c, m.msgId, m.index, m.total, m.chunk);
    }
  }

  ghost predicate Requests(sends: seq<Send>, id: nat) {
    exists k :: 0 <= k < |sends| && Covers(sends[k].msg, id)
  }

  /** What is requested rises to what is advertised, and the ids it adds are asked for. */
  ghost predicate AsksFor(c: Core, s: Step, next: u64) {
    && s.out.Ok?
    && s.core.lastRequestedEnd == (if next > c.lastRequestedEnd then next else c.lastRequestedEnd)
    && forall id: nat :: c.lastRequestedEnd < id <= s.core.lastRequestedEnd ==> Requests(s.out.value.sends, id)
  }

  lemma SignalAsks(c: Core, now: nat, path: u32, m: Msg)
    requires Heeds(c, m) && CarriesSignal(m)
    ensures AsksFor(c, Signal(c, now, path, m), m.nextPending)
  {
    var source := if m.Status? then ControlMsrFrame else PiggybackTlv;
    var a := if c.role == Client then ClientSignal(c, now, path, source) else (c.(serverMsrRun := 0), NOTHING);
    var b := PullNew(a.0, path, m.nextPending);
    var sends := Signal(c, now, path, m).out.value.sends;
    if m.nextPending > c.lastRequestedEnd {
      assert a.0.state == Established;
      assert sends[|sends| - 1] == b.1.sends[0];
      forall id: nat | c.lastRequestedEnd < id <= m.nextPending
        ensures Requests(sends, id)
      {
        assert Covers(sends[|sends| - 1].msg, id);
      }
    }
  }

  ghost predicate AllSendable(submitted: seq<Bytes>) {
    forall i :: 0 <= i < |submitted| ==> Sendable(submitted[i])
  }

  /** Everything one arrival achieves. */
  ghost predicate Achieves(c: Core, s: Step, m: Msg) {
    && s.out.Ok?
    && Gains(c, s.core)
    && (m.Whole? ==> m.msgId in s.core.receivedIds)
    && (m.Part? ==> Holds(s.core, m.msgId, m.index))
    && (if CarriesSignal(m) then AsksFor(c, s, m.nextPending) else s.core.lastRequestedEnd == c.lastRequestedEnd)
  }

  lemma OnMsgAchieves(c: Core, own: seq<Bytes>, submitted: seq<Bytes>, now: nat, path: u32, m: Msg)
    requires QueueIs(c, own) && AllSendable(own)
    requires Matches(c, submitted) && Honest(submitted, m) && Heeds(c, m)
    ensures Achieves(c, OnMsg(c, now, path, m), m)
  {
    hide Handle, HandleMsrSignal, Matches, Honest, QueueIs, Sendable, Holds;
    HandleGains(c, submitted, now, path, m);
    var a := Handle(c, now, path, m);
    if m.Pull? {
      PullSucceeds(c, own, now, path, m);
    }
    if CarriesSignal(m) {
      SignalAsks(a.core, now, path, m);
      var b := Signal(a.core, now, path, m);
      SignalKeeps(a.core, now, path, m.nextPending, if m.Status? then ControlMsrFrame else PiggybackTlv);
      HoldsTransfers(a.core, b.core);
      var all := a.out.value.sends + b.out.value.sends;
      forall id: nat | c.lastRequestedEnd < id <= b.core.lastRequestedEnd
        ensures Requests(all, id)
      {
        assert Requests(b.out.value.sends, id);
        var k :| 0 <= k < |b.out.value.sends| && Covers(b.out.value.sends[k].msg, id);
        assert all[|a.out.value.sends| + k] == b.out.value.sends[k];
      }
    }
  }

  lemma HoldsTransfers(c: Core, d: Core)
    requires SameReceiver(c, d)
    ensures forall id, i :: Holds(c, id, i) ==> Holds(d, id, i)
  {
  }

  lemma PullSucceeds(c: Core, own: seq<Bytes>, now: nat, path: u32, m: Msg)
    requires QueueIs(c, own) && AllSendable(own) && m.Pull?
    ensures Handle(c, now, path, m).out.Ok?
  {
    hide Sendable, RangeReplies, QueueIs;
    RepliesContain(c, own, m.start, m.end, 0);
  }

  // -------------------------------------------------------------------- conservation

  /** One more datagram of the log has been seen, and what it brought has been taken in. */
  lemma UnderwaySurvivesArrival(msg: Bytes, id: u64, log: seq<Msg>, c: Core, d: Core, seen: set<nat>, i: nat)
    requires Underway(msg, id, log, c, seen) && i < |log| && Gains(c, d)
    requires log[i].Whole? ==> log[i].msgId in d.receivedIds
    requires log[i].Part? ==> Holds(d, log[i].msgId, log[i].index)
    ensures Underway(msg, id, log, d, seen + {i})
  {
    hide PartCount, Holds;
    if IsSmall(msg) {
      if id !in c.receivedIds {
        var k :| 0 <= k < |log| && k !in seen && IsWhole(log[k], id);
        assert k != i ==> k !in seen + {i};
      }
    } else {
      forall j: u16 | j < PartCount(msg)
        ensures Holds(d, id, j) || PartUnseen(log, seen + {i}, id, j)
      {
        if !Holds(c, id, j) {
          var k :| 0 <= k < |log| && k !in seen && IsPiece(log[k], id, j);
          assert k != i ==> k !in seen + {i};
        }
      }
    }
  }

  lemma AdvertSurvivesArrival(log: seq<Msg>, seen: set<nat>, i: nat, n: nat)
    requires AdvertUnseen(log, seen, n) && i < |log|
    ensures AdvertUnseen(log, seen + {i}, n) || (CarriesSignal(log[i]) && log[i].nextPending == n)
  {
    var k :| 0 <= k < |log| && k !in seen && CarriesSignal(log[k]) && log[k].nextPending == n;
    assert k != i ==> k !in seen + {i};
  }

  lemma PullSurvivesArrival(log: seq<Msg>, seen: set<nat>, i: nat, id: nat)
    requires PullUnseen(log, seen, id) && i < |log|
    ensures PullUnseen(log, seen + {i}, id) || Covers(log[i], id)
  {
    var k :| 0 <= k < |log| && k !in seen && Covers(log[k], id);
    assert k != i ==> k !in seen + {i};
  }

  lemma RequestIsUnseen(log: seq<Msg>, sends: seq<Send>, seen: set<nat>, id: nat)
    requires SeenInRange(seen, log) && Requests(sends, id)
    ensures PullUnseen(log + Messages(sends), seen, id)
  {
    var k :| 0 <= k < |sends| && Covers(sends[k].msg, id);
    NewIsUnseen(log, Messages(sends), seen, k);
  }

  /** What a delivery changes at an endpoint. */
  lemma DeliverFields(y: Endpoint, peerLog: seq<Msg>, i: nat, now: nat, path: u32)
    requires Possible(y, peerLog, Deliver(i, now, path))
    ensures var s := OnMsg(Arrive(y.core, now, path), now, path, peerLog[i]);
      var z := StepEnd(y, peerLog, Deliver(i, now, path));
      && z.core == s.core && z.submitted == y.submitted && z.seen == y.seen + {i}
      && z.log == (if s.out.Ok? then y.log + Messages(s.out.value.sends) else y.log)
  {
    hide OnMsg, OnDatagram, Apply;
    DeliveryIsOnMsg(y, peerLog, i, now, path);
  }

  /** The receiving endpoint takes in a datagram: conservation towards it. */
  lemma ReceiverConserves(x: Endpoint, y: Endpoint, i: nat, now: nat, path: u32)
    requires Link(x, y) && SenderInv(y) && AllSendable(y.submitted) && Conserved(x, y)
    requires Possible(y, x.log, Deliver(i, now, path)) && Smooth(y, x.log, Deliver(i, now, path))
    ensures Conserved(x, StepEnd(y, x.log, Deliver(i, now, path)))
  {
    hide OnMsg, StepEnd, AdvertUnseen, PullUnseen, Underway, Holds, Sendable, QueueIs, Matches, Gains, Heeds;
    DeliverFields(y, x.log, i, now, path);
    var m := x.log[i];
    var c := Arrive(y.core, now, path);
    ArriveIsReady(y, x.submitted, now, path, m);
    OnMsgAchieves(c, y.submitted, x.submitted, now, path, m);
    var s := OnMsg(c, now, path, m);
    var z := StepEnd(y, x.log, Deliver(i, now, path));
    assert Honest(x.submitted, m);
    if z.core.lastRequestedEnd < |x.submitted| {
      AdvertSurvivesArrival(x.log, y.seen, i, |x.submitted|);
    }
    GainsFromArrival(y.core, c, z.core);
    forall id: u64 | 1 <= id <= z.core.lastRequestedEnd
      ensures PullUnseen(z.log, x.seen, id) || Underway(x.submitted[id - 1], id, x.log, z.core, z.seen)
    {
      if id > y.core.lastRequestedEnd {
        RequestIsUnseen(y.log, s.out.value.sends, x.seen, id);
      } else {
        IdSurvivesArrival(x.submitted[id - 1], id, x, y, s, i);
      }
    }
  }

  lemma IdSurvivesArrival(msg: Bytes, id: u64, x: Endpoint, y: Endpoint, s: Step, i: nat)
    requires PullUnseen(y.log, x.seen, id) || Underway(msg, id, x.log, y.core, y.seen)
    requires i < |x.log| && s.out.Ok? && Gains(y.core, s.core)
    requires x.log[i].Whole? ==> x.log[i].msgId in s.core.receivedIds
    requires x.log[i].Part? ==> Holds(s.core, x.log[i].msgId, x.log[i].index)
    ensures PullUnseen(y.log + Messages(s.out.value.sends), x.seen, id)
      || Underway(msg, id, x.log, s.core, y.seen + {i})
  {
    hide PullUnseen, Underway, Gains, Holds;
    if PullUnseen(y.log, x.seen, id) {
      UnseenGrows(y.log, Messages(s.out.value.sends), x.seen);
    } else {
      UnderwaySurvivesArrival(msg, id, x.log, y.core, s.core, y.seen, i);
    }
  }

  lemma GainsFromArrival(y: Core, c: Core, d: Core)
    requires SameReceiver(y, c) && Gains(c, d)
    ensures Gains(y, d)
  {
  }

  lemma ArriveIsReady(y: Endpoint, submitted: seq<Bytes>, now: nat, path: u32, m: Msg)
    requires QueueIs(y.core, y.submitted) && Matches(y.core, submitted) && Heeds(y.core, m)
    ensures var c := Arrive(y.core, now, path);
      && QueueIs(c, y.submitted) && Matches(c, submitted) && Heeds(c, m)
      && SameReceiver(y.core, c) && c.lastRequestedEnd == y.core.lastRequestedEnd
  {
  }

  lemma LocalKeepsRequests(c: Core, input: Input)
    requires Allowed(c, input) && !input.Datagram?
    ensures Apply(c, input).core.lastRequestedEnd == c.lastRequestedEnd
  {
    hide ValidateTimerProposal;
  }

  /** The receiving endpoint acts on its own: its log grows, it gives up nothing. */
  lemma ReceiverLocalConserves(x: Endpoint, y: Endpoint, input: Input)
    requires Conserved(x, y) && Possible(y, x.log, Local(input))
    ensures Conserved(x, StepEnd(y, x.log, Local(input)))
  {
    hide Apply, AdvertUnseen, PullUnseen, Underway, Sendable;
    var s := Apply(y.core, input);
    LocalReceivesNothing(y.core, input);
    LocalKeepsRequests(y.core, input);
    var z := StepEnd(y, x.log, Local(input));
    var more := if s.out.Ok? then Messages(s.out.value.sends) else [];
    assert z.log == y.log + more;
    forall id: u64 | 1 <= id <= z.core.lastRequestedEnd
      ensures PullUnseen(z.log, x.seen, id) || Underway(x.submitted[id - 1], id, x.log, z.core, z.seen)
    {
      UnseenGrows(y.log, more, x.seen);
      UnderwayTransfers(x.submitted[id - 1], id, x.log, y.core, z.core, y.seen);
    }
  }

  lemma UnderwayTransfers(msg: Bytes, id: u64, log: seq<Msg>, c: Core, d: Core, seen: set<nat>)
    requires SameReceiver(c, d)
    ensures Underway(msg, id, log, c, seen) == Underway(msg, id, log, d, seen)
  {
    hide PartCount;
  }

  /** The sending endpoint takes in a datagram: a request it sees is answered in full. */
  lemma SenderConserves(x: Endpoint, y: Endpoint, i: nat, now: nat, path: u32)
    requires Link(y, x) && SenderInv(x) && Conserved(x, y)
    requires Possible(x, y.log, Deliver(i, now, path)) && Smooth(x, y.log, Deliver(i, now, path))
    ensures Conserved(StepEnd(x, y.log, Deliver(i, now, path)), y)
  {
    hide OnMsg, StepEnd, AdvertUnseen, PullUnseen, Underway, Holds, Sendable, QueueIs, Matches, Carriers, MaxPending;
    DeliverFields(x, y.log, i, now, path);
    var m := y.log[i];
    var c := Arrive(x.core, now, path);
    ArriveIsReady(x, y.submitted, now, path, m);
    OnMsgAchieves(c, x.submitted, y.submitted, now, path, m);
    var more := Messages(OnMsg(c, now, path, m).out.value.sends);
    UnseenGrows(x.log, more, y.seen);
    var z := StepEnd(x, y.log, Deliver(i, now, path));
    forall id: u64 | 1 <= id <= y.core.lastRequestedEnd
      ensures PullUnseen(y.log, z.seen, id) || Underway(x.submitted[id - 1], id, z.log, y.core, y.seen)
    {
      if PullUnseen(y.log, x.seen, id) {
        PullSurvivesArrival(y.log, x.seen, i, id);
        if Covers(m, id) {
          PullIsAnswered(c, x.submitted, now, path, m, id);
          CarriersAreUnderway(x.submitted[id - 1], id, c.lastOrderedRx, MaxPending(c), x.log, more, y.core, y.seen);
        }
      } else {
        UnderwayGrows(x.submitted[id - 1], id, x.log, more, y.core, y.seen);
      }
    }
  }

  lemma SendAdvertises(c: Core, submitted: seq<Bytes>, payload: Bytes)
    requires QueueIs(c, submitted) && c.nextOutboundId < U64_MAX && c.state == Established
    ensures var s := OnApiSend(c, payload);
      && s.out.Ok? && |s.out.value.sends| == 1
      && s.out.value.sends[0].msg.Status? && s.out.value.sends[0].msg.nextPending == |submitted| + 1
  {
    var q := Enqueue(c, payload);
    assert QueueIs(q, submitted + [payload]);
    MaxPendingOf(q, submitted + [payload]);
  }

  /** The sending endpoint acts on its own: what it submits, it advertises. */
  lemma SenderLocalConserves(x: Endpoint, y: Endpoint, input: Input)
    requires SenderInv(x) && Conserved(x, y)
    requires Possible(x, y.log, Local(input)) && Smooth(x, y.log, Local(input))
    ensures Conserved(StepEnd(x, y.log, Local(input)), y)
  {
    hide Apply, AdvertUnseen, PullUnseen, Underway, Sendable, QueueIs, OnApiSend;
    var s := Apply(x.core, input);
    var z := StepEnd(x, y.log, Local(input));
    var more := if s.out.Ok? then Messages(s.out.value.sends) else [];
    assert z.log == x.log + more;
    UnseenGrows(x.log, more, y.seen);
    if input.SendMessage? {
      ApplyIsSend(x.core, input);
      SendAdvertises(x.core, x.submitted, input.payload);
      NewIsUnseen(x.log, more, y.seen, 0);
    }
    forall id: u64 | 1 <= id <= y.core.lastRequestedEnd
      ensures PullUnseen(y.log, z.seen, id) || Underway(z.submitted[id - 1], id, z.log, y.core, y.seen)
    {
      if !PullUnseen(y.log, x.seen, id) {
        UnderwayGrows(x.submitted[id - 1], id, x.log, more, y.core, y.seen);
      }
    }
  }

  lemma ApplyIsSend(c: Core, input: Input)
    requires input.SendMessage? && Allowed(c, input)
    ensures Apply(c, input) == OnApiSend(c, input.payload)
  {
  }

  // ----------------------------------------------------------------------- whole runs

  ghost predicate Flowing(s: System) {
    Linked(s) && Conserved(s.client, s.server) && Conserved(s.server, s.client)
  }

  lemma ActConserves(x: Endpoint, y: Endpoint, a: Act)
    requires Link(x, y) && Link(y, x) && Conserved(x, y) && Conserved(y, x)
    requires Possible(x, y.log, a) && Smooth(x, y.log, a)
    ensures Conserved(StepEnd(x, y.log, a), y) && Conserved(y, StepEnd(x, y.log, a))
  {
    hide StepEnd, Possible, Smooth, Matches;
    match a
    case Deliver(i, now, path) =>
      SenderConserves(x, y, i, now, path);
      ReceiverConserves(y, x, i, now, path);
    case Local(input) =>
      SenderLocalConserves(x, y, input);
      ReceiverLocalConserves(y, x, input);
  }

  /** Every action of the run is smooth when it is taken. */
  ghost predicate SmoothRun(s: System, acts: seq<(Role, Act)>)
    decreases |acts|
  {
    acts == [] ||
    (var (side, a) := acts[0];
     && (if side == Client then Smooth(s.client, s.server.log, a) else Smooth(s.server, s.client.log, a))
     && SmoothRun(Next(s, side, a), acts[1..]))
  }

  lemma NextFlows(s: System, side: Role, a: Act)
    requires Flowing(s)
    requires if side == Client then Smooth(s.client, s.server.log, a) else Smooth(s.server, s.client.log, a)
    ensures Flowing(Next(s, side, a))
  {
    hide Link, Conserved, Smooth, Possible, StepEnd;
    NextLinked(s, side, a);
    if side == Client && Possible(s.client, s.server.log, a) {
      ActConserves(s.client, s.server, a);
    } else if side == Server && Possible(s.server, s.client.log, a) {
      ActConserves(s.server, s.client, a);
    }
  }

  lemma {:induction false} PlayFlows(s: System, acts: seq<(Role, Act)>)
    requires Flowing(s) && SmoothRun(s, acts)
    ensures Flowing(Play(s, acts))
    decreases |acts|
  {
    hide Flowing, Smooth, Next;
    if acts != [] {
      NextFlows(s, acts[0].0, acts[0].1);
      PlayFlows(Next(s, acts[0].0, acts[0].1), acts[1..]);
    }
  }

  /** With nothing in flight, conservation leaves every message with the receiver. */
  lemma QuietMeansDelivered(x: Endpoint, y: Endpoint)
    requires Link(x, y) && Conserved(x, y)
    requires AllSeen(y, x.log) && AllSeen(x, y.log)
    ensures y.core.lastOrderedRx == |x.submitted|
  {
    hide PartCount, Chunk, Sendable, IsSmall;
    assert y.core.lastRequestedEnd == |x.submitted|;
    forall id: u64 | 1 <= id <= |x.submitted|
      ensures id in y.core.receivedIds
    {
      var msg := x.submitted[id - 1];
      assert !PullUnseen(y.log, x.seen, id);
      assert Underway(msg, id, x.log, y.core, y.seen);
      if id !in y.core.receivedIds {
        LackingSome(msg, id, x.log, y.core, y.seen, x.submitted);
      }
    }
  }

  /** A message not yet received lacks some piece, which must then be in flight. */
  lemma LackingSome(msg: Bytes, id: u64, log: seq<Msg>, c: Core, seen: set<nat>, submitted: seq<Bytes>)
    requires Matches(c, submitted) && 1 <= id <= |submitted| && msg == submitted[id - 1]
    requires Underway(msg, id, log, c, seen) && id !in c.receivedIds
    ensures exists k :: 0 <= k < |log| && k !in seen
  {
    if !IsSmall(msg) {
      if id in c.fragments {
        var acc := c.fragments[id];
        assert Incomplete(acc) && Assembles(acc, msg);
        SomeMissing(acc);
        var i: u16 :| i < acc.total && i !in acc.chunks;
        assert PartUnseen(log, seen, id, i);
      } else {
        var i: u16 := 0;
        assert i < PartCount(msg);
        assert Holds(c, id, i) || PartUnseen(log, seen, id, i);
      }
    }
  }

  lemma SomeMissing(acc: Accumulator)
    requires Incomplete(acc)
    ensures exists i: u16 :: i < acc.total && i !in acc.chunks
  {
    assert |acc.chunks.Keys| == |acc.chunks|;
    if forall i: u16 :: i < acc.total ==> i in acc.chunks {
      AllBelow(acc.total, acc.chunks.Keys);
    }
  }

  lemma BootFlows(cid: u64, clientCfg: Config, serverCfg: Config)
    ensures Flowing(Boot(cid, clientCfg, serverCfg))
  {
    BootLinked(cid, clientCfg, serverCfg);
  }

  /** On a network that may duplicate and reorder, in a run whose sends and arrivals are
      smooth: when every datagram sent has arrived at least once, each side has delivered
      exactly what the other submitted, all of it, in order. */
  lemma QuietRunDeliversEverything(cid: u64, clientCfg: Config, serverCfg: Config, acts: seq<(Role, Act)>)
    requires SmoothRun(Boot(cid, clientCfg, serverCfg), acts)
    requires Quiet(Play(Boot(cid, clientCfg, serverCfg), acts))
    ensures var s := Play(Boot(cid, clientCfg, serverCfg), acts);
      && s.server.core.lastOrderedRx == |s.client.submitted|
      && s.client.core.lastOrderedRx == |s.server.submitted|
      && ReceivedPrefix(s.server.received, |s.client.submitted|, s.client.submitted)
      && ReceivedPrefix(s.client.received, |s.server.submitted|, s.server.submitted)
  {
    hide Conserved, Play, SmoothRun, Matches, SenderInv;
    var s0 := Boot(cid, clientCfg, serverCfg);
    BootFlows(cid, clientCfg, serverCfg);
    PlayFlows(s0, acts);
    var s := Play(s0, acts);
    QuietMeansDelivered(s.client, s.server);
    QuietMeansDelivered(s.server, s.client);
  }
}
