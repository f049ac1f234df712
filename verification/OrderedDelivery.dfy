/** End-to-end ordered delivery: whatever the network drops, duplicates or reorders, each
    application receives a prefix of what the other submitted. */
module OrderedDelivery {
  import opened ByteOrder
  import opened Wrappers
  import opened Protocol
  import opened CoreSpec
  import opened Receiver
  import opened MachineRuns
  import opened MachineSafety
  import opened Delivery
  import opened Network

  // ---------------------------------------------------------------- what is true of a log

  /** The message carries the submitted payload it names, whole or in part, and advertises
      no more than was submitted. */
  ghost predicate Honest(submitted: seq<Bytes>, m: Msg) {
    && WellFormed(m)
    && (CarriesSignal(m) ==> m.nextPending <= |submitted|)
    && (m.Whole? ==> 1 <= m.msgId <= |submitted| && m.payload == submitted[m.msgId - 1] && IsSmall(m.payload))
    && (m.Part? ==>
          && 1 <= m.msgId <= |submitted|
          && IsPart(submitted[m.msgId - 1], m.index, m.total, m.chunk))
  }

  ghost predicate IsPart(msg: Bytes, index: u16, total: u16, chunk: Bytes) {
    !IsSmall(msg) && PartCount(msg) == total && index < total && chunk == Chunk(msg, index)
  }

  ghost predicate HonestLog(submitted: seq<Bytes>, log: seq<Msg>) {
    forall i :: 0 <= i < |log| ==> Honest(submitted, log[i])
  }

  /** The queue holds exactly the submitted payloads, by id. */
  ghost predicate QueueIs(c: Core, submitted: seq<Bytes>) {
    && c.nextOutboundId == |submitted| + 1
    && (forall id: u64 :: id in c.outbound <==> 1 <= id <= |submitted|)
    && (forall id :: id in c.outbound ==> c.outbound[id] == submitted[id - 1])
  }

  /** What is buffered or partly assembled is what the peer submitted. */
  ghost predicate Matches(c: Core, submitted: seq<Bytes>) {
    && ReceiverInv(c)
    && c.lastOrderedRx <= |submitted|
    && (forall id :: id in c.buffer ==> 1 <= id <= |submitted| && c.buffer[id] == submitted[id - 1])
    && (forall id :: id in c.fragments ==> 1 <= id <= |submitted| && Assembles(c.fragments[id], submitted[id - 1]))
  }

  ghost predicate Assembles(acc: Accumulator, msg: Bytes) {
    && !IsSmall(msg) && PartCount(msg) == acc.total
    && forall i :: i in acc.chunks ==> i < acc.total && acc.chunks[i] == Chunk(msg, i)
  }

  ghost predicate ReceivedPrefix(received: seq<(u64, Bytes)>, n: nat, submitted: seq<Bytes>) {
    && |received| == n <= |submitted|
    && forall i :: 0 <= i < n ==> received[i] == (i + 1, submitted[i])
  }

  // ------------------------------------------------------------------------ the sender

  lemma MaxPendingOf(c: Core, submitted: seq<Bytes>)
    requires QueueIs(c, submitted)
    ensures MaxPending(c) == |submitted|
  {
    MaxPendingIsLastId(c);
  }

  ghost predicate SendsHonest(submitted: seq<Bytes>, s: Step) {
    s.out.Ok? ==> forall i :: 0 <= i < |s.out.value.sends| ==> Honest(submitted, s.out.value.sends[i].msg)
  }

  lemma CarriersHonest(submitted: seq<Bytes>, id: u64, acked: u64, next: u64)
    requires 1 <= id <= |submitted| && Sendable(submitted[id - 1]) && next <= |submitted|
    ensures HonestLog(submitted, Carriers(id, submitted[id - 1], acked, next))
  {
  }

  lemma {:induction false} RepliesHonest(c: Core, submitted: seq<Bytes>, start: nat, end: u64)
    requires QueueIs(c, submitted)
    ensures RangeReplies(c, start, end).Ok? ==> HonestLog(submitted, RangeReplies(c, start, end).value)
    decreases end + 1 - start
  {
    if start <= end {
      RepliesHonest(c, submitted, start + 1, end);
      MaxPendingOf(c, submitted);
      if start in c.outbound && Sendable(c.outbound[start]) {
        CarriersHonest(submitted, start, c.lastOrderedRx, MaxPending(c));
      }
    }
  }

  lemma SignalHonest(c: Core, submitted: seq<Bytes>, now: nat, path: u32, m: Msg)
    requires QueueIs(c, submitted)
    ensures SendsHonest(submitted, Signal(c, now, path, m)) && SameQueues(c, Signal(c, now, path, m).core)
  {
    MaxPendingOf(c, submitted);
    if CarriesSignal(m) {
      SignalKeeps(c, now, path, m.nextPending, if m.Status? then ControlMsrFrame else PiggybackTlv);
      SignalSends(c, now, path, m.nextPending, if m.Status? then ControlMsrFrame else PiggybackTlv);
    }
  }

  /** A signal is answered by at most a keepalive and one request. */
  lemma SignalSends(c: Core, now: nat, path: u32, next: u64, source: MsrSource)
    ensures var sends := HandleMsrSignal(c, now, path, next, source).out.value.sends;
      forall i :: 0 <= i < |sends| ==>
        && (sends[i].msg.Status? || sends[i].msg.Pull?)
        && sends[i].msg.nextPending == MaxPending(c)
  {
  }

  lemma HandleHonest(c: Core, submitted: seq<Bytes>, now: nat, path: u32, m: Msg)
    requires QueueIs(c, submitted) && ReceiverInv(c)
    ensures SendsHonest(submitted, Handle(c, now, path, m))
    ensures var d := Handle(c, now, path, m).core; d.outbound == c.outbound && d.nextOutboundId == c.nextOutboundId
  {
    hide RangeReplies, AddFragment, Accept, Chunk, PartCount;
    MaxPendingOf(c, submitted);
    match m
    case Pull(start, end, _, _) => RepliesHonest(c, submitted, start, end);
    case Whole(id, payload, _, _) =>
      if c.state == Established && id !in c.receivedIds {
        AcceptChanges(c, id, payload);
      }
    case Part(id, index, total, chunk, _, _) =>
      if c.state == Established {
        AddFragmentChanges(c, id, index, total, chunk);
        AddFragmentSilent(c, id, index, total, chunk);
      }
    case _ =>
  }

  lemma AddFragmentSilent(c: Core, id: u64, index: u16, total: u16, chunk: Bytes)
    ensures AddFragment(c, id, index, total, chunk).out.Ok? ==>
      AddFragment(c, id, index, total, chunk).out.value.sends == []
  {
  }

  lemma OnMsgHonest(c: Core, submitted: seq<Bytes>, now: nat, path: u32, m: Msg)
    requires QueueIs(c, submitted) && ReceiverInv(c)
    ensures SendsHonest(submitted, OnMsg(c, now, path, m)) && QueueIs(OnMsg(c, now, path, m).core, submitted)
  {
    hide Handle, Signal, Honest;
    HandleHonest(c, submitted, now, path, m);
    SignalHonest(Handle(c, now, path, m).core, submitted, now, path, m);
  }

  lemma LocalHonest(c: Core, submitted: seq<Bytes>, input: Input)
    requires QueueIs(c, submitted) && Allowed(c, input) && !input.Datagram?
    ensures var after := if input.SendMessage? then submitted + [input.payload] else submitted;
      SendsHonest(after, Apply(c, input)) && QueueIs(Apply(c, input).core, after)
  {
    hide OnApiSend, ValidateTimerProposal;
    MaxPendingOf(c, submitted);
    match input
    case SendMessage(payload) => SendHonest(c, submitted, payload);
    case _ =>
  }

  lemma SendHonest(c: Core, submitted: seq<Bytes>, payload: Bytes)
    requires QueueIs(c, submitted) && c.nextOutboundId < U64_MAX
    ensures var s := OnApiSend(c, payload);
      SendsHonest(submitted + [payload], s) && QueueIs(s.core, submitted + [payload])
  {
    var q := Enqueue(c, payload);
    assert QueueIs(q, submitted + [payload]);
    MaxPendingOf(q, submitted + [payload]);
  }

  // ---------------------------------------------------------------------- the receiver

  /** The first `n` parts of a message, joined. */
  function Front(msg: Bytes, n: nat): Bytes {
    if n * CHUNK_SIZE <= |msg| then msg[..n * CHUNK_SIZE] else msg
  }

  lemma FrontGrows(msg: Bytes, k: nat)
    requires k < PartCount(msg)
    ensures Front(msg, k) + Chunk(msg, k) == Front(msg, k + 1)
  {
    assert k * CHUNK_SIZE <= |msg|;
    assert (k + 1) * CHUNK_SIZE == k * CHUNK_SIZE + CHUNK_SIZE;
  }

  lemma {:induction false} MergeOfParts(chunks: map<u16, Bytes>, msg: Bytes, n: u16)
    requires n <= PartCount(msg)
    requires forall i: u16 :: i < n ==> i in chunks && chunks[i] == Chunk(msg, i)
    ensures Merge(chunks, n) == Some(Front(msg, n))
  {
    hide Chunk, PartCount, Front;
    if n > 0 {
      var k: u16 := n - 1;
      MergeOfParts(chunks, msg, k);
      FrontGrows(msg, k);
    } else {
      NoFront(msg);
    }
  }

  lemma NoFront(msg: Bytes)
    ensures Front(msg, 0) == []
  {
  }

  /** The parts of a message, joined, are the message. */
  lemma MergeIsMessage(acc: Accumulator, msg: Bytes)
    requires Assembles(acc, msg) && |acc.chunks| == acc.total
    ensures Merge(acc.chunks, acc.total) == Some(msg)
  {
    hide Merge, Chunk, IsSmall;
    assert |acc.chunks.Keys| == |acc.chunks|;
    Pigeonhole(acc.chunks.Keys, acc.total);
    MergeOfParts(acc.chunks, msg, acc.total);
    PartsCover(msg);
    assert msg[..|msg|] == msg;
  }

  lemma PartsCover(msg: Bytes)
    ensures PartCount(msg) * CHUNK_SIZE >= |msg|
  {
  }

  /** The messages a step hands over extend the `n` received so far. */
  ghost predicate Extends(n: nat, s: Step, submitted: seq<Bytes>) {
    && n <= s.core.lastOrderedRx
    && (s.out.Err? ==> s.core.lastOrderedRx == n)
    && (s.out.Ok? ==> ContinuesPrefix(n, s.core.lastOrderedRx, Received(s.out.value.events), submitted))
  }

  ghost predicate ContinuesPrefix(n: nat, m: nat, ms: seq<(u64, Bytes)>, submitted: seq<Bytes>) {
    && |ms| == m - n && m <= |submitted|
    && forall i :: 0 <= i < |ms| ==> ms[i] == (n + i + 1, submitted[n + i])
  }

  lemma AcceptMatches(c: Core, submitted: seq<Bytes>, id: u64)
    requires Partitioned(c) && id !in c.receivedIds && c.lastOrderedRx <= |submitted|
    requires forall k :: k in c.buffer ==> 1 <= k <= |submitted| && c.buffer[k] == submitted[k - 1]
    requires forall k :: k in c.fragments && k != id ==>
      1 <= k <= |submitted| && Incomplete(c.fragments[k]) && Assembles(c.fragments[k], submitted[k - 1])
    requires 1 <= id <= |submitted|
    ensures var s := Accept(c, id, submitted[id - 1]);
      Matches(s.core, submitted) && Extends(c.lastOrderedRx, s, submitted)
  {
    hide FlushOrdered, Received, Assembles;
    var payload := submitted[id - 1];
    var d := c.(receivedIds := c.receivedIds + {id}, buffer := c.buffer[id := payload],
                fragments := c.fragments - {id});
    assert Partitioned(d);
    FlushKeeps(d);
    AcceptKeeps(c, id, payload);
    var f := FlushOrdered(d).0;
    if f.lastOrderedRx > d.lastOrderedRx {
      var ms := Received(FlushOrdered(d).1);
      assert ms[|ms| - 1].0 in d.buffer;
    }
  }

  lemma WholeMatches(c: Core, submitted: seq<Bytes>, id: u64)
    requires Matches(c, submitted) && id !in c.receivedIds && 1 <= id <= |submitted|
    ensures var s := Accept(c, id, submitted[id - 1]);
      Matches(s.core, submitted) && Extends(c.lastOrderedRx, s, submitted)
  {
    hide Accept, Extends, Assembles;
    AcceptMatches(c, submitted, id);
  }

  lemma AddChunkAssembles(c: Core, submitted: seq<Bytes>, id: u64, index: u16, total: u16, chunk: Bytes)
    requires Matches(c, submitted) && 1 <= id <= |submitted| && IsPart(submitted[id - 1], index, total, chunk)
    ensures Assembles(AddChunk(c, id, index, total, chunk), submitted[id - 1])
    ensures AddChunk(c, id, index, total, chunk).total == total
  {
    hide Chunk, PartCount, IsSmall, ReceiverInv;
  }

  /** Holding one more chunk of a submitted message. */
  lemma HoldMatches(c: Core, submitted: seq<Bytes>, id: u64, acc: Accumulator)
    requires Matches(c, submitted) && id !in c.receivedIds && 1 <= id <= |submitted|
    requires Assembles(acc, submitted[id - 1]) && Incomplete(acc)
    ensures Matches(c.(fragments := c.fragments[id := acc]), submitted)
  {
    hide Assembles, Incomplete;
  }

  /** Completing a submitted message. */
  lemma CompleteMatches(c: Core, submitted: seq<Bytes>, id: u64, acc: Accumulator)
    requires Matches(c, submitted) && id !in c.receivedIds && 1 <= id <= |submitted|
    ensures var s := Accept(c.(fragments := c.fragments[id := acc]), id, submitted[id - 1]);
      Matches(s.core, submitted) && Extends(c.lastOrderedRx, s, submitted)
  {
    hide Assembles, Incomplete, Accept, Extends;
    AcceptMatches(c.(fragments := c.fragments[id := acc]), submitted, id);
  }

  lemma PartMatches(c: Core, submitted: seq<Bytes>, id: u64, index: u16, total: u16, chunk: Bytes)
    requires Matches(c, submitted) && 1 <= id <= |submitted| && IsPart(submitted[id - 1], index, total, chunk)
    ensures var s := AddFragment(c, id, index, total, chunk);
      s.out.Ok? && Matches(s.core, submitted) && Extends(c.lastOrderedRx, s, submitted)
  {
    hide Accept, Matches, Extends, Merge, Chunk, PartCount, IsSmall, Received, AddChunk;
    if id in c.receivedIds {
      StandsStill(c, submitted);
    } else {
      var acc := AddChunk(c, id, index, total, chunk);
      MatchesGivesReceiver(c, submitted);
      AddChunkBounds(c, id, index, total, chunk);
      AddChunkAssembles(c, submitted, id, index, total, chunk);
      var held := c.(fragments := c.fragments[id := acc]);
      if |acc.chunks| == acc.total {
        MergeIsMessage(acc, submitted[id - 1]);
        CompleteMatches(c, submitted, id, acc);
      } else {
        HoldMatches(c, submitted, id, acc);
        StandsStill(held, submitted);
      }
    }
  }

  lemma MatchesGivesReceiver(c: Core, submitted: seq<Bytes>)
    requires Matches(c, submitted)
    ensures ReceiverInv(c)
  {
  }

  lemma StandsStill(c: Core, submitted: seq<Bytes>)
    requires Matches(c, submitted)
    ensures Extends(c.lastOrderedRx, Step(c, Ok(NOTHING)), submitted)
  {
  }

  lemma HandleMatches(c: Core, submitted: seq<Bytes>, now: nat, path: u32, m: Msg)
    requires Matches(c, submitted) && Honest(submitted, m)
    ensures var s := Handle(c, now, path, m); Matches(s.core, submitted) && Extends(c.lastOrderedRx, s, submitted)
  {
    hide AddFragment, Accept, Matches, RangeReplies, PartCount, Chunk, Received;
    var s := Handle(c, now, path, m);
    if m.Whole? && c.state == Established && m.msgId !in c.receivedIds {
      WholeMatches(c, submitted, m.msgId);
    } else if m.Part? && c.state == Established {
      PartMatches(c, submitted, m.msgId, m.index, m.total, m.chunk);
    } else {
      HandsNothing(c, now, path, m);
      MatchesTransfers(c, s.core, submitted);
    }
  }

  lemma HandsNothing(c: Core, now: nat, path: u32, m: Msg)
    requires (m.Whole? || m.Part?) ==> c.state != Established || (m.Whole? && m.msgId in c.receivedIds)
    ensures var s := Handle(c, now, path, m);
      SameReceiver(c, s.core) && (s.out.Ok? ==> Received(s.out.value.events) == [])
  {
    hide RangeReplies;
    var s := Handle(c, now, path, m);
    if s.out.Ok? {
      ReceivedNone(s.out.value.events);
    }
  }

  lemma MatchesTransfers(c: Core, d: Core, submitted: seq<Bytes>)
    requires Matches(c, submitted) && SameReceiver(c, d)
    ensures Matches(d, submitted)
  {
  }

  lemma OnMsgMatches(c: Core, submitted: seq<Bytes>, now: nat, path: u32, m: Msg)
    requires Matches(c, submitted) && Honest(submitted, m)
    ensures var s := OnMsg(c, now, path, m); Matches(s.core, submitted) && Extends(c.lastOrderedRx, s, submitted)
  {
    hide Handle, HandleMsrSignal, Matches, Honest, Received;
    HandleMatches(c, submitted, now, path, m);
    var a := Handle(c, now, path, m);
    if a.out.Ok? {
      var b := Signal(a.core, now, path, m);
      if CarriesSignal(m) {
        var source := if m.Status? then ControlMsrFrame else PiggybackTlv;
        SignalKeeps(a.core, now, path, m.nextPending, source);
        SignalSteps(a.core, now, path, m.nextPending, source);
      } else {
        ReceivedNone(b.out.value.events);
      }
      assert Received(b.out.value.events) == [];
      ReceivedConcat(a.out.value.events, b.out.value.events);
      MatchesTransfers(a.core, b.core, submitted);
    }
  }

  /** Calls of the application and timers hand over nothing and leave the receiving half alone. */
  lemma LocalReceivesNothing(c: Core, input: Input)
    requires Allowed(c, input) && !input.Datagram?
    ensures var s := Apply(c, input);
      SameReceiver(c, s.core) && (s.out.Ok? ==> Received(s.out.value.events) == [])
  {
    hide Received, ValidateTimerProposal;
    var s := Apply(c, input);
    if s.out.Ok? {
      assert |s.out.value.events| <= 1;
      ReceivedNone(s.out.value.events);
    }
  }

  // ----------------------------------------------------------------------- whole runs

  ghost predicate SenderInv(x: Endpoint) {
    QueueIs(x.core, x.submitted) && HonestLog(x.submitted, x.log)
  }

  ghost predicate ReceiverOf(y: Endpoint, submitted: seq<Bytes>) {
    Matches(y.core, submitted) && ReceivedPrefix(y.received, y.core.lastOrderedRx, submitted)
  }

  /** One direction of the connection: what `x` submitted and sent, what `y` made of it. */
  ghost predicate Link(x: Endpoint, y: Endpoint) {
    SenderInv(x) && ReceiverOf(y, x.submitted)
  }

  lemma ArriveKeepsQueues(c: Core, now: nat, path: u32)
    ensures SameQueues(c, Arrive(c, now, path)) && Arrive(c, now, path).state == c.state
  {
  }

  lemma HonestLogGrows(submitted: seq<Bytes>, more: seq<Bytes>, log: seq<Msg>)
    requires HonestLog(submitted, log)
    ensures HonestLog(submitted + more, log)
  {
    forall i | 0 <= i < |log|
      ensures Honest(submitted + more, log[i])
    {
      assert Honest(submitted, log[i]);
    }
  }

  lemma MatchesGrows(c: Core, submitted: seq<Bytes>, more: seq<Bytes>)
    requires Matches(c, submitted)
    ensures Matches(c, submitted + more)
  {
  }

  lemma AbsorbHonest(e: Endpoint, s: Step, submitted: seq<Bytes>)
    requires HonestLog(submitted, e.log) && SendsHonest(submitted, s)
    ensures HonestLog(submitted, Absorb(e, s).log)
  {
  }

  lemma SenderActs(x: Endpoint, peerLog: seq<Msg>, a: Act)
    requires SenderInv(x) && ReceiverInv(x.core) && Possible(x, peerLog, a)
    ensures SenderInv(StepEnd(x, peerLog, a))
  {
    hide OnMsg, Apply, OnDatagram, Honest, ReceiverInv;
    match a
    case Deliver(i, now, path) =>
      DeliveryIsOnMsg(x, peerLog, i, now, path);
      var c := Arrive(x.core, now, path);
      ArriveKeepsQueues(x.core, now, path);
      ReceiverInvTransfers(x.core, c);
      OnMsgHonest(c, x.submitted, now, path, peerLog[i]);
      AbsorbHonest(x, OnMsg(c, now, path, peerLog[i]), x.submitted);
    case Local(input) =>
      LocalHonest(x.core, x.submitted, input);
      var after := if input.SendMessage? then x.submitted + [input.payload] else x.submitted;
      if input.SendMessage? {
        HonestLogGrows(x.submitted, [input.payload], x.log);
      }
      AbsorbHonest(x, Apply(x.core, input), after);
  }

  lemma AbsorbReceives(y: Endpoint, s: Step, submitted: seq<Bytes>)
    requires ReceivedPrefix(y.received, y.core.lastOrderedRx, submitted)
    requires Extends(y.core.lastOrderedRx, s, submitted) && Matches(s.core, submitted)
    ensures ReceiverOf(Absorb(y, s), submitted)
  {
  }

  lemma ReceiverActs(x: Endpoint, y: Endpoint, a: Act)
    requires Link(x, y) && Possible(y, x.log, a)
    ensures ReceiverOf(StepEnd(y, x.log, a), x.submitted)
  {
    hide OnMsg, Apply, OnDatagram, Honest, Matches, Received, Extends;
    match a
    case Deliver(i, now, path) =>
      DeliveryIsOnMsg(y, x.log, i, now, path);
      var c := Arrive(y.core, now, path);
      ArriveKeepsQueues(y.core, now, path);
      MatchesTransfers(y.core, c, x.submitted);
      OnMsgMatches(c, x.submitted, now, path, x.log[i]);
      AbsorbReceives(y, OnMsg(c, now, path, x.log[i]), x.submitted);
    case Local(input) =>
      LocalReceivesNothing(y.core, input);
      var s := Apply(y.core, input);
      MatchesTransfers(y.core, s.core, x.submitted);
      if s.out.Ok? {
        assert y.received + [] == y.received;
      }
  }

  lemma SubmittedGrows(x: Endpoint, peerLog: seq<Msg>, a: Act)
    requires Possible(x, peerLog, a)
    ensures StepEnd(x, peerLog, a).submitted == x.submitted
      || exists p :: StepEnd(x, peerLog, a).submitted == x.submitted + [p]
  {
  }

  lemma LinkSurvivesSender(x: Endpoint, y: Endpoint, a: Act)
    requires Link(x, y) && ReceiverInv(x.core) && Possible(x, y.log, a)
    ensures Link(StepEnd(x, y.log, a), y)
  {
    hide StepEnd, QueueIs, HonestLog, Matches;
    SenderActs(x, y.log, a);
    SubmittedGrows(x, y.log, a);
    var z := StepEnd(x, y.log, a);
    if z.submitted != x.submitted {
      var p :| z.submitted == x.submitted + [p];
      MatchesGrows(y.core, x.submitted, [p]);
    }
  }

  lemma LinkSurvivesReceiver(x: Endpoint, y: Endpoint, a: Act)
    requires Link(x, y) && Possible(y, x.log, a)
    ensures Link(x, StepEnd(y, x.log, a))
  {
    ReceiverActs(x, y, a);
  }

  ghost predicate Linked(s: System) {
    Link(s.client, s.server) && Link(s.server, s.client)
  }

  lemma LinkGivesReceiver(x: Endpoint, y: Endpoint)
    requires Link(x, y)
    ensures ReceiverInv(y.core)
  {
  }

  lemma NextLinked(s: System, side: Role, a: Act)
    requires Linked(s)
    ensures Linked(Next(s, side, a))
  {
    hide Link, StepEnd, Possible, ReceiverInv;
    LinkGivesReceiver(s.client, s.server);
    LinkGivesReceiver(s.server, s.client);
    if side == Client && Possible(s.client, s.server.log, a) {
      LinkSurvivesSender(s.client, s.server, a);
      LinkSurvivesReceiver(s.server, s.client, a);
    } else if side == Server && Possible(s.server, s.client.log, a) {
      LinkSurvivesSender(s.server, s.client, a);
      LinkSurvivesReceiver(s.client, s.server, a);
    }
  }

  lemma {:induction false} PlayLinked(s: System, acts: seq<(Role, Act)>)
    requires Linked(s)
    ensures Linked(Play(s, acts))
    decreases |acts|
  {
    if acts != [] {
      NextLinked(s, acts[0].0, acts[0].1);
      PlayLinked(Next(s, acts[0].0, acts[0].1), acts[1..]);
    }
  }

  lemma BootLinked(cid: u64, clientCfg: Config, serverCfg: Config)
    ensures Linked(Boot(cid, clientCfg, serverCfg))
  {
  }

  /** Over every run of the two machines on a network that drops, duplicates and reorders at
      will, what each application receives is message 1, 2, 3, ... with exactly the payloads
      the other submitted, in order, as far as it goes. */
  lemma DeliveredIsPrefixOfSubmitted(cid: u64, clientCfg: Config, serverCfg: Config, acts: seq<(Role, Act)>)
    ensures var s := Play(Boot(cid, clientCfg, serverCfg), acts);
      && ReceivedPrefix(s.server.received, s.server.core.lastOrderedRx, s.client.submitted)
      && ReceivedPrefix(s.client.received, s.client.core.lastOrderedRx, s.server.submitted)
  {
    BootLinked(cid, clientCfg, serverCfg);
    PlayLinked(Boot(cid, clientCfg, serverCfg), acts);
  }
}
