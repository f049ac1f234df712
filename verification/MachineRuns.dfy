/** One machine driven by any sequence of calls, datagrams of arbitrary bytes included:
    what every reachable state and everything emitted so far satisfy. */
module MachineRuns {
  import opened ByteOrder
  import opened Wrappers
  import opened Protocol
  import opened CoreSpec
  import opened Receiver
  import Wire

  datatype Input =
    | Begin
    | Datagram(now: nat, path: u32, bytes: Bytes)
    | Timer(now: nat, id: TimerId)
    | SendMessage(payload: Bytes)
    | CloseSession
    | ProposeTimers(nowMs: u64, proposal: TimerProposal)
    | PathChanged(newPath: u32)

  /** Message ids are 64-bit; a call that would exhaust them is outside the model. */
  predicate Allowed(c: Core, i: Input) {
    i.SendMessage? ==> c.nextOutboundId < U64_MAX
  }

  function Apply(c: Core, i: Input): (s: Step)
    requires Allowed(c, i)
    ensures Encodable(s)
  {
    match i
    case Begin => BeginHandshake(c)
    case Datagram(now, path, bytes) => OnDatagram(c, now, path, bytes)
    case Timer(now, id) => OnTimer(c, now, id)
    case SendMessage(payload) => OnApiSend(c, payload)
    case CloseSession => OnApiClose(c)
    case ProposeTimers(now, proposal) => OnApiProposeTimers(c, now, proposal)
    case PathChanged(path) => OnPathChanged(c, path)
  }

  /** A machine and everything its calls have returned so far. */
  datatype Trace = Trace(core: Core, out: Out)

  function Advance(t: Trace, i: Input): Trace {
    if !Allowed(t.core, i) then t
    else
      var s := Apply(t.core, i);
      Trace(s.core, if s.out.Ok? then Plus(t.out, s.out.value) else t.out)
  }

  function Run(t: Trace, inputs: seq<Input>): Trace
    decreases |inputs|
  {
    if inputs == [] then t else Run(Advance(t, inputs[0]), inputs[1..])
  }

  function Start(role: Role, cid: u64, cfg: Config): Trace {
    Trace(Init(role, cid, cfg), NOTHING)
  }

  lemma {:induction false} OutputsDoNotMatter(a: Trace, b: Trace, inputs: seq<Input>)
    requires a.core == b.core
    ensures Run(a, inputs).core == Run(b, inputs).core
    decreases |inputs|
  {
    hide Apply;
    if inputs != [] {
      OutputsDoNotMatter(Advance(a, inputs[0]), Advance(b, inputs[0]), inputs[1..]);
    }
  }

  lemma {:induction false} RunConcat(t: Trace, a: seq<Input>, b: seq<Input>)
    ensures Run(t, a + b) == Run(Run(t, a), b)
    decreases |a|
  {
    hide Apply, Advance;
    if a == [] {
      assert a + b == b;
    } else {
      assert (a + b)[1..] == a[1..] + b;
      RunConcat(Advance(t, a[0]), a[1..], b);
    }
  }

  // ----------------------------------------------------------- what calls leave alone

  lemma {:induction false} TlvsChangeOnlyTimers(c: Core, path: u32, tlvs: seq<Wire.Tlv>)
    ensures var d := HandleTlvs(c, path, tlvs).core; d == c.(cfg := d.cfg, pendingLocal := d.pendingLocal)
    decreases |tlvs|
  {
    if tlvs != [] {
      var s := HandleTlv(c, path, tlvs[0]);
      if s.out.Ok? {
        TlvsChangeOnlyTimers(s.core, path, tlvs[1..]);
      }
    }
  }

  /** Fields no incoming MSR or signal touches. */
  ghost predicate SameQueues(a: Core, b: Core) {
    && SameReceiver(a, b) && a.outbound == b.outbound && a.nextOutboundId == b.nextOutboundId
    && a.cid == b.cid && a.role == b.role && a.nextProposalId == b.nextProposalId
  }

  lemma ClientSignalKeeps(c: Core, now: nat, path: u32, source: MsrSource)
    ensures var (d, o) := ClientSignal(c, now, path, source);
      && d == c.(lastServerMsrAtMs := Some(now), clientMsrRx := d.clientMsrRx, state := d.state)
      && d.state == (if c.state == Reactivating then Established else c.state)
  {
  }

  lemma PullNewKeeps(c: Core, path: u32, next: u64)
    ensures var d := PullNew(c, path, next).0;
      d == c.(lastRequestedEnd := d.lastRequestedEnd) && d.lastRequestedEnd >= c.lastRequestedEnd
  {
  }

  lemma SignalKeeps(c: Core, now: nat, path: u32, next: u64, source: MsrSource)
    ensures var d := HandleMsrSignal(c, now, path, next, source).core;
      && SameQueues(c, d) && d.cfg == c.cfg && d.pendingLocal == c.pendingLocal
      && d.disconnectDeadlineMs == c.disconnectDeadlineMs && d.pathId == c.pathId
      && (d.state == c.state || (c.state == Reactivating && d.state == Established))
      && d.lastRequestedEnd >= c.lastRequestedEnd
  {
    hide ClientSignal, PullNew;
    ClientSignalKeeps(c, now, path, source);
    var a := if c.role == Client then ClientSignal(c, now, path, source) else (c.(serverMsrRun := 0), NOTHING);
    PullNewKeeps(a.0, path, next);
  }

  lemma PiggybackKeeps(c: Core, now: nat, path: u32, f: Wire.WireFrame)
    ensures var d := Piggyback(c, now, path, f).core;
      && SameQueues(c, d) && d.cfg == c.cfg && d.pendingLocal == c.pendingLocal
      && (d.state == c.state || (c.state == Reactivating && d.state == Established))
  {
    var signal := if f.messageType == Wire.Msr then None else FindSignalTlv(f.tlvs);
    if signal.Some? {
      SignalKeeps(c, now, path, signal.value.1, PiggybackTlv);
    }
  }

  lemma MsrKeeps(c: Core, now: nat, path: u32, f: Wire.WireFrame)
    ensures var d := HandleMsr(c, now, path, f).core;
      && SameQueues(c, d)
      && (d.state == c.state || (c.state == Reactivating && d.state == Established))
  {
    var pair := DecodePair(f.payload);
    if pair.Some? {
      TlvsChangeOnlyTimers(c, path, f.tlvs);
      var s := HandleTlvs(c, path, f.tlvs);
      SignalKeeps(s.core, now, path, pair.value.1, ControlMsrFrame);
    }
  }

  /** The part of a call before piggybacked signals changes the receiving half only by a
      data or fragment payload, and the queues, timers and requests not at all unless the
      frame is an MSR. */
  lemma DispatchKeeps(c: Core, now: nat, path: u32, f: Wire.WireFrame)
    requires ReceiverInv(c)
    ensures var d := Dispatch(c, now, path, f).core;
      && ReceiverInv(d)
      && d.outbound == c.outbound && d.nextOutboundId == c.nextOutboundId
      && d.cid == c.cid && d.role == c.role && d.nextProposalId == c.nextProposalId
      && (f.messageType != Wire.Msr ==>
            d.cfg == c.cfg && d.pendingLocal == c.pendingLocal && d.lastRequestedEnd == c.lastRequestedEnd)
  {
    hide HandleMsr, HandleData, HandleFragment, HandleRequestRange;
    match f.messageType
    case Msr => MsrKeeps(c, now, path, f);
    case Data =>
      if c.state == Established {
        HandleDataKeeps(c, f.payload);
        HandleDataChanges(c, f.payload);
      }
    case Fragment =>
      if c.state == Established {
        HandleFragmentChanges(c, f.payload);
      }
    case RequestRange => RangeKeeps(c, path, f.payload);
    case _ =>
  }

  lemma RangeKeeps(c: Core, path: u32, payload: Bytes)
    ensures HandleRequestRange(c, path, payload).core == c
  {
  }

  /** Only the receiving half differs. */
  ghost predicate OnlyReceiver(c: Core, d: Core) {
    d == c.(receivedIds := d.receivedIds, buffer := d.buffer, fragments := d.fragments,
            lastOrderedRx := d.lastOrderedRx)
  }

  /** The messages handed over continue the ids delivered so far. */
  ghost predicate Continues(c: Core, d: Core, ms: seq<(u64, Bytes)>) {
    Consecutive(ms, c.lastOrderedRx + 1) && |ms| == d.lastOrderedRx - c.lastOrderedRx
  }

  lemma AcceptChanges(c: Core, id: u64, payload: Bytes)
    requires Partitioned(c) && id !in c.receivedIds
    ensures var s := Accept(c, id, payload);
      && OnlyReceiver(c, s.core) && Continues(c, s.core, Received(s.out.value.events))
  {
    var d := c.(receivedIds := c.receivedIds + {id}, buffer := c.buffer[id := payload],
                fragments := c.fragments - {id});
    assert Partitioned(d);
    FlushKeeps(d);
  }

  lemma HandleDataChanges(c: Core, payload: Bytes)
    requires ReceiverInv(c)
    ensures var s := HandleData(c, payload);
      && OnlyReceiver(c, s.core)
      && (s.out.Err? ==> s.core == c)
      && (s.out.Ok? ==> Continues(c, s.core, Received(s.out.value.events)))
  {
    if |payload| >= 8 && U64Value(payload[..8]) !in c.receivedIds {
      AcceptChanges(c, U64Value(payload[..8]), payload[8..]);
    }
  }

  lemma AddFragmentChanges(c: Core, id: u64, index: u16, total: u16, chunk: Bytes)
    requires ReceiverInv(c)
    ensures var s := AddFragment(c, id, index, total, chunk);
      && OnlyReceiver(c, s.core)
      && (s.out.Err? ==> s.core.lastOrderedRx == c.lastOrderedRx)
      && (s.out.Ok? ==> Continues(c, s.core, Received(s.out.value.events)))
  {
    hide FlushOrdered, AddChunk, Merge;
    if id !in c.receivedIds && index < total {
      var acc := AddChunk(c, id, index, total, chunk);
      var held := c.(fragments := c.fragments[id := acc]);
      if acc.total == total && |acc.chunks| == acc.total && Merge(acc.chunks, acc.total).Some? {
        var payload := Merge(acc.chunks, acc.total).value;
        var d := held.(receivedIds := c.receivedIds + {id}, buffer := c.buffer[id := payload],
                       fragments := held.fragments - {id});
        assert Partitioned(d);
        FlushKeeps(d);
      }
    }
  }

  lemma HandleFragmentChanges(c: Core, payload: Bytes)
    requires ReceiverInv(c)
    ensures var s := HandleFragment(c, payload);
      && ReceiverInv(s.core) && OnlyReceiver(c, s.core)
      && (s.out.Err? ==> s.core.lastOrderedRx == c.lastOrderedRx)
      && (s.out.Ok? ==> Continues(c, s.core, Received(s.out.value.events)))
  {
    if |payload| >= FRAGMENT_HEADER_LEN {
      var id, index, total := U64Value(payload[..8]), U16Value(payload[8..10]), U16Value(payload[10..12]);
      AddFragmentKeeps(c, id, index, total, payload[FRAGMENT_HEADER_LEN..]);
      AddFragmentChanges(c, id, index, total, payload[FRAGMENT_HEADER_LEN..]);
    }
  }

  /** Delivering from the buffer touches the buffer and the position only. */
  lemma {:induction false} FlushFrame(c: Core)
    ensures var d := FlushOrdered(c).0; d == c.(buffer := d.buffer, lastOrderedRx := d.lastOrderedRx)
    decreases |c.buffer|
  {
    FlushUnfolds(c);
    if c.lastOrderedRx + 1 in c.buffer {
      var next: u64 := c.lastOrderedRx + 1;
      var d := c.(buffer := c.buffer - {next}, lastOrderedRx := next);
      assert |d.buffer| < |c.buffer| by {
        assert c.buffer.Keys == d.buffer.Keys + {next};
      }
      FlushFrame(d);
    }
  }

  lemma AcceptFrame(c: Core, id: u64, payload: Bytes)
    ensures OnlyReceiver(c, Accept(c, id, payload).core)
  {
    hide FlushOrdered;
    FlushFrame(c.(receivedIds := c.receivedIds + {id}, buffer := c.buffer[id := payload],
                  fragments := c.fragments - {id}));
  }

  lemma FragmentFrame(c: Core, id: u64, index: u16, total: u16, chunk: Bytes)
    ensures OnlyReceiver(c, AddFragment(c, id, index, total, chunk).core)
  {
    hide Accept, AddChunk, Merge;
    var acc := AddChunk(c, id, index, total, chunk);
    var merged := Merge(acc.chunks, acc.total);
    if merged.Some? {
      AcceptFrame(c.(fragments := c.fragments[id := acc]), id, merged.value);
    }
  }
}
