/** The state machine of v3-core in its own form: an object whose handlers update its fields
    in place and return what they emit. Every method is proved to compute the function of
    the same name in `CoreSpec`, bytes included, on success and on failure alike. */
module CoreMachine {
  import opened ByteOrder
  import opened Wrappers
  import opened Protocol
  import Spec = CoreSpec
  import Wire

  const SILENT: CoreOutput := CoreOutput([], [], [])

  function Join(a: CoreOutput, b: CoreOutput): CoreOutput {
    CoreOutput(a.datagrams + b.datagrams, a.events + b.events, a.timers + b.timers)
  }

  /** The datagrams are the bytes of the messages, in order. */
  ghost predicate Renders(cid: u64, sends: seq<Spec.Send>, ds: seq<OutboundDatagram>) {
    && |ds| == |sends|
    && forall i :: 0 <= i < |sends| ==>
         WellFormed(sends[i].msg) && ds[i] == OutboundDatagram(sends[i].pathId, Render(cid, sends[i].msg))
  }

  ghost predicate Produces(cid: u64, o: Spec.Out, out: CoreOutput) {
    Renders(cid, o.sends, out.datagrams) && out.events == o.events && out.timers == o.timers
  }

  /** The caller gets exactly what the step specifies: the same error, or the same output. */
  ghost predicate Returns(cid: u64, s: Spec.Step, r: Result<CoreOutput, CoreError>) {
    if s.out.Err? then r == Err(s.out.error) else r.Ok? && Produces(cid, s.out.value, r.value)
  }

  /** A message's frame encoded, an encoder's refusal turned into the machine's error. */
  function Encoded(cid: u64, m: Msg): Result<Bytes, CoreError> {
    match Wire.Encode(ToFrame(cid, m))
    case Ok(bytes) => Ok(bytes)
    case Err(e) => Err(WireFailure(e))
  }

  /** The two frame encoders, on any message: the bytes, or the encoder's error. They succeed
      on every message whose payload, if any, fits a frame, and refuse one whose payload is
      longer than the encoder admits. */
  method EncodeMsg(cid: u64, m: Msg) returns (r: Result<Bytes, CoreError>)
    ensures r == Encoded(cid, m)
    ensures WellFormed(m) ==> r == Ok(Render(cid, m))
    ensures |Body(m)| > Wire.MAX_PAYLOAD_LEN ==> r == Err(WireFailure(Wire.PayloadTooLarge(|Body(m)|)))
  {
    var encoded := Wire.EncodeFrame(ToFrame(cid, m));
    if encoded.Err? {
      return Err(WireFailure(encoded.error));
    }
    return Ok(encoded.value);
  }

  /** Encode a message a handler sends. Its error path cannot be taken, so no handler has one. */
  method EncodeOwn(cid: u64, m: Msg) returns (bytes: Bytes)
    requires WellFormed(m)
    ensures Encoded(cid, m) == Ok(bytes) && bytes == Render(cid, m)
  {
    hide Render, Encoded;
    var r := EncodeMsg(cid, m);
    if r.Err? {
      assert false;
    }
    return r.value;
  }

  class CoreMachine {
    const role: Role
    const cid: u64
    var state: LifecycleState
    var cfg: Config
    var currentPathId: u32
    var nextOutboundId: u64
    var outboundMessages: map<u64, Bytes>
    var receivedIds: set<u64>
    var receivedBuffer: map<u64, Bytes>
    var receivedFragments: map<u64, Spec.Accumulator>
    var lastOrderedRx: u64
    var lastRequestedEnd: u64
    var lastServerMsrAtMs: Option<nat>
    var disconnectDeadlineMs: Option<nat>
    var clientServerMsrRxSinceLastKeepalive: u32
    var serverConsecutiveMsrWithoutClientMsr: u32
    var nextProposalId: u32
    var pendingLocalProposal: Option<Spec.Pending>

    ghost function View(): Spec.Core
      reads this
    {
      Spec.Core(role, cid, state, cfg, currentPathId, nextOutboundId, outboundMessages, receivedIds,
                receivedBuffer, receivedFragments, lastOrderedRx, lastRequestedEnd, lastServerMsrAtMs,
                disconnectDeadlineMs, clientServerMsrRxSinceLastKeepalive,
                serverConsecutiveMsrWithoutClientMsr, nextProposalId, pendingLocalProposal)
    }

    constructor (role: Role, cid: u64, cfg: Config)
      ensures View() == Spec.Init(role, cid, cfg)
    {
      this.role, this.cid, state, this.cfg := role, cid, PreHandshake, cfg;
      currentPathId := 0;
      nextOutboundId, outboundMessages := 1, map[];
      receivedIds, receivedBuffer, receivedFragments := {}, map[], map[];
      lastOrderedRx, lastRequestedEnd := 0, 0;
      lastServerMsrAtMs, disconnectDeadlineMs := None, None;
      clientServerMsrRxSinceLastKeepalive, serverConsecutiveMsrWithoutClientMsr := 0, 0;
      nextProposalId, pendingLocalProposal := 1, None;
    }

    function MaxPendingId(): (m: u64)
      reads this
      ensures m == Spec.MaxPending(View())
    {
      Spec.MaxKey(outboundMessages.Keys)
    }

    // ------------------------------------------------------------- small helpers

    method TouchDisconnectDeadline(now: nat)
      modifies this`disconnectDeadlineMs
      ensures View() == Spec.TouchDeadline(old(View()), now)
    {
      disconnectDeadlineMs := Some(now + cfg.disconnectWindowMs);
    }

    method OnValidPeerDatagram(now: nat)
      modifies this`lastServerMsrAtMs, this`serverConsecutiveMsrWithoutClientMsr
      ensures View() == Spec.OnValidPeerDatagram(old(View()), now)
    {
      if state != Established {
        return;
      }
      if role == Client {
        lastServerMsrAtMs := Some(now);
      } else {
        serverConsecutiveMsrWithoutClientMsr := 0;
      }
    }

    method ScheduleServerTimers(now: nat) returns (timers: seq<TimerAction>)
      modifies this`disconnectDeadlineMs
      ensures View() == Spec.ScheduleServerTimers(old(View()), now).0
      ensures timers == Spec.ScheduleServerTimers(old(View()), now).1
    {
      TouchDisconnectDeadline(now);
      timers := [Schedule(ServerMsr, now + cfg.msrIntervalMs)];
      timers := timers + [Schedule(Disconnect, now + cfg.disconnectWindowMs)];
    }

    method ScheduleClientTimers(now: nat) returns (timers: seq<TimerAction>)
      modifies this`disconnectDeadlineMs, this`lastServerMsrAtMs, this`clientServerMsrRxSinceLastKeepalive
      ensures View() == Spec.ScheduleClientTimers(old(View()), now).0
      ensures timers == Spec.ScheduleClientTimers(old(View()), now).1
    {
      lastServerMsrAtMs := Some(now);
      clientServerMsrRxSinceLastKeepalive := 0;
      TouchDisconnectDeadline(now);
      timers := [Schedule(ClientProbe, now + cfg.msrIntervalMs)];
      timers := timers + [Schedule(Disconnect, now + cfg.disconnectWindowMs)];
    }

    // --------------------------------------------------------- receiving payloads

    method FlushOrdered() returns (events: seq<Event>)
      modifies this`receivedBuffer, this`lastOrderedRx
      ensures View() == Spec.FlushOrdered(old(View())).0
      ensures events == Spec.FlushOrdered(old(View())).1
    {
      hide Spec.FlushOrdered;
      events := [];
      ghost var target := Spec.FlushOrdered(View());
      while lastOrderedRx + 1 in receivedBuffer
        invariant target.0 == Spec.FlushOrdered(View()).0
        invariant target.1 == events + Spec.FlushOrdered(View()).1
        decreases |receivedBuffer|
      {
        Spec.FlushUnfolds(View());
        var next: u64 := lastOrderedRx + 1;
        var orderedPayload := receivedBuffer[next];
        receivedBuffer := receivedBuffer - {next};
        lastOrderedRx := next;
        ghost var tail := Spec.FlushOrdered(View()).1;
        ghost var now := Spec.DeliveryEvents(next, orderedPayload);
        assert events + (now + tail) == (events + now) + tail;
        events := events + [MessageDelivered(lastOrderedRx), MessageReceived(lastOrderedRx, orderedPayload)];
      }
      Spec.FlushUnfolds(View());
    }

    method Accept(msgId: u64, payload: Bytes) returns (r: Result<CoreOutput, CoreError>)
      modifies this`receivedIds, this`receivedBuffer, this`receivedFragments, this`lastOrderedRx
      ensures View() == Spec.Accept(old(View()), msgId, payload).core
      ensures Returns(cid, Spec.Accept(old(View()), msgId, payload), r)
    {
      hide Spec.FlushOrdered, Render;
      receivedFragments := receivedFragments - {msgId};
      receivedIds := receivedIds + {msgId};
      receivedBuffer := receivedBuffer[msgId := payload];
      var events := FlushOrdered();
      return Ok(CoreOutput([], events, []));
    }

    method HandleData(payload: Bytes) returns (r: Result<CoreOutput, CoreError>)
      modifies this
      ensures View() == Spec.HandleData(old(View()), payload).core
      ensures Returns(cid, Spec.HandleData(old(View()), payload), r)
    {
      if |payload| < 8 {
        return Err(MalformedData);
      }
      var msgId := U64Value(payload[..8]);
      if msgId in receivedIds {
        return Ok(SILENT);
      }
      r := Accept(msgId, payload[8..]);
    }

    method HandleFragment(payload: Bytes) returns (r: Result<CoreOutput, CoreError>)
      modifies this
      ensures View() == Spec.HandleFragment(old(View()), payload).core
      ensures Returns(cid, Spec.HandleFragment(old(View()), payload), r)
    {
      if |payload| < FRAGMENT_HEADER_LEN {
        return Err(MalformedData);
      }
      var fragIdx := U16Value(payload[8..10]);
      var fragTotal := U16Value(payload[10..12]);
      r := AddFragment(U64Value(payload[..8]), fragIdx, fragTotal, payload[FRAGMENT_HEADER_LEN..]);
    }

    method AddFragment(msgId: u64, fragIdx: u16, fragTotal: u16, chunk: Bytes)
      returns (r: Result<CoreOutput, CoreError>)
      modifies this
      ensures View() == Spec.AddFragment(old(View()), msgId, fragIdx, fragTotal, chunk).core
      ensures Returns(cid, Spec.AddFragment(old(View()), msgId, fragIdx, fragTotal, chunk), r)
    {
      if msgId in receivedIds {
        return Ok(SILENT);
      }
      if fragTotal == 0 || fragIdx >= fragTotal {
        return Err(MalformedData);
      }
      var acc := if msgId in receivedFragments then receivedFragments[msgId] else Spec.Accumulator(0, map[]);
      if acc.total == 0 {
        acc := acc.(total := fragTotal);
      }
      if acc.total == fragTotal && fragIdx !in acc.chunks {
        acc := acc.(chunks := acc.chunks[fragIdx := chunk]);
      }
      assert acc == Spec.AddChunk(View(), msgId, fragIdx, fragTotal, chunk);
      receivedFragments := receivedFragments[msgId := acc];
      if acc.total != fragTotal {
        return Err(MalformedData);
      }
      if |acc.chunks| != acc.total {
        return Ok(SILENT);
      }
      var merged := MergeChunks(acc);
      if merged.None? {
        return Err(MalformedData);
      }
      r := Accept(msgId, merged.value);
    }

    static method MergeChunks(acc: Spec.Accumulator) returns (merged: Option<Bytes>)
      ensures merged == Spec.Merge(acc.chunks, acc.total)
    {
      var bytes: Bytes := [];
      var i: u16 := 0;
      while i < acc.total
        invariant 0 <= i <= acc.total
        invariant Spec.Merge(acc.chunks, i) == Some(bytes)
      {
        if i !in acc.chunks {
          Spec.MergeStops(acc.chunks, i + 1, acc.total);
          return None;
        }
        bytes := bytes + acc.chunks[i];
        i := i + 1;
      }
      return Some(bytes);
    }

    // ------------------------------------------------------------- answering pulls

    /** `datagrams` carry the messages `ms`, in order, on one path. */
    ghost predicate Carries(pathId: u32, ms: seq<Msg>, datagrams: seq<OutboundDatagram>) {
      && |datagrams| == |ms|
      && forall i :: 0 <= i < |ms| ==>
           WellFormed(ms[i]) && datagrams[i] == OutboundDatagram(pathId, Render(cid, ms[i]))
    }

    method HandleRequestRange(srcPathId: u32, payload: Bytes) returns (r: Result<CoreOutput, CoreError>)
      ensures View() == Spec.HandleRequestRange(View(), srcPathId, payload).core
      ensures Returns(cid, Spec.HandleRequestRange(View(), srcPathId, payload), r)
    {
      var range := DecodePair(payload);
      if range.None? {
        return Err(MalformedRequestRange);
      }
      var datagrams :- SendRange(srcPathId, range.value.0, range.value.1);
      return Ok(CoreOutput(datagrams, [], []));
    }

    method SendRange(srcPathId: u32, start: u64, end: u64) returns (r: Result<seq<OutboundDatagram>, CoreError>)
      ensures var replies := Spec.RangeReplies(View(), start, end);
        if replies.Err? then r == Err(replies.error) else r.Ok? && Carries(srcPathId, replies.value, r.value)
    {
      hide Render, Wire.Encode, Wire.Decode, ToFrame;
      ghost var target := Spec.RangeReplies(View(), start, end);
      ghost var sent: seq<Msg> := [];
      assert target.Ok? ==> [] + target.value == target.value;
      var datagrams: seq<OutboundDatagram> := [];
      var id: nat := start;
      while id <= end
        invariant target == Rest(sent, Spec.RangeReplies(View(), id, end))
        invariant Carries(srcPathId, sent, datagrams)
        decreases end + 1 - id
      {
        if id in outboundMessages {
          var msg := outboundMessages[id];
          var more :- SendOne(srcPathId, id, msg);
          ghost var ms := Spec.Carriers(id, msg, lastOrderedRx, MaxPendingId());
          RestAssociates(sent, ms, Spec.RangeReplies(View(), id + 1, end));
          sent := sent + ms;
          datagrams := datagrams + more;
        }
        id := id + 1;
      }
      assert sent + [] == sent;
      return Ok(datagrams);
    }

    method SendOne(srcPathId: u32, id: u64, msg: Bytes) returns (r: Result<seq<OutboundDatagram>, CoreError>)
      ensures r.Err? <==> !Spec.Sendable(msg)
      ensures r.Err? ==> r.error == MalformedData
      ensures r.Ok? ==> Carries(srcPathId, Spec.Carriers(id, msg, lastOrderedRx, MaxPendingId()), r.value)
    {
      hide Render, Wire.Encode, Wire.Decode, ToFrame;
      if 8 + |msg| <= MAX_DATA_PAYLOAD_PER_FRAME {
        var bytes := EncodeOwn(cid, Whole(id, msg, lastOrderedRx, MaxPendingId()));
        return Ok([OutboundDatagram(srcPathId, bytes)]);
      }
      var totalFrags := (|msg| + CHUNK_SIZE - 1) / CHUNK_SIZE;
      if totalFrags > U16_MAX {
        return Err(MalformedData);
      }
      var datagrams := [];
      var idx := 0;
      while idx < totalFrags
        invariant 0 <= idx <= totalFrags
        invariant Carries(srcPathId, Spec.PartsUpTo(id, msg, idx, lastOrderedRx, MaxPendingId()), datagrams)
      {
        var bytes := EncodeOwn(cid, Spec.PartOf(id, msg, idx, lastOrderedRx, MaxPendingId()));
        datagrams := datagrams + [OutboundDatagram(srcPathId, bytes)];
        idx := idx + 1;
      }
      return Ok(datagrams);
    }

    // ---------------------------------------------------------------- MSR handling

    method ClientSignal(now: nat, srcPathId: u32, source: Spec.MsrSource) returns (out: CoreOutput)
      modifies this`lastServerMsrAtMs, this`clientServerMsrRxSinceLastKeepalive, this`state
      ensures View() == Spec.ClientSignal(old(View()), now, srcPathId, source).0
      ensures Produces(cid, Spec.ClientSignal(old(View()), now, srcPathId, source).1, out)
    {
      hide Render, Wire.Encode, Wire.Decode, ToFrame;
      var datagrams: seq<OutboundDatagram> := [];
      var events: seq<Event> := [];
      lastServerMsrAtMs := Some(now);
      if source == Spec.ControlMsrFrame {
        clientServerMsrRxSinceLastKeepalive := Spec.SatCount(clientServerMsrRxSinceLastKeepalive);
        if clientServerMsrRxSinceLastKeepalive >= CLIENT_KEEPALIVE_EVERY_SERVER_MSR {
          clientServerMsrRxSinceLastKeepalive := 0;
          var bytes := EncodeOwn(cid, Status(lastOrderedRx, MaxPendingId(), NoReneg));
          datagrams := [OutboundDatagram(srcPathId, bytes)];
        }
      }
      if state == Reactivating {
        state := Established;
        events := [Reactivated];
      }
      return CoreOutput(datagrams, events, []);
    }

    method PullNew(srcPathId: u32, nextPending: u64) returns (out: CoreOutput)
      modifies this`lastRequestedEnd
      ensures View() == Spec.PullNew(old(View()), srcPathId, nextPending).0
      ensures Produces(cid, Spec.PullNew(old(View()), srcPathId, nextPending).1, out)
    {
      hide Render, Wire.Encode, Wire.Decode, ToFrame;
      if state != Established || nextPending <= lastRequestedEnd {
        return SILENT;
      }
      var start: u64 := lastRequestedEnd + 1;
      lastRequestedEnd := nextPending;
      var bytes := EncodeOwn(cid, Pull(start, nextPending, lastOrderedRx, MaxPendingId()));
      return CoreOutput([OutboundDatagram(srcPathId, bytes)], [RequestRangeSent(start, nextPending)], []);
    }

    method HandleMsrSignal(now: nat, srcPathId: u32, nextPending: u64, source: Spec.MsrSource)
      returns (out: CoreOutput)
      modifies this
      ensures View() == Spec.HandleMsrSignal(old(View()), now, srcPathId, nextPending, source).core
      ensures Returns(cid, Spec.HandleMsrSignal(old(View()), now, srcPathId, nextPending, source), Ok(out))
    {
      hide Render, Wire.Encode, Wire.Decode, ToFrame;
      out := SILENT;
      if role == Client {
        out := ClientSignal(now, srcPathId, source);
      }
      if role == Server {
        serverConsecutiveMsrWithoutClientMsr := 0;
      }
      var pull := PullNew(srcPathId, nextPending);
      out := Join(out, pull);
    }

    method HandleProposal(srcPathId: u32, proposalId: u32, proposal: TimerProposal)
      returns (r: Result<CoreOutput, CoreError>)
      modifies this`cfg
      ensures View() == Spec.HandleProposal(old(View()), srcPathId, proposalId, proposal).core
      ensures Returns(cid, Spec.HandleProposal(old(View()), srcPathId, proposalId, proposal), r)
    {
      hide Render, Wire.Encode, Wire.Decode, ToFrame;
      var accepted := Spec.ValidateTimerProposal(cfg, proposal).Ok?;
      var bytes := EncodeOwn(cid, Status(lastOrderedRx, MaxPendingId(), Ack(proposalId, accepted)));
      if accepted {
        cfg := proposal.ToConfig();
        return Ok(CoreOutput([OutboundDatagram(srcPathId, bytes)], [TimerRenegotiationCommitted(proposalId)], []));
      } else {
        return Ok(CoreOutput([OutboundDatagram(srcPathId, bytes)], [TimerRenegotiationRejected(proposalId)], []));
      }
    }

    method HandleAck(proposalId: u32, accepted: bool) returns (r: Result<CoreOutput, CoreError>)
      modifies this`cfg, this`pendingLocalProposal
      ensures View() == Spec.HandleAck(old(View()), proposalId, accepted).core
      ensures Returns(cid, Spec.HandleAck(old(View()), proposalId, accepted), r)
    {
      if pendingLocalProposal.Some? {
        var pending := pendingLocalProposal.value;
        if pending.proposalId == proposalId {
          pendingLocalProposal := None;
          if accepted {
            cfg := pending.proposal.ToConfig();
            return Ok(CoreOutput([], [TimerRenegotiationCommitted(proposalId)], []));
          } else {
            return Ok(CoreOutput([], [TimerRenegotiationRejected(proposalId)], []));
          }
        }
      }
      return Ok(SILENT);
    }

    method HandleTlv(srcPathId: u32, tlv: Wire.Tlv) returns (r: Result<CoreOutput, CoreError>)
      modifies this`cfg, this`pendingLocalProposal
      ensures View() == Spec.HandleTlv(old(View()), srcPathId, tlv).core
      ensures Returns(cid, Spec.HandleTlv(old(View()), srcPathId, tlv), r)
    {
      if tlv.kind == TLV_TIMER_PROPOSAL {
        var p := DecodeProposalTlv(tlv);
        if p.None? {
          return Err(MalformedTimerProposal);
        }
        r := HandleProposal(srcPathId, p.value.0, p.value.1);
      } else if tlv.kind == TLV_TIMER_ACK {
        var a := DecodeAckTlv(tlv);
        if a.None? {
          return Err(MalformedTimerAck);
        }
        r := HandleAck(a.value.0, a.value.1);
      } else {
        r := Ok(SILENT);
      }
    }

    method HandleTlvs(srcPathId: u32, tlvs: seq<Wire.Tlv>) returns (r: Result<CoreOutput, CoreError>)
      modifies this`cfg, this`pendingLocalProposal
      ensures View() == Spec.HandleTlvs(old(View()), srcPathId, tlvs).core
      ensures Returns(cid, Spec.HandleTlvs(old(View()), srcPathId, tlvs), r)
    {
      hide Render, Wire.Encode, Wire.Decode, ToFrame;
      ghost var target := Spec.HandleTlvs(View(), srcPathId, tlvs);
      ghost var done := Spec.NOTHING;
      var out := SILENT;
      Spec.AfterNothing(target);
      var i := 0;
      while i < |tlvs|
        invariant 0 <= i <= |tlvs|
        invariant Produces(cid, done, out)
        invariant target == Spec.After(done, Spec.HandleTlvs(View(), srcPathId, tlvs[i..]))
      {
        assert tlvs[i..][0] == tlvs[i] && tlvs[i..][1..] == tlvs[i + 1..];
        ghost var s := Spec.HandleTlv(View(), srcPathId, tlvs[i]);
        ghost var rest := Spec.HandleTlvs(s.core, srcPathId, tlvs[i + 1..]);
        var step :- HandleTlv(srcPathId, tlvs[i]);
        Spec.AfterAssociates(done, s.out.value, rest);
        done := Spec.Plus(done, s.out.value);
        out := Join(out, step);
        i := i + 1;
      }
      Spec.AfterNothing(Spec.Step(View(), Ok(done)));
      return Ok(out);
    }

    method HandleMsr(now: nat, srcPathId: u32, frame: Wire.WireFrame) returns (r: Result<CoreOutput, CoreError>)
      modifies this
      ensures View() == Spec.HandleMsr(old(View()), now, srcPathId, frame).core
      ensures Returns(cid, Spec.HandleMsr(old(View()), now, srcPathId, frame), r)
    {
      hide Spec.HandleTlvs, Spec.HandleMsrSignal, Render, Wire.Encode, Wire.Decode, ToFrame, DecodePair;
      var pair := DecodePair(frame.payload);
      if pair.None? {
        return Err(MalformedMsr);
      }
      var tlvsOut :- HandleTlvs(srcPathId, frame.tlvs);
      var signalOut := HandleMsrSignal(now, srcPathId, pair.value.1, Spec.ControlMsrFrame);
      return Ok(Join(tlvsOut, signalOut));
    }

    // ---------------------------------------------------------------- entry points

    method BeginHandshake() returns (r: Result<CoreOutput, CoreError>)
      ensures View() == Spec.BeginHandshake(View()).core
      ensures Returns(cid, Spec.BeginHandshake(View()), r)
    {
      hide Render, Wire.Encode, Wire.Decode, ToFrame;
      if role == Client {
        var bytes := EncodeOwn(cid, Hello);
        return Ok(CoreOutput([OutboundDatagram(currentPathId, bytes)], [HandshakeStarted], []));
      }
      return Ok(SILENT);
    }

    method HandleClientHello(now: nat, srcPathId: u32) returns (r: Result<CoreOutput, CoreError>)
      modifies this
      ensures View() == Spec.HandleClientHello(old(View()), now, srcPathId).core
      ensures Returns(cid, Spec.HandleClientHello(old(View()), now, srcPathId), r)
    {
      hide Render, Wire.Encode, Wire.Decode, ToFrame;
      if role != Server || state != PreHandshake {
        return Ok(SILENT);
      }
      state := Established;
      var bytes := EncodeOwn(cid, HelloReply);
      var timers := ScheduleServerTimers(now);
      return Ok(CoreOutput([OutboundDatagram(srcPathId, bytes)], [HandshakeEstablished], timers));
    }

    method HandleServerHello(now: nat, srcPathId: u32) returns (r: Result<CoreOutput, CoreError>)
      modifies this
      ensures View() == Spec.HandleServerHello(old(View()), now, srcPathId).core
      ensures Returns(cid, Spec.HandleServerHello(old(View()), now, srcPathId), r)
    {
      hide Render, Wire.Encode, Wire.Decode, ToFrame;
      if role != Client || !(state == PreHandshake || state == Reactivating) {
        return Ok(SILENT);
      }
      var wasReactivating := state == Reactivating;
      state := Established;
      lastServerMsrAtMs := Some(now);
      var bytes := EncodeOwn(cid, HelloDone);
      var event := if wasReactivating then Reactivated else HandshakeEstablished;
      var timers := ScheduleClientTimers(now);
      return Ok(CoreOutput([OutboundDatagram(srcPathId, bytes)], [event], timers));
    }

    method HandleHelloAck(now: nat) returns (r: Result<CoreOutput, CoreError>)
      modifies this
      ensures View() == Spec.HandleHelloAck(old(View()), now).core
      ensures Returns(cid, Spec.HandleHelloAck(old(View()), now), r)
    {
      if role != Server || state != PreHandshake {
        return Ok(SILENT);
      }
      state := Established;
      var timers := ScheduleServerTimers(now);
      return Ok(CoreOutput([], [HandshakeEstablished], timers));
    }

    method Dispatch(now: nat, srcPathId: u32, frame: Wire.WireFrame) returns (r: Result<CoreOutput, CoreError>)
      modifies this
      ensures View() == Spec.Dispatch(old(View()), now, srcPathId, frame).core
      ensures Returns(cid, Spec.Dispatch(old(View()), now, srcPathId, frame), r)
    {
      hide Render, Wire.Encode, Wire.Decode, ToFrame;
      match frame.messageType
      case ClientHello => r := HandleClientHello(now, srcPathId);
      case ServerHello => r := HandleServerHello(now, srcPathId);
      case HelloAck => r := HandleHelloAck(now);
      case Msr => r := HandleMsr(now, srcPathId, frame);
      case RequestRange =>
        if state == Established {
          r := HandleRequestRange(srcPathId, frame.payload);
        } else {
          r := Ok(SILENT);
        }
      case Data =>
        if state == Established {
          r := HandleData(frame.payload);
        } else {
          r := Ok(SILENT);
        }
      case Fragment =>
        if state == Established {
          r := HandleFragment(frame.payload);
        } else {
          r := Ok(SILENT);
        }
      case Close =>
        state := Lost;
        r := Ok(CoreOutput([], [Disconnected], []));
      case Error =>
        state := Lost;
        r := Ok(CoreOutput([], [Disconnected], []));
    }

    method HandlePiggyback(now: nat, srcPathId: u32, frame: Wire.WireFrame) returns (out: CoreOutput)
      modifies this
      ensures View() == Spec.Piggyback(old(View()), now, srcPathId, frame).core
      ensures Returns(cid, Spec.Piggyback(old(View()), now, srcPathId, frame), Ok(out))
    {
      hide Render, Wire.Encode, Wire.Decode, ToFrame;
      if frame.messageType != Wire.Msr {
        var signal := FindSignalTlv(frame.tlvs);
        if signal.Some? {
          out := HandleMsrSignal(now, srcPathId, signal.value.1, Spec.PiggybackTlv);
          return;
        }
      }
      return SILENT;
    }

    method OnFrame(now: nat, srcPathId: u32, frame: Wire.WireFrame) returns (r: Result<CoreOutput, CoreError>)
      modifies this
      ensures View() == Spec.OnFrame(old(View()), now, srcPathId, frame).core
      ensures Returns(cid, Spec.OnFrame(old(View()), now, srcPathId, frame), r)
    {
      hide Spec.Dispatch, Spec.Piggyback, Render, Wire.Encode, ToFrame;
      var own :- Dispatch(now, srcPathId, frame);
      var more := HandlePiggyback(now, srcPathId, frame);
      return Ok(Join(own, more));
    }

    method OnDatagram(now: nat, srcPathId: u32, bytes: Bytes) returns (r: Result<CoreOutput, CoreError>)
      modifies this
      ensures View() == Spec.OnDatagram(old(View()), now, srcPathId, bytes).core
      ensures Returns(cid, Spec.OnDatagram(old(View()), now, srcPathId, bytes), r)
    {
      hide Spec.OnFrame, Render, Wire.Encode, Wire.Decode, ToFrame;
      var decoded := Wire.DecodeFrame(bytes);
      if decoded.Err? {
        return Ok(CoreOutput([], [ParseError], []));
      }
      var frame := decoded.value;
      if cid != 0 && frame.cid != cid {
        return Err(CidMismatch(cid, frame.cid));
      }
      currentPathId := srcPathId;
      TouchDisconnectDeadline(now);
      OnValidPeerDatagram(now);
      r := OnFrame(now, srcPathId, frame);
    }

    method OnServerMsr(now: nat) returns (r: Result<CoreOutput, CoreError>)
      modifies this
      ensures View() == Spec.OnServerMsr(old(View()), now).core
      ensures Returns(cid, Spec.OnServerMsr(old(View()), now), r)
    {
      hide Render, Wire.Encode, Wire.Decode, ToFrame;
      serverConsecutiveMsrWithoutClientMsr := Spec.SatCount(serverConsecutiveMsrWithoutClientMsr);
      if serverConsecutiveMsrWithoutClientMsr > SERVER_MAX_CONSECUTIVE_SERVER_MSR_WITHOUT_CLIENT_MSR {
        state := Lost;
        return Ok(CoreOutput([], [Disconnected], []));
      }
      var bytes := EncodeOwn(cid, Status(lastOrderedRx, 0, NoReneg));
      TouchDisconnectDeadline(now);
      var timers := [Schedule(ServerMsr, now + cfg.msrIntervalMs)];
      timers := timers + [Schedule(Disconnect, now + cfg.disconnectWindowMs)];
      return Ok(CoreOutput([OutboundDatagram(currentPathId, bytes)], [], timers));
    }

    method OnClientProbe(now: nat) returns (r: Result<CoreOutput, CoreError>)
      modifies this
      ensures View() == Spec.OnClientProbe(old(View()), now).core
      ensures Returns(cid, Spec.OnClientProbe(old(View()), now), r)
    {
      hide Render, Wire.Encode, Wire.Decode, ToFrame;
      var datagrams: seq<OutboundDatagram> := [];
      var events: seq<Event> := [];
      var last := if lastServerMsrAtMs.Some? then lastServerMsrAtMs.value else 0;
      var sinceLast := if now >= last then now - last else 0;
      var missWindow := SatMul(cfg.msrIntervalMs, cfg.missWindowCount);
      if sinceLast > missWindow {
        state := Reactivating;
        var bytes := EncodeOwn(cid, Status(0, MaxPendingId(), NoReneg));
        datagrams := datagrams + [OutboundDatagram(currentPathId, bytes)];
        events := events + [ReactivationProbeSent];
      }
      return Ok(CoreOutput(datagrams, events, [Schedule(ClientProbe, now + cfg.msrIntervalMs)]));
    }

    method OnTimer(now: nat, id: TimerId) returns (r: Result<CoreOutput, CoreError>)
      modifies this
      ensures View() == Spec.OnTimer(old(View()), now, id).core
      ensures Returns(cid, Spec.OnTimer(old(View()), now, id), r)
      ensures r.Ok?
    {
      r := Ok(SILENT);
      match id
      case ServerMsr =>
        if role == Server && state == Established {
          r := OnServerMsr(now);
        }
      case ClientProbe =>
        if role == Client && (state == Established || state == Reactivating) {
          r := OnClientProbe(now);
        }
      case Disconnect =>
        if disconnectDeadlineMs.Some? {
          var deadline := disconnectDeadlineMs.value;
          if now >= deadline && state != Lost {
            state := Lost;
            r := Ok(CoreOutput([], [Disconnected], []));
          } else {
            r := Ok(CoreOutput([], [], [Schedule(Disconnect, deadline)]));
          }
        }
      case RenegotiationTimeout =>
        if pendingLocalProposal.Some? {
          var pending := pendingLocalProposal.value;
          if now >= pending.expiresAtMs {
            pendingLocalProposal := None;
            r := Ok(CoreOutput([], [TimerRenegotiationRolledBack(pending.proposalId)], []));
          }
        }
    }

    method OnApiSend(payload: Bytes) returns (r: Result<CoreOutput, CoreError>)
      requires nextOutboundId < U64_MAX
      modifies this
      ensures View() == Spec.OnApiSend(old(View()), payload).core
      ensures Returns(cid, Spec.OnApiSend(old(View()), payload), r)
    {
      hide Render, Wire.Encode, Wire.Decode, ToFrame;
      var msgId := nextOutboundId;
      nextOutboundId := nextOutboundId + 1;
      outboundMessages := outboundMessages[msgId := payload];
      if state == Established {
        var pending := MaxPendingId();
        if role == Client {
          var bytes := EncodeOwn(cid, Status(0, pending, NoReneg));
          return Ok(CoreOutput([OutboundDatagram(currentPathId, bytes)], [QueueAdvertised(pending)], []));
        } else {
          var bytes := EncodeOwn(cid, Status(lastOrderedRx, pending, NoReneg));
          return Ok(CoreOutput([OutboundDatagram(currentPathId, bytes)], [], []));
        }
      }
      return Ok(SILENT);
    }

    method OnApiClose() returns (r: Result<CoreOutput, CoreError>)
      modifies this`state
      ensures View() == Spec.OnApiClose(old(View())).core
      ensures Returns(cid, Spec.OnApiClose(old(View())), r)
    {
      hide Render, Wire.Encode, Wire.Decode, ToFrame;
      if state == Lost {
        return Ok(SILENT);
      }
      var bytes := EncodeOwn(cid, Goodbye);
      state := Lost;
      return Ok(CoreOutput([OutboundDatagram(currentPathId, bytes)], [Disconnected], []));
    }

    method OnApiProposeTimers(now: u64, proposal: TimerProposal) returns (r: Result<CoreOutput, CoreError>)
      modifies this
      ensures View() == Spec.OnApiProposeTimers(old(View()), now, proposal).core
      ensures Returns(cid, Spec.OnApiProposeTimers(old(View()), now, proposal), r)
    {
      hide Render, Wire.Encode, Wire.Decode, ToFrame;
      if state != Established {
        return Err(InvalidStateForRenegotiation);
      }
      var valid := Spec.ValidateTimerProposal(cfg, proposal);
      if valid.Err? {
        return Err(valid.error);
      }
      var proposalId := nextProposalId;
      nextProposalId := if nextProposalId == U32_MAX then U32_MAX else nextProposalId + 1;
      var expiresAtMs := SatAdd(now, SatMul(cfg.msrIntervalMs, 2));
      pendingLocalProposal := Some(Spec.Pending(proposalId, proposal, expiresAtMs));
      var bytes := EncodeOwn(cid, Status(0, MaxPendingId(), Propose(proposalId, proposal)));
      return Ok(CoreOutput([OutboundDatagram(currentPathId, bytes)], [TimerRenegotiationProposed(proposalId)],
                           [Schedule(RenegotiationTimeout, expiresAtMs)]));
    }

    method OnPathEvent(pathId: u32) returns (r: Result<CoreOutput, CoreError>)
      modifies this`currentPathId
      ensures View() == Spec.OnPathChanged(old(View()), pathId).core
      ensures Returns(cid, Spec.OnPathChanged(old(View()), pathId), r)
    {
      currentPathId := pathId;
      return Ok(SILENT);
    }
  }

  ghost function Rest(done: seq<Msg>, r: Result<seq<Msg>, CoreError>): Result<seq<Msg>, CoreError> {
    if r.Err? then r else Ok(done + r.value)
  }

  lemma RestAssociates(done: seq<Msg>, more: seq<Msg>, r: Result<seq<Msg>, CoreError>)
    ensures Rest(done, Rest(more, r)) == Rest(done + more, r)
  {
    if r.Ok? {
      assert done + (more + r.value) == (done + more) + r.value;
    }
  }
}
