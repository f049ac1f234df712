/** The vocabulary of the session protocol (v3-core): configuration, events, errors, the
    datagrams a machine emits, and the byte layouts of their payloads and TLVs. */
module Protocol {
  import opened ByteOrder
  import opened Wrappers
  import Wire

  const TLV_TIMER_PROPOSAL: u8 := 0x30
  const TLV_TIMER_ACK: u8 := 0x31
  const TLV_MSR_SIGNAL: u8 := 0x32
  const CLIENT_KEEPALIVE_EVERY_SERVER_MSR: nat := 4
  const SERVER_MAX_CONSECUTIVE_SERVER_MSR_WITHOUT_CLIENT_MSR: nat := 8
  const MAX_DATA_PAYLOAD_PER_FRAME: nat := 1000
  const FRAGMENT_HEADER_LEN: nat := 12
  const CHUNK_SIZE: nat := MAX_DATA_PAYLOAD_PER_FRAME - FRAGMENT_HEADER_LEN

  datatype Role = Client | Server

  datatype LifecycleState = PreHandshake | Established | Reactivating | Lost

  datatype TimerId = ServerMsr | ClientProbe | Disconnect | RenegotiationTimeout

  datatype TimerAction = Schedule(id: TimerId, deadlineMs: nat)

  datatype Config = Config(msrIntervalMs: u64, missWindowCount: u64, disconnectWindowMs: u64)

  datatype TimerProposal = TimerProposal(msrIntervalMs: u64, missWindowCount: u64, disconnectWindowMs: u64) {
    function ToConfig(): Config {
      Config(msrIntervalMs, missWindowCount, disconnectWindowMs)
    }
  }

  datatype Event =
    | HandshakeStarted
    | HandshakeEstablished
    | ReactivationProbeSent
    | Reactivated
    | Disconnected
    | QueueAdvertised(nextPendingId: u64)
    | RequestRangeSent(start: u64, end: u64)
    | MessageDelivered(msgId: u64)
    | MessageReceived(msgId: u64, payload: Bytes)
    | TimerRenegotiationProposed(proposalId: u32)
    | TimerRenegotiationCommitted(proposalId: u32)
    | TimerRenegotiationRejected(proposalId: u32)
    | TimerRenegotiationRolledBack(proposalId: u32)
    | ParseError

  datatype CoreError =
    | WireFailure(cause: Wire.WireError)
    | CidMismatch(expected: u64, got: u64)
    | MalformedMsr
    | MalformedRequestRange
    | MalformedData
    | InvalidStateForRenegotiation
    | InvalidTimerProposal(reason: string)
    | MalformedTimerProposal
    | MalformedTimerAck

  datatype OutboundDatagram = OutboundDatagram(pathId: u32, bytes: Bytes)

  datatype CoreOutput = CoreOutput(
    datagrams: seq<OutboundDatagram>, events: seq<Event>, timers: seq<TimerAction>)

  // ------------------------------------------------- payload and TLV byte layouts

  /** Two 64-bit numbers: the body of an MSR, of a range request and of a signal TLV. */
  function EncodePair(a: u64, b: u64): (p: Bytes)
    ensures |p| == 16
    ensures DecodePair(p) == Some((a, b))
  {
    var p := U64Bytes(a) + U64Bytes(b);
    assert p[..8] == U64Bytes(a) && p[8..16] == U64Bytes(b);
    p
  }

  function DecodePair(p: Bytes): Option<(u64, u64)> {
    if |p| < 16 then None else Some((U64Value(p[..8]), U64Value(p[8..16])))
  }

  function EncodeSignalTlv(acked: u64, nextPending: u64): Wire.Tlv {
    Wire.Tlv(TLV_MSR_SIGNAL, EncodePair(acked, nextPending))
  }

  /** The first signal TLV decides, even when its value is too short to decode. */
  function FindSignalTlv(tlvs: seq<Wire.Tlv>): Option<(u64, u64)> {
    if tlvs == [] then None
    else if tlvs[0].kind == TLV_MSR_SIGNAL then DecodePair(tlvs[0].value)
    else FindSignalTlv(tlvs[1..])
  }

  function EncodeProposalTlv(proposalId: u32, p: TimerProposal): (t: Wire.Tlv)
    ensures t.kind == TLV_TIMER_PROPOSAL && |t.value| == 28
    ensures DecodeProposalTlv(t) == Some((proposalId, p))
  {
    var v := U32Bytes(proposalId)
             + U64Bytes(p.msrIntervalMs) + U64Bytes(p.missWindowCount) + U64Bytes(p.disconnectWindowMs);
    assert v[..4] == U32Bytes(proposalId);
    assert v[4..12] == U64Bytes(p.msrIntervalMs);
    assert v[12..20] == U64Bytes(p.missWindowCount);
    assert v[20..28] == U64Bytes(p.disconnectWindowMs);
    Wire.Tlv(TLV_TIMER_PROPOSAL, v)
  }

  function DecodeProposalTlv(t: Wire.Tlv): Option<(u32, TimerProposal)> {
    if t.kind != TLV_TIMER_PROPOSAL || |t.value| != 28 then None
    else Some((U32Value(t.value[..4]),
               TimerProposal(U64Value(t.value[4..12]), U64Value(t.value[12..20]), U64Value(t.value[20..28]))))
  }

  function EncodeAckTlv(proposalId: u32, accepted: bool): (t: Wire.Tlv)
    ensures t.kind == TLV_TIMER_ACK && |t.value| == 5
    ensures DecodeAckTlv(t) == Some((proposalId, accepted))
  {
    var v := U32Bytes(proposalId) + [if accepted then 1 else 0];
    assert v[..4] == U32Bytes(proposalId);
    Wire.Tlv(TLV_TIMER_ACK, v)
  }

  function DecodeAckTlv(t: Wire.Tlv): Option<(u32, bool)> {
    if t.kind != TLV_TIMER_ACK || |t.value| != 5 || t.value[4] > 1 then None
    else Some((U32Value(t.value[..4]), t.value[4] == 1))
  }

  // ------------------------------------------------------ what a machine can emit

  datatype Reneg =
    | NoReneg
    | Propose(proposalId: u32, proposal: TimerProposal)
    | Ack(proposalId: u32, accepted: bool)

  /** The datagrams a machine emits, one constructor for each use of the two
      frame encoders. `acked` and `nextPending` are the sender's receive position and its
      highest queued message id. */
  datatype Msg =
    | Hello
    | HelloReply
    | HelloDone
    | Goodbye
    | Status(acked: u64, nextPending: u64, reneg: Reneg)
    | Pull(start: u64, end: u64, acked: u64, nextPending: u64)
    | Whole(msgId: u64, payload: Bytes, acked: u64, nextPending: u64)
    | Part(msgId: u64, index: u16, total: u16, chunk: Bytes, acked: u64, nextPending: u64)

  predicate WellFormed(m: Msg) {
    match m
    case Whole(_, payload, _, _) => 8 + |payload| <= MAX_DATA_PAYLOAD_PER_FRAME
    case Part(_, index, total, chunk, _, _) => index < total && |chunk| <= CHUNK_SIZE
    case _ => true
  }

  function RenegTlvs(r: Reneg): (tlvs: seq<Wire.Tlv>) {
    match r
    case NoReneg => []
    case Propose(id, p) => [EncodeProposalTlv(id, p)]
    case Ack(id, accepted) => [EncodeAckTlv(id, accepted)]
  }

  function Body(m: Msg): Bytes {
    match m
    case Status(acked, next, _) => EncodePair(acked, next)
    case Pull(start, end, _, _) => EncodePair(start, end)
    case Whole(id, payload, _, _) => U64Bytes(id) + payload
    case Part(id, index, total, chunk, _, _) => U64Bytes(id) + U16Bytes(index) + U16Bytes(total) + chunk
    case _ => []
  }

  function Tlvs(m: Msg): seq<Wire.Tlv> {
    match m
    case Status(_, _, reneg) => RenegTlvs(reneg)
    case Pull(_, _, acked, next) => [EncodeSignalTlv(acked, next)]
    case Whole(_, _, acked, next) => [EncodeSignalTlv(acked, next)]
    case Part(_, _, _, _, acked, next) => [EncodeSignalTlv(acked, next)]
    case _ => []
  }

  function TypeOf(m: Msg): Wire.MessageType {
    match m
    case Hello => Wire.ClientHello
    case HelloReply => Wire.ServerHello
    case HelloDone => Wire.HelloAck
    case Goodbye => Wire.Close
    case Status(_, _, _) => Wire.Msr
    case Pull(_, _, _, _) => Wire.RequestRange
    case Whole(_, _, _, _) => Wire.Data
    case Part(_, _, _, _, _, _) => Wire.Fragment
  }

  function ToFrame(cid: u64, m: Msg): Wire.WireFrame {
    Wire.WireFrame(Wire.WIRE_VERSION_V3, TypeOf(m), 0, cid, Body(m), Tlvs(m))
  }

  const MAX_EMITTED_LEN: nat := 1034

  /** Every well-formed message has an encoding: the encoder's error paths are never taken,
      the datagram is at most 1034 bytes, and it decodes to the intended frame. */
  lemma EncodingOfWellFormed(cid: u64, m: Msg)
    requires WellFormed(m)
    ensures Wire.Encode(ToFrame(cid, m)).Ok?
    ensures |Wire.Encode(ToFrame(cid, m)).value| <= MAX_EMITTED_LEN
    ensures Wire.Decode(Wire.Encode(ToFrame(cid, m)).value) == Ok(ToFrame(cid, m))
  {
    var f := ToFrame(cid, m);
    assert |f.payload| <= MAX_DATA_PAYLOAD_PER_FRAME;
    assert |f.tlvs| <= 1 && (|f.tlvs| == 1 ==> |f.tlvs[0].value| <= 28);
    if |f.tlvs| == 1 {
      assert f.tlvs[1..] == [];
      assert Wire.TlvBlock(f.tlvs) == Wire.TlvBytes(f.tlvs[0]) + Wire.TlvBlock([]);
    }
    assert |Wire.TlvBlock(f.tlvs)| <= 31;
    Wire.DecodeOfEncode(f);
  }

  /** The bytes of a message on the wire. */
  function Render(cid: u64, m: Msg): (b: Bytes)
    requires WellFormed(m)
    ensures Wire.Encode(ToFrame(cid, m)) == Ok(b)
    ensures |b| <= MAX_EMITTED_LEN
    ensures Wire.Decode(b) == Ok(ToFrame(cid, m))
  {
    EncodingOfWellFormed(cid, m);
    Wire.Encode(ToFrame(cid, m)).value
  }

  /** What a receiver reads back from the frame of a message. */
  lemma FieldsOfFrame(cid: u64, m: Msg)
    ensures m.Status? ==> DecodePair(Body(m)) == Some((m.acked, m.nextPending))
    ensures m.Pull? ==> DecodePair(Body(m)) == Some((m.start, m.end))
    ensures m.Whole? ==> |Body(m)| >= 8 && U64Value(Body(m)[..8]) == m.msgId && Body(m)[8..] == m.payload
    ensures m.Part? ==>
      && |Body(m)| >= FRAGMENT_HEADER_LEN && U64Value(Body(m)[..8]) == m.msgId
      && U16Value(Body(m)[8..10]) == m.index && U16Value(Body(m)[10..12]) == m.total
      && Body(m)[FRAGMENT_HEADER_LEN..] == m.chunk
    ensures m.Pull? || m.Whole? || m.Part? ==> FindSignalTlv(Tlvs(m)) == Some((m.acked, m.nextPending))
    ensures !(m.Status? || m.Pull? || m.Whole? || m.Part?) ==> FindSignalTlv(Tlvs(m)) == None
  {
    match m
    case Whole(id, payload, _, _) =>
      assert Body(m)[..8] == U64Bytes(id);
      assert Body(m)[8..] == payload;
    case Part(id, index, total, chunk, _, _) =>
      assert Body(m)[..8] == U64Bytes(id);
      assert Body(m)[8..10] == U16Bytes(index);
      assert Body(m)[10..12] == U16Bytes(total);
      assert Body(m)[12..] == chunk;
    case _ =>
  }
}
