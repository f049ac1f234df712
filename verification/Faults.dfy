/** Which fault is reported, on any bytes: by the codec, from the positions of the bytes alone,
    and by a machine, from the frame it was given. */
module Faults {
  import opened ByteOrder
  import opened Wrappers
  import opened Protocol
  import opened CoreSpec
  import opened Receiver
  import opened MachineRuns
  import opened MachineSafety
  import opened CoreTimers
  import Wire

  // ------------------------------------------------------------------------- the codec

  /** What the header says: too short, another version, an unknown type, or lengths that do not
      add up to what follows it, in this order. */
  function HeaderFault(b: Bytes): Option<Wire.WireError> {
    if |b| < 15 then Some(Wire.Truncated)
    else if b[0] != 0x03 then Some(Wire.UnsupportedVersion(b[0]))
    else if b[1] !in {0x01, 0x02, 0x03, 0x10, 0x11, 0x12, 0x13, 0x7e, 0x7f} then Some(Wire.UnknownMessageType(b[1]))
    else if |b| - 15 != U16Value(b[11..13]) + U16Value(b[13..15]) then
      Some(Wire.LengthMismatch(|b| - 15, U16Value(b[11..13]) + U16Value(b[13..15])))
    else None
  }

  /** Decoding fails on the first fault of the header, else exactly on a fault among the TLVs. */
  lemma DecodeFaults(b: Bytes)
    ensures HeaderFault(b).Some? ==> Wire.Decode(b) == Err(HeaderFault(b).value)
    ensures HeaderFault(b).None? ==>
      var tlvs := Wire.DecodeTlvs(b[15 + U16Value(b[11..13])..], 0);
      if tlvs.Err? then Wire.Decode(b) == Err(tlvs.error)
      else Wire.Decode(b).Ok? && Wire.Decode(b).value.tlvs == tlvs.value
  {
    hide U16Value, U64Value, Wire.DecodeTlvs;
  }

  /** The first TLV of a block fails it if it is cut off, the sixty-fifth, or too long. */
  lemma TlvFaults(b: Bytes, already: nat)
    requires b != []
    ensures var r := Wire.DecodeTlvs(b, already);
      if |b| < 3 then r == Err(Wire.MalformedTlv)
      else if already >= 64 then r == Err(Wire.TooManyTlvs(already))
      else if U16Value(b[1..3]) > 2048 then r == Err(Wire.TlvTooLarge(U16Value(b[1..3])))
      else if |b| - 3 < U16Value(b[1..3]) then r == Err(Wire.MalformedTlv)
      else
        var rest := Wire.DecodeTlvs(b[3 + U16Value(b[1..3])..], already + 1);
        (rest.Err? ==> r == rest) && (r.Ok? <==> rest.Ok?)
  {
    hide U16Value;
  }

  /** Encoding fails on another version, then on a payload over 65536 bytes, then on more than
      64 TLVs, then on a TLV value over 2048 bytes, and on nothing else but a block too long for
      its 16-bit length. */
  lemma EncodeFaults(f: Wire.WireFrame)
    ensures var r := Wire.Encode(f);
      if f.version != 0x03 then r == Err(Wire.UnsupportedVersion(f.version))
      else if |f.payload| > 65536 then r == Err(Wire.PayloadTooLarge(|f.payload|))
      else if |f.tlvs| > 64 then r == Err(Wire.TooManyTlvs(|f.tlvs|))
      else if !Wire.TlvsFit(f.tlvs) then r.Err? && r.error.TlvTooLarge? && TooLong(f.tlvs, r.error.len)
      else if |Wire.TlvBlock(f.tlvs)| > 65535 then r == Err(Wire.TlvBlockTooLarge(|Wire.TlvBlock(f.tlvs)|))
      else r.Ok?
  {
    hide U16Bytes, U64Bytes;
    EncodeTlvsFaults(f.tlvs);
  }

  /** The first value over 2048 bytes has this length. */
  ghost predicate TooLong(tlvs: seq<Wire.Tlv>, len: nat) {
    exists i :: 0 <= i < |tlvs| && |tlvs[i].value| == len > 2048 && Wire.TlvsFit(tlvs[..i])
  }

  lemma FirstFits(tlvs: seq<Wire.Tlv>, i: nat)
    requires i < |tlvs| && |tlvs[0].value| <= 2048 && Wire.TlvsFit(tlvs[1..][..i])
    ensures Wire.TlvsFit(tlvs[..i + 1])
  {
    assert tlvs[..i + 1] == [tlvs[0]] + tlvs[1..][..i];
  }

  lemma {:induction false} EncodeTlvsFaults(tlvs: seq<Wire.Tlv>)
    ensures !Wire.TlvsFit(tlvs) ==>
      var r := Wire.EncodeTlvs(tlvs); r.Err? && r.error.TlvTooLarge? && TooLong(tlvs, r.error.len)
  {
    if tlvs != [] && !Wire.TlvsFit(tlvs) {
      if |tlvs[0].value| > 2048 {
        assert tlvs[..0] == [];
      } else {
        assert !Wire.TlvsFit(tlvs[1..]);
        EncodeTlvsFaults(tlvs[1..]);
        var len := Wire.EncodeTlvs(tlvs).error.len;
        var i :| 0 <= i < |tlvs[1..]| && |tlvs[1..][i].value| == len > 2048 && Wire.TlvsFit(tlvs[1..][..i]);
        assert tlvs[i + 1] == tlvs[1..][i];
        FirstFits(tlvs, i);
      }
    }
  }

  // ------------------------------------------------------------------------ the machine

  /** A TLV about timers that cannot be read. */
  function TlvFault(t: Wire.Tlv): Option<CoreError> {
    if t.kind == 0x30 && |t.value| != 28 then Some(MalformedTimerProposal)
    else if t.kind == 0x31 && (|t.value| != 5 || t.value[4] > 1) then Some(MalformedTimerAck)
    else None
  }

  function FirstTlvFault(tlvs: seq<Wire.Tlv>): Option<CoreError> {
    if tlvs == [] then None
    else if TlvFault(tlvs[0]).Some? then TlvFault(tlvs[0])
    else FirstTlvFault(tlvs[1..])
  }

  lemma {:induction false} TlvsFail(c: Core, path: u32, tlvs: seq<Wire.Tlv>)
    ensures var s := HandleTlvs(c, path, tlvs);
      if FirstTlvFault(tlvs).Some? then s.out == Err(FirstTlvFault(tlvs).value) else s.out.Ok?
    decreases |tlvs|
  {
    hide ValidateTimerProposal, MaxPending, U32Value, U64Value;
    if tlvs != [] {
      TlvsFail(HandleTlv(c, path, tlvs[0]).core, path, tlvs[1..]);
    }
  }

  /** Some queued message of the range has too many parts to be sent. */
  ghost predicate AsksForTooMuch(c: Core, start: nat, end: u64) {
    exists id: u64 :: start <= id <= end && id in c.outbound && |c.outbound[id]| > 65535 * 988
  }

  lemma {:induction false} RepliesFail(c: Core, start: nat, end: u64)
    ensures RangeReplies(c, start, end).Err? <==> AsksForTooMuch(c, start, end)
    ensures RangeReplies(c, start, end).Err? ==> RangeReplies(c, start, end).error == MalformedData
    decreases end + 1 - start
  {
    hide Carriers, MaxPending;
    if start <= end {
      RepliesFail(c, start + 1, end);
      if AsksForTooMuch(c, start + 1, end) {
        var id: u64 :| start + 1 <= id <= end && id in c.outbound && |c.outbound[id]| > 65535 * 988;
        assert AsksForTooMuch(c, start, end);
      }
      if AsksForTooMuch(c, start, end) && !AsksForTooMuch(c, start + 1, end) {
        var id: u64 :| start <= id <= end && id in c.outbound && |c.outbound[id]| > 65535 * 988;
        assert id == start;
      }
    }
  }

  /** What is wrong with a frame, as far as the machine looks at it. */
  ghost function FrameFault(c: Core, f: Wire.WireFrame): Option<CoreError> {
    var n := |f.payload|;
    match f.messageType
    case Msr => if n < 16 then Some(MalformedMsr) else FirstTlvFault(f.tlvs)
    case RequestRange =>
      if c.state != Established then None
      else if n < 16 then Some(MalformedRequestRange)
      else if AsksForTooMuch(c, U64Value(f.payload[..8]), U64Value(f.payload[8..16])) then Some(MalformedData)
      else None
    case Data => if c.state == Established && n < 8 then Some(MalformedData) else None
    case Fragment =>
      if c.state == Established && (n < 12 || BadPart(c, f.payload)) then Some(MalformedData) else None
    case _ => None
  }

  /** A part of a message not yet received, with an index beyond its total or another total than
      the parts before it. */
  predicate BadPart(c: Core, payload: Bytes)
    requires |payload| >= 12
  {
    var id, index, total := U64Value(payload[..8]), U16Value(payload[8..10]), U16Value(payload[10..12]);
    id !in c.receivedIds && (index >= total || (id in c.fragments && c.fragments[id].total != total))
  }

  lemma PartFails(c: Core, payload: Bytes)
    requires ReceiverInv(c)
    ensures var s := HandleFragment(c, payload);
      if |payload| < 12 || BadPart(c, payload) then s.out == Err(MalformedData) else s.out.Ok?
  {
    hide AddFragment, U16Value, U64Value, ReceiverInv;
    if |payload| >= 12 {
      var id, index, total := U64Value(payload[..8]), U16Value(payload[8..10]), U16Value(payload[10..12]);
      AddFragmentKeeps(c, id, index, total, payload[12..]);
      FragmentFailure(c, id, index, total, payload[12..]);
    }
  }

  lemma FragmentFailure(c: Core, id: u64, index: u16, total: u16, chunk: Bytes)
    ensures var s := AddFragment(c, id, index, total, chunk); s.out.Err? ==> s.out.error == MalformedData
  {
    hide Accept, AddChunk, Merge;
  }

  lemma RangeFails(c: Core, path: u32, payload: Bytes)
    ensures var s := HandleRequestRange(c, path, payload);
      if |payload| < 16 then s.out == Err(MalformedRequestRange)
      else if AsksForTooMuch(c, U64Value(payload[..8]), U64Value(payload[8..16])) then s.out == Err(MalformedData)
      else s.out.Ok?
  {
    hide RangeReplies, U64Value;
    if |payload| >= 16 {
      RepliesFail(c, U64Value(payload[..8]), U64Value(payload[8..16]));
    }
  }

  lemma MsrFails(c: Core, now: nat, path: u32, f: Wire.WireFrame)
    ensures var s := HandleMsr(c, now, path, f);
      if |f.payload| < 16 then s.out == Err(MalformedMsr)
      else if FirstTlvFault(f.tlvs).Some? then s.out == Err(FirstTlvFault(f.tlvs).value)
      else s.out.Ok?
  {
    hide HandleTlvs, HandleMsrSignal, U64Value, FirstTlvFault;
    TlvsFail(c, path, f.tlvs);
  }

  lemma DispatchFails(c: Core, now: nat, path: u32, f: Wire.WireFrame)
    requires ReceiverInv(c)
    ensures var s := Dispatch(c, now, path, f);
      if FrameFault(c, f).Some? then s.out == Err(FrameFault(c, f).value) else s.out.Ok?
  {
    hide HandleMsr, HandleRequestRange, HandleFragment, Accept, AsksForTooMuch, BadPart, FirstTlvFault, ReceiverInv;
    match f.messageType
    case Msr => MsrFails(c, now, path, f);
    case RequestRange => RangeFails(c, path, f.payload);
    case Fragment => PartFails(c, f.payload);
    case _ =>
  }

  /** In every reachable state, on any bytes that decode and bear the machine's id: the call
      fails if and only if the frame has a fault, and with that fault. */
  lemma DatagramFaults(role: Role, cid: u64, cfg: Config, inputs: seq<Input>, now: nat, path: u32, bytes: Bytes)
    requires Hears(Run(Start(role, cid, cfg), inputs).core, bytes)
    ensures var c := Run(Start(role, cid, cfg), inputs).core;
      var fault := FrameFault(c, Wire.Decode(bytes).value);
      var s := OnDatagram(c, now, path, bytes);
      if fault.Some? then s.out == Err(fault.value) else s.out.Ok?
  {
    hide Run, Wire.Decode, Dispatch, FrameFault, ReceiverInv;
    EveryRunIsSafe(role, cid, cfg, inputs);
    var c := Run(Start(role, cid, cfg), inputs).core;
    var f := Wire.Decode(bytes).value;
    var a := Arrive(c, now, path);
    ArrivesAlike(c, now, path, f);
    DispatchFails(a, now, path, f);
    PiggybackSucceeds(Dispatch(a, now, path, f).core, now, path, f);
  }

  /** The fault of a frame does not depend on when and where it arrives. */
  lemma ArrivesAlike(c: Core, now: nat, path: u32, f: Wire.WireFrame)
    requires ReceiverInv(c)
    ensures var a := Arrive(c, now, path); ReceiverInv(a) && FrameFault(a, f) == FrameFault(c, f)
  {
    hide FirstTlvFault;
    var a := Arrive(c, now, path);
    ReceiverInvTransfers(c, a);
    forall start: nat, end: u64
      ensures AsksForTooMuch(a, start, end) <==> AsksForTooMuch(c, start, end)
    {
    }
  }

  lemma PiggybackSucceeds(c: Core, now: nat, path: u32, f: Wire.WireFrame)
    ensures Piggyback(c, now, path, f).out.Ok?
  {
    hide FindSignalTlv;
  }
}
