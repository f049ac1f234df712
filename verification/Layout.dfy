/** Where each byte of a datagram stands, told position by position: the fixed points the codec
    and its round trips are measured against. */
module Layout {
  import opened ByteOrder
  import opened Wrappers
  import opened Protocol
  import Wire

  lemma ValueUnfolds(b: Bytes)
    requires b != []
    ensures BeValue(b) == 256 * BeValue(b[..|b| - 1]) + b[|b| - 1]
    ensures BeValue([]) == 0
  {
  }

  /** Numbers stand most significant byte first. */
  lemma MostSignificantFirst(b: Bytes)
    ensures |b| == 2 ==> U16Value(b) == 0x100 * (b[0] as nat) + b[1]
    ensures |b| == 4 ==> U32Value(b) == 0x1_0000 * U16Value(b[..2]) + U16Value(b[2..])
    ensures |b| == 8 ==> U64Value(b) == 0x1_0000_0000 * U32Value(b[..4]) + U32Value(b[4..])
  {
    hide BeValue;
    if |b| == 2 {
      TwoDigits([], b);
      assert [] + b == b;
      ValueUnfolds([0]);
    } else if |b| == 4 {
      FourDigits(b[..2], b[2..]);
      TwoDigits([], b[2..]);
      assert [] + b[2..] == b[2..] && b[..2] + b[2..] == b;
      ValueUnfolds([0]);
    } else if |b| == 8 {
      EightDigits(b[..4], b[4..]);
      assert b[..4] + b[4..] == b;
    }
  }

  lemma TwoDigits(a: Bytes, b: Bytes)
    requires |b| == 2
    ensures BeValue(a + b) == 0x1_0000 * BeValue(a) + (0x100 * (b[0] as nat) + b[1])
  {
    hide BeValue;
    ValueUnfolds(a + b);
    assert (a + b)[..|a| + 1] == a + [b[0]];
    ValueUnfolds(a + [b[0]]);
    assert (a + [b[0]])[..|a|] == a;
  }

  lemma FourDigits(a: Bytes, b: Bytes)
    requires |b| == 2
    ensures BeValue(a + b) == 0x1_0000 * BeValue(a) + BeValue(b)
  {
    hide BeValue;
    TwoDigits(a, b);
    TwoDigits([], b);
    assert [] + b == b;
    ValueUnfolds([0]);
  }

  lemma EightDigits(a: Bytes, b: Bytes)
    requires |b| == 4
    ensures BeValue(a + b) == 0x1_0000_0000 * BeValue(a) + BeValue(b)
  {
    hide BeValue;
    var high, low := b[..2], b[2..];
    assert b == high + low && a + b == (a + high) + low;
    FourDigits(a + high, low);
    FourDigits(a, high);
    FourDigits(high, low);
  }

  /** A frame that encodes: version, type, flags, 64-bit id, two 16-bit lengths, payload, and
      the TLVs behind it, each a type, a 16-bit length and that many bytes. */
  lemma FrameLayout(f: Wire.WireFrame)
    requires Wire.Encode(f).Ok?
    ensures var b := Wire.Encode(f).value;
      var n := |f.payload|;
      && |b| >= 15 + n
      && b[0] == 0x03 && b[1] == Wire.ToU8(f.messageType) && b[2] == f.flags
      && U64Value(b[3..11]) == f.cid
      && U16Value(b[11..13]) == n % 0x1_0000 && U16Value(b[13..15]) == |b| - 15 - n
      && b[15..15 + n] == f.payload
      && (f.tlvs == [] ==> |b| == 15 + n)
      && (f.tlvs != [] ==>
            var t := f.tlvs[0];
            && |b| >= 15 + n + 3 + |t.value|
            && b[15 + n] == t.kind && U16Value(b[15 + n + 1..15 + n + 3]) == |t.value|
            && b[15 + n + 3..15 + n + 3 + |t.value|] == t.value)
  {
    hide U16Value, U16Bytes, U64Value, U64Bytes;
    var block := Wire.EncodeTlvs(f.tlvs).value;
    var h := Wire.Header(f, |f.payload| % 0x1_0000, |block|);
    var b := Wire.Encode(f).value;
    assert b == h + f.payload + block;
    HeaderSlices(h, f.payload + block, f);
    assert b == h + (f.payload + block);
    assert h[11..13] == U16Bytes(|f.payload| % 0x1_0000) && h[13..15] == U16Bytes(|block|);
    assert b[15..15 + |f.payload|] == f.payload;
    if f.tlvs != [] {
      var t := f.tlvs[0];
      var first := Wire.TlvBytes(t);
      assert block == first + Wire.TlvBlock(f.tlvs[1..]);
      assert first[1..3] == U16Bytes(|t.value|) && first[3..] == t.value;
      var at := 15 + |f.payload|;
      assert b[at..] == block;
      assert b[at + 1..at + 3] == block[1..3] == first[1..3];
      assert b[at + 3..at + 3 + |t.value|] == block[3..3 + |t.value|] == first[3..];
    }
  }

  lemma HeaderSlices(h: Bytes, rest: Bytes, f: Wire.WireFrame)
    requires |h| == 15 && h[3..11] == U64Bytes(f.cid)
    ensures var b := h + rest;
      b[3..11] == h[3..11] && b[11..13] == h[11..13] && b[13..15] == h[13..15] && b[..3] == h[..3]
  {
  }

  /** The codes of the message types. */
  lemma TypeCodes()
    ensures Wire.ToU8(Wire.ClientHello) == 0x01 && Wire.ToU8(Wire.ServerHello) == 0x02
    ensures Wire.ToU8(Wire.HelloAck) == 0x03
    ensures Wire.ToU8(Wire.Msr) == 0x10 && Wire.ToU8(Wire.RequestRange) == 0x11
    ensures Wire.ToU8(Wire.Data) == 0x12 && Wire.ToU8(Wire.Fragment) == 0x13
    ensures Wire.ToU8(Wire.Error) == 0x7e && Wire.ToU8(Wire.Close) == 0x7f
  {
  }

  /** What a machine sends, behind the header: two numbers, or an id and a message or a part of
      one; then a proposal, an answer or a signal. */
  lemma MessageLayout(m: Msg)
    ensures m.Status? ==>
      |Body(m)| == 16 && U64Value(Body(m)[..8]) == m.acked && U64Value(Body(m)[8..16]) == m.nextPending
    ensures m.Pull? ==>
      |Body(m)| == 16 && U64Value(Body(m)[..8]) == m.start && U64Value(Body(m)[8..16]) == m.end
    ensures m.Status? && m.reneg.Propose? ==>
      var v := Tlvs(m)[0].value;
      && |Tlvs(m)| == 1 && Tlvs(m)[0].kind == 0x30 && |v| == 28 && U32Value(v[..4]) == m.reneg.proposalId
      && U64Value(v[4..12]) == m.reneg.proposal.msrIntervalMs && U64Value(v[12..20]) == m.reneg.proposal.missWindowCount
      && U64Value(v[20..28]) == m.reneg.proposal.disconnectWindowMs
    ensures m.Status? && m.reneg.Ack? ==>
      var v := Tlvs(m)[0].value;
      && |Tlvs(m)| == 1 && Tlvs(m)[0].kind == 0x31 && |v| == 5 && U32Value(v[..4]) == m.reneg.proposalId
      && v[4] == if m.reneg.accepted then 1 else 0
    ensures m.Pull? || m.Whole? || m.Part? ==>
      var v := Tlvs(m)[0].value;
      && |Tlvs(m)| == 1 && Tlvs(m)[0].kind == 0x32 && |v| == 16
      && U64Value(v[..8]) == m.acked && U64Value(v[8..16]) == m.nextPending
    ensures m.Status? && m.reneg.NoReneg? ==> Tlvs(m) == []
  {
    hide U16Value, U16Bytes, U32Value, U32Bytes, U64Value, U64Bytes;
    match m
    case Status(acked, next, reneg) =>
      PairLayout(acked, next);
      match reneg {
        case Propose(id, p) => ProposalLayout(id, p);
        case Ack(id, accepted) => AnswerLayout(id, accepted);
        case NoReneg =>
      }
    case Pull(start, end, acked, next) =>
      PairLayout(start, end);
      PairLayout(acked, next);
    case Whole(_, _, acked, next) => PairLayout(acked, next);
    case Part(_, _, _, _, acked, next) => PairLayout(acked, next);
    case _ =>
  }

  /** Of several signal TLVs the first decides, even if it is too short to be read. */
  lemma {:induction false} FirstSignalDecides(tlvs: seq<Wire.Tlv>, i: nat)
    requires i <= |tlvs| && forall j :: 0 <= j < i ==> tlvs[j].kind != 0x32
    ensures i == |tlvs| ==> FindSignalTlv(tlvs) == None
    ensures i < |tlvs| && tlvs[i].kind == 0x32 ==>
      FindSignalTlv(tlvs) == (if |tlvs[i].value| < 16 then None
                              else Some((U64Value(tlvs[i].value[..8]), U64Value(tlvs[i].value[8..16]))))
  {
    hide U64Value;
    if i > 0 {
      assert forall j :: 0 <= j < i - 1 ==> tlvs[1..][j] == tlvs[j + 1];
      FirstSignalDecides(tlvs[1..], i - 1);
    }
  }

  lemma PairLayout(a: u64, b: u64)
    ensures var p := EncodePair(a, b); U64Value(p[..8]) == a && U64Value(p[8..16]) == b
  {
    hide U64Value, U64Bytes;
    var p := U64Bytes(a) + U64Bytes(b);
    assert p[..8] == U64Bytes(a) && p[8..16] == U64Bytes(b);
  }

  lemma ProposalLayout(id: u32, p: TimerProposal)
    ensures var v := EncodeProposalTlv(id, p).value;
      && U32Value(v[..4]) == id && U64Value(v[4..12]) == p.msrIntervalMs
      && U64Value(v[12..20]) == p.missWindowCount && U64Value(v[20..28]) == p.disconnectWindowMs
  {
    hide U32Value, U32Bytes, U64Value, U64Bytes;
    var v := EncodeProposalTlv(id, p).value;
    assert v[..4] == U32Bytes(id);
    assert v[4..12] == U64Bytes(p.msrIntervalMs);
    assert v[12..20] == U64Bytes(p.missWindowCount);
    assert v[20..28] == U64Bytes(p.disconnectWindowMs);
  }

  lemma AnswerLayout(id: u32, accepted: bool)
    ensures var v := EncodeAckTlv(id, accepted).value; U32Value(v[..4]) == id && v[4] == if accepted then 1 else 0
  {
    hide U32Value, U32Bytes;
    var v := EncodeAckTlv(id, accepted).value;
    assert v[..4] == U32Bytes(id);
  }

  /** One frame in full, byte for byte. */
  lemma GoldenVector()
    ensures Wire.Encode(Wire.WireFrame(0x03, Wire.ClientHello, 0x00, 0x1111_2222_3333_4444, [0xaa, 0xbb],
                                       [Wire.Tlv(0x09, [0x01, 0x02, 0x03])]))
         == Ok([0x03, 0x01, 0x00, 0x11, 0x11, 0x22, 0x22, 0x33, 0x33, 0x44, 0x44, 0x00, 0x02, 0x00, 0x06,
                0xaa, 0xbb, 0x09, 0x00, 0x03, 0x01, 0x02, 0x03])
  {
    hide U16Bytes, U64Bytes;
    Digits();
    var t := Wire.Tlv(0x09, [0x01, 0x02, 0x03]);
    var f := Wire.WireFrame(0x03, Wire.ClientHello, 0x00, 0x1111_2222_3333_4444, [0xaa, 0xbb], [t]);
    assert f.tlvs[1..] == [];
    assert Wire.TlvsFit(f.tlvs);
    assert Wire.TlvBlock(f.tlvs) == Wire.TlvBytes(t) + Wire.TlvBlock([]);
    var block: Bytes := [0x09, 0x00, 0x03, 0x01, 0x02, 0x03];
    assert Wire.TlvBytes(t) == block;
    assert Wire.TlvBlock(f.tlvs) == block;
    var header: Bytes :=
      [0x03, 0x01, 0x00, 0x11, 0x11, 0x22, 0x22, 0x33, 0x33, 0x44, 0x44, 0x00, 0x02, 0x00, 0x06];
    assert Wire.Header(f, 2, 6) == header;
    var all: Bytes := [0x03, 0x01, 0x00, 0x11, 0x11, 0x22, 0x22, 0x33, 0x33, 0x44, 0x44, 0x00, 0x02, 0x00, 0x06,
                       0xaa, 0xbb, 0x09, 0x00, 0x03, 0x01, 0x02, 0x03];
    assert header + f.payload + block == all;
    assert |f.payload| % 0x1_0000 == 2 && |block| == 6;
    assert Wire.EncodeTlvs(f.tlvs) == Ok(block);
    assert Wire.ValidateFrame(f).Ok?;
  }

  lemma Digits()
    ensures U16Bytes(2) == [0x00, 0x02] && U16Bytes(3) == [0x00, 0x03] && U16Bytes(6) == [0x00, 0x06]
    ensures U64Bytes(0x1111_2222_3333_4444) == [0x11, 0x11, 0x22, 0x22, 0x33, 0x33, 0x44, 0x44]
  {
    hide U16Bytes, U16Value, U32Value, U64Bytes, U64Value;
    TwoBytes(0x00, 0x02);
    TwoBytes(0x00, 0x03);
    TwoBytes(0x00, 0x06);
    var b: Bytes := [0x11, 0x11, 0x22, 0x22, 0x33, 0x33, 0x44, 0x44];
    TwoBytes(0x11, 0x11);
    TwoBytes(0x22, 0x22);
    TwoBytes(0x33, 0x33);
    TwoBytes(0x44, 0x44);
    MostSignificantFirst(b[..4]);
    MostSignificantFirst(b[4..]);
    MostSignificantFirst(b);
    assert b[..4][..2] == [0x11, 0x11] && b[..4][2..] == [0x22, 0x22];
    assert b[4..][..2] == [0x33, 0x33] && b[4..][2..] == [0x44, 0x44];
    ReadThenWrite(b);
  }

  lemma TwoBytes(high: u8, low: u8)
    ensures U16Value([high, low]) == 0x100 * (high as nat) + low
    ensures U16Bytes(0x100 * (high as nat) + low) == [high, low]
  {
    hide U16Bytes, U16Value;
    MostSignificantFirst([high, low]);
    ReadThenWrite([high, low]);
  }
}
