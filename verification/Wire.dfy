/** The V3 datagram format (v3-wire): a fixed header, a payload, and a block of TLVs.

    `Encode` and `Decode` are the specification; `EncodeFrame` and `DecodeFrame` are the
    buffer-filling and cursor-advancing procedures of the codec, proved to compute them. */
module Wire {
  import opened ByteOrder
  import opened Wrappers

  const WIRE_VERSION_V3: u8 := 0x03
  const HEADER_LEN: nat := 15
  const MAX_TLV_COUNT: nat := 64
  const MAX_TLV_VALUE_LEN: nat := 2048
  const MAX_PAYLOAD_LEN: nat := 64 * 1024

  datatype MessageType =
    ClientHello | ServerHello | HelloAck | Msr | RequestRange | Data | Fragment | Error | Close

  datatype Tlv = Tlv(kind: u8, value: Bytes)

  datatype WireFrame = WireFrame(
    version: u8, messageType: MessageType, flags: u8, cid: u64, payload: Bytes, tlvs: seq<Tlv>)

  datatype WireError =
    | Truncated
    | UnsupportedVersion(version: u8)
    | UnknownMessageType(code: u8)
    | PayloadTooLarge(len: nat)
    | TooManyTlvs(count: nat)
    | TlvTooLarge(len: nat)
    | TlvBlockTooLarge(len: nat)
    | MalformedTlv
    | LengthMismatch(remaining: nat, expected: nat)

  function ToU8(t: MessageType): u8 {
    match t
    case ClientHello => 0x01
    case ServerHello => 0x02
    case HelloAck => 0x03
    case Msr => 0x10
    case RequestRange => 0x11
    case Data => 0x12
    case Fragment => 0x13
    case Error => 0x7e
    case Close => 0x7f
  }

  /** A code is accepted exactly when it is the code of some message type, and then
      yields that type. */
  function FromU8(code: u8): (r: Result<MessageType, WireError>)
    ensures r.Ok? ==> ToU8(r.value) == code
    ensures r.Err? ==> r.error == UnknownMessageType(code) && forall t :: ToU8(t) != code
    ensures forall t :: ToU8(t) == code ==> r == Ok(t)
  {
    if code == 0x01 then Ok(ClientHello)
    else if code == 0x02 then Ok(ServerHello)
    else if code == 0x03 then Ok(HelloAck)
    else if code == 0x10 then Ok(Msr)
    else if code == 0x11 then Ok(RequestRange)
    else if code == 0x12 then Ok(Data)
    else if code == 0x13 then Ok(Fragment)
    else if code == 0x7e then Ok(Error)
    else if code == 0x7f then Ok(Close)
    else Err(UnknownMessageType(code))
  }

  // ---------------------------------------------------------------- TLV block

  predicate TlvsFit(tlvs: seq<Tlv>) {
    forall i :: 0 <= i < |tlvs| ==> |tlvs[i].value| <= MAX_TLV_VALUE_LEN
  }

  function TlvBytes(t: Tlv): (b: Bytes)
    requires |t.value| <= MAX_TLV_VALUE_LEN
    ensures |b| == 3 + |t.value|
  {
    [t.kind] + U16Bytes(|t.value|) + t.value
  }

  function TlvBlock(tlvs: seq<Tlv>): Bytes
    requires TlvsFit(tlvs)
  {
    if tlvs == [] then [] else TlvBytes(tlvs[0]) + TlvBlock(tlvs[1..])
  }

  /** Encoding stops at the first TLV whose value is too long. */
  function EncodeTlvs(tlvs: seq<Tlv>): (r: Result<Bytes, WireError>)
    ensures r.Ok? <==> TlvsFit(tlvs)
    ensures r.Ok? ==> r.value == TlvBlock(tlvs)
  {
    if tlvs == [] then Ok([])
    else if |tlvs[0].value| > MAX_TLV_VALUE_LEN then
      assert !TlvsFit(tlvs);
      Err(TlvTooLarge(|tlvs[0].value|))
    else
      var rest := EncodeTlvs(tlvs[1..]);
      assert TlvsFit(tlvs) <==> TlvsFit(tlvs[1..]) by {
        assert forall i :: 0 < i < |tlvs| ==> tlvs[i] == tlvs[1..][i - 1];
      }
      if rest.Err? then rest else Ok(TlvBytes(tlvs[0]) + rest.value)
  }

  function DecodeTlvs(input: Bytes, already: nat): (r: Result<seq<Tlv>, WireError>)
    decreases |input|
  {
    if input == [] then Ok([])
    else if |input| < 3 then Err(MalformedTlv)
    else if already >= MAX_TLV_COUNT then Err(TooManyTlvs(already))
    else
      var len := U16Value(input[1..3]);
      if len > MAX_TLV_VALUE_LEN then Err(TlvTooLarge(len))
      else if |input| - 3 < len then Err(MalformedTlv)
      else
        var rest := DecodeTlvs(input[3 + len..], already + 1);
        if rest.Err? then rest else Ok([Tlv(input[0], input[3..3 + len])] + rest.value)
  }

  /** Decoding a TLV block gives the TLVs it was made from, and fails on the first one beyond
      the count cap. */
  lemma {:induction false} DecodeTlvsOfBlock(tlvs: seq<Tlv>, already: nat)
    requires TlvsFit(tlvs) && already <= MAX_TLV_COUNT
    ensures DecodeTlvs(TlvBlock(tlvs), already)
         == if already + |tlvs| <= MAX_TLV_COUNT then Ok(tlvs) else Err(TooManyTlvs(MAX_TLV_COUNT))
  {
    if tlvs != [] && already < MAX_TLV_COUNT {
      var t := tlvs[0];
      var input := TlvBlock(tlvs);
      DecodeTlvsOfBlock(tlvs[1..], already + 1);
      assert input == TlvBytes(t) + TlvBlock(tlvs[1..]);
      assert input[1..3] == U16Bytes(|t.value|);
      assert input[3..3 + |t.value|] == t.value;
      assert input[3 + |t.value|..] == TlvBlock(tlvs[1..]);
      assert tlvs == [t] + tlvs[1..];
    } else if tlvs != [] {
      assert TlvBlock(tlvs) == TlvBytes(tlvs[0]) + TlvBlock(tlvs[1..]);
    }
  }

  /** Whatever decodes as a TLV block is the block of what it decodes to, and the cap holds. */
  lemma {:induction false} BlockOfDecodedTlvs(input: Bytes, already: nat)
    requires already <= MAX_TLV_COUNT
    requires DecodeTlvs(input, already).Ok?
    ensures TlvsFit(DecodeTlvs(input, already).value)
    ensures already + |DecodeTlvs(input, already).value| <= MAX_TLV_COUNT
    ensures TlvBlock(DecodeTlvs(input, already).value) == input
    decreases |input|
  {
    hide U16Value, U16Bytes;
    if input != [] {
      var len := U16Value(input[1..3]);
      var t := Tlv(input[0], input[3..3 + len]);
      var rest := input[3 + len..];
      BlockOfDecodedTlvs(rest, already + 1);
      var ts := DecodeTlvs(rest, already + 1).value;
      var all := [t] + ts;
      assert all[1..] == ts;
      ReadThenWrite(input[1..3]);
      assert input == [input[0]] + input[1..3] + input[3..3 + len] + rest;
      assert TlvBytes(t) == [input[0]] + input[1..3] + input[3..3 + len];
      assert TlvBlock(all) == TlvBytes(t) + TlvBlock(ts);
    }
  }

  // -------------------------------------------------------------------- frame

  function Header(f: WireFrame, payloadLen: u16, tlvLen: u16): (h: Bytes)
    ensures |h| == HEADER_LEN
  {
    [f.version, ToU8(f.messageType), f.flags] + U64Bytes(f.cid) + U16Bytes(payloadLen) + U16Bytes(tlvLen)
  }

  function ValidateFrame(f: WireFrame): Result<(), WireError> {
    if f.version != WIRE_VERSION_V3 then Err(UnsupportedVersion(f.version))
    else if |f.payload| > MAX_PAYLOAD_LEN then Err(PayloadTooLarge(|f.payload|))
    else if |f.tlvs| > MAX_TLV_COUNT then Err(TooManyTlvs(|f.tlvs|))
    else Ok(())
  }

  /** The payload length is written modulo 2^16: it is cast to the 16-bit field. */
  function Encode(f: WireFrame): Result<Bytes, WireError> {
    var _ :- ValidateFrame(f);
    var tlvBlock :- EncodeTlvs(f.tlvs);
    if |tlvBlock| > U16_MAX then Err(TlvBlockTooLarge(|tlvBlock|))
    else Ok(Header(f, |f.payload| % 0x1_0000, |tlvBlock|) + f.payload + tlvBlock)
  }

  function Decode(input: Bytes): Result<WireFrame, WireError> {
    if |input| < HEADER_LEN then Err(Truncated)
    else if input[0] != WIRE_VERSION_V3 then Err(UnsupportedVersion(input[0]))
    else
      var messageType :- FromU8(input[1]);
      var payloadLen: nat := U16Value(input[11..13]);
      var tlvLen: nat := U16Value(input[13..15]);
      var remaining := |input| - HEADER_LEN;
      if payloadLen > MAX_PAYLOAD_LEN then Err(PayloadTooLarge(payloadLen))
      else if remaining != payloadLen + tlvLen then Err(LengthMismatch(remaining, payloadLen + tlvLen))
      else
        var tlvs :- DecodeTlvs(input[15 + payloadLen..], 0);
        Ok(WireFrame(input[0], messageType, input[2], U64Value(input[3..11]), input[15..15 + payloadLen], tlvs))
  }

  lemma HeaderFields(f: WireFrame, payloadLen: u16, tlvLen: u16, rest: Bytes)
    ensures var b := Header(f, payloadLen, tlvLen) + rest;
      && b[0] == f.version && b[1] == ToU8(f.messageType) && b[2] == f.flags
      && b[3..11] == U64Bytes(f.cid)
      && b[11..13] == U16Bytes(payloadLen)
      && b[13..15] == U16Bytes(tlvLen)
      && b[15..] == rest
  {
  }

  /** For every frame that encodes, decoding the bytes gives the frame back if and only if
      its payload length fits the 16-bit length field. */
  lemma DecodeOfEncode(f: WireFrame)
    requires Encode(f).Ok?
    ensures Decode(Encode(f).value) == Ok(f) <==> |f.payload| <= U16_MAX
    ensures |Encode(f).value| == HEADER_LEN + |f.payload| + |TlvBlock(f.tlvs)|
  {
    hide U16Value, U16Bytes, U64Value, U64Bytes, Header, TlvBlock, DecodeTlvs;
    var b := Encode(f).value;
    var tlvBlock := TlvBlock(f.tlvs);
    var payloadLen: u16 := |f.payload| % 0x1_0000;
    assert b == Header(f, payloadLen, |tlvBlock|) + (f.payload + tlvBlock);
    HeaderFields(f, payloadLen, |tlvBlock|, f.payload + tlvBlock);
    if |f.payload| <= U16_MAX {
      DecodeTlvsOfBlock(f.tlvs, 0);
      assert b[15..15 + payloadLen] == f.payload;
      assert b[15 + payloadLen..] == tlvBlock;
    }
  }

  /** The frame the round trip fails on: an admitted payload of exactly 2^16 bytes, whose
      length is written as 0, is refused on decoding. */
  lemma FullPayloadDoesNotRoundTrip(cid: u64)
    ensures var f := WireFrame(WIRE_VERSION_V3, Data, 0, cid, seq(0x1_0000, _ => 0), []);
      Encode(f).Ok? && Decode(Encode(f).value) == Err(LengthMismatch(0x1_0000, 0))
  {
    var f := WireFrame(WIRE_VERSION_V3, Data, 0, cid, seq(0x1_0000, _ => 0), []);
    assert Encode(f) == Ok(Header(f, 0, 0) + f.payload + []);
    HeaderFields(f, 0, 0, f.payload);
    assert Header(f, 0, 0) + f.payload + [] == Header(f, 0, 0) + f.payload;
  }

  /** Every byte string that decodes is the encoding of what it decodes to; so no two
      byte strings decode to the same frame. */
  lemma EncodeOfDecode(input: Bytes)
    requires Decode(input).Ok?
    ensures Encode(Decode(input).value) == Ok(input)
    ensures |Decode(input).value.tlvs| <= MAX_TLV_COUNT
  {
    hide U16Value, U64Value, U16Bytes, U64Bytes, DecodeTlvs, TlvBlock, Header;
    var f := Decode(input).value;
    var payloadLen := U16Value(input[11..13]);
    var block := input[15 + payloadLen..];
    BlockOfDecodedTlvs(block, 0);
    HeaderOfDecoded(input, f);
    assert (input[..15] + input[15..15 + payloadLen]) + block == input;
  }

  lemma HeaderOfDecoded(input: Bytes, f: WireFrame)
    requires |input| >= HEADER_LEN
    requires ToU8(f.messageType) == input[1]
    requires f.version == input[0] && f.flags == input[2] && f.cid == U64Value(input[3..11])
    ensures Header(f, U16Value(input[11..13]), U16Value(input[13..15])) == input[..15]
  {
    ReadThenWrite(input[3..11]);
    ReadThenWrite(input[11..13]);
    ReadThenWrite(input[13..15]);
    assert input[..15] == input[..3] + input[3..11] + input[11..13] + input[13..15];
    assert input[..3] == [f.version, ToU8(f.messageType), f.flags];
  }

  lemma DecodeIsInjective(a: Bytes, b: Bytes)
    requires Decode(a).Ok? && Decode(a) == Decode(b)
    ensures a == b
  {
    EncodeOfDecode(a);
    EncodeOfDecode(b);
  }

  // -------------------------------------------------------------- procedures

  lemma {:induction false} EncodeTlvsStep(tlvs: seq<Tlv>, i: nat)
    requires i < |tlvs| && TlvsFit(tlvs[..i])
    ensures |tlvs[i].value| > MAX_TLV_VALUE_LEN ==> EncodeTlvs(tlvs) == Err(TlvTooLarge(|tlvs[i].value|))
    ensures |tlvs[i].value| <= MAX_TLV_VALUE_LEN ==>
      TlvsFit(tlvs[..i + 1]) && TlvBlock(tlvs[..i + 1]) == TlvBlock(tlvs[..i]) + TlvBytes(tlvs[i])
  {
    if i > 0 {
      assert tlvs[..i][0] == tlvs[0];
      assert tlvs[1..][..i - 1] == tlvs[..i][1..];
      EncodeTlvsStep(tlvs[1..], i - 1);
      assert tlvs[1..][..i] == tlvs[..i + 1][1..];
    } else {
      assert tlvs[..1][1..] == [] == tlvs[..0];
      if |tlvs[0].value| <= MAX_TLV_VALUE_LEN {
        assert TlvBlock(tlvs[..1]) == TlvBytes(tlvs[0]) + TlvBlock([]);
      }
    }
  }

  method EncodeFrame(f: WireFrame) returns (r: Result<Bytes, WireError>)
    ensures r == Encode(f)
  {
    var valid := ValidateFrame(f);
    if valid.Err? {
      return Err(valid.error);
    }
    var payloadLen: u16 := |f.payload| % 0x1_0000;
    var tlvBlock: Bytes := [];
    var i := 0;
    while i < |f.tlvs|
      invariant 0 <= i <= |f.tlvs|
      invariant TlvsFit(f.tlvs[..i]) && tlvBlock == TlvBlock(f.tlvs[..i])
    {
      EncodeTlvsStep(f.tlvs, i);
      var tlv := f.tlvs[i];
      if |tlv.value| > MAX_TLV_VALUE_LEN {
        return Err(TlvTooLarge(|tlv.value|));
      }
      tlvBlock := tlvBlock + ([tlv.kind] + U16Bytes(|tlv.value|) + tlv.value);
      i := i + 1;
    }
    assert f.tlvs[..i] == f.tlvs;
    if |tlvBlock| > U16_MAX {
      return Err(TlvBlockTooLarge(|tlvBlock|));
    }
    var out: Bytes := [f.version, ToU8(f.messageType), f.flags];
    out := out + U64Bytes(f.cid);
    out := out + U16Bytes(payloadLen);
    out := out + U16Bytes(|tlvBlock|);
    out := out + f.payload;
    out := out + tlvBlock;
    return Ok(out);
  }

  function Prepend(done: seq<Tlv>, r: Result<seq<Tlv>, WireError>): Result<seq<Tlv>, WireError> {
    if r.Err? then r else Ok(done + r.value)
  }

  method DecodeTlvBlock(block: Bytes) returns (r: Result<seq<Tlv>, WireError>)
    ensures r == DecodeTlvs(block, 0)
    ensures r.Ok? ==> |r.value| <= MAX_TLV_COUNT
  {
    var input := block;
    var out: seq<Tlv> := [];
    ghost var all := DecodeTlvs(block, 0);
    assert all.Ok? ==> [] + all.value == all.value;
    while input != []
      invariant DecodeTlvs(block, 0) == Prepend(out, DecodeTlvs(input, |out|))
      invariant |out| <= MAX_TLV_COUNT
      decreases |input|
    {
      if |input| < 3 {
        return Err(MalformedTlv);
      }
      if |out| >= MAX_TLV_COUNT {
        return Err(TooManyTlvs(|out|));
      }
      var kind := input[0];
      var len := U16Value(input[1..3]);
      if len > MAX_TLV_VALUE_LEN {
        return Err(TlvTooLarge(len));
      }
      if |input| - 3 < len {
        return Err(MalformedTlv);
      }
      var value := input[3..3 + len];
      ghost var rest := DecodeTlvs(input[3 + len..], |out| + 1);
      assert rest.Ok? ==> out + ([Tlv(kind, value)] + rest.value) == (out + [Tlv(kind, value)]) + rest.value;
      input := input[3 + len..];
      out := out + [Tlv(kind, value)];
    }
    assert out + [] == out;
    return Ok(out);
  }

  method DecodeFrame(input: Bytes) returns (r: Result<WireFrame, WireError>)
    ensures r == Decode(input)
  {
    if |input| < HEADER_LEN {
      return Err(Truncated);
    }
    var buf := input;
    var version := buf[0];
    if version != WIRE_VERSION_V3 {
      return Err(UnsupportedVersion(version));
    }
    var messageType := FromU8(buf[1]);
    if messageType.Err? {
      return Err(messageType.error);
    }
    var flags := buf[2];
    var cid := U64Value(buf[3..11]);
    var payloadLen := U16Value(buf[11..13]);
    var tlvLen := U16Value(buf[13..15]);
    // No check against MAX_PAYLOAD_LEN is needed: a 16-bit length never exceeds it.
    assert payloadLen <= MAX_PAYLOAD_LEN;
    buf := buf[15..];
    if |buf| != payloadLen + tlvLen {
      return Err(LengthMismatch(|buf|, payloadLen + tlvLen));
    }
    var payload := buf[..payloadLen];
    assert payload == input[15..15 + payloadLen];
    buf := buf[payloadLen..];
    assert buf[..tlvLen] == input[15 + payloadLen..];
    var tlvs := DecodeTlvBlock(buf[..tlvLen]);
    if tlvs.Err? {
      return Err(tlvs.error);
    }
    return Ok(WireFrame(version, messageType.value, flags, cid, payload, tlvs.value));
  }
}
