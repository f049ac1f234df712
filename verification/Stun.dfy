/** The STUN success-response parser of v3-nat: a scan over type-length-value attributes for
    the first XOR-MAPPED-ADDRESS (sections 15 and 15.2 of RFC 5389). */
module Stun {
  import opened ByteOrder
  import opened Wrappers

  const XOR_MAPPED_ADDRESS: u16 := 0x0020
  const COOKIE: Bytes := [0x21, 0x12, 0xA4, 0x42]
  const COOKIE_HIGH: u16 := 0x2112
  const STUN_HEADER_LEN: nat := 20

  datatype NatError = InvalidStunPacket | UnsupportedStunFamily

  datatype Binding = Binding(ip: Bytes, port: u16, txId: Bytes)

  // ---------------------------------------------------------------------- exclusive or

  /** Bitwise exclusive or of the low `width` bits. */
  function Xor(a: nat, b: nat, width: nat): (x: nat)
    ensures x < Pow2(width)
    decreases width
  {
    if width == 0 then 0 else 2 * Xor(a / 2, b / 2, width - 1) + (a % 2 + b % 2) % 2
  }

  /** One step of the recursion: the low bit and the remaining bits. */
  lemma XorBits(a: nat, b: nat, width: nat)
    requires width > 0
    ensures var x := Xor(a, b, width);
      x / 2 == Xor(a / 2, b / 2, width - 1) && x % 2 == (a % 2 + b % 2) % 2
  {
  }

  lemma ParityCancels(a: nat, b: nat, x: nat, y: nat)
    requires x % 2 == (a % 2 + b % 2) % 2 && y % 2 == (x % 2 + b % 2) % 2
    requires y / 2 == a / 2
    ensures y == a
  {
  }

  lemma {:induction false} XorCancels(a: nat, b: nat, width: nat)
    requires a < Pow2(width)
    ensures Xor(Xor(a, b, width), b, width) == a
    decreases width
  {
    if width > 0 {
      hide Xor;
      var x := Xor(a, b, width);
      var y := Xor(x, b, width);
      XorBits(a, b, width);
      XorBits(x, b, width);
      XorCancels(a / 2, b / 2, width - 1);
      ParityCancels(a, b, x, y);
    }
  }

  /** Each bit of the exclusive or is set when the two bits differ. */
  lemma {:induction false} XorBitwise(a: nat, b: nat, width: nat, i: nat)
    requires i < width
    ensures Bit(Xor(a, b, width), i) <==> Bit(a, i) != Bit(b, i)
  {
    hide Xor;
    XorBits(a, b, width);
    if i > 0 {
      XorBitwise(a / 2, b / 2, width - 1, i - 1);
    }
  }

  lemma Widths()
    ensures Pow2(8) == 0x100 && Pow2(16) == 0x1_0000
  {
    assert Pow2(4) == 16;
    assert Pow2(8) == 16 * Pow2(4);
    assert Pow2(12) == 16 * Pow2(8);
    assert Pow2(16) == 16 * Pow2(12);
  }

  function Xor8(a: u8, b: u8): (x: u8)
    ensures Xor(x, b, 8) == a
  {
    Widths();
    XorCancels(a, b, 8);
    Xor(a, b, 8)
  }

  function Xor16(a: u16, b: u16): (x: u16)
    ensures Xor(x, b, 16) == a
  {
    Widths();
    XorCancels(a, b, 16);
    Xor(a, b, 16)
  }

  lemma Xor8Twice(a: u8, b: u8)
    ensures Xor8(Xor8(a, b), b) == a
  {
    hide Xor;
  }

  lemma Xor16Twice(a: u16, b: u16)
    ensures Xor16(Xor16(a, b), b) == a
  {
    hide Xor;
  }

  /** Four address bytes against the magic cookie; doing it twice undoes it. */
  function Mask(ip: Bytes): (m: Bytes)
    requires |ip| == 4
    ensures |m| == 4
  {
    [Xor8(ip[0], COOKIE[0]), Xor8(ip[1], COOKIE[1]), Xor8(ip[2], COOKIE[2]), Xor8(ip[3], COOKIE[3])]
  }

  lemma MaskTwice(ip: Bytes)
    requires |ip| == 4
    ensures Mask(Mask(ip)) == ip
  {
    hide Xor, Xor8;
    Xor8Twice(ip[0], COOKIE[0]);
    Xor8Twice(ip[1], COOKIE[1]);
    Xor8Twice(ip[2], COOKIE[2]);
    Xor8Twice(ip[3], COOKIE[3]);
  }

  // ---------------------------------------------------------------------- the parser

  function Padded(len: nat): nat {
    (len + 3) / 4 * 4
  }

  function ReadAddress(value: Bytes, txId: Bytes): Result<Binding, NatError> {
    if |value| < 8 then Err(InvalidStunPacket)
    else if value[1] != 0x01 then Err(UnsupportedStunFamily)
    else Ok(Binding(Mask(value[4..8]), Xor16(U16Value(value[2..4]), COOKIE_HIGH), txId))
  }

  /** The address and port read are the bytes sent, bit by bit against the cookie 0x2112A442. */
  lemma AddressIsUnmasked(value: Bytes, txId: Bytes, i: nat)
    requires |value| >= 8 && value[1] == 0x01
    ensures var r := ReadAddress(value, txId);
      && r.Ok? && r.value.txId == txId && |r.value.ip| == 4
      && (i < 16 ==> (Bit(r.value.port, i) <==> Bit(U16Value(value[2..4]), i) != Bit(0x2112, i)))
      && (i < 8 ==>
            && (Bit(r.value.ip[0], i) <==> Bit(value[4], i) != Bit(0x21, i))
            && (Bit(r.value.ip[1], i) <==> Bit(value[5], i) != Bit(0x12, i))
            && (Bit(r.value.ip[2], i) <==> Bit(value[6], i) != Bit(0xA4, i))
            && (Bit(r.value.ip[3], i) <==> Bit(value[7], i) != Bit(0x42, i)))
  {
    hide Xor, Bit, U16Value;
    if i < 16 {
      XorBitwise(U16Value(value[2..4]), COOKIE_HIGH, 16, i);
    }
    if i < 8 {
      XorBitwise(value[4], COOKIE[0], 8, i);
      XorBitwise(value[5], COOKIE[1], 8, i);
      XorBitwise(value[6], COOKIE[2], 8, i);
      XorBitwise(value[7], COOKIE[3], 8, i);
    }
  }

  function Scan(packet: Bytes, pos: nat, txId: Bytes): Result<Binding, NatError>
    decreases |packet| - pos
  {
    if pos + 4 > |packet| then Err(InvalidStunPacket)
    else
      var kind := U16Value(packet[pos..pos + 2]);
      var len := U16Value(packet[pos + 2..pos + 4]);
      if pos + 4 + len > |packet| then Err(InvalidStunPacket)
      else if kind == XOR_MAPPED_ADDRESS then ReadAddress(packet[pos + 4..pos + 4 + len], txId)
      else Scan(packet, pos + 4 + Padded(len), txId)
  }

  /** The header checks: type, length within the packet, cookie. */
  predicate GoodHeader(packet: Bytes) {
    && |packet| >= STUN_HEADER_LEN
    && packet[0] == 0x01 && packet[1] == 0x01
    && STUN_HEADER_LEN + U16Value(packet[2..4]) <= |packet|
    && packet[4..8] == COOKIE
  }

  function Parse(packet: Bytes): Result<Binding, NatError> {
    if !GoodHeader(packet) then Err(InvalidStunPacket)
    else Scan(packet, STUN_HEADER_LEN, packet[8..20])
  }

  lemma SubSlice(packet: Bytes, pos: nat, len: nat, i: nat, j: nat)
    requires i <= j <= len && pos + len <= |packet|
    ensures packet[pos..pos + len][i..j] == packet[pos + i..pos + j]
  {
    var a, b := packet[pos..pos + len][i..j], packet[pos + i..pos + j];
    assert |a| == |b| == j - i;
    forall k | 0 <= k < j - i
      ensures a[k] == b[k]
    {
      assert a[k] == packet[pos..pos + len][i + k] == packet[pos + (i + k)];
    }
  }

  lemma AddressSlices(packet: Bytes, pos: nat, len: nat)
    requires 8 <= len && pos + len <= |packet|
    ensures var value := packet[pos..pos + len];
      && value[1] == packet[pos + 1]
      && value[2..4] == packet[pos + 2..pos + 4] && value[4..8] == packet[pos + 4..pos + 8]
  {
    SubSlice(packet, pos, len, 2, 4);
    SubSlice(packet, pos, len, 4, 8);
  }

  method ParseBindingSuccess(packet: Bytes) returns (r: Result<Binding, NatError>)
    ensures r == Parse(packet)
  {
    hide Xor, Mask, Xor16, U16Value;
    if |packet| < STUN_HEADER_LEN {
      return Err(InvalidStunPacket);
    }
    if packet[0] != 0x01 || packet[1] != 0x01 {
      return Err(InvalidStunPacket);
    }
    var len := U16Value(packet[2..4]);
    if |packet| < STUN_HEADER_LEN + len {
      return Err(InvalidStunPacket);
    }
    if packet[4..8] != COOKIE {
      return Err(InvalidStunPacket);
    }
    var txId := packet[8..20];
    var pos := STUN_HEADER_LEN;
    while pos + 4 <= |packet|
      invariant Parse(packet) == Scan(packet, pos, txId)
      decreases |packet| - pos
    {
      var attrType := U16Value(packet[pos..pos + 2]);
      var attrLen := U16Value(packet[pos + 2..pos + 4]);
      ghost var start := pos;
      pos := pos + 4;
      if pos + attrLen > |packet| {
        return Err(InvalidStunPacket);
      }
      if attrType == XOR_MAPPED_ADDRESS {
        if attrLen < 8 {
          return Err(InvalidStunPacket);
        }
        AddressSlices(packet, pos, attrLen);
        var family := packet[pos + 1];
        if family != 0x01 {
          return Err(UnsupportedStunFamily);
        }
        var port := Xor16(U16Value(packet[pos + 2..pos + 4]), COOKIE_HIGH);
        return Ok(Binding(Mask(packet[pos + 4..pos + 8]), port, txId));
      }
      pos := pos + Padded(attrLen);
    }
    return Err(InvalidStunPacket);
  }

  // --------------------------------------------------------------------- the encoding

  /** An attribute of another type, with the padding that follows its value. */
  datatype Attribute = Attribute(kind: u16, value: Bytes, padding: Bytes)

  ghost predicate WellFormed(a: Attribute) {
    && a.kind != XOR_MAPPED_ADDRESS
    && |a.value| <= U16_MAX
    && |a.value| + |a.padding| == Padded(|a.value|)
  }

  ghost predicate AllWellFormed(attrs: seq<Attribute>) {
    forall i :: 0 <= i < |attrs| ==> WellFormed(attrs[i])
  }

  function AttributeBytes(a: Attribute): Bytes
    requires |a.value| <= U16_MAX
  {
    U16Bytes(a.kind) + U16Bytes(|a.value|) + a.value + a.padding
  }

  ghost function AttributesBytes(attrs: seq<Attribute>): Bytes
    requires AllWellFormed(attrs)
  {
    if attrs == [] then [] else AttributeBytes(attrs[0]) + AttributesBytes(attrs[1..])
  }

  /** An IPv4 XOR-MAPPED-ADDRESS; the first byte of its value is reserved. */
  function AddressBytes(ip: Bytes, port: u16, reserved: u8): Bytes
    requires |ip| == 4
  {
    U16Bytes(XOR_MAPPED_ADDRESS) + U16Bytes(8) + AddressValue(ip, port, reserved)
  }

  function AddressValue(ip: Bytes, port: u16, reserved: u8): (v: Bytes)
    requires |ip| == 4
    ensures |v| == 8
  {
    [reserved, 0x01] + U16Bytes(Xor16(port, COOKIE_HIGH)) + Mask(ip)
  }

  function HeaderBytes(length: u16, txId: Bytes): Bytes {
    [0x01, 0x01] + U16Bytes(length) + COOKIE + txId
  }

  lemma AddressReadsBack(ip: Bytes, port: u16, reserved: u8, txId: Bytes)
    requires |ip| == 4
    ensures ReadAddress(AddressValue(ip, port, reserved), txId) == Ok(Binding(ip, port, txId))
  {
    hide Xor, Mask, U16Bytes, U16Value;
    var v := AddressValue(ip, port, reserved);
    assert v[2..4] == U16Bytes(Xor16(port, COOKIE_HIGH));
    assert v[4..8] == Mask(ip);
    MaskTwice(ip);
    Xor16Twice(port, COOKIE_HIGH);
  }

  /** From a position where some other attributes, then the address attribute stand, the scan
      finds the address. */
  lemma {:induction false} ScanFinds(packet: Bytes, pos: nat, attrs: seq<Attribute>, value: Bytes, rest: Bytes,
                                     txId: Bytes)
    requires AllWellFormed(attrs) && pos <= |packet| && |value| <= U16_MAX
    requires packet[pos..] == AttributesBytes(attrs) + (U16Bytes(XOR_MAPPED_ADDRESS) + U16Bytes(|value|) + value + rest)
    ensures Scan(packet, pos, txId) == ReadAddress(value, txId)
    decreases |attrs|
  {
    hide U16Bytes, U16Value, ReadAddress;
    var tail := packet[pos..];
    if attrs == [] {
      assert tail[..2] == U16Bytes(XOR_MAPPED_ADDRESS) && tail[2..4] == U16Bytes(|value|);
      assert tail[4..4 + |value|] == value;
      assert packet[pos..pos + 2] == tail[..2] && packet[pos + 2..pos + 4] == tail[2..4];
      assert packet[pos + 4..pos + 4 + |value|] == tail[4..4 + |value|];
    } else {
      var a := attrs[0];
      SkipOne(packet, pos, attrs, U16Bytes(XOR_MAPPED_ADDRESS) + U16Bytes(|value|) + value + rest, txId);
      ScanFinds(packet, pos + 4 + Padded(|a.value|), attrs[1..], value, rest, txId);
    }
  }

  lemma SkipOne(packet: Bytes, pos: nat, attrs: seq<Attribute>, rest: Bytes, txId: Bytes)
    requires AllWellFormed(attrs) && attrs != [] && pos <= |packet|
    requires packet[pos..] == AttributesBytes(attrs) + rest
    ensures var after := pos + 4 + Padded(|attrs[0].value|);
      && after <= |packet|
      && packet[after..] == AttributesBytes(attrs[1..]) + rest
      && Scan(packet, pos, txId) == Scan(packet, after, txId)
  {
    hide U16Bytes, U16Value, ReadAddress, Padded, AttributesBytes;
    var a := attrs[0];
    var own := AttributeBytes(a);
    var after := AttributesBytes(attrs[1..]) + rest;
    FirstAttribute(attrs);
    assert (own + AttributesBytes(attrs[1..])) + rest == own + after;
    SplitAt(packet, pos, own, after);
    assert own[..2] == U16Bytes(a.kind) && own[2..4] == U16Bytes(|a.value|);
    assert packet[pos..pos + 2] == own[..2] && packet[pos + 2..pos + 4] == own[2..4];
  }

  lemma FirstAttribute(attrs: seq<Attribute>)
    requires AllWellFormed(attrs) && attrs != []
    ensures AttributesBytes(attrs) == AttributeBytes(attrs[0]) + AttributesBytes(attrs[1..])
    ensures |AttributeBytes(attrs[0])| == 4 + Padded(|attrs[0].value|)
  {
  }

  lemma SplitAt(packet: Bytes, pos: nat, a: Bytes, b: Bytes)
    requires pos <= |packet| && packet[pos..] == a + b
    ensures pos + |a| <= |packet|
    ensures packet[pos..pos + |a|] == a && packet[pos + |a|..] == b
    ensures |a| >= 4 ==> packet[pos..pos + 2] == a[..2] && packet[pos + 2..pos + 4] == a[2..4]
  {
    var tail := packet[pos..];
    assert tail[..|a|] == a && tail[|a|..] == b;
    assert packet[pos..pos + |a|] == tail[..|a|];
    assert packet[pos + |a|..] == tail[|a|..];
    if |a| >= 4 {
      assert packet[pos..pos + 2] == tail[..2] && packet[pos + 2..pos + 4] == tail[2..4];
    }
  }

  /** For any other attributes before the address, any bytes after it, and any length field
      that stays inside the packet, the parser returns exactly what was encoded. */
  lemma ParserInvertsEncoding(attrs: seq<Attribute>, ip: Bytes, port: u16, reserved: u8, rest: Bytes,
                              length: u16, txId: Bytes)
    requires AllWellFormed(attrs) && |ip| == 4 && |txId| == 12
    requires length <= |AttributesBytes(attrs) + AddressBytes(ip, port, reserved) + rest|
    ensures Parse(HeaderBytes(length, txId) + (AttributesBytes(attrs) + AddressBytes(ip, port, reserved) + rest))
         == Ok(Binding(ip, port, txId))
  {
    hide Xor, Mask, U16Bytes, U16Value, AddressValue, ReadAddress, Scan;
    var body := AttributesBytes(attrs) + AddressBytes(ip, port, reserved) + rest;
    var packet := HeaderBytes(length, txId) + body;
    assert packet[2..4] == U16Bytes(length) && packet[4..8] == COOKIE && packet[8..20] == txId;
    assert packet[20..] == body;
    var value := AddressValue(ip, port, reserved);
    assert body == AttributesBytes(attrs) + (U16Bytes(XOR_MAPPED_ADDRESS) + U16Bytes(8) + value + rest);
    ScanFinds(packet, 20, attrs, value, rest, txId);
    AddressReadsBack(ip, port, reserved, txId);
  }

  /** Conversely, a packet is accepted only if it has that shape: from the header on, other
      attributes, then an address attribute of at least eight bytes and the IPv4 family. */
  lemma {:induction false} ScannedHasShape(packet: Bytes, pos: nat, txId: Bytes)
    returns (attrs: seq<Attribute>, value: Bytes, rest: Bytes)
    requires pos <= |packet| && Scan(packet, pos, txId).Ok?
    ensures AllWellFormed(attrs) && 8 <= |value| <= U16_MAX && value[1] == 0x01
    ensures packet[pos..] == AttributesBytes(attrs) + (U16Bytes(XOR_MAPPED_ADDRESS) + U16Bytes(|value|) + value + rest)
    ensures Scan(packet, pos, txId) == ReadAddress(value, txId)
    decreases |packet| - pos
  {
    hide U16Bytes, U16Value, Padded, Xor, Mask;
    var kind := U16Value(packet[pos..pos + 2]);
    var len := U16Value(packet[pos + 2..pos + 4]);
    ReadThenWrite(packet[pos..pos + 2]);
    ReadThenWrite(packet[pos + 2..pos + 4]);
    if kind == XOR_MAPPED_ADDRESS {
      attrs, value, rest := [], packet[pos + 4..pos + 4 + len], packet[pos + 4 + len..];
      assert packet[pos..] == packet[pos..pos + 2] + packet[pos + 2..pos + 4] + value + rest;
    } else {
      var after := pos + 4 + Padded(len);
      PaddedCovers(len);
      var more: seq<Attribute>;
      more, value, rest := ScannedHasShape(packet, after, txId);
      var a := Attribute(kind, packet[pos + 4..pos + 4 + len], packet[pos + 4 + len..after]);
      attrs := [a] + more;
      assert attrs[1..] == more;
      FirstAttribute(attrs);
      hide AttributesBytes;
      CutAt(packet, pos, len, after);
      Regroup(AttributeBytes(a), AttributesBytes(more),
              U16Bytes(XOR_MAPPED_ADDRESS) + U16Bytes(|value|) + value + rest);
    }
  }

  lemma CutAt(packet: Bytes, pos: nat, len: nat, after: nat)
    requires pos + 4 + len <= after <= |packet|
    ensures packet[pos..] == packet[pos..pos + 2] + packet[pos + 2..pos + 4] + packet[pos + 4..pos + 4 + len]
      + packet[pos + 4 + len..after] + packet[after..]
  {
  }

  lemma Regroup(a: Bytes, b: Bytes, c: Bytes)
    ensures a + (b + c) == (a + b) + c
  {
  }

  lemma PaddedCovers(len: nat)
    ensures len <= Padded(len) < len + 4
  {
  }
}
