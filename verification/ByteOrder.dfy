/** Fixed-width unsigned integers, their saturating arithmetic and their big-endian byte forms,
    as the codecs of the wire format and of the protocol payloads use them. */
module ByteOrder {
  type u8 = x: int | 0 <= x < 0x100
  type u16 = x: int | 0 <= x < 0x1_0000
  type u32 = x: int | 0 <= x < 0x1_0000_0000
  type u64 = x: int | 0 <= x < 0x1_0000_0000_0000_0000

  const U16_MAX: u16 := 0xFFFF
  const U32_MAX: u32 := 0xFFFF_FFFF
  const U64_MAX: u64 := 0xFFFF_FFFF_FFFF_FFFF

  type Bytes = seq<u8>

  function SatAdd(a: u64, b: u64): u64 {
    if a + b > U64_MAX then U64_MAX else a + b
  }

  function SatMul(a: u64, b: u64): u64 {
    if a * b > U64_MAX then U64_MAX else a * b
  }

  function Pow2(n: nat): (p: nat)
    ensures p > 0
  {
    if n == 0 then 1 else 2 * Pow2(n - 1)
  }

  /** Bit `i` of a number. */
  predicate Bit(word: nat, i: nat) {
    if i == 0 then word % 2 == 1 else Bit(word / 2, i - 1)
  }

  function Pow256(n: nat): (p: nat)
    ensures p > 0
  {
    if n == 0 then 1 else 256 * Pow256(n - 1)
  }

  /** The number a big-endian byte string denotes. */
  function BeValue(b: Bytes): (v: nat)
    ensures v < Pow256(|b|)
  {
    if b == [] then 0 else 256 * BeValue(b[..|b| - 1]) + b[|b| - 1]
  }

  /** The big-endian byte string of a given width that denotes `v`. */
  function BeBytes(v: nat, width: nat): (b: Bytes)
    requires v < Pow256(width)
    ensures |b| == width
  {
    if width == 0 then [] else BeBytes(v / 256, width - 1) + [v % 256]
  }

  lemma {:induction false} BeValueOfBytes(v: nat, width: nat)
    requires v < Pow256(width)
    ensures BeValue(BeBytes(v, width)) == v
  {
    if width > 0 {
      BeValueOfBytes(v / 256, width - 1);
      var b := BeBytes(v, width);
      assert b[..|b| - 1] == BeBytes(v / 256, width - 1);
    }
  }

  /** The digits before the last, and the last. */
  lemma LastDigit(v: nat, d: u8)
    ensures (256 * v + d) / 256 == v && (256 * v + d) % 256 == d
  {
  }

  lemma {:induction false} BeBytesOfValue(b: Bytes)
    ensures BeBytes(BeValue(b), |b|) == b
  {
    if b != [] {
      var front, last := b[..|b| - 1], b[|b| - 1];
      BeBytesOfValue(front);
      LastDigit(BeValue(front), last);
      assert BeValue(b) == 256 * BeValue(front) + last;
      assert BeBytes(BeValue(b), |b|) == BeBytes(BeValue(front), |front|) + [last];
      assert b == front + [last];
    }
  }

  lemma Widths()
    ensures Pow256(1) == 0x100
    ensures Pow256(2) == 0x1_0000
    ensures Pow256(4) == 0x1_0000_0000
    ensures Pow256(8) == 0x1_0000_0000_0000_0000
  {
    assert Pow256(0) == 1;
    assert Pow256(1) == 256 * Pow256(0);
    assert Pow256(2) == 256 * Pow256(1);
    assert Pow256(3) == 256 * Pow256(2);
    assert Pow256(4) == 256 * Pow256(3);
    assert Pow256(5) == 256 * Pow256(4);
    assert Pow256(6) == 256 * Pow256(5);
    assert Pow256(7) == 256 * Pow256(6);
    assert Pow256(8) == 256 * Pow256(7);
  }

  function U16Bytes(v: u16): (b: Bytes)
    ensures |b| == 2 && U16Value(b) == v
  {
    Widths();
    BeValueOfBytes(v, 2);
    BeBytes(v, 2)
  }

  function U16Value(b: Bytes): (v: u16)
    requires |b| == 2
  {
    Widths();
    BeValue(b)
  }

  function U32Bytes(v: u32): (b: Bytes)
    ensures |b| == 4 && U32Value(b) == v
  {
    Widths();
    BeValueOfBytes(v, 4);
    BeBytes(v, 4)
  }

  function U32Value(b: Bytes): (v: u32)
    requires |b| == 4
  {
    Widths();
    BeValue(b)
  }

  function U64Bytes(v: u64): (b: Bytes)
    ensures |b| == 8 && U64Value(b) == v
  {
    Widths();
    BeValueOfBytes(v, 8);
    BeBytes(v, 8)
  }

  function U64Value(b: Bytes): (v: u64)
    requires |b| == 8
  {
    Widths();
    BeValue(b)
  }

  /** Writing back what was read gives the same bytes, at each of the three widths. */
  lemma ReadThenWrite(b: Bytes)
    ensures |b| == 2 ==> U16Bytes(U16Value(b)) == b
    ensures |b| == 4 ==> U32Bytes(U32Value(b)) == b
    ensures |b| == 8 ==> U64Bytes(U64Value(b)) == b
  {
    Widths();
    BeBytesOfValue(b);
  }
}
