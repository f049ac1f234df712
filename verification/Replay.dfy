/** The sliding replay window of v3-crypto: a 128-bit map of recent sequence numbers against
    the plain set of numbers accepted so far. */
module Replay {
  import opened ByteOrder
  import opened Wrappers

  const MAX_WINDOW: nat := 128

  // ----------------------------------------------------- 128-bit words as numbers

  /** The number made of the low `width` bits. */
  function LowBits(word: nat, width: nat): (low: nat)
    ensures low < Pow2(width)
    decreases width
  {
    if width == 0 then 0 else 2 * LowBits(word / 2, width - 1) + word % 2
  }

  /** Shift left in a 128-bit word: bits beyond the word are lost. */
  function ShiftLeft(word: nat, k: nat): (shifted: nat)
    ensures shifted < Pow2(MAX_WINDOW)
  {
    LowBits(word * Pow2(k), MAX_WINDOW)
  }

  /** Set bit `i`, as an OR with a one-bit mask does. */
  function SetBit(word: nat, i: nat): nat {
    if Bit(word, i) then word else word + Pow2(i)
  }

  lemma {:induction false} BitOfZero(i: nat)
    ensures !Bit(0, i)
  {
    if i > 0 {
      BitOfZero(i - 1);
    }
  }

  lemma {:induction false} BitOfShifted(word: nat, k: nat, i: nat)
    ensures Bit(word * Pow2(k), i) <==> i >= k && Bit(word, i - k)
    decreases k
  {
    if k > 0 {
      var half := word * Pow2(k - 1);
      assert word * Pow2(k) == 2 * half by {
        assert word * (2 * Pow2(k - 1)) == 2 * (word * Pow2(k - 1));
      }
      if i > 0 {
        assert Bit(2 * half, i) == Bit(half, i - 1);
        BitOfShifted(word, k - 1, i - 1);
      }
    } else {
      assert word * Pow2(0) == word;
    }
  }

  lemma {:induction false} BitOfLow(word: nat, width: nat, i: nat)
    requires i < width
    ensures Bit(LowBits(word, width), i) <==> Bit(word, i)
    decreases width
  {
    var rest := LowBits(word / 2, width - 1);
    assert (2 * rest + word % 2) / 2 == rest;
    if i > 0 {
      BitOfLow(word / 2, width - 1, i - 1);
    }
  }

  lemma {:induction false} BitOfAdded(word: nat, i: nat, j: nat)
    requires !Bit(word, i)
    ensures Bit(word + Pow2(i), j) <==> j == i || Bit(word, j)
  {
    if i == 0 {
      assert (word + 1) / 2 == word / 2;
    } else {
      assert Pow2(i) == 2 * Pow2(i - 1);
      assert (word + Pow2(i)) / 2 == word / 2 + Pow2(i - 1);
      if j > 0 {
        BitOfAdded(word / 2, i - 1, j - 1);
      }
    }
  }

  lemma BitOfSet(word: nat, i: nat, j: nat)
    ensures Bit(SetBit(word, i), j) <==> j == i || Bit(word, j)
  {
    if !Bit(word, i) {
      BitOfAdded(word, i, j);
    }
  }

  lemma OneFits()
    ensures 1 < Pow2(MAX_WINDOW)
  {
    assert Pow2(MAX_WINDOW) == 2 * Pow2(MAX_WINDOW - 1);
  }

  /** Setting a bit inside the word keeps the word inside its width. */
  lemma {:induction false} SetBitFits(word: nat, i: nat, width: nat)
    requires word < Pow2(width) && i < width
    ensures SetBit(word, i) < Pow2(width)
    decreases width
  {
    Doubles(width);
    if !Bit(word, i) && i > 0 {
      Doubles(i);
      assert word / 2 < Pow2(width - 1) && !Bit(word / 2, i - 1);
      SetBitFits(word / 2, i - 1, width - 1);
    } else if !Bit(word, i) {
      assert Pow2(0) == 1 && word % 2 == 0;
    }
  }

  lemma Doubles(n: nat)
    requires n > 0
    ensures Pow2(n) == 2 * Pow2(n - 1)
  {
  }

  lemma BitOfShiftLeft(word: nat, k: nat, i: nat)
    requires i < MAX_WINDOW
    ensures Bit(ShiftLeft(word, k), i) <==> i >= k && Bit(word, i - k)
  {
    BitOfLow(word * Pow2(k), MAX_WINDOW, i);
    BitOfShifted(word, k, i);
  }

  // ------------------------------------------------------------------- the window

  type WindowSize = n: nat | 1 <= n <= MAX_WINDOW witness 1

  datatype Window = Window(maxSeen: u64, bits: nat, size: WindowSize)

  function Clamp(size: u64): WindowSize {
    if size < 1 then 1 else if size > MAX_WINDOW then MAX_WINDOW else size
  }

  function Open(size: u64): Window {
    Window(0, 0, Clamp(size))
  }

  function Decide(w: Window, sequence: u64): (Window, bool) {
    if w.maxSeen == 0 && w.bits == 0 then (w.(maxSeen := sequence, bits := 1), true)
    else if sequence > w.maxSeen then
      var shift := sequence - w.maxSeen;
      var moved := if shift >= w.size then 0 else ShiftLeft(w.bits, shift);
      (w.(maxSeen := sequence, bits := SetBit(moved, 0)), true)
    else
      var delta := w.maxSeen - sequence;
      if delta >= w.size || Bit(w.bits, delta) then (w, false)
      else (w.(bits := SetBit(w.bits, delta)), true)
  }

  /** The amount `Decide` shifts by: the map of a higher number, or the one-bit mask of a
      lower one; none when the map is cleared or the number is outside the window. */
  function ShiftAmount(w: Window, sequence: u64): Option<nat> {
    if w.maxSeen == 0 && w.bits == 0 then None
    else
      var distance := if sequence > w.maxSeen then sequence - w.maxSeen else w.maxSeen - sequence;
      if distance >= w.size then None else Some(distance)
  }

  class ReplayWindow {
    var maxSeen: u64
    var bits: nat
    const windowSize: WindowSize

    /** The map is a 128-bit word. */
    ghost predicate Valid()
      reads this
    {
      bits < Pow2(MAX_WINDOW)
    }

    ghost function View(): Window
      reads this
    {
      Window(maxSeen, bits, windowSize)
    }

    constructor (size: u64)
      ensures Valid() && View() == Open(size)
    {
      maxSeen, bits, windowSize := 0, 0, Clamp(size);
    }

    /** No shift amount reaches the width of the word, and the map stays inside it. */
    method Accept(sequence: u64) returns (ok: bool)
      requires Valid()
      modifies this
      ensures Valid()
      ensures var shift := ShiftAmount(old(View()), sequence); shift.Some? ==> shift.value < MAX_WINDOW
      ensures View() == Decide(old(View()), sequence).0
      ensures ok == Decide(old(View()), sequence).1
    {
      hide ShiftLeft, SetBit, Pow2;
      if maxSeen == 0 && bits == 0 {
        maxSeen := sequence;
        bits := 1;
        OneFits();
        return true;
      }
      if sequence > maxSeen {
        var shift := sequence - maxSeen;
        if shift >= windowSize {
          bits := 0;
        } else {
          bits := ShiftLeft(bits, shift);
        }
        SetBitFits(bits, 0, MAX_WINDOW);
        bits := SetBit(bits, 0);
        maxSeen := sequence;
        return true;
      }
      var delta := maxSeen - sequence;
      if delta >= windowSize {
        return false;
      }
      if Bit(bits, delta) {
        return false;
      }
      SetBitFits(bits, delta, MAX_WINDOW);
      bits := SetBit(bits, delta);
      return true;
    }
  }

  // ---------------------------------------------------------- the reference: a set

  /** Accept the first number, one above all accepted so far, or one inside the window that
      was never accepted. */
  ghost predicate Fresh(accepted: set<u64>, size: nat, sequence: u64) {
    || accepted == {}
    || (forall x :: x in accepted ==> x < sequence)
    || (sequence !in accepted && forall x :: x in accepted ==> x - sequence < size)
  }

  /** Every set bit inside the window is an accepted number and conversely. */
  ghost predicate Mirrors(w: Window, accepted: set<u64>) {
    && (accepted == {} <==> w.maxSeen == 0 && w.bits == 0)
    && (accepted != {} ==>
          && w.maxSeen in accepted && (forall x :: x in accepted ==> x <= w.maxSeen)
          && forall s: u64 :: s <= w.maxSeen && w.maxSeen - s < w.size ==>
               (Bit(w.bits, w.maxSeen - s) <==> s in accepted))
  }

  lemma AcceptMirrors(w: Window, accepted: set<u64>, s: u64)
    requires Mirrors(w, accepted)
    ensures Decide(w, s).1 <==> Fresh(accepted, w.size, s)
    ensures Mirrors(Decide(w, s).0, if Decide(w, s).1 then accepted + {s} else accepted)
    ensures Decide(w, s).0.size == w.size
  {
    if accepted == {} {
      FirstMirrors(w, s);
    } else if s > w.maxSeen {
      HigherMirrors(w, accepted, s);
    } else {
      assert w.maxSeen in accepted;
      LowerMirrors(w, accepted, s);
    }
  }

  lemma FirstMirrors(w: Window, s: u64)
    requires Mirrors(w, {})
    ensures Mirrors(Decide(w, s).0, {s})
  {
    hide Bit;
    OnlyBitZero();
  }

  lemma OnlyBitZero()
    ensures forall d: nat :: Bit(1, d) <==> d == 0
  {
    forall d: nat
      ensures Bit(1, d) <==> d == 0
    {
      if d > 0 {
        BitOfZero(d - 1);
      }
    }
  }

  lemma HigherMirrors(w: Window, accepted: set<u64>, s: u64)
    requires Mirrors(w, accepted) && accepted != {} && s > w.maxSeen
    ensures Mirrors(Decide(w, s).0, accepted + {s})
  {
    hide Bit, ShiftLeft, SetBit;
    var v := Decide(w, s).0;
    var shift := s - w.maxSeen;
    var moved := if shift >= w.size then 0 else ShiftLeft(w.bits, shift);
    BitOfSet(moved, 0, 0);
    SetIsPositive(moved, 0);
    forall t: u64 | t <= s && s - t < w.size
      ensures Bit(v.bits, s - t) <==> t in accepted + {s}
    {
      BitOfSet(moved, 0, s - t);
      if shift >= w.size {
        BitOfZero(s - t);
      } else {
        BitOfShiftLeft(w.bits, shift, s - t);
      }
    }
  }

  lemma SetIsPositive(word: nat, i: nat)
    ensures SetBit(word, i) > 0
  {
    if Bit(word, i) {
      BitOfZero(i);
    }
  }

  lemma LowerMirrors(w: Window, accepted: set<u64>, s: u64)
    requires Mirrors(w, accepted) && accepted != {} && s <= w.maxSeen
    ensures Decide(w, s).1 <==> s !in accepted && w.maxSeen - s < w.size
    ensures Mirrors(Decide(w, s).0, if Decide(w, s).1 then accepted + {s} else accepted)
  {
    hide Bit, SetBit;
    var delta := w.maxSeen - s;
    SetIsPositive(w.bits, delta);
    forall t: u64 | t <= w.maxSeen && w.maxSeen - t < w.size
      ensures Bit(SetBit(w.bits, delta), w.maxSeen - t) <==> t in accepted + {s} || Bit(w.bits, w.maxSeen - t)
    {
      BitOfSet(w.bits, delta, w.maxSeen - t);
    }
  }

  // ------------------------------------------------------------------- whole histories

  /** The window after a sequence of calls. */
  function After(w: Window, calls: seq<u64>): Window {
    if calls == [] then w else Decide(After(w, calls[..|calls| - 1]), calls[|calls| - 1]).0
  }

  /** The numbers accepted in a sequence of calls, by the reference rule. */
  ghost function Accepted(size: nat, calls: seq<u64>): set<u64> {
    if calls == [] then {}
    else
      var before := Accepted(size, calls[..|calls| - 1]);
      var s := calls[|calls| - 1];
      if Fresh(before, size, s) then before + {s} else before
  }

  lemma {:induction false} HistoryMirrors(size: u64, calls: seq<u64>)
    ensures Mirrors(After(Open(size), calls), Accepted(Clamp(size), calls))
    ensures After(Open(size), calls).size == Clamp(size)
    decreases |calls|
  {
    hide Decide, Mirrors, Fresh;
    if calls == [] {
      OpenMirrors(size);
    } else {
      var front := calls[..|calls| - 1];
      HistoryMirrors(size, front);
      AcceptMirrors(After(Open(size), front), Accepted(Clamp(size), front), calls[|calls| - 1]);
    }
  }

  lemma OpenMirrors(size: u64)
    ensures Mirrors(Open(size), {})
  {
  }

  /** For every window size and every history of calls, the next call is accepted exactly when
      the reference accepts it. */
  lemma WindowRefinesSet(size: u64, calls: seq<u64>, s: u64)
    ensures Decide(After(Open(size), calls), s).1 <==> Fresh(Accepted(Clamp(size), calls), Clamp(size), s)
  {
    HistoryMirrors(size, calls);
    AcceptMirrors(After(Open(size), calls), Accepted(Clamp(size), calls), s);
  }

  lemma {:induction false} AcceptedStays(size: nat, calls: seq<u64>, n: nat)
    requires n <= |calls|
    ensures Accepted(size, calls[..n]) <= Accepted(size, calls)
    decreases |calls|
  {
    if n < |calls| {
      var front := calls[..|calls| - 1];
      assert calls[..n] == front[..n];
      AcceptedStays(size, front, n);
    } else {
      assert calls[..n] == calls;
    }
  }

  /** No sequence number is accepted twice. */
  lemma NoReplay(size: u64, calls: seq<u64>, i: nat, j: nat)
    requires i < j < |calls| && calls[i] == calls[j]
    requires Decide(After(Open(size), calls[..i]), calls[i]).1
    ensures !Decide(After(Open(size), calls[..j]), calls[j]).1
  {
    var c := Clamp(size);
    WindowRefinesSet(size, calls[..i], calls[i]);
    WindowRefinesSet(size, calls[..j], calls[j]);
    assert calls[..i + 1][..i] == calls[..i];
    assert calls[i] in Accepted(c, calls[..i + 1]);
    AcceptedStays(c, calls[..j], i + 1);
    assert calls[..j][..i + 1] == calls[..i + 1];
  }
}
