/** The alignment formula, and the data-size cache that lets the codec skip it. */
module CdrAlignment {
  import opened Basics
  import opened CdrSpec

  function Pow2(k: nat): Positive {
    if k == 0 then 1 else 2 * Pow2(k - 1)
  }

  /** Bitwise conjunction of unsigned numbers. */
  function And(x: nat, y: nat): nat
    decreases x
  {
    if x == 0 then 0 else 2 * And(x / 2, y / 2) + (x % 2) * (y % 2)
  }

  /** (data_size - current % data_size) & (data_size - 1) */
  function Alignment(current: nat, dataSize: Positive): nat {
    And(dataSize - current % dataSize, dataSize - 1)
  }

  /** x & (2^k - 1) keeps the low k bits: with x == q * 2^k + r it is r. */
  lemma {:induction false} AndMask(q: nat, r: nat, k: nat)
    requires r < Pow2(k)
    ensures And(q * Pow2(k) + r, Pow2(k) - 1) == r
    decreases k
  {
    var x := q * Pow2(k) + r;
    if k == 0 {
      AndZero(x);
    } else {
      hide Pow2;
      var half: nat := Pow2(k - 1);
      DoublePow2(k);
      AndMask(q, r / 2, k - 1);
      Halves(q, half, r);
      AndStep(q * half + r / 2, r % 2, half - 1);
    }
  }

  lemma DoublePow2(k: nat)
    requires 0 < k
    ensures Pow2(k) == 2 * Pow2(k - 1)
  {
  }

  /** A number is twice what it is without its last bit, plus that bit. */
  lemma Halves(q: nat, half: nat, r: nat)
    ensures q * (2 * half) + r == 2 * (q * half + r / 2) + r % 2
  {
    assert q * (2 * half) == 2 * (q * half);
  }

  lemma AndStep(high: nat, bit: nat, mask: nat)
    requires bit < 2
    ensures And(2 * high + bit, 2 * mask + 1) == 2 * And(high, mask) + bit
  {
    assert (2 * high + bit) / 2 == high && (2 * high + bit) % 2 == bit;
    assert (2 * mask + 1) / 2 == mask && (2 * mask + 1) % 2 == 1;
    if 2 * high + bit == 0 { assert And(high, mask) == 0; }
  }

  lemma {:induction false} AndZero(x: nat)
    ensures And(x, 0) == 0
    decreases x
  {
    if x > 0 { AndZero(x / 2); }
  }

  predicate Multiple(x: nat, d: Positive) {
    x % d == 0
  }

  /** The formula gives the least padding that makes the position a multiple of the power of two. */
  lemma AlignmentIsLeast(current: nat, k: nat)
    ensures var d := Pow2(k);
      && Alignment(current, d) < d
      && Multiple(current + Alignment(current, d), d)
      && forall p: nat :: current <= p < current + Alignment(current, d) ==> !Multiple(p, d)
  {
    hide Pow2, Alignment, Multiple;
    var d := Pow2(k);
    AlignmentValue(current, k);
    Division(current, d);
    Least(current / d, current % d, d);
  }

  lemma AlignmentValue(current: nat, k: nat)
    ensures var d := Pow2(k); var r := current % d; Alignment(current, d) == if r == 0 then 0 else d - r
  {
    hide And, Pow2;
    var d: nat := Pow2(k);
    var r := current % d;
    if r == 0 {
      AndMask(1, 0, k);
      assert 1 * d + 0 == d;
    } else {
      AndMask(0, d - r, k);
      assert 0 * d + (d - r) == d - r;
    }
  }

  lemma Least(q: nat, r: nat, d: Positive)
    requires r < d
    ensures var pad := if r == 0 then 0 else d - r;
      Multiple(q * d + r + pad, d) && forall p: nat :: q * d + r <= p < q * d + r + pad ==> !Multiple(p, d)
  {
    if r == 0 {
      Remainder(q, d, 0);
    } else {
      Remainder(q + 1, d, 0);
      assert (q + 1) * d + 0 == q * d + r + (d - r);
      forall p: nat | q * d + r <= p < q * d + d ensures !Multiple(p, d) {
        Remainder(q, d, p - q * d);
        assert q * d + (p - q * d) == p;
      }
    }
  }

  lemma Division(x: nat, d: Positive)
    ensures x == x / d * d + x % d && x % d < d
  {
  }

  lemma Remainder(q: nat, d: Positive, r: nat)
    requires r < d
    ensures (q * d + r) % d == r
  {
    var x := q * d + r;
    Division(x, d);
    if x / d < q {
      AtLeast(x / d, q, d);
    } else if q < x / d {
      AtLeast(q, x / d, d);
    }
  }

  lemma {:induction false} AtLeast(m: nat, n: nat, d: Positive)
    requires m < n
    ensures m * d + d <= n * d
    decreases n
  {
    assert n * d == (n - 1) * d + d;
    if m < n - 1 { AtLeast(m, n - 1, d); }
  }

  /** On the widths of CDR scalars the formula is the padding of the reference encoder. */
  lemma AlignmentIsPadLen(pos: nat, w: Width)
    ensures Alignment(pos, w.Bytes()) == PadLen(pos, w)
  {
    hide Alignment;
    assert Pow2(0) == 1 && Pow2(1) == 2 && Pow2(2) == 4 && Pow2(3) == 8;
    match w
    case W1 => AlignmentValue(pos, 0);
    case W2 => AlignmentValue(pos, 1);
    case W4 => AlignmentValue(pos, 2);
    case W8 => AlignmentValue(pos, 3);
  }

  // ---------------------------------------------------------------- the cached data size

  /** Cdr::alignment: no formula when the last datum was at least as wide. */
  function CachedAlignment(pos: nat, last: nat, dataSize: Positive): nat {
    if last < dataSize then Alignment(pos, dataSize) else 0
  }

  /** What the cache promises: the position is a multiple of the alignment of the last datum. */
  predicate CacheSound(version: Version, pos: nat, last: nat) {
    match last
    case 0 => true
    case 1 => true
    case 2 => pos % 2 == 0
    case 4 => pos % 4 == 0
    case 8 => if version.XCDRv1? then pos % 8 == 0 else pos % 4 == 0
    case _ => false
  }

  /** Skipping the formula gives the same padding. */
  lemma ShortcutSound(version: Version, pos: nat, last: nat, w: Width)
    requires CacheSound(version, pos, last)
    ensures CachedAlignment(pos, last, AlignOf(version, w).Bytes()) == PadLen(pos, AlignOf(version, w))
  {
    AlignmentIsPadLen(pos, AlignOf(version, w));
    if pos % 8 == 0 { Multiple4(2 * (pos / 8)); assert pos == 4 * (2 * (pos / 8)); }
    if pos % 4 == 0 { Multiple2(2 * (pos / 4)); assert pos == 2 * (2 * (pos / 4)); }
  }

  /** Writing a datum leaves the cache sound. */
  lemma CacheAfterWord(version: Version, pos: nat, w: Width)
    ensures CacheSound(version, pos + PadLen(pos, AlignOf(version, w)) + w.Bytes(), w.Bytes())
  {
    var p := pos + PadLen(pos, AlignOf(version, w)) + w.Bytes();
    match w
    case W1 =>
    case W2 => Multiple2(if pos % 2 == 0 then pos / 2 + 1 else pos / 2 + 2); assert pos == 2 * (pos / 2) + pos % 2;
    case W4 => Multiple4(if pos % 4 == 0 then pos / 4 + 1 else pos / 4 + 2); assert pos == 4 * (pos / 4) + pos % 4;
    case W8 =>
      if version.XCDRv1? {
        Multiple8(if pos % 8 == 0 then pos / 8 + 1 else pos / 8 + 2);
        assert pos == 8 * (pos / 8) + pos % 8;
      } else {
        Multiple4(if pos % 4 == 0 then pos / 4 + 2 else pos / 4 + 3);
        assert pos == 4 * (pos / 4) + pos % 4;
      }
  }
}
