/** IEEE 754 binary64 as integers. A magnitude is the 63 bits below the sign; Mag gives its
    value in units of 2^-1074, with the infinity pattern standing for 2^1024, where the next
    binade would start. Every finite double is then an integer, and "correctly rounded"
    compares integers only. */
module Floats {
  import opened Powers
  import opened Words
  import opened WordFacts

  const HIDDEN: nat := 0x10_0000_0000_0000            // 2^52, the implicit leading bit
  const UVINF: nat := 0x7FF0_0000_0000_0000
  const SIGNMASK: nat := 0x8000_0000_0000_0000
  const FRACMASK: nat := 0xF_FFFF_FFFF_FFFF
  const UVONE: nat := 0x3FF0_0000_0000_0000
  const MASK: nat := 0x7FF
  const BIAS: nat := 1023

  function Sign(b: Word): nat { b / SIGNMASK }

  function Abs(b: Word): nat { b % SIGNMASK }

  lemma SignAndMagnitude(s: nat, a: nat)
    requires s <= 1 && a < SIGNMASK
    ensures s * SIGNMASK + a < W64
    ensures Sign(s * SIGNMASK + a) == s && Abs(s * SIGNMASK + a) == a
  {}

  predicate IsFinite(b: Word) { Abs(b) < UVINF }

  predicate IsZero(b: Word) { Abs(b) == 0 }

  /** Value of a magnitude in units of 2^-1074. */
  function Mag(a: nat): nat { Times(Significand(a), Pow2(Scale(a))) }

  function Significand(a: nat): nat {
    if a < HIDDEN then a else HIDDEN + a % 0x10_0000_0000_0000
  }

  /** Exponent of the last place: the biased exponent less one, and 0 for subnormals. */
  function Scale(a: nat): nat {
    if a < HIDDEN then 0 else (a - HIDDEN) / 0x10_0000_0000_0000
  }

  /** The magnitude pattern with this scale and significand; a significand of 2^53 carries
      into the exponent. */
  function Pack(e: nat, m: nat): nat { e * 0x10_0000_0000_0000 + m }

  /** Signed value in units of 2^-1074. */
  function Value(b: Word): int {
    var m: int := Mag(Abs(b));
    if Sign(b) == 1 then -m else m
  }

  function Dist(a: int, b: int): nat { if a < b then b - a else a - b }

  /** r is num/den (in units of 2^-1074) rounded to nearest, ties to even: no magnitude up to
      and including the infinity pattern is closer, and one equally close only if r is even. */
  ghost predicate IsNearest(num: nat, den: nat, r: nat) {
    && r <= UVINF
    && forall s: nat :: s <= UVINF && s != r ==> NoCloser(num, den, r, s)
  }

  predicate NoCloser(num: nat, den: nat, r: nat, s: nat) {
    var here, there := Dist(Mag(r) * den, num), Dist(Mag(s) * den, num);
    here < there || (here == there && r % 2 == 0)
  }

  /** b carries the correctly rounded value of the rational num/den, sign included. */
  ghost predicate IsRounded(num: int, den: nat, b: Word) {
    && IsNearest(Dist(num, 0), den, Abs(b))
    && (num < 0 ==> Sign(b) == 1)
    && (num > 0 ==> Sign(b) == 0)
  }

  // ----- The scale of magnitudes -----

  /** Within a binade, its upper end included, the value is the significand scaled. */
  lemma MagAt(e: nat, m: nat)
    requires m <= 2 * HIDDEN && (e > 0 ==> HIDDEN <= m)
    ensures Mag(Pack(e, m)) == m * Pow2(e)
  {
    hide Pow2;
    PartsOfPack(e, m);
    if m == 2 * HIDDEN {
      Pow2Succ(e);
      MulAssoc(HIDDEN, 2, Pow2(e));
    }
  }

  lemma PartsOfPack(e: nat, m: nat)
    requires m <= 2 * HIDDEN && (e > 0 ==> HIDDEN <= m)
    ensures m < 2 * HIDDEN ==> Scale(Pack(e, m)) == e && Significand(Pack(e, m)) == m
    ensures m == 2 * HIDDEN ==> Scale(Pack(e, m)) == e + 1 && Significand(Pack(e, m)) == HIDDEN
  {}

  /** Every magnitude is a significand below 2^53 over a scale. */
  lemma PackParts(a: nat)
    ensures a == Pack(Scale(a), Significand(a)) && Significand(a) < 2 * HIDDEN
    ensures Scale(a) > 0 ==> HIDDEN <= Significand(a)
  {}

  /** Neighbouring magnitudes are one unit in the last place apart. */
  lemma MagStep(a: nat)
    ensures Mag(a + 1) == Mag(a) + Pow2(Scale(a))
  {
    hide Pow2, Mag;
    PackParts(a);
    var e, m := Scale(a), Significand(a);
    MagAt(e, m);
    MagAt(e, m + 1);
    assert (m + 1) * Pow2(e) == m * Pow2(e) + Pow2(e) by { SumScaled(m, 1, Pow2(e)); }
  }

  lemma {:induction false} MagMono(a: nat, b: nat)
    requires a < b
    ensures Mag(a) < Mag(b)
    decreases b - a
  {
    MagStep(a);
    if a + 1 < b {
      MagMono(a + 1, b);
    }
  }

  /** Mag(UVINF) is 2^1024 in units of 2^-1074. */
  lemma MagInf()
    ensures Mag(UVINF) == HIDDEN * Pow2(2046)
  {
    assert UVINF == Pack(2046, HIDDEN);
    MagAt(2046, HIDDEN);
  }

  // ----- Nearest magnitudes -----

  /** Sitting between the midpoints to both neighbours makes a magnitude nearest. */
  lemma NearestBetweenMidpoints(num: nat, den: nat, r: nat)
    requires den > 0 && r <= UVINF
    requires r > 0 ==> AboveMidpoint(num, den, r)
    requires r < UVINF ==> BelowMidpoint(num, den, r)
    ensures IsNearest(num, den, r)
  {
    hide Mag;
    forall s: nat | s <= UVINF && s != r
      ensures NoCloser(num, den, r, s)
    {
      if s < r {
        LowerIsFarther(num, den, r, s);
      } else {
        HigherIsFarther(num, den, r, s);
      }
    }
  }

  /** num/den is at or above the midpoint of r-1 and r, and above it unless r is even. */
  predicate AboveMidpoint(num: nat, den: nat, r: nat)
    requires r > 0
  {
    var mid := (Mag(r - 1) + Mag(r)) * den;
    mid < 2 * num || (mid == 2 * num && r % 2 == 0)
  }

  /** num/den is at or below the midpoint of r and r+1, and below it unless r is even. */
  predicate BelowMidpoint(num: nat, den: nat, r: nat) {
    var mid := (Mag(r) + Mag(r + 1)) * den;
    2 * num < mid || (mid == 2 * num && r % 2 == 0)
  }

  lemma LowerIsFarther(num: nat, den: nat, r: nat, s: nat)
    requires den > 0 && s < r && AboveMidpoint(num, den, r)
    ensures NoCloser(num, den, r, s)
  {
    hide Mag;
    if s < r - 1 {
      MagMono(s, r - 1);
    }
    MagMono(r - 1, r);
    MulMono(Mag(s), Mag(r - 1), den);
    MulStrict(Mag(r - 1), Mag(r), den);
    SumScaled(Mag(r - 1), Mag(r), den);
  }

  lemma HigherIsFarther(num: nat, den: nat, r: nat, s: nat)
    requires den > 0 && r < s && BelowMidpoint(num, den, r)
    ensures NoCloser(num, den, r, s)
  {
    hide Mag;
    if r + 1 < s {
      MagMono(r + 1, s);
    }
    MagMono(r, r + 1);
    MulMono(Mag(r + 1), Mag(s), den);
    MulStrict(Mag(r), Mag(r + 1), den);
    SumScaled(Mag(r), Mag(r + 1), den);
  }

  /** Correct rounding has at most one answer. */
  lemma NearestUnique(num: nat, den: nat, r: nat, s: nat)
    requires den > 0 && IsNearest(num, den, r) && IsNearest(num, den, s)
    ensures r == s
  {
    hide Mag;
    if r != s {
      assert NoCloser(num, den, r, s) && NoCloser(num, den, s, r);
      var m := if r < s then r + 1 else s + 1;
      if r < s {
        BetweenIsCloser(num, den, r, m, s);
      } else {
        BetweenIsCloser(num, den, s, m, r);
      }
    }
  }

  lemma BetweenIsCloser(num: nat, den: nat, r: nat, m: nat, s: nat)
    requires den > 0 && r < m < s
    requires Dist(Mag(r) * den, num) == Dist(Mag(s) * den, num)
    ensures !NoCloser(num, den, r, m) && !NoCloser(num, den, s, m)
  {
    hide Mag;
    MagMono(r, m);
    MagMono(m, s);
    MulStrict(Mag(r), Mag(m), den);
    MulStrict(Mag(m), Mag(s), den);
  }

  /** The reference rounding: the magnitude at or below num/den, or its successor. */
  function Nearest(num: nat, den: nat): (r: nat)
    requires den > 0
    ensures IsNearest(num, den, r)
  {
    hide Mag;
    var f := FloorMag(num, den, UVINF);
    FloorOrNext(num, den, f);
    if f < UVINF && !BelowMidpoint(num, den, f) then f + 1 else f
  }

  lemma FloorOrNext(num: nat, den: nat, f: nat)
    requires den > 0 && f <= UVINF && Mag(f) * den <= num
    requires f < UVINF ==> num < Mag(f + 1) * den
    ensures f == UVINF || BelowMidpoint(num, den, f) ==> IsNearest(num, den, f)
    ensures f < UVINF && !BelowMidpoint(num, den, f) ==> IsNearest(num, den, f + 1)
  {
    hide Mag;
    if f == UVINF || BelowMidpoint(num, den, f) {
      AtOrAbove(num, den, f);
      NearestBetweenMidpoints(num, den, f);
    } else {
      AtOrBelow(num, den, f + 1);
      NearestBetweenMidpoints(num, den, f + 1);
    }
  }

  lemma AtOrAbove(num: nat, den: nat, r: nat)
    requires den > 0 && Mag(r) * den <= num
    ensures r > 0 ==> AboveMidpoint(num, den, r)
  {
    hide Mag;
    if r > 0 {
      MagMono(r - 1, r);
      MulStrict(Mag(r - 1), Mag(r), den);
      SumScaled(Mag(r - 1), Mag(r), den);
    }
  }

  lemma AtOrBelow(num: nat, den: nat, r: nat)
    requires den > 0 && num <= Mag(r) * den
    ensures BelowMidpoint(num, den, r)
  {
    hide Mag;
    MagMono(r, r + 1);
    MulStrict(Mag(r), Mag(r + 1), den);
    SumScaled(Mag(r), Mag(r + 1), den);
  }

  /** The largest magnitude up to the bound that does not exceed num/den. */
  function FloorMag(num: nat, den: nat, bound: nat): (f: nat)
    requires den > 0
    ensures f <= bound && Mag(f) * den <= num
    ensures f < bound ==> num < Mag(f + 1) * den
  {
    if bound == 0 || Mag(bound) * den <= num then bound else FloorMag(num, den, bound - 1)
  }

  /** A representable value rounds to itself. */
  lemma NearestExact(num: nat, den: nat, r: nat)
    requires den > 0 && r <= UVINF && Mag(r) * den == num
    ensures IsNearest(num, den, r)
  {
    hide Mag, AboveMidpoint, BelowMidpoint;
    AtOrAbove(num, den, r);
    AtOrBelow(num, den, r);
    NearestBetweenMidpoints(num, den, r);
  }

  /** A value rounds to infinity exactly from the midpoint of the largest double and 2^1024 on. */
  lemma NearestInfinity(num: nat, den: nat)
    requires den > 0
    ensures IsNearest(num, den, UVINF) <==> AboveMidpoint(num, den, UVINF)
  {
    hide Mag;
    if AboveMidpoint(num, den, UVINF) {
      NearestBetweenMidpoints(num, den, UVINF);
    } else {
      MagMono(UVINF - 1, UVINF);
      MulStrict(Mag(UVINF - 1), Mag(UVINF), den);
      SumScaled(Mag(UVINF - 1), Mag(UVINF), den);
      assert !NoCloser(num, den, UVINF, UVINF - 1);
    }
  }

  /** Scaling numerator and denominator together changes nothing. */
  lemma NearestScaled(num: nat, den: nat, k: nat, r: nat)
    requires den > 0 && k > 0
    ensures den * k > 0
    ensures IsNearest(num * k, den * k, r) <==> IsNearest(num, den, r)
  {
    hide Mag;
    MulStrict(0, den, k);
    forall s: nat
      ensures Dist(Mag(s) * (den * k), num * k) == Dist(Mag(s) * den, num) * k
    {
      DistScaled(Mag(s), den, num, k);
    }
    if IsNearest(num * k, den * k, r) {
      forall s: nat | s <= UVINF && s != r
        ensures NoCloser(num, den, r, s)
      {
        assert NoCloser(num * k, den * k, r, s);
        CancelOrder(Dist(Mag(r) * den, num), Dist(Mag(s) * den, num), k);
      }
    }
    if IsNearest(num, den, r) {
      forall s: nat | s <= UVINF && s != r
        ensures NoCloser(num * k, den * k, r, s)
      {
        assert NoCloser(num, den, r, s);
        CancelOrder(Dist(Mag(r) * den, num), Dist(Mag(s) * den, num), k);
      }
    }
  }

  lemma DistScaled(m: nat, den: nat, num: nat, k: nat)
    requires k > 0
    ensures Dist(m * (den * k), num * k) == Dist(m * den, num) * k
  {
    MulAssoc(m, den, k);
    CancelOrder(m * den, num, k);
    CancelOrder(num, m * den, k);
    assert (m * den - num) * k == (m * den) * k - num * k;
    assert (num - m * den) * k == num * k - (m * den) * k;
  }

  // ----- The fields of a pattern -----

  /** Shifts and masks extract sign, biased exponent and fraction. */
  lemma Fields(b: Word)
    ensures Shr(b, 63) == Sign(b)
    ensures AndWord(Shr(b, 52), MASK) == Abs(b) / 0x10_0000_0000_0000
    ensures AndWord(b, FRACMASK) == Abs(b) % 0x10_0000_0000_0000
  {
    hide Pow2, And;
    Pow2Values();
    AndMask(Shr(b, 52), 11);
    AndMask(b, 52);
    assert Shr(b, 52) == b / 0x10_0000_0000_0000;
  }

  /** All exponent bits set marks infinities and NaNs. */
  lemma ExponentOnes(b: Word)
    ensures AndWord(b, UVINF) == UVINF <==> !IsFinite(b)
  {
    hide Pow2, And;
    Pow2Values();
    var h, l := b / 0x10_0000_0000_0000, b % 0x10_0000_0000_0000;
    AndShifted(h, l, MASK, 52);
    AndMask(h, 11);
    assert And(b, UVINF) == (h % 2048) * 0x10_0000_0000_0000;
    OnesInField(b);
  }

  lemma OnesInField(b: Word)
    ensures ((b / 0x10_0000_0000_0000) % 2048) * 0x10_0000_0000_0000 == UVINF <==> Abs(b) >= UVINF
  {
  }
}
