/** math/floor.go: Round and RoundToEven on bit patterns. In units of 2^-1074 the integers are
    the multiples of 2^1074. */
module Rounding {
  import opened Powers
  import opened Words
  import opened WordFacts
  import opened Floats

  const ONE: nat := 1074                        // the exponent of 1.0 in units of 2^-1074
  const HALF: nat := 0x8_0000_0000_0000         // 1 << (shift - 1)

  /** q is the integer nearest to v, and of two equally near ones the larger. */
  predicate NearestAway(v: nat, unit: nat, q: nat) {
    2 * Dist(q * unit, v) <= unit && (2 * Dist(q * unit, v) == unit ==> q * unit > v)
  }

  /** q is the integer nearest to v, and of two equally near ones the even one. */
  predicate NearestEven(v: nat, unit: nat, q: nat) {
    2 * Dist(q * unit, v) <= unit && (2 * Dist(q * unit, v) == unit ==> q % 2 == 0)
  }

  /** The specification in the comment of Round, on magnitudes: truncate, then step away from
      zero when the part cut off is at least one half. */
  function TruncAway(v: nat, unit: nat): nat
    requires unit > 0
  {
    if 2 * (v % unit) >= unit then v / unit + 1 else v / unit
  }

  /** The specification in the comment of RoundToEven, on magnitudes. */
  function TruncEven(v: nat, unit: nat): nat
    requires unit > 0
  {
    var odd := (v / unit) % 2 != 0;
    if 2 * (v % unit) > unit || (2 * (v % unit) == unit && odd) then v / unit + 1 else v / unit
  }

  /** The Trunc-based formulas are exactly the nearest integers, so either reading fixes q. */
  lemma TruncAwayIsNearest(v: nat, unit: nat, q: nat)
    requires unit > 0
    ensures NearestAway(v, unit, q) <==> q == TruncAway(v, unit)
  {
    hide Pow2;
    Around(v, unit, q);
  }

  lemma TruncEvenIsNearest(v: nat, unit: nat, q: nat)
    requires unit > 0
    ensures NearestEven(v, unit, q) <==> q == TruncEven(v, unit)
  {
    hide Pow2;
    Around(v, unit, q);
  }

  /** Only the integer below and the one above can be within half a unit. */
  lemma Around(v: nat, unit: nat, q: nat)
    requires unit > 0
    ensures q == v / unit ==> Dist(q * unit, v) == v % unit && q * unit <= v
    ensures q == v / unit + 1 ==> Dist(q * unit, v) == unit - v % unit && q * unit > v
    ensures q < v / unit || q > v / unit + 1 ==> 2 * Dist(q * unit, v) > unit
  {
    var t := v / unit;
    DivModFacts(v, unit);
    SumScaled(t, 1, unit);
    if q < t {
      SumScaled(q, 1, unit);
      MulMono(q + 1, t, unit);
    } else if q > t + 1 {
      SumScaled(t, 2, unit);
      MulMono(t + 2, q, unit);
    }
  }

  // ----- Rounding inside the fraction field -----

  /** Adding `add` to a pattern and clearing its k low bits rounds the significand to q units
      of 2^k; a carry runs on into the exponent. */
  lemma ClearLow(s: nat, e: nat, m: nat, add: nat, k: nat)
    requires s <= 1 && e < 2046 && HIDDEN <= m < 2 * HIDDEN && 0 < k <= 52 && add <= Pow2(k - 1)
    ensures var b := s * SIGNMASK + Pack(e, m);
            var q := (m + add) / Pow2(k);
            && b + add < W64
            && q * Pow2(k) <= 2 * HIDDEN && HIDDEN <= q * Pow2(k)
            && AndNot(b + add, Pow2(k) - 1) == s * SIGNMASK + Pack(e, q * Pow2(k))
  {
    hide Pow2, AndNot;
    var p, h := Pow2(k), Pow2(52 - k);
    Pow2Values();
    assert h * p == HIDDEN by { Pow2Split(52, k); }
    assert 2 * Pow2(k - 1) == p by { Pow2Succ(k - 1); }
    Pow2Mono(k, 52);
    var q, r := (m + add) / p, (m + add) % p;
    DivModFacts(m + add, p);
    QuotientRange(m, add, p, h, q, r);
    var t := s * 2048 + e;
    var b := s * SIGNMASK + Pack(e, m);
    assert b + add == t * HIDDEN + q * p + r;
    SumScaled(t * h, q, p);
    MulAssoc(t, h, p);
    DivModUnique(b + add, p, t * h + q, r);
    AndNotMask(b + add, k);
  }

  lemma QuotientRange(m: nat, add: nat, p: nat, h: nat, q: nat, r: nat)
    requires p > 0 && h * p <= m < 2 * (h * p) && 2 * add <= p
    requires m + add == q * p + r && r < p
    ensures h * p <= q * p <= 2 * (h * p)
  {
    SumScaled(q, 1, p);
    CancelOrder(h, q + 1, p);
    MulAssoc(2, h, p);
    SumScaled(2 * h, 1, p);
    CancelOrder(q, 2 * h + 1, p);
    MulMono(h, q, p);
    MulMono(q, 2 * h, p);
  }

  /** Rounding the significand to units of 2^k is rounding the value to integers. */
  lemma ScaleUp(m: nat, k: nat, e: nat, q: nat)
    requires e + k == ONE
    ensures NearestAway(m, Pow2(k), q) ==> NearestAway(m * Pow2(e), Pow2(ONE), q)
    ensures NearestEven(m, Pow2(k), q) ==> NearestEven(m * Pow2(e), Pow2(ONE), q)
  {
    hide Pow2;
    Pow2Add(k, e);
    DistScaled(q, Pow2(k), m, Pow2(e));
    ScaleUpAt(Dist(q * Pow2(k), m), Pow2(k), Pow2(e));
    CancelOrder(m, q * Pow2(k), Pow2(e));
    MulAssoc(q, Pow2(k), Pow2(e));
  }

  lemma ScaleUpAt(d: nat, p: nat, k: nat)
    requires k > 0
    ensures 2 * (d * k) <= p * k <==> 2 * d <= p
    ensures 2 * (d * k) == p * k <==> 2 * d == p
  {
    MulAssoc(2, d, k);
    CancelOrder(2 * d, p, k);
    CancelOrder(p, 2 * d, k);
  }

  lemma AwayInField(m: nat, k: nat)
    requires k > 0
    ensures NearestAway(m, Pow2(k), (m + Pow2(k - 1)) / Pow2(k))
  {
    hide Pow2, NearestAway;
    Pow2Succ(k - 1);
    Carry(m, Pow2(k - 1), Pow2(k));
    TruncAwayIsNearest(m, Pow2(k), (m + Pow2(k - 1)) / Pow2(k));
  }

  lemma EvenInField(m: nat, k: nat)
    requires k > 0
    ensures NearestEven(m, Pow2(k), (m + (Pow2(k - 1) - 1 + (m / Pow2(k)) % 2)) / Pow2(k))
  {
    hide Pow2, NearestEven;
    Pow2Succ(k - 1);
    var add := Pow2(k - 1) - 1 + (m / Pow2(k)) % 2;
    Carry(m, add, Pow2(k));
    TruncEvenIsNearest(m, Pow2(k), (m + add) / Pow2(k));
  }

  /** Adding at most a unit raises the quotient exactly when the remainder overflows. */
  lemma Carry(m: nat, add: nat, unit: nat)
    requires 0 <= add < unit
    ensures (m + add) / unit == if m % unit + add >= unit then m / unit + 1 else m / unit
  {
    hide Pow2;
    var t, r := m / unit, m % unit;
    DivModFacts(m, unit);
    SumScaled(t, 1, unit);
    if r + add >= unit {
      DivModUnique(m + add, unit, t + 1, r + add - unit);
    } else {
      DivModUnique(m + add, unit, t, r + add);
    }
  }

  // ----- Magnitudes below one and magnitudes without a fraction -----

  lemma BelowOne(a: nat)
    requires a < UVONE
    ensures 2 * Mag(a) < Pow2(ONE) <==> a < 1022 * 0x10_0000_0000_0000
    ensures 2 * Mag(a) == Pow2(ONE) <==> a == 1022 * 0x10_0000_0000_0000
    ensures Mag(a) < Pow2(ONE)
    ensures Mag(UVONE) == Pow2(ONE)
  {
    hide Pow2, Mag;
    assert UVONE == Pack(1022, HIDDEN) && 1022 * 0x10_0000_0000_0000 == Pack(1021, HIDDEN);
    MagAt(1022, HIDDEN);
    MagAt(1021, HIDDEN);
    Pow2Values();
    assert HIDDEN * Pow2(1022) == Pow2(ONE) by { Pow2Add(52, 1022); }
    assert 2 * (HIDDEN * Pow2(1021)) == Pow2(ONE) by { Pow2Add(53, 1021); }
    MagMono(a, UVONE);
    var half := 1022 * 0x10_0000_0000_0000;
    if a < half {
      MagMono(a, half);
    } else if half < a {
      MagMono(half, a);
    }
  }

  /** From 2^52 on every double is an integer. */
  lemma NoFraction(a: nat)
    requires 1075 * 0x10_0000_0000_0000 <= a < UVINF
    ensures exists q ::
            Mag(a) == q * Pow2(ONE) && NearestAway(Mag(a), Pow2(ONE), q) && NearestEven(Mag(a), Pow2(ONE), q)
  {
    hide Pow2, Mag;
    PackParts(a);
    var e, m := Scale(a), Significand(a);
    assert e >= 1074;
    MagAt(e, m);
    Pow2Split(e, 1074);
    MulAssoc(m, Pow2(e - 1074), Pow2(1074));
    var q := m * Pow2(e - 1074);
    MulMono(0, m, Pow2(e - 1074));
    assert Mag(a) == q * Pow2(ONE);
    MulDivMod(q, Pow2(ONE));
    TruncAwayIsNearest(Mag(a), Pow2(ONE), q);
    TruncEvenIsNearest(Mag(a), Pow2(ONE), q);
  }

  /** What Round promises of a finite x: the sign is kept and the magnitude is the nearest
      integer, ties away from zero. */
  ghost predicate IsRoundedAway(x: Word, r: Word) {
    && Sign(r) == Sign(x)
    && exists q :: Mag(Abs(r)) == q * Pow2(ONE) && NearestAway(Mag(Abs(x)), Pow2(ONE), q)
  }

  ghost predicate IsRoundedEven(x: Word, r: Word) {
    && Sign(r) == Sign(x)
    && exists q :: Mag(Abs(r)) == q * Pow2(ONE) && NearestEven(Mag(Abs(x)), Pow2(ONE), q)
  }

  lemma SignOnly(x: Word)
    ensures AndWord(x, SIGNMASK) == Sign(x) * SIGNMASK
    ensures OrWord(AndWord(x, SIGNMASK), UVONE) == Sign(x) * SIGNMASK + UVONE
  {
    hide Pow2, And, Or;
    Pow2Values();
    AndShifted(Sign(x), Abs(x), 1, 63);
    AndMask(Sign(x), 1);
    OrDisjoint(Sign(x), UVONE, 63);
  }

  lemma SmallAway(v: nat, unit: nat, q: nat)
    requires v < unit && q == if 2 * v >= unit then 1 else 0
    ensures NearestAway(v, unit, q)
  {}

  lemma SmallEven(v: nat, unit: nat, q: nat)
    requires v < unit && q == if 2 * v > unit then 1 else 0
    ensures NearestEven(v, unit, q)
  {}

  /** The shifted constants: half a unit and the mask of the fraction bits below the unit. */
  lemma ShiftedConstants(e: nat)
    requires e <= 51
    ensures Shr(HALF, e) == Pow2(51 - e)
    ensures Shr(FRACMASK, e) == Pow2(52 - e) - 1
    ensures Shr(HALF - 1, e) == Pow2(51 - e) - 1
  {
    hide Pow2;
    Pow2Values();
    Pow2Split(51, e);
    Pow2Split(52, e);
    var p := Pow2(e);
    DivModUnique(HALF, p, Pow2(51 - e), 0);
    SumScaled(Pow2(51 - e) - 1, 1, p);
    DivModUnique(HALF - 1, p, Pow2(51 - e) - 1, p - 1);
    SumScaled(Pow2(52 - e) - 1, 1, p);
    DivModUnique(FRACMASK, p, Pow2(52 - e) - 1, p - 1);
  }

  lemma LargeConstants(e: nat)
    requires e >= 52
    ensures Shr(FRACMASK, e) == 0 && Shr(HALF - 1, e) == 0 && Shr(HALF, e) == 0
  {
    hide Pow2;
    Pow2Values();
    Pow2Mono(52, e);
    DivModUnique(FRACMASK, Pow2(e), 0, FRACMASK);
    DivModUnique(HALF - 1, Pow2(e), 0, HALF - 1);
    DivModUnique(HALF, Pow2(e), 0, HALF);
  }

  /** The add-and-clear step on a finite pattern whose unit bit is k places up. */
  lemma RoundInField(x: Word, e: nat, add: nat, mask: Word)
    requires e <= 51 && mask == Pow2(52 - e) - 1 && Abs(x) / 0x10_0000_0000_0000 == BIAS + e && add <= Pow2(51 - e)
    ensures Mag(Abs(x)) == Significand(Abs(x)) * Pow2(1022 + e)
    ensures var r := AndNotWord(Wrap(x + add), mask);
            && Wrap(x + add) == x + add
            && Sign(r) == Sign(x) && IsFinite(r)
            && Mag(Abs(r)) == ((Significand(Abs(x)) + add) / Pow2(52 - e)) * Pow2(ONE)
  {
    hide Pow2, Mag, AndNot, Significand, Scale;
    var a := Abs(x);
    PackParts(a);
    var m := Significand(a);
    assert Scale(a) == 1022 + e;
    MagAt(1022 + e, m);
    ClearLow(Sign(x), 1022 + e, m, add, 52 - e);
    var q := (m + add) / Pow2(52 - e);
    var k := q * Pow2(52 - e);
    MagAt(1022 + e, k);
    SignAndMagnitude(Sign(x), Pack(1022 + e, k));
    MulAssoc(q, Pow2(52 - e), Pow2(1022 + e));
    Pow2Add(52 - e, 1022 + e);
  }

  lemma AwayWithFraction(x: Word, e: nat, mask: Word)
    requires e <= 51 && Abs(x) / 0x10_0000_0000_0000 == BIAS + e && mask == Pow2(52 - e) - 1
    ensures IsFinite(AndNotWord(Wrap(x + Pow2(51 - e)), mask))
    ensures IsRoundedAway(x, AndNotWord(Wrap(x + Pow2(51 - e)), mask))
  {
    hide Pow2, Mag, AndNotWord, Wrap, Significand, NearestAway;
    var m := Significand(Abs(x));
    RoundInField(x, e, Pow2(51 - e), mask);
    AwayInField(m, 52 - e);
    ScaleUp(m, 52 - e, 1022 + e, (m + Pow2(51 - e)) / Pow2(52 - e));
  }

  lemma EvenWithFraction(x: Word, e: nat, odd: nat, mask: Word)
    requires e <= 51 && Abs(x) / 0x10_0000_0000_0000 == BIAS + e && mask == Pow2(52 - e) - 1
    requires odd == (x / Pow2(52 - e)) % 2
    ensures IsFinite(AndNotWord(Wrap(x + (Pow2(51 - e) - 1 + odd)), mask))
    ensures IsRoundedEven(x, AndNotWord(Wrap(x + (Pow2(51 - e) - 1 + odd)), mask))
  {
    hide Pow2, Mag, AndNotWord, Wrap, Significand, NearestEven;
    var m := Significand(Abs(x));
    var add := Pow2(51 - e) - 1 + odd;
    OddBit(x, e);
    RoundInField(x, e, add, mask);
    EvenInField(m, 52 - e);
    ScaleUp(m, 52 - e, 1022 + e, (m + add) / Pow2(52 - e));
  }

  /** The results +-0 and +-1 for magnitudes below one. */
  lemma BelowOneRounds(x: Word, a: nat, q: nat)
    requires Abs(x) < UVONE && ((a == 0 && q == 0) || (a == UVONE && q == 1))
    ensures Sign(x) * SIGNMASK + a < W64 && IsFinite(Sign(x) * SIGNMASK + a)
    ensures q == (if Abs(x) >= 1022 * 0x10_0000_0000_0000 then 1 else 0) ==> IsRoundedAway(x, Sign(x) * SIGNMASK + a)
    ensures q == (if Abs(x) > 1022 * 0x10_0000_0000_0000 then 1 else 0) ==> IsRoundedEven(x, Sign(x) * SIGNMASK + a)
  {
    hide Pow2, Mag, NearestAway, NearestEven;
    BelowOne(Abs(x));
    IntegerPattern(Sign(x), a, q);
    var v := Mag(Abs(x));
    if q == (if 2 * v >= Pow2(ONE) then 1 else 0) {
      SmallAway(v, Pow2(ONE), q);
    }
    if q == (if 2 * v > Pow2(ONE) then 1 else 0) {
      SmallEven(v, Pow2(ONE), q);
    }
  }

  lemma IntegerItself(x: Word)
    requires IsFinite(x) && Abs(x) / 0x10_0000_0000_0000 >= BIAS + 52
    ensures IsRoundedAway(x, x) && IsRoundedEven(x, x)
  {
    hide Pow2, Mag, NearestAway, NearestEven;
    NoFraction(Abs(x));
  }

  method Round(x: Word) returns (r: Word)
    ensures !IsFinite(x) ==> r == x
    ensures IsFinite(x) ==> IsFinite(r) && IsRoundedAway(x, r)
  {
    hide Pow2, IsRoundedAway, IsRoundedEven, AndNotWord, AndWord, Shr, OrWord;
    var bits := x;
    var e := AndWord(Shr(bits, 52), MASK);
    Fields(x);
    if e < BIAS {
      SignOnly(x);
      bits := AndWord(bits, SIGNMASK);
      if e == BIAS - 1 {
        bits := OrWord(bits, UVONE);
        BelowOneRounds(x, UVONE, 1);
      } else {
        BelowOneRounds(x, 0, 0);
      }
    } else if e < BIAS + 52 {
      e := e - BIAS;
      ShiftedConstants(e);
      AwayWithFraction(x, e, Shr(FRACMASK, e));
      bits := Wrap(bits + Shr(HALF, e));
      bits := AndNotWord(bits, Shr(FRACMASK, e));
    } else if IsFinite(x) {
      IntegerItself(x);
    }
    return bits;
  }

  lemma IntegerPattern(s: nat, a: nat, q: nat)
    requires s <= 1 && ((a == 0 && q == 0) || (a == UVONE && q == 1))
    ensures s * SIGNMASK + a < W64
    ensures Sign(s * SIGNMASK + a) == s && IsFinite(s * SIGNMASK + a)
    ensures Mag(Abs(s * SIGNMASK + a)) == q * Pow2(ONE)
  {
    hide Pow2, Mag;
    SignAndMagnitude(s, a);
    BelowOne(0);
    MagAt(0, 0);
  }

  lemma UnitBit(x: Word, n: nat)
    ensures AndWord(Shr(x, n), 1) == (x / Pow2(n)) % 2
  {
    hide Pow2, And;
    Pow2Values();
    AndMask(Shr(x, n), 1);
    ShrValue(x, n);
  }

  /** The unit bit of the pattern is the parity of the integer part, the implicit bit included. */
  lemma OddBit(x: Word, e: nat)
    requires e <= 51 && Abs(x) / 0x10_0000_0000_0000 == BIAS + e
    ensures (x / Pow2(52 - e)) % 2 == (Significand(Abs(x)) / Pow2(52 - e)) % 2
  {
    hide Pow2;
    var m := Significand(Abs(x));
    var p, h := Pow2(52 - e), Pow2(e);
    assert h * p == HIDDEN by { Pow2Split(52, e); Pow2Values(); }
    var t := Sign(x) * 2048 + 1022 + e;
    assert x == t * HIDDEN + m;
    assert (t * h) % 2 == 0 by {
      if e == 0 {
        Pow2Values();
        assert t == 2 * (Sign(x) * 1024 + 511);
      } else {
        Pow2Succ(e - 1);
        EvenProduct(t, Pow2(e - 1));
      }
    }
    MulAssoc(t, h, p);
    SameParity(x, t * h, p, m);
  }

  lemma EvenProduct(t: nat, k: nat)
    ensures (t * (2 * k)) % 2 == 0
  {
    Doubles(t, k);
  }

  lemma SameParity(x: nat, u: nat, p: nat, m: nat)
    requires p > 0 && x == u * p + m && u % 2 == 0
    ensures (x / p) % 2 == (m / p) % 2
  {
    var q, r := m / p, m % p;
    DivModFacts(m, p);
    SumScaled(u, q, p);
    DivModUnique(x, p, u + q, r);
  }

  lemma EvenStep(e: nat, odd: nat)
    requires e <= 51 && odd <= 1
    ensures Shr(HALF - 1 + odd, e) == Pow2(51 - e) - 1 + odd && Shr(FRACMASK, e) == Pow2(52 - e) - 1
  {
    hide Pow2;
    ShiftedConstants(e);
  }

  lemma KeepAll(x: Word)
    ensures AndNotWord(Wrap(x + 0), 0) == x
  {
    AndNotZero(x);
  }

  method RoundToEven(x: Word) returns (r: Word)
    ensures !IsFinite(x) ==> r == x
    ensures IsFinite(x) ==> IsFinite(r) && IsRoundedEven(x, r)
  {
    hide Pow2, IsRoundedAway, IsRoundedEven, AndNotWord, AndWord, Shr, OrWord;
    var bits := x;
    var e := AndWord(Shr(bits, 52), MASK);
    Fields(x);
    if e >= BIAS {
      e := e - BIAS;
      var odd := AndWord(Shr(bits, Wrap(52 - e)), 1);
      UnitBit(x, Wrap(52 - e));
      if e <= 51 {
        assert Wrap(52 - e) == 52 - e;
        EvenStep(e, odd);
        EvenWithFraction(x, e, odd, Shr(FRACMASK, e));
      } else {
        LargeConstants(e);
        KeepAll(x);
        if IsFinite(x) {
          IntegerItself(x);
        }
      }
      bits := Wrap(bits + Shr(HALF - 1 + odd, e));
      bits := AndNotWord(bits, Shr(FRACMASK, e));
    } else {
      SignOnly(x);
      if e == BIAS - 1 && AndWord(bits, FRACMASK) != 0 {
        bits := OrWord(AndWord(bits, SIGNMASK), UVONE);
        BelowOneRounds(x, UVONE, 1);
      } else {
        bits := AndWord(bits, SIGNMASK);
        BelowOneRounds(x, 0, 0);
      }
    }
    return bits;
  }
}
