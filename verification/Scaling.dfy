/** math/frexp.go, math/ldexp.go and normalize of math/bits.go. */
module Scaling {
  import opened Powers
  import opened Words
  import opened WordFacts
  import opened Floats

  const MIN_INT: int := -0x8000_0000_0000_0000
  const MAX_INT: int := 0x7FFF_FFFF_FFFF_FFFF

  /** Go's int: 64 bits, wrapping. */
  function WrapInt(x: int): (r: int)
    ensures MIN_INT <= r <= MAX_INT
    ensures MIN_INT <= x <= MAX_INT ==> r == x
  {
    (x - MIN_INT) % W64 + MIN_INT
  }

  /** Hardware multiplication of a finite x by the constant num/den: rounded once. */
  function MulConst(x: Word, num: nat, den: nat): (r: Word)
    requires den > 0
    ensures Sign(r) == Sign(x)
    ensures IsNearest(Times(Mag(Abs(x)), num), den, Abs(r))
  {
    hide Mag, IsNearest;
    var a := Nearest(Times(Mag(Abs(x)), num), den);
    SignAndMagnitude(Sign(x), a);
    Sign(x) * SIGNMASK + a
  }

  /** a == b * 2^e. */
  predicate ScaledBy(a: nat, b: nat, e: int) {
    if e >= 0 then a == b * Pow2(e) else a * Pow2(-e) == b
  }

  /** floor(log2) of a finite nonzero magnitude, as a power of two of the value itself. */
  function Exponent(a: nat): int
    requires a > 0
  {
    if a < HIDDEN then Log2(a) - 1074 else a / 0x10_0000_0000_0000 - 1023
  }

  /** frac and exp split a finite nonzero f: frac lies in [1/2, 1), keeps the sign, and
      f is exactly frac * 2^exp. */
  predicate IsFrexp(f: Word, frac: Word, exp: int) {
    && Sign(frac) == Sign(f)
    && Pow2(1073) <= Mag(Abs(frac)) < Pow2(1074)
    && ScaledBy(Mag(Abs(f)), Mag(Abs(frac)), exp)
  }

  /** r is a * 2^e rounded once. */
  ghost predicate NearestScaledBy(a: nat, e: int, r: nat) {
    if e >= 0 then IsNearest(Times(a, Pow2(e)), 1, r) else IsNearest(a, Pow2(-e), r)
  }

  /** r is frac * 2^exp rounded once, sign included. */
  ghost predicate IsLdexp(frac: Word, exp: int, r: Word) {
    Sign(r) == Sign(frac) && NearestScaledBy(Mag(Abs(frac)), exp, Abs(r))
  }

  /** A normal y and an exponent with x == y * 2^exp. */
  method Normalize(x: Word) returns (y: Word, exp: int)
    requires IsFinite(x) && !IsZero(x)
    ensures Sign(y) == Sign(x) && IsFinite(y) && Abs(y) >= HIDDEN
    ensures exp == 0 || exp == -52
    ensures Mag(Abs(y)) == Mag(Abs(x)) * Pow2(-exp)
    ensures Exponent(Abs(y)) + exp == Exponent(Abs(x))
  {
    hide Mag, Pow2, IsNearest;
    if Abs(x) < HIDDEN {
      y := MulConst(x, Shl(1, 52), 1);
      SubnormalTimes2to52(Abs(x), Abs(y));
      exp := -52;
    } else {
      y, exp := x, 0;
      Pow2Values();
    }
  }

  /** Multiplying a subnormal by 2^52 is exact. */
  lemma SubnormalTimes2to52(a: nat, b: nat)
    requires 0 < a < HIDDEN && IsNearest(Times(Mag(a), Shl(1, 52)), 1, b)
    ensures Mag(b) == Mag(a) * Pow2(52) && HIDDEN <= b < UVINF
    ensures Exponent(b) - 52 == Exponent(a)
  {
    hide Mag, Pow2, IsNearest;
    Pow2Values();
    ShlExact(1, 52);
    MagAt(0, a);
    var k := Log2(a);
    Pow2Succ(k);
    if k >= 52 {
      Pow2Mono(52, k);
    }
    Pow2Split(52, k);
    Pow2Succ(52 - k);
    var m := a * Pow2(52 - k);
    MulMono(Pow2(k), a, Pow2(52 - k));
    MulStrict(a, 2 * Pow2(k), Pow2(52 - k));
    MulAssoc(2, Pow2(k), Pow2(52 - k));
    MulAssoc(a, Pow2(52 - k), Pow2(k));
    MagAt(k, m);
    NearestExact(a * HIDDEN, 1, Pack(k, m));
    NearestUnique(a * HIDDEN, 1, b, Pack(k, m));
  }

  /** Clearing the exponent field and or-ing in e replaces the biased exponent. */
  lemma SetExponent(x: Word, e: nat)
    requires 0 < e < 2047
    ensures var r := OrWord(AndNotWord(x, Shl(MASK, 52)), Shl(e, 52));
            && Sign(r) == Sign(x)
            && Abs(r) == Pack(e - 1, HIDDEN + Abs(x) % 0x10_0000_0000_0000)
  {
    hide Pow2, AndNotWord, OrWord, Shl;
    ReplaceField(x, e);
    var l := Abs(x) % 0x10_0000_0000_0000;
    assert x % 0x10_0000_0000_0000 == l;
    assert Pack(e, l) == Pack(e - 1, HIDDEN + l);
    SignAndMagnitude(Sign(x), Pack(e - 1, HIDDEN + l));
  }

  lemma ReplaceField(x: Word, e: nat)
    requires 0 < e < 2047
    ensures OrWord(AndNotWord(x, Shl(MASK, 52)), Shl(e, 52)) == Sign(x) * SIGNMASK + Pack(e, x % 0x10_0000_0000_0000)
  {
    hide Pow2, AndNot, Or, Shl;
    var h, l := x / 0x10_0000_0000_0000, x % 0x10_0000_0000_0000;
    assert Shl(MASK, 52) == MASK * 0x10_0000_0000_0000 && Shl(e, 52) == e * 0x10_0000_0000_0000 by {
      Pow2Values();
      ShlExact(MASK, 52);
      ShlExact(e, 52);
    }
    ClearField(x, h, l);
    assert Or(Sign(x) * SIGNMASK + l, Shl(e, 52)) == Sign(x) * SIGNMASK + Pack(e, l) by {
      Pow2Values();
      OrShifted(Sign(x) * 2048, l, e, 52);
      OrDisjoint(Sign(x), e, 11);
    }
  }

  lemma ClearField(x: Word, h: nat, l: nat)
    requires h == x / 0x10_0000_0000_0000 && l == x % 0x10_0000_0000_0000
    ensures AndNot(x, MASK * 0x10_0000_0000_0000) == Sign(x) * SIGNMASK + l
  {
    hide Pow2, AndNot;
    Pow2Values();
    AndNotShifted(h, l, MASK, 52);
    AndNotMask(h, 11);
    assert h == Sign(x) * 2048 + h % 2048;
  }

  /** A pattern with a given biased exponent, in terms of the normal pattern it came from. */
  lemma ExponentReplaced(a: nat, e: nat)
    requires HIDDEN <= a < UVINF && 0 < e < 2047
    ensures var b := Pack(e - 1, HIDDEN + a % 0x10_0000_0000_0000);
            && b < UVINF
            && Mag(b) == Significand(a) * Pow2(e - 1)
            && Mag(a) == Significand(a) * Pow2(a / 0x10_0000_0000_0000 - 1)
  {
    hide Pow2, Mag;
    PackParts(a);
    MagAt(e - 1, Significand(a));
    MagAt(Scale(a), Significand(a));
  }

  method Frexp(f: Word) returns (frac: Word, exp: int)
    ensures IsZero(f) || !IsFinite(f) ==> frac == f && exp == 0
    ensures !IsZero(f) && IsFinite(f) ==>
              IsFrexp(f, frac, exp) && exp == Exponent(Abs(f)) + 1 && IsFinite(frac) && !IsZero(frac)
  {
    hide Mag, Pow2, AndNotWord, OrWord, AndWord, Shr, Shl, IsNearest;
    if IsZero(f) || !IsFinite(f) {
      return f, 0;
    }
    var n;
    n, exp := Normalize(f);
    var x := n;
    Fields(x);
    SetExponent(x, BIAS - 1);
    FrexpFraction(Abs(f), Abs(n), exp);
    exp := exp + AndWord(Shr(x, 52), MASK) - BIAS + 1;
    x := AndNotWord(x, Shl(MASK, 52));
    x := OrWord(x, Shl(BIAS - 1, 52));
    frac := x;
  }

  lemma FrexpFraction(a: nat, n: nat, e: int)
    requires HIDDEN <= n < UVINF && (e == 0 || e == -52) && Mag(n) == Mag(a) * Pow2(-e)
    requires a > 0 && Exponent(n) + e == Exponent(a)
    ensures var b := Pack(BIAS - 2, HIDDEN + n % 0x10_0000_0000_0000);
            && Pow2(1073) <= Mag(b) < Pow2(1074)
            && ScaledBy(Mag(a), Mag(b), Exponent(a) + 1)
  {
    hide Mag, Pow2, Significand;
    var m := Significand(n);
    var s := n / 0x10_0000_0000_0000 - 1;
    assert HIDDEN <= m < 2 * HIDDEN by { PackParts(n); PartsOfNormal(n); }
    ExponentReplaced(n, BIAS - 1);
    Pow2Values();
    Pow2Add(52, 1021);
    Pow2Add(53, 1021);
    MulMono(HIDDEN, m, Pow2(1021));
    MulStrict(m, 2 * HIDDEN, Pow2(1021));
    // Mag(a) * 2^-e == m * 2^s and the fraction is m * 2^1021
    CrossScaled(Mag(a), m, -e, s, 1021);
    assert Exponent(a) + 1 == s + e - 1021;
  }

  lemma PartsOfNormal(n: nat)
    requires n >= HIDDEN
    ensures Significand(n) >= HIDDEN
  {}

  /** a * 2^i == m * 2^s relates a to m * 2^t by the exponent s - i - t. */
  lemma CrossScaled(a: nat, m: nat, i: nat, s: nat, t: nat)
    requires Times(a, Pow2(i)) == Times(m, Pow2(s))
    ensures ScaledBy(a, Times(m, Pow2(t)), s - i - t)
  {
    hide Pow2, Times, ScaledBy;
    if s >= i + t {
      CrossUp(a, m, i, t, s - i - t);
    } else {
      CrossDown(a, m, i, s, i + t - s);
      assert 0 - (i + t - s) == s - i - t;
    }
  }

  lemma CrossUp(a: nat, m: nat, i: nat, t: nat, d: nat)
    requires Times(a, Pow2(i)) == Times(m, Pow2(t + d + i))
    ensures ScaledBy(a, Times(m, Pow2(t)), d)
  {
    hide Pow2;
    Pow2Add(t, d);
    Pow2Add(t + d, i);
    CancelUp(a, m, Pow2(i), Pow2(t + d + i), Pow2(t), Pow2(d));
  }

  lemma CrossDown(a: nat, m: nat, i: nat, s: nat, n: nat)
    requires n > 0 && s + n >= i && Times(a, Pow2(i)) == Times(m, Pow2(s))
    ensures ScaledBy(a, Times(m, Pow2(s + n - i)), 0 - n)
  {
    hide Pow2;
    Pow2Add(s, n);
    Pow2Split(s + n, i);
    CancelDown(a, m, Pow2(i), Pow2(s), Pow2(s + n - i), Pow2(n));
  }

  lemma CancelUp(a: nat, m: nat, i: nat, s: nat, t: nat, d: nat)
    requires i > 0 && a * i == m * s && s == (t * d) * i
    ensures a == (m * t) * d
  {
    assert m * s == ((m * t) * d) * i by {
      MulAssoc(m, t * d, i);
      MulAssoc(m, t, d);
    }
    CancelFactor(a, (m * t) * d, i);
  }

  lemma CancelDown(a: nat, m: nat, i: nat, s: nat, t: nat, n: nat)
    requires i > 0 && a * i == m * s && s * n == t * i
    ensures a * n == m * t
  {
    assert (a * n) * i == (m * t) * i by {
      assert (a * n) * i == (a * i) * n;
      MulAssoc(m, s, n);
      MulAssoc(m, t, i);
    }
    CancelFactor(a * n, m * t, i);
  }

  lemma CancelFactor(a: int, b: int, k: int)
    requires k > 0 && a * k == b * k
    ensures a == b
  {}

  // ----- ldexp -----

  /** Any sufficiently large denominator states the same rounding. */
  lemma WithDenominator(a: nat, e: int, c: nat, r: nat)
    requires e + c >= 0
    ensures NearestScaledBy(a, e, r) <==> IsNearest(Times(a, Pow2(e + c)), Pow2(c), r)
  {
    hide Pow2, IsNearest;
    if e >= 0 {
      Pow2Add(e, c);
      MulAssoc(a, Pow2(e), Pow2(c));
      NearestScaled(Times(a, Pow2(e)), 1, Pow2(c), r);
    } else {
      Pow2Split(c, -e);
      NearestScaled(a, Pow2(-e), Pow2(e + c), r);
    }
  }

  /** Equal exact values round alike, however they are written as a product. */
  lemma SameValue(a: nat, exp: int, i: nat, m: nat, s: nat, t: int, r: nat)
    requires Times(a, Pow2(i)) == Times(m, Pow2(s)) && exp - i == t - s
    ensures NearestScaledBy(a, exp, r) <==> NearestScaledBy(m, t, r)
  {
    hide Pow2, IsNearest, NearestScaledBy;
    var w: nat := Dist(exp, 0) + Dist(t, 0);
    var c := w + i - exp;
    WithDenominator(a, exp, c, r);
    WithDenominator(m, t, c, r);
    SameProduct(a, i, m, s, w);
    assert exp + c == i + w && t + c == s + w;
  }

  lemma SameProduct(a: nat, i: nat, m: nat, s: nat, w: nat)
    requires Times(a, Pow2(i)) == Times(m, Pow2(s))
    ensures Times(a, Pow2(i + w)) == Times(m, Pow2(s + w))
  {
    hide Pow2;
    Pow2Add(i, w);
    Pow2Add(s, w);
    MulAssoc(a, Pow2(i), Pow2(w));
    MulAssoc(m, Pow2(s), Pow2(w));
  }

  /** Below half the least subnormal everything rounds to zero. */
  lemma RoundsToZero(m: nat, t: int)
    requires m < 2 * HIDDEN && t <= -54
    ensures NearestScaledBy(m, t, 0)
  {
    hide Pow2, Mag, IsNearest;
    Pow2Mono(54, -t);
    Pow2Values();
    Pow2Succ(53);
    MagAt(0, 0);
    MagAt(0, 1);
    NearestBetweenMidpoints(m, Pow2(-t), 0);
  }

  /** From 2^1024 on everything rounds to infinity. */
  lemma RoundsToInfinity(m: nat, t: int)
    requires m >= HIDDEN && t >= 2046
    ensures NearestScaledBy(m, t, UVINF)
  {
    hide Pow2, Mag, IsNearest, AboveMidpoint, BelowMidpoint;
    MagInf();
    Pow2Mono(2046, t);
    MulMono(Pow2(2046), Pow2(t), HIDDEN);
    MulMono(HIDDEN, m, Pow2(t));
    AtOrAbove(Times(m, Pow2(t)), 1, UVINF);
    NearestBetweenMidpoints(Times(m, Pow2(t)), 1, UVINF);
  }

  lemma NearestScaledByUnique(a: nat, e: int, r: nat, s: nat)
    requires NearestScaledBy(a, e, r) && NearestScaledBy(a, e, s)
    ensures r == s
  {
    hide Pow2, Mag, IsNearest;
    if e >= 0 {
      NearestUnique(Times(a, Pow2(e)), 1, r, s);
    } else {
      NearestUnique(a, Pow2(-e), r, s);
    }
  }

  /** frac * 2^exp0 in terms of the normalised significand: k is the exponent of the result. */
  lemma NormalisedValue(a: nat, n: nat, e: int, exp0: int, r: nat)
    requires 0 < a < UVINF && HIDDEN <= n < UVINF && (e == 0 || e == -52)
    requires Mag(n) == Mag(a) * Pow2(-e) && Exponent(n) + e == Exponent(a)
    ensures HIDDEN <= Significand(n) < 2 * HIDDEN
    ensures NearestScaledBy(Mag(a), exp0, r) <==> NearestScaledBy(Significand(n), exp0 + Exponent(a) + 1022, r)
  {
    hide Pow2, Mag, NearestScaledBy, Significand;
    PackParts(n);
    PartsOfNormal(n);
    ExponentReplaced(n, BIAS);
    SameValue(Mag(a), exp0, -e, Significand(n), n / 0x10_0000_0000_0000 - 1, exp0 + Exponent(a) + 1022, r);
  }

  lemma ExponentRange(a: nat)
    requires 0 < a < UVINF
    ensures -1074 <= Exponent(a) <= 1023
  {
    if a < HIDDEN {
      hide Pow2;
      if Log2(a) > 52 {
        Pow2Mono(52, Log2(a));
      }
      Pow2Values();
    }
  }

  /** The code's extreme answers are right exactly when the exponent did not wrap. */
  lemma Extremes(frac: Word, n: Word, e: int, exp0: int, r: Word)
    requires IsFinite(frac) && !IsZero(frac) && MIN_INT <= exp0 <= MAX_INT
    requires HIDDEN <= Abs(n) < UVINF && (e == 0 || e == -52) && Sign(r) == Sign(frac)
    requires Mag(Abs(n)) == Mag(Abs(frac)) * Pow2(-e) && Exponent(Abs(n)) + e == Exponent(Abs(frac))
    requires var k := WrapInt(exp0 + Exponent(Abs(frac)));
             (k < -1075 && Abs(r) == 0) || (k > 1023 && Abs(r) == UVINF)
    ensures IsLdexp(frac, exp0, r) <==> MIN_INT <= exp0 + Exponent(Abs(frac)) <= MAX_INT
  {
    hide Pow2, Mag, NearestScaledBy, Significand;
    var k := exp0 + Exponent(Abs(frac));
    ExponentRange(Abs(frac));
    NormalisedValue(Abs(frac), Abs(n), e, exp0, Abs(r));
    var m := Significand(Abs(n));
    var right := if k < -1075 then 0 else UVINF;
    if k < -1075 {
      RoundsToZero(m, k + 1022);
    } else {
      RoundsToInfinity(m, k + 1022);
    }
    if NearestScaledBy(m, k + 1022, Abs(r)) {
      NearestScaledByUnique(m, k + 1022, Abs(r), right);
    }
  }

  /** A result exponent within the double's range: scale exactly, then round at most once. */
  lemma InRange(frac: Word, n: Word, e: int, exp0: int, x: Word, down: nat, r: Word)
    requires IsFinite(frac) && !IsZero(frac)
    requires HIDDEN <= Abs(n) < UVINF && (e == 0 || e == -52) && Sign(r) == Sign(frac)
    requires Mag(Abs(n)) == Mag(Abs(frac)) * Pow2(-e) && Exponent(Abs(n)) + e == Exponent(Abs(frac))
    requires 0 < exp0 + Exponent(Abs(frac)) + down + BIAS < 2047
    requires Abs(x) == Pack(exp0 + Exponent(Abs(frac)) + down + BIAS - 1, HIDDEN + Abs(n) % 0x10_0000_0000_0000)
    requires IsNearest(Times(Mag(Abs(x)), 1), Pow2(down), Abs(r))
    ensures IsLdexp(frac, exp0, r)
  {
    hide Pow2, Mag, NearestScaledBy, Significand, IsNearest;
    var t := exp0 + Exponent(Abs(frac)) + 1022;
    NormalisedValue(Abs(frac), Abs(n), e, exp0, Abs(r));
    ExponentReplaced(Abs(n), t + down + 1);
    WithDenominator(Significand(Abs(n)), t, down, Abs(r));
  }

  lemma WrapTwice(x: int, d: int)
    ensures WrapInt(WrapInt(x) + d) == WrapInt(x + d)
  {
    var q := (x - MIN_INT) / W64;
    assert WrapInt(x) == x - q * W64;
    assert WrapInt(x + d) == (x - MIN_INT + d) % W64 + MIN_INT;
  }

  /** A wrapped exponent is never mistaken for one in the double's range. */
  lemma WrapMid(k: int)
    requires MIN_INT - 1074 <= k <= MAX_INT + 1023
    ensures -1075 <= WrapInt(k) <= 1023 ==> WrapInt(k) == k
    ensures (k > MAX_INT ==> WrapInt(k) < -1075) && (k < MIN_INT ==> WrapInt(k) > 1023)
  {}

  /** Ldexp's adjusted exponent is computed in wrapping int arithmetic, so the result is
      frac * 2^exp rounded once exactly when the exponent of the result fits an int. Beyond it
      zero takes the place of infinity, and infinity that of zero. */
  method Ldexp(frac: Word, exp0: int) returns (r: Word)
    requires MIN_INT <= exp0 <= MAX_INT
    ensures IsZero(frac) || !IsFinite(frac) ==> r == frac
    ensures !IsZero(frac) && IsFinite(frac) ==>
              && Sign(r) == Sign(frac)
              && (IsLdexp(frac, exp0, r) <==> MIN_INT <= exp0 + Exponent(Abs(frac)) <= MAX_INT)
              && (exp0 + Exponent(Abs(frac)) > MAX_INT ==> Abs(r) == 0)
              && (exp0 + Exponent(Abs(frac)) < MIN_INT ==> Abs(r) == UVINF)
  {
    hide Mag, Pow2, AndNotWord, OrWord, AndWord, Shr, Shl, IsNearest, IsLdexp, Nearest, Times, MulConst, WrapInt;
    if IsZero(frac) || !IsFinite(frac) {
      return frac;
    }
    var n, e := Normalize(frac);
    var exp := WrapInt(exp0 + e);
    var x := n;
    Fields(x);
    ghost var k := exp0 + Exponent(Abs(frac));
    WrapTwice(exp0 + e, AndWord(Shr(x, 52), MASK) - BIAS);
    exp := WrapInt(exp + (AndWord(Shr(x, 52), MASK) - BIAS));
    assert exp == WrapInt(k);
    ExponentRange(Abs(frac));
    WrapMid(k);
    if exp < -1075 {
      SignAndMagnitude(Sign(n), 0);
      r := Sign(n) * SIGNMASK;
      Extremes(frac, n, e, exp0, r);
      return;
    }
    if exp > 1023 {
      SignAndMagnitude(Sign(n), UVINF);
      r := if Sign(n) == 1 then SIGNMASK + UVINF else UVINF;
      Extremes(frac, n, e, exp0, r);
      return;
    }
    var down := 0;
    if exp < -1022 {
      exp := exp + 53;
      down := 53;
    }
    SetExponent(x, exp + BIAS);
    x := AndNotWord(x, Shl(MASK, 52));
    x := OrWord(x, Shl(exp + BIAS, 52));
    r := MulConst(x, 1, Pow2(down));
    InRange(frac, n, e, exp0, x, down, r);
  }

  /** Ldexp undoes Frexp on every finite nonzero double. */
  lemma LdexpUndoesFrexp(f: Word, frac: Word, exp: int, r: Word)
    requires IsFinite(f) && !IsZero(f) && IsFrexp(f, frac, exp) && IsLdexp(frac, exp, r)
    ensures r == f
  {
    hide Mag, Pow2, IsNearest;
    var a, b := Mag(Abs(f)), Mag(Abs(frac));
    if exp >= 0 {
      NearestExact(Times(b, Pow2(exp)), 1, Abs(f));
      NearestUnique(Times(b, Pow2(exp)), 1, Abs(f), Abs(r));
    } else {
      NearestExact(b, Pow2(-exp), Abs(f));
      NearestUnique(b, Pow2(-exp), Abs(f), Abs(r));
    }
    assert f == Sign(f) * SIGNMASK + Abs(f) && r == Sign(r) * SIGNMASK + Abs(r);
  }

  /** The two functions, one after the other. */
  method RoundTrip(f: Word) returns (r: Word)
    requires IsFinite(f) && !IsZero(f)
    ensures r == f
  {
    hide IsFrexp, IsLdexp, Mag, Pow2, Log2;
    var frac, exp := Frexp(f);
    ExponentRange(Abs(f));
    ExponentRange(Abs(frac));
    r := Ldexp(frac, exp);
    LdexpUndoesFrexp(f, frac, exp, r);
  }

  /** Ldexp(2, MaxInt) is infinite, and the code returns zero. */
  method LdexpWraps() returns (r: Word)
    ensures r == 0 && !IsLdexp(0x4000_0000_0000_0000, MAX_INT, r)
    ensures IsLdexp(0x4000_0000_0000_0000, MAX_INT, UVINF)
  {
    hide IsLdexp, NearestScaledBy, Mag, Pow2;
    var two: Word := 0x4000_0000_0000_0000;
    assert Exponent(Abs(two)) == 1 && Sign(two) == 0;
    r := Ldexp(two, MAX_INT);
    NormalisedValue(Abs(two), Abs(two), 0, MAX_INT, UVINF) by {
      assert Pow2(0) == 1 by {
        Pow2Values();
      }
    }
    RoundsToInfinity(Significand(Abs(two)), MAX_INT + 1 + 1022);
    PositiveLdexp(two, MAX_INT, UVINF);
  }

  lemma PositiveLdexp(frac: Word, exp: int, r: Word)
    requires Sign(r) == Sign(frac) && NearestScaledBy(Mag(Abs(frac)), exp, Abs(r))
    ensures IsLdexp(frac, exp, r)
  {
  }
}
