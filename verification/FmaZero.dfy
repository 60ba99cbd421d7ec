/** The shortcut of math/fma.go for zero operands, which multiplies and adds in hardware: with two
    correctly rounded operations, when is the result still x*y+z rounded once? */
module FmaZero {
  import opened Powers
  import opened Words
  import opened Floats
  import opened Fma

  /** The product of two finite numbers, correctly rounded. */
  function Mul(x: Word, y: Word): (p: Word)
    ensures Sign(p) == (Sign(x) + Sign(y)) % 2
    ensures IsNearest(Times(Mag(Abs(x)), Mag(Abs(y))), Pow2(1074), Abs(p))
  {
    Signed64((Sign(x) + Sign(y)) % 2, Nearest(Times(Mag(Abs(x)), Mag(Abs(y))), Pow2(1074)))
  }

  function Signed64(s: nat, a: nat): (p: Word)
    requires s <= 1 && a <= UVINF
    ensures Sign(p) == s && Abs(p) == a
  {
    s * SIGNMASK + a
  }

  /** The sum when one operand is zero. Two zeros of different signs give +0 (section 6.3 of
      IEEE 754-2019). */
  function AddZero(p: Word, z: Word): (r: Word) {
    if !IsZero(p) then p
    else if !IsZero(z) then z
    else if Sign(p) == 1 && Sign(z) == 1 then SIGNMASK
    else 0
  }

  function MulAdd(x: Word, y: Word, z: Word): (r: Word) { AddZero(Mul(x, y), z) }

  /** A negative product too small for a double, plus +0. */
  predicate LosesSign(x: Word, y: Word, z: Word) {
    && z == 0 && !IsZero(x) && !IsZero(y) && Sign(x) != Sign(y)
    && 2 * Times(Mag(Abs(x)), Mag(Abs(y))) <= Pow2(1074)
  }

  /** Zero is nearest up to half the smallest double. */
  lemma Underflow(num: nat, den: nat, r: nat)
    requires den > 0 && IsNearest(num, den, r)
    ensures r == 0 <==> 2 * num <= den
  {
    assert Mag(0) == 0 && Mag(1) == 1 by {
      Pow2Values();
    }
    hide Mag;
    if 2 * num <= den {
      NearestBetweenMidpoints(num, den, 0);
      NearestUnique(num, den, 0, r);
    } else {
      assert !NoCloser(num, den, 0, 1);
    }
  }

  lemma Magnitudes(x: Word)
    ensures Mag(Abs(x)) == 0 <==> IsZero(x)
  {
    hide Mag;
    if Abs(x) > 0 {
      MagMono(0, Abs(x));
    }
    assert Mag(0) == 0 by {
      ZeroMagnitude();
    }
  }

  lemma ZeroMagnitude()
    ensures Mag(0) == 0
  {
  }

  lemma TimesZero(a: nat, b: nat)
    ensures Times(a, b) == 0 <==> a == 0 || b == 0
  {
  }

  lemma ExactWithoutProduct(x: Word, y: Word, z: Word)
    requires IsFinite(z) && (IsZero(x) || IsZero(y))
    ensures Exact(x, y, z) == 0 <==> IsZero(z)
    ensures !IsZero(z) ==> IsRounded(Exact(x, y, z), Pow2(1074), z)
    ensures IsZero(Mul(x, y))
    ensures IsZero(z) ==> MulAdd(x, y, z) == if Sign(x) != Sign(y) && Sign(z) == 1 then SIGNMASK else 0
  {
    hide Mag, Pow2, IsNearest, Exact, Times;
    var a := Mag(Abs(z));
    Magnitudes(x);
    Magnitudes(y);
    Magnitudes(z);
    TimesZero(Mag(Abs(x)), Mag(Abs(y)));
    TimesZero(a, Pow2(1074));
    ExactSigned(x, y, z);
    Underflow(0, Pow2(1074), Abs(Mul(x, y)));
    assert Times(a, Pow2(1074)) == a * Pow2(1074) by {
      TimesIs(a, Pow2(1074));
    }
    NearestExact(a * Pow2(1074), Pow2(1074), Abs(z));
  }

  lemma TimesIs(a: nat, b: nat)
    ensures Times(a, b) == a * b
  {
  }

  lemma ExactWithoutAddend(x: Word, y: Word, z: Word)
    requires IsFinite(x) && IsFinite(y) && !IsZero(x) && !IsZero(y) && IsZero(z)
    ensures Exact(x, y, z) != 0
    ensures IsRounded(Exact(x, y, z), Pow2(1074), MulAdd(x, y, z)) <==> !LosesSign(x, y, z)
    ensures LosesSign(x, y, z) ==> MulAdd(x, y, z) == 0 && IsRounded(Exact(x, y, z), Pow2(1074), SIGNMASK)
  {
    hide Mag, Pow2, IsNearest, Exact, Times;
    Magnitudes(x);
    Magnitudes(y);
    Magnitudes(z);
    TimesZero(Mag(Abs(x)), Mag(Abs(y)));
    TimesZero(Mag(Abs(z)), Pow2(1074));
    ExactSigned(x, y, z);
    Underflow(Times(Mag(Abs(x)), Mag(Abs(y))), Pow2(1074), Abs(Mul(x, y)));
  }

  /** FMA of finite operands. A sum that is not zero is rounded once unless the shortcut loses its
      sign; then the result is +0 instead of -0. */
  method FiniteFMA(x: Word, y: Word, z: Word) returns (r: Word)
    requires IsFinite(x) && IsFinite(y) && IsFinite(z)
    ensures Exact(x, y, z) != 0 ==> (IsRounded(Exact(x, y, z), Pow2(1074), r) <==> !LosesSign(x, y, z))
    ensures Exact(x, y, z) == 0 ==> r == if Sign(x) != Sign(y) && z == SIGNMASK then SIGNMASK else 0
    ensures LosesSign(x, y, z) ==> r == 0 && IsRounded(Exact(x, y, z), Pow2(1074), SIGNMASK)
  {
    hide Mag, Pow2, IsNearest, Exact, Times, Mul;
    r := FMA(x, y, z, MulAdd);
    if IsZero(x) || IsZero(y) {
      ExactWithoutProduct(x, y, z);
    } else if IsZero(z) {
      ExactWithoutAddend(x, y, z);
    }
  }

  /** The smallest double times its negative, plus +0. */
  lemma SmallestSquare()
    ensures var x, y, z := 1, SIGNMASK + 1, 0;
            && MulAdd(x, y, z) == 0
            && IsRounded(Exact(x, y, z), Pow2(1074), SIGNMASK) && !IsRounded(Exact(x, y, z), Pow2(1074), 0)
  {
    assert Abs(1) == 1 && Abs(SIGNMASK + 1) == 1 && Sign(1) == 0 && Sign(SIGNMASK + 1) == 1;
    assert Mag(1) == 1 by {
      Pow2Values();
    }
    hide Mag, Pow2, Exact, IsNearest;
    Pow2Mono(1, 1074);
    Pow2Values();
    ExactWithoutAddend(1, SIGNMASK + 1, 0);
  }
}
