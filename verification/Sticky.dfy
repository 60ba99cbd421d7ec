/** Significands that carry a sticky bit, and why rounding them rounds the exact value. */
module Sticky {
  import opened Powers
  import opened Words
  import opened WordFacts
  import opened Floats

  /** m stands for num/den: either exactly, or it is odd and num/den lies strictly between
      its two even neighbours. */
  predicate IsSticky(num: nat, den: nat, m: nat) {
    num == m * den || (m % 2 == 1 && (m - 1) * den < num < (m + 1) * den)
  }

  /** A sticky significand compares with every even integer exactly as the value does. */
  lemma StickyCompares(num: nat, den: nat, m: nat, c: nat)
    requires den > 0 && IsSticky(num, den, m) && c % 2 == 0
    ensures m < c ==> num < c * den
    ensures m == c ==> num == c * den
    ensures m > c ==> num > c * den
  {
    hide Pow2;
    if m < c {
      MulStrict(m, c, den);
      MulMono(m + 1, c, den);
    } else if m > c {
      MulStrict(c, m, den);
      MulMono(c, m - 1, den);
    }
  }

  lemma StickyScaled(num: nat, den: nat, m: nat, k: nat)
    requires k > 0
    ensures IsSticky(num * k, den * k, m) <==> IsSticky(num, den, m)
  {
    hide Pow2;
    MulAssoc(m, den, k);
    MulAssoc(m - 1, den, k);
    MulAssoc(m + 1, den, k);
    CancelOrder(num, m * den, k);
    CancelOrder(num, (m + 1) * den, k);
    if m > 0 {
      MulMono(0, m - 1, den);
      CancelOrder((m - 1) * den, num, k);
    }
  }

  /** Shift right by n, or-ing the lost bits into the lowest bit kept. */
  function Jam(x: nat, n: nat): nat {
    var q := Quot(x, Pow2(n));
    if x % Pow2(n) == 0 then q else Or(q, 1)
  }

  lemma JamValue(x: nat, n: nat, q: nat, r: nat)
    requires x == q * Pow2(n) + r && r < Pow2(n)
    ensures Jam(x, n) == if r == 0 then q else q + 1 - q % 2
  {
    DivModUnique(x, Pow2(n), q, r);
    OrOne(q);
  }

  /** Jamming loses no ordering information: what was sticky stays sticky. */
  lemma JamSticky(num: nat, den: nat, x: nat, n: nat)
    requires den > 0 && IsSticky(num, den, x)
    ensures IsSticky(num, den * Pow2(n), Jam(x, n))
  {
    if n == 0 {
      JamNothing(x);
    } else {
      hide IsSticky, Jam;
      var p := Pow2(n);
      Pow2Succ(n - 1);
      hide Pow2;
      var q, r := Quot(x, p), x % p;
      DivModFacts(x, p);
      JamValue(x, n, q, r);
      JamStickyAt(num, den, x, p, q, r);
    }
  }

  lemma JamNothing(x: nat)
    ensures Jam(x, 0) == x && Pow2(0) == 1
  {
    JamValue(x, 0, x, 0);
  }

  lemma JamStickyAt(num: nat, den: nat, x: nat, p: nat, q: nat, r: nat)
    requires den > 0 && IsSticky(num, den, x)
    requires p > 0 && p % 2 == 0 && x == q * p + r && r < p
    ensures IsSticky(num, den * p, if r == 0 then q else q + 1 - q % 2)
  {
    if r == 0 {
      EvenTimes(q, p / 2);
      StickyCompares(num, den, x, x);
      Regroup(q, p, den);
    } else {
      var e := q - q % 2;
      SumScaled(e, 2, p);
      SumScaled(e, q - e, p);
      JamInexact(num, den, x, e, p);
    }
  }

  lemma JamInexact(num: nat, den: nat, x: nat, e: nat, p: nat)
    requires den > 0 && IsSticky(num, den, x)
    requires p > 0 && p % 2 == 0 && e % 2 == 0 && e * p < x < (e + 2) * p
    ensures IsSticky(num, den * p, e + 1)
  {
    hide Pow2;
    EvenTimes(e, p / 2);
    EvenTimes(e + 2, p / 2);
    StickyCompares(num, den, x, e * p);
    StickyCompares(num, den, x, (e + 2) * p);
    Regroup(e, p, den);
    Regroup(e + 2, p, den);
  }

  lemma Regroup(a: nat, b: nat, c: nat)
    ensures (a * b) * c == a * (c * b)
  {
    hide Pow2;
    MulAssoc(a, b, c);
  }

  lemma EvenTimes(a: nat, half: nat)
    ensures (a * (2 * half)) % 2 == 0
  {
    hide Pow2;
    MulAssoc(a, 2, half);
    assert a * (2 * half) == 2 * (a * half);
  }

  // ----- Rounding a sticky significand to a double -----

  /** A significand with ten extra bits, rounded to nearest with ties to even. */
  function RoundTen(m: nat): nat {
    var q := (m + 512) / 1024;
    if m % 1024 == 512 then q - q % 2 else q
  }

  lemma RoundTenFacts(m: nat)
    ensures var r: int := RoundTen(m);
            && (2 * r - 1) * 512 <= m <= (2 * r + 1) * 512
            && (m == (2 * r - 1) * 512 || m == (2 * r + 1) * 512 ==> r % 2 == 0)
  {}

  /** The significand m, scaled by 2^(pe-10), rounded into the binade at scale pe, is num/den
      rounded once; a carry out of the significand lands in the next binade. */
  lemma RoundsOnce(num: nat, den: nat, pe: nat, m: nat)
    requires den > 0 && m < 0x8000_0000_0000_0000
    requires pe > 0 ==> m >= 0x4000_0000_0000_0000
    requires IsSticky(num * 1024, den * Pow2(pe), m)
    requires Pack(pe, RoundTen(m)) < UVINF
    ensures IsNearest(num, den, Pack(pe, RoundTen(m)))
  {
    var r := RoundTen(m);
    var b := Pack(pe, r);
    RoundTenFacts(m);
    if b > 0 {
      LowerSide(num, den, pe, m, r);
    }
    UpperSide(num, den, pe, m, r);
    NearestBetweenMidpoints(num, den, b);
  }

  lemma LowerSide(num: nat, den: nat, pe: nat, m: nat, r: nat)
    requires den > 0 && IsSticky(num * 1024, den * Pow2(pe), m)
    requires r <= 2 * HIDDEN && (pe > 0 ==> HIDDEN <= r) && Pack(pe, r) > 0
    requires pe > 0 ==> m >= 0x4000_0000_0000_0000
    requires (2 * r - 1) * 512 <= m && (m == (2 * r - 1) * 512 ==> r % 2 == 0)
    ensures AboveMidpoint(num, den, Pack(pe, r))
  {
    hide Pow2, Mag, IsSticky, AboveMidpoint;
    MagAt(pe, r);
    if pe > 0 && r == HIDDEN {
      NotBelow(num, den, Pow2(pe), r, m, Pack(pe, r));
    } else {
      MagAt(pe, r - 1);
      assert Pack(pe, r) - 1 == Pack(pe, r - 1);
      AboveHalf(num, den, Pow2(pe), r - 1, r, m, Pack(pe, r));
    }
  }

  lemma UpperSide(num: nat, den: nat, pe: nat, m: nat, r: nat)
    requires den > 0 && IsSticky(num * 1024, den * Pow2(pe), m)
    requires r <= 2 * HIDDEN && (pe > 0 ==> HIDDEN <= r) && m < 0x8000_0000_0000_0000
    requires m <= (2 * r + 1) * 512 && (m == (2 * r + 1) * 512 ==> r % 2 == 0)
    ensures BelowMidpoint(num, den, Pack(pe, r))
  {
    hide Pow2, Mag, IsSticky, BelowMidpoint;
    MagAt(pe, r);
    if r == 2 * HIDDEN {
      NotAbove(num, den, Pow2(pe), r, m, Pack(pe, r));
    } else {
      MagAt(pe, r + 1);
      assert Pack(pe, r) + 1 == Pack(pe, r + 1);
      BelowHalf(num, den, Pow2(pe), r, r + 1, m, Pack(pe, r));
    }
  }

  lemma AboveHalf(num: nat, den: nat, p: nat, a: nat, a1: nat, m: nat, b: nat)
    requires den > 0 && p > 0 && b > 0 && IsSticky(num * 1024, den * p, m)
    requires a1 == a + 1 && Mag(b - 1) == a * p && Mag(b) == a1 * p
    requires (2 * a + 1) * 512 <= m && (m == (2 * a + 1) * 512 ==> b % 2 == 0)
    ensures AboveMidpoint(num, den, b)
  {
    hide Pow2, Mag, IsSticky;
    MulStrict(0, p, den);
    HalfwayCompares(num, den * p, m, 2 * a + 1);
    Midpoint(a, a1, p, den);
  }

  lemma BelowHalf(num: nat, den: nat, p: nat, a: nat, a1: nat, m: nat, b: nat)
    requires den > 0 && p > 0 && IsSticky(num * 1024, den * p, m)
    requires a1 == a + 1 && Mag(b) == a * p && Mag(b + 1) == a1 * p
    requires m <= (2 * a + 1) * 512 && (m == (2 * a + 1) * 512 ==> b % 2 == 0)
    ensures BelowMidpoint(num, den, b)
  {
    hide Pow2, Mag, IsSticky;
    MulStrict(0, p, den);
    HalfwayCompares(num, den * p, m, 2 * a + 1);
    Midpoint(a, a1, p, den);
  }

  lemma NotBelow(num: nat, den: nat, p: nat, a: nat, m: nat, b: nat)
    requires den > 0 && p > 0 && b > 0 && IsSticky(num * 1024, den * p, m)
    requires Mag(b) == a * p && a * 1024 <= m
    ensures Mag(b) * den <= num && AboveMidpoint(num, den, b)
  {
    hide Pow2, Mag, IsSticky, AboveMidpoint;
    MulStrict(0, p, den);
    HalfwayCompares(num, den * p, m, 2 * a);
    Midpoint(a, a, p, den);
    SumScaled(a * p, a * p, den);
    AtOrAbove(num, den, b);
  }

  lemma NotAbove(num: nat, den: nat, p: nat, a: nat, m: nat, b: nat)
    requires den > 0 && p > 0 && IsSticky(num * 1024, den * p, m)
    requires Mag(b) == a * p && m <= a * 1024
    ensures BelowMidpoint(num, den, b)
  {
    hide Pow2, Mag, IsSticky, BelowMidpoint;
    MulStrict(0, p, den);
    HalfwayCompares(num, den * p, m, 2 * a);
    Midpoint(a, a, p, den);
    SumScaled(a * p, a * p, den);
    AtOrBelow(num, den, b);
  }

  /** Comparing with half units: c counts halves of a unit of the rounded significand. */
  lemma HalfwayCompares(num: nat, d: nat, m: nat, c: nat)
    requires d > 0 && IsSticky(num * 1024, d, m)
    ensures m < c * 512 ==> 2 * num < c * d
    ensures m == c * 512 ==> 2 * num == c * d
    ensures m > c * 512 ==> 2 * num > c * d
  {
    hide IsSticky;
    StickyCompares(num * 1024, d, m, c * 512);
    assert (c * 512) * d == 512 * (c * d);
  }

  lemma Midpoint(a: nat, b: nat, p: nat, den: nat)
    ensures (a * p + b * p) * den == (a + b) * (den * p)
  {
    SumScaled(a, b, p);
    Regroup(a + b, p, den);
  }

  /** At or past the midpoint between the largest double and 2^1024, the answer is infinity. */
  lemma Overflows(num: nat, den: nat, pe: nat, m: nat)
    requires den > 0 && m >= 0x4000_0000_0000_0000
    requires IsSticky(num * 1024, den * Pow2(pe), m)
    requires pe > 2045 || (pe == 2045 && m + 512 >= 0x8000_0000_0000_0000)
    ensures IsNearest(num, den, UVINF)
  {
    hide Mag, Pow2, IsSticky, AboveMidpoint;
    MagInf();
    if pe == 2045 {
      assert Pack(2045, 2 * HIDDEN) == UVINF;
      LowerSide(num, den, 2045, m, 2 * HIDDEN);
    } else {
      NotBelow2046(num, den, Pow2(pe), Pow2(pe - 2046), m) by { Pow2Split(pe, 2046); }
    }
    NearestBetweenMidpoints(num, den, UVINF);
  }

  lemma NotBelow2046(num: nat, den: nat, p: nat, k: nat, m: nat)
    requires den > 0 && k > 0 && p == k * Pow2(2046) && m >= 0x4000_0000_0000_0000
    requires IsSticky(num * 1024, den * p, m)
    ensures AboveMidpoint(num, den, UVINF)
  {
    hide Mag, Pow2, IsSticky, AboveMidpoint;
    var q := Pow2(2046);
    MulStrict(0, k, q);
    MulStrict(0, p, den);
    HalfwayCompares(num, den * p, m, 2 * HIDDEN);
    MulMono(1, k, q);
    MulMono(q, p, den);
    MagInf();
    AtOrAbove(num, den, UVINF) by {
      MulMono(den * q, den * p, 2 * HIDDEN);
      Regroup(HIDDEN, q, den);
    }
  }
}
