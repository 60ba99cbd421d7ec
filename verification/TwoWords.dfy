/** Values held in two words, as math/fma.go holds the 106-bit product. */
module TwoWords {
  import opened Powers
  import opened Words
  import opened WordFacts
  import opened Sticky

  function Zero(x: Word): Word { if x == 0 then 1 else 0 }

  function NonZero(x: Word): Word { if x != 0 then 1 else 0 }

  /** The value of the pair u1:u2. */
  function Pair(u1: Word, u2: Word): nat { u1 * 0x1_0000_0000_0000_0000 + u2 }

  /** Shift amounts are unsigned words, so 64-n wraps to a huge amount once n exceeds 64. */
  function ShlPair(u1: Word, u2: Word, n: Word): (Word, Word) {
    (OrWord(OrWord(Shl(u1, n), Shr(u2, Wrap(64 - n))), Shl(u2, Wrap(n - 64))), Shl(u2, n))
  }

  function ShrPair(u1: Word, u2: Word, n: Word): (Word, Word) {
    (Shr(u1, n), OrWord(OrWord(Shr(u2, n), Shl(u1, Wrap(64 - n))), Shr(u1, Wrap(n - 64))))
  }

  function ShrCompress(u1: Word, u2: Word, n: Word): (Word, Word) {
    if n == 0 then (u1, u2)
    else if n == 64 then (0, OrWord(u1, NonZero(u2)))
    else if n >= 128 then (0, NonZero(OrWord(u1, u2)))
    else if n < 64 then
      var r := ShrPair(u1, u2, n);
      (r.0, OrWord(r.1, NonZero(AndWord(u2, Wrap(Shl(1, n) - 1)))))
    else
      var r := ShrPair(u1, u2, n);
      (r.0, OrWord(r.1, NonZero(OrWord(AndWord(u1, Wrap(Shl(1, n - 64) - 1)), u2))))
  }

  function LeadingZerosPair(u1: Word, u2: Word): nat {
    if LeadingZeros64(u1) == 64 then 64 + LeadingZeros64(u2) else LeadingZeros64(u1)
  }

  // ----- Left shift -----

  /** A left shift that loses no bit multiplies the pair. */
  lemma ShlPairValue(u1: Word, u2: Word, n: nat)
    requires n < 128 && Pair(u1, u2) < Pow2(128 - n)
    ensures var r := ShlPair(u1, u2, n); Pair(r.0, r.1) == Pair(u1, u2) * Pow2(n)
  {
    if n < 64 {
      ShlPairLow(u1, u2, n);
    } else {
      ShlPairHigh(u1, u2, n);
    }
  }

  lemma ShlPairLow(u1: Word, u2: Word, n: nat)
    requires n < 64 && Pair(u1, u2) < Pow2(128 - n)
    ensures var r := ShlPair(u1, u2, n); Pair(r.0, r.1) == Pair(u1, u2) * Pow2(n)
  {
    hide Pow2, ShlPair, Pair;
    var r := ShlPair(u1, u2, n);
    HighWordFits(u1, u2, n);
    ShlPairWords(u1, u2, n);
    PairTimes(u1, u2, Pow2(n), Pow2(64 - n), r.0, r.1) by { Pow2Split(64, n); Pow2Values(); }
  }

  lemma HighWordFits(u1: Word, u2: Word, n: nat)
    requires n < 64 && Pair(u1, u2) < Pow2(128 - n)
    ensures u1 < Pow2(64 - n)
  {
    hide Pow2;
    assert Pow2(128 - n) == W64 * Pow2(64 - n) by { Pow2Split(128 - n, 64); Pow2Values(); }
    HighBound(u1, u2, Pow2(64 - n));
  }

  lemma PairTimes(u1: Word, u2: Word, p: nat, d: nat, r1: Word, r2: Word)
    requires d > 0 && d * p == W64 && r1 == u1 * p + u2 / d && r2 == (u2 % d) * p
    ensures Pair(r1, r2) == Pair(u1, u2) * p
  {
    DivModFacts(u2, d);
    Recombine(u1, u2 / d, u2 % d, d, p);
  }

  lemma ShlPairWords(u1: Word, u2: Word, n: nat)
    requires n < 64 && u1 < Pow2(64 - n)
    ensures var r := ShlPair(u1, u2, n);
            r.0 == u1 * Pow2(n) + u2 / Pow2(64 - n) && r.1 == (u2 % Pow2(64 - n)) * Pow2(n)
  {
    hide Pow2, Or, Shl, Shr;
    assert Shl(u1, n) == u1 * Pow2(n) by {
      Pow2Split(64, n);
      Pow2Values();
      MulStrict(u1, Pow2(64 - n), Pow2(n));
      ShlExact(u1, n);
    }
    ShrValue(u2, 64 - n);
    ShlLow(u2, n);
    ShiftOut(u2, Wrap(n - 64));
    OrZero(Or(Shl(u1, n), Shr(u2, 64 - n)));
    JoinHalves(u1, u2, n, Shl(u1, n), Shr(u2, 64 - n));
  }

  lemma JoinHalves(u1: Word, u2: Word, n: nat, hi: Word, lo: Word)
    requires n < 64 && hi == u1 * Pow2(n) && lo == Shr(u2, 64 - n)
    ensures Or(hi, lo) == hi + lo
  {
    hide Pow2, Or, Shl, Shr;
    if n == 0 {
      ShiftOut(u2, 64);
      OrZero(hi);
    } else {
      ShrValue(u2, 64 - n);
      QuotBound(u2, Pow2(64 - n), Pow2(n)) by { Pow2Split(64, n); Pow2Values(); }
      OrDisjoint(u1, lo, n);
    }
  }

  lemma HighBound(u1: Word, u2: Word, d: nat)
    requires u1 * 0x1_0000_0000_0000_0000 + u2 < 0x1_0000_0000_0000_0000 * d
    ensures u1 < d
  {
    CancelOrder(u1, d, 0x1_0000_0000_0000_0000);
  }

  lemma QuotBound(x: Word, d: nat, p: nat)
    requires d > 0 && d * p == W64
    ensures x / d < p
  {
    DivModFacts(x, d);
    CancelOrder(x / d, p, d);
  }

  lemma Recombine(u1: nat, a: nat, b: nat, d: nat, p: nat)
    requires d * p == 0x1_0000_0000_0000_0000
    ensures (u1 * p + a) * 0x1_0000_0000_0000_0000 + b * p == (u1 * 0x1_0000_0000_0000_0000 + (a * d + b)) * p
  {
    MulAssoc(a, d, p);
  }

  lemma ShlPairHigh(u1: Word, u2: Word, n: nat)
    requires 64 <= n < 128 && Pair(u1, u2) < Pow2(128 - n)
    ensures var r := ShlPair(u1, u2, n); Pair(r.0, r.1) == Pair(u1, u2) * Pow2(n)
  {
    hide Pow2, Or, Shl, Shr;
    assert u1 == 0 && u2 < Pow2(128 - n) by { Pow2Values(); Pow2Mono(128 - n, 64); }
    assert Pow2(n) == Pow2(n - 64) * W64 by { Pow2Split(n, 64); Pow2Values(); }
    ShlOut(u2, n);
    MulAssoc(u2, Pow2(n - 64), W64);
    ShlExact(0, n);
    OrZero(Shr(u2, Wrap(64 - n)));
    OrZero(Shl(u2, n - 64));
    if n > 64 {
      ShiftOut(u2, Wrap(64 - n));
    } else {
      OrSame(u2);
      ShrValue(u2, 0);
      Pow2Values();
    }
  }

  lemma ShlOut(u2: Word, n: nat)
    requires 64 <= n < 128 && u2 < Pow2(128 - n)
    ensures Shl(u2, n) == 0 && Shl(u2, n - 64) == u2 * Pow2(n - 64)
  {
    hide Pow2;
    var p := Pow2(n - 64);
    ShiftOut(u2, n);
    assert W64 == Pow2(128 - n) * p by { Pow2Split(64, n - 64); Pow2Values(); }
    MulStrict(u2, Pow2(128 - n), p);
  }

  lemma {:induction false} OrSame(x: nat)
    ensures Or(x, x) == x
  {
    if x > 0 {
      OrSame(x / 2);
    }
  }

  // ----- Right shift with a sticky bit -----

  /** shrcompress is the pair shifted right with the lost bits kept as a sticky bit. */
  lemma ShrCompressValue(u1: Word, u2: Word, n: Word)
    ensures var r := ShrCompress(u1, u2, n); Pair(r.0, r.1) == Jam(Pair(u1, u2), n)
  {
    hide Pow2, Or, And, Shl, Shr, Jam;
    if n == 0 {
      Pow2Values();
      JamByPair(u1, u2, 0, u1, u2, 0);
    } else if n < 64 {
      ShrPairLow(u1, u2, n);
    } else if n == 64 {
      ShrWord(u1, u2);
    } else if n < 128 {
      ShrPairHigh(u1, u2, n);
    } else {
      ShrAll(u1, u2, n);
    }
  }

  /** The sticky bit of the remainder r, or-ed into a quotient held as a pair. */
  lemma JamByPair(u1: Word, u2: Word, n: nat, q1: Word, q2: Word, r: nat)
    requires Pair(u1, u2) == Pair(q1, q2) * Pow2(n) + r && r < Pow2(n)
    ensures Jam(Pair(u1, u2), n) == Pair(q1, q2) + (if r == 0 then 0 else 1 - q2 % 2)
  {
    hide Pow2, Jam, Pair;
    JamValue(Pair(u1, u2), n, Pair(q1, q2), r);
    PairParity(q1, q2);
  }

  lemma PairParity(u1: Word, u2: Word)
    ensures Pair(u1, u2) % 2 == u2 % 2
  {}

  lemma NonZeroOr(q: Word, x: Word)
    ensures OrWord(q, NonZero(x)) == q + (if x == 0 then 0 else 1 - q % 2)
  {
    OrZero(q);
    OrOne(q);
  }

  lemma ShrPairLow(u1: Word, u2: Word, n: Word)
    requires 0 < n < 64
    ensures var r := ShrCompress(u1, u2, n); Pair(r.0, r.1) == Jam(Pair(u1, u2), n)
  {
    hide Pow2, Or, And, Shl, Shr, Jam, ShrPair, OrWord;
    hide AndWord;
    var r := ShrPair(u1, u2, n);
    assert AndWord(u2, Wrap(Shl(1, n) - 1)) == u2 % Pow2(n) by { LowMask(u2, n); }
    NonZeroOr(r.1, u2 % Pow2(n));
    ShrPairLowValue(u1, u2, n);
    JamByPair(u1, u2, n, r.0, r.1, u2 % Pow2(n));
  }

  lemma ShrPairLowValue(u1: Word, u2: Word, n: Word)
    requires 0 < n < 64
    ensures var r := ShrPair(u1, u2, n);
            Pair(u1, u2) == Pair(r.0, r.1) * Pow2(n) + u2 % Pow2(n)
  {
    hide Pow2, ShrPair;
    ShrPairLowWords(u1, u2, n);
    SplitLow(u1, u2, Pow2(n), Pow2(64 - n)) by { Pow2Split(64, n); Pow2Values(); }
  }

  lemma SplitLow(u1: nat, u2: nat, p: nat, d: nat)
    requires p > 0 && p * d == 0x1_0000_0000_0000_0000
    ensures u1 * 0x1_0000_0000_0000_0000 + u2
         == ((u1 / p) * 0x1_0000_0000_0000_0000 + ((u1 % p) * d + u2 / p)) * p + u2 % p
  {
    DivModFacts(u1, p);
    DivModFacts(u2, p);
    Recombine2(u1 / p, u1 % p, u2 / p, u2 % p, p, d);
  }

  lemma Recombine2(a: nat, b: nat, c: nat, e: nat, p: nat, d: nat)
    requires p * d == 0x1_0000_0000_0000_0000
    ensures (a * p + b) * 0x1_0000_0000_0000_0000 + (c * p + e)
         == (a * 0x1_0000_0000_0000_0000 + (b * d + c)) * p + e
  {
    MulAssoc(b, d, p);
  }

  lemma LowMask(x: Word, n: nat)
    requires n < 64
    ensures AndWord(x, Wrap(Shl(1, n) - 1)) == x % Pow2(n)
  {
    hide Pow2, And, Shl;
    assert Pow2(n) < W64 by { Pow2Mono(n, 63); Pow2Values(); }
    assert Shl(1, n) == Pow2(n) by { ShlExact(1, n); }
    AndMask(x, n);
  }

  lemma ShrPairLowWords(u1: Word, u2: Word, n: nat)
    requires 0 < n < 64
    ensures var r := ShrPair(u1, u2, n);
            r.0 == u1 / Pow2(n) && r.1 == (u1 % Pow2(n)) * Pow2(64 - n) + u2 / Pow2(n)
  {
    hide Pow2, Or, Shl, Shr;
    ShrValue(u1, n);
    ShiftOut(u1, Wrap(n - 64));
    OrZero(Or(Shr(u2, n), Shl(u1, 64 - n)));
    JoinLow(u1, u2, n, Shl(u1, 64 - n), Shr(u2, n));
  }

  /** The bits that move from one word to the other land beside those that stay. */
  lemma JoinLow(u1: Word, u2: Word, n: nat, hi: Word, lo: Word)
    requires 0 < n < 64 && hi == Shl(u1, 64 - n) && lo == Shr(u2, n)
    ensures Or(lo, hi) == (u1 % Pow2(n)) * Pow2(64 - n) + u2 / Pow2(n)
  {
    hide Pow2, Or, Shl, Shr;
    ShrValue(u2, n);
    ShlLow(u1, 64 - n);
    QuotBound(u2, Pow2(n), Pow2(64 - n)) by { Pow2Split(64, n); Pow2Values(); }
    OrDisjoint(u1 % Pow2(n), u2 / Pow2(n), 64 - n);
  }

  lemma ShrWord(u1: Word, u2: Word)
    ensures var r := ShrCompress(u1, u2, 64); Pair(r.0, r.1) == Jam(Pair(u1, u2), 64)
  {
    hide Or, Jam, OrWord;
    NonZeroOr(u1, u2);
    Pow2Values();
    JamByPair(u1, u2, 64, 0, u1, u2);
  }

  lemma ShrPairHigh(u1: Word, u2: Word, n: Word)
    requires 64 < n < 128
    ensures var r := ShrCompress(u1, u2, n); Pair(r.0, r.1) == Jam(Pair(u1, u2), n)
  {
    hide Pow2, Or, And, Shl, Shr, Jam, ShrPair, OrWord;
    var p := Pow2(n - 64);
    var r := ShrPair(u1, u2, n);
    ShrPairHighWords(u1, u2, n);
    LowMask(u1, n - 64);
    var lost := OrWord(u1 % p, u2);
    assert lost == 0 <==> u1 % p == 0 && u2 == 0 by {
      OrIsZero(u1 % p, u2);
      assert lost == Or(u1 % p, u2) by { OrWordIsOr(u1 % p, u2); }
    }
    NonZeroOr(r.1, lost);
    DivModFacts(u1, p);
    assert Pow2(n) == p * W64 by { Pow2Split(n, 64); Pow2Values(); }
    MulAssoc(u1 / p, p, W64);
    MulMono(u1 % p + 1, p, W64);
    JamByPair(u1, u2, n, r.0, r.1, (u1 % p) * 0x1_0000_0000_0000_0000 + u2);
  }

  lemma OrWordIsOr(x: Word, y: Word)
    ensures OrWord(x, y) == Or(x, y)
  {}

  lemma ShrPairHighWords(u1: Word, u2: Word, n: nat)
    requires 64 < n < 128
    ensures var r := ShrPair(u1, u2, n); r.0 == 0 && r.1 == u1 / Pow2(n - 64)
  {
    hide Pow2, Or, Shl, Shr;
    ShiftOut(u1, n);
    ShiftOut(u2, n);
    ShiftOut(u1, Wrap(64 - n));
    ShrValue(u1, n - 64);
    OrZero(0);
    OrZero(u1 / Pow2(n - 64));
  }

  lemma ShrAll(u1: Word, u2: Word, n: Word)
    requires n >= 128
    ensures var r := ShrCompress(u1, u2, n); Pair(r.0, r.1) == Jam(Pair(u1, u2), n)
  {
    hide Pow2, Or, Jam;
    OrIsZero(u1, u2);
    assert Pair(u1, u2) < Pow2(n) by {
      Pow2Mono(128, n);
      Pow2Add(64, 64);
      Pow2Values();
    }
    JamValue(Pair(u1, u2), n, 0, Pair(u1, u2));
    assert ShrCompress(u1, u2, n) == (0, NonZero(OrWord(u1, u2)));
    assert Jam(Pair(u1, u2), n) == NonZero(OrWord(u1, u2));
  }
}
