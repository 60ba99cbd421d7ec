/** What the word operators compute, in terms of quotients, remainders and sums. */
module WordFacts {
  import opened Powers
  import opened Words

  lemma Doubles(h: nat, p: nat)
    ensures h * (2 * p) == 2 * (h * p)
  {}

  lemma ModHalves(x: nat, p: nat)
    requires p > 0
    ensures x % (2 * p) == 2 * ((x / 2) % p) + x % 2
  {
    DivDiv(x, 2, p);
  }

  lemma AndStep(x: nat, y: nat, x2: nat, y2: nat)
    requires x2 == x / 2 && y2 == y / 2
    ensures And(x, y) == 2 * And(x2, y2) + (if x % 2 == 1 && y % 2 == 1 then 1 else 0)
  {}

  lemma AndNotStep(x: nat, y: nat, x2: nat, y2: nat)
    requires x2 == x / 2 && y2 == y / 2
    ensures AndNot(x, y) == 2 * AndNot(x2, y2) + (if x % 2 == 1 && y % 2 == 0 then 1 else 0)
  {}

  lemma OrStep(x: nat, y: nat, x2: nat, y2: nat)
    requires x2 == x / 2 && y2 == y / 2
    ensures Or(x, y) == 2 * Or(x2, y2) + (if x % 2 == 1 || y % 2 == 1 then 1 else 0)
  {}

  lemma {:induction false} AndZero(x: nat)
    ensures And(x, 0) == 0
  {
    if x > 0 {
      AndZero(x / 2);
    }
  }

  lemma AndMaskStep(x: nat, p: nat, q: nat)
    requires p > 0 && q == 2 * p && And(x / 2, p - 1) == (x / 2) % p
    ensures And(x, q - 1) == x % q
  {
    hide And;
    AndStep(x, q - 1, x / 2, p - 1);
    ModHalves(x, p);
  }

  /** Masking with n low ones is the remainder modulo 2^n. */
  lemma {:induction false} AndMask(x: nat, n: nat)
    ensures And(x, Pow2(n) - 1) == x % Pow2(n)
  {
    hide Pow2, And;
    assert Pow2(0) == 1 by { Pow2Values(); }
    if n == 0 {
      AndZero(x);
    } else {
      Pow2Succ(n - 1);
      AndMask(x / 2, n - 1);
      AndMaskStep(x, Pow2(n - 1), Pow2(n));
    }
  }

  /** Masking with a field of ones moved n places left keeps only that field. */
  lemma AndShifted(h: nat, l: nat, k: nat, n: nat)
    requires l < Pow2(n)
    ensures And(h * Pow2(n) + l, k * Pow2(n)) == And(h, k) * Pow2(n)
  {
    AndAligned(h * Pow2(n), k * Pow2(n), l, n, h, k);
  }

  lemma {:induction false} AndAligned(x: nat, y: nat, l: nat, n: nat, h: nat, k: nat)
    requires l < Pow2(n) && x == h * Pow2(n) && y == k * Pow2(n)
    ensures And(x + l, y) == And(h, k) * Pow2(n)
  {
    hide Pow2, And;
    assert Pow2(0) == 1 by { Pow2Values(); }
    if n > 0 {
      var p := Pow2(n - 1);
      Pow2Succ(n - 1);
      var x2, y2 := h * p, k * p;
      Doubles(h, p);
      Doubles(k, p);
      Doubles(And(h, k), p);
      AndAligned(x2, y2, l / 2, n - 1, h, k);
      AndStep(x + l, y, x2 + l / 2, y2);
    }
  }

  lemma {:induction false} AndNotZero(x: nat)
    ensures AndNot(x, 0) == x
  {
    if x > 0 {
      AndNotZero(x / 2);
    }
  }

  /** Clearing a field moved n places left leaves the n bits below it alone. */
  lemma AndNotShifted(h: nat, l: nat, k: nat, n: nat)
    requires l < Pow2(n)
    ensures AndNot(h * Pow2(n) + l, k * Pow2(n)) == AndNot(h, k) * Pow2(n) + l
  {
    AndNotAligned(h * Pow2(n), k * Pow2(n), l, n, h, k);
  }

  lemma {:induction false} AndNotAligned(x: nat, y: nat, l: nat, n: nat, h: nat, k: nat)
    requires l < Pow2(n) && x == h * Pow2(n) && y == k * Pow2(n)
    ensures AndNot(x + l, y) == AndNot(h, k) * Pow2(n) + l
  {
    hide Pow2, AndNot;
    assert Pow2(0) == 1 by { Pow2Values(); }
    if n > 0 {
      var p := Pow2(n - 1);
      Pow2Succ(n - 1);
      var x2, y2 := h * p, k * p;
      Doubles(h, p);
      Doubles(k, p);
      Doubles(AndNot(h, k), p);
      AndNotAligned(x2, y2, l / 2, n - 1, h, k);
      AndNotStep(x + l, y, x2 + l / 2, y2);
    }
  }

  lemma AndNotMaskStep(x: nat, p: nat, q: nat)
    requires p > 0 && q == 2 * p && AndNot(x / 2, p - 1) == x / 2 - (x / 2) % p
    ensures AndNot(x, q - 1) == x - x % q
  {
    hide AndNot;
    AndNotStep(x, q - 1, x / 2, p - 1);
    ModHalves(x, p);
  }

  /** Clearing n low bits subtracts the remainder modulo 2^n. */
  lemma {:induction false} AndNotMask(x: nat, n: nat)
    ensures AndNot(x, Pow2(n) - 1) == x - x % Pow2(n)
  {
    hide Pow2, AndNot;
    assert Pow2(0) == 1 by { Pow2Values(); }
    if n == 0 {
      AndNotZero(x);
    } else {
      Pow2Succ(n - 1);
      AndNotMask(x / 2, n - 1);
      AndNotMaskStep(x, Pow2(n - 1), Pow2(n));
    }
  }

  lemma {:induction false} OrZero(x: nat)
    ensures Or(x, 0) == x && Or(0, x) == x
  {
    if x > 0 {
      OrZero(x / 2);
    }
  }

  lemma {:induction false} OrComm(x: nat, y: nat)
    ensures Or(x, y) == Or(y, x)
    decreases x + y
  {
    if x + y > 0 {
      OrComm(x / 2, y / 2);
    }
  }

  /** Or of values without a common bit position is their sum. */
  lemma {:induction false} OrDisjoint(h: nat, l: nat, n: nat)
    requires l < Pow2(n)
    ensures Or(h * Pow2(n), l) == h * Pow2(n) + l && Or(l, h * Pow2(n)) == h * Pow2(n) + l
  {
    hide Pow2, Or;
    assert Pow2(0) == 1 by { Pow2Values(); }
    if n == 0 {
      OrZero(h);
    } else {
      var p := Pow2(n - 1);
      Pow2Succ(n - 1);
      Doubles(h, p);
      OrDisjoint(h, l / 2, n - 1);
      OrStep(2 * (h * p), l, h * p, l / 2);
      OrComm(2 * (h * p), l);
    }
  }

  /** Or-ing in a field moved n places left leaves the n bits below it alone. */
  lemma OrShifted(h: nat, l: nat, k: nat, n: nat)
    requires l < Pow2(n)
    ensures Or(h * Pow2(n) + l, k * Pow2(n)) == Or(h, k) * Pow2(n) + l
  {
    OrAligned(h * Pow2(n), k * Pow2(n), l, n, h, k);
  }

  lemma {:induction false} OrAligned(x: nat, y: nat, l: nat, n: nat, h: nat, k: nat)
    requires l < Pow2(n) && x == h * Pow2(n) && y == k * Pow2(n)
    ensures Or(x + l, y) == Or(h, k) * Pow2(n) + l
  {
    hide Pow2, Or;
    assert Pow2(0) == 1 by { Pow2Values(); }
    if n > 0 {
      var p := Pow2(n - 1);
      Pow2Succ(n - 1);
      var x2, y2 := h * p, k * p;
      Doubles(h, p);
      Doubles(k, p);
      Doubles(Or(h, k), p);
      OrAligned(x2, y2, l / 2, n - 1, h, k);
      OrStep(x + l, y, x2 + l / 2, y2);
    }
  }

  lemma OrOne(x: nat)
    ensures Or(x, 1) == x + 1 - x % 2
  {
    OrZero(x / 2);
  }

  lemma AndNotOne(x: nat)
    ensures AndNot(x, 1) == x - x % 2
  {
    AndNotZero(x / 2);
  }

  lemma {:induction false} OrIsZero(x: nat, y: nat)
    ensures Or(x, y) == 0 <==> x == 0 && y == 0
    decreases x + y
  {
    if x + y > 0 {
      OrIsZero(x / 2, y / 2);
    }
  }

  lemma {:induction false} XorIsZero(x: nat, y: nat)
    ensures Xor(x, y) == 0 <==> x == y
    decreases x + y
  {
    if x + y > 0 {
      XorIsZero(x / 2, y / 2);
    }
  }

  /** An in-range left shift is a product. */
  lemma ShlExact(x: Word, n: nat)
    requires x * Pow2(n) < W64
    ensures Shl(x, n) == x * Pow2(n)
  {}

  lemma ShrValue(x: Word, n: nat)
    ensures Shr(x, n) == x / Pow2(n)
  {}

  /** Shifting out all 64 bits leaves nothing. */
  lemma ShiftOut(x: Word, n: nat)
    requires n >= 64
    ensures Shl(x, n) == 0 && Shr(x, n) == 0
  {
    Pow2Values();
    Pow2Split(n, 64);
    MulDivMod(x * Pow2(n - 64), W64);
    MulAssoc(x, Pow2(n - 64), W64);
    Pow2Mono(64, n);
    DivModUnique(x, Pow2(n), 0, x);
  }

  /** A left shift by n keeps the low 64-n bits, moved up. */
  lemma ShlLow(x: Word, n: nat)
    requires n <= 64
    ensures Shl(x, n) == (x % Pow2(64 - n)) * Pow2(n)
  {
    Pow2Values();
    Pow2Split(64, n);
    ScaledMod(x, Pow2(64 - n), Pow2(n));
  }

  lemma ScaledMod(x: nat, d: nat, p: nat)
    requires d > 0 && p > 0
    ensures d * p > 0 && (x * p) % (d * p) == (x % d) * p
  {
    var q, r := x / d, x % d;
    DivModFacts(x, d);
    assert x * p == q * (d * p) + r * p by {
      assert (q * d + r) * p == (q * d) * p + r * p;
      MulAssoc(q, d, p);
    }
    MulStrict(r, d, p);
    DivModUnique(x * p, d * p, q, r * p);
  }
}
