/** Powers of two over unbounded integers, and the few facts about products that the
    floating-point proofs lean on. */
module Powers {

  function Pow2(n: nat): (p: nat)
    ensures p > 0
  {
    if n == 0 then 1 else 2 * Pow2(n - 1)
  }

  lemma {:induction false} Pow2Add(a: nat, b: nat)
    ensures Pow2(a + b) == Pow2(a) * Pow2(b)
  {
    if a > 0 {
      Pow2Add(a - 1, b);
      MulAssoc(2, Pow2(a - 1), Pow2(b));
    }
  }

  lemma Pow2Succ(n: nat)
    ensures Pow2(n + 1) == 2 * Pow2(n)
  {}

  lemma {:induction false} Pow2Mono(a: nat, b: nat)
    requires a <= b
    ensures Pow2(a) <= Pow2(b)
    decreases b - a
  {
    if a < b {
      Pow2Mono(a + 1, b);
    }
  }

  lemma Pow2Split(n: nat, a: nat)
    requires a <= n
    ensures Pow2(n) == Pow2(a) * Pow2(n - a)
    ensures Pow2(n) == Pow2(n - a) * Pow2(a)
  {
    Pow2Add(a, n - a);
  }

  /** The widths the double format and the 64-bit words are built from. */
  lemma Pow2Values()
    ensures Pow2(0) == 1 && Pow2(1) == 2 && Pow2(9) == 0x200 && Pow2(10) == 0x400 && Pow2(11) == 0x800
    ensures Pow2(20) == 0x10_0000 && Pow2(21) == 0x20_0000
    ensures Pow2(51) == 0x8_0000_0000_0000 && Pow2(52) == 0x10_0000_0000_0000 && Pow2(53) == 0x20_0000_0000_0000
    ensures Pow2(62) == 0x4000_0000_0000_0000 && Pow2(63) == 0x8000_0000_0000_0000
    ensures Pow2(64) == 0x1_0000_0000_0000_0000
  {
    Pow2Doubles(0, 1);
    Pow2Doubles(4, 0x10);
    Pow2Doubles(8, 0x100);
    Pow2Doubles(12, 0x1000);
    Pow2Doubles(16, 0x1_0000);
    Pow2Doubles(20, 0x10_0000);
    Pow2Doubles(24, 0x100_0000);
    Pow2Doubles(28, 0x1000_0000);
    Pow2Doubles(32, 0x1_0000_0000);
    Pow2Doubles(36, 0x10_0000_0000);
    Pow2Doubles(40, 0x100_0000_0000);
    Pow2Doubles(44, 0x1000_0000_0000);
    Pow2Doubles(48, 0x1_0000_0000_0000);
    Pow2Doubles(52, 0x10_0000_0000_0000);
    Pow2Doubles(56, 0x100_0000_0000_0000);
    Pow2Doubles(60, 0x1000_0000_0000_0000);
  }

  lemma Pow2Doubles(n: nat, v: nat)
    requires Pow2(n) == v
    ensures Pow2(n + 1) == 2 * v && Pow2(n + 2) == 4 * v && Pow2(n + 3) == 8 * v && Pow2(n + 4) == 16 * v
  {
    assert Pow2(n + 2) == 2 * Pow2(n + 1);
    assert Pow2(n + 3) == 2 * Pow2(n + 2);
  }

  lemma MulAssoc(a: int, b: int, c: int)
    ensures (a * b) * c == a * (b * c)
  {}

  function Times(a: nat, b: nat): (p: nat)
    ensures p == a * b
  {
    MulMono(0, a, b);
    a * b
  }

  lemma MulMono(a: nat, b: nat, c: nat)
    requires a <= b
    ensures a * c <= b * c && c * a <= c * b
  {}

  lemma MulStrict(a: nat, b: nat, c: nat)
    requires a < b && c > 0
    ensures a * c < b * c && c * a < c * b
  {}

  /** Quotient and remainder are determined by the equation they solve. */
  lemma DivModUnique(x: nat, d: nat, q: nat, r: nat)
    requires x == q * d + r && r < d
    ensures x / d == q && x % d == r
  {
    var q', r' := x / d, x % d;
    assert x == q' * d + r';
    if q' < q {
      MulMono(q' + 1, q, d);
      assert false;
    } else if q' > q {
      MulMono(q + 1, q', d);
      assert false;
    }
  }

  lemma DivModFacts(x: nat, d: nat)
    requires d > 0
    ensures x == (x / d) * d + x % d && x % d < d
  {}

  lemma DivDiv(x: nat, a: nat, b: nat)
    requires a > 0 && b > 0
    ensures a * b > 0
    ensures (x / a) / b == x / (a * b)
    ensures x % (a * b) == ((x / a) % b) * a + x % a
  {
    var q, r := x / a, x % a;
    var q', r' := q / b, q % b;
    DivModFacts(x, a);
    DivModFacts(q, b);
    assert a * b > 0;
    assert x == q' * (a * b) + (r' * a + r) by {
      assert (q' * b + r') * a == q' * (a * b) + r' * a;
    }
    MulMono(r' + 1, b, a);
    DivModUnique(x, a * b, q', r' * a + r);
  }

  lemma MulDivMod(x: nat, d: nat)
    requires d > 0
    ensures (x * d) / d == x && (x * d) % d == 0
  {
    DivModUnique(x * d, d, x, 0);
  }

  lemma DivLe(x: nat, d: nat)
    requires d > 0
    ensures x / d <= x
  {
    var q := x / d;
    if q > x {
      MulMono(1, d, q);
      DivModFacts(x, d);
    }
  }

  function Quot(x: nat, d: nat): (q: nat)
    requires d > 0
    ensures q <= x
  {
    DivLe(x, d);
    x / d
  }

  lemma CancelOrder(a: nat, b: nat, k: nat)
    requires k > 0
    ensures a * k < b * k <==> a < b
    ensures a * k == b * k <==> a == b
  {
    if a < b {
      MulStrict(a, b, k);
    } else if b < a {
      MulStrict(b, a, k);
    }
  }

  lemma SumScaled(a: nat, b: nat, k: nat)
    ensures (a + b) * k == a * k + b * k
  {}
}
