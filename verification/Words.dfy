/** 64-bit machine words with the meaning Go gives their operators: shifts by 64 or more
    produce zero, and the bitwise operators act on the binary expansion. */
module Words {
  import opened Powers

  const W64: nat := 0x1_0000_0000_0000_0000

  type Word = x: nat | x < 0x1_0000_0000_0000_0000

  function Wrap(x: int): Word { x % W64 }

  function Shl(x: Word, n: nat): Word { (x * Pow2(n)) % W64 }

  function Shr(x: Word, n: nat): Word
  {
    Quot(x, Pow2(n))
  }

  function And(x: nat, y: nat): nat
    decreases x + y
  {
    if x == 0 && y == 0 then 0
    else 2 * And(x / 2, y / 2) + (if x % 2 == 1 && y % 2 == 1 then 1 else 0)
  }

  function Or(x: nat, y: nat): nat
    decreases x + y
  {
    if x == 0 && y == 0 then 0
    else 2 * Or(x / 2, y / 2) + (if x % 2 == 1 || y % 2 == 1 then 1 else 0)
  }

  function Xor(x: nat, y: nat): nat
    decreases x + y
  {
    if x == 0 && y == 0 then 0
    else 2 * Xor(x / 2, y / 2) + (if x % 2 != y % 2 then 1 else 0)
  }

  /** The operators on words stay words. */
  function OrWord(x: Word, y: Word): Word { Pow2Values(); OrBound(x, y, 64); Or(x, y) }

  function AndWord(x: Word, y: Word): Word { AndBound(x, y); And(x, y) }

  function XorWord(x: Word, y: Word): Word { Pow2Values(); OrBound(x, y, 64); Xor(x, y) }

  function AndNotWord(x: Word, y: Word): Word { AndNotBound(x, y); AndNot(x, y) }

  lemma {:induction false} OrBound(x: nat, y: nat, n: nat)
    requires x < Pow2(n) && y < Pow2(n)
    ensures Or(x, y) < Pow2(n) && Xor(x, y) < Pow2(n)
  {
    if n > 0 {
      OrBound(x / 2, y / 2, n - 1);
    }
  }

  lemma {:induction false} AndBound(x: nat, y: nat)
    ensures And(x, y) <= x && And(x, y) <= y
    decreases x + y
  {
    if x + y > 0 {
      AndBound(x / 2, y / 2);
    }
  }

  lemma {:induction false} AndNotBound(x: nat, y: nat)
    ensures AndNot(x, y) <= x
    decreases x + y
  {
    if x + y > 0 {
      AndNotBound(x / 2, y / 2);
    }
  }

  /** Go's `^x` on a 64-bit word. */
  function Not(x: Word): Word { W64 - 1 - x }

  /** Go's `x &^ y`. */
  function AndNot(x: nat, y: nat): nat
    decreases x + y
  {
    if x == 0 && y == 0 then 0
    else 2 * AndNot(x / 2, y / 2) + (if x % 2 == 1 && y % 2 == 0 then 1 else 0)
  }

  /** Leading zeros of a 64-bit word (math/bits.LeadingZeros64). */
  function LeadingZeros64(x: Word): (n: nat)
    ensures n <= 64
    ensures x == 0 <==> n == 64
    ensures x != 0 ==> Pow2(63 - n) <= x < Pow2(64 - n)
  {
    if x == 0 then 64 else Log2Bound(x); 63 - Log2(x)
  }

  /** Position of the highest set bit. */
  function Log2(x: nat): (k: nat)
    requires 0 < x
    ensures Pow2(k) <= x < Pow2(k + 1)
  {
    if x == 1 then 0 else Log2(x / 2) + 1
  }

  lemma Log2Bound(x: Word)
    requires x > 0
    ensures Log2(x) <= 63
  {
    if Log2(x) > 63 {
      Pow2Mono(64, Log2(x));
      Pow2Values();
    }
  }
}
