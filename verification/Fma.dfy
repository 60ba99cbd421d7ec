/** math/fma.go: x*y+z with a single rounding. */
module Fma {
  import opened Powers
  import opened Words
  import opened WordFacts
  import opened Floats
  import opened Sticky
  import opened TwoWords

  /** math/bits.Mul64, Add64 and Sub64. */
  function Mul64(x: Word, y: Word): (r: (Word, Word))
    ensures Pair(r.0, r.1) == x * y
  {
    ProductWords(x, y, x * y);
    ((x * y) / 0x1_0000_0000_0000_0000, (x * y) % 0x1_0000_0000_0000_0000)
  }

  lemma ProductWords(x: Word, y: Word, p: int)
    requires p == x * y
    ensures 0 <= p < 0x1_0000_0000_0000_0000 * 0x1_0000_0000_0000_0000
  {
    MulMono(0, x, y);
    MulMono(x, 0xFFFF_FFFF_FFFF_FFFF, y);
  }

  function Add64(x: Word, y: Word, carry: nat): (r: (Word, nat))
    requires carry <= 1
    ensures r.0 + r.1 * 0x1_0000_0000_0000_0000 == x + y + carry && r.1 <= 1
  {
    ((x + y + carry) % W64, (x + y + carry) / W64)
  }

  function Sub64(x: Word, y: Word, borrow: nat): (r: (Word, nat))
    requires borrow <= 1
    ensures r.0 == x - y - borrow + r.1 * 0x1_0000_0000_0000_0000 && r.1 <= 1
  {
    (Wrap(x - y - borrow), if x < y + borrow then 1 else 0)
  }

  /** Sign, biased exponent and a significand with its leading bit at position 52; the
      exponent of a subnormal goes below 1 to make up for the normalisation. */
  method Split(b: Word) returns (sign: Word, exp: int, mantissa: Word)
    requires IsFinite(b) && !IsZero(b)
    ensures sign == Sign(b)
    ensures -51 <= exp <= 2046 && HIDDEN <= mantissa < 2 * HIDDEN
    ensures Mag(Abs(b)) * Pow2(53) == mantissa * Pow2(exp + 52)
  {
    hide Mag, Pow2, Shr, AndWord;
    Fields(b);
    sign := Shr(b, 63);
    exp := AndWord(Shr(b, 52), MASK);
    mantissa := AndWord(b, FRACMASK);
    if exp == 0 {
      var shift := LeadingZeros64(mantissa) - 11;
      SubnormalShift(mantissa, shift + 11);
      mantissa := Shl(mantissa, shift);
      exp := 1 - shift;
    } else {
      var f := mantissa;
      assert mantissa < HIDDEN && exp <= 2046;
      ImplicitBit(mantissa);
      mantissa := OrWord(mantissa, Shl(1, 52));
      NormalValue(exp, f);
      assert Abs(b) == Pack(exp - 1, mantissa);
    }
  }

  lemma SubnormalShift(f: Word, lead: nat)
    requires 0 < f < HIDDEN && lead == LeadingZeros64(f)
    ensures 12 <= lead <= 63
    ensures Shl(f, lead - 11) == f * Pow2(lead - 11) && HIDDEN <= Shl(f, lead - 11) < 2 * HIDDEN
    ensures Mag(f) * Pow2(53) == Shl(f, lead - 11) * Pow2(1 - (lead - 11) + 52)
  {
    hide Pow2, Mag;
    Pow2Values();
    if lead <= 11 {
      Pow2Mono(52, 63 - lead);
    }
    var k := lead - 11;
    Pow2Split(52, k);
    Pow2Split(53, k);
    MulMono(Pow2(63 - lead), f, Pow2(k));
    MulStrict(f, Pow2(64 - lead), Pow2(k));
    ShlExact(f, k);
    MagAt(0, f);
    MulAssoc(f, Pow2(k), Pow2(53 - k));
  }

  lemma ImplicitBit(f: Word)
    requires f < HIDDEN
    ensures OrWord(f, Shl(1, 52)) == HIDDEN + f
  {
    Pow2Values();
    ShlExact(1, 52);
    OrDisjoint(1, f, 52);
  }

  lemma NormalValue(exp: nat, f: nat)
    requires exp > 0 && f < HIDDEN
    ensures Mag(Pack(exp - 1, HIDDEN + f)) * Pow2(53) == (HIDDEN + f) * Pow2(exp + 52)
  {
    hide Pow2, Mag;
    MagAt(exp - 1, HIDDEN + f);
    Pow2Add(exp - 1, 53);
    MulAssoc(HIDDEN + f, Pow2(exp - 1), Pow2(53));
  }

  // ----- The product -----

  /** The pair u1:u2 at exponent e stands for v (in units of 2^-2148) exactly, with its
      leading bit at position 126. The factor 2^256 keeps every power of two whole. */
  predicate IsTerm(v: nat, e: int, u1: Word, u2: Word) {
    && -1126 <= e <= 4000
    && TopAt126(Pair(u1, u2))
    && Times(v, Pow2(256)) == Pair(u1, u2) * Pow2(e + 1255)
  }

  /** Leading bit at position 126 and the lowest 21 bits clear. */
  predicate TopAt126(u: nat) {
    0x4000_0000_0000_0000_0000_0000_0000_0000 <= u < 0x8000_0000_0000_0000_0000_0000_0000_0000
    && u % 0x20_0000 == 0
  }

  /** Sign, exponent and two-word significand of x*y, normalised. */
  method Product(x: Word, y: Word) returns (ps: Word, pe: int, pm1: Word, pm2: Word)
    requires IsFinite(x) && !IsZero(x) && IsFinite(y) && !IsZero(y)
    ensures ps == (Sign(x) + Sign(y)) % 2
    ensures IsTerm(Times(Mag(Abs(x)), Mag(Abs(y))), pe, pm1, pm2)
  {
    hide Mag, Pow2, IsTerm, Shl, ShlPair, XorWord, AndWord, Shr, Times, TopAt126, Pair;
    var xs, xe, xm := Split(x);
    var ys, ye, ym := Split(y);
    pe := xe + ye - BIAS + 1;
    ShiftedFactors(xm, ym);
    var p := Mul64(Shl(xm, 10), Shl(ym, 11));
    pm1, pm2 := p.0, p.1;
    ps := XorWord(xs, ys);
    XorBit(xs, ys);
    var is62zero := AndWord(Shr(Not(pm1), 62), 1);
    LeadBit(pm1, pm2, is62zero, Times(xm, ym) * 0x20_0000);
    var shifted := ShlPair(pm1, pm2, is62zero);
    ProductTerm(Mag(Abs(x)), Mag(Abs(y)), xm, ym, xe, ye, is62zero, shifted.0, shifted.1);
    pm1, pm2 := shifted.0, shifted.1;
    pe := pe - is62zero;
  }

  lemma XorBit(x: Word, y: Word)
    requires x <= 1 && y <= 1
    ensures XorWord(x, y) == (x + y) % 2
  {
    assert Xor(0, 0) == 0 && Xor(1, 0) == 1 && Xor(0, 1) == 1 && Xor(1, 1) == 0;
  }

  lemma ShiftedFactors(xm: Word, ym: Word)
    requires HIDDEN <= xm < 2 * HIDDEN && HIDDEN <= ym < 2 * HIDDEN
    ensures Shl(xm, 10) == xm * 1024 && Shl(ym, 11) == ym * 2048
    ensures Shl(xm, 10) * Shl(ym, 11) == Times(xm, ym) * 0x20_0000
    ensures HIDDEN * HIDDEN <= Times(xm, ym) < 4 * HIDDEN * HIDDEN
  {
    Pow2Values();
    ShlExact(xm, 10);
    ShlExact(ym, 11);
    MulMono(HIDDEN, xm, HIDDEN);
    MulMono(HIDDEN, ym, xm);
    MulStrict(xm, 2 * HIDDEN, ym);
    MulStrict(ym, 2 * HIDDEN, 2 * HIDDEN);
  }

  /** is62zero is 1 exactly when the product has its leading bit one place low. */
  lemma LeadBit(pm1: Word, pm2: Word, z: Word, u: nat)
    requires Pair(pm1, pm2) == u && u % 0x20_0000 == 0
    requires 0x2000_0000_0000_0000_0000_0000_0000_0000 <= u < 0x8000_0000_0000_0000_0000_0000_0000_0000
    requires z == AndWord(Shr(Not(pm1), 62), 1)
    ensures z <= 1
    ensures var r := ShlPair(pm1, pm2, z);
            Pair(r.0, r.1) == u * Pow2(z) && TopAt126(Pair(r.0, r.1))
  {
    hide Pow2, ShlPair, AndWord, Shr;
    Bit62(pm1);
    Pow2Values();
    assert z == 1 ==> u < 0x4000_0000_0000_0000_0000_0000_0000_0000;
    hide Pair;
    ShiftLead(pm1, pm2, z, u);
  }

  lemma ShiftLead(pm1: Word, pm2: Word, z: nat, u: nat)
    requires Pair(pm1, pm2) == u && u % 0x20_0000 == 0 && z <= 1
    requires TOP126 <= 2 * u && (if z == 1 then u < TOP126 else TOP126 <= u < 2 * TOP126)
    ensures var r := ShlPair(pm1, pm2, z);
            Pair(r.0, r.1) == u * Pow2(z) && TopAt126(Pair(r.0, r.1))
  {
    hide Pow2, ShlPair, Pair;
    TopPowers();
    ShlPairValue(pm1, pm2, z);
    if z == 0 {
      assert u * Pow2(0) == u;
    } else {
      EvenLead(u);
      assert u * Pow2(1) == 2 * u;
    }
  }

  lemma EvenLead(u: nat)
    requires u % 0x20_0000 == 0
    ensures (2 * u) % 0x20_0000 == 0
  {
    var k := u / 0x20_0000;
    assert 2 * u == 0x20_0000 * (2 * k);
  }

  lemma TopPowers()
    ensures Pow2(0) == 1 && Pow2(1) == 2
    ensures Pow2(127) == 0x8000_0000_0000_0000_0000_0000_0000_0000
    ensures Pow2(128) == 0x1_0000_0000_0000_0000_0000_0000_0000_0000
  {
    hide Pow2;
    Pow2Values();
    Pow2Add(63, 64);
    Pow2Add(64, 64);
  }

  lemma Bit62(w: Word)
    ensures AndWord(Shr(Not(w), 62), 1) == if w % 0x8000_0000_0000_0000 < 0x4000_0000_0000_0000 then 1 else 0
  {
    hide Pow2, And, Shr;
    Pow2Values();
    ShrValue(Not(w), 62);
    AndMask(Shr(Not(w), 62), 1);
  }

  lemma ProductTerm(a: nat, b: nat, xm: nat, ym: nat, xe: int, ye: int, z: nat, u1: Word, u2: Word)
    requires -51 <= xe <= 2046 && -51 <= ye <= 2046 && z <= 1
    requires a * Pow2(53) == xm * Pow2(xe + 52) && b * Pow2(53) == ym * Pow2(ye + 52)
    requires TopAt126(Pair(u1, u2)) && Pair(u1, u2) == Times(xm, ym) * 0x20_0000 * Pow2(z)
    ensures IsTerm(Times(a, b), xe + ye - BIAS + 1 - z, u1, u2)
  {
    hide Pow2, Pair, TopAt126;
    var e := xe + ye + 104;
    var f := xe + ye - BIAS + 1 - z + 1255;
    assert Pow2(256) == Pow2(106) * Pow2(150) && Pow2(106) == Pow2(53) * Pow2(53) by {
      Pow2Add(106, 150);
      Pow2Add(53, 53);
    }
    assert Pow2(e) == Pow2(xe + 52) * Pow2(ye + 52) by { Pow2Add(xe + 52, ye + 52); }
    assert Pow2(21) * Pow2(z) * Pow2(f) == Pow2(e) * Pow2(150) by {
      Pow2Add(21, z);
      Pow2Add(21 + z, f);
      Pow2Add(e, 150);
      assert 21 + z + f == e + 150;
    }
    Pow2Values();
    Rearrange(a, b, Pow2(53), xm, ym, Pow2(xe + 52), Pow2(ye + 52), Pow2(150), Pow2(z), Pow2(f));
  }

  lemma Rearrange(a: nat, b: nat, h: nat, xm: nat, ym: nat, px: nat, py: nat, k: nat, pz: nat, pf: nat)
    requires a * h == xm * px && b * h == ym * py
    requires 0x20_0000 * pz * pf == (px * py) * k
    ensures (a * b) * ((h * h) * k) == (xm * ym * 0x20_0000 * pz) * pf
  {
    calc {
      (a * b) * ((h * h) * k);
      ((a * h) * (b * h)) * k;
      ((xm * px) * (ym * py)) * k;
      (xm * ym) * ((px * py) * k);
      (xm * ym) * (0x20_0000 * pz * pf);
      (xm * ym * 0x20_0000 * pz) * pf;
    }
  }

  // ----- Adding the aligned terms -----

  function Signed(sign: Word, v: nat): int { if sign == 1 then -(v as int) else v }

  /** What is left to round: the word m, with a sticky lowest bit, at exponent e. */
  predicate IsRest(v: nat, e: int, m: Word) {
    && -1320 <= e <= 4100
    && 0x4000_0000_0000_0000 <= m < 0x8000_0000_0000_0000
    && IsSticky(Times(v, Pow2(256)), Pow2(e + 1320), m)
  }

  /** The aligned sum of the two terms as a sign, an exponent and one sticky word, or the
      report that they cancel exactly. */
  method Combine(ps0: Word, pe0: int, pm10: Word, pm20: Word, zs0: Word, ze0: int, zm10: Word, zm20: Word,
                 ghost vp0: nat, ghost vz0: nat)
    returns (cancelled: bool, ps: Word, pe: int, m: Word)
    requires ps0 <= 1 && zs0 <= 1 && zm20 == 0
    requires IsTerm(vp0, pe0, pm10, pm20) && IsTerm(vz0, ze0, zm10, zm20)
    ensures cancelled <==> Signed(ps0, vp0) + Signed(zs0, vz0) == 0
    ensures !cancelled ==> ps <= 1 && ps == if Signed(ps0, vp0) + Signed(zs0, vz0) < 0 then 1 else 0
    ensures !cancelled ==> IsRest(Dist(Signed(ps0, vp0) + Signed(zs0, vz0), 0), pe, m)
  {
    hide Pow2, ShlPair, ShrCompress, IsRest, IsTerm, Shr, Pair, IsSticky, OrWord, LeadingZerosPair, Not;
    var pm1, pm2, zs, ze, zm1, zm2;
    ps, pe, pm1, pm2, zs, ze, zm1, zm2 := ps0, pe0, pm10, pm20, zs0, ze0, zm10, zm20;
    ghost var vp, vz := vp0, vz0;
    if pe < ze || (pe == ze && pm1 < zm1) {
      ps, pe, pm1, pm2, zs, ze, zm1, zm2 := zs, ze, zm1, zm2, ps, pe, pm1, pm2;
      vp, vz := vz0, vp0;
    }
    LeadingWordOrder(pm1, pm2, zm1, zm2);
    Larger(vp, pe, pm1, pm2, vz, ze, zm1, zm2);
    TermRange(vp, pe, pm1, pm2);
    TermRange(vz, ze, zm1, zm2);
    if ps != zs && pe == ze && pm1 == zm1 && pm2 == zm2 {
      return true, ps, pe, 0;
    }
    cancelled := false;
    var z := ShrCompress(zm1, zm2, pe - ze);
    Aligned(vp, pe, pm1, pm2, vz, ze, zm1, zm2, z.0, z.1);
    if ps == zs {
      var lo := Add64(pm2, z.1, 0);
      var hi := Add64(pm1, z.0, lo.1);
      AddPair(pm1, pm2, z.0, z.1);
      pm1, pm2 := hi.0, lo.0;
      NormaliseSum(vp + vz, pe, pm1, pm2);
      pe := pe - Shr(Not(pm1), 63);
      var r := ShrCompress(pm1, pm2, 64 + Shr(pm1, 63));
      m := r.1;
    } else {
      var lo := Sub64(pm2, z.1, 0);
      var hi := Sub64(pm1, z.0, lo.1);
      SubPair(pm1, pm2, z.0, z.1);
      pm1, pm2 := hi.0, lo.0;
      var nz := LeadingZerosPair(pm1, pm2);
      NormaliseDifference(vp - vz, pe, pm1, pm2, nz);
      pe := pe - nz;
      var r := ShlPair(pm1, pm2, nz - 1);
      m := OrWord(r.0, NonZero(r.1));
    }
  }

  lemma LeadingWordOrder(pm1: Word, pm2: Word, zm1: Word, zm2: Word)
    ensures pm1 > zm1 || (pm1 == zm1 && pm2 >= zm2) ==> Pair(pm1, pm2) >= Pair(zm1, zm2)
  {}

  lemma TermRange(v: nat, e: int, u1: Word, u2: Word)
    requires IsTerm(v, e, u1, u2)
    ensures v > 0 && -1126 <= e <= 4000
  {
    if v == 0 {
      hide Pow2;
      MulStrict(0, Pair(u1, u2), Pow2(e + 1255));
    }
  }

  lemma AddPair(u1: Word, u2: Word, v1: Word, v2: Word)
    requires Pair(u1, u2) + Pair(v1, v2) < 4 * TOP126
    ensures var lo := Add64(u2, v2, 0);
            Pair(Add64(u1, v1, lo.1).0, lo.0) == Pair(u1, u2) + Pair(v1, v2)
  {}

  lemma SubPair(u1: Word, u2: Word, v1: Word, v2: Word)
    requires Pair(v1, v2) <= Pair(u1, u2)
    ensures var lo := Sub64(u2, v2, 0);
            Pair(Sub64(u1, v1, lo.1).0, lo.0) == Pair(u1, u2) - Pair(v1, v2)
  {}

  /** Comparing exponent first and leading word next orders the terms by value. */
  lemma Larger(vp: nat, pe: int, pm1: Word, pm2: Word, vz: nat, ze: int, zm1: Word, zm2: Word)
    requires IsTerm(vp, pe, pm1, pm2) && IsTerm(vz, ze, zm1, zm2)
    requires pe > ze || (pe == ze && Pair(pm1, pm2) >= Pair(zm1, zm2))
    ensures vp >= vz
    ensures vp == vz <==> pe == ze && pm1 == zm1 && pm2 == zm2
  {
    hide Pow2;
    LargerScaled(Pair(pm1, pm2), pe + 1255, Pair(zm1, zm2), ze + 1255);
    assert Pair(pm1, pm2) == Pair(zm1, zm2) <==> pm1 == zm1 && pm2 == zm2;
    hide Pair;
    CancelOrder(vz, vp, Pow2(256));
    CancelOrder(vp, vz, Pow2(256));
  }

  lemma LargerScaled(p: nat, pe: nat, z: nat, ze: nat)
    requires TopAt126(p) && TopAt126(z)
    requires pe > ze || (pe == ze && p >= z)
    ensures p * Pow2(pe) >= z * Pow2(ze)
    ensures p * Pow2(pe) == z * Pow2(ze) <==> pe == ze && p == z
  {
    hide Pow2;
    if pe > ze {
      Pow2Mono(ze + 1, pe);
      Pow2Succ(ze);
      MulMono(2 * Pow2(ze), Pow2(pe), p);
      MulStrict(z, 2 * p, Pow2(ze));
      MulAssoc(p, 2, Pow2(ze));
    } else {
      CancelOrder(z, p, Pow2(ze));
    }
  }

  const TOP126: nat := 0x4000_0000_0000_0000_0000_0000_0000_0000
  const TOP125: nat := 0x2000_0000_0000_0000_0000_0000_0000_0000

  /** Aligning the smaller significand keeps a sound sticky bit, and a subtraction that
      cancels more than one leading bit was exact. */
  lemma Aligned(vp: nat, pe: int, pm1: Word, pm2: Word, vz: nat, ze: int, zm1: Word, zm2: Word, c1: Word, c2: Word)
    requires IsTerm(vp, pe, pm1, pm2) && IsTerm(vz, ze, zm1, zm2)
    requires pe > ze || (pe == ze && Pair(pm1, pm2) >= Pair(zm1, zm2))
    requires (c1, c2) == ShrCompress(zm1, zm2, pe - ze)
    ensures TOP126 <= Pair(pm1, pm2) < 2 * TOP126 && Pair(c1, c2) < 2 * TOP126
    ensures IsSticky(Times(vp + vz, Pow2(256)), Pow2(pe + 1255), Pair(pm1, pm2) + Pair(c1, c2))
    ensures vp > vz ==> Pair(c1, c2) < Pair(pm1, pm2)
    ensures vp > vz ==> IsSticky(Times(vp - vz, Pow2(256)), Pow2(pe + 1255), Pair(pm1, pm2) - Pair(c1, c2))
    ensures vp > vz ==> Times(vp - vz, Pow2(256)) == (Pair(pm1, pm2) - Pair(c1, c2)) * Pow2(pe + 1255)
                        || Pair(pm1, pm2) - Pair(c1, c2) >= TOP125
  {
    hide Pow2, ShrCompress, Pair, IsSticky, Jam;
    var d := pe - ze;
    var k, s := Pow2(256), Pow2(ze + 1255);
    var p, z, c := Pair(pm1, pm2), Pair(zm1, zm2), Pair(c1, c2);
    ShrCompressValue(zm1, zm2, d);
    AlignNumbers(p, z, d, c);
    Larger(vp, pe, pm1, pm2, vz, ze, zm1, zm2);
    assert Pow2(pe + 1255) == Pow2(d) * s by { Pow2Add(d, ze + 1255); }
    MulAssoc(p, Pow2(d), s);
    assert (vp + vz) * k == (p * Pow2(d) + z) * s by {
      SumScaled(vp, vz, k);
      SumScaled(p * Pow2(d), z, s);
    }
    StickyScaled(p * Pow2(d) + z, Pow2(d), p + c, s);
    if vp > vz {
      assert (vp - vz) * k == (p * Pow2(d) - z) * s by {
        DifferenceScaled(vp, vz, k);
        DifferenceScaled(p * Pow2(d), z, s);
      }
      assert c < p;
      StickyScaled(p * Pow2(d) - z, Pow2(d), p - c, s);
      MulAssoc(p - c, Pow2(d), s);
    }
  }

  lemma DifferenceScaled(a: int, b: int, k: int)
    ensures (a - b) * k == a * k - b * k
  {}

  lemma AlignNumbers(p: nat, z: nat, d: nat, c: nat)
    requires TopAt126(p) && TopAt126(z) && c == Jam(z, d)
    requires d > 0 || p >= z
    ensures c < 2 * TOP126 && c <= p && (d > 0 || p > z ==> c < p)
    ensures z <= p * Pow2(d)
    ensures IsSticky(p * Pow2(d) + z, Pow2(d), p + c) && IsSticky(p * Pow2(d) - z, Pow2(d), p - c)
    ensures p * Pow2(d) - z == (p - c) * Pow2(d) || p - c >= TOP125
  {
    hide Pow2, Jam, IsSticky, TopAt126;
    TopFacts(p);
    TopFacts(z);
    Aligning(z, d, c);
    AlignedBounds(z, d, c);
    StickySum(p, z, Pow2(d), c);
  }

  lemma TopFacts(u: nat)
    requires TopAt126(u)
    ensures u % 2 == 0 && TOP126 <= u < 2 * TOP126
  {
    EvenMultiple(u);
  }

  lemma EvenMultiple(u: nat)
    requires u % 0x20_0000 == 0
    ensures u % 2 == 0
  {
    var k := u / 0x20_0000;
    DivModUnique(u, 2, k * 0x10_0000, 0);
  }

  lemma Aligning(z: nat, d: nat, c: nat)
    requires TopAt126(z) && c == Jam(z, d)
    ensures IsSticky(z, Pow2(d), c)
    ensures d <= 21 ==> z == c * Pow2(d)
  {
    hide Pow2, Jam;
    JamSticky(z, 1, z, d);
    if d <= 21 {
      Pow2Split(21, d);
      Pow2Values();
      var t := z / 0x20_0000;
      MulAssoc(t, Pow2(21 - d), Pow2(d));
      MulMono(0, t, Pow2(21 - d));
      JamValue(z, d, t * Pow2(21 - d), 0);
    }
  }

  lemma AlignedBounds(z: nat, d: nat, c: nat)
    requires z < 2 * TOP126 && IsSticky(z, Pow2(d), c)
    ensures d == 0 ==> c == z
    ensures d > 0 ==> c < TOP126
    ensures d > 21 ==> c <= TOP125
  {
    hide Pow2;
    Pow2Values();
    if d > 0 {
      Pow2Mono(1, d);
      StickyCompares(z, Pow2(d), c, TOP126);
      MulMono(2, Pow2(d), TOP126);
    }
    if d > 21 {
      Pow2Mono(21, d);
      StickyCompares(z, Pow2(d), c, TOP125);
      MulMono(0x20_0000, Pow2(d), TOP125);
    }
  }

  /** Adding or subtracting an even multiple of the unit leaves stickiness alone. */
  lemma StickySum(p: nat, z: nat, q: nat, c: nat)
    requires q > 0 && p % 2 == 0 && IsSticky(z, q, c) && c <= p
    ensures IsSticky(p * q + z, q, p + c)
    ensures z <= p * q && IsSticky(p * q - z, q, p - c)
    ensures z == c * q ==> p * q - z == (p - c) * q
  {
    SumScaled(p, c, q);
    SumScaled(p, c + 1, q);
    DifferenceScaled(p, c, q);
    DifferenceScaled(p, c + 1, q);
    MulMono(c, p, q);
    if c % 2 == 1 {
      SumScaled(p, c - 1, q);
      DifferenceScaled(p, c - 1, q);
      MulMono(c + 1, p, q);
    }
  }

  // ----- Normalising the sum to one word -----

  lemma NormaliseSum(v: nat, pe: int, u1: Word, u2: Word)
    requires -1126 <= pe <= 4000
    requires TOP126 <= Pair(u1, u2) && IsSticky(Times(v, Pow2(256)), Pow2(pe + 1255), Pair(u1, u2))
    ensures Shr(u1, 63) <= 1 && Shr(Not(u1), 63) <= 1
    ensures IsRest(v, pe - Shr(Not(u1), 63), ShrCompress(u1, u2, 64 + Shr(u1, 63)).1)
  {
    hide Pow2, ShrCompress, IsSticky, Shr, Jam;
    TopBit(u1);
    var n := 64 + Shr(u1, 63);
    var r := ShrCompress(u1, u2, n);
    ShrCompressValue(u1, u2, n);
    JamSticky(Times(v, Pow2(256)), Pow2(pe + 1255), Pair(u1, u2), n);
    Pow2Add(pe + 1255, n);
    TopWord(u1, u2, n);
  }

  lemma TopBit(u: Word)
    ensures Shr(u, 63) == (if u < 0x8000_0000_0000_0000 then 0 else 1)
    ensures Shr(Not(u), 63) == (if u < 0x8000_0000_0000_0000 then 1 else 0)
  {
    hide Pow2;
    Pow2Values();
  }

  /** Jamming away the low word leaves the leading bit at position 62 of one word. */
  lemma TopWord(u1: Word, u2: Word, n: nat)
    requires TOP126 <= Pair(u1, u2)
    requires n == if u1 < 0x8000_0000_0000_0000 then 64 else 65
    ensures 0x4000_0000_0000_0000 <= Jam(Pair(u1, u2), n) < 0x8000_0000_0000_0000
  {
    hide Pow2, Jam;
    Pow2Values();
    Pow2Succ(64);
    if n == 64 {
      JamValue(Pair(u1, u2), 64, u1, u2);
    } else {
      JamValue(Pair(u1, u2), 65, u1 / 2, (u1 % 2) * 0x1_0000_0000_0000_0000 + u2);
    }
  }

  lemma NormaliseDifference(v: nat, pe: int, u1: Word, u2: Word, nz: nat)
    requires -1126 <= pe <= 4000
    requires 0 < Pair(u1, u2) < 2 * TOP126 && IsSticky(Times(v, Pow2(256)), Pow2(pe + 1255), Pair(u1, u2))
    requires Times(v, Pow2(256)) == Pair(u1, u2) * Pow2(pe + 1255) || Pair(u1, u2) >= TOP125
    requires nz == LeadingZerosPair(u1, u2)
    ensures 1 <= nz <= 127
    ensures var r := ShlPair(u1, u2, nz - 1); IsRest(v, pe - nz, OrWord(r.0, NonZero(r.1)))
  {
    hide Pow2, ShlPair, IsSticky, Shr, Jam, LeadingZerosPair, OrWord;
    LeadingPair(u1, u2, nz);
    var w := Pair(u1, u2);
    var x := Times(w, Pow2(nz - 1));
    var r := ShlPair(u1, u2, nz - 1);
    assert Pair(r.0, r.1) == x && TOP126 <= x < 2 * TOP126 by { ShiftToTop(u1, u2, nz); }
    NonZeroOr(r.0, r.1);
    TopWord(r.0, r.1, 64);
    Pow2Values();
    JamByPair(r.0, r.1, 64, 0, r.0, r.1);
    var m := OrWord(r.0, NonZero(r.1));
    assert m == Jam(x, 64);
    if Times(v, Pow2(256)) == w * Pow2(pe + 1255) {
      ExactShift(Times(v, Pow2(256)), w, pe + 1255, nz - 1);
      JamSticky(Times(v, Pow2(256)), Pow2(pe + 1256 - nz), x, 64);
      Pow2Add(pe + 1256 - nz, 64);
    } else {
      FewZeros(w, nz);
      JamDouble(w, nz - 1);
      JamSticky(Times(v, Pow2(256)), Pow2(pe + 1255), w, 65 - nz);
      Pow2Add(pe + 1255, 65 - nz);
    }
  }

  lemma LeadingPair(u1: Word, u2: Word, nz: nat)
    requires 0 < Pair(u1, u2) < 2 * TOP126 && nz == LeadingZerosPair(u1, u2)
    ensures 1 <= nz <= 127
    ensures Pow2(127 - nz) <= Pair(u1, u2) < Pow2(128 - nz)
  {
    hide Pow2;
    Pow2Values();
    if u1 == 0 {
      assert LeadingZeros64(u1) == 64;
    } else {
      var l := LeadingZeros64(u1);
      Pow2Add(63 - l, 64);
      Pow2Add(64 - l, 64);
      MulMono(Pow2(63 - l), u1, W64);
      MulMono(u1 + 1, Pow2(64 - l), W64);
      assert l > 0;
    }
  }

  lemma ShiftToTop(u1: Word, u2: Word, nz: nat)
    requires 1 <= nz <= 127 && Pow2(127 - nz) <= Pair(u1, u2) < Pow2(128 - nz)
    ensures var r := ShlPair(u1, u2, nz - 1);
            Pair(r.0, r.1) == Pair(u1, u2) * Pow2(nz - 1) && TOP126 <= Pair(r.0, r.1) < 2 * TOP126
  {
    hide Pow2, ShlPair, Pair;
    var k := Pow2(nz - 1);
    Pow2Mono(128 - nz, 129 - nz);
    ShlPairValue(u1, u2, nz - 1);
    Pow2Values();
    assert Pow2(127 - nz) * k == TOP126 by { Pow2Add(127 - nz, nz - 1); Pow2Add(63, 63); }
    assert Pow2(128 - nz) * k == 2 * TOP126 by { Pow2Add(128 - nz, nz - 1); Pow2Add(63, 64); }
    MulMono(Pow2(127 - nz), Pair(u1, u2), k);
    MulStrict(Pair(u1, u2), Pow2(128 - nz), k);
  }

  lemma ExactShift(num: nat, w: nat, e: nat, k: nat)
    requires k <= e && num == w * Pow2(e)
    ensures IsSticky(num, Pow2(e - k), Times(w, Pow2(k)))
  {
    hide Pow2;
    Pow2Split(e, k);
    MulAssoc(w, Pow2(k), Pow2(e - k));
  }

  lemma FewZeros(w: nat, nz: nat)
    requires 1 <= nz <= 127 && TOP125 <= w < Pow2(128 - nz)
    ensures nz <= 2
  {
    if nz > 2 {
      Pow2Mono(128 - nz, 125);
      Pow2Values();
      Pow2Add(62, 63);
    }
  }

  lemma JamDouble(w: nat, k: nat)
    requires k <= 1
    ensures Jam(Times(w, Pow2(k)), 64) == Jam(w, 64 - k)
  {
    hide Jam;
    Pow2Values();
    if k == 1 {
      var q, r := w / 0x8000_0000_0000_0000, w % 0x8000_0000_0000_0000;
      JamValue(w, 63, q, r);
      JamValue(2 * w, 64, q, 2 * r);
    }
  }

  // ----- The third operand -----

  lemma AddendTerm(a: nat, zm: Word, ze: int)
    requires HIDDEN <= zm < 2 * HIDDEN && -51 <= ze <= 2046
    requires a * Pow2(53) == zm * Pow2(ze + 52)
    ensures IsTerm(Times(a, Pow2(1074)), ze, Shl(zm, 10), 0)
  {
    hide Pow2;
    Pow2Values();
    assert Shl(zm, 10) == zm * 1024 by { ShlExact(zm, 10); }
    assert Pow2(1074) * Pow2(256) == Pow2(53) * Pow2(1277) by { Pow2Add(1074, 256); Pow2Add(53, 1277); }
    assert Pow2(ze + 52) * Pow2(1277) == 0x400_0000_0000_0000_0000 * Pow2(ze + 1255) by {
      Pow2Add(ze + 52, 1277);
      Pow2Add(74, ze + 1255);
      Pow2Add(64, 10);
    }
    AddendScale(a, Pow2(1074), Pow2(256), Pow2(53), Pow2(1277), zm, Pow2(ze + 52), Pow2(ze + 1255));
  }

  lemma AddendScale(a: nat, u: nat, k: nat, h: nat, g: nat, zm: nat, e: nat, f: nat)
    requires a * h == zm * e && u * k == h * g && e * g == 0x400_0000_0000_0000_0000 * f
    ensures (a * u) * k == (zm * 0x400_0000_0000_0000_0000) * f
  {
    calc {
      (a * u) * k;
      a * (u * k);
      (a * h) * g;
      (zm * e) * g;
      zm * (e * g);
      (zm * 0x400_0000_0000_0000_0000) * f;
    }
  }

  // ----- Rounding what is left -----

  /** The code's rounding of m to its upper bits, ties to even. */
  function RoundBits(m: Word): Word {
    AndWord(Shr(Wrap(m + Shl(1, 9)), 10), Not(Zero(XorWord(AndWord(m, Wrap(Shl(1, 10) - 1)), Shl(1, 9)))))
  }

  lemma RoundBitsIsRoundTen(m: Word)
    requires m < 0x8000_0000_0000_0000
    ensures RoundBits(m) == RoundTen(m)
  {
    hide Pow2, And, Xor, Shr, Shl;
    Pow2Values();
    ShlExact(1, 9);
    LowMask(m, 10);
    XorIsZero(m % 1024, 512);
    ShrValue(m + 512, 10);
    var q := (m + 512) / 1024;
    AndComplement(q, 0, 64);
    AndComplement(q, 1, 64);
    AndNotOne(q);
    AndNotZero(q);
  }

  lemma {:induction false} AndComplement(x: nat, y: nat, n: nat)
    requires x < Pow2(n) && y < Pow2(n)
    ensures And(x, Pow2(n) - 1 - y) == AndNot(x, y)
  {
    if n > 0 {
      AndComplement(x / 2, y / 2, n - 1);
      AndStep(x, Pow2(n) - 1 - y, x / 2, Pow2(n - 1) - 1 - y / 2);
      AndNotStep(x, y, x / 2, y / 2);
    }
  }

  /** The code's shift into the subnormal range. */
  function ShiftSticky(m: Word, n: Word): Word {
    OrWord(Shr(m, n), NonZero(AndWord(m, Wrap(Shl(1, n) - 1))))
  }

  lemma ShiftStickyIsJam(m: Word, n: Word)
    ensures ShiftSticky(m, n) == Jam(m, n)
  {
    hide Pow2, And, Or, Shr, Shl, Jam;
    ShrValue(m, n);
    DivModFacts(m, Pow2(n));
    if n < 64 {
      LowMask(m, n);
    } else {
      ShiftOut(m, n);
      ShiftOut(1, n);
      Pow2Values();
      AndMask(m, 64);
      Pow2Mono(64, n);
      DivModUnique(m, Pow2(n), 0, m);
    }
    NonZeroOr(Shr(m, n), m % Pow2(n));
    JamValue(m, n, m / Pow2(n), m % Pow2(n));
  }

  /** The final exponent mask: the exponent survives unless the significand vanished. */
  lemma ExponentMask(pe: Word, m: Word)
    ensures AndWord(pe, Wrap(0 - NonZero(m))) == if m == 0 then 0 else pe
  {
    hide Pow2, And;
    Pow2Values();
    AndMask(pe, 64);
    AndZero(pe);
  }

  lemma RestAtScale(v: nat, pe: nat, m: Word)
    requires IsSticky(Times(v, Pow2(256)), Pow2(pe + 1320), m)
    ensures IsSticky(v * 1024, Pow2(1074) * Pow2(pe), m)
  {
    hide Pow2, IsSticky;
    Pow2Values();
    Pow2Add(10, 246);
    Pow2Add(1074, pe);
    Pow2Add(1074 + pe, 246);
    MulAssoc(v, 1024, Pow2(246));
    StickyScaled(v * 1024, Pow2(1074) * Pow2(pe), m, Pow2(246));
  }

  /** Round the remaining word into a double, as the last lines of FMA do. */
  method Pack64(ps: Word, pe0: int, m0: Word, ghost v: nat) returns (r: Word)
    requires ps <= 1 && IsRest(v, pe0, m0)
    ensures Sign(r) == ps && IsNearest(v, Pow2(1074), Abs(r))
  {
    hide Pow2, Shr, Shl, AndWord, OrWord, IsSticky, IsNearest, RoundBits, ShiftSticky, Jam, Pack;
    var pe, m := pe0, m0;
    SignBit(ps);
    assert Shr(Wrap(m + Shl(1, 9)), 63) == 1 <==> m + 512 >= 0x8000_0000_0000_0000 by { CarryBit(m); }
    if pe > 1022 + BIAS || (pe == 1022 + BIAS && Shr(Wrap(m + Shl(1, 9)), 63) == 1) {
      RestAtScale(v, pe, m);
      Overflows(v, Pow2(1074), pe, m);
      return OrWord(Shl(ps, 63), UVINF);
    }
    if pe < 0 {
      var n := -pe;
      Subnormal(v, n, m);
      m := ShiftSticky(m, n);
      pe := 0;
    }
    RestAtScale(v, pe, m);
    RoundedPattern(v, pe, m);
    m := RoundBits(m);
    Assemble(ps, pe, m);
    pe := AndWord(pe, Wrap(0 - NonZero(m)));
    return Wrap(Shl(ps, 63) + Shl(pe, 52) + m);
  }

  lemma RoundedPattern(v: nat, pe: nat, m: Word)
    requires pe <= 2045 && m < 0x8000_0000_0000_0000
    requires pe > 0 ==> m >= 0x4000_0000_0000_0000
    requires pe == 2045 ==> m + 512 < 0x8000_0000_0000_0000
    requires IsSticky(v * 1024, Pow2(1074) * Pow2(pe), m)
    ensures Pack(pe, RoundBits(m)) < UVINF && IsNearest(v, Pow2(1074), Pack(pe, RoundBits(m)))
    ensures RoundBits(m) == 0 ==> pe == 0
  {
    hide Pow2, IsSticky, IsNearest, RoundBits;
    RoundBitsIsRoundTen(m);
    RoundsOnce(v, Pow2(1074), pe, m);
  }

  lemma Assemble(ps: Word, pe: Word, q: Word)
    requires ps <= 1 && pe <= 2045 && Pack(pe, q) < UVINF && (q == 0 ==> pe == 0)
    ensures var r := Wrap(Shl(ps, 63) + Shl(AndWord(pe, Wrap(0 - NonZero(q))), 52) + q);
            Sign(r) == ps && Abs(r) == Pack(pe, q)
  {
    hide Shl, AndWord;
    SignBit(ps);
    ExponentMask(pe, q);
    ExponentField(pe);
    NoWrap(ps, Pack(pe, q));
  }

  lemma NoWrap(ps: Word, k: nat)
    requires ps <= 1 && k <= UVINF
    ensures Sign(Wrap(ps * SIGNMASK + k)) == ps && Abs(Wrap(ps * SIGNMASK + k)) == k
  {
    SignAndMagnitude(ps, k);
  }

  lemma SignBit(ps: Word)
    requires ps <= 1
    ensures Shl(ps, 63) == ps * SIGNMASK && OrWord(Shl(ps, 63), UVINF) == ps * SIGNMASK + UVINF
  {
    hide Pow2, Or;
    Pow2Values();
    ShlExact(ps, 63);
    OrDisjoint(ps, UVINF, 63);
  }

  lemma CarryBit(m: Word)
    requires m < 0x8000_0000_0000_0000
    ensures Shr(Wrap(m + Shl(1, 9)), 63) == 1 <==> m + 512 >= 0x8000_0000_0000_0000
  {
    hide Pow2;
    Pow2Values();
  }

  lemma ExponentField(pe: Word)
    requires pe < 2048
    ensures Shl(pe, 52) == pe * 0x10_0000_0000_0000
  {
    hide Pow2;
    Pow2Values();
  }

  lemma Subnormal(v: nat, n: nat, m: Word)
    requires 0 < n <= 1320 && m < 0x8000_0000_0000_0000
    requires IsSticky(Times(v, Pow2(256)), Pow2(1320 - n), m)
    ensures ShiftSticky(m, n) < 0x8000_0000_0000_0000
    ensures IsSticky(Times(v, Pow2(256)), Pow2(1320), ShiftSticky(m, n))
  {
    hide Pow2, IsSticky, Jam, ShiftSticky;
    ShiftStickyIsJam(m, n);
    JamSticky(Times(v, Pow2(256)), Pow2(1320 - n), m, n);
    Pow2Add(1320 - n, n);
    DivModFacts(m, Pow2(n));
    JamValue(m, n, m / Pow2(n), m % Pow2(n));
    DivLe(m, Pow2(n));
  }

  // ----- FMA -----

  /** The exact x*y+z in units of 2^-2148. */
  function Exact(x: Word, y: Word, z: Word): int {
    Value(x) * Value(y) + Value(z) * Pow2(1074)
  }

  lemma ExactSigned(x: Word, y: Word, z: Word)
    ensures Exact(x, y, z) == Signed((Sign(x) + Sign(y)) % 2, Times(Mag(Abs(x)), Mag(Abs(y))))
                              + Signed(Sign(z), Times(Mag(Abs(z)), Pow2(1074)))
  {
    hide Mag, Pow2;
    SignedProduct(Mag(Abs(x)), Mag(Abs(y)));
    SignedProduct(Mag(Abs(z)), Pow2(1074));
  }

  lemma SignedProduct(a: nat, b: nat)
    ensures (-(a as int)) * b == -(a * b) && a * (-(b as int)) == -(a * b) && (-(a as int)) * (-(b as int)) == a * b
  {}

  /** FMA over the bit patterns. When an operand is zero or x or y is not finite the source
      defers to hardware arithmetic, here the parameter mulAdd. Otherwise an infinite or NaN
      z comes back as it is, and for finite z the result is the exact x*y+z rounded once to
      nearest, ties to even, with +0 for exact cancellation. */
  method FMA(x: Word, y: Word, z: Word, mulAdd: (Word, Word, Word) -> Word) returns (r: Word)
    ensures IsZero(x) || IsZero(y) || IsZero(z) || !IsFinite(x) || !IsFinite(y) ==> r == mulAdd(x, y, z)
    ensures !IsZero(x) && !IsZero(y) && !IsZero(z) && IsFinite(x) && IsFinite(y) && !IsFinite(z) ==> r == z
    ensures !IsZero(x) && !IsZero(y) && !IsZero(z) && IsFinite(x) && IsFinite(y) && IsFinite(z) ==>
              if Exact(x, y, z) == 0 then r == 0 else IsRounded(Exact(x, y, z), Pow2(1074), r)
  {
    hide Mag, Pow2, AndWord, Exact, IsTerm, IsRest, IsNearest, Times, Shl;
    ExponentOnes(x);
    ExponentOnes(y);
    ExponentOnes(z);
    if IsZero(x) || IsZero(y) || IsZero(z) || AndWord(x, UVINF) == UVINF || AndWord(y, UVINF) == UVINF {
      return mulAdd(x, y, z);
    }
    if AndWord(z, UVINF) == UVINF {
      return z;
    }
    var ps, pe, pm1, pm2 := Product(x, y);
    var zs, ze, zm := Split(z);
    AddendTerm(Mag(Abs(z)), zm, ze);
    ExactSigned(x, y, z);
    var cancelled, s, e, m := Combine(ps, pe, pm1, pm2, zs, ze, Shl(zm, 10), 0,
                                      Times(Mag(Abs(x)), Mag(Abs(y))), Times(Mag(Abs(z)), Pow2(1074)));
    if cancelled {
      return 0;
    }
    r := Pack64(s, e, m, Dist(Exact(x, y, z), 0));
  }
}
