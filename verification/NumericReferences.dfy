/** The numeric references of html/escape.go against those of the HTML standard, section 13.2.5.75
    to 13.2.5.80: what the standard makes of a text, and exactly when the decoder does the same. */
module NumericReferences {
  import opened Basics
  import opened Utf8
  import opened Html

  // ----- The number a reference spells -----

  /** The digits in order, in both cases. */
  predicate IsDigitFor(c: byte, hex: bool, d: int) {
    && 0 <= d < (if hex then 16 else 10)
    && (c == Bytes("0123456789abcdef")[d] || c == Bytes("0123456789ABCDEF")[d])
  }

  lemma DigitMeaning(c: byte, hex: bool, d: int)
    ensures IsDigitFor(c, hex, d) <==> DigitOf(c, hex) == d >= 0
  {
    hide Bytes;
    if 0 <= d < 16 {
      DigitBytes(d);
    }
  }

  lemma DigitBytes(d: nat)
    requires d < 16
    ensures Bytes("0123456789abcdef")[d] == if d < 10 then 48 + d else 87 + d
    ensures Bytes("0123456789ABCDEF")[d] == if d < 10 then 48 + d else 55 + d
  {
  }

  /** The number the digits from i to n spell. */
  function ValueOf(s: seq<byte>, i: nat, n: nat, hex: bool, x: nat): (v: nat)
    requires i <= n <= |s| && forall k | i <= k < n :: DigitOf(s[k], hex) >= 0
    decreases n - i
  {
    if i == n then x else ValueOf(s, i + 1, n, hex, (if hex then 16 else 10) * x + DigitOf(s[i], hex))
  }

  function DigitsEnd(s: seq<byte>, i: nat, hex: bool): (n: nat)
    requires i <= |s|
    ensures i <= n <= |s| && forall k | i <= k < n :: DigitOf(s[k], hex) >= 0
    decreases |s| - i
  {
    if i < |s| && DigitOf(s[i], hex) >= 0 then DigitsEnd(s, i + 1, hex) else i
  }

  lemma Int32Step(x: int, base: int, d: int)
    requires base == 10 || base == 16
    ensures Int32(base * Int32(x) + d) == Int32(base * x + d)
  {
    var k := (x + 0x8000_0000) / 0x1_0000_0000;
    assert Int32(x) == x - 0x1_0000_0000 * k;
    Int32Shift(base * x + d, base * k);
  }

  lemma Int32Shift(x: int, k: int)
    ensures Int32(x - 0x1_0000_0000 * k) == Int32(x)
  {
    var y := x + 0x8000_0000;
    assert (y - 0x1_0000_0000 * k) % 0x1_0000_0000 == y % 0x1_0000_0000;
  }

  /** The decoder computes the number modulo 2^32: the rune it accumulates wraps around. */
  lemma {:induction false} NumberValue(s: seq<byte>, i: nat, hex: bool, x: nat)
    requires i <= |s|
    ensures var n := DigitsEnd(s, i, hex);
            && ScanNumber(s, i, hex, Int32(x)).0 == Int32(ValueOf(s, i, n, hex, x))
            && ScanNumber(s, i, hex, Int32(x)).1 == if n < |s| && s[n] == 59 then n + 1 else n
    decreases |s| - i
  {
    if i < |s| && DigitOf(s[i], hex) >= 0 {
      var base := if hex then 16 else 10;
      var d := DigitOf(s[i], hex);
      hide Int32, DigitOf;
      Int32Step(x, base, d);
      NumberValue(s, i + 1, hex, base * x + d);
    }
  }

  // ----- The standard -----

  /** Windows-1252 from 0x80 to 0x9F, where it has a character. */
  function Windows1252(v: nat): (r: Rune)
    requires 0x80 <= v <= 0x9F
  {
    match v
    case 0x80 => 0x20AC
    case 0x82 => 0x201A
    case 0x83 => 0x0192
    case 0x84 => 0x201E
    case 0x85 => 0x2026
    case 0x86 => 0x2020
    case 0x87 => 0x2021
    case 0x88 => 0x02C6
    case 0x89 => 0x2030
    case 0x8A => 0x0160
    case 0x8B => 0x2039
    case 0x8C => 0x0152
    case 0x8E => 0x017D
    case 0x91 => 0x2018
    case 0x92 => 0x2019
    case 0x93 => 0x201C
    case 0x94 => 0x201D
    case 0x95 => 0x2022
    case 0x96 => 0x2013
    case 0x97 => 0x2014
    case 0x98 => 0x02DC
    case 0x99 => 0x2122
    case 0x9A => 0x0161
    case 0x9B => 0x203A
    case 0x9C => 0x0153
    case 0x9E => 0x017E
    case 0x9F => 0x0178
    case _ => v
  }

  /** The character of a number: null, surrogates and what lies beyond Unicode are replaced. */
  function StandardCharacter(v: nat): (r: Rune) {
    if v == 0 || v > 0x10_FFFF || 0xD800 <= v <= 0xDFFF then RUNE_ERROR
    else if 0x80 <= v <= 0x9F then Windows1252(v)
    else v
  }

  predicate IsNumeric(s: seq<byte>) { |s| >= 2 && s[0] == AMP && s[1] == 35 }

  predicate IsHex(s: seq<byte>) { |s| > 2 && (s[2] == 120 || s[2] == 88) }

  /** Where the digits begin. */
  function Start(s: seq<byte>): (i: nat)
    requires IsNumeric(s)
    ensures 2 <= i <= |s|
  {
    if IsHex(s) then 3 else 2
  }

  /** Where they end. */
  function End(s: seq<byte>): (n: nat)
    requires IsNumeric(s)
    ensures Start(s) <= n <= |s| && forall k | Start(s) <= k < n :: DigitOf(s[k], IsHex(s)) >= 0
  {
    DigitsEnd(s, Start(s), IsHex(s))
  }

  predicate SemicolonAt(s: seq<byte>, n: nat) { n < |s| && s[n] == 59 }

  function Number(s: seq<byte>): (v: nat)
    requires IsNumeric(s)
  {
    ValueOf(s, Start(s), End(s), IsHex(s), 0)
  }

  /** At least one digit, and a semicolon that may be missing. Without a digit the text stays. */
  function StandardNumeric(s: seq<byte>): (r: Reference)
    requires IsNumeric(s)
  {
    if End(s) == Start(s) then Reference(s[..1], 1)
    else Reference(Encode(StandardCharacter(Number(s))), if SemicolonAt(s, End(s)) then End(s) + 1 else End(s))
  }

  // ----- Where the decoder agrees -----

  /** The decoder's rune wraps around at 2^32; that matters unless both numbers are invalid or mean
      the replacement character. */
  predicate NumberConforms(v: nat) {
    var u := v % 0x1_0000_0000;
    v <= 0x10_FFFF || u == 0 || !IsScalar(u) || u == RUNE_ERROR
  }

  /** No digits is fine unless a semicolon follows the x; one decimal digit needs a semicolon. */
  predicate Conforms(s: seq<byte>)
    requires IsNumeric(s)
  {
    if End(s) == Start(s) then !(IsHex(s) && SemicolonAt(s, 3))
    else (IsHex(s) || End(s) > 3 || SemicolonAt(s, 3)) && NumberConforms(Number(s))
  }

  lemma Replacements(v: nat)
    requires 0x80 <= v <= 0x9F
    ensures ReplacementTable()[v - 0x80] == Windows1252(v) && Windows1252(v) != RUNE_ERROR
  {
  }

  lemma CharacterInRange(v: nat)
    requires v <= 0x10_FFFF
    ensures Character(v) == StandardCharacter(v)
         && (Character(v) == RUNE_ERROR <==> v == 0 || !IsScalar(v) || v == RUNE_ERROR)
  {
    hide ReplacementTable;
    if 0x80 <= v <= 0x9F {
      Replacements(v);
    }
  }

  lemma Int32Range(v: nat)
    ensures var u := v % 0x1_0000_0000; Int32(v) == if u < 0x8000_0000 then u else u - 0x1_0000_0000
  {
    var k := v / 0x1_0000_0000;
    var u := v % 0x1_0000_0000;
    assert v == u + 0x1_0000_0000 * k;
    Int32Shift(v, k);
  }

  /** The decoder finds the standard's character of a number exactly when the number conforms. */
  lemma CharacterConforms(v: nat)
    ensures Character(Int32(v)) == StandardCharacter(v) <==> NumberConforms(v)
  {
    hide ReplacementTable, Int32;
    Int32Range(v);
    var u := v % 0x1_0000_0000;
    if v <= 0x10_FFFF {
      CharacterInRange(v);
    } else if u <= 0x10_FFFF {
      CharacterInRange(u);
    }
  }

  lemma SameEncoding(a: Rune, b: Rune)
    ensures Encode(a) == Encode(b) <==> a == b
  {
    hide Encode, DecodeRune;
    DecodeEncoded(a, []);
    DecodeEncoded(b, []);
    assert Encode(a) + [] == Encode(a) && Encode(b) + [] == Encode(b);
  }

  /** The decoder's reading of a numeric reference in terms of its digits. */
  lemma DecodedNumeric(t: Table, s: seq<byte>)
    requires IsNumeric(s)
    ensures var i := if SemicolonAt(s, End(s)) then End(s) + 1 else End(s);
            Entity(t, s) == if i <= 3 then Reference(s[..1], 1) else Reference(Encode(Character(Int32(Number(s)))), i)
  {
    hide Encode, Character, Named, Int32;
    assert Int32(0) == 0 by {
      SmallInt32(0);
    }
    if |s| > 3 {
      NumberValue(s, Start(s), IsHex(s), 0);
    }
  }

  /** A numeric reference is decoded as the standard asks exactly when it conforms. */
  lemma NumericMeaning(t: Table, s: seq<byte>)
    requires IsNumeric(s)
    ensures Entity(t, s) == StandardNumeric(s) <==> Conforms(s)
  {
    hide Entity, Character, StandardCharacter, Encode, Number, NumberConforms;
    DecodedNumeric(t, s);
    CharacterConforms(Number(s));
    SameEncoding(Character(Int32(Number(s))), StandardCharacter(Number(s)));
  }

  // ----- Three texts that do not conform -----

  /** A text that is one reference. */
  lemma OneReference(t: Table, s: seq<byte>)
    requires IsNumeric(s) && Entity(t, s).size == |s|
    ensures Unescape(t, s) == Entity(t, s).text
  {
    hide Entity;
    assert s[|s|..] == [];
  }

  /** &#4294967361; becomes the letter A. */
  lemma WrapsAround(t: Table)
    ensures var s := Bytes("&#4294967361;");
            IsNumeric(s) && !Conforms(s) && Unescape(t, s) == [65] && StandardNumeric(s).text == Encode(RUNE_ERROR)
  {
    hide Entity, Unescape, Encode, StandardNumeric, Conforms;
    var s := Bytes("&#4294967361;");
    assert s == [38, 35, 52, 50, 57, 52, 57, 54, 55, 51, 54, 49, 59];
    ManyDigits(s);
    ManyDigitsDecoded(t, s);
  }

  lemma ManyDigitsDecoded(t: Table, s: seq<byte>)
    requires IsNumeric(s) && !IsHex(s) && |s| == 13 && s[12] == 59 && End(s) == 12 && Number(s) == 4294967361
    ensures !Conforms(s) && Unescape(t, s) == [65] && StandardNumeric(s).text == Encode(RUNE_ERROR)
  {
    hide Number, End, Encode, Entity, Character, StandardCharacter, Int32, Unescape;
    DecodedNumeric(t, s);
    OneReference(t, s);
    OneLetter();
  }

  lemma OneLetter()
    ensures Character(Int32(4294967361)) == 65 && Encode(65) == [65] && StandardCharacter(4294967361) == RUNE_ERROR
  {
    hide ReplacementTable;
  }

  lemma ManyDigits(s: seq<byte>)
    requires s == [38, 35, 52, 50, 57, 52, 57, 54, 55, 51, 54, 49, 59]
    ensures IsNumeric(s) && !IsHex(s) && End(s) == 12 && Number(s) == 4294967361
  {
    LastDigits(s);
    FirstDigits(s);
  }

  lemma FirstDigits(s: seq<byte>)
    requires s == [38, 35, 52, 50, 57, 52, 57, 54, 55, 51, 54, 49, 59]
    requires DigitsEnd(s, 7, false) == 12 && ValueOf(s, 7, 12, false, 42949) == 4294967361
    ensures DigitsEnd(s, 3, false) == 12 && ValueOf(s, 3, 12, false, 4) == 4294967361
  {
    assert DigitsEnd(s, 6, false) == 12 && ValueOf(s, 6, 12, false, 4294) == 4294967361;
    assert DigitsEnd(s, 5, false) == 12 && ValueOf(s, 5, 12, false, 429) == 4294967361;
    assert DigitsEnd(s, 4, false) == 12 && ValueOf(s, 4, 12, false, 42) == 4294967361;
  }

  lemma LastDigits(s: seq<byte>)
    requires s == [38, 35, 52, 50, 57, 52, 57, 54, 55, 51, 54, 49, 59]
    ensures DigitsEnd(s, 7, false) == 12 && ValueOf(s, 7, 12, false, 42949) == 4294967361
  {
    assert DigitsEnd(s, 11, false) == 12 && ValueOf(s, 11, 12, false, 429496736) == 4294967361;
    assert DigitsEnd(s, 10, false) == 12 && ValueOf(s, 10, 12, false, 42949673) == 4294967361;
    assert DigitsEnd(s, 9, false) == 12 && ValueOf(s, 9, 12, false, 4294967) == 4294967361;
    assert DigitsEnd(s, 8, false) == 12 && ValueOf(s, 8, 12, false, 429496) == 4294967361;
  }

  /** &#x; becomes U+FFFD, though it has no digit. */
  lemma NoDigits(t: Table)
    ensures var s := Bytes("&#x;");
            IsNumeric(s) && !Conforms(s) && Unescape(t, s) == Encode(RUNE_ERROR) && StandardNumeric(s).text == [AMP]
  {
    var s := Bytes("&#x;");
    assert s == [38, 35, 120, 59];
    assert IsNumeric(s) && IsHex(s) && End(s) == 3 && Number(s) == 0;
    hide Number, End, Encode, Entity, ReplacementTable, Int32;
    DecodedNumeric(t, s);
    SmallInt32(0);
    assert s[4..] == [];
  }

  /** &#5 before a space is left alone, though a semicolon is not required. */
  lemma OneDigit(t: Table)
    ensures var s := Bytes("&#5 ");
            IsNumeric(s) && !Conforms(s) && Unescape(t, s) == s && StandardNumeric(s) == Reference([5], 3)
  {
    var s := Bytes("&#5 ");
    assert s == [38, 35, 53, 32];
    FiveOnly(s);
    assert Encode(5) == [5] && StandardCharacter(5) == 5;
    hide Number, End, Encode, Entity, Character, StandardCharacter, Int32;
    DecodedNumeric(t, s);
    PlainText(t, s[1..], 3);
    assert s[1..][3..] == [] && s == [38] + s[1..];
  }

  lemma FiveOnly(s: seq<byte>)
    requires s == [38, 35, 53, 32]
    ensures IsNumeric(s) && !IsHex(s) && End(s) == 3 && Number(s) == 5
  {
    assert DigitsEnd(s, 3, false) == 3 && ValueOf(s, 3, 3, false, 5) == 5;
  }
}
