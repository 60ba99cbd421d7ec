/** html/escape.go: a decoder of character references that writes into the array it reads, and
    the escaping it undoes. The table of named references is a parameter. */
module Html {
  import opened Basics
  import opened Sequences
  import opened Utf8

  const AMP: byte := 38
  const LONGEST_ENTITY_WITHOUT_SEMICOLON := 6

  /** entity and entity2. */
  datatype Table = Table(one: map<seq<byte>, Rune>, two: map<seq<byte>, (Rune, Rune)>)

  /** No character takes more bytes than its reference, and the names that escaping uses are
      there. */
  ghost predicate TableOk(t: Table) {
    && (forall name | name in t.one :: |Encode(t.one[name])| <= 1 + |name|)
    && (forall name | name in t.two :: |Encode(t.two[name].0)| + |Encode(t.two[name].1)| <= 1 + |name|)
    && One(t, Bytes("amp;")) == 38 && One(t, Bytes("lt;")) == 60 && One(t, Bytes("gt;")) == 62
  }

  function One(t: Table, name: seq<byte>): (r: Rune) { if name in t.one then t.one[name] else 0 }

  function Two(t: Table, name: seq<byte>): (r: (Rune, Rune)) { if name in t.two then t.two[name] else (0, 0) }

  /** The bytes of an ASCII literal. */
  function Bytes(s: string): (b: seq<byte>)
    ensures |b| == |s|
  {
    seq(|s|, i requires 0 <= i < |s| => if (s[i] as int) < 256 then s[i] as int else 0)
  }

  // ----- Numeric references -----

  /** The 32-bit signed value of a rune variable. */
  function Int32(x: int): (r: int)
    ensures -0x8000_0000 <= r < 0x8000_0000
  {
    (x + 0x8000_0000) % 0x1_0000_0000 - 0x8000_0000
  }

  /** The value of a digit, or -1. */
  function DigitOf(c: byte, hex: bool): (d: int)
    ensures -1 <= d < if hex then 16 else 10
  {
    if 48 <= c <= 57 then c - 48
    else if hex && 97 <= c <= 102 then c - 97 + 10
    else if hex && 65 <= c <= 70 then c - 65 + 10
    else -1
  }

  /** The digits from position i on, added to x, and where they end: behind a semicolon. */
  function ScanNumber(s: seq<byte>, i: nat, hex: bool, x: int): (r: (int, nat))
    requires i <= |s|
    ensures i <= r.1 <= |s|
    decreases |s| - i
  {
    if i == |s| then (x, i)
    else if DigitOf(s[i], hex) >= 0 then
      ScanNumber(s, i + 1, hex, Int32((if hex then 16 else 10) * x + DigitOf(s[i], hex)))
    else (x, if s[i] == 59 then i + 1 else i)
  }

  /** What Windows-1252 has at 0x80 to 0x9F. */
  function ReplacementTable(): (table: seq<Rune>)
    ensures |table| == 32
  {
    [
      0x20AC, 0x0081, 0x201A, 0x0192, 0x201E, 0x2026, 0x2020, 0x2021,
      0x02C6, 0x2030, 0x0160, 0x2039, 0x0152, 0x008D, 0x017D, 0x008F,
      0x0090, 0x2018, 0x2019, 0x201C, 0x201D, 0x2022, 0x2013, 0x2014,
      0x02DC, 0x2122, 0x0161, 0x203A, 0x0153, 0x009D, 0x017E, 0x0178]
  }

  predicate IsScalar(x: int) { 0 <= x <= 0x10_FFFF && !(0xD800 <= x <= 0xDFFF) }

  /** Windows-1252 numbers are translated and invalid ones replaced; so are negative ones, by
      EncodeRune. */
  function Character(x: int): (r: Rune) {
    if 0x80 <= x <= 0x9F then ReplacementTable()[x - 0x80]
    else if x == 0 || !IsScalar(x) then RUNE_ERROR
    else x
  }

  // ----- Named references -----

  predicate IsNameByte(c: byte) { 97 <= c <= 122 || 65 <= c <= 90 || 48 <= c <= 57 }

  /** Where a run of letters and digits ends: behind a semicolon. */
  function ScanName(s: seq<byte>, i: nat): (n: nat)
    requires i <= |s|
    ensures i <= n <= |s|
    decreases |s| - i
  {
    if i == |s| then i
    else if IsNameByte(s[i]) then ScanName(s, i + 1)
    else if s[i] == 59 then i + 1
    else i
  }

  /** The longest known name of 2 to j bytes that begins name, or 0. */
  function KnownPrefix(t: Table, name: seq<byte>, j: int): (n: nat)
    requires j <= |name|
    ensures n > 0 ==> 2 <= n <= j && One(t, name[..n]) != 0
    decreases if j < 0 then 0 else j
  {
    if j <= 1 then 0
    else if One(t, name[..j]) != 0 then j
    else KnownPrefix(t, name, j - 1)
  }

  /** What a reference becomes, and how many bytes it takes. */
  datatype Reference = Reference(text: seq<byte>, size: nat)

  function Numeric(s: seq<byte>): (r: Reference)
    requires |s| > 3
    ensures 1 <= r.size <= |s| && |r.text| <= r.size
  {
    var hex := s[2] == 120 || s[2] == 88;
    var (x, i) := ScanNumber(s, if hex then 3 else 2, hex, 0);
    if i <= 3 then Reference(s[..1], 1) else Reference(Encode(Character(x)), i)
  }

  function Named(t: Table, s: seq<byte>): (r: Reference)
    requires |s| > 1
    ensures 1 <= r.size <= |s|
  {
    var i := ScanName(s, 1);
    var name := s[1..i];
    if name == [] then Reference(s[..i], i)
    else if One(t, name) != 0 then Reference(Encode(One(t, name)), i)
    else if Two(t, name).0 != 0 then Reference(Encode(Two(t, name).0) + Encode(Two(t, name).1), i)
    else
      var j := KnownPrefix(t, name, Min(|name| - 1, LONGEST_ENTITY_WITHOUT_SEMICOLON));
      if j > 0 then Reference(Encode(One(t, name[..j])), j + 1) else Reference(s[..i], i)
  }

  /** The reference at the front of s, which begins with an ampersand. */
  function Entity(t: Table, s: seq<byte>): (r: Reference)
    requires s != []
    ensures 1 <= r.size <= |s|
  {
    if |s| <= 1 then Reference(s[..1], 1)
    else if s[1] == 35 then (if |s| <= 3 then Reference(s[..1], 1) else Numeric(s))
    else Named(t, s)
  }

  lemma EntityShrinks(t: Table, s: seq<byte>)
    requires TableOk(t) && s != []
    ensures |Entity(t, s).text| <= Entity(t, s).size
  {
    hide Encode, Character, ScanNumber;
    if |s| > 1 && s[1] != 35 {
      var i := ScanName(s, 1);
      var name := s[1..i];
      assert One(t, name) != 0 ==> name in t.one;
      assert Two(t, name).0 != 0 ==> name in t.two;
      if name != [] {
        var j := KnownPrefix(t, name, Min(|name| - 1, LONGEST_ENTITY_WITHOUT_SEMICOLON));
        assert j > 0 ==> name[..j] in t.one;
      }
    }
  }

  /** Unescape from left to right, into a new sequence. */
  function Unescape(t: Table, s: seq<byte>): (r: seq<byte>)
    decreases |s|
  {
    if s == [] then []
    else if s[0] == AMP then Entity(t, s).text + Unescape(t, s[Entity(t, s).size..])
    else s[..1] + Unescape(t, s[1..])
  }

  // ----- Escaping -----

  function EscapeByte(c: byte): (r: seq<byte>) {
    if c == 38 then Bytes("&amp;")
    else if c == 39 then Bytes("&#39;")
    else if c == 60 then Bytes("&lt;")
    else if c == 62 then Bytes("&gt;")
    else if c == 34 then Bytes("&#34;")
    else [c]
  }

  function EscapeString(s: seq<byte>): (r: seq<byte>) {
    if s == [] then [] else EscapeByte(s[0]) + EscapeString(s[1..])
  }

  lemma NamedThree(t: Table, rest: seq<byte>, a: byte, b: byte, c: byte)
    requires IsNameByte(a) && IsNameByte(b) && IsNameByte(c) && One(t, [a, b, c, 59]) != 0
    ensures Entity(t, [AMP, a, b, c, 59] + rest) == Reference(Encode(One(t, [a, b, c, 59])), 5)
  {
    hide KnownPrefix, One, Two, Encode, Numeric;
    var s := [AMP, a, b, c, 59] + rest;
    assert ScanName(s, 4) == 5;
    assert ScanName(s, 3) == 5;
    assert ScanName(s, 2) == 5;
    assert ScanName(s, 1) == 5;
    assert s[1..5] == [a, b, c, 59];
  }

  lemma NamedTwo(t: Table, rest: seq<byte>, a: byte, b: byte)
    requires IsNameByte(a) && IsNameByte(b) && One(t, [a, b, 59]) != 0
    ensures Entity(t, [AMP, a, b, 59] + rest) == Reference(Encode(One(t, [a, b, 59])), 4)
  {
    hide KnownPrefix, One, Two, Encode, Numeric;
    var s := [AMP, a, b, 59] + rest;
    assert ScanName(s, 3) == 4;
    assert ScanName(s, 2) == 4;
    assert ScanName(s, 1) == 4;
    assert s[1..4] == [a, b, 59];
  }

  lemma NumericTwo(t: Table, rest: seq<byte>, a: byte, b: byte)
    requires 48 <= a <= 57 && 48 <= b <= 57
    ensures Entity(t, [AMP, 35, a, b, 59] + rest) == Reference(Encode(Character(10 * (a - 48) + b - 48)), 5)
  {
    hide Named, Encode, Character, Int32;
    var s := [AMP, 35, a, b, 59] + rest;
    var x := 10 * (a - 48) + (b - 48);
    SmallInt32(a - 48);
    SmallInt32(x);
    assert ScanNumber(s, 4, false, x) == (x, 5);
    assert ScanNumber(s, 3, false, a - 48) == (x, 5);
    assert ScanNumber(s, 2, false, 0) == (x, 5);
  }

  lemma SmallInt32(x: int)
    requires 0 <= x < 0x8000_0000
    ensures Int32(x) == x
  {
  }

  lemma EscapedEntity(t: Table, c: byte, rest: seq<byte>)
    requires TableOk(t) && |EscapeByte(c)| > 1
    ensures Entity(t, EscapeByte(c) + rest) == Reference([c], |EscapeByte(c)|)
  {
    hide Entity, One;
    if c == 38 {
      assert Bytes("&amp;") == [AMP, 97, 109, 112, 59] && Bytes("amp;") == [97, 109, 112, 59];
      NamedThree(t, rest, 97, 109, 112);
    } else if c == 60 {
      assert Bytes("&lt;") == [AMP, 108, 116, 59] && Bytes("lt;") == [108, 116, 59];
      NamedTwo(t, rest, 108, 116);
    } else if c == 62 {
      assert Bytes("&gt;") == [AMP, 103, 116, 59] && Bytes("gt;") == [103, 116, 59];
      NamedTwo(t, rest, 103, 116);
    } else if c == 39 {
      assert Bytes("&#39;") == [AMP, 35, 51, 57, 59];
      NumericTwo(t, rest, 51, 57);
    } else {
      assert Bytes("&#34;") == [AMP, 35, 51, 52, 59];
      NumericTwo(t, rest, 51, 52);
    }
  }

  lemma EscapeByteStart(c: byte)
    ensures EscapeByte(c) != [] && (|EscapeByte(c)| > 1 <==> EscapeByte(c)[0] == AMP)
    ensures |EscapeByte(c)| == 1 ==> EscapeByte(c) == [c]
  {
  }

  /** One escaped byte, whatever follows, is decoded to itself. */
  lemma EscapedByte(t: Table, c: byte, rest: seq<byte>)
    requires TableOk(t)
    ensures Unescape(t, EscapeByte(c) + rest) == [c] + Unescape(t, rest)
  {
    hide EscapeByte, Entity, TableOk;
    EscapeByteStart(c);
    Suffix(EscapeByte(c), rest);
    if |EscapeByte(c)| > 1 {
      EscapedEntity(t, c, rest);
    }
  }

  predicate IsSpecial(c: byte) { c == 34 || c == 38 || c == 39 || c == 60 || c == 62 }

  /** The five references that escaping writes. */
  predicate StartsReference(s: seq<byte>) {
    || Bytes("&amp;") <= s || Bytes("&#39;") <= s || Bytes("&lt;") <= s || Bytes("&gt;") <= s || Bytes("&#34;") <= s
  }

  lemma EscapedParts(c: byte, rest: seq<byte>)
    ensures forall k | 0 <= k < |EscapeByte(c)| :: !IsSpecial(EscapeByte(c)[k]) || (k == 0 && EscapeByte(c)[0] == AMP)
    ensures EscapeByte(c)[0] == AMP ==> StartsReference(EscapeByte(c) + rest)
    ensures !IsSpecial(c) ==> EscapeByte(c) == [c]
  {
    assert Bytes("&amp;") == [38, 97, 109, 112, 59] && Bytes("&#39;") == [38, 35, 51, 57, 59];
    assert Bytes("&lt;") == [38, 108, 116, 59] && Bytes("&gt;") == [38, 103, 116, 59];
    assert Bytes("&#34;") == [38, 35, 51, 52, 59];
  }

  /** Escaped text has no quotes and no angle brackets, and no ampersand but in the five references. */
  lemma {:induction false} EscapedSafe(s: seq<byte>, k: nat)
    requires k < |EscapeString(s)| && IsSpecial(EscapeString(s)[k])
    ensures EscapeString(s)[k] == AMP && StartsReference(EscapeString(s)[k..])
    decreases |s|
  {
    hide EscapeByte, IsSpecial, StartsReference;
    var first, rest := EscapeByte(s[0]), EscapeString(s[1..]);
    EscapedParts(s[0], rest);
    if k < |first| {
      assert (first + rest)[k] == first[k] && (first + rest)[0..] == first + rest;
    } else {
      assert (first + rest)[k] == rest[k - |first|] && (first + rest)[k..] == rest[k - |first|..];
      EscapedSafe(s[1..], k - |first|);
    }
  }

  lemma {:induction false} NothingToEscape(s: seq<byte>)
    requires forall i | 0 <= i < |s| :: !IsSpecial(s[i])
    ensures EscapeString(s) == s
    decreases |s|
  {
    hide EscapeByte, IsSpecial;
    if s != [] {
      EscapedParts(s[0], []);
      NothingToEscape(s[1..]);
    }
  }

  /** UnescapeString(EscapeString(s)) == s always holds. */
  lemma {:induction false} UnescapeEscaped(t: Table, s: seq<byte>)
    requires TableOk(t)
    ensures Unescape(t, EscapeString(s)) == s
  {
    if s != [] {
      hide Unescape, EscapeByte, TableOk;
      UnescapeEscaped(t, s[1..]);
      EscapedByte(t, s[0], EscapeString(s[1..]));
    }
  }

  // ----- The decoder in place -----

  /** What one step of the decoder does: the text goes to dst, the input behind the reference
      stays, and nothing before dst changes. */
  twostate predicate Decodes(b: array<byte>, dst: nat, src: nat, dst1: nat, src1: nat, r: Reference)
    reads b
  {
    && dst <= src && dst1 == dst + |r.text| && src1 == src + r.size && dst1 <= src1 <= b.Length
    && b[..dst] == old(b[..dst]) && b[dst..dst1] == r.text && b[src1..] == old(b[src1..])
  }

  /** utf8.EncodeRune(b[dst:], r), for a reference of size bytes. */
  method Emit(b: array<byte>, dst: nat, src: nat, r: Rune, size: nat) returns (dst1: nat, src1: nat)
    requires dst <= src && src + size <= b.Length && |Encode(r)| <= size
    modifies b
    ensures Decodes(b, dst, src, dst1, src1, Reference(Encode(r), size))
  {
    hide Encode;
    var e := Encode(r);
    forall k | 0 <= k < |e| {
      b[dst + k] := e[k];
    }
    return dst + |e|, src + size;
  }

  /** Two characters for one reference. */
  method EmitTwo(b: array<byte>, dst: nat, src: nat, r: (Rune, Rune), size: nat) returns (dst1: nat, src1: nat)
    requires dst <= src && src + size <= b.Length && |Encode(r.0)| + |Encode(r.1)| <= size
    modifies b
    ensures Decodes(b, dst, src, dst1, src1, Reference(Encode(r.0) + Encode(r.1), size))
  {
    hide Encode;
    var e, f := Encode(r.0), Encode(r.1);
    forall k | 0 <= k < |e| {
      b[dst + k] := e[k];
    }
    dst1 := dst + |e|;
    forall k | 0 <= k < |f| {
      b[dst1 + k] := f[k];
    }
    assert b[dst..dst1] == e;
    SliceJoin(b[..], dst, dst1, dst1 + |f|);
    return dst1 + |f|, src + size;
  }

  /** copy(b[dst:], b[src:src+n]), also where the two overlap. */
  method MoveDown(b: array<byte>, dst: nat, src: nat, n: nat) returns (dst1: nat, src1: nat)
    requires dst <= src && src + n <= b.Length
    modifies b
    ensures Decodes(b, dst, src, dst1, src1, Reference(old(b[src..])[..n], n))
  {
    forall k | 0 <= k < n {
      b[dst + k] := b[src + k];
    }
    return dst + n, src + n;
  }

  /** The digits of a numeric reference, from position i of b[src:]. */
  method ReadNumber(b: array<byte>, src: nat, start: nat, hex: bool) returns (x: int, i: nat)
    requires src + start <= b.Length
    ensures (x, i) == ScanNumber(b[src..], start, hex, 0)
  {
    ghost var s := b[src..];
    x, i := 0, start;
    while src + i < b.Length
      invariant src + i <= b.Length
      invariant ScanNumber(s, start, hex, 0) == ScanNumber(s, i, hex, x)
    {
      var c := b[src + i];
      assert c == s[i];
      i := i + 1;
      if DigitOf(c, hex) >= 0 {
        x := Int32((if hex then 16 else 10) * x + DigitOf(c, hex));
        continue;
      }
      if c != 59 {
        i := i - 1;
      }
      break;
    }
  }

  /** The end of the name at b[src+1:]. */
  method ReadName(b: array<byte>, src: nat) returns (i: nat)
    requires src + 1 <= b.Length
    ensures i == ScanName(b[src..], 1)
  {
    ghost var s := b[src..];
    i := 1;
    while src + i < b.Length
      invariant src + i <= b.Length && ScanName(s, 1) == ScanName(s, i)
    {
      var c := b[src + i];
      assert c == s[i];
      i := i + 1;
      if IsNameByte(c) {
        continue;
      }
      if c != 59 {
        i := i - 1;
      }
      break;
    }
  }

  /** The loop over the shorter names. */
  method FindPrefix(t: Table, name: seq<byte>, maxLen: nat) returns (n: nat)
    requires maxLen <= |name|
    ensures n == KnownPrefix(t, name, maxLen)
  {
    var j := maxLen;
    while j > 1
      invariant KnownPrefix(t, name, maxLen) == KnownPrefix(t, name, j)
    {
      if One(t, name[..j]) != 0 {
        return j;
      }
      j := j - 1;
    }
    return 0;
  }

  method UnescapeNumeric(b: array<byte>, dst: nat, src: nat) returns (dst1: nat, src1: nat)
    requires dst <= src && src + 3 < b.Length
    modifies b
    ensures Decodes(b, dst, src, dst1, src1, Numeric(old(b[src..])))
  {
    hide Encode, ScanNumber, Character;
    var hex := b[src + 2] == 120 || b[src + 2] == 88;
    var x, i := ReadNumber(b, src, if hex then 3 else 2, hex);
    if i <= 3 {
      dst1, src1 := MoveDown(b, dst, src, 1);
    } else {
      dst1, src1 := Emit(b, dst, src, Character(x), i);
    }
  }

  method UnescapeNamed(t: Table, b: array<byte>, dst: nat, src: nat) returns (dst1: nat, src1: nat)
    requires TableOk(t) && dst <= src && src + 1 < b.Length
    requires b[src + 1] != 35
    modifies b
    ensures Decodes(b, dst, src, dst1, src1, Named(t, old(b[src..])))
  {
    hide Encode, ScanName, KnownPrefix, TableOk, One, Two;
    ghost var s := b[src..];
    EntityShrinks(t, s);
    var i := ReadName(b, src);
    var entityName := b[src + 1..src + i];
    assert entityName == s[1..i];
    if entityName != [] {
      if One(t, entityName) != 0 {
        dst1, src1 := Emit(b, dst, src, One(t, entityName), i);
        return;
      } else if Two(t, entityName).0 != 0 {
        dst1, src1 := EmitTwo(b, dst, src, Two(t, entityName), i);
        return;
      }
      var j := FindPrefix(t, entityName, Min(|entityName| - 1, LONGEST_ENTITY_WITHOUT_SEMICOLON));
      if j > 0 {
        dst1, src1 := Emit(b, dst, src, One(t, entityName[..j]), j + 1);
        return;
      }
    }
    dst1, src1 := MoveDown(b, dst, src, i);
  }

  method UnescapeEntity(t: Table, b: array<byte>, dst: nat, src: nat) returns (dst1: nat, src1: nat)
    requires TableOk(t) && dst <= src < b.Length && b[src] == AMP
    modifies b
    ensures Decodes(b, dst, src, dst1, src1, Entity(t, old(b[src..])))
  {
    hide TableOk, Numeric, Named;
    if b.Length - src <= 1 || (b[src + 1] == 35 && b.Length - src <= 3) {
      dst1, src1 := MoveDown(b, dst, src, 1);
    } else if b[src + 1] == 35 {
      dst1, src1 := UnescapeNumeric(b, dst, src);
    } else {
      dst1, src1 := UnescapeNamed(t, b, dst, src);
    }
  }

  /** Decoding goes on behind a stretch without references. */
  lemma {:induction false} PlainText(t: Table, s: seq<byte>, n: nat)
    requires n <= |s| && AMP !in s[..n]
    ensures Unescape(t, s) == s[..n] + Unescape(t, s[n..])
  {
    if n == 0 {
      assert s[0..] == s;
    } else {
      assert s[0] == s[..n][0];
      assert s[1..][..n - 1] == s[..n][1..];
      PlainText(t, s[1..], n - 1);
      assert s[1..][n - 1..] == s[n..];
      Assoc(s[..1], s[1..][..n - 1], Unescape(t, s[n..]));
      assert s[..1] + s[1..][..n - 1] == s[..n];
    }
  }

  /** dst bytes are done, and what lies behind src is still the input. */
  ghost predicate Halfway(t: Table, b: seq<byte>, s: seq<byte>, dst: nat, src: nat) {
    dst <= src <= |s| && |b| == |s| && b[src..] == s[src..] && b[..dst] + Unescape(t, s[src..]) == Unescape(t, s)
  }

  /** Text without references, then one reference. */
  lemma OneRound(t: Table, s: seq<byte>, src: nat, i: nat, done: seq<byte>)
    requires src + i < |s| && AMP !in s[src..][..i] && s[src + i] == AMP
    requires done + Unescape(t, s[src..]) == Unescape(t, s)
    ensures var r := Entity(t, s[src + i..]);
            && src + i + r.size <= |s|
            && done + s[src..src + i] + r.text + Unescape(t, s[src + i + r.size..]) == Unescape(t, s)
  {
    hide Entity;
    PlainText(t, s[src..], i);
    var m := src + i;
    assert s[src..][..i] == s[src..m] && s[src..][i..] == s[m..];
    var r := Entity(t, s[m..]);
    assert s[m..][r.size..] == s[m + r.size..];
    Assoc(done, s[src..m], r.text + Unescape(t, s[m + r.size..]));
    Assoc(done + s[src..m], r.text, Unescape(t, s[m + r.size..]));
  }

  /** copy(b[dst:], s[src:src+n]) */
  method CopyText(b: array<byte>, dst: nat, s: seq<byte>, src: nat, n: nat)
    requires dst <= src && src + n <= |s| == b.Length
    modifies b
    ensures b[..dst + n] == old(b[..dst]) + s[src..src + n] && b[src + n..] == old(b[src + n..])
  {
    forall k | 0 <= k < n {
      b[dst + k] := s[src + k];
    }
    assert b[dst..dst + n] == s[src..src + n] && b[..dst] == old(b[..dst]);
    SliceJoin(b[..], 0, dst, dst + n);
  }

  lemma SuffixMore(b: seq<byte>, s: seq<byte>, src: nat, i: nat)
    requires src + i <= |s| == |b|
    ensures s[src..][i..] == s[src + i..] && b[src..][i..] == b[src + i..]
  {
  }

  /** One round of the loop of UnescapeString. */
  method Round(t: Table, b: array<byte>, s: seq<byte>, dst: nat, src: nat, i: nat) returns (dst1: nat, src1: nat)
    requires TableOk(t) && |s| == b.Length && Halfway(t, b[..], s, dst, src)
    requires src + i < |s| && AMP !in s[src..][..i] && s[src + i] == AMP
    modifies b
    ensures Halfway(t, b[..], s, dst1, src1) && src < src1
  {
    hide TableOk, Entity, Unescape;
    ghost var done, m := b[..dst], src + i;
    OneRound(t, s, src, i, done);
    SuffixMore(b[..], s, src, i);
    CopyText(b, dst, s, src, i);
    assert b[m..] == s[m..];
    ghost var before, r := b[..dst + i], Entity(t, s[m..]);
    assert before == done + s[src..m];
    assert b[m..][0] == b[m] && s[m..][0] == s[m];
    dst1, src1 := UnescapeEntity(t, b, dst + i, src + i);
    SliceJoin(b[..], 0, dst + i, dst1);
    assert b[..dst1] == before + r.text;
    assert s[m..][r.size..] == s[src1..];
  }

  /** Reading ahead of where it writes, the decoder never sees its own output. */
  method UnescapeString(t: Table, s: seq<byte>) returns (r: seq<byte>)
    requires TableOk(t)
    ensures r == Unescape(t, s)
  {
    hide TableOk, Entity, IndexByte, Unescape;
    var i := IndexByte(s, AMP);
    if i < 0 {
      PlainText(t, s, |s|);
      NothingLeft(t, s);
      return s;
    }
    var b := new byte[|s|];
    forall k | 0 <= k < |s| {
      b[k] := s[k];
    }
    assert b[..] == s;
    PlainText(t, s, i);
    var dst: nat, src: nat := FirstReference(t, b, s, i);
    while src < |s|
      invariant Halfway(t, b[..], s, dst, src)
    {
      if s[src] == AMP {
        i := 0;
      } else {
        i := IndexByte(s[src..], AMP);
      }
      if i < 0 {
        PlainText(t, s[src..], |s| - src);
        NothingLeft(t, s[src..]);
        ghost var done := b[..dst];
        CopyText(b, dst, s, src, |s| - src);
        dst := dst + (|s| - src);
        assert s[src..|s|] == s[src..];
        return b[..dst];
      }
      assert AMP !in s[src..][..i] && s[src + i] == AMP;
      dst, src := Round(t, b, s, dst, src, i);
    }
    NothingLeft(t, s);
    assert s[src..] == [];
    return b[..dst];
  }

  lemma NothingLeft(t: Table, s: seq<byte>)
    ensures s[|s|..] == [] && s[..|s|] == s && Unescape(t, s[|s|..]) == [] && s + [] == s
    ensures Unescape(t, []) == []
  {
  }

  /** The first reference is decoded where it stands. */
  method FirstReference(t: Table, b: array<byte>, s: seq<byte>, i: nat) returns (dst: nat, src: nat)
    requires TableOk(t) && b[..] == s && i < |s| && AMP !in s[..i] && s[i] == AMP
    modifies b
    ensures Halfway(t, b[..], s, dst, src)
  {
    hide TableOk, Entity, Unescape;
    assert s[0..] == s && [] + Unescape(t, s) == Unescape(t, s);
    OneRound(t, s, 0, i, []);
    ghost var r := Entity(t, s[i..]);
    dst, src := UnescapeEntity(t, b, i, i);
    SliceJoin(b[..], 0, i, dst);
    assert b[..dst] == s[..i] + r.text;
    assert [] + s[0..i] + r.text == s[..i] + r.text;
    assert s[i..][r.size..] == s[src..];
  }
}
