/** The named references of html/escape.go against the HTML standard, section 13.2.5.73: of the names
    in the table that begin the text, the longest is taken. */
module NamedReferences {
  import opened Basics
  import opened Utf8
  import opened Html
  import opened NumericReferences

  // ----- The standard -----

  predicate Known(t: Table, name: seq<byte>) { name in t.one || name in t.two }

  /** The characters of a name in the table. */
  function Characters(t: Table, name: seq<byte>): (text: seq<byte>)
    requires Known(t, name)
  {
    if name in t.one then Encode(t.one[name]) else Encode(t.two[name].0) + Encode(t.two[name].1)
  }

  /** The length of the longest name, of at most n bytes, that begins the text, or 0. */
  function Longest(t: Table, text: seq<byte>, n: nat): (k: nat)
    requires n <= |text|
    ensures k <= n && (k > 0 ==> Known(t, text[..k]))
    ensures forall j | k < j <= n :: !Known(t, text[..j])
  {
    if n == 0 then 0 else if Known(t, text[..n]) then n else Longest(t, text, n - 1)
  }

  /** Without a known name the letters and digits behind the ampersand are text. */
  function StandardNamed(t: Table, s: seq<byte>): (r: Reference)
    requires |s| > 1
  {
    var text := s[1..];
    var k := Longest(t, text, |text|);
    if k > 0 then Reference(Characters(t, text[..k]), k + 1)
    else Reference(s[..ScanName(s, 1)], ScanName(s, 1))
  }

  // ----- The table -----

  /** An ASCII alphanumeric of the standard. */
  predicate IsAlphanumeric(c: byte) {
    || 'a' as int <= c <= 'z' as int || 'A' as int <= c <= 'Z' as int || '0' as int <= c <= '9' as int
  }

  predicate Plain(name: seq<byte>) { forall i | 0 <= i < |name| :: IsAlphanumeric(name[i]) }

  predicate WithSemicolon(name: seq<byte>) {
    |name| > 1 && name[|name| - 1] == 59 && Plain(name[..|name| - 1])
  }

  /** Names are letters and digits. Only names of two to six bytes may lack the semicolon, and those
      stand for one character. */
  ghost predicate NamesOk(t: Table) {
    && (forall name | Known(t, name) :: WithSemicolon(name) || Plain(name))
    && (forall name | Known(t, name) && Plain(name) ::
          name in t.one && 2 <= |name| <= LONGEST_ENTITY_WITHOUT_SEMICOLON)
    && (forall name | name in t.one :: t.one[name] != 0 && name !in t.two)
    && (forall name | name in t.two :: t.two[name].0 != 0)
  }

  // ----- The decoder takes the longest name -----

  /** The run that ScanName finds: letters and digits, and a semicolon if one follows. */
  lemma {:induction false} NameRun(s: seq<byte>, i: nat)
    requires i <= |s|
    ensures var n := ScanName(s, i);
            if n > i && s[n - 1] == 59 then Plain(s[i..n - 1])
            else Plain(s[i..n]) && (n < |s| ==> !IsNameByte(s[n]) && s[n] != 59)
    decreases |s| - i
  {
    if i < |s| && IsNameByte(s[i]) {
      NameRun(s, i + 1);
      var n := ScanName(s, i);
      assert n > i + 1 ==> s[i..n - 1] == [s[i]] + s[i + 1..n - 1];
      assert s[i..n] == [s[i]] + s[i + 1..n];
    }
  }

  lemma {:induction false} LongestSkip(t: Table, text: seq<byte>, m: nat, n: nat)
    requires m <= n <= |text| && forall j | m < j <= n :: !Known(t, text[..j])
    ensures Longest(t, text, n) == Longest(t, text, m)
  {
    if m < n {
      LongestSkip(t, text, m, n - 1);
    }
  }

  /** A name of the table has letters and digits, and a semicolon at its end at most. */
  lemma NoOtherByte(t: Table, name: seq<byte>, k: nat)
    requires NamesOk(t) && k < |name| && !IsNameByte(name[k]) && (k < |name| - 1 || name[k] != 59)
    ensures !Known(t, name)
  {
    assert k < |name| - 1 ==> name[..|name| - 1][k] == name[k];
  }

  /** No name of the table reaches beyond the run. */
  lemma BeyondRun(t: Table, s: seq<byte>, j: nat)
    requires NamesOk(t) && |s| > 1 && ScanName(s, 1) - 1 < j < |s|
    ensures !Known(t, s[1..][..j])
  {
    hide ScanName, NamesOk, Known;
    var i := ScanName(s, 1);
    NameRun(s, 1);
    NoOtherByte(t, s[1..][..j], if i > 1 && s[i - 1] == 59 then i - 2 else i - 1);
  }

  /** A name that ends inside the run has no semicolon. */
  lemma InsideRun(t: Table, s: seq<byte>, j: nat)
    requires NamesOk(t) && |s| > 1 && 0 < j < ScanName(s, 1) - 1
    ensures Known(t, s[1..][..j]) ==> s[1..][..j] in t.one && 2 <= j <= LONGEST_ENTITY_WITHOUT_SEMICOLON
  {
    hide ScanName;
    var name := s[1..][..j];
    InsideRunPlain(s, j);
    assert !WithSemicolon(name) by {
      assert IsAlphanumeric(name[j - 1]);
    }
  }

  lemma InsideRunPlain(s: seq<byte>, j: nat)
    requires |s| > 1 && j < ScanName(s, 1) - 1
    ensures Plain(s[1..][..j])
  {
    hide ScanName, IsAlphanumeric;
    var i := ScanName(s, 1);
    NameRun(s, 1);
    var run := if s[i - 1] == 59 then s[1..i - 1] else s[1..i];
    assert Plain(run);
    forall k | 0 <= k < j
      ensures IsAlphanumeric(s[1..][..j][k])
    {
      assert s[1..][..j][k] == run[k];
    }
  }

  /** The loop over prefixes finds the longest name of up to six bytes. */
  lemma {:induction false} PrefixIsLongest(t: Table, text: seq<byte>, m: nat, j: nat)
    requires NamesOk(t) && j <= m <= |text|
    requires forall k | 0 < k <= j && Known(t, text[..k]) :: text[..k] in t.one && 2 <= k
    ensures KnownPrefix(t, text[..m], j) == Longest(t, text, j)
  {
    if j > 0 {
      assert text[..m][..j] == text[..j];
      PrefixIsLongest(t, text, m, j - 1);
    }
  }

  /** A name in the table. */
  lemma KnownName(t: Table, s: seq<byte>)
    requires NamesOk(t) && |s| > 1 && ScanName(s, 1) > 1 && Known(t, s[1..ScanName(s, 1)])
    ensures Named(t, s) == Reference(Characters(t, s[1..ScanName(s, 1)]), ScanName(s, 1))
  {
    hide Encode, ScanName;
  }

  /** The decoder reads a named reference as the standard asks. */
  lemma LongestName(t: Table, s: seq<byte>)
    requires NamesOk(t) && |s| > 1
    ensures Named(t, s) == StandardNamed(t, s)
  {
    var i, text := ScanName(s, 1), s[1..];
    var name := s[1..i];
    assert name == text[..i - 1];
    forall j | i - 1 < j <= |text|
      ensures !Known(t, text[..j])
    {
      BeyondRun(t, s, j);
    }
    LongestSkip(t, text, i - 1, |text|);
    if name != [] && Known(t, name) {
      KnownName(t, s);
    } else if name != [] {
      UnknownName(t, s);
    }
  }

  /** A name that is not in the table, though a part of it may be. */
  lemma UnknownName(t: Table, s: seq<byte>)
    requires NamesOk(t) && |s| > 1 && ScanName(s, 1) > 1 && !Known(t, s[1..ScanName(s, 1)])
    ensures var k := Longest(t, s[1..], ScanName(s, 1) - 1);
            Named(t, s) == if k > 0 then Reference(Characters(t, s[1..][..k]), k + 1)
                           else Reference(s[..ScanName(s, 1)], ScanName(s, 1))
  {
    hide Encode, ScanName, NamesOk;
    var i, text := ScanName(s, 1), s[1..];
    var name := s[1..i];
    assert name == text[..i - 1];
    var m := Min(|name| - 1, LONGEST_ENTITY_WITHOUT_SEMICOLON);
    forall j | 0 < j < i - 1 && Known(t, text[..j])
      ensures text[..j] in t.one && 2 <= j <= LONGEST_ENTITY_WITHOUT_SEMICOLON
    {
      InsideRun(t, s, j);
    }
    LongestSkip(t, text, m, i - 1);
    PrefixIsLongest(t, text, i - 1, m);
    assert name !in t.one && name !in t.two;
    var k := Longest(t, text, m);
    assert k > 0 ==> name[..k] == text[..k];
  }

  // ----- All references -----

  /** What the standard makes of the reference at the front of s. A single ampersand is text. */
  function StandardReference(t: Table, s: seq<byte>): (r: Reference)
    requires s != [] && s[0] == AMP
  {
    if |s| == 1 then Reference(s, 1) else if IsNumeric(s) then StandardNumeric(s) else StandardNamed(t, s)
  }

  /** Every reference is decoded as the standard asks, except numeric ones that do not conform. */
  lemma ReferenceMeaning(t: Table, s: seq<byte>)
    requires NamesOk(t) && s != [] && s[0] == AMP
    ensures Entity(t, s) == StandardReference(t, s) <==> (IsNumeric(s) ==> Conforms(s))
  {
    hide Named, Numeric, StandardNamed, StandardNumeric, Conforms, NamesOk;
    if IsNumeric(s) {
      NumericMeaning(t, s);
    } else if |s| > 1 {
      LongestName(t, s);
    }
  }
}
