/** The split function ScanWords: stable although it skips spaces without a token, so that a Scanner
    finds the words of the whole stream however it arrives. */
module SplitWords {
  import opened Basics
  import opened Sequences
  import opened BufScanner
  import opened Utf8

  predicate IsSpace(r: int) {
    || r == 0x20 || 0x09 <= r <= 0x0D || r == 0x85 || r == 0xA0
    || 0x2000 <= r <= 0x200A || r == 0x1680 || r == 0x2028 || r == 0x2029 || r == 0x202F || r == 0x205F || r == 0x3000
  }

  /** Every stride-th character from lo to hi. */
  datatype Range = Range(lo: int, hi: int, stride: int)

  predicate InRange(r: int, g: Range) { g.lo <= r <= g.hi && g.stride > 0 && (r - g.lo) % g.stride == 0 }

  /** The characters with the White_Space property, as package unicode lists them. */
  function WhiteSpace(): (table: seq<Range>) {
    [Range(0x09, 0x0D, 1), Range(0x20, 0x85, 101), Range(0xA0, 0x1680, 5600), Range(0x2000, 0x200A, 1),
     Range(0x2028, 0x2029, 1), Range(0x202F, 0x205F, 48), Range(0x3000, 0x3000, 1)]
  }

  /** What the tests of the package compare for all runes. */
  lemma SpacesAreWhite(r: int)
    ensures IsSpace(r) <==> exists i :: 0 <= i < |WhiteSpace()| && InRange(r, WhiteSpace()[i])
  {
    var table := WhiteSpace();
    var at := if r <= 0x0D then 0 else if r <= 0x85 then 1 else if r <= 0x1680 then 2 else if r <= 0x200A then 3
              else if r <= 0x2029 then 4 else if r <= 0x205F then 5 else 6;
    assert forall i | 0 <= i < |table| && i != at :: !InRange(r, table[i]);
    assert IsSpace(r) <==> InRange(r, table[at]);
  }

  predicate SpaceAt(s: seq<byte>, i: nat)
    requires i < |s|
  {
    IsSpace(DecodeRune(s[i..]).rune)
  }

  function After(s: seq<byte>, i: nat): (j: nat)
    requires i < |s|
    ensures i < j <= |s|
  {
    i + DecodeRune(s[i..]).size
  }

  /** Where the spaces from i on end. */
  function SpacesEnd(s: seq<byte>, i: nat): (n: nat)
    requires i <= |s|
    ensures i <= n <= |s| && (n < |s| ==> !SpaceAt(s, n))
    decreases |s| - i
  {
    if i < |s| && SpaceAt(s, i) then SpacesEnd(s, After(s, i)) else i
  }

  /** Where the next space after i begins, or the end. */
  function WordEnd(s: seq<byte>, i: nat): (n: nat)
    requires i <= |s|
    ensures i <= n <= |s| && (n < |s| ==> SpaceAt(s, n))
    decreases |s| - i
  {
    if i < |s| && !SpaceAt(s, i) then WordEnd(s, After(s, i)) else i
  }

  /** The word from start on that ends before i, where the data ends or a space begins. */
  function Piece(data: seq<byte>, start: nat, i: nat, atEOF: bool): (x: Split)
    requires start <= i <= |data|
  {
    if i < |data| then Split(After(data, i), Some(data[start..i]), None)
    else if atEOF && |data| > start then Split(|data|, Some(data[start..]), None)
    else Split(start, None, None)
  }

  function ScanWords(data: seq<byte>, atEOF: bool): (x: Split) {
    var start := SpacesEnd(data, 0);
    Piece(data, start, WordEnd(data, start), atEOF)
  }

  /** The loops of the split function. */
  method FindWord(data: seq<byte>, atEOF: bool) returns (x: Split)
    ensures x == ScanWords(data, atEOF)
  {
    hide DecodeRune, IsSpace;
    var start: nat := 0;
    while start < |data|
      invariant start <= |data| && SpacesEnd(data, 0) == SpacesEnd(data, start)
    {
      var d := DecodeRune(data[start..]);
      if !IsSpace(d.rune) {
        break;
      }
      start := start + d.size;
    }
    var i := start;
    while i < |data|
      invariant start <= i <= |data| && WordEnd(data, start) == WordEnd(data, i)
    {
      var d := DecodeRune(data[i..]);
      if IsSpace(d.rune) {
        return Split(i + d.size, Some(data[start..i]), None);
      }
      i := i + d.size;
    }
    if atEOF && |data| > start {
      return Split(|data|, Some(data[start..]), None);
    }
    return Split(start, None, None);
  }

  // ----- More input changes nothing -----

  /** A space stays one, and no wider, whatever follows. */
  lemma SpaceStays(s: seq<byte>, more: seq<byte>, i: nat)
    requires i < |s| && SpaceAt(s, i)
    ensures SpaceAt(s + more, i) && After(s + more, i) == After(s, i)
  {
    var p := s[i..];
    assert DecodeRune(p) != Decoded(RUNE_ERROR, 1);
    DecodedIsEncoding(p);
    var d := DecodeRune(p);
    hide DecodeRune, IsSpace;
    assert (s + more)[i..] == Encode(d.rune) + (p[d.size..] + more);
    DecodeEncoded(d.rune, p[d.size..] + more);
  }

  /** What begins with a continuation byte is no space. */
  lemma ContinuationNoSpace(s: seq<byte>, i: nat)
    requires i < |s| && IsContinuation(s[i])
    ensures !SpaceAt(s, i)
  {
    assert s[i..][0] == s[i];
  }

  /** A rune before a space is complete, so that it stays what it is. */
  lemma RuneStays(s: seq<byte>, more: seq<byte>, i: nat, j: nat)
    requires i < j < |s| && SpaceAt(s, j)
    ensures DecodeRune((s + more)[i..]) == DecodeRune(s[i..])
  {
    hide DecodeRune, FullRune;
    var p := s[i..];
    if !FullRune(p) {
      NotFullShape(p);
      assert IsContinuation(p[j - i]);
      ContinuationNoSpace(s, j);
    } else {
      assert (s + more)[i..] == p + more;
      DecodeFull(p, more);
    }
  }

  lemma {:induction false} SpacesStay(s: seq<byte>, more: seq<byte>, i: nat)
    requires i <= |s|
    ensures SpacesEnd(s + more, i) == SpacesEnd(s + more, SpacesEnd(s, i))
    decreases |s| - i
  {
    hide DecodeRune, IsSpace;
    if i < |s| && SpaceAt(s, i) {
      SpaceStays(s, more, i);
      SpacesStay(s, more, After(s, i));
    }
  }

  lemma {:induction false} WordStays(s: seq<byte>, more: seq<byte>, i: nat)
    requires i <= |s| && WordEnd(s, i) < |s|
    ensures WordEnd(s + more, i) == WordEnd(s, i)
    decreases |s| - i
  {
    hide DecodeRune, IsSpace;
    var n := WordEnd(s, i);
    if i < n {
      RuneStays(s, more, i, n);
      WordStays(s, more, After(s, i));
    } else {
      SpaceStays(s, more, i);
    }
  }

  lemma TokenStays(data: seq<byte>, more: seq<byte>, atEOF: bool)
    ensures KeepsToken(ScanWords, data, more, atEOF)
  {
    hide DecodeRune, IsSpace;
    var start := SpacesEnd(data, 0);
    var i := WordEnd(data, start);
    if i < |data| {
      SpacesStay(data, more, 0);
      RuneStays(data, more, start, i);
      WordStays(data, more, start);
      SpaceStays(data, more, i);
      assert (data + more)[start..i] == data[start..i];
    }
  }

  // ----- What is skipped changes nothing -----

  lemma Shifted(s: seq<byte>, k: nat, i: nat)
    requires k + i < |s|
    ensures s[k + i..] == s[k..][i..]
    ensures (SpaceAt(s, k + i) <==> SpaceAt(s[k..], i)) && After(s, k + i) == k + After(s[k..], i)
  {
    assert s[k + i..] == s[k..][i..];
  }

  lemma {:induction false} SpacesShifted(s: seq<byte>, k: nat, i: nat)
    requires k + i <= |s|
    ensures SpacesEnd(s, k + i) == k + SpacesEnd(s[k..], i)
    decreases |s| - k - i
  {
    hide DecodeRune, IsSpace;
    if k + i < |s| {
      Shifted(s, k, i);
      if SpaceAt(s, k + i) {
        SpacesShifted(s, k, After(s[k..], i));
      }
    }
  }

  lemma {:induction false} WordShifted(s: seq<byte>, k: nat, i: nat)
    requires k + i <= |s|
    ensures WordEnd(s, k + i) == k + WordEnd(s[k..], i)
    decreases |s| - k - i
  {
    hide DecodeRune, IsSpace;
    if k + i < |s| {
      Shifted(s, k, i);
      if !SpaceAt(s, k + i) {
        WordShifted(s, k, After(s[k..], i));
      }
    }
  }

  lemma PieceShifted(s: seq<byte>, k: nat, start: nat, i: nat, atEOF: bool)
    requires start <= i && k + i <= |s| && (k + i < |s| ==> After(s, k + i) == k + After(s[k..], i))
    ensures var x, y := Piece(s, k + start, k + i, atEOF), Piece(s[k..], start, i, atEOF);
            x.token == y.token && (x.token.Some? ==> x.advance == k + y.advance)
  {
    hide After;
    assert s[k + start..k + i] == s[k..][start..i] && s[k + start..] == s[k..][start..];
  }

  /** Leading spaces can be cut off. */
  lemma SpacesCut(s: seq<byte>, k: nat, atEOF: bool)
    requires k <= |s| && SpacesEnd(s, 0) == SpacesEnd(s, k)
    ensures var x, y := ScanWords(s, atEOF), ScanWords(s[k..], atEOF);
            x.token == y.token && (x.token.Some? ==> x.advance == k + y.advance)
  {
    hide DecodeRune, IsSpace, SpaceAt, After, SpacesEnd, WordEnd, Piece;
    var start := SpacesEnd(s[k..], 0);
    var i := WordEnd(s[k..], start);
    SpacesShifted(s, k, 0);
    WordShifted(s, k, start);
    if k + i < |s| {
      Shifted(s, k, i);
    }
    PieceShifted(s, k, start, i, atEOF);
  }

  lemma SkipStays(data: seq<byte>, more: seq<byte>, atEOF: bool)
    ensures KeepsSkip(ScanWords, data, more, atEOF)
  {
    hide DecodeRune, IsSpace;
    var k := SpacesEnd(data, 0);
    SpacesStay(data, more, 0);
    SpacesCut(data + more, k, atEOF);
    assert (data + more)[k..] == data[k..] + more;
  }

  lemma ScanWordsStable()
    ensures Stable(ScanWords)
  {
    forall data: seq<byte>, more: seq<byte>, atEOF: bool
      ensures KeepsToken(ScanWords, data, more, atEOF) && KeepsSkip(ScanWords, data, more, atEOF)
    {
      TokenStays(data, more, atEOF);
      SkipStays(data, more, atEOF);
    }
    forall data: seq<byte>
      ensures EndsSkip(ScanWords, data)
    {
      assert data[|data|..] == [];
    }
  }

  // ----- The words of a stream -----

  /** Words in one pass over the runes: cur is the word at hand. */
  function WordsFrom(s: seq<byte>, cur: seq<byte>): (words: seq<seq<byte>>)
    decreases |s|
  {
    var last := if cur == [] then [] else [cur];
    if s == [] then last
    else if SpaceAt(s, 0) then last + WordsFrom(s[After(s, 0)..], [])
    else WordsFrom(s[After(s, 0)..], cur + s[..After(s, 0)])
  }

  /** What is left of a text without its spaces. */
  function NoSpaces(s: seq<byte>): (t: seq<byte>)
    decreases |s|
  {
    if s == [] then [] else
      var j := After(s, 0);
      (if SpaceAt(s, 0) then [] else s[..j]) + NoSpaces(s[j..])
  }

  /** No word is empty, and together they are the text without its spaces. */
  lemma {:induction false} WordsCover(s: seq<byte>, cur: seq<byte>)
    ensures [] !in WordsFrom(s, cur)
    ensures Flatten(WordsFrom(s, cur)) == cur + NoSpaces(s)
    decreases |s|
  {
    hide DecodeRune, IsSpace;
    var last := if cur == [] then [] else [cur];
    assert Flatten(last) == cur by {
      FlattenSnoc([], cur);
    }
    if s != [] {
      var j := After(s, 0);
      if SpaceAt(s, 0) {
        WordsCover(s[j..], []);
        FlattenAppend(last, WordsFrom(s[j..], []));
      } else {
        WordsCover(s[j..], cur + s[..j]);
      }
    }
  }

  lemma {:induction false} LeadingSpaces(s: seq<byte>, i: nat)
    requires i <= |s|
    ensures WordsFrom(s[i..], []) == WordsFrom(s[SpacesEnd(s, i)..], [])
    decreases |s| - i
  {
    hide DecodeRune, IsSpace;
    if i < |s| && SpaceAt(s, i) {
      LeadingSpaces(s, After(s, i));
      Shifted(s, i, 0);
      assert s[i..][After(s[i..], 0)..] == s[After(s, i)..];
      assert s[i..][0..] == s[i..];
    }
  }

  /** The rune at i ends the word at hand, or belongs to it. */
  lemma WordsStep(s: seq<byte>, i: nat, cur: seq<byte>)
    requires i < |s|
    ensures WordsFrom(s[i..], cur) ==
            if !SpaceAt(s, i) then WordsFrom(s[After(s, i)..], cur + s[i..After(s, i)])
            else (if cur == [] then [] else [cur]) + WordsFrom(s[After(s, i)..], [])
  {
    hide DecodeRune, IsSpace;
    var j := After(s, i);
    Shifted(s, i, 0);
    assert s[i..][0..] == s[i..];
    assert s[i..][j - i..] == s[j..] && s[i..][..j - i] == s[i..j];
  }

  lemma {:induction false} OneWord(s: seq<byte>, i: nat, cur: seq<byte>)
    requires i <= |s| && cur + s[i..] != []
    ensures var n := WordEnd(s, i);
            n < |s| && cur + s[i..n] != [] ==>
              WordsFrom(s[i..], cur) == [cur + s[i..n]] + WordsFrom(s[After(s, n)..], [])
    ensures WordEnd(s, i) == |s| ==> WordsFrom(s[i..], cur) == [cur + s[i..]]
    decreases |s| - i
  {
    hide DecodeRune, IsSpace, SpaceAt, After;
    if i < |s| {
      var n, j := WordEnd(s, i), After(s, i);
      WordsStep(s, i, cur);
      hide WordsFrom;
      if SpaceAt(s, i) {
        assert cur + s[i..i] == cur;
      } else {
        OneWord(s, j, cur + s[i..j]);
        assert cur + s[i..j] + s[j..n] == cur + s[i..n];
        assert cur + s[i..j] + s[j..] == cur + s[i..];
      }
    } else {
      assert cur + s[i..] == cur;
    }
  }

  /** The tokens of ScanWords are the words of the stream. */
  lemma {:induction false} ScanWordsTokens(s: seq<byte>)
    ensures Tokens(ScanWords, s) == WordsFrom(s, [])
    decreases |s|
  {
    hide DecodeRune, IsSpace;
    var start := SpacesEnd(s, 0);
    LeadingSpaces(s, 0);
    assert s[0..] == s;
    if start < |s| {
      var i := WordEnd(s, start);
      OneWord(s, start, []);
      assert [] + s[start..i] == s[start..i] && [] + s[start..] == s[start..];
      var x := ScanWords(s, true);
      ScanWordsTokens(s[x.advance..]);
      if i == |s| {
        assert s[|s|..] == [];
      }
    } else {
      assert s[|s|..] == [];
    }
  }
}
