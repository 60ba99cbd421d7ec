/** The split functions ScanLines, ScanBytes and ScanRunes: stable, so that a Scanner finds the same tokens
    however the stream arrives, and what those tokens are. */
module Splits {
  import opened Basics
  import opened Sequences
  import opened Streams
  import opened BufScanner
  import opened Utf8

  const CR: byte := 13
  const NEWLINE: byte := 10

  /** Drop a terminal carriage return. */
  function DropCR(data: seq<byte>): (line: seq<byte>)
    ensures line <= data && |data| - 1 <= |line|
    ensures |line| < |data| <==> data != [] && data[|data| - 1] == CR
  {
    if |data| > 0 && data[|data| - 1] == CR then data[..|data| - 1] else data
  }

  function ScanLines(data: seq<byte>, atEOF: bool): (x: Split) {
    var i := IndexByte(data, NEWLINE);
    if atEOF && data == [] then Split(0, None, None)
    else if i >= 0 then Split(i + 1, Some(DropCR(data[..i])), None)
    else if atEOF then Split(|data|, Some(DropCR(data)), None)
    else Split(0, None, None)
  }

  /** The original indexes data[0] here: it is only called with data or at the end. */
  function ScanBytes(data: seq<byte>, atEOF: bool): (x: Split) {
    if data == [] then Split(0, None, None) else Split(1, Some(data[..1]), None)
  }

  lemma {:induction false} FirstAt(s: seq<byte>, i: nat, c: byte)
    requires i < |s| && s[i] == c && c !in s[..i]
    ensures IndexByte(s, c) == i
  {
    if i > 0 {
      assert s[..i][0] != c;
      assert s[1..][..i - 1] == s[..i][1..];
      FirstAt(s[1..], i - 1, c);
    }
  }

  lemma IndexByteAppend(data: seq<byte>, more: seq<byte>, c: byte)
    requires IndexByte(data, c) >= 0
    ensures IndexByte(data + more, c) == IndexByte(data, c)
  {
    var i := IndexByte(data, c);
    assert (data + more)[..i] == data[..i];
    FirstAt(data + more, i, c);
  }

  lemma ScanLinesStable()
    ensures Stable(ScanLines)
  {
    forall data: seq<byte>, more: seq<byte>, atEOF: bool
      ensures KeepsToken(ScanLines, data, more, atEOF)
    {
      if ScanLines(data, false).token.Some? {
        IndexByteAppend(data, more, NEWLINE);
        var i := IndexByte(data, NEWLINE);
        assert (data + more)[..i] == data[..i];
      }
    }
    WaitingStable(ScanLines);
  }

  lemma ScanBytesStable()
    ensures Stable(ScanBytes)
  {
    forall data: seq<byte>, more: seq<byte>, atEOF: bool
      ensures KeepsToken(ScanBytes, data, more, atEOF)
    {
      if ScanBytes(data, false).token.Some? {
        assert (data + more)[..1] == data[..1];
      }
    }
    WaitingStable(ScanBytes);
  }

  /** The lines of a stream with their terminators. */
  function RawLines(s: seq<byte>): (lines: seq<seq<byte>>) {
    var i := IndexByte(s, NEWLINE);
    if s == [] then [] else if i < 0 then [s] else [s[..i + 1]] + RawLines(s[i + 1..])
  }

  function FirstLineEnd(s: seq<byte>): (n: nat)
    requires s != []
    ensures 0 < n <= |s|
  {
    var i := IndexByte(s, NEWLINE);
    if i < 0 then |s| else i + 1
  }

  lemma FirstLine(s: seq<byte>)
    requires s != []
    ensures var n := FirstLineEnd(s);
            && RawLines(s) == [s[..n]] + RawLines(s[n..])
            && CutLine(s[..n], n == |s|)
  {
    var n := FirstLineEnd(s);
    assert s[..n][..n - 1] == s[..n - 1];
    assert s[..|s|] == s;
  }

  /** A line holds no newline but at its end, where only the last line may lack it. */
  ghost predicate CutLine(line: seq<byte>, last: bool) {
    && line != [] && NEWLINE !in line[..|line| - 1]
    && (!last ==> line[|line| - 1] == NEWLINE)
  }

  /** Cutting into lines loses nothing. */
  lemma {:induction false} RawLinesCut(s: seq<byte>)
    ensures Flatten(RawLines(s)) == s
    ensures forall k :: 0 <= k < |RawLines(s)| ==> CutLine(RawLines(s)[k], k == |RawLines(s)| - 1)
  {
    if s != [] {
      hide IndexByte, CutLine, RawLines, FirstLineEnd;
      var n := FirstLineEnd(s);
      FirstLine(s);
      RawLinesCut(s[n..]);
      Rejoin(s, n);
      if s[n..] == [] {
        NoLines();
      } else {
        FirstLine(s[n..]);
      }
    }
  }

  lemma NoLines()
    ensures RawLines([]) == []
  {
  }

  /** The text of a line: without its newline, and then without a carriage return. */
  function Text(line: seq<byte>): (text: seq<byte>) {
    DropCR(if line != [] && line[|line| - 1] == NEWLINE then line[..|line| - 1] else line)
  }

  lemma LinesStep(s: seq<byte>)
    requires s != []
    ensures var n := FirstLineEnd(s);
            && RawLines(s) == [s[..n]] + RawLines(s[n..])
            && Tokens(ScanLines, s) == [Text(s[..n])] + Tokens(ScanLines, s[n..])
  {
    var i := IndexByte(s, NEWLINE);
    if i < 0 {
      assert s[..|s|] == s;
      assert s[|s| - 1] != NEWLINE;
    } else {
      assert s[..i + 1][..i] == s[..i];
    }
  }

  /** A Scanner with ScanLines yields the text of every line, in order. */
  lemma {:induction false} ScanLinesTokens(s: seq<byte>)
    ensures |Tokens(ScanLines, s)| == |RawLines(s)|
    ensures forall k :: 0 <= k < |RawLines(s)| ==> Tokens(ScanLines, s)[k] == Text(RawLines(s)[k])
    decreases |s|
  {
    hide IndexByte, Text;
    if s != [] {
      hide Tokens, RawLines, FirstLineEnd, ScanLines;
      LinesStep(s);
      ScanLinesTokens(s[FirstLineEnd(s)..]);
    }
  }

  lemma {:induction false} ScanBytesTokens(s: seq<byte>)
    ensures |Tokens(ScanBytes, s)| == |s|
    ensures forall k :: 0 <= k < |s| ==> Tokens(ScanBytes, s)[k] == [s[k]]
    decreases |s|
  {
    if s != [] {
      ScanBytesTokens(s[1..]);
      assert Tokens(ScanBytes, s) == [s[..1]] + Tokens(ScanBytes, s[1..]);
    }
  }

  ghost predicate AllShorter(lines: seq<seq<byte>>, m: nat) {
    forall k :: 0 <= k < |lines| ==> |lines[k]| < m
  }

  /** When all lines are shorter than m, m bytes in a row always hold a newline. */
  lemma {:induction false} ShortLines(s: seq<byte>, m: nat, at: nat)
    requires AllShorter(RawLines(s), m)
    requires 0 < m && at + m <= |s|
    ensures NEWLINE in s[at..at + m]
    decreases |s|
  {
    var i := IndexByte(s, NEWLINE);
    assert |RawLines(s)[0]| == if i < 0 then |s| else i + 1;
    if at <= i {
      assert s[at..at + m][i - at] == NEWLINE;
    } else if i >= 0 {
      ShorterTail(s, m);
      ShortLines(s[i + 1..], m, at - i - 1);
      assert s[at..at + m] == s[i + 1..][at - i - 1..at - i - 1 + m];
    }
  }

  lemma ShorterTail(s: seq<byte>, m: nat)
    requires AllShorter(RawLines(s), m) && IndexByte(s, NEWLINE) >= 0
    ensures AllShorter(RawLines(s[IndexByte(s, NEWLINE) + 1..]), m)
  {
    var tail := RawLines(s[IndexByte(s, NEWLINE) + 1..]);
    assert RawLines(s)[1..] == tail;
    forall k | 0 <= k < |tail|
      ensures |tail[k]| < m
    {
      assert tail[k] == RawLines(s)[k + 1];
    }
  }

  lemma ShortLinesSplit(s: seq<byte>, m: nat, at: nat, size: nat)
    requires AllShorter(RawLines(s), m)
    requires 0 < m <= size && at + size <= |s|
    ensures ScanLines(s[at..at + size], false).token.Some?
  {
    hide RawLines, AllShorter, IndexByte, DropCR;
    ShortLines(s, m, at);
    var data := s[at..at + size];
    SliceOfSlice(s, at, at + size, m);
    var k :| 0 <= k < m && s[at..at + m][k] == NEWLINE;
    assert data[k] == NEWLINE;
  }

  /** Whatever the chunks and the initial buffer, no line is too long if all lines, with their
      terminators, are shorter than the limit. */
  lemma NeverOverlong(sc: Scanner)
    requires sc.split == ScanLines
    requires 0 < sc.maxTokenSize <= MAX_INT / 2
    requires AllShorter(RawLines(sc.stream), sc.maxTokenSize)
    ensures !sc.Overlong()
  {
    if sc.buf.Length >= sc.maxTokenSize && sc.pos + sc.buf.Length <= |sc.stream| {
      ShortLinesSplit(sc.stream, sc.maxTokenSize, sc.pos, sc.buf.Length);
    }
  }

  /** Where the lines behind pos begin in all of them. */
  ghost predicate AtLine(all: seq<seq<byte>>, k: nat, rest: seq<byte>) {
    k <= |all| && RawLines(rest) == all[k..]
  }

  /** The next token of ScanLines is the next line. */
  lemma NextLine(all: seq<seq<byte>>, k: nat, s: seq<byte>, n: nat, token: Option<seq<byte>>)
    requires AtLine(all, k, s) && 0 < n <= |s| && ScanLines(s, true) == Split(n, token, None)
    ensures k < |all| && |all[k]| == n && token == Some(Text(all[k])) && AtLine(all, k + 1, s[n..])
  {
    hide RawLines, IndexByte, DropCR;
    FirstLine(s);
    LineToken(s);
    assert all[k] == all[k..][0] && all[k + 1..] == all[k..][1..];
  }

  lemma LineToken(s: seq<byte>)
    requires s != []
    ensures ScanLines(s, true) == Split(FirstLineEnd(s), Some(Text(s[..FirstLineEnd(s)])), None)
  {
    var i := IndexByte(s, NEWLINE);
    if i < 0 {
      assert s[..|s|] == s && s[|s| - 1] != NEWLINE;
    } else {
      assert s[..i + 1][..i] == s[..i];
    }
  }

  /** A window without a newline is no longer than the line it begins. */
  lemma LongLine(all: seq<seq<byte>>, k: nat, s: seq<byte>, n: nat)
    requires AtLine(all, k, s) && 0 < n <= |s| && ScanLines(s[..n], false).token.None?
    ensures k < |all| && |all[k]| >= n
  {
    hide RawLines;
    FirstLine(s);
    forall j | 0 <= j < n
      ensures s[j] != NEWLINE
    {
      assert s[j] == s[..n][j];
    }
    assert all[k] == all[k..][0];
  }

  function Larger(a: int, b: int): int { if a < b then b else a }

  /** The lines of a stream, scanned with any starting buffer until the scanner stops: at the end, or
      at a line that the buffer cannot hold at its limit. */
  method LinesUpTo(r: Source, buf: array<byte>, max: int) returns (lines: seq<seq<byte>>, e: Option<Error>)
    requires r.Steady() && 0 < max <= MAX_INT / 2
    modifies r, buf
    ensures var all := RawLines(old(r.rest));
            && |lines| <= |all|
            && (forall k | 0 <= k < |lines| :: lines[k] == Text(all[k]) && |all[k]| <= Larger(buf.Length, max))
            && (e.None? ==> |lines| == |all|)
            && (e.Some? ==> e == Some(ErrTooLong) && |lines| < |all| && |all[|lines|]| >= max)
  {
    hide Stable, Waits, Tokens, RawLines, AllShorter, Text, Source.Steady, Aligned, OnTrack, ScanLines, AtLine;
    ScanLinesStable();
    ScanLinesTokens(r.rest);
    LinesWait();
    ghost var all := RawLines(r.rest);
    var scanner := new Scanner(r, ScanLines);
    scanner.Buffer(buf, max);
    lines := [];
    FirstIsAtLine(scanner.stream, all);
    while true
      invariant scanner.Valid() && scanner.r == r && r.Steady() && scanner.Intact()
      invariant scanner.split == ScanLines && scanner.maxTokenSize == max && scanner.stream == old(r.rest)
      invariant scanner.buf == buf || (fresh(scanner.buf) && scanner.buf.Length <= max)
      invariant scanner.found == lines && scanner.pos <= |scanner.stream|
      invariant AtLine(all, |lines|, scanner.stream[scanner.pos..]) && |lines| <= |all|
      invariant forall k | 0 <= k < |lines| :: lines[k] == Text(all[k]) && |all[k]| <= Larger(buf.Length, max)
      decreases |scanner.stream| - scanner.pos
    {
      ghost var pos := scanner.pos;
      var out := scanner.Scan();
      if out != Token {
        e := scanner.Err();
        if e.Some? {
          NoRoom(scanner, all, |lines|);
        }
        return;
      }
      NextLine(all, |lines|, scanner.stream[pos..], scanner.pos - pos, scanner.token);
      assert scanner.stream[pos..][scanner.pos - pos..] == scanner.stream[scanner.pos..];
      lines := lines + [scanner.token.value];
    }
  }

  lemma LinesWait()
    ensures Waits(ScanLines)
  {
  }

  lemma FirstIsAtLine(s: seq<byte>, all: seq<seq<byte>>)
    requires all == RawLines(s)
    ensures AtLine(all, 0, s[0..])
  {
    assert s[0..] == s && all[0..] == all;
  }

  lemma NoRoom(sc: Scanner, all: seq<seq<byte>>, k: nat)
    requires sc.split == ScanLines && 0 < sc.maxTokenSize <= MAX_INT / 2 && sc.Overlong()
    requires AtLine(all, k, sc.stream[sc.pos..])
    ensures k < |all| && |all[k]| >= sc.maxTokenSize
  {
    hide RawLines, ScanLines;
    var s, n := sc.stream[sc.pos..], sc.buf.Length;
    assert sc.stream[sc.pos..sc.pos + n] == s[..n];
    LongLine(all, k, s, n);
  }

  /** If all lines are shorter than the limit, all are found. */
  method AllLines(r: Source, buf: array<byte>, max: int) returns (lines: seq<seq<byte>>)
    requires r.Steady() && 0 < max <= MAX_INT / 2 && AllShorter(RawLines(r.rest), max)
    modifies r, buf
    ensures |lines| == |RawLines(old(r.rest))|
    ensures forall k :: 0 <= k < |lines| ==> lines[k] == Text(RawLines(old(r.rest))[k])
  {
    hide RawLines, Text, Source.Steady;
    var e;
    lines, e := LinesUpTo(r, buf, max);
  }

  /** The original indexes data[0] here, as in ScanBytes. */
  function ScanRunes(data: seq<byte>, atEOF: bool): (x: Split) {
    if data == [] then Split(0, None, None)
    else if data[0] < RUNE_SELF then Split(1, Some(data[..1]), None)
    else
      var width := DecodeRune(data).size;
      if width > 1 then Split(width, Some(data[..width]), None)
      else if !atEOF && !FullRune(data) then Split(0, None, None)
      else Split(1, Some(Encode(RUNE_ERROR)), None)
  }

  lemma FullRuneAppend(data: seq<byte>, more: seq<byte>)
    requires data != [] && (FullRune(data) || DecodeRune(data).size > 1)
    ensures FullRune(data) && FullRune(data + more)
    ensures DecodeRune(data + more) == DecodeRune(data)
  {
    assert forall i :: 0 <= i < |data| ==> (data + more)[i] == data[i];
  }

  lemma ScanRunesStable()
    ensures Stable(ScanRunes)
  {
    forall data: seq<byte>, more: seq<byte>, atEOF: bool
      ensures KeepsToken(ScanRunes, data, more, atEOF)
    {
      if ScanRunes(data, false).token.Some? {
        hide DecodeRune, FullRune, Encode;
        assert (data + more)[0] == data[0];
        if data[0] >= RUNE_SELF {
          FullRuneAppend(data, more);
        }
        assert (data + more)[..DecodeRune(data).size] == data[..DecodeRune(data).size];
        assert (data + more)[..1] == data[..1];
      }
    }
    WaitingStable(ScanRunes);
  }

  lemma ScanRunesStep(s: seq<byte>)
    requires s != []
    ensures var d := DecodeRune(s);
            && 0 <= d.rune <= 0x10_FFFF && !(0xD800 <= d.rune <= 0xDFFF)
            && Tokens(ScanRunes, s) == [Encode(d.rune)] + Tokens(ScanRunes, s[d.size..])
  {
    if s[0] < RUNE_SELF {
      DecodeAsciiToken(s);
    } else if DecodeRune(s) != Decoded(RUNE_ERROR, 1) {
      DecodedIsEncoding(s);
      NotAscii(s);
    }
  }

  lemma DecodeAsciiToken(s: seq<byte>)
    requires s != [] && s[0] < RUNE_SELF
    ensures DecodeRune(s) == Decoded(s[0], 1) && Encode(s[0]) == s[..1]
  {
  }

  lemma NotAscii(s: seq<byte>)
    requires s != [] && s[0] >= RUNE_SELF && DecodeRune(s) != Decoded(RUNE_ERROR, 1)
    ensures DecodeRune(s).size > 1
  {
  }

  /** A Scanner with ScanRunes yields the encoding of every decoded rune: ill-formed bytes become
      encoded replacement characters. */
  lemma {:induction false} ScanRunesTokens(s: seq<byte>)
    ensures |Tokens(ScanRunes, s)| == |DecodeAll(s)|
    ensures forall k :: 0 <= k < |DecodeAll(s)| ==>
        var r := DecodeAll(s)[k];
        0 <= r <= 0x10_FFFF && !(0xD800 <= r <= 0xDFFF) && Tokens(ScanRunes, s)[k] == Encode(r)
    decreases |s|
  {
    if s != [] {
      hide Tokens, ScanRunes, Encode, DecodeRune;
      ScanRunesStep(s);
      ScanRunesTokens(s[DecodeRune(s).size..]);
    }
  }
}
