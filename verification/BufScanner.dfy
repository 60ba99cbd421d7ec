/** bufio.Scanner: a growing buffer handed to a split function. For every split function whose
    decisions a longer input cannot change, the tokens found are those of the whole stream. */
module BufScanner {
  import opened Basics
  import opened Sequences
  import opened Streams

  const START_BUF_SIZE := 4096
  const MAX_SCAN_TOKEN_SIZE := 64 * 1024
  const MAX_CONSECUTIVE_EMPTY_READS := 100
  const MAX_INT := 0x7fff_ffff_ffff_ffff

  datatype Split = Split(advance: int, token: Option<seq<byte>>, err: Option<Error>)
  type SplitFunc = (seq<byte>, bool) -> Split

  /** Scan returned true, returned false, or panicked over too many empty tokens. */
  datatype Scanned = Token | End | Panic

  /** More input changes no decision: a token found before the end is found there whatever follows,
      and what is skipped without a token changes no later one. */
  ghost predicate Stable(split: SplitFunc) {
    && (forall data, atEOF :: Decent(split(data, atEOF), |data|))
    && (forall data, more, atEOF :: KeepsToken(split, data, more, atEOF))
    && (forall data, more, atEOF :: KeepsSkip(split, data, more, atEOF))
    && (forall data :: EndsSkip(split, data))
    && split([], true).token.None?
  }

  predicate Decent(x: Split, size: nat) {
    x.err.None? && 0 <= x.advance <= size && (x.token.Some? ==> x.advance > 0)
  }

  predicate KeepsToken(split: SplitFunc, data: seq<byte>, more: seq<byte>, atEOF: bool) {
    split(data, false).token.Some? ==> split(data + more, atEOF) == split(data, false)
  }

  /** With the skipped bytes or without them, the same token is found at the same place. */
  predicate KeepsSkip(split: SplitFunc, data: seq<byte>, more: seq<byte>, atEOF: bool) {
    var k := split(data, false).advance;
    split(data, false).token.None? && 0 <= k <= |data| ==>
      var x, y := split(data + more, atEOF), split(data[k..] + more, atEOF);
      x.token == y.token && (x.token.Some? ==> x.advance == k + y.advance)
  }

  predicate EndsSkip(split: SplitFunc, data: seq<byte>) {
    var k := split(data, true).advance;
    split(data, true).token.None? && 0 <= k <= |data| ==> split(data[k..], true).token.None?
  }

  /** Without a token nothing is skipped. */
  ghost predicate Waits(split: SplitFunc) {
    forall data, atEOF :: split(data, atEOF).token.None? ==> split(data, atEOF).advance == 0
  }

  lemma WaitingStable(split: SplitFunc)
    requires forall data, atEOF :: Decent(split(data, atEOF), |data|)
    requires forall data, more, atEOF :: KeepsToken(split, data, more, atEOF)
    requires Waits(split)
    requires split([], true).token.None?
    ensures Stable(split)
  {
    forall data, more, atEOF
      ensures KeepsSkip(split, data, more, atEOF)
    {
      assert data[0..] == data;
    }
    forall data
      ensures EndsSkip(split, data)
    {
      assert data[0..] == data;
    }
  }

  /** The tokens of a whole stream: the split function sees all of it at once. */
  ghost function Tokens(split: SplitFunc, s: seq<byte>): (tokens: seq<seq<byte>>)
    decreases |s|
  {
    var x := split(s, true);
    if x.token.Some? && 0 < x.advance <= |s| then [x.token.value] + Tokens(split, s[x.advance..]) else []
  }

  /** The tokens found, and those still ahead of pos, are the tokens of the stream. */
  ghost predicate OnTrack(split: SplitFunc, found: seq<seq<byte>>, stream: seq<byte>, pos: nat)
    requires pos <= |stream|
  {
    found + Tokens(split, stream[pos..]) == Tokens(split, stream)
  }

  lemma OnTrackStart(split: SplitFunc, stream: seq<byte>)
    ensures OnTrack(split, [], stream, 0)
  {
    assert stream[0..] == stream;
  }

  /** A token of the window, found before or at the end of the stream, is its next token. */
  lemma OnTrackToken(split: SplitFunc, found: seq<seq<byte>>, stream: seq<byte>, pos: nat,
                     window: seq<byte>, rest: seq<byte>, atEOF: bool)
    requires Stable(split) && Aligned(stream, pos, window, rest) && OnTrack(split, found, stream, pos)
    requires atEOF ==> rest == []
    ensures var x := split(window, atEOF);
            x.token.Some? ==>
              && 0 < x.advance <= |window|
              && OnTrack(split, found + [x.token.value], stream, pos + x.advance)
  {
    var x := split(window, atEOF);
    var ahead := stream[pos..];
    assert Decent(x, |window|);
    assert KeepsToken(split, window, rest, true);
    assert ahead == window + rest by {
      SliceJoin(stream, pos, pos + |window|, |stream|);
    }
    if atEOF {
      assert window + rest == window;
    }
    if x.token.Some? {
      assert split(ahead, true) == x;
      TakeMore(stream, pos, 0);
      assert ahead[x.advance..] == stream[pos + x.advance..];
      Assoc(found, [x.token.value], Tokens(split, ahead[x.advance..]));
    }
  }

  /** What is skipped without a token holds none; at the end nothing more is to come. */
  lemma OnTrackSkip(split: SplitFunc, found: seq<seq<byte>>, stream: seq<byte>, pos: nat,
                    window: seq<byte>, rest: seq<byte>, atEOF: bool)
    requires Stable(split) && Aligned(stream, pos, window, rest) && OnTrack(split, found, stream, pos)
    requires (atEOF ==> rest == []) && split(window, atEOF).token.None?
    ensures var k := split(window, atEOF).advance;
            && 0 <= k <= |window|
            && OnTrack(split, found, stream, pos + k)
            && (atEOF ==> Tokens(split, stream[pos + k..]) == [])
  {
    var k := split(window, atEOF).advance;
    var ahead := stream[pos..];
    assert Decent(split(window, atEOF), |window|);
    assert ahead == window + rest by {
      SliceJoin(stream, pos, pos + |window|, |stream|);
    }
    assert stream[pos + k..] == ahead[k..] == window[k..] + rest;
    if atEOF {
      assert window + rest == window && window[k..] + rest == window[k..];
      assert EndsSkip(split, window);
    } else {
      assert KeepsSkip(split, window, rest, true);
      var x, y := split(ahead, true), split(ahead[k..], true);
      assert Decent(x, |ahead|) && Decent(y, |ahead[k..]|);
      if x.token.Some? {
        assert ahead[x.advance..] == ahead[k..][y.advance..];
      }
    }
  }

  /** The part of the window behind what was skipped has no token either. */
  lemma SkippedWindow(split: SplitFunc, window: seq<byte>)
    requires Stable(split) && split(window, false).token.None?
    ensures var k := split(window, false).advance; 0 <= k <= |window| && split(window[k..], false).token.None?
  {
    var k := split(window, false).advance;
    assert Decent(split(window, false), |window|);
    assert KeepsSkip(split, window, [], false);
    assert window + [] == window && window[k..] + [] == window[k..];
  }

  lemma StableAnswer(split: SplitFunc, data: seq<byte>, atEOF: bool)
    requires Stable(split)
    ensures Decent(split(data, atEOF), |data|)
  {
  }

  /** A token of the window is what the function finds in the rest of the stream. */
  lemma SameAnswer(split: SplitFunc, stream: seq<byte>, pos: nat, window: seq<byte>, rest: seq<byte>, atEOF: bool)
    requires Stable(split) && Aligned(stream, pos, window, rest) && (atEOF ==> rest == [])
    requires split(window, atEOF).token.Some?
    ensures split(stream[pos..], true) == split(window, atEOF)
  {
    assert KeepsToken(split, window, rest, true);
    assert stream[pos..] == window + rest by {
      SliceJoin(stream, pos, pos + |window|, |stream|);
    }
    if atEOF {
      assert window + rest == window;
    }
  }

  ghost predicate NoFailure(err: Option<Error>) { err.None? || err == Some(EOF) }

  /** What one answer of a stable function means for the stream. */
  lemma Answer(split: SplitFunc, found: seq<seq<byte>>, stream: seq<byte>, pos: nat,
               window: seq<byte>, rest: seq<byte>, err: Option<Error>)
    requires Stable(split) && Aligned(stream, pos, window, rest)
    requires NoFailure(err) ==> (err == Some(EOF) ==> rest == []) && OnTrack(split, found, stream, pos)
    ensures var x := split(window, err.Some?);
            && Decent(x, |window|) && pos + x.advance <= |stream|
            && (NoFailure(err) ==>
                  OnTrack(split, if x.token.Some? then found + [x.token.value] else found, stream, pos + x.advance))
            && (NoFailure(err) && x.token.Some? ==> split(stream[pos..], true) == x)
            && (x.token.None? && Waits(split) ==> x.advance == 0)
            && (x.token.None? && err.None? ==> split(window[x.advance..], false).token.None?)
            && (x.token.None? && err == Some(EOF) ==> Tokens(split, stream[pos + x.advance..]) == [])
  {
    hide Stable, OnTrack, Tokens, Aligned;
    AlignLengths(stream, pos, window, rest);
    var x := split(window, err.Some?);
    StableAnswer(split, window, err.Some?);
    if NoFailure(err) && x.token.Some? {
      SameAnswer(split, stream, pos, window, rest, err.Some?);
    }
    if NoFailure(err) {
      OnTrackToken(split, found, stream, pos, window, rest, err.Some?);
      if x.token.None? {
        OnTrackSkip(split, found, stream, pos, window, rest, err.Some?);
      }
    }
    if x.token.None? && err.None? {
      SkippedWindow(split, window);
    }
  }

  /** At the end without a token, everything has been found. */
  lemma OnTrackEnd(split: SplitFunc, found: seq<seq<byte>>, stream: seq<byte>, pos: nat)
    requires Stable(split) && pos <= |stream| && OnTrack(split, found, stream, pos)
    requires Tokens(split, stream[pos..]) == []
    ensures found == Tokens(split, stream)
    ensures OnTrack(split, found, stream, |stream|)
  {
    assert stream[|stream|..] == [];
  }

  /** What is left of errors set one after the other. */
  function Recorded(err: Option<Error>, es: seq<Error>): (r: Option<Error>)
    decreases |es|
  {
    if es == [] then err else Recorded(if err.None? || err == Some(EOF) then Some(es[0]) else err, es[1..])
  }

  /** The first error that is not the end of the input stays, whatever is set before or after it. */
  lemma {:induction false} FirstErrorStays(err: Option<Error>, es: seq<Error>, k: nat)
    requires err.None? || err == Some(EOF)
    requires k < |es| && es[k] != EOF && forall i | 0 <= i < k :: es[i] == EOF
    ensures Recorded(err, es) == Some(es[k])
    decreases |es|
  {
    if k == 0 {
      LaterIgnored(es[0], es[1..]);
    } else {
      FirstErrorStays(Some(EOF), es[1..], k - 1);
    }
  }

  lemma {:induction false} LaterIgnored(e: Error, es: seq<Error>)
    requires e != EOF
    ensures Recorded(Some(e), es) == Some(e)
    decreases |es|
  {
    if es != [] {
      LaterIgnored(e, es[1..]);
    }
  }

  /** A full buffer is doubled, up to the limit. */
  function NextSize(size: nat, max: int): (next: int) {
    var doubled := if size == 0 then START_BUF_SIZE else 2 * size;
    if max < doubled then max else doubled
  }

  /** The source has reported no error since before, or one: the one at hand. */
  ghost predicate Heard(failed: seq<Error>, before: seq<Error>, err: Option<Error>) {
    failed == before + FromSource(err)
  }

  lemma HeardNext(failed: seq<Error>, before: seq<Error>, e: Option<Error>)
    requires Heard(failed, before, None)
    ensures Heard(failed + FromSource(e), before, e)
    ensures Heard(failed, before, Some(ErrTooLong)) && Heard(failed, before, Some(ErrNoProgress))
  {
    assert failed == before;
  }

  class Scanner {
    const r: Source
    const split: SplitFunc
    var maxTokenSize: int
    var token: Option<seq<byte>>
    var buf: array<byte>
    var start: nat
    var end: nat
    var err: Option<Error>
    var empties: nat
    var scanCalled: bool
    var done: bool

    ghost const stream: seq<byte>
    ghost var pos: nat
    /** The tokens Scan has announced, in order. */
    ghost var found: seq<seq<byte>>

    /** The errors of the source before this scanner. */
    ghost const before: seq<Error>

    /** Where the last token was cut from the stream. */
    ghost var tokenAt: nat

    ghost predicate Valid()
      reads this, buf, r
    {
      && start <= end <= buf.Length && (!scanCalled ==> start == end == 0)
      && pos <= |stream| && Aligned(stream, pos, Window(), r.rest)
      && (Stable(split) ==> !done && Heard(r.failed, before, err))
      && (Stable(split) && Intact() ==>
            (err == Some(EOF) ==> r.rest == []) && OnTrack(split, found, stream, pos))
    }

    ghost function Window(): (s: seq<byte>)
      requires start <= end <= buf.Length
      reads this, buf
    {
      buf[start..end]
    }

    /** No error other than the end of the input. */
    ghost predicate Intact()
      reads this
    {
      NoFailure(err)
    }

    /** The token was cut from the stream at tokenAt, from a window that fits the buffer. */
    ghost predicate Located()
      reads this, buf
    {
      && tokenAt < pos <= tokenAt + buf.Length && tokenAt <= |stream|
      && split(stream[tokenAt..], true) == Split(pos - tokenAt, token, None)
    }

    /** The buffer is as large as it may get and the split function finds no token in it. */
    ghost predicate Overlong()
      reads this, buf
    {
      && (buf.Length >= maxTokenSize || buf.Length > MAX_INT / 2)
      && pos + buf.Length <= |stream|
      && (buf.Length > 0 ==> split(stream[pos..pos + buf.Length], false).token.None?)
    }

    constructor (r: Source, split: SplitFunc)
      ensures Valid() && fresh(buf) && this.r == r && this.split == split
      ensures stream == r.rest && pos == 0 && found == [] && err.None? && !scanCalled
      ensures maxTokenSize == MAX_SCAN_TOKEN_SIZE
    {
      this.r := r;
      this.split := split;
      maxTokenSize := MAX_SCAN_TOKEN_SIZE;
      token, start, end, err, empties := None, 0, 0, None, 0;
      scanCalled, done := false, false;
      buf := new byte[0];
      stream, pos, found, tokenAt, before := r.rest, 0, [], 0, r.failed;
      new;
      OnTrackStart(split, stream);
    }

    /** Err() of the source: the end of the input is not an error. */
    function Err(): (e: Option<Error>)
      reads this
      ensures e.None? <==> Intact()
    {
      if err == Some(EOF) then None else err
    }

    /** Use the caller's buffer, before scanning starts. */
    method Buffer(buf: array<byte>, max: int)
      requires Valid() && !scanCalled
      modifies this
      ensures Valid() && this.buf == buf && maxTokenSize == max
      ensures pos == old(pos) && found == old(found) && err == old(err) && scanCalled == old(scanCalled)
    {
      assert this.buf[start..end] == [];
      this.buf := buf;
      maxTokenSize := max;
    }

    method SetErr(e: Error)
      modifies this`err
      ensures err == Recorded(old(err), [e])
    {
      if err.None? || err == Some(EOF) {
        err := Some(e);
      }
    }

    /** Consume n bytes of the buffer, if that is legal. */
    method Advance(n: int) returns (ok: bool)
      requires start <= end <= buf.Length && pos + (end - start) <= |stream|
      requires Aligned(stream, pos, Window(), r.rest)
      modifies this`start, this`pos, this`err
      ensures start <= end && pos <= |stream|
      ensures Aligned(stream, pos, Window(), r.rest)
      ensures ok == (0 <= n <= old(end - start))
      ensures ok ==> start == old(start) + n && pos == old(pos) + n && err == old(err) && Window() == old(Window())[n..]
      ensures !ok ==> start == old(start) && pos == old(pos) && err != Some(EOF) && err.Some?
    {
      hide Aligned;
      if n < 0 {
        SetErr(ErrNegativeAdvance);
        return false;
      }
      if n > end - start {
        SetErr(ErrAdvanceTooFar);
        return false;
      }
      AlignAdvance(stream, pos, Window(), r.rest, n);
      SliceOfSlice(buf[..], start, end, n);
      start := start + n;
      pos := pos + n;
      return true;
    }

    /** Count the tokens returned at the end without progress, up to a limit. */
    method CountEmpty(advance: int) returns (panicked: bool)
      modifies this`empties
      ensures empties == if err.None? || advance > 0 then 0 else old(empties) + 1
      ensures panicked <==> empties > MAX_CONSECUTIVE_EMPTY_READS
    {
      if err.None? || advance > 0 {
        empties := 0;
      } else {
        empties := empties + 1;
        if empties > MAX_CONSECUTIVE_EMPTY_READS {
          return true;
        }
      }
      return false;
    }

    /** The split function wants no more: with a last token, or with an error. */
    method SplitFailed(x: Split) returns (out: Scanned)
      requires Valid() && !Stable(split) && x.err.Some?
      modifies this`token, this`found, this`err, this`done
      ensures Valid()
      ensures if x.err == Some(ErrFinalToken) then
                token == x.token && done && err == old(err) && out == if token.Some? then Token else End
              else
                token == old(token) && done == old(done) && err == Recorded(old(err), [x.err.value]) && out == End
      ensures found == if out == Token && token.Some? then old(found) + [token.value] else old(found)
    {
      hide Aligned, Heard, Stable, Tokens, OnTrack;
      if x.err == Some(ErrFinalToken) {
        token := x.token;
        done := true;
        if token.Some? {
          found := found + [token.value];
          return Token;
        }
        return End;
      }
      SetErr(x.err.value);
      return End;
    }

    /** Ask the split function about the window. None means that more input is needed. */
    method TrySplit() returns (out: Option<Scanned>)
      requires Valid() && scanCalled && !done && (end > start || err.Some?)
      modifies this`start, this`pos, this`token, this`found, this`tokenAt, this`err, this`empties, this`done
      ensures Valid() && scanCalled && buf == old(buf) && end == old(end)
      ensures found == if out == Some(Token) && token.Some? then old(found) + [token.value] else old(found)
      ensures out == Some(Token) ==> token.Some?
      ensures out.None? ==> !done && err == old(err)
      ensures Stable(split) ==> err == old(err) && (out.None? || out == Some(Token))
      ensures Stable(split) ==> pos >= old(pos) && (out == Some(Token) ==> pos > old(pos))
      ensures Stable(split) && Intact() && out == Some(Token) ==> tokenAt == old(pos) && Located()
      ensures Stable(split) && Waits(split) && out.None? ==> pos == old(pos)
      ensures Stable(split) && out.None? && old(err).None? ==> split(Window(), false).token.None?
      ensures Stable(split) && Intact() && out.None? && old(err).Some? ==> Tokens(split, stream[pos..]) == []
    {
      hide Aligned, Heard, Stable, Tokens, OnTrack, Waits, Recorded;
      AlignLengths(stream, pos, Window(), r.rest);
      var x := split(buf[start..end], err.Some?);
      if Stable(split) {
        Answer(split, found, stream, pos, Window(), r.rest, err);
      }
      if x.err.Some? {
        var last := SplitFailed(x);
        return Some(last);
      }
      var ok := Advance(x.advance);
      if !ok {
        return Some(End);
      }
      if x.token.Some? {
        var result := Emit(x, old(pos));
        return Some(result);
      }
      token := None;
      return None;
    }

    /** Hand out a token, cut from the stream at from. */
    method Emit(x: Split, ghost from: nat) returns (out: Scanned)
      requires x.token.Some?
      modifies this`token, this`found, this`tokenAt, this`empties
      ensures token == x.token && tokenAt == from && (out == Token || out == Panic)
      ensures out == Panic ==> err.Some? && x.advance <= 0
      ensures found == if out == Token then old(found) + [x.token.value] else old(found)
    {
      token := x.token;
      tokenAt := from;
      var panicked := CountEmpty(x.advance);
      if panicked {
        return Panic;
      }
      found := found + [token.value];
      return Token;
    }

    /** Shift the data to the front if there is lots of empty space or space is needed. */
    method Shift()
      requires Valid()
      modifies this`start, this`end, buf
      ensures Valid() && Window() == old(Window())
      ensures end == buf.Length ==> start == 0
      ensures start != 0 ==> start == old(start) <= buf.Length / 2
      ensures start != old(start) ==> old(end) == buf.Length || old(start) > buf.Length / 2
    {
      hide Aligned, Heard, Stable, Tokens, OnTrack;
      if start > 0 && (end == buf.Length || start > buf.Length / 2) {
        forall i | 0 <= i < end - start {
          buf[i] := buf[start + i];
        }
        end := end - start;
        start := 0;
        assert Window() == old(Window());
      }
    }

    /** Double the full buffer, up to the limit; give up when it is there. */
    method Grow() returns (ok: bool)
      requires Valid() && scanCalled && err.None? && start == 0 && end == buf.Length
      requires Stable(split) && end > 0 ==> split(Window(), false).token.None?
      modifies this`buf, this`start, this`end, this`err
      ensures Valid() && Window() == old(Window())
      ensures ok ==> fresh(buf) && end < buf.Length <= maxTokenSize && err.None?
      ensures ok ==> buf.Length == NextSize(old(buf.Length), maxTokenSize)
      ensures !ok ==> buf == old(buf) && err == Some(ErrTooLong) && (Stable(split) ==> Overlong())
    {
      hide Aligned, Heard, Stable, Tokens, OnTrack;
      if buf.Length >= maxTokenSize || buf.Length > MAX_INT / 2 {
        AlignLengths(stream, pos, Window(), r.rest);
        AlignWindow(stream, pos, Window(), r.rest);
        if Stable(split) {
          HeardNext(r.failed, before, None);
        }
        SetErr(ErrTooLong);
        assert Window() == stream[pos..pos + buf.Length];
        return false;
      }
      var newSize := buf.Length * 2;
      if newSize == 0 {
        newSize := START_BUF_SIZE;
      }
      newSize := if newSize < maxTokenSize then newSize else maxTokenSize;
      Reallocate(newSize);
      return true;
    }

    /** Shift and grow as needed to have room to read into. */
    method MakeRoom() returns (ok: bool)
      requires Valid() && scanCalled && err.None?
      requires Stable(split) && end > start ==> split(Window(), false).token.None?
      modifies this`buf, this`start, this`end, this`err, buf
      ensures Valid() && (buf == old(buf) || (fresh(buf) && buf.Length <= maxTokenSize))
      ensures ok ==> end < buf.Length && err.None?
      ensures !ok ==> err == Some(ErrTooLong) && (Stable(split) ==> Overlong())
    {
      hide Aligned, Heard, Stable, Tokens, OnTrack;
      ok := true;
      Shift();
      if end == buf.Length {
        ok := Grow();
      }
    }

    /** Move the data to the front of a new buffer. */
    method Reallocate(newSize: nat)
      requires Valid() && scanCalled && end - start <= newSize
      modifies this`buf, this`start, this`end
      ensures Valid() && Window() == old(Window()) && fresh(buf) && buf.Length == newSize
      ensures start == 0 && end == old(end - start)
    {
      hide Aligned, Heard, Stable, Tokens, OnTrack;
      ghost var window := Window();
      var newBuf := new byte[newSize];
      forall i | 0 <= i < end - start {
        newBuf[i] := buf[start + i];
      }
      assert newBuf[0..end - start] == window;
      buf := newBuf;
      end := end - start;
      start := 0;
    }

    /** One read behind the data; the slice read into is never empty. */
    method Fetch() returns (n: nat, e: Option<Error>)
      requires Valid() && scanCalled && err.None? && end < buf.Length
      modifies this`end, this`err, buf, r
      ensures Valid() && end == old(end) + n && n <= |old(r.rest)| && |r.rest| == |old(r.rest)| - n && err == e
      ensures e.Some? ==> e == Some(EOF) || e.value.Other?
      ensures old(r.Steady()) ==> r.Steady() && (e.None? || e == Some(EOF))
      ensures n == 0 && e.None? && old(r.Steady()) ==> Stalls(r.plan) == Stalls(old(r.plan)) - 1
    {
      hide Aligned, Heard, Stable, Tokens, OnTrack, Source.Steady, Stalls;
      ghost var kept, rest := Window(), r.rest;
      ghost var failed := r.failed;
      n, e := r.Read(buf, end, buf.Length);
      if Stable(split) {
        HeardNext(failed, before, e);
      }
      AlignFetch(stream, pos, kept, rest, n);
      assert Window() == kept;
      SliceJoin(buf[..], start, end, end + n);
      end := end + n;
      if e.Some? {
        SetErr(e.value);
      }
    }

    /** Read until something arrives, without getting stuck with a misbehaving reader. */
    method ReadMore()
      requires Valid() && scanCalled && err.None? && end < buf.Length
      modifies this`end, this`err, this`empties, buf, r
      ensures Valid()
      ensures |r.rest| < |old(r.rest)| || err.Some?
      ensures err.None? ==> empties == 0
      ensures |r.rest| <= |old(r.rest)|
      ensures err.Some? ==> err == Some(EOF) || err == Some(ErrNoProgress) || err.value.Other?
      ensures old(r.Steady()) ==> r.Steady() && Intact()
    {
      hide Aligned, Heard, Stable, Tokens, OnTrack, Source.Steady, Stalls;
      ghost var steady := r.Steady();
      if steady {
        r.SteadyBound();
      }
      var loops := 0;
      while true
        invariant Valid() && err.None? && end < buf.Length && |r.rest| == |old(r.rest)|
        invariant loops <= MAX_CONSECUTIVE_EMPTY_READS
        invariant steady ==> r.Steady() && Stalls(r.plan) < MAX_CONSECUTIVE_EMPTY_READS - loops
        decreases MAX_CONSECUTIVE_EMPTY_READS - loops
      {
        var n, e := Fetch();
        if e.Some? {
          break;
        }
        if n > 0 {
          empties := 0;
          break;
        }
        loops := loops + 1;
        if loops > MAX_CONSECUTIVE_EMPTY_READS {
          if Stable(split) {
            HeardNext(r.failed, before, None);
          }
          SetErr(ErrNoProgress);
          break;
        }
      }
    }

    /** Drop what no token was found in, after the last one. */
    method ShutDown()
      requires Valid() && scanCalled && err.Some?
      requires Stable(split) && Intact() ==> Tokens(split, stream[pos..]) == []
      modifies this`start, this`end, this`pos
      ensures Valid()
      ensures Stable(split) && Intact() ==> found == Tokens(split, stream)
    {
      hide Aligned, Heard, Stable, Tokens, OnTrack;
      AlignLengths(stream, pos, Window(), r.rest);
      AlignAdvance(stream, pos, Window(), r.rest, |Window()|);
      assert Window()[|Window()|..] == [];
      if Stable(split) && Intact() {
        OnTrackEnd(split, found, stream, pos);
      }
      pos := pos + |Window()|;
      start := 0;
      end := 0;
    }

    /** Make room, unless a token is too long, and read into it. */
    method MoreInput() returns (ok: bool)
      requires Valid() && scanCalled && err.None?
      requires Stable(split) && end > start ==> split(Window(), false).token.None?
      modifies this`buf, this`start, this`end, this`err, this`empties, buf, r
      ensures Valid() && (buf == old(buf) || (fresh(buf) && buf.Length <= maxTokenSize)) && |r.rest| <= |old(r.rest)|
      ensures ok ==> (|r.rest| < |old(r.rest)| || err.Some?) && err != Some(ErrTooLong)
      ensures !ok ==> err == Some(ErrTooLong) && (Stable(split) ==> Overlong())
      ensures old(r.Steady()) ==> r.Steady() && (ok ==> Intact())
    {
      hide Aligned, Heard, Stable, Tokens, OnTrack, Source.Steady, Overlong;
      ok := MakeRoom();
      if ok {
        ReadMore();
      }
    }

    /** Advance to the next token. */
    method Scan() returns (out: Scanned)
      requires Valid()
      modifies this, buf, r
      ensures Valid() && (buf == old(buf) || (fresh(buf) && buf.Length <= maxTokenSize))
      ensures Stable(split) && Intact() && out == Token ==> old(pos) <= tokenAt && Located()
      ensures Stable(split) && Waits(split) && Intact() && out == Token ==> tokenAt == old(pos)
      ensures Stable(split) && Waits(split) && err == Some(ErrTooLong) && old(err) != err ==> pos == old(pos)
      ensures out == Token ==> token.Some? && found == old(found) + [token.value]
      ensures out != Token ==> found == old(found)
      ensures maxTokenSize == old(maxTokenSize) && (Stable(split) && out == Token ==> pos > old(pos))
      ensures Stable(split) ==> out != Panic
      ensures Stable(split) && out == End && Err().None? ==> found == Tokens(split, stream)
      ensures Stable(split) && err == Some(ErrTooLong) && old(err) != err ==> out == End && Overlong()
      ensures Stable(split) && old(r.Steady() && Intact()) ==>
                r.Steady() && (Intact() || err == Some(ErrTooLong))
    {
      hide Aligned, Heard, Stable, Tokens, OnTrack, Source.Steady, Overlong;
      if done {
        return End;
      }
      scanCalled := true;
      while true
        invariant Valid() && scanCalled && !done
        invariant buf == old(buf) || (fresh(buf) && buf.Length <= maxTokenSize)
        invariant Stable(split) && Waits(split) ==> pos == old(pos)
        invariant found == old(found) && maxTokenSize == old(maxTokenSize) && (Stable(split) ==> pos >= old(pos))
        invariant err == old(err) || (old(err).None? && err != Some(ErrTooLong))
        invariant Stable(split) && old(r.Steady() && Intact()) ==> r.Steady() && Intact()
        decreases |r.rest|, err.None?
      {
        if end > start || err.Some? {
          var attempt := TrySplit();
          if attempt.Some? {
            return attempt.value;
          }
        }
        if err.Some? {
          ShutDown();
          return End;
        }
        var ok := MoreInput();
        if !ok {
          return End;
        }
      }
    }
  }
}
