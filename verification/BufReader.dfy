/** bufio.Reader: a sliding window over a source that delivers arbitrary chunks. A ghost position
    in the whole stream ties the window to it; the methods say which part of the stream they
    return, whatever the chunks were. */
module BufReader {
  import opened Basics
  import opened Sequences
  import opened Streams

  const MIN_READ_BUFFER_SIZE := 16
  const MAX_CONSECUTIVE_EMPTY_READS := 100

  ghost predicate Lacks(s: seq<byte>, delim: byte) {
    delim !in s
  }

  lemma NothingLacks(delim: byte)
    ensures Lacks([], delim)
  {
  }

  /** A search that skips a prefix without the delimiter finds the first one all the same. */
  lemma SearchOn(window: seq<byte>, s: nat, delim: byte)
    requires s <= |window| && Lacks(window[..s], delim)
    ensures var i := IndexByte(window[s..], delim);
            if i >= 0 then EndsAtFirst(window[..s + i + 1], delim) else Lacks(window, delim)
  {
    var i := IndexByte(window[s..], delim);
    if i >= 0 {
      TakeMore(window, s, i);
      var line := window[..s + i + 1];
      assert line[..s + i] == window[..s + i];
      assert line[s + i] == window[s..][i];
    } else {
      Rejoin(window, s);
    }
  }

  /** The line ends in the delimiter and holds no other. */
  ghost predicate EndsAtFirst(line: seq<byte>, delim: byte) {
    |line| > 0 && line[|line| - 1] == delim && delim !in line[..|line| - 1]
  }

  lemma EndsAtFirstAfter(before: seq<byte>, line: seq<byte>, delim: byte)
    requires EndsAtFirst(line, delim) && delim !in before
    ensures EndsAtFirst(before + line, delim)
  {
    var whole := before + line;
    assert whole[..|whole| - 1] == before + line[..|line| - 1];
  }

  /** A line of the stream from one position to another: through the first delimiter, or all the
      rest when there is none. */
  ghost predicate IsLine(stream: seq<byte>, from: nat, to: nat, delim: byte) {
    && from <= to <= |stream|
    && (EndsAtFirst(stream[from..to], delim) || (to == |stream| && delim !in stream[from..to]))
  }

  /** What ReadBytes returns without a source error depends on the stream alone: neither the
      chunks of the source nor the size of the buffer can change it. */
  lemma LineIsDetermined(stream: seq<byte>, from: nat, to: nat, other: nat, delim: byte)
    requires IsLine(stream, from, to, delim) && IsLine(stream, from, other, delim)
    ensures to == other
  {
    LineNotLonger(stream, from, to, other, delim);
    LineNotLonger(stream, from, other, to, delim);
  }

  lemma LineNotLonger(stream: seq<byte>, from: nat, to: nat, other: nat, delim: byte)
    requires IsLine(stream, from, to, delim) && IsLine(stream, from, other, delim)
    ensures other <= to
  {
    if EndsAtFirst(stream[from..to], delim) {
      assert stream[from..to][to - from - 1] == stream[to - 1] == delim;
      DelimiterOutside(stream, from, other, to - 1, delim);
    }
  }

  lemma DelimiterOutside(stream: seq<byte>, from: nat, to: nat, at: nat, delim: byte)
    requires IsLine(stream, from, to, delim) && from <= at < |stream| && stream[at] == delim
    ensures to <= at + 1
  {
    var line := stream[from..to];
    assert EndsAtFirst(line, delim) ==>
        forall k :: 0 <= k < |line| - 1 ==> line[..|line| - 1][k] == line[k] != delim;
    assert at < to ==> line[at - from] == delim;
  }

  /** Of the errors that a source has reported since before, all are settled but the one at hand. */
  ghost predicate Told(failed: seq<Error>, before: seq<Error>, settled: seq<Error>, err: Option<Error>) {
    failed == before + settled + FromSource(err)
  }

  /** A read reports e; if that is an error, it takes the place of err. */
  lemma ToldMore(failed: seq<Error>, before: seq<Error>, settled: seq<Error>, err: Option<Error>, e: Option<Error>)
    requires Told(failed, before, settled, err)
    ensures if e.Some? then Told(failed + FromSource(e), before, settled + FromSource(err), e)
            else Told(failed + FromSource(e), before, settled, err)
    ensures err.None? ==> settled + FromSource(err) == settled
  {
  }

  /** The error at hand is settled, or is one that no source has reported. */
  lemma ToldAll(failed: seq<Error>, before: seq<Error>, settled: seq<Error>, err: Option<Error>, own: Option<Error>)
    requires Told(failed, before, settled, err) && FromSource(own) == []
    ensures Told(failed, before, settled + FromSource(err), own)
  {
  }

  /** Bytes read past an empty window are the next of the stream. */
  lemma DirectBytes(stream: seq<byte>, pos: nat, rest: seq<byte>, n: nat, bytes: seq<byte>)
    requires Aligned(stream, pos, [], rest) && n <= |rest| && bytes == rest[..n]
    ensures Aligned(stream, pos + n, [], rest[n..]) && pos + n <= |stream| && bytes == stream[pos..pos + n]
    ensures n > 0 ==> bytes[n - 1] == stream[pos + n - 1]
  {
    AlignDirect(stream, pos, rest, n);
  }

  lemma ErrorSeen(failed: seq<Error>, e: Option<Error>)
    requires e.Some? ==> e.value == EOF || e.value.Other?
    ensures e.None? <==> failed + FromSource(e) == failed
  {
    assert |failed + FromSource(e)| == |failed| + |FromSource(e)|;
  }

  lemma NoneFromSource(settled: seq<Error>)
    ensures settled + FromSource(None) == settled
    ensures FromSource(Some(ErrNegativeCount)) == [] && FromSource(Some(ErrNoProgress)) == []
    ensures FromSource(Some(ErrBufferFull)) == []
  {
  }

  class Reader {
    const buf: array<byte>
    const rd: Source
    var r: nat
    var w: nat
    var err: Option<Error>
    var lastByte: int

    ghost const stream: seq<byte>
    ghost var pos: nat

    /** The errors of the source before this reader, and those it has dealt with since. */
    ghost const before: seq<Error>
    ghost var settled: seq<Error>

    ghost predicate Valid()
      reads this, buf, rd
    {
      && r <= w <= buf.Length
      && MIN_READ_BUFFER_SIZE <= buf.Length
      && (err == Some(EOF) ==> rd.rest == [])
      && (err.Some? ==> err.value == EOF || err.value == ErrNoProgress || err.value.Other?)
      && Told(rd.failed, before, settled, err)
      && pos <= |stream|
      && Aligned(stream, pos, Window(), rd.rest)
      && (lastByte >= 0 ==> pos > 0 && stream[pos - 1] == lastByte)
    }

    /** The source delivers and nothing has gone wrong: any chunks, but no failure. */
    ghost predicate Calm()
      reads this, rd
    {
      rd.Steady() && (err.None? || err == Some(EOF))
    }

    /** The last byte taken from the stream can be put back. */
    predicate CanUnread()
      reads this
    {
      lastByte >= 0 && (r > 0 || w == 0)
    }

    /** The buffered bytes. */
    ghost function Window(): (s: seq<byte>)
      requires r <= w <= buf.Length
      reads this, buf
    {
      buf[r..w]
    }

    function Buffered(): (n: nat)
      requires r <= w <= buf.Length
      reads this, buf
      ensures n == |Window()|
    {
      w - r
    }

    constructor (rd: Source, size: int)
      ensures Valid() && fresh(buf) && this.rd == rd
      ensures settled == []
      ensures stream == rd.rest && pos == 0 && Window() == [] && err.None? && !CanUnread()
      ensures buf.Length == if size < MIN_READ_BUFFER_SIZE then MIN_READ_BUFFER_SIZE else size
    {
      buf := new byte[if size < MIN_READ_BUFFER_SIZE then MIN_READ_BUFFER_SIZE else size];
      this.rd := rd;
      r, w, err, lastByte := 0, 0, None, -1;
      stream, pos, before, settled := rd.rest, 0, rd.failed, [];
    }

    /** Slide the window to the front. */
    method Slide()
      requires Valid()
      modifies this`r, this`w, buf
      ensures Valid() && r == 0 && Window() == old(Window())
    {
      hide Aligned, Told, Source.Steady;
      if r > 0 {
        forall i | 0 <= i < w - r {
          buf[i] := buf[r + i];
        }
        w := w - r;
        r := 0;
        assert Window() == old(Window());
      }
    }

    /** One read of the source behind the window. */
    method Fetch() returns (n: nat, e: Option<Error>)
      requires Valid() && r == 0 && w < buf.Length
      modifies this`w, this`err, this`settled, buf, rd
      ensures settled == old(settled) + if e.Some? then FromSource(old(err)) else []
      ensures (e.Some? ==> e.value == EOF || e.value.Other?) && (e.None? <==> rd.failed == old(rd.failed))
      ensures Valid() && n <= |old(rd.rest)| && w == old(w) + n
      ensures Window() == old(Window()) + old(rd.rest)[..n]
      ensures err == if e.Some? then e else old(err)
      ensures old(rd.Steady()) ==> rd.Steady() && (e.None? || e == Some(EOF))
      ensures n == 0 && e.None? && old(rd.Steady()) ==> Stalls(rd.plan) == Stalls(old(rd.plan)) - 1
    {
      hide FromSource, Source.Delivers, Aligned, Told, Source.Steady;
      ghost var kept, rest := Window(), rd.rest;
      ghost var failed := rd.failed;
      n, e := rd.Read(buf, w, buf.Length);
      ToldMore(failed, before, settled, err, e);
      ErrorSeen(failed, e);
      NoneFromSource(settled);
      AlignFetch(stream, pos, kept, rest, n);
      assert buf[0..w] == buf[..w] == kept;
      SliceJoin(buf[..], 0, w, w + n);
      w := w + n;
      if e.Some? {
        settled := settled + FromSource(err);
        err := e;
      }
    }

    /** Slide the window to the front and read once more behind it; empty reads are retried. */
    method Fill()
      requires Valid() && Buffered() < buf.Length
      modifies this, buf, rd
      ensures Valid() && pos == old(pos) && lastByte == old(lastByte)
      ensures r == 0 && old(Buffered()) <= Buffered() && Window()[..old(Buffered())] == old(Window())
      ensures err.Some? || (Buffered() > old(Buffered()) && old(err).None?)
      ensures err == Some(ErrNoProgress) ==> old(err) == err || Buffered() == old(Buffered())
      ensures settled == old(settled)
                + if rd.failed != old(rd.failed) || err == Some(ErrNoProgress) then FromSource(old(err)) else []
      ensures old(Calm()) ==> Calm()
    {
      hide Aligned, Told, Stalls, Source.Steady;
      Slide();
      ghost var calm := Calm();
      if calm {
        rd.SteadyBound();
      }
      for i := MAX_CONSECUTIVE_EMPTY_READS downto 0
        invariant Valid() && r == 0 && Window() == old(Window())
        invariant calm ==> Calm() && Stalls(rd.plan) < i
        invariant pos == old(pos) && lastByte == old(lastByte) && settled == old(settled) && err == old(err)
        invariant rd.failed == old(rd.failed)
      {
        var n, e := Fetch();
        if e.Some? {
          return;
        }
        if n > 0 {
          return;
        }
      }
      ToldAll(rd.failed, before, settled, err, Some(ErrNoProgress));
      settled := settled + FromSource(err);
      err := Some(ErrNoProgress);
    }

    method ReadErr() returns (e: Option<Error>)
      requires Valid()
      modifies this`err, this`settled
      ensures Valid() && e == old(err) && err == None && settled == old(settled) + FromSource(e)
      ensures old(Calm()) ==> Calm()
    {
      ToldAll(rd.failed, before, settled, err, None);
      settled := settled + FromSource(err);
      e := err;
      err := None;
    }

    /** Take k bytes off the front of the window. */
    method Advance(k: nat, last: int)
      requires Valid() && k <= Buffered()
      requires last >= 0 ==> if k == 0 then last == lastByte else last == Window()[k - 1]
      modifies this`r, this`lastByte, this`pos
      ensures Valid() && r == old(r) + k && lastByte == last && pos == old(pos) + k
      ensures old(Window())[..k] == stream[old(pos)..pos] && Window() == old(Window())[k..]
    {
      hide Aligned, Told, Source.Steady;
      AlignAdvance(stream, pos, Window(), rd.rest, k);
      AlignLengths(stream, pos, Window(), rd.rest);
      assert k > 0 ==> stream[pos..pos + k][k - 1] == Window()[k - 1];
      r := r + k;
      pos := pos + k;
      lastByte := last;
    }

    lemma FrontOfWindow(k: nat)
      requires Valid() && k <= Buffered()
      ensures pos + k <= |stream| && buf[r..r + k] == stream[pos..pos + k] == Window()[..k]
    {
      SliceOfSlice(buf[..], r, w, k);
      AlignAdvance(stream, pos, Window(), rd.rest, k);
    }

    /** The loop of Peek. */
    method FillFor(n: nat)
      requires Valid()
      modifies this, buf, rd
      ensures Valid() && pos == old(pos) && lastByte == old(lastByte)
      ensures Buffered() >= n || Buffered() == buf.Length || err.Some?
      ensures settled == old(settled)
      ensures old(Calm()) ==> Calm()
    {
      hide Aligned, Told, Source.Steady;
      while w - r < n && w - r < buf.Length && err.None?
        invariant Valid() && pos == old(pos) && lastByte == old(lastByte) && (old(Calm()) ==> Calm())
        invariant settled == old(settled)
        decreases buf.Length - (w - r), err.None?
      {
        Fill();
      }
    }

    /** The next n bytes of the stream, without consuming them. */
    method Peek(n: int) returns (s: seq<byte>, e: Option<Error>)
      requires Valid()
      modifies this, buf, rd
      ensures Valid() && pos == old(pos)
      ensures n < 0 ==> s == [] && e == Some(ErrNegativeCount)
      ensures settled == old(settled) + FromSource(e)
      ensures n >= 0 ==> |s| <= n && (e.None? <==> |s| == n) && !CanUnread()
      ensures pos + |s| <= |stream| && s == stream[pos..pos + |s|]
      ensures n >= 0 && e == Some(EOF) ==> pos + |s| == |stream|
      ensures old(Calm()) ==> Calm()
      ensures old(Calm()) && n >= 0 ==> e.None? || e == Some(EOF) || e == Some(ErrBufferFull)
      ensures e == Some(ErrBufferFull) <==> n > buf.Length
    {
      hide FromSource, Source.Delivers, Aligned, Told, Source.Steady;
      NoneFromSource(settled);
      if n < 0 {
        return [], Some(ErrNegativeCount);
      }
      lastByte := -1;
      FillFor(n);
      var m;
      m, e := Available(n);
      s := buf[r..r + m];
      FrontOfWindow(m);
    }

    /** How much of n bytes the window has, and why not more. */
    method Available(n: nat) returns (m: nat, e: Option<Error>)
      requires Valid() && (Buffered() >= n || Buffered() == buf.Length || err.Some?)
      modifies this`err, this`settled
      ensures settled == old(settled) + FromSource(e)
      ensures Valid() && m <= Buffered() && m <= n && (e.None? <==> m == n)
      ensures e == Some(EOF) ==> pos + m == |stream|
      ensures e == Some(ErrBufferFull) <==> n > buf.Length
      ensures old(Calm()) ==> Calm() && (e.None? || e == Some(EOF) || e == Some(ErrBufferFull))
    {
      hide Aligned, Told, Source.Steady;
      AlignLengths(stream, pos, Window(), rd.rest);
      if n > buf.Length {
        return Buffered(), Some(ErrBufferFull);
      }
      if Buffered() >= n {
        return n, None;
      }
      m := Buffered();
      e := ReadErr();
      if e.None? {
        e := Some(ErrBufferFull);
      }
    }

    /** Where Discard loses an error: one is pending behind an empty window, and what the next reads
        report takes its place. */
    ghost predicate Forgets(buffered: bool, pending: Option<Error>, n: int, failed: seq<Error>, after: seq<Error>,
                            e: Option<Error>) {
      !buffered && pending.Some? && n > 0 && (after != failed || e == Some(ErrNoProgress))
    }

    /** Skip n bytes of the stream. */
    method Discard(n: int) returns (discarded: nat, e: Option<Error>)
      requires Valid()
      modifies this, buf, rd
      ensures Valid() && pos == old(pos) + discarded
      ensures n < 0 ==> discarded == 0 && e == Some(ErrNegativeCount)
      ensures settled == old(settled)
                + (if Forgets(old(r < w), old(err), n, old(rd.failed), rd.failed, e) then FromSource(old(err)) else [])
                + FromSource(e)
      ensures n >= 0 ==> discarded <= n && (e.None? <==> discarded == n)
      ensures n > 0 ==> !CanUnread()
      ensures 0 <= n <= old(Buffered()) ==> discarded == n && rd.rest == old(rd.rest)
      ensures n >= 0 && e == Some(EOF) ==> pos == |stream|
      ensures old(Calm()) ==> Calm()
      ensures old(Calm()) && n >= 0 ==> e.None? || e == Some(EOF)
    {
      hide Aligned, Told, Source.Steady, FromSource;
      NoneFromSource(old(settled));
      if n < 0 {
        return 0, Some(ErrNegativeCount);
      }
      if n == 0 {
        return 0, None;
      }
      lastByte := -1;
      var remain: nat := n;
      while true
        invariant Valid() && lastByte == -1 && (old(Calm()) ==> Calm())
        invariant 0 < remain <= n && pos == old(pos) + n - remain
        invariant settled == old(settled) && if remain < n then old(err).None? && err.None?
                  else r == old(r) && w == old(w) && err == old(err) && rd.failed == old(rd.failed)
        invariant n > old(Buffered()) || (remain == n && Buffered() == old(Buffered()) && rd.rest == old(rd.rest))
        decreases remain
      {
        var skip := Buffered();
        if skip == 0 {
          Fill();
          skip := Buffered();
        }
        if skip > remain {
          skip := remain;
        }
        Advance(skip, lastByte);
        remain := remain - skip;
        NoneFromSource(settled);
        if remain == 0 {
          return n, None;
        }
        AlignLengths(stream, pos, Window(), rd.rest);
        if err.Some? {
          e := ReadErr();
          return n - remain, e;
        }
      }
    }

    /** What Read takes: the rest of the window, or what one read of the source delivers, into p
        itself when it is as large as the buffer. */
    ghost function Taken(size: nat): (n: nat)
      requires r <= w <= buf.Length
      reads this, rd
    {
      if r < w then Min(size, w - r)
      else if size == 0 || err.Some? then 0
      else Min(size, rd.Delivers(if size >= buf.Length then size else buf.Length))
    }

    /** Read into p: at most one read of the source, the bytes in stream order. Without an error, no
        bytes means that the source gave none. */
    method Read(p: array<byte>) returns (n: nat, e: Option<Error>)
      requires Valid() && p != buf
      modifies this, buf, rd, p
      ensures Valid() && n <= p.Length && pos == old(pos) + n
      ensures p[..n] == stream[old(pos)..pos] && (n > 0 ==> CanUnread())
      ensures n == old(Taken(p.Length)) && |old(rd.plan)| <= |rd.plan| + 1
      ensures old(Window()) != [] ==> n == Min(p.Length, |old(Window())|) && e.None?
      ensures old(Window()) == [] && old(err).Some? ==> e == old(err)
      ensures settled == old(settled) + FromSource(e)
      ensures p.Length > 0 && n == 0 && e.None? ==> |rd.plan| < |old(rd.plan)|
      ensures old(Calm()) && p.Length > 0 && old(pos) < |stream| && Stalls(old(rd.plan)) == 0 ==> n > 0
      ensures e == Some(EOF) ==> pos == |stream|
      ensures old(Calm()) ==> Calm()
      ensures old(Calm()) ==> e.None? || e == Some(EOF)
    {
      hide Aligned, Told, Source.Steady, Stalls;
      AlignLengths(stream, pos, Window(), rd.rest);
      if p.Length == 0 {
        if Buffered() > 0 {
          return 0, None;
        }
        e := ReadErr();
        return 0, e;
      }
      if r == w {
        if err.Some? {
          e := ReadErr();
          return 0, e;
        }
        if p.Length >= buf.Length {
          n, e := ReadDirect(p);
          return;
        }
        n, e := Refill();
        if n == 0 {
          return;
        }
      }
      n := TakeFront(p);
      e := None;
    }

    /** Copy as much of the window as p takes. */
    method TakeFront(p: array<byte>) returns (n: nat)
      requires Valid() && p != buf && r < w && p.Length > 0
      modifies this`r, this`lastByte, this`pos, p
      ensures Valid() && n == Min(p.Length, old(w - r)) && r == old(r) + n && pos == old(pos) + n
      ensures p[..n] == stream[old(pos)..pos] && CanUnread()
    {
      hide Aligned, Told, Source.Steady;
      n := Min(p.Length, w - r);
      FrontOfWindow(n);
      CopyTo(p, buf[r..r + n]);
      Advance(n, buf[r + n - 1]);
    }

    /** The branch of Read for a large p: the source writes into p itself. */
    method ReadDirect(p: array<byte>) returns (n: nat, e: Option<Error>)
      requires Valid() && p != buf && r == w && err.None? && buf.Length <= p.Length
      modifies this, rd, p
      ensures Valid() && n <= p.Length && pos == old(pos) + n
      ensures p[..n] == stream[old(pos)..pos] && (n > 0 ==> CanUnread())
      ensures n == old(rd.Delivers(p.Length)) && |old(rd.plan)| <= |rd.plan| + 1
      ensures settled == old(settled) + FromSource(e)
      ensures n == 0 && e.None? ==> |rd.plan| < |old(rd.plan)|
      ensures e == Some(EOF) ==> pos == |stream|
      ensures old(Calm()) ==> Calm()
      ensures old(Calm()) ==> e.None? || e == Some(EOF)
    {
      hide FromSource, Source.Delivers, Aligned, Told, Source.Steady, Stalls;
      n := ReadInto(p);
      AlignLengths(stream, pos, [], rd.rest);
      e := ReadErr();
    }

    /** One read of the source past the empty window; its error is kept. */
    method ReadInto(p: array<byte>) returns (n: nat)
      requires Valid() && p != buf && r == w && err.None? && buf.Length <= p.Length
      modifies this`pos, this`lastByte, this`err, rd, p
      ensures Valid() && Window() == [] && n <= p.Length && pos == old(pos) + n
      ensures p[..n] == stream[old(pos)..pos] && (n > 0 ==> CanUnread())
      ensures n == old(rd.Delivers(p.Length)) && |old(rd.plan)| <= |rd.plan| + 1
      ensures n == 0 && err.None? ==> |rd.plan| < |old(rd.plan)|
      ensures old(Calm()) ==> Calm()
    {
      hide FromSource, Source.Delivers, Aligned, Told, Source.Steady, Stalls;
      ghost var rest, failed := rd.rest, rd.failed;
      assert Window() == [];
      n, err := rd.Read(p, 0, p.Length);
      ToldMore(failed, before, settled, None, err);
      assert p[..n] == p[0..0 + n];
      DirectBytes(stream, pos, rest, n, p[..n]);
      assert Window() == [];
      pos := pos + n;
      if n > 0 {
        lastByte := p[n - 1];
      }
    }

    /** The branch of Read for an empty window: one read of the source, not Fill's loop. */
    method Refill() returns (n: nat, e: Option<Error>)
      requires Valid() && r == w && err.None?
      modifies this`r, this`w, this`err, this`settled, buf, rd
      ensures Valid() && n == Buffered() && settled == old(settled) + FromSource(e)
      ensures n == old(rd.Delivers(buf.Length)) && |old(rd.plan)| <= |rd.plan| + 1
      ensures n > 0 ==> e.None?
      ensures n == 0 && e.None? ==> |rd.plan| < |old(rd.plan)|
      ensures e == Some(EOF) ==> pos == |stream|
      ensures old(Calm()) ==> Calm()
      ensures old(Calm()) ==> e.None? || e == Some(EOF)
    {
      hide FromSource, Source.Delivers, Aligned, Told, Source.Steady;
      ghost var rest := rd.rest;
      assert Window() == [];
      r, w := 0, 0;
      ghost var failed := rd.failed;
      n, err := rd.Read(buf, 0, buf.Length);
      ToldMore(failed, before, settled, None, err);
      AlignFetch(stream, pos, [], rest, n);
      w := w + n;
      assert Window() == [] + rest[..n];
      AlignLengths(stream, pos, Window(), rd.rest);
      e := None;
      if n == 0 {
        e := ReadErr();
      }
    }

    method ReadByte() returns (c: byte, e: Option<Error>)
      requires Valid()
      modifies this, buf, rd
      ensures Valid()
      ensures e.None? ==> pos == old(pos) + 1 && c == stream[old(pos)] && CanUnread()
      ensures e.Some? ==> c == 0 && pos == old(pos)
      ensures settled == old(settled) + FromSource(e)
      ensures e == Some(EOF) ==> pos == |stream|
      ensures old(Calm()) ==> Calm()
      ensures old(Calm()) ==> e.None? || e == Some(EOF)
    {
      hide Aligned, Told, Source.Steady;
      while r == w
        invariant Valid() && pos == old(pos) && (old(Calm()) ==> Calm()) && settled == old(settled)
        decreases r == w, err.None?
      {
        AlignLengths(stream, pos, Window(), rd.rest);
        if err.Some? {
          e := ReadErr();
          return 0, e;
        }
        Fill();
      }
      c := buf[r];
      assert c == Window()[0];
      Advance(1, c);
      e := None;
    }

    /** Take back the last byte read: the inverse of ReadByte. It succeeds exactly when a byte is
        remembered and the window leaves room in front of it. */
    method UnreadByte() returns (ok: bool)
      requires Valid()
      modifies this, buf
      ensures Valid()
      ensures ok == old(CanUnread()) && !(ok && CanUnread())
      ensures ok ==> pos == old(pos) - 1 && Window() == [stream[pos]] + old(Window())
      ensures !ok ==> pos == old(pos) && Window() == old(Window())
    {
      hide Aligned, Told, Source.Steady;
      if lastByte < 0 || (r == 0 && w > 0) {
        return false;
      }
      ghost var window := Window();
      AlignTakeBack(stream, pos, window, rd.rest);
      if r > 0 {
        r := r - 1;
      } else {
        w := 1;
      }
      buf[r] := lastByte;
      assert buf[r + 1..w] == window;
      assert Window() == [lastByte] + window;
      pos := pos - 1;
      lastByte := -1;
      ok := true;
    }

    /** The search loop of ReadSlice: how much of the window to take, after filling it as far as
        the delimiter, an error or the capacity. */
    method Search(delim: byte) returns (k: nat, e: Option<Error>)
      requires Valid()
      modifies this, buf, rd
      ensures Valid() && pos == old(pos) && lastByte == old(lastByte) && k <= Buffered() && (k > 0 || r == w)
      ensures if e.None? then EndsAtFirst(Window()[..k], delim) else k == Buffered() && Lacks(Window(), delim)
      ensures e == Some(ErrBufferFull) ==> k == buf.Length
      ensures settled == old(settled) + FromSource(e)
      ensures e == Some(EOF) ==> rd.rest == []
      ensures old(Calm()) ==> Calm()
      ensures old(Calm()) ==> e.None? || e == Some(EOF) || e == Some(ErrBufferFull)
    {
      hide FromSource, Source.Delivers, Aligned, Told, Source.Steady, EndsAtFirst, Lacks, IndexByte;
      NoneFromSource(settled);
      var s: nat := 0;
      assert Lacks([], delim) by {
        NothingLacks(delim);
      }
      assert Window()[..0] == [];
      while true
        invariant Valid() && s <= Buffered() && Lacks(Window()[..s], delim)
        invariant pos == old(pos) && lastByte == old(lastByte) && (old(Calm()) ==> Calm())
        invariant settled == old(settled)
        decreases buf.Length - Buffered(), err.None?
      {
        assert buf[r + s..w] == Window()[s..] by {
          SliceOfSlice(buf[..], r, w, s);
        }
        var i := IndexByte(buf[r + s..w], delim);
        SearchOn(Window(), s, delim);
        if i >= 0 {
          return s + i + 1, None;
        }
        if err.Some? || Buffered() >= buf.Length {
          e := SearchEnds();
          return w - r, e;
        }
        s := w - r;
        Fill();
      }
    }

    /** Without a delimiter in the window: the pending error, or a full buffer. */
    method SearchEnds() returns (e: Option<Error>)
      requires Valid() && (err.Some? || Buffered() >= buf.Length)
      modifies this`err, this`settled
      ensures Valid() && e.Some? && settled == old(settled) + FromSource(e)
      ensures e == Some(ErrBufferFull) ==> Buffered() == buf.Length
      ensures e == Some(EOF) ==> rd.rest == []
      ensures old(Calm()) ==> Calm() && (e == Some(EOF) || e == Some(ErrBufferFull))
    {
      hide FromSource, Aligned, Told, Source.Steady;
      NoneFromSource(settled);
      if err.Some? {
        e := ReadErr();
        return;
      }
      return Some(ErrBufferFull);
    }

    /** Read up to and including the first delimiter, as far as the buffer reaches. */
    method ReadSlice(delim: byte) returns (line: seq<byte>, e: Option<Error>)
      requires Valid()
      modifies this, buf, rd
      ensures Valid() && pos == old(pos) + |line| && line == stream[old(pos)..pos]
      ensures r > 0 || w == 0
      ensures if line == [] then lastByte == old(lastByte) else lastByte >= 0
      ensures if e.None? then EndsAtFirst(line, delim) else delim !in line
      ensures e == Some(ErrBufferFull) ==> |line| == buf.Length
      ensures settled == old(settled) + FromSource(e)
      ensures e == Some(EOF) ==> pos == |stream|
      ensures old(Calm()) ==> Calm()
      ensures old(Calm()) ==> e.None? || e == Some(EOF) || e == Some(ErrBufferFull)
    {
      hide Aligned, Told, Source.Steady, EndsAtFirst;
      var k;
      k, e := Search(delim);
      line := buf[r..r + k];
      FrontOfWindow(k);
      AlignLengths(stream, pos, Window(), rd.rest);
      Advance(k, if k > 0 then line[k - 1] as int else lastByte);
    }

    /** Gather full buffers until the delimiter or an error: the pieces and the last fragment. */
    method CollectFragments(delim: byte)
      returns (full: seq<seq<byte>>, frag: seq<byte>, total: nat, e: Option<Error>)
      requires Valid()
      modifies this, buf, rd
      ensures Valid() && pos == old(pos) + total && total == |Flatten(full)| + |frag|
      ensures Flatten(full) + frag == stream[old(pos)..pos] && (total > 0 ==> CanUnread())
      ensures delim !in Flatten(full)
      ensures if e.None? then EndsAtFirst(frag, delim) else delim !in frag
      ensures e != Some(ErrBufferFull) && settled == old(settled) + FromSource(e)
      ensures e == Some(EOF) ==> pos == |stream|
      ensures old(Calm()) ==> Calm()
      ensures old(Calm()) ==> e.None? || e == Some(EOF)
    {
      hide Aligned, Told, Source.Steady, EndsAtFirst;
      full, total, e := [], 0, None;
      ghost var flat: seq<byte> := [];
      while true
        invariant Valid() && e.None? && pos == old(pos) + total && total == |flat| && settled == old(settled)
        invariant (old(Calm()) ==> Calm()) && (total > 0 ==> lastByte >= 0)
        invariant flat == Flatten(full) && flat == stream[old(pos)..pos] && delim !in flat
        decreases |stream| - pos
      {
        ghost var from := pos;
        var e1;
        frag, e1 := ReadSlice(delim);
        SliceJoin(stream, old(pos), from, pos);
        if e1.None? {
          break;
        }
        if e1 != Some(ErrBufferFull) {
          e := e1;
          break;
        }
        FlattenSnoc(full, frag);
        full := full + [frag];
        flat := flat + frag;
        total := total + |frag|;
      }
      total := total + |frag|;
    }

    /** Read up to and including the first delimiter; an error means there is none in what is
        returned. */
    method ReadBytes(delim: byte) returns (line: seq<byte>, e: Option<Error>)
      requires Valid()
      modifies this, buf, rd
      ensures Valid() && pos == old(pos) + |line| && line == stream[old(pos)..pos] && (line != [] ==> CanUnread())
      ensures if e.None? then EndsAtFirst(line, delim) else delim !in line
      ensures settled == old(settled) + FromSource(e)
      ensures e == Some(EOF) ==> pos == |stream|
      ensures old(Calm()) ==> Calm()
      ensures old(Calm()) ==> IsLine(stream, old(pos), pos, delim)
    {
      hide Aligned, Told, Source.Steady, EndsAtFirst;
      var full, frag, n;
      full, frag, n, e := CollectFragments(delim);
      line := CopyFragments(full, frag, n);
      if e.None? {
        EndsAtFirstAfter(Flatten(full), frag, delim);
      }
    }

    /** The copying half of ReadBytes: the pieces and the fragment in one new buffer. */
    static method CopyFragments(full: seq<seq<byte>>, frag: seq<byte>, n: nat) returns (line: seq<byte>)
      requires n == |Flatten(full)| + |frag|
      ensures line == Flatten(full) + frag
    {
      var out := new byte[n];
      var at: nat := 0;
      for i := 0 to |full|
        invariant at == |Flatten(full[..i])| && at <= n - |frag|
        invariant out[..at] == Flatten(full[..i])
      {
        FlattenSnoc(full[..i], full[i]);
        assert full[..i + 1] == full[..i] + [full[i]];
        FlattenPrefix(full, i + 1);
        CopyAt(out, at, full[i]);
        at := at + |full[i]|;
      }
      assert full[..|full|] == full;
      CopyAt(out, at, frag);
      line := out[..];
      assert line == out[..n];
    }

    /** copy(out, piece) */
    static method CopyTo(out: array<byte>, piece: seq<byte>)
      requires |piece| <= out.Length
      modifies out
      ensures out[..|piece|] == piece
    {
      forall k | 0 <= k < |piece| {
        out[k] := piece[k];
      }
    }
  }

  /** Read a source to its end through Read alone, size bytes at a time. */
  method ReadAll(rd: Source, bufSize: int, size: nat) returns (text: seq<byte>)
    requires rd.Steady() && size > 0
    modifies rd
    ensures text == old(rd.rest)
  {
    hide Aligned, Told, Source.Steady, Stalls;
    var b := new Reader(rd, bufSize);
    var p := new byte[size];
    text := [];
    while true
      invariant b.Valid() && b.Calm() && b.stream == old(rd.rest) && b.rd == rd
      invariant fresh(b) && fresh(b.buf) && fresh(p) && p != b.buf && p.Length == size
      invariant text == b.stream[..b.pos]
      decreases |b.stream| - b.pos, |rd.plan|
    {
      label Before:
      var n, e := b.Read(p);
      assert b.stream[..b.pos] == b.stream[..old@Before(b.pos)] + b.stream[old@Before(b.pos)..b.pos];
      text := text + p[..n];
      if e.Some? {
        assert b.stream[..b.pos] == b.stream;
        return;
      }
    }
  }
}
