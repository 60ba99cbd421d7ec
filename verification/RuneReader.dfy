/** fmt's readRune: decode runes from a reader that has no push-back of its own. Bytes read too
    far, because the UTF-8 was ill-formed, wait in a small buffer for the next call. */
module RuneReader {
  import opened Basics
  import opened Sequences
  import opened Streams
  import opened Utf8

  /** Only the last byte held back can begin a rune. */
  ghost predicate Leftovers(held: seq<byte>) {
    |held| < UTF_MAX && forall i :: 0 <= i < |held| - 1 ==> IsContinuation(held[i])
  }

  /** An error is the last that the source has reported. */
  predicate IsLast(failed: seq<Error>, e: Option<Error>) {
    e.Some? ==> failed != [] && failed[|failed| - 1] == e.value
  }

  /** ^r on the runes of the source. */
  function Flip(r: int): (f: int)
    ensures f < 0 <==> r >= 0
  {
    -1 - r
  }

  ghost predicate OnTrack(runes: seq<int>, stream: seq<byte>, pos: nat)
    requires pos <= |stream|
  {
    runes + DecodeAll(stream[pos..]) == DecodeAll(stream)
  }

  lemma OnTrackRune(runes: seq<int>, stream: seq<byte>, pos: nat)
    requires pos < |stream| && OnTrack(runes, stream, pos)
    ensures var d := DecodeRune(stream[pos..]);
            pos + d.size <= |stream| && OnTrack(runes + [d.rune], stream, pos + d.size)
  {
    var ahead := stream[pos..];
    var d := DecodeRune(ahead);
    assert ahead[d.size..] == stream[pos + d.size..];
    Assoc(runes, [d.rune], DecodeAll(ahead[d.size..]));
  }

  lemma OnTrackEnd(runes: seq<int>, stream: seq<byte>)
    requires OnTrack(runes, stream, |stream|)
    ensures runes == DecodeAll(stream)
  {
    assert stream[|stream|..] == [];
  }

  lemma LeftoversTail(held: seq<byte>)
    requires Leftovers(held)
    ensures held != [] ==> Leftovers(held[1..]) && (held[1..] != [] ==> IsContinuation(held[0]))
  {
  }

  lemma DecodeAscii(p: seq<byte>)
    requires p != [] && p[0] < RUNE_SELF
    ensures DecodeRune(p) == Decoded(p[0], 1)
  {
  }

  /** Push back what was read too far. */
  lemma AlignPutBack(stream: seq<byte>, pos: nat, read: seq<byte>, rest: seq<byte>, k: nat)
    requires k <= |read| <= pos && pos <= |stream|
    requires Aligned(stream, pos, [], rest) && stream[pos - |read|..pos] == read
    ensures Aligned(stream, pos - |read| + k, read[k..], rest)
  {
  }

  class ReadRuner {
    const reader: Source
    const buf: array<byte>
    const pendBuf: array<byte>
    var pending: nat
    var peekRune: int

    ghost const stream: seq<byte>
    ghost var pos: nat
    /** The runes decoded so far, and whether a failing read has lost bytes. */
    ghost var runes: seq<int>
    ghost var lossy: bool

    ghost predicate Valid()
      reads this, reader, pendBuf
    {
      Layout() && Leftovers(Held()) && Remembers() && (!lossy ==> OnTrack(runes, stream, pos))
    }

    /** The last rune read; zero, which no one has read, before the first. */
    ghost function LastRune(): (r: int)
      reads this
    {
      if runes == [] then 0 else runes[|runes| - 1]
    }

    /** peekRune holds the last rune, flipped unless it was put back. */
    ghost predicate Remembers()
      reads this
    {
      LastRune() >= 0 && (peekRune == LastRune() || peekRune == Flip(LastRune()))
    }

    ghost predicate Layout()
      reads this, reader, pendBuf
    {
      && buf.Length == UTF_MAX && pendBuf.Length == UTF_MAX && buf != pendBuf
      && pending < UTF_MAX && pos <= |stream|
      && Aligned(stream, pos, Held(), reader.rest)
    }

    ghost function Held(): (s: seq<byte>)
      requires pending <= pendBuf.Length
      reads this, pendBuf
    {
      pendBuf[..pending]
    }

    constructor (reader: Source)
      ensures Valid() && fresh(buf) && fresh(pendBuf) && this.reader == reader
      ensures stream == reader.rest && pos == 0 && runes == [] && !lossy && peekRune < 0
    {
      this.reader := reader;
      buf := new byte[UTF_MAX];
      pendBuf := new byte[UTF_MAX];
      pending, peekRune := 0, -1;
      stream, pos, runes, lossy := reader.rest, 0, [], false;
      new;
      assert stream[0..] == stream;
    }

    /** io.ReadFull into the first byte of pendBuf. */
    method ReadFull() returns (n: nat, e: Option<Error>)
      requires Layout() && pending == 0
      modifies pendBuf, reader
      ensures n <= 1 && n <= |old(reader.rest)| && reader.rest == old(reader.rest)[n..]
      ensures (e.None? <==> n == 1) && IsLast(reader.failed, e)
      ensures n == 1 ==> pendBuf[0] == old(reader.rest)[0]
      ensures e == Some(EOF) ==> reader.rest == []
      ensures old(reader.Steady()) ==> reader.Steady() && (e.None? || e == Some(EOF))
    {
      hide Aligned, Source.Steady, Stalls;
      n, e := 0, None;
      while n < 1 && e.None?
        invariant n <= 1 && n <= |old(reader.rest)| && reader.rest == old(reader.rest)[n..]
        invariant n == 1 ==> pendBuf[0] == old(reader.rest)[0]
        invariant IsLast(reader.failed, e)
        invariant e == Some(EOF) ==> reader.rest == []
        invariant old(reader.Steady()) ==> reader.Steady() && (e.None? || e == Some(EOF))
        decreases n == 0 && e.None?, |reader.plan|
      {
        ghost var rest := reader.rest;
        n, e := reader.Read(pendBuf, 0, 1);
        assert n == 1 ==> pendBuf[0..1][0] == rest[0];
      }
      if n >= 1 {
        e := None;
      }
    }

    /** The next byte, which may be left over from ill-formed UTF-8. */
    method ReadByte() returns (b: byte, e: Option<Error>)
      requires Layout()
      modifies this`pending, this`pos, pendBuf, reader
      ensures Layout()
      ensures e.None? ==> old(pos) < |stream| && b == stream[old(pos)] && pos == old(pos) + 1
      ensures old(Held()) != [] ==> e.None? && Held() == old(Held())[1..] && b == old(Held())[0]
      ensures old(Held()) == [] ==> Held() == []
      ensures IsLast(reader.failed, e)
      ensures e.Some? ==> pos == old(pos) && Held() == old(Held())
      ensures e == Some(EOF) ==> pos == |stream|
      ensures old(reader.Steady()) ==> reader.Steady() && (e.None? || e == Some(EOF))
    {
      hide Aligned, Source.Steady;
      AlignLengths(stream, pos, Held(), reader.rest);
      ghost var held, rest := Held(), reader.rest;
      if pending > 0 {
        b := pendBuf[0];
        forall i | 0 <= i < UTF_MAX - 1 {
          pendBuf[i] := pendBuf[i + 1];
        }
        pending := pending - 1;
        AlignAdvance(stream, pos, held, rest, 1);
        assert Held() == held[1..];
        assert stream[pos..pos + 1][0] == held[..1][0];
        pos := pos + 1;
        return b, None;
      }
      var n;
      n, e := ReadFull();
      if n != 1 {
        return 0, e;
      }
      AlignDirect(stream, pos, rest, 1);
      assert stream[pos..pos + 1][0] == rest[..1][0];
      pos := pos + 1;
      return pendBuf[0], e;
    }

    /** One more byte behind the n in buf. */
    method GatherOne(n: nat) returns (e: Option<Error>)
      requires Layout() && Held() == [] && 1 <= n < UTF_MAX && n <= pos && buf[..n] == stream[pos - n..pos]
      modifies this`pending, this`pos, buf, pendBuf, reader
      ensures Layout() && Held() == [] && buf[..n] == old(buf[..n])
      ensures e.None? ==> pos == old(pos) + 1 && buf[..n + 1] == stream[pos - (n + 1)..pos]
      ensures e.Some? ==> pos == old(pos)
      ensures IsLast(reader.failed, e)
      ensures e == Some(EOF) ==> pos == |stream|
      ensures old(reader.Steady()) ==> reader.Steady() && (e.None? || e == Some(EOF))
    {
      hide Aligned, Source.Steady, IsLast;
      ghost var before := buf[..n];
      var b;
      b, e := ReadByte();
      if e.None? {
        buf[n] := b;
        SliceJoin(stream, pos - 1 - n, pos - 1, pos);
        assert stream[pos - 1..pos] == [b];
        assert buf[..n + 1] == before + [b];
      }
    }

    /** Collect bytes into buf until they hold a full rune or the input ends. */
    method Gather() returns (n: nat, e: Option<Error>)
      requires Layout() && Leftovers(Held()) && buf[0] >= RUNE_SELF
      requires 0 < pos && buf[0] == stream[pos - 1]
      requires Held() != [] ==> IsContinuation(buf[0])
      modifies this`pending, this`pos, buf, pendBuf, reader
      ensures Layout() && Leftovers(Held())
      ensures 1 <= n <= UTF_MAX && pos == old(pos) + n - 1
      ensures n <= pos && buf[..n] == stream[pos - n..pos]
      ensures e.None? ==> FullRune(buf[..n]) || pos == |stream|
      ensures e.None? && n > 1 ==> Held() == [] && forall i :: 0 < i < n - 1 ==> IsContinuation(buf[i])
      ensures e != Some(EOF) && IsLast(reader.failed, e)
      ensures old(reader.Steady()) ==> reader.Steady() && e.None?
    {
      hide Aligned, Source.Steady, FullRune;
      n, e := 1, None;
      assert buf[..1] == stream[pos - 1..pos];
      while !FullRune(buf[..n])
        invariant Layout() && Leftovers(Held())
        invariant 1 <= n <= UTF_MAX && pos == old(pos) + n - 1
        invariant n <= pos && buf[..n] == stream[pos - n..pos]
        invariant n == 1 ==> buf[0] == old(buf[0]) && Held() == old(Held())
        invariant n > 1 ==> Held() == []
        invariant forall i :: 0 < i < n - 1 ==> IsContinuation(buf[i])
        invariant e.None? && (old(reader.Steady()) ==> reader.Steady())
        decreases UTF_MAX - n
      {
        NotFullShape(buf[..n]);
        assert buf[..n][0] == buf[0];
        assert forall i :: 0 < i < n ==> IsContinuation(buf[..n][i]);
        ghost var before := buf[..n];
        e := GatherOne(n);
        assert forall i :: 0 < i < n ==> buf[i] == before[i];
        if e.Some? {
          if e == Some(EOF) {
            e := None;
          }
          return;
        }
        n := n + 1;
      }
    }

    /** The next rune of the input. */
    method ReadRune() returns (rr: int, size: int, e: Option<Error>)
      requires Valid()
      modifies this, buf, pendBuf, reader
      ensures Valid()
      ensures old(peekRune) >= 0 ==>
          rr == LastRune() && size == RuneLen(rr) && e.None? && peekRune == Flip(rr)
          && pos == old(pos) && runes == old(runes) && lossy == old(lossy)
      ensures old(peekRune) < 0 && e.None? ==>
          && old(pos) < |stream| && size >= 0 && Decoded(rr, size) == DecodeRune(stream[old(pos)..])
          && pos == old(pos) + size && peekRune == Flip(rr)
          && runes == old(runes) + [rr] && lossy == old(lossy)
      ensures e.Some? ==> peekRune == old(peekRune) && runes == old(runes) && lossy == (old(lossy) || pos != old(pos))
      ensures e == Some(EOF) ==> pos == old(pos) == |stream| && lossy == old(lossy)
      ensures IsLast(reader.failed, e)
      ensures e == Some(EOF) && !lossy ==> runes == DecodeAll(stream)
      ensures old(reader.Steady()) ==> reader.Steady() && (e.None? || e == Some(EOF)) && lossy == old(lossy)
    {
      hide Aligned, Source.Steady, OnTrack, Leftovers, DecodeRune, DecodeAll;
      if peekRune >= 0 {
        rr := peekRune;
        peekRune := Flip(peekRune);
        return rr, RuneLen(rr), None;
      }
      ghost var from, lost := pos, false;
      rr, size, e, lost := ReadNew();
      lossy := lossy || lost;
      if e.Some? {
        if e == Some(EOF) && !lossy {
          OnTrackEnd(runes, stream);
        }
        return;
      }
      DecodedRange(stream[from..]);
      if !lossy {
        OnTrackRune(runes, stream, from);
      }
      runes := runes + [rr];
      peekRune := Flip(rr);
    }

    /** The part of ReadRune that reads: lost says that an error has cost bytes. */
    method ReadNew() returns (rr: int, size: int, e: Option<Error>, ghost lost: bool)
      requires Layout() && Leftovers(Held())
      modifies this`pending, this`pos, buf, pendBuf, reader
      ensures Layout() && Leftovers(Held())
      ensures e.None? ==>
          && old(pos) < |stream| && size >= 0 && Decoded(rr, size) == DecodeRune(stream[old(pos)..])
          && pos == old(pos) + size
      ensures lost <==> e.Some? && pos != old(pos)
      ensures IsLast(reader.failed, e)
      ensures lost ==> e != Some(EOF)
      ensures e == Some(EOF) ==> pos == |stream|
      ensures old(reader.Steady()) ==> reader.Steady() && (e.None? || e == Some(EOF))
    {
      hide Aligned, Source.Steady, OnTrack, FullRune, DecodeRune, DecodeAll;
      rr, size, lost := 0, 0, false;
      ghost var from := pos;
      var b;
      b, e := ReadByte();
      buf[0] := b;
      LeftoversTail(old(Held()));
      if e.Some? {
        return;
      }
      if buf[0] < RUNE_SELF {
        DecodeAscii(stream[from..]);
        rr, size := buf[0], 1;
      } else {
        var n;
        n, e := Gather();
        if e.Some? {
          lost := true;
          return;
        }
        rr, size := Decode(n);
      }
    }

    /** Decode the n bytes gathered, and put back those behind the rune. */
    method Decode(n: nat) returns (rr: int, size: nat)
      requires Layout() && Leftovers(Held())
      requires 1 <= n <= UTF_MAX && n <= pos && buf[..n] == stream[pos - n..pos]
      requires FullRune(buf[..n]) || pos == |stream|
      requires n > 1 ==> Held() == [] && forall i :: 0 < i < n - 1 ==> IsContinuation(buf[i])
      modifies this`pending, this`pos, pendBuf
      ensures Layout() && Leftovers(Held())
      ensures old(pos) - n < |stream| && Decoded(rr, size) == DecodeRune(stream[old(pos) - n..])
      ensures pos == old(pos) - n + size
    {
      hide Aligned, FullRune, DecodeRune, SecondByte;
      ghost var ahead := stream[pos - n..];
      assert ahead == buf[..n] + stream[pos..];
      if FullRune(buf[..n]) {
        DecodeFull(buf[..n], stream[pos..]);
      } else {
        assert ahead == buf[..n];
      }
      var d := DecodeRune(buf[..n]);
      rr, size := d.rune, d.size;
      if size < n {
        PutBack(size, n);
      }
    }

    /** Save the bytes of buf from size to n for the next call. */
    method PutBack(size: nat, n: nat)
      requires Layout() && Held() == []
      requires 1 <= size <= n <= UTF_MAX && n <= pos && buf[..n] == stream[pos - n..pos]
      requires forall i :: 0 < i < n - 1 ==> IsContinuation(buf[i])
      modifies this`pending, this`pos, pendBuf
      ensures Layout() && Leftovers(Held()) && pos == old(pos) - n + size
    {
      hide Aligned;
      AlignPutBack(stream, pos, buf[..n], reader.rest, size);
      SliceOfSlice(buf[..], 0, n, size);
      ghost var more := buf[..n][size..];
      forall i | 0 <= i < n - size {
        pendBuf[pending + i] := buf[size + i];
      }
      pending := pending + n - size;
      assert Held() == more;
      pos := pos - n + size;
    }

    /** The next ReadRune returns the last rune again, unless it was put back before. */
    method UnreadRune() returns (ok: bool)
      requires Valid()
      modifies this`peekRune
      ensures Valid()
      ensures ok <==> old(peekRune) < 0
      ensures peekRune == LastRune()
    {
      if peekRune >= 0 {
        return false;
      }
      peekRune := Flip(peekRune);
      return true;
    }
  }

  /** An error behind the first byte of C3 A9 costs that byte: what can still be read is U+FFFD, and
      the text had one rune, U+00E9. */
  lemma LostByte()
    ensures DecodeAll([0xC3, 0xA9]) == [0xE9] && DecodeAll([0xC3, 0xA9][1..]) == [RUNE_ERROR]
    ensures !OnTrack([], [0xC3, 0xA9], 1)
  {
    var text: seq<byte> := [0xC3, 0xA9];
    assert DecodeRune(text) == Decoded(0xE9, 2) && DecodeRune([0xA9]) == Decoded(RUNE_ERROR, 1);
    assert text[1..] == [0xA9] && text[2..] == [] && text[1..][1..] == [];
    hide DecodeRune;
    assert DecodeAll([]) == [];
    assert DecodeAll(text) == [0xE9] + DecodeAll(text[2..]);
    assert DecodeAll([0xA9]) == [RUNE_ERROR] + DecodeAll([0xA9][1..]);
    var none: seq<int> := [];
    assert (none + DecodeAll(text[1..]))[0] == RUNE_ERROR && DecodeAll(text)[0] == 0xE9;
  }

  /** The runes of a stream, read to its end. */
  method AllRunes(reader: Source) returns (rs: seq<int>)
    requires reader.Steady()
    modifies reader
    ensures rs == DecodeAll(old(reader.rest))
  {
    hide DecodeRune, DecodeAll, Source.Steady, Aligned, OnTrack, Leftovers;
    var r := new ReadRuner(reader);
    rs := [];
    while true
      invariant r.Valid() && r.reader == reader && reader.Steady() && fresh(r) && fresh(r.buf) && fresh(r.pendBuf)
      invariant r.stream == old(reader.rest) && r.runes == rs && !r.lossy && r.peekRune < 0
      decreases |r.stream| - r.pos
    {
      ghost var ahead := r.stream[r.pos..];
      var rr, size, e := r.ReadRune();
      if e.Some? {
        return;
      }
      DecodedRange(ahead);
      rs := rs + [rr];
    }
  }

  /** A rune put back is read again, and the stream does not move. It is the last rune read exactly
      when there is one: a fresh reader hands out a zero that is not in its input. */
  method Reread(r: ReadRuner) returns (rr: int, size: int)
    requires r.Valid()
    modifies r, r.buf, r.pendBuf, r.reader
    ensures r.Valid() && r.pos == old(r.pos) && r.runes == old(r.runes)
    ensures size == RuneLen(rr)
    ensures if r.runes != [] then rr == r.runes[|r.runes| - 1] else rr == 0
  {
    var ok := r.UnreadRune();
    var e;
    rr, size, e := r.ReadRune();
  }

  /** The fresh reader of an input without zeros. */
  method RereadFresh(reader: Source) returns (rr: int)
    requires 0 !in DecodeAll(reader.rest)
    modifies reader
    ensures rr !in DecodeAll(old(reader.rest))
  {
    var r := new ReadRuner(reader);
    var size;
    rr, size := Reread(r);
  }

  lemma DecodedRange(p: seq<byte>)
    requires p != []
    ensures DecodeRune(p).rune >= 0 && DecodeRune(p).size >= 1
  {
    hide DecodeRune;
    if DecodeRune(p) != Decoded(RUNE_ERROR, 1) {
      DecodedIsEncoding(p);
    }
  }
}
