/** bufio.Writer over a sink that may write short or fail. A ghost history of the bytes the calls
    reported as taken is compared with what the sink holds and what is still buffered. */
module BufWriter {
  import opened Basics
  import opened Sequences
  import opened Streams

  const DEFAULT_BUF_SIZE := 4096
  const MAX_CONSECUTIVE_EMPTY_READS := 100

  /** The sink and the buffer hold together exactly the bytes accepted. */
  ghost predicate Conserved(written: seq<byte>, buffered: seq<byte>, accepted: seq<byte>) {
    written + buffered == accepted
  }

  lemma ConservedFlush(written: seq<byte>, buffered: seq<byte>, accepted: seq<byte>, n: nat)
    requires Conserved(written, buffered, accepted) && n <= |buffered|
    ensures Conserved(written + buffered[..n], buffered[n..], accepted)
    ensures buffered == [] ==> written == accepted
  {
    Assoc(written, buffered[..n], buffered[n..]);
    Rejoin(buffered, n);
  }

  lemma ConservedAppend(written: seq<byte>, buffered: seq<byte>, accepted: seq<byte>, p: seq<byte>)
    requires Conserved(written, buffered, accepted)
    ensures Conserved(written, buffered + p, accepted + p)
    ensures buffered == [] ==> Conserved(written + p, [], accepted + p)
  {
    Assoc(written, buffered, p);
  }

  /** The error at hand is the first that the sink reported since before, or stands for a short write
      that it did not report. Without one it has reported none. */
  ghost predicate Blamed(failed: seq<Error>, before: seq<Error>, err: Option<Error>) {
    failed == before + AsList(err) || (err == Some(ErrShortWrite) && failed == before)
  }

  lemma BlameNext(failed: seq<Error>, before: seq<Error>, e: Option<Error>)
    requires Blamed(failed, before, None)
    ensures Blamed(failed + AsList(e), before, e)
    ensures e.None? ==> Blamed(failed + AsList(e), before, Some(ErrShortWrite))
  {
    assert failed == before;
  }

  /** The source has reported no error, or one that is e or the end of its input. */
  ghost predicate NotLost(failed: seq<Error>, after: seq<Error>, e: Option<Error>) {
    after == failed || (exists x :: after == failed + [x] && (x == EOF || e == Some(x)))
  }

  lemma LastError(failed: seq<Error>, e: Option<Error>)
    requires e.Some? ==> e.value == EOF || e.value.Other? || e.value == ErrNoProgress
    ensures NotLost(failed, failed + FromSource(e), e)
    ensures e == Some(EOF) ==> forall e1 :: NotLost(failed, failed + FromSource(e), e1)
    ensures e.None? ==> failed + FromSource(e) == failed
    ensures e.Some? && e != Some(ErrNoProgress) ==> failed + FromSource(e) == failed + [e.value]
  {
  }

  class Writer {
    const buf: array<byte>
    const wr: Sink
    var n: nat
    var err: Option<Error>

    /** The bytes all calls so far reported as written, after those the sink started with. */
    ghost var accepted: seq<byte>

    /** The errors of the sink before this writer. */
    ghost const before: seq<Error>

    ghost predicate Valid()
      reads this, buf, wr
    {
      && 0 < buf.Length && n <= buf.Length && Conserved(wr.written, Buffer(), accepted)
      && Blamed(wr.failed, before, err)
    }

    ghost function Buffer(): (s: seq<byte>)
      requires n <= buf.Length
      reads this, buf
    {
      buf[..n]
    }

    function Available(): (k: nat)
      requires n <= buf.Length
      reads this
    {
      buf.Length - n
    }

    constructor (wr: Sink, size: int)
      ensures Valid() && fresh(buf) && this.wr == wr && n == 0 && err.None?
      ensures accepted == wr.written
      ensures buf.Length == if size <= 0 then DEFAULT_BUF_SIZE else size
    {
      buf := new byte[if size <= 0 then DEFAULT_BUF_SIZE else size];
      this.wr := wr;
      n, err := 0, None;
      accepted, before := wr.written, wr.failed;
    }

    /** Hand the buffer to the sink. After a short or failed write the rest stays buffered, in
        order. */
    method Flush() returns (e: Option<Error>)
      requires Valid()
      modifies this, buf, wr
      ensures Valid() && accepted == old(accepted) && e == err
      ensures old(err).Some? ==> err == old(err) && n == old(n) && wr.written == old(wr.written)
      ensures e.None? ==> n == 0 && wr.written == accepted
      ensures old(wr.plan) == [] ==> wr.plan == [] && err == old(err)
    {
      hide Blamed, Conserved;
      ConservedFlush(wr.written, Buffer(), accepted, 0);
      if err.Some? {
        return err;
      }
      if n == 0 {
        return None;
      }
      ghost var held := Buffer();
      ghost var written := wr.written;
      var k;
      ghost var failed := wr.failed;
      k, e := wr.Write(buf[0..n]);
      BlameNext(failed, before, e);
      assert buf[0..n] == held;
      ConservedFlush(written, held, accepted, k);
      if k < n && e.None? {
        e := Some(ErrShortWrite);
      }
      if e.Some? {
        Drop(k);
        err := e;
        return;
      }
      n := 0;
      assert held[k..] == [] == Buffer();
      ConservedFlush(wr.written, Buffer(), accepted, 0);
    }

    /** Keep what lies behind the first k bytes of the buffer. */
    method Drop(k: nat)
      requires k <= n <= buf.Length
      modifies this`n, buf
      ensures n == old(n) - k && Buffer() == old(Buffer())[k..]
    {
      if k > 0 && k < n {
        forall i | 0 <= i < n - k {
          buf[i] := buf[k + i];
        }
      }
      n := n - k;
      assert Buffer() == old(Buffer())[k..];
    }

    /** copy(b.buf[b.n:], p), counting the bytes as buffered. */
    method Append(p: seq<byte>) returns (k: nat)
      requires Valid()
      modifies this`n, this`accepted, buf
      ensures Valid() && k == Min(old(Available()), |p|) && n == old(n) + k
      ensures accepted == old(accepted) + p[..k]
    {
      hide Blamed, Conserved;
      k := Min(Available(), |p|);
      ghost var held := Buffer();
      forall i | 0 <= i < k {
        buf[n + i] := p[i];
      }
      n := n + k;
      assert Buffer() == held + p[..k];
      ConservedAppend(wr.written, held, accepted, p[..k]);
      accepted := accepted + p[..k];
    }

    /** Fill the buffer from p and flush it. */
    method Spill(p: seq<byte>) returns (k: nat)
      requires Valid() && err.None?
      modifies this, buf, wr
      ensures Valid() && k == Min(old(Available()), |p|) && accepted == old(accepted) + p[..k]
      ensures err.None? ==> n == 0
      ensures old(wr.plan) == [] ==> wr.plan == [] && err.None?
    {
      hide Blamed, Conserved;
      k := Append(p);
      var _ := Flush();
    }

    /** Write p straight to the sink past the empty buffer. */
    method WriteDirect(p: seq<byte>, asString: bool) returns (k: nat)
      requires Valid() && n == 0 && err.None? && (asString ==> wr.isStringWriter)
      modifies this`err, this`accepted, wr
      ensures Valid() && k <= |p| && accepted == old(accepted) + p[..k]
      ensures k < |p| && err.None? ==> k > 0
      ensures old(wr.plan) == [] ==> wr.plan == [] && err.None? && k == |p|
    {
      hide Blamed, Conserved;
      ghost var written, failed := wr.written, wr.failed;
      if asString {
        k, err := wr.WriteString(p);
      } else {
        k, err := wr.Write(p);
      }
      BlameNext(failed, before, err);
      assert Buffer() == [];
      ConservedAppend(written, Buffer(), accepted, p[..k]);
      accepted := accepted + p[..k];
    }

    method Write(p: seq<byte>) returns (nn: nat, e: Option<Error>)
      requires Valid()
      modifies this, buf, wr
      ensures Valid() && nn <= |p| && accepted == old(accepted) + p[..nn] && e == err
      ensures nn < |p| ==> e.Some?
      ensures |p| <= old(Available()) ==> wr.written == old(wr.written)
      ensures old(err).Some? ==> nn == 0 && e == old(err) && wr.written == old(wr.written)
      ensures old(wr.plan) == [] ==> wr.plan == [] && err == old(err)
    {
      hide Blamed, Conserved;
      nn := 0;
      var q := p;
      while |q| > Available() && err.None?
        invariant Valid() && nn <= |p| && q == p[nn..]
        invariant |p| <= old(Available()) ==> nn == 0 && n == old(n) && wr.written == old(wr.written)
        invariant accepted == old(accepted) + p[..nn]
        invariant old(err).Some? ==> nn == 0 && err == old(err) && wr.written == old(wr.written)
        invariant old(wr.plan) == [] ==> wr.plan == [] && err == old(err)
        decreases |q|, n, err.None?
      {
        ghost var before := nn;
        var k;
        if n == 0 {
          k := WriteDirect(q, false);
        } else {
          k := Spill(q);
        }
        GatherMore(old(accepted), p, nn, k);
        nn := nn + k;
        q := q[k..];
      }
      if err.Some? {
        return nn, err;
      }
      var k := Append(q);
      GatherMore(old(accepted), p, nn, k);
      return nn + k, None;
    }

    method WriteByte(c: byte) returns (e: Option<Error>)
      requires Valid()
      modifies this, buf, wr
      ensures Valid() && e == err
      ensures accepted == if e.None? then old(accepted) + [c] else old(accepted)
      ensures old(Available()) > 0 ==> wr.written == old(wr.written)
      ensures old(err).Some? ==> e == old(err) && wr.written == old(wr.written)
      ensures old(wr.plan) == [] ==> wr.plan == [] && err == old(err)
    {
      hide Blamed, Conserved;
      if err.Some? {
        return err;
      }
      if Available() <= 0 {
        e := Flush();
        if e.Some? {
          return;
        }
      }
      ghost var held := Buffer();
      buf[n] := c;
      n := n + 1;
      assert Buffer() == held + [c];
      ConservedAppend(wr.written, held, accepted, [c]);
      accepted := accepted + [c];
      e := None;
    }

    /** Like Write, but a large string goes past an empty buffer only when the sink takes
        strings; otherwise it passes through the buffer. */
    method WriteString(s: seq<byte>) returns (nn: nat, e: Option<Error>)
      requires Valid()
      modifies this, buf, wr
      ensures Valid() && nn <= |s| && accepted == old(accepted) + s[..nn] && e == err
      ensures nn < |s| ==> e.Some?
      ensures |s| <= old(Available()) ==> wr.written == old(wr.written)
      ensures old(err).Some? ==> nn == 0 && e == old(err) && wr.written == old(wr.written)
      ensures old(wr.plan) == [] ==> wr.plan == [] && err == old(err)
    {
      hide Blamed, Conserved;
      nn := 0;
      var q := s;
      var sw, tryStringWriter := false, true;
      while |q| > Available() && err.None?
        invariant Valid() && nn <= |s| && q == s[nn..]
        invariant |s| <= old(Available()) ==> nn == 0 && n == old(n) && wr.written == old(wr.written)
        invariant sw ==> wr.isStringWriter
        invariant accepted == old(accepted) + s[..nn]
        invariant old(err).Some? ==> nn == 0 && err == old(err) && wr.written == old(wr.written)
        invariant old(wr.plan) == [] ==> wr.plan == [] && err == old(err)
        decreases |q|, n, err.None?
      {
        var k;
        if n == 0 && !sw && tryStringWriter {
          sw, tryStringWriter := wr.isStringWriter, wr.isStringWriter;
        }
        if n == 0 && tryStringWriter {
          k := WriteDirect(q, true);
        } else {
          k := Spill(q);
        }
        GatherMore(old(accepted), s, nn, k);
        nn := nn + k;
        q := q[k..];
      }
      if err.Some? {
        return nn, err;
      }
      var k := Append(q);
      GatherMore(old(accepted), s, nn, k);
      return nn + k, None;
    }

    /** One read into the free part of the buffer. */
    method Pull(r: Source) returns (m: nat, e: Option<Error>)
      requires Valid() && Available() > 0
      modifies this`n, this`accepted, buf, r
      ensures Valid() && m <= |old(r.rest)| && n == old(n) + m
      ensures r.rest == old(r.rest)[m..] && accepted == old(accepted) + old(r.rest)[..m]
      ensures e == Some(EOF) ==> r.rest == []
      ensures e.Some? ==> e.value == EOF || e.value.Other?
      ensures r.failed == old(r.failed) + FromSource(e)
      ensures old(r.Steady()) ==> r.Steady() && (e.None? || e == Some(EOF))
      ensures m == 0 && e.None? && old(r.Steady()) ==> Stalls(r.plan) == Stalls(old(r.plan)) - 1
    {
      hide Blamed, Conserved, Source.Steady, Stalls;
      ghost var held, rest := Buffer(), r.rest;
      m, e := r.Read(buf, n, buf.Length);
      assert Buffer() == held;
      SliceJoin(buf[..], 0, n, n + m);
      assert buf[..n + m] == buf[0..n + m] && buf[0..n] == held;
      n := n + m;
      ConservedAppend(wr.written, held, accepted, rest[..m]);
      accepted := accepted + rest[..m];
    }

    /** The inner loop of ReadFrom: read until something happens, a limited number of times. */
    method PullSome(r: Source) returns (m: nat, e: Option<Error>)
      requires Valid() && Available() > 0
      modifies this`n, this`accepted, buf, r
      ensures Valid() && m <= |old(r.rest)| && n == old(n) + m
      ensures r.rest == old(r.rest)[m..] && accepted == old(accepted) + old(r.rest)[..m]
      ensures e == Some(EOF) ==> r.rest == []
      ensures m > 0 || e.Some?
      ensures e.Some? ==> e.value == EOF || e.value.Other? || e.value == ErrNoProgress
      ensures r.failed == old(r.failed) + FromSource(e)
      ensures old(r.Steady()) ==> r.Steady() && (e.None? || e == Some(EOF))
    {
      hide Blamed, Conserved, Source.Steady, Stalls;
      ghost var rest, taken := r.rest, accepted;
      ghost var steady := r.Steady();
      if steady {
        r.SteadyBound();
      }
      var nr := 0;
      while nr < MAX_CONSECUTIVE_EMPTY_READS
        invariant nr <= MAX_CONSECUTIVE_EMPTY_READS
        invariant Valid() && n == old(n) && r.rest == rest && accepted == taken && r.failed == old(r.failed)
        invariant steady ==> r.Steady() && Stalls(r.plan) < MAX_CONSECUTIVE_EMPTY_READS - nr
      {
        m, e := Pull(r);
        if m != 0 || e.Some? {
          return;
        }
        assert rest[..0] == [] && rest[0..] == rest;
        nr := nr + 1;
      }
      m, e := 0, Some(ErrNoProgress);
    }

    /** Read everything from r through the buffer, or hand r to a sink that reads by itself as
        soon as the buffer is empty. */
    method ReadFrom(r: Source) returns (k: nat, e: Option<Error>)
      requires Valid()
      modifies this, buf, wr, r
      ensures Valid() && k <= |old(r.rest)|
      ensures r.rest == old(r.rest)[k..] && accepted == old(accepted) + old(r.rest)[..k]
      ensures e.None? ==> r.rest == [] && err.None?
      ensures e.None? ==> Available() > 0
      ensures k < old(Available()) && !wr.isReaderFrom ==> wr.written == old(wr.written)
      ensures NotLost(old(r.failed), r.failed, e)
      ensures e.Some? ==> e == err || e == Some(ErrNoProgress) || r.failed == old(r.failed) + [e.value]
      ensures old(err).Some? ==> k == 0 && e == old(err) && wr.written == old(wr.written)
      ensures old(wr.plan) == [] && old(r.Steady()) && old(err).None? ==> e.None?
    {
      hide Blamed, Conserved, Source.Steady, FromSource;
      if err.Some? {
        return 0, err;
      }
      ghost var rest, base := r.rest, accepted;
      k := 0;
      while true
        invariant Valid() && err.None? && k <= |rest| && r.rest == rest[k..]
        invariant accepted == base + rest[..k] && r.failed == old(r.failed)
        invariant k < old(Available()) ==> n == old(n) + k && wr.written == old(wr.written)
        invariant old(wr.plan) == [] ==> wr.plan == []
        invariant old(r.Steady()) ==> r.Steady()
        decreases |r.rest|
      {
        var m, stop;
        m, e, stop := ReadRound(r);
        GatherMore(base, rest, k, m);
        k := k + m;
        if stop {
          return;
        }
        LastError(old(r.failed), e);
        if e.Some? {
          break;
        }
      }
      if e == Some(EOF) {
        e := FlushFull();
      }
    }

    /** One round of ReadFrom: flush a full buffer, hand r over, or read from it. stop means that no
        more rounds follow. */
    method ReadRound(r: Source) returns (m: nat, e: Option<Error>, stop: bool)
      requires Valid() && err.None?
      modifies this, buf, wr, r
      ensures Valid() && m <= |old(r.rest)|
      ensures r.rest == old(r.rest)[m..] && accepted == old(accepted) + old(r.rest)[..m]
      ensures if stop then e == err && r.failed == old(r.failed) && (e.None? ==> n == 0 && r.rest == [])
              else err.None? && r.failed == old(r.failed) + FromSource(e) && (m > 0 || e.Some?)
      ensures !stop && e.Some? ==> e.value == EOF || e.value.Other? || e.value == ErrNoProgress
      ensures !stop && e == Some(EOF) ==> r.rest == []
      ensures old(Available()) > 0 && !stop ==> n == old(n) + m && wr.written == old(wr.written)
      ensures stop ==> old(Available()) == 0 || wr.isReaderFrom
      ensures old(wr.plan) == [] ==> wr.plan == [] && (stop ==> e.None?)
      ensures old(r.Steady()) && !stop ==> r.Steady() && (e.None? || e == Some(EOF))
    {
      hide Blamed, Conserved, Source.Steady, FromSource;
      if Available() == 0 {
        e := Flush();
        if e.Some? {
          assert r.rest[0..] == r.rest && r.rest[..0] == [];
          return 0, e, true;
        }
      }
      if wr.isReaderFrom && n == 0 {
        m, e := HandOver(r);
        return m, e, true;
      }
      m, e := PullSome(r);
      stop := false;
    }

    /** A buffer that is exactly full is flushed before ReadFrom returns. */
    method FlushFull() returns (e: Option<Error>)
      requires Valid() && err.None?
      modifies this, buf, wr
      ensures Valid() && accepted == old(accepted) && e == err && (e.None? ==> Available() > 0)
      ensures old(Available()) > 0 ==> e.None? && n == old(n) && wr.written == old(wr.written)
      ensures old(wr.plan) == [] ==> wr.plan == [] && e.None?
    {
      hide Blamed, Conserved;
      if Available() == 0 {
        e := Flush();
      } else {
        e := None;
      }
    }

    /** The delegation of ReadFrom to a sink that is itself an io.ReaderFrom. */
    method HandOver(r: Source) returns (k: nat, e: Option<Error>)
      requires Valid() && n == 0 && err.None? && wr.isReaderFrom
      modifies this`err, this`accepted, wr, r
      ensures Valid() && k <= |old(r.rest)| && e == err && r.failed == old(r.failed)
      ensures r.rest == old(r.rest)[k..] && accepted == old(accepted) + old(r.rest)[..k]
      ensures e.None? ==> r.rest == []
      ensures old(wr.plan) == [] ==> wr.plan == [] && e.None?
    {
      hide Blamed, Conserved;
      ghost var written, rest, failed := wr.written, r.rest, wr.failed;
      k, e := wr.ReadFrom(r);
      err := e;
      BlameNext(failed, before, e);
      assert Buffer() == [];
      ConservedAppend(written, Buffer(), accepted, rest[..k]);
      accepted := accepted + rest[..k];
    }
  }
}
