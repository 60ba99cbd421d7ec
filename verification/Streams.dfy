/** The readers and writers that buffered I/O wraps, as adversaries: an arbitrary plan decides
    how much each call transfers and when it fails. */
module Streams {
  import opened Basics

  datatype Error =
    | EOF
    | ErrNoProgress
    | ErrBufferFull
    | ErrNegativeCount
    | ErrShortWrite
    | ErrTooLong
    | ErrFinalToken
    | ErrNegativeAdvance
    | ErrAdvanceTooFar
    | Other(id: nat)

  /** What an adversary does at one call: the most it transfers, and an error to report. */
  datatype Move = Move(amount: nat, err: Option<Error>)

  const MAX_EMPTY_READS := 100

  /** An error that a source has reported, as a list. */
  function FromSource(e: Option<Error>): (es: seq<Error>) {
    if e.Some? && (e.value == EOF || e.value.Other?) then [e.value] else []
  }

  function AsList(e: Option<Error>): (es: seq<Error>) { if e.Some? then [e.value] else [] }

  /** How many empty reads a plan begins with. */
  function Stalls(plan: seq<Move>): (n: nat) {
    if plan == [] || plan[0].amount > 0 then 0 else 1 + Stalls(plan[1..])
  }

  /** An io.Reader over a fixed stream. Each Read may deliver any chunk, even none, and may
      fail; EOF is reported only when nothing is left. */
  class Source {
    var rest: seq<byte>
    var plan: seq<Move>

    /** The errors reported so far. */
    ghost var failed: seq<Error>

    constructor (stream: seq<byte>, plan: seq<Move>)
      ensures rest == stream && this.plan == plan && failed == []
    {
      this.rest := stream;
      this.plan := plan;
      this.failed := [];
    }

    /** Never fails, and never stalls as often in a row as the readers would give up after. */
    ghost predicate Steady()
      reads this
    {
      && (forall m :: m in plan ==> m.err.None? || m.err == Some(EOF))
      && (forall i :: 0 <= i <= |plan| ==> Stalls(plan[i..]) < MAX_EMPTY_READS)
    }

    lemma SteadyBound()
      requires Steady()
      ensures Stalls(plan) < MAX_EMPTY_READS
    {
      assert plan[0..] == plan;
    }

    /** How many bytes the next read of at most k delivers. */
    ghost function Delivers(k: nat): (n: nat)
      reads this
      ensures n <= k && n <= |rest|
      ensures n == 0 && k > 0 && Stalls(plan) == 0 ==> rest == []
    {
      Min(if plan == [] then k else plan[0].amount, Min(k, |rest|))
    }

    /** Read into buf[lo..hi]. What lies behind the bytes delivered may be overwritten too. */
    method Read(buf: array<byte>, lo: nat, hi: nat) returns (n: nat, err: Option<Error>)
      requires lo <= hi <= buf.Length
      modifies this, buf
      ensures n <= hi - lo && n <= |old(rest)|
      ensures n == old(Delivers(hi - lo)) && |old(plan)| <= |plan| + 1
      ensures rest == old(rest)[n..]
      ensures buf[..lo] == old(buf[..lo])
      ensures buf[lo..lo + n] == old(rest)[..n]
      ensures buf[hi..] == old(buf[hi..])
      ensures err == Some(EOF) ==> rest == []
      ensures err.Some? ==> err.value == EOF || err.value.Other?
      ensures failed == old(failed) + FromSource(err)
      ensures old(Steady()) ==> Steady() && (err.None? || err == Some(EOF))
      ensures n == 0 && err.None? && lo < hi && old(Steady()) ==> Stalls(plan) == Stalls(old(plan)) - 1
      ensures n == 0 && err.None? && lo < hi ==> |plan| < |old(plan)|
    {
      var move := if plan == [] then Move(hi - lo, Some(EOF)) else plan[0];
      n := Min(move.amount, Min(hi - lo, |rest|));
      forall i | 0 <= i < n {
        buf[lo + i] := rest[i];
      }
      assert buf[lo..lo + n] == rest[..n];
      rest := rest[n..];
      err := Outcome(move, n, rest);
      failed := failed + FromSource(err);
      NextPlan();
    }

    /** The error of a read that moved n bytes: EOF only at the end, and there unless stalled. */
    static function Outcome(move: Move, n: nat, rest: seq<byte>): (err: Option<Error>)
      ensures err == Some(EOF) ==> rest == []
      ensures err.Some? ==> err.value == EOF || err.value.Other?
    {
      match move.err
      case None => if n == 0 && rest == [] && move.amount > 0 then Some(EOF) else None
      case Some(EOF) => if rest == [] then Some(EOF) else None
      case Some(Other(id)) => Some(Other(id))
      case Some(_) => Some(Other(0))
    }

    method NextPlan()
      modifies this`plan
      ensures plan == if old(plan) == [] then [] else old(plan)[1..]
      ensures old(Steady()) ==> Steady()
    {
      if plan != [] {
        ghost var was := plan;
        plan := plan[1..];
        assert forall i :: 0 <= i <= |plan| ==> plan[i..] == was[i + 1..];
      }
    }
  }

  /** An io.Writer that records what it took. A short write reports an error or makes some
      progress. It may be an io.StringWriter and an io.ReaderFrom as well. */
  class Sink {
    var written: seq<byte>
    var plan: seq<Move>
    const isStringWriter: bool
    const isReaderFrom: bool

    /** The errors reported so far. */
    ghost var failed: seq<Error>

    constructor (plan: seq<Move>, isStringWriter: bool, isReaderFrom: bool)
      ensures written == []
    {
      this.written := [];
      this.failed := [];
      this.plan := plan;
      this.isStringWriter := isStringWriter;
      this.isReaderFrom := isReaderFrom;
    }

    method Write(p: seq<byte>) returns (n: nat, err: Option<Error>)
      modifies this
      ensures n <= |p| && written == old(written) + p[..n]
      ensures n < |p| && err.None? ==> n > 0
      ensures failed == old(failed) + AsList(err)
      ensures old(plan) == [] ==> plan == [] && n == |p| && err.None?
    {
      var move := if plan == [] then Move(|p|, None) else plan[0];
      n := Min(move.amount, |p|);
      err := if n == 0 && n < |p| && move.err.None? then Some(Other(0)) else move.err;
      failed := failed + AsList(err);
      written := written + p[..n];
      if plan != [] {
        plan := plan[1..];
      }
    }

    method WriteString(s: seq<byte>) returns (n: nat, err: Option<Error>)
      requires isStringWriter
      modifies this
      ensures n <= |s| && written == old(written) + s[..n]
      ensures n < |s| && err.None? ==> n > 0
      ensures failed == old(failed) + AsList(err)
      ensures old(plan) == [] ==> plan == [] && n == |s| && err.None?
    {
      n, err := Write(s);
    }

    /** Take bytes straight from a reader; without an error, all of them. */
    method ReadFrom(r: Source) returns (n: nat, err: Option<Error>)
      requires isReaderFrom
      modifies this, r
      ensures n <= |old(r.rest)| && r.rest == old(r.rest)[n..]
      ensures written == old(written) + old(r.rest)[..n]
      ensures err.None? ==> r.rest == []
      ensures failed == old(failed) + AsList(err) && r.failed == old(r.failed)
      ensures old(plan) == [] ==> plan == [] && err.None?
    {
      var move := if plan == [] then Move(|r.rest|, None) else plan[0];
      n := Min(move.amount, |r.rest|);
      err := if n < |r.rest| && move.err.None? then Some(Other(0)) else move.err;
      failed := failed + AsList(err);
      written := written + r.rest[..n];
      r.rest := r.rest[n..];
      if plan != [] {
        plan := plan[1..];
      }
    }
  }

  /** At pos in the stream lie the window and then what the source still holds. */
  ghost predicate Aligned(stream: seq<byte>, pos: nat, window: seq<byte>, rest: seq<byte>) {
    && pos + |window| + |rest| == |stream|
    && stream[pos..pos + |window|] == window
    && stream[pos + |window|..] == rest
  }

  lemma AlignFetch(stream: seq<byte>, pos: nat, window: seq<byte>, rest: seq<byte>, n: nat)
    requires Aligned(stream, pos, window, rest) && n <= |rest|
    ensures Aligned(stream, pos, window + rest[..n], rest[n..])
  {
    var k := pos + |window|;
    assert stream[k..k + n] == stream[k..][..n];
    assert stream[pos..k + n] == stream[pos..k] + stream[k..k + n];
    assert stream[k + n..] == stream[k..][n..];
  }

  lemma AlignAdvance(stream: seq<byte>, pos: nat, window: seq<byte>, rest: seq<byte>, k: nat)
    requires Aligned(stream, pos, window, rest) && k <= |window|
    ensures Aligned(stream, pos + k, window[k..], rest)
    ensures stream[pos..pos + k] == window[..k]
  {
  }

  lemma AlignTakeBack(stream: seq<byte>, pos: nat, window: seq<byte>, rest: seq<byte>)
    requires Aligned(stream, pos, window, rest) && pos > 0
    ensures Aligned(stream, pos - 1, [stream[pos - 1]] + window, rest)
  {
  }

  lemma AlignWindow(stream: seq<byte>, pos: nat, window: seq<byte>, rest: seq<byte>)
    requires Aligned(stream, pos, window, rest)
    ensures stream[pos..pos + |window|] == window
  {
  }

  lemma AlignLengths(stream: seq<byte>, pos: nat, window: seq<byte>, rest: seq<byte>)
    requires Aligned(stream, pos, window, rest)
    ensures pos + |window| + |rest| == |stream|
  {
  }

  /** A read that bypasses the empty window. */
  lemma AlignDirect(stream: seq<byte>, pos: nat, rest: seq<byte>, n: nat)
    requires Aligned(stream, pos, [], rest) && n <= |rest|
    ensures Aligned(stream, pos + n, [], rest[n..])
    ensures stream[pos..pos + n] == rest[..n]
  {
  }
}
