/** Facts about sequences that the stream proofs apply by name. */
module Sequences {

  lemma Assoc<T>(a: seq<T>, b: seq<T>, c: seq<T>)
    ensures a + b + c == a + (b + c)
  {
  }

  /** Taking n more elements of s after its first k. */
  lemma TakeMore<T>(s: seq<T>, k: nat, n: nat)
    requires k + n <= |s|
    ensures s[..k] + s[k..][..n] == s[..k + n]
    ensures s[k..][n..] == s[k + n..]
  {
  }

  lemma Rejoin<T>(s: seq<T>, k: nat)
    requires k <= |s|
    ensures s[..k] + s[k..] == s
  {
  }

  lemma Suffix<T>(a: seq<T>, b: seq<T>)
    ensures (a + b)[..|a|] == a
    ensures (a + b)[|a|..] == b
  {
  }

  lemma GatherMore<T>(base: seq<T>, s: seq<T>, k: nat, n: nat)
    requires k + n <= |s|
    ensures s[k..][n..] == s[k + n..]
    ensures base + s[..k] + s[k..][..n] == base + s[..k + n]
  {
    TakeMore(s, k, n);
    Assoc(base, s[..k], s[k..][..n]);
  }

  lemma SliceJoin<T>(t: seq<T>, lo: nat, mid: nat, hi: nat)
    requires lo <= mid <= hi <= |t|
    ensures t[lo..hi] == t[lo..mid] + t[mid..hi]
  {
  }

  lemma SliceOfSlice<T>(t: seq<T>, lo: nat, hi: nat, k: nat)
    requires lo + k <= hi <= |t|
    ensures t[lo..hi][..k] == t[lo..lo + k]
    ensures t[lo..hi][k..] == t[lo + k..hi]
  {
  }

  /** The pieces, one after the other. */
  function Flatten<T>(pieces: seq<seq<T>>): (s: seq<T>) {
    if pieces == [] then [] else pieces[0] + Flatten(pieces[1..])
  }

  lemma {:induction false} FlattenAppend<T>(a: seq<seq<T>>, b: seq<seq<T>>)
    ensures Flatten(a + b) == Flatten(a) + Flatten(b)
  {
    if a == [] {
      assert a + b == b;
    } else {
      assert (a + b)[1..] == a[1..] + b;
      FlattenAppend(a[1..], b);
    }
  }

  lemma FlattenSnoc<T>(a: seq<seq<T>>, x: seq<T>)
    ensures Flatten(a + [x]) == Flatten(a) + x
  {
    FlattenAppend(a, [x]);
    assert Flatten([x]) == x;
  }

  lemma FlattenPrefix<T>(a: seq<seq<T>>, k: nat)
    requires k <= |a|
    ensures |Flatten(a[..k])| <= |Flatten(a)|
  {
    FlattenAppend(a[..k], a[k..]);
    Rejoin(a, k);
  }
}
