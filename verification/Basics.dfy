/** Types shared by the stream models. */
module Basics {

  type byte = b: int | 0 <= b < 256

  datatype Option<+T> = None | Some(value: T)

  function Min(a: nat, b: nat): nat { if a < b then a else b }

  /** Index of the first occurrence of c, or -1 (bytes.IndexByte). */
  function IndexByte(s: seq<byte>, c: byte): (i: int)
    ensures -1 <= i < |s|
    ensures i < 0 ==> c !in s
    ensures i >= 0 ==> s[i] == c && c !in s[..i]
  {
    if s == [] then -1
    else if s[0] == c then 0
    else
      var i := IndexByte(s[1..], c);
      assert i >= 0 ==> s[..i + 1] == [s[0]] + s[1..][..i];
      if i < 0 then -1 else i + 1
  }

  /** copy(out[at:], piece) */
  method CopyAt(out: array<byte>, at: nat, piece: seq<byte>)
    requires at + |piece| <= out.Length
    modifies out
    ensures out[..at + |piece|] == old(out[..at]) + piece
  {
    forall k | 0 <= k < |piece| {
      out[at + k] := piece[k];
    }
    assert out[at..at + |piece|] == piece && out[..at] == old(out[..at]);
    assert out[..at + |piece|] == out[..at] + out[at..at + |piece|];
  }
}
