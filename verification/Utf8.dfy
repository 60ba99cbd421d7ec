/** UTF-8 as the unicode/utf8 package decodes it, and its agreement with the encoding of RFC 3629,
    sections 3 and 4. */
module Utf8 {
  import opened Basics
  import opened Sequences

  const RUNE_ERROR := 0xFFFD
  const RUNE_SELF := 0x80
  const UTF_MAX := 4

  type Rune = r: int | 0 <= r <= 0x10_FFFF && !(0xD800 <= r <= 0xDFFF)

  datatype Decoded = Decoded(rune: int, size: nat)

  /** How many bytes a first byte announces: 1 also when it is no first byte at all. */
  function Announced(b: byte): (n: nat)
    ensures 1 <= n <= 4
  {
    if 0xC2 <= b <= 0xDF then 2 else if 0xE0 <= b <= 0xEF then 3 else if 0xF0 <= b <= 0xF4 then 4 else 1
  }

  /** The second bytes that may follow a first byte: no overlong forms, no surrogates, nothing
      beyond the last code point. */
  predicate SecondByte(first: byte, second: byte) {
    match first
    case 0xE0 => 0xA0 <= second <= 0xBF
    case 0xED => 0x80 <= second <= 0x9F
    case 0xF0 => 0x90 <= second <= 0xBF
    case 0xF4 => 0x80 <= second <= 0x8F
    case _ => 0x80 <= second <= 0xBF
  }

  predicate IsContinuation(b: byte) { 0x80 <= b <= 0xBF }

  /** The bytes begin with a whole encoding, or with bytes no encoding begins with. */
  predicate FullRune(p: seq<byte>) {
    if p == [] then false
    else if |p| >= Announced(p[0]) then true
    else if |p| > 1 && !SecondByte(p[0], p[1]) then true
    else |p| > 2 && !IsContinuation(p[2])
  }

  /** Append the six bits of a continuation byte. */
  function Push(high: nat, b: byte): (r: nat) { high * 64 + (b as int) % 64 }

  /** The bits a first byte carries. */
  function Bits(b: byte, modulus: nat): (r: nat)
    requires modulus > 0
  {
    (b as int) % modulus
  }

  /** The first rune and its width; (RUNE_ERROR, 1) for a byte that begins no encoding. */
  function DecodeRune(p: seq<byte>): (d: Decoded)
    ensures d.size <= |p| && (p != [] ==> 1 <= d.size <= 4)
  {
    if p == [] then Decoded(RUNE_ERROR, 0)
    else
      var n := Announced(p[0]);
      if n == 1 then Decoded(if p[0] < RUNE_SELF then p[0] else RUNE_ERROR, 1)
      else if |p| < n || !SecondByte(p[0], p[1]) then Decoded(RUNE_ERROR, 1)
      else if n == 2 then Decoded(Push(Bits(p[0], 32), p[1]), 2)
      else if !IsContinuation(p[2]) then Decoded(RUNE_ERROR, 1)
      else if n == 3 then Decoded(Push(Push(Bits(p[0], 16), p[1]), p[2]), 3)
      else if !IsContinuation(p[3]) then Decoded(RUNE_ERROR, 1)
      else Decoded(Push(Push(Push(Bits(p[0], 8), p[1]), p[2]), p[3]), 4)
  }

  /** The continuation byte of the lowest six bits. */
  function Tail(r: nat): (b: byte)
    ensures IsContinuation(b)
  {
    0x80 + r % 64
  }

  lemma PushTail(r: nat)
    ensures Push(r / 64, Tail(r)) == r
  {
  }

  lemma TailPush(high: nat, b: byte)
    requires IsContinuation(b)
    ensures Push(high, b) / 64 == high && Tail(Push(high, b)) == b
  {
  }

  /** The encoding of RFC 3629, section 3. */
  function Encode(r: Rune): (p: seq<byte>)
    ensures 1 <= |p| <= 4
  {
    if r < 0x80 then [r]
    else if r < 0x800 then [0xC0 + r / 64, Tail(r)]
    else if r < 0x1_0000 then [0xE0 + r / 64 / 64, Tail(r / 64), Tail(r)]
    else [0xF0 + r / 64 / 64 / 64, Tail(r / 64 / 64), Tail(r / 64), Tail(r)]
  }

  function RuneLen(r: int): (n: int) {
    if r < 0 then -1
    else if r < 0x80 then 1
    else if r < 0x800 then 2
    else if 0xD800 <= r <= 0xDFFF then -1
    else if r < 0x1_0000 then 3
    else if r <= 0x10_FFFF then 4
    else -1
  }

  /** The length of the encoding, or -1 for what has none. */
  lemma RuneLenIs(r: int)
    ensures if 0 <= r <= 0x10_FFFF && !(0xD800 <= r <= 0xDFFF) then RuneLen(r) == |Encode(r)| else RuneLen(r) == -1
  {
  }

  /** Decoding what was encoded gives it back, whatever follows. */
  lemma DecodeEncoded(r: Rune, rest: seq<byte>)
    ensures DecodeRune(Encode(r) + rest) == Decoded(r, |Encode(r)|)
  {
    hide Push, Tail;
    PushTail(r);
    PushTail(r / 64);
    PushTail(r / 64 / 64);
    EncodeRanges(r);
    var p := Encode(r) + rest;
    assert forall i :: 0 <= i < |Encode(r)| ==> p[i] == Encode(r)[i];
  }

  /** No encoding is overlong, a surrogate or out of range. */
  lemma EncodeRanges(r: Rune)
    ensures var p := Encode(r);
            && (|p| == 1 <==> r < 0x80) && (r < 0x80 ==> p[0] < 0x80)
            && (|p| == 2 ==> Announced(p[0]) == 2 && Bits(p[0], 32) == r / 64 && SecondByte(p[0], p[1]))
            && (|p| == 3 ==> Announced(p[0]) == 3 && Bits(p[0], 16) == r / 64 / 64 && SecondByte(p[0], p[1]))
            && (|p| == 4 ==> Announced(p[0]) == 4 && Bits(p[0], 8) == r / 64 / 64 / 64 && SecondByte(p[0], p[1]))
  {
  }

  /** Anything else decodes to the replacement character, one byte at a time: the decoder accepts
      exactly the encodings. */
  lemma DecodeExact(p: seq<byte>)
    requires p != []
    ensures var d := DecodeRune(p);
            || (exists r: Rune :: d == Decoded(r, |Encode(r)|) && Encode(r) == p[..d.size])
            || (d == Decoded(RUNE_ERROR, 1) && forall r: Rune :: !(Encode(r) <= p))
  {
    var d := DecodeRune(p);
    if d == Decoded(RUNE_ERROR, 1) {
      assert |Encode(RUNE_ERROR)| == 3;
      forall r: Rune
        ensures Encode(r) <= p ==> d == Decoded(r, |Encode(r)|)
      {
        if Encode(r) <= p {
          Rejoin(p, |Encode(r)|);
          assert p[..|Encode(r)|] == Encode(r);
          DecodeEncoded(r, p[|Encode(r)|..]);
        }
      }
    } else {
      DecodedIsEncoding(p);
    }
  }

  lemma DecodedIsEncoding(p: seq<byte>)
    requires p != [] && DecodeRune(p) != Decoded(RUNE_ERROR, 1)
    ensures var r := DecodeRune(p).rune;
            0 <= r <= 0x10_FFFF && !(0xD800 <= r <= 0xDFFF) && Encode(r) == p[..DecodeRune(p).size]
  {
    hide Push, Tail;
    var d := DecodeRune(p);
    if d.size == 1 {
    } else if d.size == 2 {
      DecodedRange2(p[0], p[1]);
      TailPush(Bits(p[0], 32), p[1]);
    } else if d.size == 3 {
      DecodedRange3(p[0], p[1], p[2]);
      TailPush(Push(Bits(p[0], 16), p[1]), p[2]);
      TailPush(Bits(p[0], 16), p[1]);
    } else {
      DecodedRange4(p[0], p[1], p[2], p[3]);
      TailPush(Push(Push(Bits(p[0], 8), p[1]), p[2]), p[3]);
      TailPush(Push(Bits(p[0], 8), p[1]), p[2]);
      TailPush(Bits(p[0], 8), p[1]);
    }
  }

  lemma DecodedRange2(a: byte, b: byte)
    requires Announced(a) == 2 && SecondByte(a, b)
    ensures 0x80 <= Push(Bits(a, 32), b) < 0x800 && a == 0xC0 + Bits(a, 32)
  {
  }

  lemma DecodedRange3(a: byte, b: byte, c: byte)
    requires Announced(a) == 3 && SecondByte(a, b) && IsContinuation(c)
    ensures var r := Push(Push(Bits(a, 16), b), c);
            0x800 <= r < 0x1_0000 && !(0xD800 <= r <= 0xDFFF) && a == 0xE0 + Bits(a, 16)
  {
  }

  lemma DecodedRange4(a: byte, b: byte, c: byte, d: byte)
    requires Announced(a) == 4 && SecondByte(a, b) && IsContinuation(c) && IsContinuation(d)
    ensures 0x1_0000 <= Push(Push(Push(Bits(a, 8), b), c), d) <= 0x10_FFFF && a == 0xF0 + Bits(a, 8)
  {
  }

  /** A full rune decodes the same whatever follows it. */
  lemma DecodeFull(p: seq<byte>, rest: seq<byte>)
    requires FullRune(p)
    ensures DecodeRune(p + rest) == DecodeRune(p)
  {
    assert forall i :: 0 <= i < |p| ==> (p + rest)[i] == p[i];
  }

  /** What may still become an encoding is short, and a first byte with continuations. */
  lemma NotFullShape(p: seq<byte>)
    requires p != [] && !FullRune(p)
    ensures |p| < 4 && p[0] >= 0xC2 && forall i :: 0 < i < |p| ==> IsContinuation(p[i])
  {
  }

  /** A rune read again from the reader's memory has the width of its encoding. That is the width
      it was decoded with exactly when the bytes begin with a rune. */
  lemma WidthOfDecoded(p: seq<byte>)
    requires p != []
    ensures RuneLen(DecodeRune(p).rune) == DecodeRune(p).size <==> exists r: Rune :: Encode(r) <= p
  {
    DecodeExact(p);
    if DecodeRune(p) != Decoded(RUNE_ERROR, 1) {
      DecodedIsEncoding(p);
      assert Encode(DecodeRune(p).rune) <= p;
    }
  }

  /** The byte FF begins no rune: it is one byte wide at first, and three when read again. */
  lemma WidthOfBadByte()
    ensures DecodeRune([0xFF]).size == 1 && RuneLen(DecodeRune([0xFF]).rune) == 3
    ensures !exists r: Rune :: Encode(r) <= [0xFF]
  {
    WidthOfDecoded([0xFF]);
  }

  /** Decode to the end. */
  function DecodeAll(s: seq<byte>): (runes: seq<int>)
    decreases |s|
  {
    if s == [] then [] else [DecodeRune(s).rune] + DecodeAll(s[DecodeRune(s).size..])
  }

  function EncodeAll(runes: seq<Rune>): (s: seq<byte>) {
    if runes == [] then [] else Encode(runes[0]) + EncodeAll(runes[1..])
  }

  lemma {:induction false} DecodeAllEncoded(runes: seq<Rune>)
    ensures DecodeAll(EncodeAll(runes)) == runes
  {
    if runes != [] {
      hide Encode, DecodeRune;
      var head, rest := Encode(runes[0]), EncodeAll(runes[1..]);
      DecodeEncoded(runes[0], rest);
      Suffix(head, rest);
      DecodeAllEncoded(runes[1..]);
    }
  }
}
