/** Searching, splitting, joining, replacing and repeating byte slices (bytes/bytes.go). Each
    loop is proved against a function on sequences, and the functions are related: joining undoes
    splitting, and replacing is splitting and joining. */
module ByteSlices {
  import opened Basics
  import opened Sequences
  import opened Utf8

  const MAX_INT := 0x7fff_ffff_ffff_ffff

  // ----- Searching -----

  predicate OccursAt(s: seq<byte>, sep: seq<byte>, i: nat) {
    i + |sep| <= |s| && s[i..i + |sep|] == sep
  }

  /** The first position from i on where sep occurs, or -1. */
  function IndexFrom(s: seq<byte>, sep: seq<byte>, i: nat): (m: int)
    ensures -1 <= m
    ensures m >= 0 ==> i <= m && OccursAt(s, sep, m)
    ensures forall k | i <= k && OccursAt(s, sep, k) :: 0 <= m <= k
    decreases if i <= |s| then |s| - i + 1 else 0
  {
    if i + |sep| > |s| then -1 else if OccursAt(s, sep, i) then i else IndexFrom(s, sep, i + 1)
  }

  /** The first occurrence of sep in s, or -1: what Index, bytealg.Index and IndexRabinKarp
      compute. */
  function FirstIndex(s: seq<byte>, sep: seq<byte>): (m: int)
    ensures -1 <= m
    ensures m >= 0 ==> OccursAt(s, sep, m)
    ensures forall k | OccursAt(s, sep, k) :: 0 <= m <= k
  {
    IndexFrom(s, sep, 0)
  }

  lemma IndexIs(s: seq<byte>, sep: seq<byte>, m: nat)
    requires OccursAt(s, sep, m) && forall k | 0 <= k < m :: !OccursAt(s, sep, k)
    ensures FirstIndex(s, sep) == m
  {
  }

  lemma IndexNone(s: seq<byte>, sep: seq<byte>)
    requires forall k | 0 <= k && k + |sep| <= |s| :: !OccursAt(s, sep, k)
    ensures FirstIndex(s, sep) == -1
  {
  }

  lemma OccursInSuffix(s: seq<byte>, sep: seq<byte>, i: nat, k: nat)
    requires i <= |s|
    ensures OccursAt(s[i..], sep, k) <==> OccursAt(s, sep, i + k)
  {
    if i + k + |sep| <= |s| {
      assert s[i..][k..k + |sep|] == s[i + k..i + k + |sep|];
    }
  }

  /** Searching on behind i positions without an occurrence. */
  lemma IndexBehind(s: seq<byte>, sep: seq<byte>, i: nat)
    requires i <= |s| && forall k | 0 <= k < i :: !OccursAt(s, sep, k)
    ensures var j := FirstIndex(s[i..], sep); FirstIndex(s, sep) == if j < 0 then -1 else i + j
  {
    var j := FirstIndex(s[i..], sep);
    if j >= 0 {
      OccursInSuffix(s, sep, i, j);
      forall k | 0 <= k < i + j
        ensures !OccursAt(s, sep, k)
      {
        if k >= i {
          OccursInSuffix(s, sep, i, k - i);
        }
      }
      IndexIs(s, sep, i + j);
    } else {
      forall k | 0 <= k && k + |sep| <= |s|
        ensures !OccursAt(s, sep, k)
      {
        if k >= i {
          OccursInSuffix(s, sep, i, k - i);
        }
      }
      IndexNone(s, sep);
    }
  }

  /** Positions that do not hold the first byte are no occurrences. */
  lemma SkipTo(s: seq<byte>, sep: seq<byte>, i: nat, t: nat)
    requires sep != [] && i + 1 <= t <= |s| && s[i] != sep[0] && !OccursAt(s, sep, i)
    ensures var o := IndexByte(s[i + 1..t], sep[0]);
            && (o >= 0 ==> i + 1 + o < t && s[i + 1 + o] == sep[0])
            && (o >= 0 ==> forall k | i <= k < i + 1 + o :: !OccursAt(s, sep, k))
            && (o < 0 ==> forall k | i <= k < t :: !OccursAt(s, sep, k))
  {
    var slice := s[i + 1..t];
    var o := IndexByte(slice, sep[0]);
    var end := if o >= 0 then i + 1 + o else t;
    forall k | i <= k < end
      ensures !OccursAt(s, sep, k)
    {
      if k > i {
        assert s[k] == slice[k - i - 1];
        if o >= 0 {
          assert slice[..o][k - i - 1] == slice[k - i - 1];
        }
      }
      if k + |sep| <= |s| {
        assert s[k..k + |sep|][0] == s[k];
      }
    }
  }

  lemma OneByte(s: seq<byte>, sep: seq<byte>)
    requires |sep| == 1
    ensures FirstIndex(s, sep) == IndexByte(s, sep[0])
  {
    var i := IndexByte(s, sep[0]);
    forall k | 0 <= k < |s|
      ensures OccursAt(s, sep, k) <==> s[k] == sep[0]
    {
      assert s[k..k + 1] == [s[k]];
    }
    if i >= 0 {
      forall k | 0 <= k < i
        ensures !OccursAt(s, sep, k)
      {
        assert s[..i][k] == s[k];
      }
      IndexIs(s, sep, i);
    } else {
      IndexNone(s, sep);
    }
  }

  /** Index of the source: byte searches for the first byte, until they stop paying off. The
      thresholds depend on the machine. */
  method Index(s: seq<byte>, sep: seq<byte>, maxLen: nat, maxBruteForce: nat, cutover: nat -> nat) returns (m: int)
    ensures m == FirstIndex(s, sep)
  {
    var n := |sep|;
    if n == 0 {
      assert s[0..0] == sep;
      IndexIs(s, sep, 0);
      return 0;
    }
    if n == 1 {
      OneByte(s, sep);
      return IndexByte(s, sep[0]);
    }
    if n == |s| {
      assert s[0..|s|] == s;
      if sep == s {
        IndexIs(s, sep, 0);
        return 0;
      }
      IndexNone(s, sep);
      return -1;
    }
    if n > |s| {
      IndexNone(s, sep);
      return -1;
    }
    if n <= maxLen && |s| <= maxBruteForce {
      return FirstIndex(s, sep);
    }
    m := SearchOn(s, sep, n <= maxLen, cutover);
  }

  /** The loops of Index: they differ in when they give up on searching for the first byte. */
  method SearchOn(s: seq<byte>, sep: seq<byte>, short: bool, cutover: nat -> nat) returns (m: int)
    requires 2 <= |sep| < |s|
    ensures m == FirstIndex(s, sep)
  {
    hide IndexByte, FirstIndex;
    var n := |sep|;
    var c0, c1 := sep[0], sep[1];
    var i: nat, fails: nat := 0, 0;
    var t := |s| - n + 1;
    while i < t
      invariant i <= t && forall k | 0 <= k < i :: !OccursAt(s, sep, k)
    {
      if s[i] != c0 {
        FirstDiffers(s, sep, i);
        SkipTo(s, sep, i, t);
        var o := IndexByte(s[i + 1..t], c0);
        if o < 0 {
          break;
        }
        i := i + o + 1;
      }
      if s[i + 1] == c1 && s[i..i + n] == sep {
        IndexIs(s, sep, i);
        return i;
      }
      SecondDiffers(s, sep, i);
      i := i + 1;
      fails := fails + 1;
      if if short then fails > cutover(i) else fails >= 4 + i / 16 && i < t {
        IndexBehind(s, sep, i);
        var j := FirstIndex(s[i..], sep);
        return if j < 0 then -1 else i + j;
      }
    }
    IndexNone(s, sep);
    return -1;
  }

  lemma FirstDiffers(s: seq<byte>, sep: seq<byte>, i: nat)
    requires sep != [] && i < |s| && s[i] != sep[0]
    ensures !OccursAt(s, sep, i)
  {
    if i + |sep| <= |s| {
      assert s[i..i + |sep|][0] == s[i];
    }
  }

  lemma SecondDiffers(s: seq<byte>, sep: seq<byte>, i: nat)
    requires |sep| >= 2 && i + |sep| <= |s| && !(s[i + 1] == sep[1] && s[i..i + |sep|] == sep)
    ensures !OccursAt(s, sep, i)
  {
    assert s[i..i + |sep|][1] == s[i + 1];
  }

  // ----- Splitting and joining -----

  /** At most n pieces between separators; the last one is the unsplit rest. */
  function Pieces(s: seq<byte>, sep: seq<byte>, n: nat): (pieces: seq<seq<byte>>)
    requires sep != [] && n >= 1
    ensures 1 <= |pieces| <= n
  {
    var m := FirstIndex(s, sep);
    if n == 1 || m < 0 then [s] else [s[..m]] + Pieces(s[m + |sep|..], sep, n - 1)
  }

  function AllPieces(s: seq<byte>, sep: seq<byte>): (pieces: seq<seq<byte>>)
    requires sep != []
    ensures 1 <= |pieces| <= |s| + 1
    decreases |s|
  {
    var m := FirstIndex(s, sep);
    if m < 0 then [s] else [s[..m]] + AllPieces(s[m + |sep|..], sep)
  }

  /** The same, each piece with the first save bytes of the separator behind it. */
  function SavedPieces(s: seq<byte>, sep: seq<byte>, save: nat, n: nat): (pieces: seq<seq<byte>>)
    requires sep != [] && n >= 1 && save <= |sep|
  {
    var m := FirstIndex(s, sep);
    if n == 1 || m < 0 then [s] else [s[..m + save]] + SavedPieces(s[m + |sep|..], sep, save, n - 1)
  }

  function Joined(pieces: seq<seq<byte>>, sep: seq<byte>): (s: seq<byte>) {
    if pieces == [] then [] else if |pieces| == 1 then pieces[0] else pieces[0] + sep + Joined(pieces[1..], sep)
  }

  lemma SplitAround(s: seq<byte>, sep: seq<byte>)
    requires FirstIndex(s, sep) >= 0
    ensures var m := FirstIndex(s, sep); s == s[..m] + sep + s[m + |sep|..]
  {
    var m := FirstIndex(s, sep);
    assert s == s[..m] + s[m..m + |sep|] + s[m + |sep|..];
  }

  /** Joining what was split gives the whole back, however many pieces were asked for. */
  lemma {:induction false} JoinPieces(s: seq<byte>, sep: seq<byte>, n: nat)
    requires sep != [] && n >= 1
    ensures Joined(Pieces(s, sep, n), sep) == s
    decreases n
  {
    hide FirstIndex;
    var m := FirstIndex(s, sep);
    if n > 1 && m >= 0 {
      SplitAround(s, sep);
      JoinPieces(s[m + |sep|..], sep, n - 1);
      assert Pieces(s, sep, n)[1..] == Pieces(s[m + |sep|..], sep, n - 1);
    }
  }

  /** Splitting after the separators and putting the pieces next to each other does, too. */
  lemma {:induction false} FlattenSavedPieces(s: seq<byte>, sep: seq<byte>, n: nat)
    requires sep != [] && n >= 1
    ensures Flatten(SavedPieces(s, sep, |sep|, n)) == s
    decreases n
  {
    hide FirstIndex;
    var m := FirstIndex(s, sep);
    if n > 1 && m >= 0 {
      FlattenSavedPieces(s[m + |sep|..], sep, n - 1);
      Rejoin(s, m + |sep|);
      assert SavedPieces(s, sep, |sep|, n)[1..] == SavedPieces(s[m + |sep|..], sep, |sep|, n - 1);
    } else {
      assert Flatten([s]) == s + Flatten([]);
    }
  }

  /** No piece of a full split contains the separator. */
  lemma {:induction false} PiecesFree(s: seq<byte>, sep: seq<byte>, k: nat)
    requires sep != [] && k < |AllPieces(s, sep)|
    ensures FirstIndex(AllPieces(s, sep)[k], sep) == -1
    decreases |s|
  {
    hide FirstIndex;
    var m := FirstIndex(s, sep);
    if m >= 0 {
      if k == 0 {
        FreeBefore(s, sep, m);
      } else {
        PiecesFree(s[m + |sep|..], sep, k - 1);
      }
    }
  }

  lemma FreeBefore(s: seq<byte>, sep: seq<byte>, m: nat)
    requires sep != [] && FirstIndex(s, sep) == m
    ensures m <= |s| && FirstIndex(s[..m], sep) == -1
  {
    forall k | 0 <= k && k + |sep| <= m
      ensures !OccursAt(s[..m], sep, k)
    {
      assert s[..m][k..k + |sep|] == s[k..k + |sep|];
      assert OccursAt(s, sep, k) ==> m <= k;
    }
    IndexNone(s[..m], sep);
  }

  /** A limit of at least the number of pieces is no limit. */
  lemma {:induction false} PiecesAll(s: seq<byte>, sep: seq<byte>, n: nat)
    requires sep != [] && n >= |AllPieces(s, sep)|
    ensures Pieces(s, sep, n) == AllPieces(s, sep)
    decreases n
  {
    hide FirstIndex;
    var m := FirstIndex(s, sep);
    if m >= 0 {
      assert AllPieces(s, sep)[1..] == AllPieces(s[m + |sep|..], sep);
      PiecesAll(s[m + |sep|..], sep, n - 1);
    }
  }

  lemma {:induction false} SavedNone(s: seq<byte>, sep: seq<byte>, n: nat)
    requires sep != [] && n >= 1
    ensures SavedPieces(s, sep, 0, n) == Pieces(s, sep, n)
    decreases n
  {
    hide FirstIndex;
    var m := FirstIndex(s, sep);
    if n > 1 && m >= 0 {
      SavedNone(s[m + |sep|..], sep, n - 1);
    }
  }

  /** The number of pieces is bounded by the limit and by the length. */
  lemma {:induction false} SavedLimit(s: seq<byte>, sep: seq<byte>, save: nat, n: nat)
    requires sep != [] && n >= 1 && save <= |sep|
    ensures 1 <= |SavedPieces(s, sep, save, n)| <= n
    ensures n >= |s| + 1 ==> SavedPieces(s, sep, save, n) == SavedPieces(s, sep, save, |s| + 1)
    decreases n
  {
    hide FirstIndex;
    var m := FirstIndex(s, sep);
    if n > 1 && m >= 0 {
      var rest := s[m + |sep|..];
      SavedLimit(rest, sep, save, n - 1);
      if n >= |s| + 1 {
        SavedLimit(rest, sep, save, |s|);
      }
    }
  }

  /** utf8.RuneCount */
  function RuneCount(s: seq<byte>): (n: nat)
    ensures n == |DecodeAll(s)|
  {
    |DecodeAll(s)|
  }

  /** Count: non-overlapping separators, or the places between runes for an empty one. */
  method Count(s: seq<byte>, sep: seq<byte>) returns (n: nat)
    ensures sep == [] ==> n == RuneCount(s) + 1
    ensures sep != [] ==> n == |AllPieces(s, sep)| - 1
  {
    hide FirstIndex;
    if sep == [] {
      return RuneCount(s) + 1;
    }
    n := 0;
    var rest := s;
    while true
      invariant n + |AllPieces(rest, sep)| == |AllPieces(s, sep)|
      decreases |rest|
    {
      var i := FirstIndex(rest, sep);
      if i == -1 {
        return n;
      }
      n := n + 1;
      rest := rest[i + |sep|..];
    }
  }

  /** explode of the source, for an empty separator: one piece a rune. */
  function Exploded(s: seq<byte>, n: nat): (pieces: seq<seq<byte>>)
    decreases |s|
  {
    if s == [] then [] else if n <= 1 then [s] else [s[..DecodeRune(s).size]] + Exploded(s[DecodeRune(s).size..], n - 1)
  }

  /** The slices together are the string. */
  lemma {:induction false} FlattenExploded(s: seq<byte>, n: nat)
    ensures Flatten(Exploded(s, n)) == s
    decreases |s|
  {
    hide DecodeRune;
    if s != [] && n > 1 {
      var size := DecodeRune(s).size;
      FlattenExploded(s[size..], n - 1);
      FlattenAppend([s[..size]], Exploded(s[size..], n - 1));
    }
  }

  /** The bytes of the first rune decode to it. */
  lemma FirstSlice(s: seq<byte>)
    requires s != []
    ensures DecodeRune(s[..DecodeRune(s).size]) == DecodeRune(s)
  {
    if DecodeRune(s) != Decoded(RUNE_ERROR, 1) {
      DecodedIsEncoding(s);
      DecodeEncoded(DecodeRune(s).rune, []);
      assert s[..DecodeRune(s).size] + [] == s[..DecodeRune(s).size];
    }
  }

  /** Each slice is one rune of the string, in order; only the last may hold more, when there are more
      runes than slices asked for. */
  lemma {:induction false} ExplodedRunes(s: seq<byte>, n: nat, k: nat)
    requires k < |Exploded(s, n)| && (k + 1 < |Exploded(s, n)| || |DecodeAll(s)| <= n)
    ensures k < |DecodeAll(s)| && DecodeRune(Exploded(s, n)[k]) == Decoded(DecodeAll(s)[k], |Exploded(s, n)[k]|)
    decreases |s|
  {
    hide DecodeRune;
    var size := DecodeRune(s).size;
    FirstSlice(s);
    if k > 0 {
      assert n > 1 && Exploded(s, n) == [s[..size]] + Exploded(s[size..], n - 1);
      ExplodedRunes(s[size..], n - 1, k - 1);
    } else if n <= 1 {
      assert DecodeAll(s[size..]) == [] && s[size..] == [];
      assert s[..size] == s;
    }
  }

  lemma {:induction false} ExplodedCount(s: seq<byte>, n: nat)
    requires n >= 1
    ensures |Exploded(s, n)| == Min(n, |DecodeAll(s)|)
    decreases |s|
  {
    hide DecodeRune;
    if s != [] && n > 1 {
      ExplodedCount(s[DecodeRune(s).size..], n - 1);
    }
  }

  /** explode: at most n pieces of one rune, the last one the rest. */
  method Explode(s: seq<byte>, limit: int) returns (pieces: seq<seq<byte>>)
    ensures pieces == Exploded(s, if limit <= 0 || limit > |s| then |s| else limit)
  {
    hide DecodeRune;
    var n: nat := if limit <= 0 || limit > |s| then |s| else limit;
    var a := new seq<byte>[n](_ => []);
    var na: nat := 0;
    var rest := s;
    while |rest| > 0
      invariant na <= n == a.Length && (rest != [] ==> na < n)
      invariant a[..na] + Exploded(rest, n - na) == Exploded(s, n)
      decreases |rest|
    {
      if na + 1 >= n {
        ghost var done := a[..na];
        a[na] := rest;
        assert a[..na + 1] == done + [rest];
        na := na + 1;
        return a[..na];
      }
      var size := DecodeRune(rest).size;
      ghost var done := a[..na];
      a[na] := rest[..size];
      assert a[..na + 1] == done + [rest[..size]];
      Assoc(done, [rest[..size]], Exploded(rest[size..], n - na - 1));
      rest := rest[size..];
      na := na + 1;
    }
    assert a[..na] + [] == a[..na];
    return a[..na];
  }

  method GenSplit(s: seq<byte>, sep: seq<byte>, sepSave: nat, limit: int) returns (pieces: seq<seq<byte>>)
    requires sepSave <= |sep|
    ensures limit == 0 ==> pieces == []
    ensures limit != 0 && sep == [] ==> pieces == Exploded(s, if limit < 0 || limit > |s| then |s| else limit)
    ensures limit > 0 && sep != [] ==> pieces == SavedPieces(s, sep, sepSave, limit)
    ensures limit < 0 && sep != [] ==> pieces == SavedPieces(s, sep, sepSave, |AllPieces(s, sep)|)
  {
    hide FirstIndex;
    if limit == 0 {
      return [];
    }
    if sep == [] {
      pieces := Explode(s, limit);
      return;
    }
    var n := limit;
    if n < 0 {
      var count := Count(s, sep);
      n := count + 1;
    }
    if n > |s| + 1 {
      SavedLimit(s, sep, sepSave, n);
      n := |s| + 1;
    }
    pieces := SplitLoop(s, sep, sepSave, n);
  }

  /** The loop of genSplit. */
  method SplitLoop(s: seq<byte>, sep: seq<byte>, sepSave: nat, limit: nat) returns (pieces: seq<seq<byte>>)
    requires sep != [] && sepSave <= |sep| && limit >= 1
    ensures pieces == SavedPieces(s, sep, sepSave, limit)
  {
    hide FirstIndex;
    var a := new seq<byte>[limit](_ => []);
    var n: nat := limit - 1;
    var i: nat := 0;
    var rest := s;
    while i < n
      invariant i <= n && a.Length == n + 1
      invariant a[..i] + SavedPieces(rest, sep, sepSave, n + 1 - i) == SavedPieces(s, sep, sepSave, n + 1)
    {
      var m := FirstIndex(rest, sep);
      if m < 0 {
        break;
      }
      ghost var done := a[..i];
      a[i] := rest[..m + sepSave];
      assert a[..i + 1] == done + [rest[..m + sepSave]];
      Assoc(done, [rest[..m + sepSave]], SavedPieces(rest[m + |sep|..], sep, sepSave, n - i));
      rest := rest[m + |sep|..];
      i := i + 1;
    }
    a[i] := rest;
    assert a[..i + 1] == a[..i] + [rest];
    return a[..i + 1];
  }

  /** Split and SplitN. */
  lemma SplitIsPieces(s: seq<byte>, sep: seq<byte>)
    requires sep != []
    ensures SavedPieces(s, sep, 0, |AllPieces(s, sep)|) == AllPieces(s, sep)
    ensures Joined(AllPieces(s, sep), sep) == s
  {
    var n := |AllPieces(s, sep)|;
    SavedNone(s, sep, n);
    PiecesAll(s, sep, n);
    JoinPieces(s, sep, n);
  }

  // ----- Joining -----

  /** The guards of Join: the separators alone, or the whole, exceed an int. */
  predicate JoinOverflows(pieces: seq<seq<byte>>, sep: seq<byte>) {
    |pieces| >= 2 && ((sep != [] && |sep| >= MAX_INT / (|pieces| - 1)) || |Joined(pieces, sep)| > MAX_INT)
  }

  lemma {:induction false} JoinedLength(pieces: seq<seq<byte>>, sep: seq<byte>)
    requires pieces != []
    ensures |Joined(pieces, sep)| == Seps(|sep|, |pieces| - 1) + |Flatten(pieces)|
  {
    if |pieces| == 1 {
      assert Flatten(pieces) == pieces[0] + Flatten([]);
    } else {
      JoinedLength(pieces[1..], sep);
    }
  }

  /** k separators of size bytes. */
  function Seps(size: nat, k: nat): (n: nat)
    ensures n == size * k
  {
    if k == 0 then 0 else size + Seps(size, k - 1)
  }

  lemma JoinedStep(pieces: seq<seq<byte>>, sep: seq<byte>, i: nat)
    requires 1 <= i < |pieces|
    ensures Joined(pieces[..i + 1], sep) == Joined(pieces[..i], sep) + sep + pieces[i]
  {
    JoinedSnoc(pieces[..i], pieces[i], sep);
    assert pieces[..i + 1] == pieces[..i] + [pieces[i]];
  }

  lemma {:induction false} JoinedSnoc(pieces: seq<seq<byte>>, last: seq<byte>, sep: seq<byte>)
    requires pieces != []
    ensures Joined(pieces + [last], sep) == Joined(pieces, sep) + sep + last
  {
    if |pieces| == 1 {
      assert (pieces + [last])[1..] == [last];
    } else {
      assert (pieces + [last])[1..] == pieces[1..] + [last];
      JoinedSnoc(pieces[1..], last, sep);
    }
  }

  /** The length Join computes, guard by guard. */
  method JoinLength(pieces: seq<seq<byte>>, sep: seq<byte>) returns (n: Option<nat>)
    requires |pieces| >= 2
    ensures n == if JoinOverflows(pieces, sep) then None else Some(|Joined(pieces, sep)|)
  {
    JoinedLength(pieces, sep);
    var total: nat := 0;
    if |sep| > 0 {
      if |sep| >= MAX_INT / (|pieces| - 1) {
        return None;
      }
      SepsFit(|sep|, |pieces| - 1);
      total := |sep| * (|pieces| - 1);
    }
    assert pieces[..0] == [];
    for i := 0 to |pieces|
      invariant total == Seps(|sep|, |pieces| - 1) + |Flatten(pieces[..i])| <= MAX_INT
    {
      FlattenSnoc(pieces[..i], pieces[i]);
      assert pieces[..i + 1] == pieces[..i] + [pieces[i]];
      FlattenPrefix(pieces, i + 1);
      if |pieces[i]| > MAX_INT - total {
        return None;
      }
      total := total + |pieces[i]|;
    }
    assert pieces[..|pieces|] == pieces;
    return Some(total);
  }

  lemma SepsFit(size: nat, k: nat)
    requires k > 0 && size < MAX_INT / k
    ensures size * k <= MAX_INT
  {
  }

  /** Join; None is the panic over the length. The result fills the space computed for it. */
  method Join(pieces: seq<seq<byte>>, sep: seq<byte>) returns (r: Option<seq<byte>>)
    ensures r == if JoinOverflows(pieces, sep) then None else Some(Joined(pieces, sep))
  {
    if |pieces| == 0 {
      return Some([]);
    }
    if |pieces| == 1 {
      return Some(pieces[0]);
    }
    hide JoinOverflows;
    var n := JoinLength(pieces, sep);
    if n.None? {
      return None;
    }
    var b := FillJoined(pieces, sep, n.value);
    return Some(b);
  }

  /** The copying part of Join. */
  method FillJoined(pieces: seq<seq<byte>>, sep: seq<byte>, n: nat) returns (r: seq<byte>)
    requires |pieces| >= 2 && n == |Joined(pieces, sep)|
    ensures r == Joined(pieces, sep)
  {
    JoinedGrows(pieces, sep, 1);
    assert Joined(pieces[..1], sep) == pieces[0];
    hide Joined;
    var b := new byte[n];
    CopyAt(b, 0, pieces[0]);
    var bp: nat := |pieces[0]|;
    for i := 1 to |pieces|
      invariant bp == |Joined(pieces[..i], sep)| <= n && b[..bp] == Joined(pieces[..i], sep)
    {
      JoinedStep(pieces, sep, i);
      JoinedGrows(pieces, sep, i + 1);
      CopyAt(b, bp, sep);
      bp := bp + |sep|;
      CopyAt(b, bp, pieces[i]);
      bp := bp + |pieces[i]|;
    }
    assert pieces[..|pieces|] == pieces;
    assert b[..] == b[..bp];
    return b[..];
  }

  lemma {:induction false} JoinedGrows(pieces: seq<seq<byte>>, sep: seq<byte>, i: nat)
    requires 1 <= i <= |pieces|
    ensures |Joined(pieces[..i], sep)| <= |Joined(pieces, sep)|
    decreases |pieces| - i
  {
    if i == |pieces| {
      assert pieces[..i] == pieces;
    } else {
      JoinedStep(pieces, sep, i);
      JoinedGrows(pieces, sep, i + 1);
    }
  }

  // ----- Replacing -----

  /** The first k occurrences of from replaced by to; for an empty from, to is put in front of the
      first k runes, the first of them already behind when begun. */
  function Replaced(s: seq<byte>, from: seq<byte>, to: seq<byte>, k: nat, begun: bool): (r: seq<byte>)
    decreases k
  {
    if k == 0 then s
    else if from == [] then
      var wid := if begun then DecodeRune(s).size else 0;
      s[..wid] + to + Replaced(s[wid..], from, to, k - 1, true)
    else
      var m := FirstIndex(s, from);
      if m < 0 then s else s[..m] + to + Replaced(s[m + |from|..], from, to, k - 1, true)
  }

  /** How many replacements there are to make. */
  function Occurrences(s: seq<byte>, from: seq<byte>, begun: bool): (n: nat) {
    if from == [] then RuneCount(s) + (if begun then 0 else 1) else |AllPieces(s, from)| - 1
  }

  lemma OccurrencesStep(s: seq<byte>, from: seq<byte>, begun: bool)
    requires Occurrences(s, from, begun) > 0
    ensures from == [] && !begun ==> Occurrences(s, from, true) == Occurrences(s, from, false) - 1
    ensures from == [] && begun ==>
      s != [] && Occurrences(s[DecodeRune(s).size..], from, true) == Occurrences(s, from, true) - 1
    ensures from != [] ==>
      FirstIndex(s, from) >= 0
      && Occurrences(s[FirstIndex(s, from) + |from|..], from, true) == Occurrences(s, from, begun) - 1
  {
    hide DecodeRune, FirstIndex;
  }

  /** Replacing changes the length by the same amount each time. */
  lemma {:induction false} ReplacedLength(s: seq<byte>, from: seq<byte>, to: seq<byte>, k: nat, begun: bool)
    requires k <= Occurrences(s, from, begun)
    ensures |Replaced(s, from, to, k, begun)| == |s| + k * (|to| - |from|)
    decreases k
  {
    if k > 0 {
      hide DecodeRune, FirstIndex, Occurrences;
      OccurrencesStep(s, from, begun);
      var wid := if begun then DecodeRune(s).size else 0;
      var next := if from == [] then s[wid..] else s[FirstIndex(s, from) + |from|..];
      if from == [] {
        assert s[0..] == s;
      }
      ReplacedLength(next, from, to, k - 1, true);
      OneMoreTime(k, |to| - |from|);
      hide Replaced;
      ReplacedOnce(s, from, to, k, begun, next);
    }
  }

  lemma OneMoreTime(k: nat, d: int)
    requires k > 0
    ensures k * d == (k - 1) * d + d
  {
  }

  /** One replacement, and the rest. */
  lemma ReplacedOnce(s: seq<byte>, from: seq<byte>, to: seq<byte>, k: nat, begun: bool, next: seq<byte>)
    requires k > 0 && if from == [] then !begun || s != [] else FirstIndex(s, from) >= 0
    requires next == if from == [] then s[if begun then DecodeRune(s).size else 0..]
                     else s[FirstIndex(s, from) + |from|..]
    ensures |Replaced(s, from, to, k, begun)|
            == |s| - |next| - |from| + |to| + |Replaced(next, from, to, k - 1, true)|
  {
    hide DecodeRune, FirstIndex;
  }

  /** Replacing is splitting and joining with another separator. */
  lemma {:induction false} ReplacedIsJoined(s: seq<byte>, from: seq<byte>, to: seq<byte>, k: nat, begun: bool)
    requires from != []
    ensures Replaced(s, from, to, k, begun) == Joined(Pieces(s, from, k + 1), to)
    decreases k
  {
    hide FirstIndex;
    var m := FirstIndex(s, from);
    if k > 0 && m >= 0 {
      ReplacedIsJoined(s[m + |from|..], from, to, k - 1, true);
      assert Pieces(s, from, k + 1)[1..] == Pieces(s[m + |from|..], from, k);
    }
  }

  /** The first k runes one by one, the rest, and an empty piece behind the last rune if k reaches it. */
  function RunePieces(s: seq<byte>, k: nat): (pieces: seq<seq<byte>>) {
    Exploded(s, k + 1) + if k >= RuneCount(s) then [[]] else []
  }

  /** Replacing nothing puts the new text between the runes. */
  lemma {:induction false} ReplacedBetween(s: seq<byte>, to: seq<byte>, k: nat)
    requires k <= RuneCount(s)
    ensures Replaced(s, [], to, k, true) == Joined(RunePieces(s, k), to)
    decreases k
  {
    hide DecodeRune;
    if k == 0 {
      assert RunePieces(s, 0) == [s];
    } else {
      var wid := DecodeRune(s).size;
      var first, rest := s[..wid], s[wid..];
      ReplacedBetween(rest, to, k - 1);
      assert RunePieces(s, k) == [first] + RunePieces(rest, k - 1);
      assert RunePieces(s, k)[1..] == RunePieces(rest, k - 1);
    }
  }

  /** The first place is in front of the text. */
  lemma ReplacedNothing(s: seq<byte>, to: seq<byte>, k: nat)
    requires 1 <= k <= RuneCount(s) + 1
    ensures Replaced(s, [], to, k, false) == Joined([[]] + RunePieces(s, k - 1), to)
  {
    hide DecodeRune;
    ReplacedBetween(s, to, k - 1);
    var pieces := [[]] + RunePieces(s, k - 1);
    assert pieces[1..] == RunePieces(s, k - 1);
    assert s[0..] == s && s[..0] == [];
  }

  /** Replace: as many as limit says, all of them when it is negative. The buffer is filled
      exactly. */
  method Replace(s: seq<byte>, from: seq<byte>, to: seq<byte>, limit: int) returns (r: seq<byte>)
    ensures var count := Occurrences(s, from, false);
            r == Replaced(s, from, to, if limit < 0 || count < limit then count else limit, false)
    ensures from != [] && limit >= 0 ==> r == Joined(Pieces(s, from, limit + 1), to)
    ensures from != [] && limit < 0 ==> r == Joined(AllPieces(s, from), to)
    ensures from == [] && limit == 0 ==> r == s
    ensures from == [] && limit != 0 ==>
              var k := if limit < 0 || RuneCount(s) < limit then RuneCount(s) else limit - 1;
              r == Joined([[]] + RunePieces(s, k), to)
  {
    hide FirstIndex, DecodeRune;
    var m := 0;
    if limit != 0 {
      m := Count(s, from);
    }
    if from != [] {
      ReplaceLimit(s, from, to, limit);
    } else if limit != 0 {
      ReplacedNothing(s, to, if limit < 0 || RuneCount(s) < limit then RuneCount(s) + 1 else limit);
    }
    if m == 0 {
      return s;
    }
    var n: nat := if limit < 0 || m < limit then m else limit;
    r := ReplaceLoop(s, from, to, n);
  }

  lemma ReplaceLimit(s: seq<byte>, from: seq<byte>, to: seq<byte>, limit: int)
    requires from != []
    ensures var count := Occurrences(s, from, false);
            var r := Replaced(s, from, to, if limit < 0 || count < limit then count else limit, false);
            && (limit >= 0 ==> r == Joined(Pieces(s, from, limit + 1), to))
            && (limit < 0 ==> r == Joined(AllPieces(s, from), to))
  {
    var count := Occurrences(s, from, false);
    ReplacedIsJoined(s, from, to, if limit < 0 || count < limit then count else limit, false);
    PiecesAll(s, from, count + 1);
    if limit > count {
      PiecesAll(s, from, limit + 1);
    }
  }

  /** Two pieces, one behind the other. */
  method CopyBoth(t: array<byte>, at: nat, first: seq<byte>, second: seq<byte>) returns (w: nat)
    requires at + |first| + |second| <= t.Length
    modifies t
    ensures w == at + |first| + |second| && t[..w] == old(t[..at]) + first + second
  {
    CopyAt(t, at, first);
    w := at + |first|;
    CopyAt(t, w, second);
    w := w + |second|;
  }

  /** The loop of Replace over a preallocated buffer. */
  method ReplaceLoop(s: seq<byte>, from: seq<byte>, to: seq<byte>, n: nat) returns (r: seq<byte>)
    requires n <= Occurrences(s, from, false)
    ensures r == Replaced(s, from, to, n, false)
  {
    hide FirstIndex, DecodeRune, Occurrences, Replaced;
    ReplacedLength(s, from, to, n, false);
    var t := new byte[|s| + n * (|to| - |from|)];
    var w: nat, start: nat := 0, 0;
    assert s[0..] == s;
    for i := 0 to n
      invariant start <= |s| && w <= t.Length
      invariant n - i <= Occurrences(s[start..], from, i > 0)
      invariant t[..w] + Replaced(s[start..], from, to, n - i, i > 0) == Replaced(s, from, to, n, false)
    {
      ghost var rest, done := s[start..], t[..w];
      OccurrencesStep(rest, from, i > 0);
      var j := start;
      if |from| == 0 {
        if i > 0 {
          j := j + DecodeRune(s[start..]).size;
        }
      } else {
        j := j + FirstIndex(s[start..], from);
      }
      ReplaceOne(s, from, to, start, j, n - i, i > 0, done);
      w := CopyBoth(t, w, s[start..j], to);
      start := j + |from|;
    }
    LastPiece(s, from, to, start, n > 0);
    CopyAt(t, w, s[start..]);
    w := w + |s[start..]|;
    assert t[..w] == t[..];
    return t[..w];
  }

  lemma LastPiece(s: seq<byte>, from: seq<byte>, to: seq<byte>, start: nat, begun: bool)
    requires start <= |s|
    ensures Replaced(s[start..], from, to, 0, begun) == s[start..]
  {
  }

  /** One turn of the loop: the text before the occurrence, then the replacement. */
  lemma ReplaceOne(s: seq<byte>, from: seq<byte>, to: seq<byte>, start: nat, j: nat, k: nat, begun: bool,
                   done: seq<byte>)
    requires start <= |s| && 0 < k <= Occurrences(s[start..], from, begun)
    requires j == start
                + if from == [] then (if begun then DecodeRune(s[start..]).size else 0)
                  else FirstIndex(s[start..], from)
    ensures start <= j && j + |from| <= |s| && k - 1 <= Occurrences(s[j + |from|..], from, true)
    ensures Replaced(s[start..], from, to, k, begun)
            == s[start..j] + to + Replaced(s[j + |from|..], from, to, k - 1, true)
    ensures done + Replaced(s[start..], from, to, k, begun)
            == done + s[start..j] + to + Replaced(s[j + |from|..], from, to, k - 1, true)
  {
    ReplaceFirst(s, from, to, start, j, k, begun);
    hide FirstIndex, DecodeRune, Occurrences, Replaced;
    var tail := Replaced(s[j + |from|..], from, to, k - 1, true);
    Assoc(done, s[start..j] + to, tail);
    Assoc(done, s[start..j], to);
  }

  lemma ReplaceFirst(s: seq<byte>, from: seq<byte>, to: seq<byte>, start: nat, j: nat, k: nat, begun: bool)
    requires start <= |s| && 0 < k <= Occurrences(s[start..], from, begun)
    requires j == start
                + if from == [] then (if begun then DecodeRune(s[start..]).size else 0)
                  else FirstIndex(s[start..], from)
    ensures start <= j && j + |from| <= |s| && k - 1 <= Occurrences(s[j + |from|..], from, true)
    ensures Replaced(s[start..], from, to, k, begun)
            == s[start..j] + to + Replaced(s[j + |from|..], from, to, k - 1, true)
  {
    hide FirstIndex, DecodeRune, Occurrences, Replaced;
    var rest := s[start..];
    OccurrencesStep(rest, from, begun);
    var d := j - start;
    ReplacedStep(rest, from, to, d, k, begun);
    assert rest[..d] == s[start..j] && rest[d + |from|..] == s[j + |from|..];
  }

  lemma ReplacedStep(s: seq<byte>, from: seq<byte>, to: seq<byte>, d: int, k: nat, begun: bool)
    requires k > 0 && d == if from == [] then (if begun then DecodeRune(s).size else 0) else FirstIndex(s, from)
    requires d >= 0
    ensures d + |from| <= |s|
    ensures Replaced(s, from, to, k, begun) == s[..d] + to + Replaced(s[d + |from|..], from, to, k - 1, true)
  {
    hide FirstIndex, DecodeRune;
  }

  // ----- Repeating -----

  function Repeated(b: seq<byte>, count: nat): (r: seq<byte>) {
    if count == 0 then [] else b + Repeated(b, count - 1)
  }

  lemma {:induction false} RepeatedLength(b: seq<byte>, count: nat)
    ensures |Repeated(b, count)| == |b| * count
  {
    if count > 0 {
      RepeatedLength(b, count - 1);
      assert |b| * count == |b| + |b| * (count - 1);
    }
  }

  lemma {:induction false} RepeatedAdd(b: seq<byte>, m: nat, n: nat)
    ensures Repeated(b, m + n) == Repeated(b, m) + Repeated(b, n)
  {
    if m > 0 {
      RepeatedAdd(b, m - 1, n);
      Assoc(b, Repeated(b, m - 1), Repeated(b, n));
    } else {
      assert Repeated(b, 0) == [];
    }
  }

  lemma RepeatedPrefix(b: seq<byte>, m: nat, n: nat)
    requires m <= n
    ensures |b| * m <= |Repeated(b, n)| == |b| * n && Repeated(b, n)[..|b| * m] == Repeated(b, m)
  {
    RepeatedAdd(b, m, n - m);
    RepeatedLength(b, m);
    RepeatedLength(b, n);
  }

  /** The bytes in count copies. */
  function Length(b: seq<byte>, count: nat): nat {
    TimesNat(|b|, count);
    |b| * count
  }

  lemma LengthOne(b: seq<byte>, count: nat)
    requires count > 0
    ensures Length(b, 1) == |b| <= Length(b, count)
  {
    TimesLess(|b|, 1, count);
  }

  /** The copy moves whole copies of b, and as many as are there and wanted. */
  lemma NextCopies(b: seq<byte>, copies: nat, count: nat, whole: nat, q: nat, chunk: nat) returns (k: nat)
    requires b != [] && 1 <= copies && 1 <= q && Length(b, copies) < Length(b, count)
    requires chunk == Length(b, whole)
    requires whole == copies || (whole == q && chunk < Length(b, copies))
    ensures 1 <= k && copies + k <= count
    ensures var moved := Min(chunk, Length(b, count) - Length(b, copies));
            && 0 < moved <= Length(b, copies) == |Repeated(b, copies)|
            && Length(b, copies) + moved == Length(b, copies + k)
            && Length(b, copies + k) <= Length(b, count)
            && Repeated(b, copies) + Repeated(b, copies)[..moved] == Repeated(b, copies + k)
  {
    hide Repeated;
    CopiesLess(|b|, copies, count, whole, q);
    RepeatedMore(b, copies, whole, count);
    k := if whole <= count - copies then whole else count - copies;
    Distribute(|b|, copies, k);
    TimesLess(|b|, 1, k);
    TimesLess(|b|, k, copies);
  }

  lemma Distribute(size: nat, m: nat, k: nat)
    ensures size * (m + k) == size * m + size * k
  {
  }

  /** Copying the first q copies, as far as they fit, adds whole copies. */
  lemma RepeatedMore(b: seq<byte>, r: nat, q: nat, count: nat)
    requires 1 <= q <= r < count
    ensures var k := if q <= count - r then q else count - r;
            && |b| * k <= |Repeated(b, r)| == |b| * r && |b| * (r + k) <= |b| * count
            && Repeated(b, r) + Repeated(b, r)[..|b| * k] == Repeated(b, r + k)
            && (if |b| * q <= |b| * count - |b| * r then |b| * q else |b| * count - |b| * r) == |b| * k
  {
    var k := if q <= count - r then q else count - r;
    RepeatedPrefix(b, k, r);
    RepeatedAdd(b, r, k);
    TimesLess(|b|, r + k, count);
    TimesLess(|b|, q, count - r);
    TimesLess(|b|, count - r, q);
    assert |b| * count - |b| * r == |b| * (count - r);
  }

  lemma TimesLess(size: nat, m: int, n: int)
    ensures m <= n ==> size * m <= size * n
  {
    if m <= n {
      assert size * n - size * m == size * (n - m);
      TimesNat(size, n - m);
    }
  }

  lemma TimesNat(x: nat, y: nat)
    ensures x * y >= 0
  {
  }

  /** The guard against overflow refuses, beside what an int cannot hold, one size that may fit. */
  lemma GuardIsTight(size: nat, k: nat)
    requires 0 < k <= MAX_INT
    ensures size >= MAX_INT / k <==> size * k > MAX_INT || size == MAX_INT / k
  {
    var q, r := MAX_INT / k, MAX_INT % k;
    assert MAX_INT == q * k + r;
    if size > q {
      assert size * k == (size - q - 1) * k + q * k + k;
      TimesNat(size - q - 1, k);
    } else {
      assert q * k == size * k + (q - size) * k;
      TimesNat(q - size, k);
    }
  }

  /** One byte, MaxInt times, fits and is refused. */
  method RepeatRefuses(b: seq<byte>) returns (r: Option<seq<byte>>)
    requires |b| == 1
    ensures r.None? && |b| * MAX_INT <= MAX_INT
  {
    r := Repeat(b, MAX_INT);
  }

  /** Join's guard in the same way: what it refuses does not fit, or has separators of that one size. */
  lemma JoinRefuses(pieces: seq<seq<byte>>, sep: seq<byte>)
    requires 2 <= |pieces| <= MAX_INT
    ensures JoinOverflows(pieces, sep)
            <==> |Joined(pieces, sep)| > MAX_INT || (sep != [] && |sep| == MAX_INT / (|pieces| - 1))
  {
    GuardIsTight(|sep|, |pieces| - 1);
    JoinedLength(pieces, sep);
    hide Joined;
  }

  /** Repeat; None is the panic over a negative count or the length. The result is built by
      copying its own beginning, in growing chunks up to a limit. */
  method Repeat(b: seq<byte>, count: int) returns (r: Option<seq<byte>>)
    ensures r.None? <==> count < 0 || (count > 0 && |b| >= MAX_INT / count)
    ensures r.Some? ==> r.value == Repeated(b, count)
  {
    if count == 0 {
      return Some([]);
    }
    if count < 0 {
      return None;
    }
    if |b| >= MAX_INT / count {
      return None;
    }
    var n := |b| * count;
    if |b| == 0 {
      RepeatedLength(b, count);
      return Some([]);
    }
    var nb := RepeatLoop(b, count, n);
    return Some(nb);
  }

  /** bp += copy(nb[bp:], nb[:chunk]) */
  method CopyFront(nb: array<byte>, bp: nat, chunk: nat) returns (moved: nat)
    requires bp <= nb.Length && Min(chunk, nb.Length - bp) <= bp
    modifies nb
    ensures moved == Min(chunk, nb.Length - bp) && nb[..bp + moved] == old(nb[..bp]) + old(nb[..bp])[..moved]
  {
    var room: nat := nb.Length - bp;
    moved := Min(chunk, room);
    assert nb[..moved] == nb[..bp][..moved];
    CopyAt(nb, bp, nb[..moved]);
  }

  /** One round of the loop: more whole copies. */
  method DoubleCopies(nb: array<byte>, b: seq<byte>, bp: nat, chunk: nat, ghost count: nat, ghost copies: nat,
                      ghost whole: nat, ghost q: nat)
    returns (bp1: nat, ghost copies1: nat)
    requires b != [] && 1 <= copies && 1 <= q && bp == Length(b, copies) < Length(b, count) == nb.Length
    requires chunk == Length(b, whole) && (whole == copies || (whole == q && chunk < bp))
    requires nb[..bp] == Repeated(b, copies)
    modifies nb
    ensures copies < copies1 <= count && bp < bp1 == Length(b, copies1) <= nb.Length
    ensures nb[..bp1] == Repeated(b, copies1)
  {
    hide Repeated, Length;
    ghost var k := NextCopies(b, copies, count, whole, q, chunk);
    var moved := CopyFront(nb, bp, chunk);
    bp1, copies1 := bp + moved, copies + k;
  }

  method RepeatLoop(b: seq<byte>, count: nat, n: nat) returns (r: seq<byte>)
    requires b != [] && count > 0 && n == Length(b, count)
    ensures r == Repeated(b, count)
  {
    hide Repeated, Length;
    var chunkLimit := 8 * 1024;
    var chunkMax, q := ChunkMax(b, count, n, chunkLimit);
    RepeatedOnce(b);
    var nb := new byte[n];
    LengthOne(b, count);
    CopyAt(nb, 0, b);
    var bp: nat := |b|;
    ghost var copies: nat := 1;
    while bp < n
      invariant 1 <= copies <= count && bp == Length(b, copies) <= n && nb[..bp] == Repeated(b, copies)
      decreases n - bp
    {
      var chunk := bp;
      ghost var whole: nat := copies;
      if chunk > chunkMax {
        chunk := chunkMax;
        whole := q;
      }
      bp, copies := DoubleCopies(nb, b, bp, chunk, count, copies, whole, q);
    }
    AllCopied(b, copies, count);
    assert nb[..] == nb[..bp];
    return nb[..];
  }

  /** The largest chunk is a whole number q of copies. */
  method ChunkMax(b: seq<byte>, count: nat, n: nat, chunkLimit: nat) returns (chunkMax: nat, ghost q: nat)
    requires b != [] && count > 0 && n == Length(b, count)
    ensures 1 <= q && chunkMax == Length(b, q)
  {
    chunkMax, q := n, count;
    if chunkMax > chunkLimit {
      chunkMax := chunkLimit / |b| * |b|;
      q := chunkLimit / |b|;
      if chunkMax == 0 {
        chunkMax := |b|;
        q := 1;
      }
      assert q >= 1;
    }
  }

  lemma RepeatedOnce(b: seq<byte>)
    ensures Repeated(b, 1) == b
  {
    assert Repeated(b, 1) == b + Repeated(b, 0);
  }

  /** Fewer bytes are fewer copies. */
  lemma CopiesLess(size: nat, copies: nat, count: nat, whole: nat, q: nat)
    requires size > 0 && size * copies < size * count
    requires whole == copies || (whole == q && size * q < size * copies)
    ensures copies < count && whole <= copies
  {
    TimesLess(size, count, copies);
    TimesLess(size, copies, q);
  }

  lemma AllCopied(b: seq<byte>, copies: nat, count: nat)
    requires b != [] && copies <= count && Length(b, copies) >= Length(b, count)
    ensures copies == count
  {
    TimesLess(|b|, copies + 1, count);
    Distribute(|b|, copies, 1);
  }
}
