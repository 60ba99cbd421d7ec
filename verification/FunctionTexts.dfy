/** The suffixes of tester/func.go as text, with decimal numbers: what the tester compares. Different
    names have different texts. */
module FunctionTexts {
  import opened Sequences
  import opened FunctionNames

  /** strconv.Itoa. */
  function Itoa(n: nat): (s: string)
    ensures s != [] && forall i | 0 <= i < |s| :: IsDigit(s[i])
  {
    if n < 10 then [Digit(n)] else Itoa(n / 10) + [Digit(n % 10)]
  }

  predicate IsDigit(c: char) { '0' <= c <= '9' }

  function Digit(d: nat): (c: char)
    requires d < 10
    ensures IsDigit(c) && c as int == '0' as int + d
  {
    ('0' as int + d) as char
  }

  /** FunctionSuffix, as the source builds it. */
  function SuffixText(n: seq<Token>): (text: string) {
    var funs := Funs(n);
    if |funs| < 2 then ""
    else if |n| >= 2 && n[|n| - 2].Gowrap? then
      var head := if |funs| > 2 then ".func" + Itoa(funs[0].fun) else "";
      var start := if |funs| > 2 then 1 else 0;
      head + WrappedText(funs[start..|funs| - 1])
    else ".func" + Itoa(funs[0].fun) + LitsText(funs[1..|funs| - 1])
  }

  function WrappedText(fs: seq<Token>): (text: string)
    requires forall i | 0 <= i < |fs| :: fs[i].Func?
  {
    if fs == [] then ""
    else if |fs| == 1 then ".gowrap" + Itoa(fs[0].gowrap)
    else "." + Itoa(fs[0].fun) + WrappedText(fs[1..])
  }

  function LitsText(fs: seq<Token>): (text: string)
    requires forall i | 0 <= i < |fs| :: fs[i].Func?
  {
    if fs == [] then "" else "." + Itoa(fs[0].fun) + LitsText(fs[1..])
  }

  // ----- The text of a name -----

  /** The first literal of a name is .funcN, one below it .N; a wrapper is .gowrapN. */
  function Text(name: seq<Part>): (text: string) {
    if name == [] then "" else PartText(name[0], true) + RestText(name[1..])
  }

  function RestText(name: seq<Part>): (text: string)
    ensures text == [] || text[0] == '.'
  {
    if name == [] then "" else PartText(name[0], false) + RestText(name[1..])
  }

  function PartText(p: Part, first: bool): (text: string)
    ensures text != [] && text[0] == '.'
  {
    Head(p.Wrap?, first) + Itoa(p.n)
  }

  function Head(wrapped: bool, first: bool): (text: string)
    ensures text != [] && text[0] == '.'
  {
    if wrapped then ".gowrap" else if first then ".func" else "."
  }

  lemma {:induction false} LitsRest(fs: seq<Token>)
    requires forall i | 0 <= i < |fs| :: fs[i].Func?
    ensures LitsText(fs) == RestText(Lits(fs))
  {
    if fs != [] {
      LitsCons(fs);
      LitsRest(fs[1..]);
      assert Lits(fs)[0] == Lit(fs[0].fun) && Lits(fs)[1..] == Lits(fs[1..]);
    }
  }

  lemma {:induction false} WrappedRest(fs: seq<Token>)
    requires fs != [] && forall i | 0 <= i < |fs| :: fs[i].Func?
    ensures WrappedText(fs) == RestText(Lits(fs[..|fs| - 1]) + [Wrap(fs[|fs| - 1].gowrap)])
  {
    var name := Lits(fs[..|fs| - 1]) + [Wrap(fs[|fs| - 1].gowrap)];
    if |fs| == 1 {
      assert name == [Wrap(fs[0].gowrap)] && name[1..] == [];
      assert RestText(name) == PartText(name[0], false) + RestText([]);
    } else {
      var rest := fs[1..];
      WrappedRest(rest);
      assert fs[..|fs| - 1][1..] == rest[..|rest| - 1] && rest[|rest| - 1] == fs[|fs| - 1];
      assert name[0] == Lit(fs[0].fun);
      assert name[1..] == Lits(rest[..|rest| - 1]) + [Wrap(rest[|rest| - 1].gowrap)];
    }
  }

  /** The text the source builds is that of the name. */
  lemma SuffixIsText(n: seq<Token>)
    ensures SuffixText(n) == Text(FunctionSuffix(n))
  {
    hide Funs, Itoa, LitsText, WrappedText;
    var funs, name := Funs(n), FunctionSuffix(n);
    if |funs| >= 2 {
      if |n| >= 2 && n[|n| - 2].Gowrap? {
        if |funs| > 2 {
          var fs := funs[1..|funs| - 1];
          WrappedRest(fs);
          assert name[0] == Lit(funs[0].fun) && name[1..] == Lits(fs[..|fs| - 1]) + [Wrap(fs[|fs| - 1].gowrap)];
        } else {
          var fs := funs[0..|funs| - 1];
          WrappedRest(fs);
          assert name == [Wrap(fs[0].gowrap)];
          assert RestText([]) == "" && name[1..] == [];
        }
      } else {
        var fs := funs[1..|funs| - 1];
        assert forall i | 0 <= i < |fs| :: fs[i] == funs[i + 1];
        LitsRest(fs);
        assert name[0] == Lit(funs[0].fun) && name[1..] == Lits(fs);
      }
    }
  }

  // ----- Different names, different texts -----

  lemma {:induction false} ItoaDiffers(n: nat, m: nat)
    requires Itoa(n) == Itoa(m)
    ensures n == m
    decreases n
  {
    var s, t := Itoa(n), Itoa(m);
    assert s[|s| - 1] == t[|t| - 1] && (n >= 10 <==> |s| > 1) && (m >= 10 <==> |t| > 1);
    if n >= 10 {
      assert s[..|s| - 1] == Itoa(n / 10) && t[..|t| - 1] == Itoa(m / 10);
      ItoaDiffers(n / 10, m / 10);
    }
  }

  /** How many digits begin a text. */
  function Leading(text: string): (k: nat) {
    if text == [] || !IsDigit(text[0]) then 0 else 1 + Leading(text[1..])
  }

  lemma {:induction false} LeadingNumber(s: string, a: string)
    requires (forall i | 0 <= i < |s| :: IsDigit(s[i])) && (a == [] || a[0] == '.')
    ensures Leading(s + a) == |s|
  {
    if s == [] {
      assert s + a == a;
    } else {
      assert (s + a)[1..] == s[1..] + a;
      LeadingNumber(s[1..], a);
    }
  }

  /** A number ends where something other than a digit follows. */
  lemma NumberEnds(n: nat, m: nat, a: string, b: string)
    requires Itoa(n) + a == Itoa(m) + b && (a == [] || a[0] == '.') && (b == [] || b[0] == '.')
    ensures n == m && a == b
  {
    hide Itoa, Leading;
    var s, t := Itoa(n), Itoa(m);
    LeadingNumber(s, a);
    LeadingNumber(t, b);
    assert (s + a)[..|s|] == s && (t + b)[..|t|] == t;
    assert (s + a)[|s|..] == a && (t + b)[|t|..] == b;
    ItoaDiffers(n, m);
  }

  /** The second character of a part tells wrappers from literals. */
  lemma SecondCharacter(wrapped: bool, first: bool, n: nat, a: string)
    ensures var s := Head(wrapped, first) + Itoa(n) + a; |s| > 1 && (s[1] == 'g' <==> wrapped)
  {
    hide Itoa;
    var number := Itoa(n);
    if !wrapped && !first {
      assert (Head(wrapped, first) + number + a)[1] == number[0];
    }
  }

  lemma PartEnds(p: Part, q: Part, first: bool, a: string, b: string)
    requires PartText(p, first) + a == PartText(q, first) + b && (a == [] || a[0] == '.') && (b == [] || b[0] == '.')
    ensures p == q && a == b
  {
    hide Itoa, Head;
    SecondCharacter(p.Wrap?, first, p.n, a);
    SecondCharacter(q.Wrap?, first, q.n, b);
    var head := Head(p.Wrap?, first);
    Assoc(head, Itoa(p.n), a);
    Assoc(head, Itoa(q.n), b);
    Suffix(head, Itoa(p.n) + a);
    Suffix(head, Itoa(q.n) + b);
    NumberEnds(p.n, q.n, a, b);
  }

  lemma {:induction false} RestDiffers(a: seq<Part>, b: seq<Part>)
    requires RestText(a) == RestText(b)
    ensures a == b
  {
    hide PartText;
    if a != [] && b != [] {
      PartEnds(a[0], b[0], false, RestText(a[1..]), RestText(b[1..]));
      RestDiffers(a[1..], b[1..]);
      assert a == [a[0]] + a[1..] && b == [b[0]] + b[1..];
    }
  }

  /** Different names have different texts. */
  lemma TextDiffers(a: seq<Part>, b: seq<Part>)
    ensures Text(a) == Text(b) <==> a == b
  {
    hide PartText, RestText;
    if Text(a) == Text(b) && a != [] && b != [] {
      PartEnds(a[0], b[0], true, RestText(a[1..]), RestText(b[1..]));
      RestDiffers(a[1..], b[1..]);
      assert a == [a[0]] + a[1..] && b == [b[0]] + b[1..];
    }
  }
}
