/** How the tester names the function literals of a Go declaration (tester/func.go and
    tester/annotations.go): a traversal that pushes, pops and counts on a stack of tokens. */
module FunctionNames {
  import opened Basics

  /** A function literal with the numbers of its next literal and next wrapper, or the mark of a
      go or defer statement that wraps a call with parameters. */
  datatype Token = Func(fun: nat, gowrap: nat) | Gowrap

  /** A syntax tree as far as naming goes. GoLit is a go or defer statement on a literal with
      parameters; GoCall and DeferCall are those on another function. */
  datatype Node =
    | FuncLit(body: seq<Node>)
    | GoLit(body: seq<Node>, args: seq<Node>)
    | GoCall(fun: seq<Node>, args: seq<Node>)
    | DeferCall(fun: seq<Node>, args: seq<Node>)
    | Other(children: seq<Node>)

  /** One part of a suffix: .funcN or .N for a literal, .gowrapN for a wrapper. */
  datatype Part = Lit(n: nat) | Wrap(n: nat)

  // ----- The stack -----

  function Funs(n: seq<Token>): (funs: seq<Token>)
    ensures forall i | 0 <= i < |funs| :: funs[i].Func?
  {
    if n == [] then [] else if n[0].Func? then [n[0]] + Funs(n[1..]) else Funs(n[1..])
  }

  function Lits(funs: seq<Token>): (parts: seq<Part>)
    requires forall i | 0 <= i < |funs| :: funs[i].Func?
    ensures |parts| == |funs|
  {
    seq(|funs|, i requires 0 <= i < |funs| => Lit(funs[i].fun))
  }

  /** FunctionSuffix: the function on top names what encloses it. */
  function FunctionSuffix(n: seq<Token>): (parts: seq<Part>) {
    var funs := Funs(n);
    if |funs| < 2 then []
    else if |n| >= 2 && n[|n| - 2].Gowrap? then
      var head := if |funs| > 2 then [Lit(funs[0].fun)] else [];
      var fs := funs[|head|..|funs| - 1];
      head + Lits(fs[..|fs| - 1]) + [Wrap(fs[|fs| - 1].gowrap)]
    else [Lit(funs[0].fun)] + Lits(funs[1..|funs| - 1])
  }

  /** The position of the innermost function on the stack, or -1. */
  function Innermost(n: seq<Token>): (i: int)
    ensures -1 <= i < |n| && (i >= 0 ==> n[i].Func?)
    ensures forall j | i < j < |n| :: n[j].Gowrap?
  {
    if n == [] then -1 else if n[|n| - 1].Func? then |n| - 1 else Innermost(n[..|n| - 1])
  }

  function Top(n: seq<Token>): (t: Option<Token>)
    ensures t.Some? ==> t.value.Func?
  {
    if Innermost(n) < 0 then None else Some(n[Innermost(n)])
  }

  /** The stack with new counters in its innermost function. */
  function WithTop(n: seq<Token>, t: Option<Token>): (m: seq<Token>)
    ensures |m| == |n|
  {
    if Innermost(n) < 0 || t.None? then n else n[Innermost(n) := t.value]
  }

  function BumpFun(t: Option<Token>): (r: Option<Token>) {
    if t.Some? && t.value.Func? then Some(Func(t.value.fun + 1, t.value.gowrap)) else None
  }

  function BumpWrap(t: Option<Token>): (r: Option<Token>) {
    if t.Some? && t.value.Func? then Some(Func(t.value.fun, t.value.gowrap + 1)) else None
  }

  // ----- What the traversal does, on counters alone -----

  datatype Outcome = Outcome(top: Option<Token>, names: seq<seq<Part>>)

  /** The suffix of a literal below the path p, given the counters of the function around it. */
  function NameOf(p: seq<Part>, top: Option<Token>, wrapped: bool): (name: seq<Part>) {
    match top
    case Some(Func(fun, gowrap)) => p + [if wrapped then Wrap(gowrap) else Lit(fun)]
    case _ => []
  }

  /** The path inside such a literal. */
  function Inner(p: seq<Part>, top: Option<Token>): (q: seq<Part>) {
    match top
    case Some(Func(fun, _)) => p + [Lit(fun)]
    case _ => []
  }

  /** All literals below a node, in order, each with its suffix; and the counters afterwards. A go
      statement on another function names that call, too. */
  function Named(n: Node, p: seq<Part>, top: Option<Token>): (o: Outcome)
    decreases n
  {
    match n
    case FuncLit(body) =>
      Outcome(BumpFun(top), [NameOf(p, top, false)] + NamedAll(body, Inner(p, top), Some(Func(1, 1))).names)
    case GoLit(body, args) =>
      var inside := NamedAll(body, Inner(p, top), Some(Func(1, 1))).names;
      var rest := NamedAll(args, p, BumpWrap(BumpFun(top)));
      Outcome(rest.top, [NameOf(p, top, true)] + inside + rest.names)
    case GoCall(fun, args) =>
      var first := NamedAll(fun, p, top);
      var second := NamedAll(args, p, first.top);
      Outcome(BumpWrap(second.top), first.names + second.names + [NameOf(p, second.top, true)])
    case DeferCall(fun, args) =>
      var first := NamedAll(fun, p, top);
      var second := NamedAll(args, p, first.top);
      Outcome(BumpWrap(second.top), first.names + second.names)
    case Other(children) => NamedAll(children, p, top)
  }

  function NamedAll(ns: seq<Node>, p: seq<Part>, top: Option<Token>): (o: Outcome)
    decreases ns
  {
    if ns == [] then Outcome(top, [])
    else
      var first := Named(ns[0], p, top);
      var rest := NamedAll(ns[1..], p, first.top);
      Outcome(rest.top, first.names + rest.names)
  }

  // ----- Names are unique -----

  /** The name begins with p and a part counted from lo to hi; only a literal has names below. */
  predicate Between(name: seq<Part>, p: seq<Part>, lo: Token, hi: Token)
    requires lo.Func? && hi.Func?
  {
    && |p| < |name| && name[..|p|] == p
    && match name[|p|]
       case Lit(n) => lo.fun <= n < hi.fun
       case Wrap(n) => lo.gowrap <= n < hi.gowrap && |name| == |p| + 1
  }

  /** Names made while the counters went from lo to hi. */
  ghost predicate Fresh(names: seq<seq<Part>>, p: seq<Part>, lo: Token, hi: Token)
    requires lo.Func? && hi.Func?
  {
    && lo.fun <= hi.fun && lo.gowrap <= hi.gowrap
    && (forall i | 0 <= i < |names| :: Between(names[i], p, lo, hi))
    && (forall i, j | 0 <= i < j < |names| :: names[i] != names[j])
  }

  lemma FreshConcat(a: seq<seq<Part>>, b: seq<seq<Part>>, p: seq<Part>, lo: Token, mid: Token, hi: Token)
    requires lo.Func? && mid.Func? && hi.Func? && Fresh(a, p, lo, mid) && Fresh(b, p, mid, hi)
    ensures Fresh(a + b, p, lo, hi)
  {
    var s := a + b;
    forall i | 0 <= i < |s|
      ensures Between(s[i], p, lo, hi)
    {
      assert i < |a| ==> s[i] == a[i];
      assert i >= |a| ==> s[i] == b[i - |a|];
    }
    forall i, j | 0 <= i < j < |s|
      ensures s[i] != s[j]
    {
      if j < |a| {
        assert s[i] == a[i] && s[j] == a[j];
      } else if i >= |a| {
        assert s[i] == b[i - |a|] && s[j] == b[j - |a|];
      } else {
        assert Between(a[i], p, lo, mid) && Between(b[j - |a|], p, mid, hi);
      }
    }
  }

  lemma FreshNone(p: seq<Part>, t: Token)
    requires t.Func?
    ensures Fresh([], p, t, t)
  {
  }

  /** A literal and everything inside it. */
  lemma FreshLiteral(inside: seq<seq<Part>>, p: seq<Part>, t: Token, wrapped: bool, end: Token)
    requires t.Func? && end.Func? && Fresh(inside, p + [Lit(t.fun)], Func(1, 1), end)
    ensures Fresh([NameOf(p, Some(t), wrapped)] + inside, p, t, Func(t.fun + 1, t.gowrap + if wrapped then 1 else 0))
  {
    var q := p + [Lit(t.fun)];
    var own := NameOf(p, Some(t), wrapped);
    var hi := Func(t.fun + 1, t.gowrap + if wrapped then 1 else 0);
    var s := [own] + inside;
    forall i | 0 <= i < |s|
      ensures Between(s[i], p, t, hi)
      ensures i > 0 ==> s[i] != own
    {
      if i > 0 {
        assert Between(inside[i - 1], q, Func(1, 1), end);
        assert s[i][..|p|] == s[i][..|q|][..|p|] == p;
        assert s[i][|p|] == s[i][..|q|][|p|] == Lit(t.fun);
      }
    }
    forall i, j | 0 <= i < j < |s|
      ensures s[i] != s[j]
    {
      if i > 0 {
        assert s[i] == inside[i - 1] && s[j] == inside[j - 1];
      }
    }
  }

  lemma FreshCall(p: seq<Part>, t: Token)
    requires t.Func?
    ensures Fresh([NameOf(p, Some(t), true)], p, t, Func(t.fun, t.gowrap + 1))
  {
    assert (p + [Wrap(t.gowrap)])[..|p|] == p;
  }

  /** Counters that only grow make nothing old new. */
  lemma FreshLonger(names: seq<seq<Part>>, p: seq<Part>, lo: Token, mid: Token, hi: Token)
    requires lo.Func? && mid.Func? && hi.Func? && Fresh(names, p, lo, mid)
    requires mid.fun <= hi.fun && mid.gowrap <= hi.gowrap
    ensures Fresh(names, p, lo, hi)
  {
    forall i | 0 <= i < |names|
      ensures Between(names[i], p, lo, hi)
    {
      assert Between(names[i], p, lo, mid);
    }
  }

  /** Below one function, all names differ, and the counters tell new ones from old ones. */
  lemma {:induction false} NamesDiffer(n: Node, p: seq<Part>, t: Token)
    requires t.Func?
    ensures var o := Named(n, p, Some(t));
            o.top.Some? && o.top.value.Func? && Fresh(o.names, p, t, o.top.value)
    decreases n
  {
    hide Fresh;
    match n
    case FuncLit(body) =>
      AllNamesDiffer(body, Inner(p, Some(t)), Func(1, 1));
      var inside := NamedAll(body, Inner(p, Some(t)), Some(Func(1, 1)));
      FreshLiteral(inside.names, p, t, false, inside.top.value);
    case GoLit(body, args) =>
      AllNamesDiffer(body, Inner(p, Some(t)), Func(1, 1));
      var inside := NamedAll(body, Inner(p, Some(t)), Some(Func(1, 1)));
      FreshLiteral(inside.names, p, t, true, inside.top.value);
      var mid := Func(t.fun + 1, t.gowrap + 1);
      AllNamesDiffer(args, p, mid);
      var rest := NamedAll(args, p, Some(mid));
      FreshConcat([NameOf(p, Some(t), true)] + inside.names, rest.names, p, t, mid, rest.top.value);
    case GoCall(fun, args) =>
      AllNamesDiffer(fun, p, t);
      var first := NamedAll(fun, p, Some(t));
      AllNamesDiffer(args, p, first.top.value);
      var second := NamedAll(args, p, first.top);
      FreshConcat(first.names, second.names, p, t, first.top.value, second.top.value);
      FreshCall(p, second.top.value);
      FreshConcat(first.names + second.names, [NameOf(p, second.top, true)], p, t, second.top.value,
        BumpWrap(second.top).value);
    case DeferCall(fun, args) =>
      AllNamesDiffer(fun, p, t);
      var first := NamedAll(fun, p, Some(t));
      AllNamesDiffer(args, p, first.top.value);
      var second := NamedAll(args, p, first.top);
      FreshConcat(first.names, second.names, p, t, first.top.value, second.top.value);
      FreshLonger(first.names + second.names, p, t, second.top.value, BumpWrap(second.top).value);
    case Other(children) => AllNamesDiffer(children, p, t);
  }

  lemma {:induction false} AllNamesDiffer(ns: seq<Node>, p: seq<Part>, t: Token)
    requires t.Func?
    ensures var o := NamedAll(ns, p, Some(t));
            o.top.Some? && o.top.value.Func? && Fresh(o.names, p, t, o.top.value)
    decreases ns
  {
    hide Fresh;
    if ns == [] {
      FreshNone(p, t);
    } else {
      NamesDiffer(ns[0], p, t);
      var first := Named(ns[0], p, Some(t));
      AllNamesDiffer(ns[1..], p, first.top.value);
      var rest := NamedAll(ns[1..], p, first.top);
      FreshConcat(first.names, rest.names, p, t, first.top.value, rest.top.value);
    }
  }

  // ----- Exactly when -----

  ghost predicate Distinct(names: seq<seq<Part>>) { forall i, j | 0 <= i < j < |names| :: names[i] != names[j] }

  /** The literals, and the calls a go statement wraps, that are in no other literal. */
  function Outermost(n: Node): (k: nat)
    decreases n
  {
    match n
    case FuncLit(_) => 1
    case GoLit(_, args) => 1 + OutermostIn(args)
    case GoCall(fun, args) => OutermostIn(fun) + OutermostIn(args) + 1
    case DeferCall(fun, args) => OutermostIn(fun) + OutermostIn(args)
    case Other(children) => OutermostIn(children)
  }

  function OutermostIn(ns: seq<Node>): (k: nat)
    decreases ns
  {
    if ns == [] then 0 else Outermost(ns[0]) + OutermostIn(ns[1..])
  }

  /** Names given outside any function: an empty one for each of the k outermost, and what is inside
      a single one is not empty and told apart by its counters. */
  ghost predicate Unscoped(names: seq<seq<Part>>, k: nat) {
    && multiset(names)[[]] == k
    && (k == 0 ==> names == [])
    && (k == 1 ==> Single(names))
  }

  ghost predicate Single(names: seq<seq<Part>>) {
    names != [] && names[0] == [] && exists end: Token :: end.Func? && Fresh(names[1..], [], Func(1, 1), end)
  }

  lemma FreshNotEmpty(names: seq<seq<Part>>, lo: Token, hi: Token)
    requires lo.Func? && hi.Func? && Fresh(names, [], lo, hi)
    ensures [] !in names
  {
    assert forall i | 0 <= i < |names| :: Between(names[i], [], lo, hi);
  }

  lemma UnscopedConcat(a: seq<seq<Part>>, b: seq<seq<Part>>, k: nat, m: nat)
    requires Unscoped(a, k) && Unscoped(b, m)
    ensures Unscoped(a + b, k + m)
  {
    hide Single;
    assert k == 0 ==> a + b == b;
    assert m == 0 ==> a + b == a;
  }

  lemma UnscopedLiteral(inside: seq<seq<Part>>, end: Token)
    requires end.Func? && Fresh(inside, [], Func(1, 1), end)
    ensures Unscoped([[]] + inside, 1)
  {
    FreshNotEmpty(inside, Func(1, 1), end);
    assert ([[]] + inside)[1..] == inside;
  }

  lemma UnscopedCall(before: seq<seq<Part>>, k: nat)
    requires Unscoped(before, k)
    ensures Unscoped(before + [[]], k + 1)
  {
    hide Unscoped;
    FreshNone([], Func(1, 1));
    UnscopedLiteral([], Func(1, 1));
    var own: seq<seq<Part>> := [[]];
    assert own + [] == own;
    UnscopedConcat(before, own, k, 1);
  }

  lemma UnscopedInside(body: seq<Node>)
    ensures Unscoped([[]] + NamedAll(body, [], Some(Func(1, 1))).names, 1)
  {
    hide Unscoped, Fresh;
    AllNamesDiffer(body, [], Func(1, 1));
    var inside := NamedAll(body, [], Some(Func(1, 1)));
    UnscopedLiteral(inside.names, inside.top.value);
  }

  lemma {:induction false} UnscopedNames(n: Node)
    ensures Named(n, [], None).top == None && Unscoped(Named(n, [], None).names, Outermost(n))
    decreases n
  {
    hide Unscoped;
    match n
    case FuncLit(body) => UnscopedInside(body);
    case GoLit(body, args) =>
      UnscopedInside(body);
      AllUnscopedNames(args);
      UnscopedConcat([[]] + NamedAll(body, [], Some(Func(1, 1))).names, NamedAll(args, [], None).names, 1,
        OutermostIn(args));
    case GoCall(fun, args) =>
      AllUnscopedNames(fun);
      AllUnscopedNames(args);
      UnscopedConcat(NamedAll(fun, [], None).names, NamedAll(args, [], None).names, OutermostIn(fun),
        OutermostIn(args));
      UnscopedCall(NamedAll(fun, [], None).names + NamedAll(args, [], None).names,
        OutermostIn(fun) + OutermostIn(args));
    case DeferCall(fun, args) =>
      AllUnscopedNames(fun);
      AllUnscopedNames(args);
      UnscopedConcat(NamedAll(fun, [], None).names, NamedAll(args, [], None).names, OutermostIn(fun),
        OutermostIn(args));
    case Other(children) => AllUnscopedNames(children);
  }

  lemma {:induction false} AllUnscopedNames(ns: seq<Node>)
    ensures NamedAll(ns, [], None).top == None && Unscoped(NamedAll(ns, [], None).names, OutermostIn(ns))
    decreases ns
  {
    if ns != [] {
      hide Unscoped;
      UnscopedNames(ns[0]);
      AllUnscopedNames(ns[1..]);
      UnscopedConcat(Named(ns[0], [], None).names, NamedAll(ns[1..], [], None).names, Outermost(ns[0]),
        OutermostIn(ns[1..]));
    }
  }

  lemma UnscopedDistinct(names: seq<seq<Part>>, k: nat)
    requires Unscoped(names, k)
    ensures Distinct(names) <==> k <= 1
  {
    if k == 1 {
      var end: Token :| end.Func? && Fresh(names[1..], [], Func(1, 1), end);
      FreshNotEmpty(names[1..], Func(1, 1), end);
      forall i, j | 0 <= i < j < |names|
        ensures names[i] != names[j]
      {
        assert names[j] == names[1..][j - 1];
        assert i > 0 ==> names[i] == names[1..][i - 1];
      }
    } else if k > 1 && Distinct(names) {
      DistinctOnce(names, []);
    }
  }

  lemma {:induction false} DistinctOnce(names: seq<seq<Part>>, name: seq<Part>)
    requires Distinct(names)
    ensures multiset(names)[name] <= 1
  {
    if names != [] {
      var rest := names[1..];
      assert names == [names[0]] + rest;
      assert forall i | 0 <= i < |rest| :: rest[i] == names[i + 1];
      DistinctOnce(rest, name);
      assert names[0] !in rest;
    }
  }

  /** The names given to the function literals of a tree, and to the calls its go statements wrap,
      are distinct exactly when there is a function around them or no more than one is outermost. */
  lemma NamesDistinct(ns: seq<Node>, p: seq<Part>, top: Option<Token>)
    requires if top.Some? then top.value.Func? else p == []
    ensures Distinct(NamedAll(ns, p, top).names) <==> top.Some? || OutermostIn(ns) <= 1
  {
    if top.Some? {
      AllNamesDiffer(ns, p, top.value);
    } else {
      AllUnscopedNames(ns);
      UnscopedDistinct(NamedAll(ns, p, top).names, OutermostIn(ns));
    }
  }

  /** Within one function declaration no two literals, and no two wrapped calls, get the same
      suffix. */
  lemma DeclarationNamesDiffer(body: seq<Node>, i: nat, j: nat)
    requires var names := NamedAll(body, [], Some(Func(1, 1))).names; i < j < |names|
    ensures var names := NamedAll(body, [], Some(Func(1, 1))).names; names[i] != names[j]
  {
    NamesDistinct(body, [], Some(Func(1, 1)));
  }

  /** Two literals next to each other, outside any declaration. */
  lemma PackageLevelNames()
    ensures !Distinct(NamedAll([FuncLit([]), FuncLit([])], [], None).names)
  {
    assert [FuncLit([]), FuncLit([])][1..] == [FuncLit([])];
    NamesDistinct([FuncLit([]), FuncLit([])], [], None);
  }

  // ----- Numbers are consecutive -----

  /** The literals that are in no other literal. */
  function Literals(n: Node): (k: nat)
    decreases n
  {
    match n
    case FuncLit(_) => 1
    case GoLit(_, args) => 1 + LiteralsIn(args)
    case GoCall(fun, args) => LiteralsIn(fun) + LiteralsIn(args)
    case DeferCall(fun, args) => LiteralsIn(fun) + LiteralsIn(args)
    case Other(children) => LiteralsIn(children)
  }

  function LiteralsIn(ns: seq<Node>): (k: nat)
    decreases ns
  {
    if ns == [] then 0 else Literals(ns[0]) + LiteralsIn(ns[1..])
  }

  /** The go and defer statements with a wrapper that are in no literal. */
  function Wrappers(n: Node): (k: nat)
    decreases n
  {
    match n
    case FuncLit(_) => 0
    case GoLit(_, args) => 1 + WrappersIn(args)
    case GoCall(fun, args) => WrappersIn(fun) + WrappersIn(args) + 1
    case DeferCall(fun, args) => WrappersIn(fun) + WrappersIn(args) + 1
    case Other(children) => WrappersIn(children)
  }

  function WrappersIn(ns: seq<Node>): (k: nat)
    decreases ns
  {
    if ns == [] then 0 else Wrappers(ns[0]) + WrappersIn(ns[1..])
  }

  lemma {:induction false} Counts(n: Node, p: seq<Part>, f: nat, g: nat)
    ensures Named(n, p, Some(Func(f, g))).top == Some(Func(f + Literals(n), g + Wrappers(n)))
    decreases n
  {
    match n
    case FuncLit(_) =>
    case GoLit(_, args) => AllCounts(args, p, f + 1, g + 1);
    case GoCall(fun, args) =>
      AllCounts(fun, p, f, g);
      AllCounts(args, p, f + LiteralsIn(fun), g + WrappersIn(fun));
    case DeferCall(fun, args) =>
      AllCounts(fun, p, f, g);
      AllCounts(args, p, f + LiteralsIn(fun), g + WrappersIn(fun));
    case Other(children) => AllCounts(children, p, f, g);
  }

  lemma {:induction false} AllCounts(ns: seq<Node>, p: seq<Part>, f: nat, g: nat)
    ensures NamedAll(ns, p, Some(Func(f, g))).top == Some(Func(f + LiteralsIn(ns), g + WrappersIn(ns)))
    decreases ns
  {
    if ns != [] {
      Counts(ns[0], p, f, g);
      AllCounts(ns[1..], p, f + Literals(ns[0]), g + Wrappers(ns[0]));
    }
  }

  lemma {:induction false} NamedConcat(a: seq<Node>, b: seq<Node>, p: seq<Part>, top: Option<Token>)
    ensures var first := NamedAll(a, p, top);
            var second := NamedAll(b, p, first.top);
            NamedAll(a + b, p, top) == Outcome(second.top, first.names + second.names)
    decreases |a|
  {
    if a == [] {
      assert a + b == b;
    } else {
      assert (a + b)[0] == a[0] && (a + b)[1..] == a[1..] + b;
      NamedConcat(a[1..], b, p, Named(a[0], p, top).top);
    }
  }

  /** The names of one statement among others: it finds the counters where those before it left them. */
  lemma NamedAmong(a: seq<Node>, n: Node, b: seq<Node>, p: seq<Part>, f: nat, g: nat)
    ensures NamedAll(a, p, Some(Func(f, g))).names
              + Named(n, p, Some(Func(f + LiteralsIn(a), g + WrappersIn(a)))).names
            <= NamedAll(a + [n] + b, p, Some(Func(f, g))).names
  {
    hide Named, NamedAll, LiteralsIn, WrappersIn;
    var top := Some(Func(f, g));
    NamedConcat(a + [n], b, p, top);
    NamedConcat(a, [n], p, top);
    AllCounts(a, p, f, g);
    OneNamed(n, p, NamedAll(a, p, top).top);
  }

  /** What a statement names first, the counters standing at k and w: a literal is number k, and what is
      inside is numbered from one below it; a wrapped one is number w; a wrapped call comes last, after
      the wrappers among its operands. */
  predicate StartsWith(n: Node, p: seq<Part>, k: nat, w: nat, names: seq<seq<Part>>) {
    match n
    case FuncLit(body) => [p + [Lit(k)]] + NamedAll(body, p + [Lit(k)], Some(Func(1, 1))).names <= names
    case GoLit(body, _) => [p + [Wrap(w)]] + NamedAll(body, p + [Lit(k)], Some(Func(1, 1))).names <= names
    case GoCall(fun, args) =>
      && names != [] && names[|names| - 1] == p + [Wrap(w + WrappersIn(fun) + WrappersIn(args))]
      && names[..|names| - 1] == NamedAll(fun + args, p, Some(Func(k, w))).names
    case _ => true
  }

  lemma OwnNumber(n: Node, p: seq<Part>, k: nat, w: nat)
    ensures StartsWith(n, p, k, w, Named(n, p, Some(Func(k, w))).names)
  {
    if n.GoCall? {
      NamedConcat(n.fun, n.args, p, Some(Func(k, w)));
      AllCounts(n.fun, p, k, w);
      AllCounts(n.args, p, k + LiteralsIn(n.fun), w + WrappersIn(n.fun));
    }
  }

  /** Numbers are consecutive: behind the statements a, in a function whose counters stood at f and g,
      a literal is number f plus the literals among them, and a wrapper g plus the wrappers. */
  lemma NumberedInOrder(a: seq<Node>, n: Node, b: seq<Node>, p: seq<Part>, f: nat, g: nat) returns (own: seq<seq<Part>>)
    ensures NamedAll(a, p, Some(Func(f, g))).names + own <= NamedAll(a + [n] + b, p, Some(Func(f, g))).names
    ensures StartsWith(n, p, f + LiteralsIn(a), g + WrappersIn(a), own)
  {
    own := Named(n, p, Some(Func(f + LiteralsIn(a), g + WrappersIn(a)))).names;
    NamedAmong(a, n, b, p, f, g);
    OwnNumber(n, p, f + LiteralsIn(a), g + WrappersIn(a));
  }

  lemma OneNamed(n: Node, p: seq<Part>, top: Option<Token>)
    ensures NamedAll([n], p, top).names == Named(n, p, top).names
  {
    assert [n][1..] == [];
    assert Named(n, p, top).names + [] == Named(n, p, top).names;
  }

  // ----- The traversal on the stack -----

  /** The path to the innermost function. */
  function PathOf(n: seq<Token>): (p: seq<Part>) {
    var funs := Funs(n);
    if funs == [] then [] else Lits(funs[..|funs| - 1])
  }

  lemma {:induction false} FunsSnoc(n: seq<Token>, t: Token)
    ensures Funs(n + [t]) == if t.Func? then Funs(n) + [t] else Funs(n)
  {
    if n == [] {
      assert Funs([t]) == if t.Func? then [t] + Funs([]) else Funs([]);
    } else {
      assert (n + [t])[1..] == n[1..] + [t];
      FunsSnoc(n[1..], t);
    }
  }

  /** The innermost function is the last of the functions on the stack. */
  lemma {:induction false} TopIsLast(n: seq<Token>)
    ensures Top(n) == if Funs(n) == [] then None else Some(Funs(n)[|Funs(n)| - 1])
    decreases |n|
  {
    if n != [] {
      var rest := n[..|n| - 1];
      assert n == rest + [n[|n| - 1]];
      FunsSnoc(rest, n[|n| - 1]);
      TopIsLast(rest);
    }
  }

  /** Changing the counters of the innermost function changes no path. */
  lemma {:induction false} WithTopFuns(n: seq<Token>, t: Option<Token>)
    requires t.Some? ==> t.value.Func?
    ensures Funs(WithTop(n, t)) == if Funs(n) == [] || t.None? then Funs(n) else Funs(n)[..|Funs(n)| - 1] + [t.value]
    ensures Innermost(WithTop(n, t)) == Innermost(n)
    decreases |n|
  {
    if n != [] && t.Some? {
      var rest, last := n[..|n| - 1], n[|n| - 1];
      assert n == rest + [last];
      FunsSnoc(rest, last);
      if last.Func? {
        assert WithTop(n, t) == rest + [t.value];
        FunsSnoc(rest, t.value);
      } else {
        WithTopFuns(rest, t);
        assert WithTop(n, t) == WithTop(rest, t) + [last];
        FunsSnoc(WithTop(rest, t), last);
        assert (WithTop(rest, t) + [last])[..|n| - 1] == WithTop(rest, t);
      }
    }
  }

  /** The counters and the path after a change. */
  lemma AfterTop(n: seq<Token>, t: Option<Token>)
    requires (Top(n).Some? <==> t.Some?) && (t.Some? ==> t.value.Func?)
    ensures Top(WithTop(n, t)) == t && PathOf(WithTop(n, t)) == PathOf(n)
    ensures forall u: Option<Token> | u.Some? <==> t.Some? :: WithTop(WithTop(n, t), u) == WithTop(n, u)
    ensures WithTop(n, Top(n)) == n
  {
    WithTopFuns(n, t);
    TopIsLast(n);
  }

  /** Pushing a mark hides nothing; pushing a function starts a new level. */
  lemma Pushed(n: seq<Token>, t: Option<Token>)
    requires t.Some? ==> t.value.Func?
    ensures Top(n + [Gowrap]) == Top(n) && PathOf(n + [Gowrap]) == PathOf(n)
    ensures WithTop(n + [Gowrap], t) == WithTop(n, t) + [Gowrap]
    ensures Top(n + [Func(1, 1)]) == Some(Func(1, 1)) && PathOf(n + [Func(1, 1)]) == Inner(PathOf(n), Top(n))
    ensures t.Some? ==> WithTop(n + [Func(1, 1)], t) == n + [t.value]
  {
    hide Funs, Lits, PathOf, Inner;
    assert (n + [Gowrap])[..|n|] == n;
    assert (n + [Func(1, 1)])[..|n|] == n;
    PathPushed(n);
  }

  /** A wrapper pushed and popped again leaves the stack as it was, with one more wrapper counted. */
  lemma PushedPopped(n: seq<Token>)
    ensures var m := n + [Gowrap];
            WithTop(m, BumpWrap(Top(m)))[..|m| - 1] == WithTop(n, BumpWrap(Top(n)))
  {
    Pushed(n, BumpWrap(Top(n)));
    var m := n + [Gowrap];
    assert (WithTop(n, BumpWrap(Top(n))) + [Gowrap])[..|m| - 1] == WithTop(n, BumpWrap(Top(n)));
  }

  lemma PathPushed(n: seq<Token>)
    ensures PathOf(n + [Gowrap]) == PathOf(n) && PathOf(n + [Func(1, 1)]) == Inner(PathOf(n), Top(n))
  {
    FunsSnoc(n, Gowrap);
    FunsSnoc(n, Func(1, 1));
    TopIsLast(n);
    var funs := Funs(n);
    assert (funs + [Func(1, 1)])[..|funs|] == funs;
    if funs == [] {
      LitsNone();
    } else {
      var init := funs[..|funs| - 1];
      assert funs == init + [funs[|funs| - 1]];
      LitsSnoc(init, funs[|funs| - 1]);
    }
    hide Funs, Top, Lits;
  }

  lemma LitsSnoc(funs: seq<Token>, t: Token)
    requires t.Func? && forall i | 0 <= i < |funs| :: funs[i].Func?
    ensures Lits(funs + [t]) == Lits(funs) + [Lit(t.fun)]
  {
  }

  lemma LitsCons(funs: seq<Token>)
    requires funs != [] && forall i | 0 <= i < |funs| :: funs[i].Func?
    ensures [Lit(funs[0].fun)] + Lits(funs[1..]) == Lits(funs)
  {
  }

  /** The suffix inside a literal is the name the counters give it. */
  lemma SuffixIsName(n: seq<Token>, f: Token)
    requires f.Func?
    ensures FunctionSuffix(n + [f]) == NameOf(PathOf(n), Top(n), n != [] && n[|n| - 1].Gowrap?)
  {
    FunsSnoc(n, f);
    TopIsLast(n);
    hide Funs, Lits, Top;
    var funs := Funs(n);
    var all := funs + [f];
    if funs != [] {
      OuterAndInner(funs);
      assert all[1..|funs|] == funs[1..];
      if |funs| > 1 {
        assert funs[1..][..|funs| - 2] == funs[1..|funs| - 1];
      } else {
        assert all[0..1] == funs && funs[..0] == [];
      }
    }
  }

  /** The literals but the first, or but the last. */
  lemma OuterAndInner(funs: seq<Token>)
    requires funs != [] && forall i | 0 <= i < |funs| :: funs[i].Func?
    ensures [Lit(funs[0].fun)] + Lits(funs[1..]) == Lits(funs[..|funs| - 1]) + [Lit(funs[|funs| - 1].fun)]
    ensures if |funs| == 1 then Lits(funs[..0]) == []
            else [Lit(funs[0].fun)] + Lits(funs[1..|funs| - 1]) == Lits(funs[..|funs| - 1])
  {
    hide Lits;
    var init, last := funs[..|funs| - 1], funs[|funs| - 1];
    assert funs == init + [last];
    LitsSnoc(init, last);
    LitsCons(funs);
    if |funs| > 1 {
      LitsCons(init);
      assert init[1..] == funs[1..|funs| - 1];
    } else {
      LitsNone();
    }
  }

  lemma LitsNone()
    ensures Lits([]) == []
  {
  }

  /** Counters stay where there were counters. */
  lemma {:induction false} Counted(n: Node, p: seq<Part>, top: Option<Token>)
    requires top.Some? ==> top.value.Func?
    ensures var t := Named(n, p, top).top; (t.Some? <==> top.Some?) && (t.Some? ==> t.value.Func?)
    decreases n
  {
    match n
    case FuncLit(_) =>
    case GoLit(_, args) => AllCounted(args, p, BumpWrap(BumpFun(top)));
    case GoCall(fun, args) =>
      AllCounted(fun, p, top);
      AllCounted(args, p, NamedAll(fun, p, top).top);
    case DeferCall(fun, args) =>
      AllCounted(fun, p, top);
      AllCounted(args, p, NamedAll(fun, p, top).top);
    case Other(children) => AllCounted(children, p, top);
  }

  lemma {:induction false} AllCounted(ns: seq<Node>, p: seq<Part>, top: Option<Token>)
    requires top.Some? ==> top.value.Func?
    ensures var t := NamedAll(ns, p, top).top; (t.Some? <==> top.Some?) && (t.Some? ==> t.value.Func?)
    decreases ns
  {
    if ns != [] {
      Counted(ns[0], p, top);
      AllCounted(ns[1..], p, Named(ns[0], p, top).top);
    }
  }

  class Visitor {
    var nesting: seq<Token>
    /** The suffix of every literal and wrapped call visited. */
    var names: seq<seq<Part>>

    constructor ()
      ensures nesting == [] && names == []
    {
      nesting, names := [], [];
    }

    method IncFun()
      modifies this`nesting
      ensures nesting == WithTop(old(nesting), BumpFun(Top(old(nesting))))
    {
      var i := |nesting| - 1;
      while i >= 0
        invariant -1 <= i < |nesting| && nesting == old(nesting)
        invariant forall j | i < j < |nesting| :: nesting[j].Gowrap?
      {
        if nesting[i].Func? {
          nesting := nesting[i := Func(nesting[i].fun + 1, nesting[i].gowrap)];
          return;
        }
        i := i - 1;
      }
    }

    method IncGoWrap()
      modifies this`nesting
      ensures nesting == WithTop(old(nesting), BumpWrap(Top(old(nesting))))
    {
      var i := |nesting| - 1;
      while i >= 0
        invariant -1 <= i < |nesting| && nesting == old(nesting)
        invariant forall j | i < j < |nesting| :: nesting[j].Gowrap?
      {
        if nesting[i].Func? {
          nesting := nesting[i := Func(nesting[i].fun, nesting[i].gowrap + 1)];
          return;
        }
        i := i - 1;
      }
    }

    method PushGowrap()
      modifies this`nesting
      ensures nesting == old(nesting) + [Gowrap]
    {
      nesting := nesting + [Gowrap];
    }

    /** Remove the mark and count it in the function around it. */
    method PopGowrap()
      modifies this`nesting
      ensures var n := old(nesting);
              nesting == if n != [] && n[|n| - 1].Gowrap? then WithTop(n, BumpWrap(Top(n)))[..|n| - 1] else n
    {
      if |nesting| == 0 {
        return;
      }
      if nesting[|nesting| - 1].Gowrap? {
        IncGoWrap();
        nesting := nesting[..|nesting| - 1];
      }
    }

    /** A literal: a new level for its body, gone afterwards, and one more in the count. */
    method VisitLiteral(body: seq<Node>)
      modifies this
      ensures var n := old(nesting);
              && nesting == WithTop(n, BumpFun(Top(n)))
              && names == old(names) + [NameOf(PathOf(n), Top(n), n != [] && n[|n| - 1].Gowrap?)]
                          + NamedAll(body, Inner(PathOf(n), Top(n)), Some(Func(1, 1))).names
      decreases body, 2
    {
      hide Funs, Lits, Innermost, WithTop, PathOf, NameOf, Inner, NamedAll, BumpFun, Top;
      ghost var n := nesting;
      ghost var inside := NamedAll(body, Inner(PathOf(n), Top(n)), Some(Func(1, 1)));
      AllCounted(body, Inner(PathOf(n), Top(n)), Some(Func(1, 1)));
      Pushed(n, inside.top);
      SuffixIsName(n, Func(1, 1));
      nesting := nesting + [Func(1, 1)];
      names := names + [FunctionSuffix(nesting)];
      WalkAll(body);
      assert nesting == n + [inside.top.value];
      nesting := nesting[..|nesting| - 1];
      assert nesting == n;
      IncFun();
    }

    /** Visit leaves the stack as deep as it found it, with the same marks and paths. */
    method Visit(n: Node)
      requires nesting == [] || nesting[|nesting| - 1].Func?
      modifies this
      ensures var o := Named(n, PathOf(old(nesting)), Top(old(nesting)));
              nesting == WithTop(old(nesting), o.top) && names == old(names) + o.names
      ensures |nesting| == |old(nesting)|
      decreases n, 2
    {
      match n
      case FuncLit(body) =>
        VisitLiteral(body);
        assert [NameOf(PathOf(old(nesting)), Top(old(nesting)), false)]
               + NamedAll(body, Inner(PathOf(old(nesting)), Top(old(nesting))), Some(Func(1, 1))).names
               == Named(n, PathOf(old(nesting)), Top(old(nesting))).names;
      case Other(children) => WalkAll(children);
      case GoLit(_, _) => VisitGoLiteral(n);
      case GoCall(_, _) => VisitGoCall(n);
      case DeferCall(_, _) => VisitGoCall(n);
    }

    /** A go or defer statement on a literal with parameters. */
    method VisitGoLiteral(n: Node)
      requires n.GoLit? && (nesting == [] || nesting[|nesting| - 1].Func?)
      modifies this
      ensures var o := Named(n, PathOf(old(nesting)), Top(old(nesting)));
              nesting == WithTop(old(nesting), o.top) && names == old(names) + o.names
      decreases n, 1
    {
      hide Funs, Lits, Innermost, WithTop, PathOf, NameOf, Inner, NamedAll, Top;
      ghost var s, p, top := nesting, PathOf(nesting), Top(nesting);
      ghost var t1, t2 := BumpFun(top), BumpWrap(BumpFun(top));
      Pushed(s, t1);
      AfterTop(s, t1);
      PushGowrap();
      VisitLiteral(n.body);
      assert nesting == WithTop(s, t1) + [Gowrap];
      Pushed(WithTop(s, t1), t2);
      PopGowrap();
      AfterTop(s, t2);
      assert nesting == WithTop(s, t2);
      StillFunc(s, t2);
      WalkAll(n.args);
      AllCounted(n.args, p, t2);
    }

    /** A go or defer statement on another function: the call is named for go only. */
    method VisitGoCall(n: Node)
      requires (n.GoCall? || n.DeferCall?) && (nesting == [] || nesting[|nesting| - 1].Func?)
      modifies this
      ensures var o := Named(n, PathOf(old(nesting)), Top(old(nesting)));
              nesting == WithTop(old(nesting), o.top) && names == old(names) + o.names
      decreases n, 1
    {
      hide Funs, Lits, Innermost, WithTop, PathOf, NameOf, Inner, NamedAll, Top;
      ghost var s, p, top := nesting, PathOf(nesting), Top(nesting);
      ghost var t1 := NamedAll(n.fun, p, top).top;
      ghost var t2 := NamedAll(n.args, p, t1).top;
      AllCounted(n.fun, p, top);
      AllCounted(n.args, p, t1);
      WalkAll(n.fun);
      AfterTop(s, t1);
      StillFunc(s, t1);
      WalkAll(n.args);
      AfterTop(s, t2);
      StillFunc(s, t2);
      AfterTop(s, BumpWrap(t2));
      WrapCall(n.GoCall?);
    }

    /** The wrapper of a call: named with a mock literal on top, or only counted. */
    method WrapCall(named: bool)
      requires nesting == [] || nesting[|nesting| - 1].Func?
      modifies this`nesting, this`names
      ensures var n := old(nesting);
              && nesting == WithTop(n, BumpWrap(Top(n)))
              && names == old(names) + if named then [NameOf(PathOf(n), Top(n), true)] else []
    {
      hide Funs, Lits, Innermost, WithTop, PathOf, NameOf, Inner, Top;
      ghost var n := nesting;
      ghost var t := BumpWrap(Top(n));
      Pushed(n, t);
      if named {
        nesting := nesting + [Gowrap] + [Func(0, 0)];
        SuffixIsName(n + [Gowrap], Func(0, 0));
        names := names + [FunctionSuffix(nesting)];
        nesting := nesting[..|nesting| - 1];
        assert nesting == n + [Gowrap];
      } else {
        PushGowrap();
      }
      PopGowrap();
      assert nesting == WithTop(n, t);
    }

    /** A function declaration: its literals get names that differ from one another. */
    method VisitDecl(body: seq<Node>)
      requires nesting == [] || nesting[|nesting| - 1].Func?
      modifies this
      ensures nesting == old(nesting)
      ensures var n := old(nesting);
              names == old(names) + NamedAll(body, Inner(PathOf(n), Top(n)), Some(Func(1, 1))).names
      ensures Distinct(names[|old(names)|..])
    {
      hide Funs, Lits, Innermost, WithTop, PathOf, Inner, NamedAll, Top;
      ghost var n := nesting;
      ghost var p := Inner(PathOf(n), Top(n));
      ghost var inside := NamedAll(body, p, Some(Func(1, 1)));
      AllCounted(body, p, Some(Func(1, 1)));
      NamesDistinct(body, p, Some(Func(1, 1)));
      Pushed(n, inside.top);
      nesting := nesting + [Func(1, 1)];
      WalkAll(body);
      assert nesting == n + [inside.top.value];
      nesting := nesting[..|nesting| - 1];
      assert nesting == n;
      assert names[|old(names)|..] == inside.names;
    }

    method WalkAll(ns: seq<Node>)
      requires nesting == [] || nesting[|nesting| - 1].Func?
      modifies this
      ensures var o := NamedAll(ns, PathOf(old(nesting)), Top(old(nesting)));
              nesting == WithTop(old(nesting), o.top) && names == old(names) + o.names
      decreases ns, 1
    {
      hide Funs, Lits, Innermost, WithTop, PathOf, NameOf, Inner, Named, Top;
      ghost var s, p, top := nesting, PathOf(nesting), Top(nesting);
      if ns == [] {
        AfterTop(s, top);
        return;
      }
      ghost var t1 := Named(ns[0], p, top).top;
      Counted(ns[0], p, top);
      AllCounted(ns[1..], p, t1);
      Visit(ns[0]);
      AfterTop(s, t1);
      StillFunc(s, t1);
      WalkAll(ns[1..]);
    }
  }

  /** A stack with a function on top keeps one. */
  lemma StillFunc(n: seq<Token>, t: Option<Token>)
    requires (n == [] || n[|n| - 1].Func?) && (t.Some? ==> t.value.Func?)
    ensures var m := WithTop(n, t); |m| == |n| && (m == [] || m[|m| - 1].Func?)
  {
  }
}
