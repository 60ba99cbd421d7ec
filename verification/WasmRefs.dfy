/** The table of JavaScript values that a Go program in WebAssembly refers to
    (misc/wasm/wasm_exec.js): ids are handed out, counted, and used again. */
module WasmRefs {
  import opened Basics

  /** A JavaScript value. Numbers other than zero and NaN are told apart by an index. */
  datatype Value =
    | Undefined | Null | Bool(b: bool) | NaN | Zero(negative: bool) | Number(n: nat)
    | GlobalThis | GoObject | Object(k: nat) | Text(s: string) | Symbol(k: nat) | Function(k: nat)
    | BigInt(i: int)

  /** What storeValue writes to linear memory: a float, zero for undefined, or a NaN that holds a
      type flag and an id. */
  datatype Cell = FloatCell(v: Value) | ZeroCell | RefCell(flag: nat, id: nat)

  datatype Count = Infinity | Finite(n: int)

  const STATIC_IDS: nat := 7

  /** Map keys are compared like numbers: both zeros are one key. */
  function Key(v: Value): (k: Value) { if v.Zero? then Zero(false) else v }

  function TypeFlag(v: Value): (flag: nat) {
    match v
    case GlobalThis => 1
    case GoObject => 1
    case Object(_) => 1
    case Text(_) => 2
    case Symbol(_) => 3
    case Function(_) => 4
    case _ => 0
  }

  /** The types that syscall/js tells apart. */
  datatype Type =
    | TypeUndefined | TypeNull | TypeBoolean | TypeNumber | TypeString | TypeSymbol | TypeObject | TypeFunction

  /** typeof, with a type of its own for null; syscall/js has none for big integers. */
  function TypeOf(v: Value): (t: Option<Type>) {
    match v
    case Undefined => Some(TypeUndefined)
    case Null => Some(TypeNull)
    case Bool(_) => Some(TypeBoolean)
    case NaN => Some(TypeNumber)
    case Zero(_) => Some(TypeNumber)
    case Number(_) => Some(TypeNumber)
    case Text(_) => Some(TypeString)
    case Symbol(_) => Some(TypeSymbol)
    case Function(_) => Some(TypeFunction)
    case BigInt(_) => None
    case _ => Some(TypeObject)
  }

  /** Value.Type, which sees the cell only. None is the panic over a bad type flag. */
  function CellType(c: Cell): (t: Option<Type>) {
    match c
    case ZeroCell => Some(TypeUndefined)
    case FloatCell(_) => Some(TypeNumber)
    case RefCell(flag, id) =>
      if flag == 0 && id == 2 then Some(TypeNull)
      else if flag == 0 && (id == 3 || id == 4) then Some(TypeBoolean)
      else if flag == 0 && (id == 0 || id == 1) then Some(TypeNumber)
      else if flag == 1 then Some(TypeObject)
      else if flag == 2 then Some(TypeString)
      else if flag == 3 then Some(TypeSymbol)
      else if flag == 4 then Some(TypeFunction)
      else None
  }

  function StaticValues(): (values: seq<Value>) {
    [NaN, Zero(false), Null, Bool(true), Bool(false), GlobalThis, GoObject]
  }

  function StaticKeys(): (keys: map<Value, nat>) {
    map[Zero(false) := 1, Null := 2, Bool(true) := 3, Bool(false) := 4, GlobalThis := 5, GoObject := 6]
  }

  function Plus(c: Count, d: int): (r: Count) { if c.Infinity? then Infinity else Finite(c.n + d) }

  predicate IsLive(c: Count) { c.Infinity? || c.n > 0 }

  predicate LiveId(counts: seq<Count>, id: nat) { id < |counts| && IsLive(counts[id]) }

  /** The first ids are for ever; every other count is the number of references held. */
  ghost predicate CountsOk(values: seq<Value>, counts: seq<Count>, refs: multiset<nat>) {
    && STATIC_IDS <= |values| == |counts|
    && (forall id | 0 <= id < |counts| :: counts[id] == if id < STATIC_IDS then Infinity else Finite(refs[id]))
    && (forall id | id in refs :: id < |values|)
  }

  /** ids and values are inverse to each other on the live entries; NaN alone has no key. */
  ghost predicate IdsOk(values: seq<Value>, counts: seq<Count>, ids: map<Value, nat>) {
    && (forall v | v in ids :: ids[v] < |values| && LiveId(counts, ids[v]) && values[ids[v]] == v && Key(v) == v)
    && (forall id | 0 < id < |values| && LiveId(counts, id) :: values[id] in ids && ids[values[id]] == id)
    && NaN !in ids && Zero(false) in ids && |values| > 1 && values[0] == NaN && values[1] == Zero(false)
  }

  /** The pool holds exactly the ids handed out and free again, each once. */
  ghost predicate PoolOk(counts: seq<Count>, pool: seq<nat>) {
    && (forall i, j | 0 <= i < j < |pool| :: pool[i] != pool[j])
    && (forall i | 0 <= i < |pool| :: STATIC_IDS <= pool[i] < |counts| && !LiveId(counts, pool[i]))
    && (forall id | STATIC_IDS <= id < |counts| && !LiveId(counts, id) :: id in pool)
  }

  ghost predicate TableOk(values: seq<Value>, counts: seq<Count>, ids: map<Value, nat>, pool: seq<nat>,
                          refs: multiset<nat>) {
    CountsOk(values, counts, refs) && IdsOk(values, counts, ids) && PoolOk(counts, pool)
  }

  /** The values of the ids that are live before and after are the same. */
  ghost predicate KeepsLive(values: seq<Value>, counts: seq<Count>, newValues: seq<Value>, newCounts: seq<Count>) {
    && |values| <= |newValues|
    && forall id | 0 <= id < |values| && LiveId(counts, id) && LiveId(newCounts, id) :: newValues[id] == values[id]
  }

  lemma CountUp(values: seq<Value>, counts: seq<Count>, ids: map<Value, nat>, pool: seq<nat>, refs: multiset<nat>,
                id: nat)
    requires TableOk(values, counts, ids, pool, refs) && LiveId(counts, id)
    ensures TableOk(values, counts[id := Plus(counts[id], 1)], ids, pool, refs + multiset{id})
  {
  }

  /** A free id from the pool. */
  lemma Reuse(values: seq<Value>, counts: seq<Count>, ids: map<Value, nat>, pool: seq<nat>, refs: multiset<nat>,
              v: Value)
    requires TableOk(values, counts, ids, pool, refs) && pool != []
    requires v !in ids && Key(v) == v && v != NaN
    ensures var id := pool[|pool| - 1];
            && STATIC_IDS <= id < |values| && !LiveId(counts, id)
            && TableOk(values[id := v], counts[id := Finite(1)], ids[v := id], pool[..|pool| - 1], refs + multiset{id})
            && KeepsLive(values, counts, values[id := v], counts[id := Finite(1)])
  {
    hide Key;
    ReusePool(counts, pool);
    ReuseIds(values, counts, ids, pool[|pool| - 1], v);
    assert refs[pool[|pool| - 1]] == 0;
  }

  lemma ReusePool(counts: seq<Count>, pool: seq<nat>)
    requires PoolOk(counts, pool) && pool != []
    ensures PoolOk(counts[pool[|pool| - 1] := Finite(1)], pool[..|pool| - 1])
  {
    var rest := pool[..|pool| - 1];
    var after := counts[pool[|pool| - 1] := Finite(1)];
    forall id | STATIC_IDS <= id < |after| && !LiveId(after, id)
      ensures id in rest
    {
      assert !LiveId(counts, id) && id in pool;
      var i :| 0 <= i < |pool| && pool[i] == id;
      assert rest[i] == id;
    }
  }

  lemma ReuseIds(values: seq<Value>, counts: seq<Count>, ids: map<Value, nat>, id: nat, v: Value)
    requires IdsOk(values, counts, ids) && STATIC_IDS <= id < |values| == |counts| && !LiveId(counts, id)
    requires v !in ids && Key(v) == v && v != NaN
    ensures IdsOk(values[id := v], counts[id := Finite(1)], ids[v := id])
  {
  }

  /** The next id, when the pool is empty. */
  lemma Extend(values: seq<Value>, counts: seq<Count>, ids: map<Value, nat>, refs: multiset<nat>, v: Value)
    requires TableOk(values, counts, ids, [], refs)
    requires v !in ids && Key(v) == v && v != NaN
    ensures TableOk(values + [v], counts + [Finite(1)], ids[v := |values|], [], refs + multiset{|values|})
    ensures KeepsLive(values, counts, values + [v], counts + [Finite(1)])
  {
    hide Key;
    assert |values| !in refs;
  }

  lemma CountDown(values: seq<Value>, counts: seq<Count>, ids: map<Value, nat>, pool: seq<nat>, refs: multiset<nat>,
                  id: nat)
    requires TableOk(values, counts, ids, pool, refs) && id in refs && Plus(counts[id], -1) != Finite(0)
    ensures TableOk(values, counts[id := Plus(counts[id], -1)], ids, pool, refs - multiset{id})
  {
  }

  /** The last reference frees the id. */
  lemma Free(values: seq<Value>, counts: seq<Count>, ids: map<Value, nat>, pool: seq<nat>, refs: multiset<nat>, id: nat)
    requires TableOk(values, counts, ids, pool, refs) && id in refs && Plus(counts[id], -1) == Finite(0)
    ensures TableOk(values[id := Null], counts[id := Finite(0)], ids - {values[id]}, pool + [id], refs - multiset{id})
    ensures KeepsLive(values, counts, values[id := Null], counts[id := Finite(0)])
  {
    FreePool(counts, pool, id);
    FreeIds(values, counts, ids, id);
  }

  lemma FreeIds(values: seq<Value>, counts: seq<Count>, ids: map<Value, nat>, id: nat)
    requires IdsOk(values, counts, ids) && STATIC_IDS <= id < |values| == |counts| && LiveId(counts, id)
    requires LiveId(counts, 1)
    ensures IdsOk(values[id := Null], counts[id := Finite(0)], ids - {values[id]})
  {
    hide Key;
    assert ids[values[1]] == 1;
  }

  lemma FreePool(counts: seq<Count>, pool: seq<nat>, id: nat)
    requires PoolOk(counts, pool) && STATIC_IDS <= id < |counts| && LiveId(counts, id)
    ensures PoolOk(counts[id := Finite(0)], pool + [id])
  {
    assert (pool + [id])[|pool|] == id;
  }

  lemma InitCounts(counts: seq<Count>)
    requires |counts| == STATIC_IDS && forall id | 0 <= id < STATIC_IDS :: counts[id] == Infinity
    ensures CountsOk(StaticValues(), counts, multiset{}) && PoolOk(counts, []) && |StaticValues()| == STATIC_IDS
    ensures StaticValues()[..STATIC_IDS] == StaticValues()
  {
  }

  lemma InitIds(counts: seq<Count>)
    requires |counts| == STATIC_IDS && forall id | 0 <= id < STATIC_IDS :: counts[id] == Infinity
    ensures IdsOk(StaticValues(), counts, StaticKeys())
  {
    var values := StaticValues();
    assert values[2] == Null && values[3] == Bool(true) && values[4] == Bool(false);
    assert values[5] == GlobalThis && values[6] == GoObject;
  }

  lemma StaticsLive(values: seq<Value>, counts: seq<Count>, ids: map<Value, nat>, pool: seq<nat>, refs: multiset<nat>)
    requires TableOk(values, counts, ids, pool, refs)
    ensures Zero(false) in ids && NaN !in ids && |values| == |counts| > STATIC_IDS - 1 && values[0] == NaN
    ensures forall id | 0 <= id < STATIC_IDS :: LiveId(counts, id)
    ensures KeepsLive(values, counts, values, counts)
  {
  }

  /** The flag, and the id where there is none, tell the type of the value. */
  lemma FlagTells(values: seq<Value>, counts: seq<Count>, ids: map<Value, nat>, pool: seq<nat>, refs: multiset<nat>,
                  v: Value, id: nat)
    requires TableOk(values, counts, ids, pool, refs) && values[..STATIC_IDS] == StaticValues()
    requires id < |values| && LiveId(counts, id) && values[id] == Key(v) && v != NaN && v != Undefined && !v.Number?
    ensures CellType(RefCell(TypeFlag(v), id)) == TypeOf(v)
  {
    forall k | 0 <= k < STATIC_IDS
      ensures values[k] == StaticValues()[k] && LiveId(counts, k)
    {
      assert values[k] == values[..STATIC_IDS][k];
    }
    assert values[2] == Null && values[3] == Bool(true) && values[4] == Bool(false);
    if !v.Function? && !v.Symbol? && !v.Text? && !v.Object? {
      assert ids[values[id]] == id;
    }
  }

  lemma KnownLive(values: seq<Value>, counts: seq<Count>, ids: map<Value, nat>, pool: seq<nat>, refs: multiset<nat>,
                  k: Value)
    requires TableOk(values, counts, ids, pool, refs) && k in ids
    ensures ids[k] < |values| && LiveId(counts, ids[k]) && values[ids[k]] == k
  {
  }

  lemma HeldLive(values: seq<Value>, counts: seq<Count>, ids: map<Value, nat>, pool: seq<nat>, refs: multiset<nat>,
                 id: nat)
    requires TableOk(values, counts, ids, pool, refs) && id in refs
    ensures id < |values| == |counts| && counts[id] == if id < STATIC_IDS then Infinity else Finite(refs[id])
  {
  }

  class Go {
    var values: seq<Value>
    var refCounts: seq<Count>
    var ids: map<Value, nat>
    var idPool: seq<nat>

    /** The references Go holds: one for each id stored and not yet finalized. */
    ghost var refs: multiset<nat>

    ghost predicate Valid()
      reads this
    {
      TableOk(values, refCounts, ids, idPool, refs) && values[..STATIC_IDS] == StaticValues()
    }

    /** The tables at the start of run. */
    constructor ()
      ensures Valid() && refs == multiset{} && |values| == STATIC_IDS
    {
      values := StaticValues();
      refCounts := seq(STATIC_IDS, _ => Infinity);
      ids := StaticKeys();
      idPool := [];
      refs := multiset{};
      new;
      hide CountsOk, IdsOk, PoolOk, StaticValues, StaticKeys;
      InitCounts(refCounts);
      InitIds(refCounts);
    }

    function LoadValue(c: Cell): (v: Value)
      reads this
    {
      match c
      case ZeroCell => Undefined
      case FloatCell(v) => v
      case RefCell(_, id) => if id < |values| then values[id] else Undefined
    }

    /** Loading gives back what was stored, negative zero aside; a value that is already known
        keeps its id, and a new one gets an id that nobody holds. */
    method StoreValue(v: Value) returns (c: Cell)
      requires Valid()
      modifies this
      ensures Valid() && KeepsLive(old(values), old(refCounts), values, refCounts)
      ensures LoadValue(c) == Key(v)
      ensures forall id | 0 <= id < |old(values)| && LiveId(old(refCounts), id) :: LiveId(refCounts, id)
      ensures c.RefCell? <==> !v.Number? && !v.Undefined?
      ensures c.RefCell? ==> LiveId(refCounts, c.id) && c.flag == TypeFlag(v)
      ensures v == NaN ==> c == RefCell(0, 0)
      ensures CellType(c) == TypeOf(v)
      ensures refs == if c.RefCell? && v != NaN then old(refs) + multiset{c.id} else old(refs)
      ensures c.RefCell? && Key(v) in old(ids) ==> c.id == old(ids)[Key(v)]
      ensures c.RefCell? && v != NaN && Key(v) !in old(ids) ==> !LiveId(old(refCounts), c.id)
    {
      hide TableOk;
      StaticsLive(values, refCounts, ids, idPool, refs);
      if v.Number? {
        return FloatCell(v);
      }
      if v.NaN? {
        return RefCell(0, 0);
      }
      if v.Undefined? {
        return ZeroCell;
      }
      var id: nat;
      if Key(v) in ids {
        id := ids[Key(v)];
        KnownLive(values, refCounts, ids, idPool, refs, Key(v));
        CountUp(values, refCounts, ids, idPool, refs, id);
        refCounts := refCounts[id := Plus(refCounts[id], 1)];
        refs := refs + multiset{id};
      } else {
        id := Allocate(v);
      }
      FlagTells(values, refCounts, ids, idPool, refs, v, id);
      return RefCell(TypeFlag(v), id);
    }

    /** The branch of storeValue for a new value, up to the count of its first reference. */
    method Allocate(v: Value) returns (id: nat)
      requires Valid() && v !in ids && Key(v) == v && v != NaN
      modifies this
      ensures Valid() && KeepsLive(old(values), old(refCounts), values, refCounts)
      ensures !LiveId(old(refCounts), id) && LiveId(refCounts, id) && id < |values| && values[id] == v
      ensures refCounts == if id < |old(refCounts)| then old(refCounts)[id := Finite(1)]
                           else old(refCounts) + [Finite(1)]
      ensures refs == old(refs) + multiset{id}
    {
      hide TableOk, KeepsLive, Key;
      StaticsLive(values, refCounts, ids, idPool, refs);
      if |idPool| > 0 {
        Reuse(values, refCounts, ids, idPool, refs, v);
        id := idPool[|idPool| - 1];
        idPool := idPool[..|idPool| - 1];
      } else {
        Extend(values, refCounts, ids, refs, v);
        assert idPool == [];
        id := |values|;
        assert (values + [Undefined])[id := v] == values + [v];
        assert (refCounts + [Infinity])[id := Finite(1)] == refCounts + [Finite(1)];
        values, refCounts := values + [Undefined], refCounts + [Infinity];
      }
      ghost var counts := refCounts;
      values := values[id := v];
      refCounts := refCounts[id := Finite(0)];
      ids := ids[v := id];
      refCounts := refCounts[id := Plus(refCounts[id], 1)];
      assert refCounts == counts[id := Finite(1)];
      refs := refs + multiset{id};
      assert values[..STATIC_IDS] == old(values[..STATIC_IDS]);
    }

    /** finalizeRef, called for a reference that Go holds. The last one frees the id. */
    method FinalizeRef(id: nat)
      requires Valid() && id in refs
      modifies this
      ensures Valid() && KeepsLive(old(values), old(refCounts), values, refCounts)
      ensures refs == old(refs) - multiset{id} && |values| == |old(values)|
      ensures forall k | 0 <= k < |values| && k != id :: LiveId(refCounts, k) <==> LiveId(old(refCounts), k)
      ensures LiveId(refCounts, id) <==> id < STATIC_IDS || id in refs
    {
      hide TableOk;
      HeldLive(values, refCounts, ids, idPool, refs, id);
      if Plus(refCounts[id], -1) == Finite(0) {
        Free(values, refCounts, ids, idPool, refs, id);
      } else {
        CountDown(values, refCounts, ids, idPool, refs, id);
      }
      refCounts := refCounts[id := Plus(refCounts[id], -1)];
      refs := refs - multiset{id};
      if refCounts[id] == Finite(0) {
        var v := values[id];
        values := values[id := Null];
        ids := ids - {v};
        idPool := idPool + [id];
      }
    }
  }

  // ----- Whole runs -----

  /** What Go does: store a value, or give up the reference it got at the given place. */
  datatype Call = Store(v: Value) | Drop(i: nat)

  /** A reference with the value it stands for. */
  datatype Held = Held(c: Cell, v: Value)

  function ValuesOf(held: seq<Held>): (vs: seq<Value>)
    ensures |vs| == |held|
  {
    seq(|held|, i requires 0 <= i < |held| => held[i].v)
  }

  /** The values whose references Go has after the calls. */
  function KeptValues(calls: seq<Call>): (vs: seq<Value>) {
    if calls == [] then [] else
      var vs := KeptValues(calls[..|calls| - 1]);
      match calls[|calls| - 1]
      case Store(v) => vs + [v]
      case Drop(i) => if i < |vs| then vs[..i] + vs[i + 1..] else vs
  }

  predicate Counted(h: Held) { h.c.RefCell? && h.v != NaN }

  ghost function RefsOf(held: seq<Held>): multiset<nat> {
    if held == [] then multiset{}
    else RefsOf(held[..|held| - 1]) + if Counted(held[|held| - 1]) then multiset{held[|held| - 1].c.id} else multiset{}
  }

  lemma {:induction false} RefsConcat(a: seq<Held>, b: seq<Held>)
    ensures RefsOf(a + b) == RefsOf(a) + RefsOf(b)
  {
    if b == [] {
      assert a + b == a;
    } else {
      assert (a + b)[..|a + b| - 1] == a + b[..|b| - 1];
      RefsConcat(a, b[..|b| - 1]);
    }
  }

  lemma RefsOfOne(h: Held)
    ensures RefsOf([h]) == if Counted(h) then multiset{h.c.id} else multiset{}
  {
    assert [h][..0] == [];
  }

  lemma RefsWithout(held: seq<Held>, i: nat)
    requires i < |held|
    ensures RefsOf(held)
            == RefsOf(held[..i] + held[i + 1..]) + if Counted(held[i]) then multiset{held[i].c.id} else multiset{}
  {
    var a, b := held[..i], held[i + 1..];
    assert held == a + [held[i]] + b;
    RefsOfOne(held[i]);
    hide RefsOf;
    RefsConcat(a + [held[i]], b);
    RefsConcat(a, [held[i]]);
    RefsConcat(a, b);
  }

  lemma RefsHas(held: seq<Held>, i: nat)
    requires i < |held| && Counted(held[i])
    ensures held[i].c.id in RefsOf(held)
  {
    RefsWithout(held, i);
  }

  /** The reference is good in these tables: counted ones are live and have their value. */
  predicate Good(values: seq<Value>, counts: seq<Count>, h: Held) {
    match h.c
    case ZeroCell => h.v == Undefined
    case FloatCell(v) => h.v == v && Key(v) == v
    case RefCell(_, id) =>
      if h.v == NaN then id == 0 else id < |values| && LiveId(counts, id) && values[id] == Key(h.v)
  }

  ghost predicate AllGood(values: seq<Value>, counts: seq<Count>, held: seq<Held>) {
    forall i | 0 <= i < |held| :: Good(values, counts, held[i])
  }

  lemma GoodLoads(go: Go, h: Held)
    requires go.Valid() && Good(go.values, go.refCounts, h)
    ensures go.LoadValue(h.c) == Key(h.v)
  {
  }

  /** References stay good while their ids stay live. */
  lemma StayGood(values: seq<Value>, counts: seq<Count>, newValues: seq<Value>, newCounts: seq<Count>, held: seq<Held>)
    requires AllGood(values, counts, held) && KeepsLive(values, counts, newValues, newCounts)
    requires forall i | 0 <= i < |held| && Counted(held[i]) :: LiveId(newCounts, held[i].c.id)
    ensures AllGood(newValues, newCounts, held)
  {
    hide Key, LiveId;
    forall i | 0 <= i < |held|
      ensures Good(newValues, newCounts, held[i])
    {
      assert Good(values, counts, held[i]);
    }
  }

  lemma AllLive(go: Go, held: seq<Held>)
    requires go.Valid() && go.refs == RefsOf(held)
    ensures forall i | 0 <= i < |held| && Counted(held[i]) :: LiveId(go.refCounts, held[i].c.id)
  {
    hide TableOk, RefsOf;
    forall i | 0 <= i < |held| && Counted(held[i])
      ensures LiveId(go.refCounts, held[i].c.id)
    {
      RefsHas(held, i);
      HeldLive(go.values, go.refCounts, go.ids, go.idPool, go.refs, held[i].c.id);
    }
  }

  /** For every sequence of calls: the references held at the end, dropped ones aside, load the values
      they were stored with, and the counts are theirs. */
  method Replay(go: Go, calls: seq<Call>) returns (held: seq<Held>)
    requires go.Valid() && go.refs == multiset{}
    modifies go
    ensures go.Valid() && go.refs == RefsOf(held)
    ensures ValuesOf(held) == KeptValues(calls)
    ensures forall i | 0 <= i < |held| :: go.LoadValue(held[i].c) == Key(KeptValues(calls)[i])
  {
    held := [];
    NoRefs();
    hide TableOk, StaticValues, Key, RefsOf, KeepsLive, Good, Go.LoadValue;
    for k := 0 to |calls|
      invariant go.Valid() && go.refs == RefsOf(held) && AllGood(go.values, go.refCounts, held)
      invariant ValuesOf(held) == KeptValues(calls[..k])
    {
      assert calls[..k + 1][..k] == calls[..k];
      match calls[k]
      case Store(v) => held := StoreOne(go, held, v);
      case Drop(i) => held := DropOne(go, held, i);
    }
    assert calls[..|calls|] == calls;
    forall i | 0 <= i < |held|
      ensures go.LoadValue(held[i].c) == Key(held[i].v)
    {
      GoodLoads(go, held[i]);
    }
  }

  lemma NoRefs()
    ensures RefsOf([]) == multiset{}
  {
  }

  lemma RefsSnoc(held: seq<Held>, h: Held)
    ensures RefsOf(held + [h]) == RefsOf(held) + if Counted(h) then multiset{h.c.id} else multiset{}
  {
    assert (held + [h])[..|held|] == held;
  }

  lemma NewGood(go: Go, c: Cell, v: Value)
    requires go.LoadValue(c) == Key(v) && (c.RefCell? <==> !v.Number? && !v.Undefined?)
    requires c.RefCell? ==> LiveId(go.refCounts, c.id) && c.id < |go.values|
    requires v == NaN ==> c == RefCell(0, 0)
    ensures Good(go.values, go.refCounts, Held(c, v))
  {
  }

  method StoreOne(go: Go, held: seq<Held>, v: Value) returns (more: seq<Held>)
    requires go.Valid() && go.refs == RefsOf(held) && AllGood(go.values, go.refCounts, held)
    modifies go
    ensures go.Valid() && go.refs == RefsOf(more) && AllGood(go.values, go.refCounts, more)
    ensures ValuesOf(more) == ValuesOf(held) + [v]
  {
    hide Key, RefsOf, KeepsLive, Good, TableOk, StaticValues, Go.LoadValue;
    ghost var values, counts := go.values, go.refCounts;
    var c := go.StoreValue(v);
    more := held + [Held(c, v)];
    RefsSnoc(held, Held(c, v));
    AllLive(go, more);
    assert forall i | 0 <= i < |held| :: more[i] == held[i];
    StayGood(values, counts, go.values, go.refCounts, held);
    SameLength(go);
    NewGood(go, c, v);
  }

  lemma SameLength(go: Go)
    requires go.Valid()
    ensures |go.values| == |go.refCounts|
  {
  }

  method DropOne(go: Go, held: seq<Held>, i: nat) returns (rest: seq<Held>)
    requires go.Valid() && go.refs == RefsOf(held) && AllGood(go.values, go.refCounts, held)
    modifies go
    ensures go.Valid() && go.refs == RefsOf(rest) && AllGood(go.values, go.refCounts, rest)
    ensures ValuesOf(rest) == var vs := ValuesOf(held); if i < |vs| then vs[..i] + vs[i + 1..] else vs
  {
    hide Key, RefsOf, KeepsLive, Good, TableOk, StaticValues;
    if i >= |held| {
      return held;
    }
    rest := held[..i] + held[i + 1..];
    RefsWithout(held, i);
    assert AllGood(go.values, go.refCounts, rest);
    if Counted(held[i]) {
      ghost var values, counts := go.values, go.refCounts;
      go.FinalizeRef(held[i].c.id);
      AllLive(go, rest);
      StayGood(values, counts, go.values, go.refCounts, rest);
    }
  }
}
