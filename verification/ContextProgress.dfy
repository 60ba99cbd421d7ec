/** The calls of context/context.go always end: each of their steps makes a measure smaller. */
module ContextProgress {
  import opened Basics
  import opened Measures
  import opened Context
  import opened ContextInvariants
  import opened ContextSteps
  import opened ContextTheorems

  // ----- The measure -----

  /** The steps a call has left, those of the calls it makes included. A loop has five for each child. */
  function Weight(call: Call): nat {
    match call
    case Cancel(_, _, _, _, _, CLock) => 4
    case Cancel(_, _, _, _, _, CLoop(todo, _)) => 4 + 5 * |todo|
    case Cancel(_, _, _, _, _, CRemove) => 3
    case Cancel(_, _, _, _, _, CTail) => 2
    case Cancel(_, _, _, _, _, CDone) => 0
    case Create(_, _, stage) => StageWeight(stage)
    case Stop(_, STry) => 6
    case Stop(_, SWait(_)) => 1
    case Stop(_, SDone(_)) => 0
  }

  function StageWeight(stage: CreatePoint): nat {
    match stage
    case PGetDone => 15
    case PPoll => 14
    case PReadErr => 13
    case PReadCause(_) => 12
    case POwn(_) => 7
    case PLookup => 13
    case PRegister => 12
    case PHolding(_) => 7
    case PWatch => 7
    case PPost => 6
    case PExpired(_) => 1
    case PDone(_) => 0
  }

  function Weights(calls: map<nat, Call>): map<nat, nat> { map a | a in calls :: Weight(calls[a]) }

  /** The contexts that are not cancelled. */
  function Open(nodes: map<nat, Node>): map<nat, nat> { map c | c in nodes :: if nodes[c].err.None? then 1 else 0 }

  /** Cancelling a context takes a loop over no more children than there are contexts. */
  function Left(s: State, n: nat): nat {
    Total(Open(s.nodes), n) * (5 * |s.nodes.Keys| + 1) + Total(Weights(s.calls), n)
  }

  predicate Below(s: State, n: nat) {
    (forall c | c in s.nodes :: c < n) && (forall a | a in s.calls :: a < n)
  }

  // ----- Steps -----

  predicate SameErrors(s: State, t: State) {
    t.nodes.Keys == s.nodes.Keys && forall c | c in s.nodes :: t.nodes[c].err == s.nodes[c].err
  }

  lemma SameOpen(s: State, t: State)
    requires SameErrors(s, t)
    ensures Open(t.nodes) == Open(s.nodes)
  {
  }

  lemma CallMoved(calls: map<nat, Call>, a: nat, call: Call, n: nat)
    requires a < n
    ensures Total(Weights(calls[a := call]), n)
            == Total(Weights(calls), n) + Weight(call) - if a in calls then Weight(calls[a]) else 0
  {
    hide Weight;
    assert Weights(calls[a := call]) == Weights(calls)[a := Weight(call)];
    TotalUpdate(Weights(calls), a, Weight(call), n);
  }

  /** A step of one call alone. */
  lemma SoloWorks(s: State, t: State, a: nat, n: nat)
    requires Below(s, n) && SameErrors(s, t)
    requires a in s.calls && a in t.calls && t.calls == s.calls[a := t.calls[a]]
          && Weight(t.calls[a]) < Weight(s.calls[a])
    ensures Left(t, n) < Left(s, n)
  {
    hide Weight, Weights, Open, Total;
    SameOpen(s, t);
    CallMoved(s.calls, a, t.calls[a], n);
  }

  /** A step that makes another call. */
  lemma SpawnWorks(s: State, t: State, a: nat, b: nat, n: nat)
    requires Below(s, n) && b < n && SameErrors(s, t)
    requires a in s.calls && b !in s.calls && a in t.calls && b in t.calls
    requires t.calls == s.calls[a := t.calls[a]][b := t.calls[b]]
    requires Weight(t.calls[a]) + Weight(t.calls[b]) < Weight(s.calls[a])
    ensures Left(t, n) < Left(s, n)
  {
    hide Weight, Weights, Open, Total;
    SameOpen(s, t);
    CallMoved(s.calls, a, t.calls[a], n);
    CallMoved(s.calls[a := t.calls[a]], b, t.calls[b], n);
  }

  lemma SubsetSize(a: set<nat>, b: set<nat>)
    requires a <= b
    ensures |a| <= |b|
  {
    assert b == a + (b - a);
  }

  lemma Product(k: nat, m: nat)
    requires k >= 1
    ensures k * m == (k - 1) * m + m
  {
  }

  lemma OpenMoved(nodes: map<nat, Node>, c: nat, x: Node, n: nat)
    requires c in nodes && c < n && nodes[c].err.None? && x.err.Some?
    ensures Total(Open(nodes[c := x]), n) == Total(Open(nodes), n) - 1
  {
    assert Open(nodes[c := x]) == Open(nodes)[c := 0];
    TotalUpdate(Open(nodes), c, 0, n);
  }

  lemma ChildrenFew(s: State, c: nat)
    requires Inv(s) && c in s.nodes
    ensures |s.nodes[c].children| <= |s.nodes.Keys|
  {
    hide SetBy, LocalOk, Fresh, Ready, LinkOk, LockOk, ChildrenOk, TailOk, CallOk, HolderOk;
    assert NodeOk(s, c);
    assert forall k | k in s.nodes[c].children :: Registered(s, k, c) && k in s.nodes;
    SubsetSize(s.nodes[c].children, s.nodes.Keys);
  }

  /** The first cancel call pays for its loop with the context it cancels. */
  lemma EnteredWorks(s: State, a: nat, n: nat)
    requires Inv(s) && Below(s, n) && IsCancel(s, a) && s.calls[a].at.CLock? && s.nodes[s.calls[a].c].err.None?
    ensures Left(Entered(s, a), n) < Left(s, n)
  {
    hide Weights, Open, Total, Inv;
    var t := Entered(s, a);
    var c := s.calls[a].c;
    ChildrenFew(s, c);
    OpenMoved(s.nodes, c, t.nodes[c], n);
    CallMoved(s.calls, a, t.calls[a], n);
    assert t.nodes.Keys == s.nodes.Keys;
    Product(Total(Open(s.nodes), n), 5 * |s.nodes.Keys| + 1);
  }

  lemma LoopWorks(s: State, a: nat, b: nat, k: nat, n: nat)
    requires Below(s, n) && b < n && IsCancel(s, a) && s.calls[a].at.CLoop? && s.nodes[s.calls[a].c].err.Some?
    requires k in s.calls[a].at.todo && b !in s.calls
    ensures Left(ChildCalled(s, a, b, k), n) < Left(s, n)
  {
    hide Left, Total, Weights, Open, Below;
    var todo := s.calls[a].at.todo;
    assert |todo - {k}| == |todo| - 1;
    SpawnWorks(s, ChildCalled(s, a, b, k), a, b, n);
  }

  lemma CancelEnds(s: State, a: nat, b: nat, choice: Choice, n: nat)
    requires Below(s, n) && IsCancel(s, a) && CanMoveCancel(s, a, b, choice)
    requires s.calls[a].at.CRemove? || s.calls[a].at.CTail?
    ensures Left(MoveCancel(s, a, b, choice), n) < Left(s, n)
  {
    hide Left, Total, Weights, Open, Below, Near;
    SoloWorks(s, MoveCancel(s, a, b, choice), a, n);
  }

  lemma CancelAlone(s: State, a: nat, b: nat, choice: Choice, n: nat)
    requires Below(s, n) && IsCancel(s, a) && CanMoveCancel(s, a, b, choice)
    requires (s.calls[a].at.CLock? && s.nodes[s.calls[a].c].err.Some?)
          || (s.calls[a].at.CLoop? && s.calls[a].at.todo == {})
    ensures Left(MoveCancel(s, a, b, choice), n) < Left(s, n)
  {
    hide Left, Total, Weights, Open, Below, Near;
    SoloWorks(s, MoveCancel(s, a, b, choice), a, n);
  }

  lemma CancelWorks(s: State, a: nat, b: nat, choice: Choice, n: nat)
    requires Inv(s) && Below(s, n) && IsCancel(s, a) && CanMoveCancel(s, a, b, choice)
          && Below(MoveCancel(s, a, b, choice), n)
    ensures Left(MoveCancel(s, a, b, choice), n) < Left(s, n)
  {
    hide Inv, Left, Near;
    var call := s.calls[a];
    if call.at.CLock? && s.nodes[call.c].err.None? {
      EnteredWorks(s, a, n);
    } else if call.at.CLoop? && call.at.todo != {} {
      assert b in MoveCancel(s, a, b, choice).calls;
      LoopWorks(s, a, b, choice.id, n);
    } else if call.at.CRemove? || call.at.CTail? {
      CancelEnds(s, a, b, choice, n);
    } else {
      CancelAlone(s, a, b, choice, n);
    }
  }

  predicate Spawns(s: State, stage: CreatePoint, c: nat, choice: Choice)
    requires c in s.nodes
  {
    || stage.PReadCause?
    || (stage.PRegister? && Nearest(s, c).Some? && Nearest(s, c).value in s.nodes
        && s.nodes[Nearest(s, c).value].err.Some?)
    || (stage.PPost? && s.nodes[c].kind == TimerKind && choice.Passed? && choice.passed)
  }

  lemma CreateSpawns(s: State, a: nat, b: nat, choice: Choice, n: nat)
    requires Below(s, n) && b < n && IsCreate(s, a) && CanMoveCreate(s, a, b, choice)
    requires Spawns(s, s.calls[a].stage, s.calls[a].c, choice)
    ensures Left(MoveCreate(s, a, b, choice), n) < Left(s, n)
  {
    hide Left, Total, Weights, Open, Below, Near;
    var t := MoveCreate(s, a, b, choice);
    SpawnWorks(s, t, a, b, n);
  }

  predicate IsEarly(stage: CreatePoint) {
    || stage.PGetDone? || stage.PPoll? || stage.PReadErr? || stage.PLookup?
    || stage.POwn? || stage.PExpired? || stage.PWatch?
  }

  lemma CreateEarly(s: State, a: nat, b: nat, choice: Choice, n: nat)
    requires Below(s, n) && IsCreate(s, a) && CanMoveCreate(s, a, b, choice) && IsEarly(s.calls[a].stage)
    ensures Left(MoveCreate(s, a, b, choice), n) < Left(s, n)
  {
    hide Left, Total, Weights, Open, Below, Near;
    SoloWorks(s, MoveCreate(s, a, b, choice), a, n);
  }

  lemma CreateLate(s: State, a: nat, b: nat, choice: Choice, n: nat)
    requires Below(s, n) && IsCreate(s, a) && CanMoveCreate(s, a, b, choice) && !IsEarly(s.calls[a].stage)
    requires !Spawns(s, s.calls[a].stage, s.calls[a].c, choice)
    ensures Left(MoveCreate(s, a, b, choice), n) < Left(s, n)
  {
    hide Left, Total, Weights, Open, Below, Near;
    SoloWorks(s, MoveCreate(s, a, b, choice), a, n);
  }

  lemma CreateWorks(s: State, a: nat, b: nat, choice: Choice, n: nat)
    requires Below(s, n) && IsCreate(s, a) && CanMoveCreate(s, a, b, choice) && Below(MoveCreate(s, a, b, choice), n)
    ensures Left(MoveCreate(s, a, b, choice), n) < Left(s, n)
  {
    hide Left, Near;
    if Spawns(s, s.calls[a].stage, s.calls[a].c, choice) {
      assert b in MoveCreate(s, a, b, choice).calls;
      CreateSpawns(s, a, b, choice, n);
    } else if IsEarly(s.calls[a].stage) {
      CreateEarly(s, a, b, choice, n);
    } else {
      CreateLate(s, a, b, choice, n);
    }
  }

  lemma StopWorks(s: State, a: nat, b: nat, n: nat)
    requires Below(s, n) && a in s.calls && s.calls[a].Stop? && CanMoveStop(s, a, b) && Below(MoveStop(s, a, b), n)
    ensures Left(MoveStop(s, a, b), n) < Left(s, n)
  {
    hide Left, Total, Weights, Open;
    var t := MoveStop(s, a, b);
    if s.calls[a].phase.STry? && !s.nodes[s.calls[a].c].once {
      assert b in t.calls;
      SpawnWorks(s, t, a, b, n);
    } else {
      SoloWorks(s, t, a, n);
    }
  }

  /** Every step of every call, however it is chosen. */
  lemma MoveWorks(s: State, act: Action, n: nat)
    requires Inv(s) && Enabled(s, act) && act.Move? && Below(s, n) && Below(Step(s, act), n)
    ensures Left(Step(s, act), n) < Left(s, n)
  {
    hide Inv, Left, MoveCancel, MoveCreate, MoveStop, CanMoveCancel, CanMoveCreate, CanMoveStop, Below;
    HasContext(s, act.a);
    match s.calls[act.a]
    case Cancel(_, _, _, _, _, _) => CancelWorks(s, act.a, act.b, act.choice, n);
    case Create(_, _, _) => CreateWorks(s, act.a, act.b, act.choice, n);
    case Stop(_, _) => StopWorks(s, act.a, act.b, n);
  }

  // ----- All calls end -----

  lemma {:induction false} TotalLonger(m: map<nat, nat>, n: nat, k: nat)
    requires n <= k && forall i | i in m :: i < n
    ensures Total(m, k) == Total(m, n)
  {
    if n < k {
      TotalLonger(m, n, k - 1);
    }
  }

  /** The bound on the ids does not matter. */
  lemma LeftLonger(s: State, n: nat, k: nat)
    requires Below(s, n) && n <= k
    ensures Below(s, k) && Left(s, k) == Left(s, n)
  {
    TotalLonger(Open(s.nodes), n, k);
    TotalLonger(Weights(s.calls), n, k);
  }

  lemma BoundFor(s: State, n: nat) returns (k: nat)
    ensures n <= k && Below(s, k)
  {
    var i := Above(s.nodes.Keys);
    var j := Above(s.calls.Keys);
    k := n + i + j;
  }

  ghost predicate OnlyMoves(acts: seq<Action>) { forall i | 0 <= i < |acts| :: acts[i].Move? }

  /** Without new calls and timers, no run takes more steps than are left at its start: no call goes
      on for ever. */
  lemma {:induction false} RunsEnd(s: State, acts: seq<Action>, t: State, n: nat)
    requires Inv(s) && Run(s, acts, t) && OnlyMoves(acts) && Below(s, n)
    ensures |acts| <= Left(s, n)
    decreases |acts|
  {
    if acts != [] {
      hide Enabled, Step, Left, Below, Inv;
      assert acts[0].Move?;
      var k := MoveBound(s, acts[0], n);
      StepKeeps(s, acts[0]);
      RunsEnd(Step(s, acts[0]), acts[1..], t, k);
    }
  }

  lemma {:induction false} RunMore(s: State, acts: seq<Action>, t: State, act: Action)
    requires Run(s, acts, t) && Enabled(t, act)
    ensures Run(s, acts + [act], Step(t, act))
    decreases |acts|
  {
    hide Enabled, Step;
    if acts == [] {
      assert [act][1..] == [];
    } else {
      RunMore(Step(s, acts[0]), acts[1..], t, act);
      assert (acts + [act])[1..] == acts[1..] + [act];
    }
  }

  lemma ReachableStep(s: State, act: Action)
    requires Reachable(s) && Enabled(s, act)
    ensures Reachable(Step(s, act))
  {
    hide Run, Enabled, Step;
    var acts :| Run(INIT, acts, s);
    RunMore(INIT, acts, s, act);
  }

  /** From every reachable state all calls can be brought to their end; and by RunsEnd their steps
      cannot be ordered so that they do not come to it. */
  lemma {:induction false} AllFinish(s: State, n: nat) returns (acts: seq<Action>, t: State)
    requires Reachable(s) && Below(s, n)
    ensures Run(s, acts, t) && OnlyMoves(acts) && AtRest(t) && Reachable(t)
    decreases Left(s, n)
  {
    hide Enabled, Step, Left, Below, Inv, Reachable, AtRest;
    if AtRest(s) {
      return [], s;
    }
    var act := UnfinishedMoves(s);
    ReachableInv(s);
    var k := MoveBound(s, act, n);
    ReachableStep(s, act);
    var rest;
    rest, t := AllFinish(Step(s, act), k);
    acts := [act] + rest;
    assert acts[1..] == rest;
  }

  lemma UnfinishedMoves(s: State) returns (act: Action)
    requires Reachable(s) && !AtRest(s)
    ensures act.Move? && Enabled(s, act)
  {
    hide Reachable, CanMove;
    var a :| a in s.calls && !Finished(s.calls[a]);
    NoDeadlock(s, a);
    var c, b, choice :| CanMove(s, c, b, choice);
    act := Move(c, b, choice);
  }

  /** A bound that holds before and after a step. */
  lemma MoveBound(s: State, act: Action, n: nat) returns (k: nat)
    requires Inv(s) && Enabled(s, act) && act.Move? && Below(s, n)
    ensures Below(Step(s, act), k) && Left(Step(s, act), k) < Left(s, n)
  {
    hide Enabled, Step, Left, Below, Inv;
    k := BoundFor(Step(s, act), n);
    LeftLonger(s, n, k);
    MoveWorks(s, act, k);
  }
}
