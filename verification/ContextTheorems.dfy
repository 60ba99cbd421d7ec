/** What every run of the cancellation tree guarantees. */
module ContextTheorems {
  import opened Basics
  import opened Context
  import opened ContextInvariants
  import opened ContextSteps

  lemma MoveCancelKeeps(s: State, a: nat, b: nat, choice: Choice)
    requires Inv(s) && a in s.calls && s.calls[a].Cancel? && CanMoveCancel(s, a, b, choice)
    ensures Kept(s, MoveCancel(s, a, b, choice))
  {
    hide Kept, Inv, Nearest, IsFinished;
    var call := s.calls[a];
    var x := s.nodes[call.c];
    match call.at
    case CLock =>
      if x.err.Some? {
        LateKeeps(s, a);
      } else {
        EnteredKeeps(s, a);
      }
    case CLoop(todo, _) =>
      if todo == {} {
        LoopDoneKeeps(s, a);
      } else {
        ChildCalledKeeps(s, a, b, choice.id);
      }
    case CRemove =>
      if call.remove && Nearest(s, call.c).Some?
         && !(s.nodes[Nearest(s, call.c).value].err.Some? && !s.nodes[Nearest(s, call.c).value].hasChan) {
        RemovedKeeps(s, a, Nearest(s, call.c).value);
      } else {
        SkipKeeps(s, a);
      }
    case CTail =>
      match x.kind {
        case CancelKind => TailKeeps(s, a);
        case TimerKind => TimerStoppedKeeps(s, a);
        case AfterKind =>
          if x.once {
            TailKeeps(s, a);
          } else {
            FuncStartedKeeps(s, a);
          }
      }
  }

  /** What a constructor's stage says about the parent. */
  lemma StageFacts(s: State, a: nat)
    requires Inv(s) && IsCreate(s, a)
    ensures !s.calls[a].stage.PWatch?
    ensures var p := Nearest(s, s.calls[a].c);
            p.Some? && p.value in s.nodes ==>
              && (s.calls[a].stage.PPoll? ==> s.nodes[p.value].hasChan || s.nodes[p.value].err.Some?)
              && (s.calls[a].stage.PLookup? ==> s.nodes[p.value].hasChan)
  {
    hide Inv, CancelFixed, CancelAtOk;
    CallFacts(s, a);
  }

  lemma MoveCreateKeeps(s: State, a: nat, b: nat, choice: Choice)
    requires Inv(s) && a in s.calls && s.calls[a].Create? && CanMoveCreate(s, a, b, choice)
    ensures Kept(s, MoveCreate(s, a, b, choice))
  {
    hide Kept, Inv, Nearest, IsFinished;
    var call := s.calls[a];
    var p := Nearest(s, call.c);
    StageFacts(s, a);
    match call.stage
    case PGetDone =>
      if p.None? {
        StageKeeps(s, a, PPost);
      } else if s.nodes[p.value].hasChan || s.nodes[p.value].err.Some? {
        StageKeeps(s, a, PPoll);
      } else {
        ChanMadeKeeps(s, a, p.value);
      }
    case PPoll => StageKeeps(s, a, if s.nodes[p.value].err.Some? then PReadErr else PLookup);
    case PReadErr => StageKeeps(s, a, PReadCause(s.nodes[p.value].err.value));
    case PReadCause(_) => OwnCalledKeeps(s, a, b, p.value);
    case POwn(_) => OwnDoneKeeps(s, a);
    case PLookup => StageKeeps(s, a, PRegister);
    case PRegister =>
      if s.nodes[p.value].err.Some? {
        HoldCalledKeeps(s, a, b, p.value);
      } else {
        ChildAddedKeeps(s, a, p.value);
      }
    case PHolding(_) => HoldDoneKeeps(s, a, p.value);
    case PWatch =>
    case PPost =>
      if s.nodes[call.c].kind == TimerKind && choice.passed {
        ExpiredCalledKeeps(s, a, b);
      } else if s.nodes[call.c].kind != TimerKind || s.nodes[call.c].err.Some? {
        StageKeeps(s, a, PDone(false));
      } else {
        TimerArmedKeeps(s, a);
      }
    case PExpired(_) => ExpiredDoneKeeps(s, a);
    case PDone(_) =>
  }

  /** Every step keeps the invariants, and every context its error and cause. */
  lemma StepKeeps(s: State, act: Action)
    requires Inv(s) && Enabled(s, act)
    ensures Kept(s, Step(s, act))
  {
    hide Kept, Inv, CanMoveCancel, CanMoveCreate, IsFinished, Ready;
    match act
    case NewContext(a, c, kind, parent, cause) => NewContextKeeps(s, a, c, kind, parent, cause);
    case NewCancel(a, c, cause) => NewCancelKeeps(s, a, c, cause);
    case NewStop(a, c) => NewStopKeeps(s, a, c);
    case Fire(a, c) => FireKeeps(s, a, c);
    case Move(a, b, choice) =>
      match s.calls[a] {
        case Cancel(_, _, _, _, _, _) => MoveCancelKeeps(s, a, b, choice);
        case Create(_, _, _) => MoveCreateKeeps(s, a, b, choice);
        case Stop(_, phase) =>
          if phase.STry? && !s.nodes[s.calls[a].c].once {
            StopWonKeeps(s, a, b);
          } else {
            StopMovesKeeps(s, a, SDone(phase.SWait?));
          }
      }
  }

  lemma InitInv()
    ensures Inv(INIT)
  {
  }

  lemma {:induction false} RunKept(s: State, acts: seq<Action>, t: State)
    requires Inv(s) && Run(s, acts, t)
    ensures Kept(s, t)
    decreases |acts|
  {
    hide Inv, Later, Enabled, Step;
    if acts == [] {
      LaterSame(s);
    } else {
      var u := Step(s, acts[0]);
      StepKeeps(s, acts[0]);
      RunKept(u, acts[1..], t);
      LaterTrans(s, u, t);
    }
  }

  // ----- Theorems -----

  /** Some run leads to s. */
  ghost predicate Reachable(s: State) { exists acts :: Run(INIT, acts, s) }

  lemma ReachableInv(s: State)
    requires Reachable(s)
    ensures Inv(s)
  {
    var acts :| Run(INIT, acts, s);
    InitInv();
    RunKept(INIT, acts, s);
  }

  /** err and cause are set together, and keep their values in every later state. */
  lemma ErrorsStay(s: State, acts: seq<Action>, t: State, c: nat)
    requires Reachable(s) && Run(s, acts, t) && c in s.nodes
    ensures s.nodes[c].err.Some? <==> s.nodes[c].cause.Some?
    ensures c in t.nodes
         && (s.nodes[c].err.Some? ==> t.nodes[c].err == s.nodes[c].err && t.nodes[c].cause == s.nodes[c].cause)
  {
    hide Inv;
    ReachableInv(s);
    RunKept(s, acts, t);
    NodeParts(s, c);
  }

  /** A context with n values around it. */
  function Values(n: nat, inner: Ctx): Ctx { if n == 0 then inner else Value(Values(n - 1, inner)) }

  /** c was made from p, with nothing but values between. */
  ghost predicate IsChild(s: State, c: nat, p: nat) {
    c in s.nodes && p in s.nodes && exists n :: s.nodes[c].parent == Values(n, Of(p))
  }

  /** c was made from the background, or from a context cut off from the contexts above it. */
  ghost predicate IsDetached(s: State, c: nat) {
    && c in s.nodes
    && ((exists n :: s.nodes[c].parent == Values(n, Background))
        || (exists n, q :: s.nodes[c].parent == Values(n, WithoutCancel(q))))
  }

  lemma {:induction false} NearValues(n: nat, inner: Ctx)
    ensures Near(Values(n, inner)) == Near(inner)
  {
    if n > 0 {
      NearValues(n - 1, inner);
    }
  }

  lemma {:induction false} NearUnwraps(c: Ctx) returns (n: nat, inner: Ctx)
    ensures c == Values(n, inner) && !inner.Value?
  {
    if c.Value? {
      n, inner := NearUnwraps(c.parent);
      n := n + 1;
    } else {
      n, inner := 0, c;
    }
  }

  lemma ChildIsNearest(s: State, c: nat, p: nat)
    ensures IsChild(s, c, p) <==> ParentIs(s, c, p)
  {
    if c in s.nodes {
      var n, inner := NearUnwraps(s.nodes[c].parent);
      NearValues(n, inner);
      if m :| s.nodes[c].parent == Values(m, Of(p)) {
        NearValues(m, Of(p));
      }
    }
  }

  lemma DetachedIsNone(s: State, c: nat)
    requires c in s.nodes
    ensures IsDetached(s, c) <==> Nearest(s, c).None?
  {
    var n, inner := NearUnwraps(s.nodes[c].parent);
    NearValues(n, inner);
    if m :| s.nodes[c].parent == Values(m, Background) {
      NearValues(m, Background);
    }
    if m, q :| s.nodes[c].parent == Values(m, WithoutCancel(q)) {
      NearValues(m, WithoutCancel(q));
    }
    if inner.WithoutCancel? {
      assert s.nodes[c].parent == Values(n, WithoutCancel(inner.parent));
    }
  }

  /** A detached context is nobody's child, and only cancelled by a call on itself. */
  lemma DetachedAlone(s: State, c: nat)
    requires Reachable(s) && IsDetached(s, c)
    ensures forall p | p in s.nodes :: c !in s.nodes[p].children
    ensures s.nodes[c].err.Some? ==> s.nodes[c].setter.Some? && CancelledBy(s, c, s.nodes[c].setter.value)
  {
    hide Inv, Reachable, LinkOk, LockOk, ChildrenOk, TailOk, SetBy, LocalOk, Fresh, Ready;
    ReachableInv(s);
    DetachedIsNone(s, c);
    forall p | p in s.nodes
      ensures c !in s.nodes[p].children
    {
      NodeFacts(s, p);
    }
    if s.nodes[c].err.Some? {
      SetterFacts(s, c);
      NodeParts(s, c);
    }
  }

  /** c was made from a, or from a context that was, and so on. */
  ghost predicate IsAbove(s: State, a: nat, c: nat)
    decreases c
  {
    exists p: nat | p < c :: IsChild(s, c, p) && (p == a || IsAbove(s, a, p))
  }

  /** The context was cancelled by this direct call: not by a parent. */
  predicate CancelledBy(s: State, c: nat, b: nat) {
    && c in s.nodes && s.nodes[c].setter == Some(b) && b in s.calls && s.calls[b].Cancel? && !s.calls[b].inherited
    && s.calls[b].c == c && s.nodes[c].err == Some(s.calls[b].err) && s.nodes[c].cause == Some(CauseOf(s.calls[b]))
  }

  /** The error and cause of a cancelled context are those of a direct cancellation, of the
      context itself or of an ancestor, passed on unchanged. */
  lemma {:induction false} CauseExplained(s: State, c: nat) returns (a: nat, b: nat)
    requires Reachable(s) && c in s.nodes && s.nodes[c].err.Some?
    ensures (a == c || IsAbove(s, a, c)) && CancelledBy(s, a, b)
    ensures s.nodes[c].err == s.nodes[a].err && s.nodes[c].cause == s.nodes[a].cause
    decreases c
  {
    hide Inv, Reachable;
    ReachableInv(s);
    SetterFacts(s, c);
    b := s.nodes[c].setter.value;
    if s.calls[b].inherited {
      var p := Nearest(s, c).value;
      ChildIsNearest(s, c, p);
      a, b := CauseExplained(s, p);
      assert p < c && IsChild(s, c, p);
    } else {
      a := c;
    }
  }

  lemma SetterFacts(s: State, c: nat)
    requires Inv(s) && c in s.nodes && s.nodes[c].err.Some?
    ensures SetBy(s, c, s.nodes[c])
    ensures var call := s.calls[s.nodes[c].setter.value]; var p := Nearest(s, c);
            if call.inherited then
              p.Some? && p.value in s.nodes && p.value < c
              && s.nodes[p.value].err == s.nodes[c].err && s.nodes[p.value].cause == s.nodes[c].cause
            else CancelledBy(s, c, s.nodes[c].setter.value)
  {
    hide Inv, CancelAtOk, Fresh, HolderOk, LinkOk, LockOk, ChildrenOk, TailOk, LocalOk, Registered;
    NodeParts(s, c);
    NodeFacts(s, c);
    CallFacts(s, s.nodes[c].setter.value);
  }

  /** Nobody is at work. */
  ghost predicate AtRest(s: State) { forall a | a in s.calls :: Finished(s.calls[a]) }

  /** At rest the children of an uncancelled context are exactly its uncancelled descendants one
      level down, and a cancelled context has no children, no lock and no timer. */
  lemma TreeAtRest(s: State, p: nat)
    requires Reachable(s) && AtRest(s) && p in s.nodes
    ensures s.nodes[p].mu.None?
    ensures s.nodes[p].err.Some? ==> s.nodes[p].children == {} && s.nodes[p].timer.NoTimer?
    ensures s.nodes[p].err.None? ==>
              forall c :: c in s.nodes[p].children <==> IsChild(s, c, p) && s.nodes[c].err.None?
  {
    hide Inv, Reachable;
    ReachableInv(s);
    RestFacts(s, p);
    if s.nodes[p].err.None? {
      forall c
        ensures c in s.nodes[p].children <==> IsChild(s, c, p) && s.nodes[c].err.None?
      {
        ChildIsNearest(s, c, p);
        if c in s.nodes && Nearest(s, c) == Some(p) && s.nodes[c].err.None? {
          RestLinked(s, c);
        }
      }
    }
  }

  lemma RestFacts(s: State, p: nat)
    requires Inv(s) && AtRest(s) && p in s.nodes
    ensures s.nodes[p].mu.None?
    ensures s.nodes[p].err.Some? ==> s.nodes[p].children == {} && s.nodes[p].timer.NoTimer?
    ensures s.nodes[p].err.None? ==>
      forall c | c in s.nodes[p].children :: c in s.nodes && Nearest(s, c) == Some(p) && s.nodes[c].err.None?
  {
    hide Inv, LinkOk, Fresh;
    NodeFacts(s, p);
  }

  /** At rest an uncancelled context is among the children of its uncancelled parent. */
  lemma RestLinked(s: State, c: nat)
    requires Inv(s) && AtRest(s) && c in s.nodes && s.nodes[c].err.None? && Nearest(s, c).Some?
    ensures var p := Nearest(s, c).value; p in s.nodes && p < c && s.nodes[p].err.None? && c in s.nodes[p].children
  {
    hide Inv, LocalOk, SetBy, ChildrenOk, TailOk;
    NodeFacts(s, c);
    NodeFacts(s, Nearest(s, c).value);
  }

  /** At rest, everything below a cancelled context is cancelled, however creation and
      cancellation raced. */
  lemma {:induction false} CancelledBelow(s: State, a: nat, c: nat)
    requires Reachable(s) && AtRest(s) && IsAbove(s, a, c) && a in s.nodes && s.nodes[a].err.Some?
    ensures s.nodes[c].err.Some?
    decreases c
  {
    hide Inv, Reachable, AtRest, IsChild;
    ReachableInv(s);
    var p: nat :| p < c && IsChild(s, c, p) && (p == a || IsAbove(s, a, p));
    ChildIsNearest(s, c, p);
    if p != a {
      CancelledBelow(s, a, p);
    }
    if s.nodes[c].err.None? {
      RestLinked(s, c);
    }
  }

  /** In any state: when a cancel call has returned, its context and everything below it whose
      constructor has returned is cancelled, and no loop over their children is still running. */
  lemma {:induction false} CancelReturned(s: State, b: nat, c: nat)
    requires Reachable(s) && b in s.calls && s.calls[b].Cancel? && Finished(s.calls[b])
    requires c == s.calls[b].c || (Ready(s, c) && IsAbove(s, s.calls[b].c, c))
    ensures Settled(s, c)
    decreases c
  {
    hide Inv, Reachable, Settled, IsChild;
    ReachableInv(s);
    if c == s.calls[b].c {
      CancelFinished(s, b);
    } else {
      var p: nat :| p < c && IsChild(s, c, p) && (p == s.calls[b].c || IsAbove(s, s.calls[b].c, p));
      ChildIsNearest(s, c, p);
      ReadyParent(s, c);
      CancelReturned(s, b, p);
      SettledDown(s, c, p);
    }
  }

  lemma CancelFinished(s: State, b: nat)
    requires Inv(s) && b in s.calls && s.calls[b].Cancel? && Finished(s.calls[b])
    ensures Settled(s, s.calls[b].c)
  {
    hide Inv, Settled;
    CallFacts(s, b);
  }

  lemma ReadyParent(s: State, c: nat)
    requires Inv(s) && c in s.nodes && Nearest(s, c).Some?
    ensures Ready(s, Nearest(s, c).value) && Nearest(s, c).value < c
  {
    hide Inv, Ready, LinkOk, LockOk, ChildrenOk, TailOk, SetBy, LocalOk, Fresh;
    NodeFacts(s, c);
  }

  /** A settled parent has settled its children. */
  lemma SettledDown(s: State, c: nat, p: nat)
    requires Inv(s) && Ready(s, c) && Nearest(s, c) == Some(p) && Settled(s, p)
    ensures Settled(s, c)
  {
    hide Inv, NodeOk, ChildrenOk, TailOk;
    NodeFacts(s, c);
    NodeFacts(s, p);
    MakerOf(s, c);
    if s.nodes[p].mu.Some? {
      CallFacts(s, s.nodes[p].mu.value);
    }
  }

  /** A stop call that returns, or is about to return, true. */
  predicate Won(call: Call) {
    match call
    case Stop(_, SWait(_)) => true
    case Stop(_, SDone(result)) => result
    case _ => false
  }

  predicate WinnerOk(s: State, a: nat)
    requires a in s.calls
  {
    Won(s.calls[a]) ==>
      s.calls[a].c in s.nodes && s.nodes[s.calls[a].c].once
      && s.nodes[s.calls[a].c].started == 0 && s.nodes[s.calls[a].c].stopped == 1
  }

  ghost predicate InvWinners(s: State) {
    && (forall a | a in s.calls :: WinnerOk(s, a))
    && (forall a, b | a in s.calls && b in s.calls && Won(s.calls[a]) && Won(s.calls[b]) ::
          s.calls[a].c == s.calls[b].c ==> a == b)
  }

  /** The call that wins in a step does so while the choice is still open. */
  predicate WinsNow(s: State, t: State, a: nat) {
    && a in t.calls && Won(t.calls[a]) && !(a in s.calls && Won(s.calls[a])) && t.calls[a].c in s.nodes
    && !s.nodes[t.calls[a].c].once && t.calls[a].c in t.nodes && t.nodes[t.calls[a].c].once
    && t.nodes[t.calls[a].c].started == 0 && t.nodes[t.calls[a].c].stopped == 1
  }

  function Mover(act: Action): (a: nat) { act.a }

  lemma OnlyMoverWins(s: State, act: Action, a: nat)
    requires Inv(s) && Enabled(s, act) && a in Step(s, act).calls && Won(Step(s, act).calls[a])
    ensures var t := Step(s, act);
            if a in s.calls && Won(s.calls[a]) then s.calls[a].c == t.calls[a].c
            else a == Mover(act) && WinsNow(s, t, a)
  {
    hide Inv, Expired, Nearest, IsFinished, Ready, CauseOf;
    if act.Move? && s.calls[act.a].Stop? && s.calls[act.a].c in s.nodes {
      NodeParts(s, s.calls[act.a].c);
    }
  }

  lemma WinnersKeep(s: State, act: Action)
    requires Inv(s) && InvWinners(s) && Enabled(s, act)
    ensures InvWinners(Step(s, act))
  {
    hide Inv, Step, Enabled;
    StepKeeps(s, act);
    var t := Step(s, act);
    forall a | a in t.calls && Won(t.calls[a])
      ensures if a in s.calls && Won(s.calls[a]) then s.calls[a].c == t.calls[a].c
              else a == Mover(act) && WinsNow(s, t, a)
    {
      OnlyMoverWins(s, act, a);
    }
    forall a | a in t.calls
      ensures WinnerOk(t, a)
    {
      if Won(t.calls[a]) && a in s.calls && Won(s.calls[a]) {
        assert WinnerOk(s, a) && NodeLater(s.nodes[s.calls[a].c], t.nodes[s.calls[a].c]);
      }
    }
    forall a, b | a in t.calls && b in t.calls && Won(t.calls[a]) && Won(t.calls[b]) && t.calls[a].c == t.calls[b].c
      ensures a == b
    {
      assert a in s.calls && Won(s.calls[a]) ==> WinnerOk(s, a);
      assert b in s.calls && Won(s.calls[b]) ==> WinnerOk(s, b);
    }
  }

  lemma {:induction false} RunWinners(s: State, acts: seq<Action>, t: State)
    requires Inv(s) && InvWinners(s) && Run(s, acts, t)
    ensures InvWinners(t)
    decreases |acts|
  {
    hide Inv, InvWinners, Enabled, Step, Later;
    if acts != [] {
      StepKeeps(s, acts[0]);
      WinnersKeep(s, acts[0]);
      RunWinners(Step(s, acts[0]), acts[1..], t);
    }
  }

  /** Of a function registered with AfterFunc at most one thing happens, once: it is started, or
      one stop call returns true. At rest, on a cancelled context, one of the two has. */
  lemma AfterFuncOnce(s: State, c: nat)
    requires Reachable(s) && c in s.nodes
    ensures s.nodes[c].started + s.nodes[c].stopped <= 1
    ensures forall a, b | a in s.calls && b in s.calls && Won(s.calls[a]) && Won(s.calls[b])
              && s.calls[a].c == s.calls[b].c == c ::
              a == b
    ensures (exists a :: a in s.calls && Won(s.calls[a]) && s.calls[a].c == c) ==> s.nodes[c].started == 0
    ensures AtRest(s) && s.nodes[c].kind == AfterKind && s.nodes[c].err.Some? ==>
      s.nodes[c].started + s.nodes[c].stopped == 1
  {
    hide Inv, InvWinners, LinkOk, Fresh, ChildrenOk, LockOk, NodeOk, Won, Finished;
    ReachableInv(s);
    AfterFuncChosen(s, c);
    var acts :| Run(INIT, acts, s);
    InitInv();
    InitWinners();
    RunWinners(INIT, acts, s);
    WinnersOf(s, c);
  }

  lemma InitWinners()
    ensures InvWinners(INIT)
  {
  }

  lemma WinnersOf(s: State, c: nat)
    requires InvWinners(s)
    ensures forall a, b | a in s.calls && b in s.calls && Won(s.calls[a]) && Won(s.calls[b])
              && s.calls[a].c == s.calls[b].c == c ::
              a == b
    ensures forall a | a in s.calls && Won(s.calls[a]) && s.calls[a].c == c :: WinnerOk(s, a)
  {
    hide Won;
  }

  lemma AfterFuncChosen(s: State, c: nat)
    requires Inv(s) && c in s.nodes
    ensures s.nodes[c].started + s.nodes[c].stopped <= 1
    ensures AtRest(s) && s.nodes[c].kind == AfterKind && s.nodes[c].err.Some? ==>
      s.nodes[c].started + s.nodes[c].stopped == 1
  {
    hide Inv, LinkOk, Fresh, ChildrenOk, LockOk, NodeOk;
    NodeParts(s, c);
    NodeFacts(s, c);
  }

  /** With the standard contexts no goroutine is ever started to watch a parent. */
  lemma NoWatcher(s: State, a: nat)
    requires Reachable(s) && a in s.calls
    ensures !(s.calls[a].Create? && s.calls[a].stage.PWatch?)
  {
    hide Inv, CancelFixed, CancelAtOk;
    ReachableInv(s);
    CallFacts(s, a);
  }

  // ----- Deadlock -----

  /** Some call can move. */
  ghost predicate SomeMove(s: State) { exists a, b, choice :: CanMove(s, a, b, choice) }

  lemma Moves(s: State, a: nat, b: nat, choice: Choice)
    requires CanMove(s, a, b, choice)
    ensures SomeMove(s)
  {
  }

  lemma CancelCan(s: State, a: nat, b: nat)
    requires Inv(s) && IsCancel(s, a) && !Finished(s.calls[a]) && b !in s.calls
    requires s.calls[a].at.CLock? || (s.calls[a].at.CTail? && s.nodes[s.calls[a].c].kind == TimerKind) ==>
      s.nodes[s.calls[a].c].mu.None?
    requires var p := Nearest(s, s.calls[a].c);
             s.calls[a].at.CRemove? && s.calls[a].remove && p.Some? && p.value in s.nodes ==> s.nodes[p.value].mu.None?
    requires s.calls[a].at.CLoop? && s.calls[a].at.wait.Some? ==> IsFinished(s, s.calls[a].at.wait.value)
    ensures SomeMove(s)
  {
    hide Inv, IsFinished, SomeMove, Ready, LinkOk, LockOk, ChildrenOk, TailOk, SetBy, LocalOk, Fresh;
    NodeFacts(s, s.calls[a].c);
    if s.calls[a].at.CLoop? {
      LoopFacts(s, a);
      if s.calls[a].at.todo != {} {
        var k :| k in s.calls[a].at.todo;
        Moves(s, a, b, Child(k));
      } else {
        Moves(s, a, b, Passed(true));
      }
    } else {
      if Nearest(s, s.calls[a].c).Some? {
        NearestIn(s, s.calls[a].c);
      }
      Moves(s, a, b, Passed(true));
    }
  }

  lemma NearestIn(s: State, c: nat)
    requires Inv(s) && c in s.nodes && Nearest(s, c).Some?
    ensures Nearest(s, c).value in s.nodes
  {
    hide Inv, LockOk, ChildrenOk, TailOk, NodeOk, Linked;
    NodeFacts(s, c);
  }

  ghost predicate Bounded(s: State, bound: nat) { forall c | c in s.nodes :: c < bound }

  /** A lock that is held will not be held for ever: its holder can move, or waits for a call on
      a strictly deeper context. */
  lemma {:induction false} HeldMoves(s: State, x: nat, bound: nat)
    requires Inv(s) && Bounded(s, bound) && x in s.nodes && s.nodes[x].mu.Some?
    ensures SomeMove(s)
    decreases bound - x, 1
  {
    hide Inv, SomeMove, IsFinished;
    var h := s.nodes[x].mu.value;
    HolderWaits(s, x);
    var b := Above(s.calls.Keys);
    assert b !in s.calls;
    if s.calls[h].Cancel? {
      if s.calls[h].at.wait.Some? && !IsFinished(s, s.calls[h].at.wait.value) {
        PassedOnMoves(s, s.calls[h].at.wait.value, x, bound);
      } else {
        CancelCan(s, h, b);
      }
    } else {
      if !IsFinished(s, s.calls[h].stage.wait) {
        PassedOnMoves(s, s.calls[h].stage.wait, x, bound);
      } else {
        Moves(s, h, b, Passed(true));
      }
    }
  }

  /** The lock order: who holds a lock waits only for calls on children of that context, which are
      created later and do not ask for any lock above. */
  lemma HolderWaits(s: State, x: nat)
    requires Inv(s) && x in s.nodes && s.nodes[x].mu.Some?
    ensures var h := s.nodes[x].mu.value;
            && h in s.calls
            && match s.calls[h]
               case Cancel(c, _, _, _, _, at) =>
                 c == x && at.CLoop? && (at.wait.Some? ==> PassesDown(s, at.wait.value, x))
               case Create(c, _, stage) => ParentIs(s, c, x) && stage.PHolding? && PassesDown(s, stage.wait, x)
               case Stop(_, _) => false
  {
    hide Inv, LinkOk, ChildrenOk, TailOk, Settled, CancelFixed, Registered, SetBy, LocalOk, Fresh, Ready;
    NodeFacts(s, x);
    CallFacts(s, s.nodes[x].mu.value);
    forall y | y in s.nodes && ParentIs(s, y, x)
      ensures x < y
    {
      Deeper(s, y);
    }
  }

  /** A call on a child of x, created later, made for x. */
  predicate PassesDown(s: State, b: nat, x: nat) {
    && b in s.calls && s.calls[b].Cancel? && s.calls[b].inherited
    && ParentIs(s, s.calls[b].c, x) && x < s.calls[b].c
  }

  lemma {:induction false} PassedOnMoves(s: State, b: nat, x: nat, bound: nat)
    requires Inv(s) && Bounded(s, bound) && PassesDown(s, b, x) && x < bound && !IsFinished(s, b)
    ensures SomeMove(s)
    decreases bound - x, 0
  {
    hide Inv, SomeMove;
    var y := s.calls[b].c;
    NotRemoving(s, b);
    if s.nodes[y].mu.Some? {
      HeldMoves(s, y, bound);
    } else {
      if s.calls[b].at.CLoop? {
        LoopFacts(s, b);
      }
      var b1 := Above(s.calls.Keys);
      assert b1 !in s.calls;
      CancelCan(s, b, b1);
    }
  }

  lemma NotRemoving(s: State, b: nat)
    requires Inv(s) && b in s.calls && s.calls[b].Cancel? && s.calls[b].inherited
    ensures !s.calls[b].remove
  {
    hide Inv, CancelAtOk;
    CallFacts(s, b);
  }

  lemma Deeper(s: State, y: nat)
    requires Inv(s) && y in s.nodes && Nearest(s, y).Some?
    ensures Nearest(s, y).value < y
  {
    hide Inv, LinkOk, LockOk, ChildrenOk, TailOk, SetBy, LocalOk, Fresh, Ready;
    NodeFacts(s, y);
  }

  /** No interleaving deadlocks: while any call is unfinished, some call can move. */
  lemma NoDeadlock(s: State, a: nat)
    requires Reachable(s) && a in s.calls && !Finished(s.calls[a])
    ensures SomeMove(s)
  {
    hide Inv, SomeMove, Reachable;
    ReachableInv(s);
    var bound := Above(s.nodes.Keys);
    assert Bounded(s, bound);
    if x :| x in s.nodes && s.nodes[x].mu.Some? {
      HeldMoves(s, x, bound);
    } else {
      FreeMoves(s, a);
    }
  }

  lemma FreeMoves(s: State, a: nat)
    requires Inv(s) && a in s.calls && !Finished(s.calls[a])
    requires forall x | x in s.nodes :: s.nodes[x].mu.None?
    ensures SomeMove(s)
  {
    hide Inv, SomeMove, Nearest;
    var b := Above(s.calls.Keys);
    assert b !in s.calls;
    HasContext(s, a);
    match s.calls[a]
    case Cancel(c, _, _, _, _, at) => FreeCancelMoves(s, a, b);
    case Create(c, _, stage) =>
      StageParent(s, a);
      if (stage.POwn? || stage.PExpired? || stage.PHolding?) && !IsFinished(s, stage.wait) {
        WaitFacts(s, a);
        HasContext(s, stage.wait);
        FreeCancelMoves(s, stage.wait, b);
      } else {
        Moves(s, a, b, Passed(false));
      }
    case Stop(c, phase) =>
      if phase.SWait? && !IsFinished(s, phase.wait) {
        StopWaits(s, a);
        HasContext(s, phase.wait);
        FreeCancelMoves(s, phase.wait, b);
      } else {
        Moves(s, a, b, Passed(false));
      }
  }

  lemma FreeCancelMoves(s: State, a: nat, b: nat)
    requires Inv(s) && IsCancel(s, a) && !Finished(s.calls[a]) && b !in s.calls
    requires forall x | x in s.nodes :: s.nodes[x].mu.None?
    ensures SomeMove(s)
  {
    hide Inv, SomeMove;
    if s.calls[a].at.CLoop? {
      LoopFacts(s, a);
    }
    CancelCan(s, a, b);
  }

  lemma HasContext(s: State, a: nat)
    requires Inv(s) && a in s.calls
    ensures s.calls[a].c in s.nodes
  {
    hide Inv, CancelAtOk, StageOk, HolderOk, Fresh;
    CallFacts(s, a);
  }

  lemma StopWaits(s: State, a: nat)
    requires Inv(s) && a in s.calls && s.calls[a].Stop? && s.calls[a].phase.SWait?
    ensures Cancels(s, s.calls[a].phase.wait, s.calls[a].c)
  {
    hide Inv, CancelFixed, CancelAtOk, StageOk, HolderOk, Fresh;
    CallFacts(s, a);
  }

  /** A constructor past its first stage has a parent, cancelled where it says so. */
  lemma StageParent(s: State, a: nat)
    requires Inv(s) && IsCreate(s, a)
    ensures var p, stage := Nearest(s, s.calls[a].c), s.calls[a].stage;
            && (p.Some? ==> p.value in s.nodes)
            && (stage.PPoll? || stage.PReadErr? || stage.PReadCause? || stage.PLookup? || stage.PRegister?
                || stage.PHolding? ==>
                  p.Some? && (stage.PReadErr? ==> s.nodes[p.value].err.Some?))
  {
    hide Inv, CancelFixed, CancelAtOk, HolderOk, Settled;
    CallFacts(s, a);
  }
}
