/** The cancellation tree in terms of the actions of a run: contexts are what they were created as,
    errors and causes are those given to the calls that set them, and deadlines stay armed. */
module ContextHistory {
  import opened Basics
  import opened Context
  import opened ContextInvariants
  import opened ContextSteps
  import opened ContextTheorems
  import opened ContextProgress

  // ----- What a state owes to the actions before it -----

  /** The cause a deadline was given. */
  predicate DeadlineCause(s: State, c: nat, cause: Option<Err>) {
    c in s.nodes && s.nodes[c].maker in s.calls && s.calls[s.nodes[c].maker].Create?
    && s.calls[s.nodes[c].maker].c == c && s.calls[s.nodes[c].maker].cause == cause
  }

  /** The context was created with this kind and parent. */
  predicate NodeMade(acts: seq<Action>, s: State, c: nat)
    requires c in s.nodes
  {
    var x := s.nodes[c];
    && x.maker in s.calls && s.calls[x.maker].Create? && s.calls[x.maker].c == c
    && NewContext(x.maker, c, x.kind, x.parent, s.calls[x.maker].cause) in acts
  }

  /** Call a cancels c because the program asked it to, because AfterFunc was stopped, or because of the
      deadline. */
  ghost predicate Ordered(acts: seq<Action>, s: State, a: nat, c: nat, err: Err, cause: Option<Err>) {
    && c in s.nodes
    && var kind := s.nodes[c].kind;
       || (err == Canceled && exists e :: NewCancel(a, c, e) in acts && cause == if kind == TimerKind then None else e)
       || (err == Canceled && cause.None? && kind == AfterKind && exists b :: NewStop(b, c) in acts)
       || (err == DeadlineExceeded && kind == TimerKind && DeadlineCause(s, c, cause))
  }

  ghost predicate CallMade(acts: seq<Action>, s: State, a: nat)
    requires a in s.calls
  {
    match s.calls[a]
    case Cancel(c, _, err, cause, inherited, _) => inherited || Ordered(acts, s, a, c, err, cause)
    case Create(c, _, _) => c in s.nodes && s.nodes[c].maker == a
    case Stop(c, _) => NewStop(a, c) in acts
  }

  /** Every action has left the call it made. */
  predicate ActionKept(act: Action, s: State) {
    match act
    case NewContext(a, c, kind, parent, cause) =>
      c in s.nodes && s.nodes[c].kind == kind && s.nodes[c].parent == parent && s.nodes[c].maker == a
    case NewCancel(a, c, e) =>
      && a in s.calls && s.calls[a].Cancel? && s.calls[a].c == c && s.calls[a].err == Canceled && !s.calls[a].inherited
    case NewStop(a, c) => a in s.calls && s.calls[a].Stop? && s.calls[a].c == c
    case Fire(a, c) =>
      && a in s.calls && s.calls[a].Cancel? && s.calls[a].c == c && s.calls[a].err == DeadlineExceeded
      && !s.calls[a].inherited
    case Move(_, _, _) => true
  }

  /** A deadline that has not cancelled its context is armed, or has fired and is about to. */
  ghost predicate TimerSet(s: State, c: nat)
    requires c in s.nodes
  {
    var x := s.nodes[c];
    && (x.timer.Armed? ==> DeadlineCause(s, c, x.timer.cause))
    && (x.kind == TimerKind && Ready(s, c) && x.err.None? ==>
          x.timer.Armed? || exists b :: Cancels(s, b, c))
  }

  ghost predicate Past(acts: seq<Action>, s: State) {
    && (forall c | c in s.nodes :: NodeMade(acts, s, c))
    && (forall a | a in s.calls :: CallMade(acts, s, a))
    && (forall act | act in acts :: ActionKept(act, s))
    && (forall c | c in s.nodes :: TimerSet(s, c))
  }

  // ----- Every step adds to it -----

  /** Where the calls of a step come from. */
  predicate NewCallOk(s: State, act: Action, a: nat, call: Call) {
    match call
    case Create(_, _, _) => act.NewContext? && act.a == a
    case Stop(c, _) => act == NewStop(a, c)
    case Cancel(c, _, err, cause, inherited, _) =>
      || inherited
      || (act.NewCancel? && act.a == a && act.c == c && c in s.nodes && err == Canceled
          && cause == if s.nodes[c].kind == TimerKind then None else act.cause)
      || (act.Fire? && act.a == a && act.c == c && c in s.nodes && s.nodes[c].timer.Armed? && err == DeadlineExceeded
          && cause == s.nodes[c].timer.cause)
      || (act.Move? && err == Canceled && cause.None?
          && act.a in s.calls && s.calls[act.a].Stop? && s.calls[act.a].c == c)
      || (act.Move? && err == DeadlineExceeded && act.a in s.calls && s.calls[act.a].Create? && s.calls[act.a].c == c
          && c in s.nodes && s.nodes[c].kind == TimerKind && cause == s.calls[act.a].cause)
  }

  lemma MovedCalls(s: State, a: nat, b: nat, choice: Choice)
    requires CanMove(s, a, b, choice)
    ensures var t := MoveCall(s, a, b, choice);
            && t.nodes.Keys == s.nodes.Keys
            && forall k | k in t.calls && k !in s.calls :: NewCallOk(s, Move(a, b, choice), k, t.calls[k])
  {
    hide Nearest, Expired, Near, IsFinished;
    match s.calls[a]
    case Cancel(_, _, _, _, _, _) =>
    case Create(_, _, _) =>
    case Stop(_, _) =>
  }

  lemma NewCalls(s: State, act: Action)
    requires Enabled(s, act)
    ensures var t := Step(s, act);
            && (forall c | c in t.nodes && c !in s.nodes :: act.NewContext? && act.c == c)
            && (forall a | a in t.calls && a !in s.calls :: NewCallOk(s, act, a, t.calls[a]))
  {
    hide CanMove, MoveCall, Expired, Near;
    if act.Move? {
      MovedCalls(s, act.a, act.b, act.choice);
    }
  }

  /** What was true of the deadline's cause stays true. */
  lemma CauseKept(s: State, t: State, c: nat, cause: Option<Err>)
    requires Later(s, t) && DeadlineCause(s, c, cause)
    ensures DeadlineCause(t, c, cause)
  {
    hide Rank;
    assert NodeLater(s.nodes[c], t.nodes[c]);
    assert CallLater(s.calls[s.nodes[c].maker], t.calls[s.nodes[c].maker]);
  }

  lemma NodeMadeKept(acts: seq<Action>, act: Action, s: State, t: State, c: nat)
    requires Later(s, t) && c in s.nodes && NodeMade(acts, s, c)
    ensures c in t.nodes && NodeMade(acts + [act], t, c)
  {
    hide Rank;
    assert NodeLater(s.nodes[c], t.nodes[c]);
    assert CallLater(s.calls[s.nodes[c].maker], t.calls[s.nodes[c].maker]);
  }

  lemma OrderedKept(acts: seq<Action>, act: Action, s: State, t: State, a: nat, c: nat, err: Err, cause: Option<Err>)
    requires Later(s, t) && Ordered(acts, s, a, c, err, cause)
    ensures Ordered(acts + [act], t, a, c, err, cause)
  {
    assert NodeLater(s.nodes[c], t.nodes[c]);
    if DeadlineCause(s, c, cause) {
      CauseKept(s, t, c, cause);
    }
    if e :| NewCancel(a, c, e) in acts && cause == if s.nodes[c].kind == TimerKind then None else e {
      assert NewCancel(a, c, e) in acts + [act];
    }
    if b :| NewStop(b, c) in acts {
      assert NewStop(b, c) in acts + [act];
    }
  }

  lemma CallMadeKept(acts: seq<Action>, act: Action, s: State, t: State, a: nat)
    requires Later(s, t) && a in s.calls && CallMade(acts, s, a)
    ensures a in t.calls && CallMade(acts + [act], t, a)
  {
    hide Rank, Ordered;
    assert CallLater(s.calls[a], t.calls[a]);
    match s.calls[a]
    case Cancel(c, _, err, cause, inherited, _) =>
      if !inherited {
        OrderedKept(acts, act, s, t, a, c, err, cause);
      }
    case Create(c, _, _) => assert NodeLater(s.nodes[c], t.nodes[c]);
    case Stop(_, _) =>
  }

  lemma ActionKeptOn(act: Action, s: State, t: State)
    requires Later(s, t) && ActionKept(act, s)
    ensures ActionKept(act, t)
  {
    hide Rank;
    match act
    case NewContext(a, c, _, _, _) => assert NodeLater(s.nodes[c], t.nodes[c]);
    case NewCancel(a, _, _) => assert CallLater(s.calls[a], t.calls[a]);
    case NewStop(a, _) => assert CallLater(s.calls[a], t.calls[a]);
    case Fire(a, _) => assert CallLater(s.calls[a], t.calls[a]);
    case Move(_, _, _) =>
  }

  lemma ActionKeptNow(act: Action, s: State)
    requires Enabled(s, act)
    ensures ActionKept(act, Step(s, act))
  {
    hide MoveCall, CanMove, Expired, Near;
  }

  lemma MadeNow(acts: seq<Action>, s: State, act: Action, c: nat)
    requires Enabled(s, act) && c in Step(s, act).nodes && c !in s.nodes
    ensures NodeMade(acts + [act], Step(s, act), c)
  {
    NewCalls(s, act);
    hide MoveCall, CanMove, Expired, Near;
  }

  /** A new call was made by the program, by a stop, or by a deadline. */
  lemma CalledNow(acts: seq<Action>, s: State, act: Action, a: nat)
    requires Inv(s) && Past(acts, s) && Enabled(s, act) && Later(s, Step(s, act))
    requires a in Step(s, act).calls && a !in s.calls
    ensures CallMade(acts + [act], Step(s, act), a)
  {
    var t, more := Step(s, act), acts + [act];
    NewCalls(s, act);
    ActionKeptNow(act, s);
    hide Step, Enabled, Inv, Later, Rank;
    assert act in more;
    match t.calls[a]
    case Create(c, _, _) =>
    case Stop(c, _) =>
    case Cancel(c, _, err, cause, inherited, _) =>
      if !inherited {
        OrderedNow(acts, s, act, a, t.calls[a]);
        OrderedKept(more, act, s, t, a, c, err, cause);
      }
  }

  lemma OrderedNow(acts: seq<Action>, s: State, act: Action, a: nat, call: Call)
    requires Inv(s) && Past(acts, s) && call.Cancel? && !call.inherited && NewCallOk(s, act, a, call)
    ensures Ordered(acts + [act], s, a, call.c, call.err, call.cause)
  {
    hide Inv;
    var more := acts + [act];
    assert act in more;
    if act.NewCancel? {
      assert NewCancel(a, call.c, act.cause) in more;
    } else if act.Fire? {
      assert TimerSet(s, call.c);
      NodeParts(s, call.c);
    } else {
      assert CallMade(acts, s, act.a);
      CallFacts(s, act.a);
      if s.calls[act.a].Stop? {
        assert NewStop(act.a, call.c) in more;
      }
    }
  }

  // ----- Deadlines -----

  /** What a step does to the deadline of an old context. */
  predicate TimerMove(s: State, act: Action, t: State, c: nat)
    requires c in s.nodes && c in t.nodes
  {
    || t.nodes[c].timer == s.nodes[c].timer
    || t.nodes[c].err.Some?
    || (act == Fire(act.a, c) && Cancels(t, act.a, c))
    || (t.nodes[c].timer.Armed? && DeadlineCause(s, c, t.nodes[c].timer.cause))
  }

  lemma TimerMoves(s: State, act: Action, c: nat)
    requires Inv(s) && Enabled(s, act) && c in s.nodes && c in Step(s, act).nodes
    ensures TimerMove(s, act, Step(s, act), c)
    ensures Step(s, act).nodes[c].timer.Armed? ==>
              Step(s, act).nodes[c].timer == s.nodes[c].timer || DeadlineCause(s, c, Step(s, act).nodes[c].timer.cause)
  {
    hide Inv, Expired, Near, Nearest, IsFinished, CauseOf;
    if act.Move? {
      CallFacts(s, act.a);
      if s.calls[act.a].Create? {
        NodeFacts(s, s.calls[act.a].c);
      }
    }
  }

  /** A constructor that returns has armed its deadline, unless the context is cancelled. */
  lemma ReadyNow(s: State, act: Action, c: nat)
    requires Inv(s) && Enabled(s, act) && Later(s, Step(s, act)) && c in s.nodes && s.nodes[c].kind == TimerKind
    requires !Ready(s, c) && Ready(Step(s, act), c)
    ensures Step(s, act).nodes[c].err.Some? || Step(s, act).nodes[c].timer.Armed?
  {
    hide Inv, Expired, Near, Nearest, CauseOf, Later, MoveCancel, MoveStop;
    assert NodeLater(s.nodes[c], Step(s, act).nodes[c]) by {
      LaterNode(s, Step(s, act), c);
    }
    NodeFacts(s, c);
    MakerMoves(s, act, s.nodes[c].maker);
    CallFacts(s, s.nodes[c].maker);
    if s.calls[act.a].stage.PExpired? {
      CancelFinished(s, s.calls[act.a].stage.wait);
    }
  }

  lemma LaterNode(s: State, t: State, c: nat)
    requires Later(s, t) && c in s.nodes
    ensures c in t.nodes && NodeLater(s.nodes[c], t.nodes[c])
  {
    hide CallLater;
  }

  /** Only its own move finishes a constructor. */
  lemma MakerMoves(s: State, act: Action, m: nat)
    requires Enabled(s, act) && IsCreate(s, m) && !IsFinished(s, m) && IsFinished(Step(s, act), m)
    ensures act.Move? && act.a == m
  {
    hide Expired, Near, Nearest, CauseOf;
  }

  lemma TimerKept(s: State, act: Action, c: nat)
    requires Inv(s) && Enabled(s, act) && Later(s, Step(s, act)) && c in s.nodes && TimerSet(s, c)
    ensures c in Step(s, act).nodes && TimerSet(Step(s, act), c)
  {
    hide Inv, Enabled, Step, Rank, Ready;
    var t := Step(s, act);
    LaterNode(s, t, c);
    TimerMoves(s, act, c);
    if t.nodes[c].timer.Armed? {
      CauseKept(s, t, c, t.nodes[c].timer.cause);
    }
    if t.nodes[c].kind == TimerKind && Ready(t, c) && t.nodes[c].err.None? {
      if Ready(s, c) {
        if b :| Cancels(s, b, c) {
          assert CallLater(s.calls[b], t.calls[b]);
          assert Cancels(t, b, c);
        }
      } else {
        ReadyNow(s, act, c);
      }
    }
  }

  lemma TimerNew(s: State, act: Action, c: nat)
    requires Enabled(s, act) && c !in s.nodes && c in Step(s, act).nodes
    ensures TimerSet(Step(s, act), c)
  {
    NewCalls(s, act);
    hide MoveCall, CanMove, Expired, Near;
  }

  lemma StepPast(acts: seq<Action>, s: State, act: Action)
    requires Inv(s) && Past(acts, s) && Enabled(s, act)
    ensures Past(acts + [act], Step(s, act))
  {
    hide Inv, Enabled, Step, Later, NodeMade, CallMade, ActionKept, TimerSet;
    var t, more := Step(s, act), acts + [act];
    StepKeeps(s, act);
    forall c | c in t.nodes
      ensures NodeMade(more, t, c) && TimerSet(t, c)
    {
      if c in s.nodes {
        NodeMadeKept(acts, act, s, t, c);
        TimerKept(s, act, c);
      } else {
        MadeNow(acts, s, act, c);
        TimerNew(s, act, c);
      }
    }
    forall a | a in t.calls
      ensures CallMade(more, t, a)
    {
      if a in s.calls {
        CallMadeKept(acts, act, s, t, a);
      } else {
        CalledNow(acts, s, act, a);
      }
    }
    forall x | x in more
      ensures ActionKept(x, t)
    {
      if x in acts {
        ActionKeptOn(x, s, t);
      } else {
        ActionKeptNow(act, s);
      }
    }
  }

  lemma {:induction false} RunPast(past: seq<Action>, s: State, acts: seq<Action>, t: State)
    requires Inv(s) && Past(past, s) && Run(s, acts, t)
    ensures Past(past + acts, t)
    decreases |acts|
  {
    hide Inv, Past, Enabled, Step;
    if acts == [] {
      assert past + acts == past;
    } else {
      StepKeeps(s, acts[0]);
      StepPast(past, s, acts[0]);
      RunPast(past + [acts[0]], Step(s, acts[0]), acts[1..], t);
      assert past + [acts[0]] + acts[1..] == past + acts;
    }
  }

  lemma FromStart(acts: seq<Action>, s: State)
    requires Run(INIT, acts, s)
    ensures Reachable(s) && Inv(s) && Past(acts, s)
  {
    hide Inv, Past, Run;
    InitInv();
    RunKept(INIT, acts, s);
    NoPast();
    RunPast([], INIT, acts, s);
    assert [] + acts == acts;
  }

  lemma NoPast()
    ensures Past([], INIT)
  {
  }

  // ----- What a cancel call leaves behind -----

  /** c is in no list of its parent. */
  predicate OffParent(s: State, c: nat)
    requires c in s.nodes
  {
    Nearest(s, c).Some? && Nearest(s, c).value in s.nodes ==> c !in s.nodes[Nearest(s, c).value].children
  }

  /** A cancel call that was to remove its context has done so, unless it came too late for a plain
      one; at its end the timer is gone and the function of AfterFunc settled, late or not. */
  predicate CancelLeft(s: State, a: nat)
    requires IsCancel(s, a)
  {
    var call := s.calls[a];
    var x := s.nodes[call.c];
    && (call.remove && (call.at.CTail? || call.at.CDone?) && (x.kind != CancelKind || x.setter == Some(a)) ==>
          OffParent(s, call.c))
    && (call.at.CDone? && x.kind == TimerKind ==> x.timer.NoTimer?)
    && (call.at.CDone? && x.kind == AfterKind ==> x.once)
  }

  ghost predicate AllLeft(s: State) { forall a | IsCancel(s, a) :: CancelLeft(s, a) }

  /** Only a fresh context is added to the children of another. */
  lemma ChildrenStay(s: State, act: Action, p: nat)
    requires Inv(s) && Enabled(s, act) && p in s.nodes && p in Step(s, act).nodes
    ensures forall k | k in Step(s, act).nodes[p].children :: k in s.nodes[p].children || Fresh(s, k)
  {
    hide Inv, Expired, Near, Nearest, IsFinished, CauseOf;
    if act.Move? {
      CallFacts(s, act.a);
    }
  }

  lemma OffStays(s: State, act: Action, c: nat)
    requires Inv(s) && Enabled(s, act) && c in s.nodes && !Fresh(s, c) && OffParent(s, c)
    requires Later(s, Step(s, act))
    ensures c in Step(s, act).nodes && OffParent(Step(s, act), c)
  {
    LaterNode(s, Step(s, act), c);
    NodeFacts(s, c);
    if Nearest(s, c).Some? {
      ChildrenStay(s, act, Nearest(s, c).value);
    }
    hide Inv, Step, Enabled, Later, Near;
  }

  /** A cancelled context gets no timer again, and once stays. */
  lemma TailStays(s: State, act: Action, c: nat)
    requires Inv(s) && Enabled(s, act) && c in s.nodes && s.nodes[c].err.Some? && c in Step(s, act).nodes
    ensures s.nodes[c].timer.NoTimer? ==> Step(s, act).nodes[c].timer.NoTimer?
    ensures s.nodes[c].once ==> Step(s, act).nodes[c].once
  {
    hide Inv, Expired, Near, Nearest, IsFinished, CauseOf;
  }

  /** The call does not move in this step. */
  lemma OtherLeft(s: State, act: Action, a: nat)
    requires Inv(s) && Enabled(s, act) && Later(s, Step(s, act)) && IsCancel(s, a) && CancelLeft(s, a)
    requires a in Step(s, act).calls && Step(s, act).calls[a] == s.calls[a]
    ensures IsCancel(Step(s, act), a) && CancelLeft(Step(s, act), a)
  {
    hide Inv, Step, Enabled, Later, Nearest, OffParent, Near;
    var c := s.calls[a].c;
    CallFacts(s, a);
    LaterNode(s, Step(s, act), c);
    if s.calls[a].at.CTail? || s.calls[a].at.CDone? {
      if OffParent(s, c) {
        OffStays(s, act, c);
      }
      TailStays(s, act, c);
    }
  }

  /** The step of the call itself. */
  lemma MovedLeft(s: State, a: nat, b: nat, choice: Choice)
    requires Inv(s) && IsCancel(s, a) && CanMove(s, a, b, choice) && CancelLeft(s, a)
    ensures IsCancel(MoveCall(s, a, b, choice), a) && CancelLeft(MoveCall(s, a, b, choice), a)
  {
    hide Inv, Expired, Near, IsFinished, CauseOf;
    var c := s.calls[a].c;
    CallFacts(s, a);
    NodeParts(s, c);
    match s.calls[a].at
    case CLock =>
    case CLoop(_, _) =>
    case CRemove =>
      if Nearest(s, c).Some? && Nearest(s, c).value in s.nodes {
        NodeParts(s, Nearest(s, c).value);
      }
    case CTail =>
  }

  lemma CallsStand(s: State, act: Action, a: nat)
    requires Enabled(s, act) && IsCancel(Step(s, act), a) && !(act.Move? && act.a == a)
    ensures if a in s.calls then Step(s, act).calls[a] == s.calls[a] else Step(s, act).calls[a].at.CLock?
  {
    hide Expired, Near, Nearest, IsFinished, CauseOf;
  }

  lemma StepLeft(s: State, act: Action)
    requires Inv(s) && Enabled(s, act) && AllLeft(s)
    ensures AllLeft(Step(s, act))
  {
    hide Inv, Enabled, Step, Later, CanMove, MoveCall;
    StepKeeps(s, act);
    forall a | IsCancel(Step(s, act), a)
      ensures CancelLeft(Step(s, act), a)
    {
      if act.Move? && act.a == a {
        StepIsMove(s, a, act.b, act.choice);
      }
      if a in s.calls {
        CancelKnown(s, act, a);
        assert CancelLeft(s, a);
      }
      if act.Move? && act.a == a {
        MovedLeft(s, a, act.b, act.choice);
      } else {
        CallsStand(s, act, a);
        if a in s.calls {
          OtherLeft(s, act, a);
        }
      }
    }
  }

  lemma CancelKnown(s: State, act: Action, a: nat)
    requires Inv(s) && Enabled(s, act) && Later(s, Step(s, act)) && IsCancel(Step(s, act), a) && a in s.calls
    ensures IsCancel(s, a)
  {
    hide Inv, Enabled, Step, Rank;
    assert CallLater(s.calls[a], Step(s, act).calls[a]);
    HasContext(s, a);
  }

  lemma StepIsMove(s: State, a: nat, b: nat, choice: Choice)
    requires Enabled(s, Move(a, b, choice))
    ensures a in s.calls && CanMove(s, a, b, choice) && Step(s, Move(a, b, choice)) == MoveCall(s, a, b, choice)
  {
    hide MoveCall, CanMoveCancel, CanMoveCreate, CanMoveStop;
  }

  lemma {:induction false} RunLeft(s: State, acts: seq<Action>, t: State)
    requires Inv(s) && AllLeft(s) && Run(s, acts, t)
    ensures AllLeft(t)
    decreases |acts|
  {
    hide Inv, AllLeft, Enabled, Step;
    if acts != [] {
      StepKeeps(s, acts[0]);
      StepLeft(s, acts[0]);
      RunLeft(Step(s, acts[0]), acts[1..], t);
    }
  }

  /** When a cancel call returns, be it late, the timer of a deadline is stopped, the function of
      AfterFunc has been started or stopped, and the context is off its parent's list if the call was
      to remove it and was the first, or the context has a deadline or a function. */
  lemma CancelLeaves(s: State, a: nat)
    requires Reachable(s) && a in s.calls && s.calls[a].Cancel? && s.calls[a].at.CDone?
    ensures IsCancel(s, a)
    ensures var call := s.calls[a];
            var x := s.nodes[call.c];
            && (x.kind == TimerKind ==> x.timer.NoTimer?) && (x.kind == AfterKind ==> x.started + x.stopped == 1)
            && (call.remove && (x.kind != CancelKind || x.setter == Some(a)) ==>
                  forall p | IsChild(s, call.c, p) :: call.c !in s.nodes[p].children)
  {
    hide Inv, Run;
    ReachableInv(s);
    var acts :| Run(INIT, acts, s);
    InitInv();
    RunLeft(INIT, acts, s);
    HasContext(s, a);
    NodeParts(s, s.calls[a].c);
    assert CancelLeft(s, a);
    forall p | IsChild(s, s.calls[a].c, p) && OffParent(s, s.calls[a].c)
      ensures s.calls[a].c !in s.nodes[p].children
    {
      ChildIsNearest(s, s.calls[a].c, p);
    }
  }

  // ----- What a run says about its contexts -----

  /** Contexts are those that were created, each with the kind and the parent it was created with. */
  lemma ContextsMade(acts: seq<Action>, s: State)
    requires Run(INIT, acts, s)
    ensures forall c | c in s.nodes ::
              exists a, cause :: NewContext(a, c, s.nodes[c].kind, s.nodes[c].parent, cause) in acts
    ensures forall a, c, kind, parent, cause | NewContext(a, c, kind, parent, cause) in acts ::
              c in s.nodes && s.nodes[c].kind == kind && s.nodes[c].parent == parent && s.nodes[c].maker == a
  {
    hide Run, Inv, Reachable, ActionKept;
    FromStart(acts, s);
    forall a, c, kind, parent, cause | NewContext(a, c, kind, parent, cause) in acts
      ensures c in s.nodes && s.nodes[c].kind == kind && s.nodes[c].parent == parent && s.nodes[c].maker == a
    {
      assert ActionKept(NewContext(a, c, kind, parent, cause), s);
      ContextKept(s, a, c, kind, parent, cause);
    }
    forall c | c in s.nodes
      ensures exists a, cause :: NewContext(a, c, s.nodes[c].kind, s.nodes[c].parent, cause) in acts
    {
      assert NodeMade(acts, s, c);
    }
  }

  lemma ContextKept(s: State, a: nat, c: nat, kind: Kind, parent: Ctx, cause: Option<Err>)
    requires ActionKept(NewContext(a, c, kind, parent, cause), s)
    ensures c in s.nodes && s.nodes[c].kind == kind && s.nodes[c].parent == parent && s.nodes[c].maker == a
  {
  }

  /** The program has cancelled c with this error and cause: by its cancel function, whose cause only
      counts without a deadline; by the stop function of AfterFunc; or by the deadline it set. */
  ghost predicate Given(acts: seq<Action>, c: nat, kind: Kind, err: Err, cause: Err) {
    || (err == Canceled && exists a, e ::
          NewCancel(a, c, e) in acts && cause == if e.Some? && kind != TimerKind then e.value else Canceled)
    || (err == Canceled && cause == Canceled && kind == AfterKind && exists a :: NewStop(a, c) in acts)
    || (err == DeadlineExceeded && kind == TimerKind && exists a, parent, e ::
          NewContext(a, c, TimerKind, parent, e) in acts && cause == if e.Some? then e.value else DeadlineExceeded)
  }

  /** The error and cause of a cancelled context were given to it, or to one above it. */
  lemma ErrorGiven(acts: seq<Action>, s: State, c: nat) returns (a: nat)
    requires Run(INIT, acts, s) && c in s.nodes && s.nodes[c].err.Some?
    ensures (a == c || IsAbove(s, a, c)) && a in s.nodes && s.nodes[c].cause.Some?
    ensures Given(acts, a, s.nodes[a].kind, s.nodes[c].err.value, s.nodes[c].cause.value)
  {
    hide Run, Inv, Reachable, IsAbove;
    FromStart(acts, s);
    var b;
    a, b := CauseExplained(s, c);
    OrderGiven(acts, s, a, b);
  }

  lemma OrderGiven(acts: seq<Action>, s: State, c: nat, b: nat)
    requires Past(acts, s) && CancelledBy(s, c, b)
    ensures s.nodes[c].cause.Some? && Given(acts, c, s.nodes[c].kind, s.nodes[c].err.value, s.nodes[c].cause.value)
  {
    var call, kind := s.calls[b], s.nodes[c].kind;
    assert CallMade(acts, s, b) && NodeMade(acts, s, c);
    if e :| call.err == Canceled && NewCancel(b, c, e) in acts && call.cause == if kind == TimerKind then None else e {
    } else if call.err == DeadlineExceeded {
      assert NewContext(s.nodes[c].maker, c, TimerKind, s.nodes[c].parent, call.cause) in acts;
    }
  }

  /** At rest, a deadline that has not passed is armed: the context will be cancelled. */
  lemma DeadlineArmed(acts: seq<Action>, s: State, c: nat, a: nat)
    requires Run(INIT, acts, s) && AtRest(s) && c in s.nodes && s.nodes[c].kind == TimerKind && s.nodes[c].err.None?
    requires a !in s.calls
    ensures Enabled(s, Fire(a, c))
  {
    hide Run, Inv, Reachable, CallMade;
    FromStart(acts, s);
    assert NodeMade(acts, s, c) && TimerSet(s, c);
    if b :| Cancels(s, b, c) {
      CancelFinished(s, b);
    }
  }

  lemma FirstStep(s: State, act: Action, acts: seq<Action>, t: State)
    requires Enabled(s, act) && Run(Step(s, act), acts, t)
    ensures Run(s, [act] + acts, t)
  {
    hide Enabled, Step;
    assert ([act] + acts)[1..] == acts;
  }

  /** Cancelling works: whoever may cancel c can, and when all calls have ended after it, c and all
      below it are cancelled. */
  lemma CancelWorks(s: State, a: nat, c: nat, cause: Option<Err>) returns (acts: seq<Action>, t: State)
    requires Reachable(s) && Ready(s, c) && s.nodes[c].kind != AfterKind && a !in s.calls
    ensures Run(s, [NewCancel(a, c, cause)] + acts, t) && OnlyMoves(acts) && AtRest(t)
    ensures c in t.nodes && t.nodes[c].err.Some? && forall d | IsAbove(t, c, d) :: t.nodes[d].err.Some?
  {
    hide Inv, Reachable, Run;
    var act := NewCancel(a, c, cause);
    var u := Step(s, act);
    ReachableStep(s, act);
    var n := BoundFor(u, 0);
    acts, t := AllFinish(u, n);
    FirstStep(s, act, acts, t);
    ReachableInv(u);
    RunKept(u, acts, t);
    assert CallLater(u.calls[a], t.calls[a]);
    CancelReturned(t, a, c);
    forall d | IsAbove(t, c, d)
      ensures t.nodes[d].err.Some?
    {
      CancelledBelow(t, c, d);
    }
  }
}
