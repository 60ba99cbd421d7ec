/** Every step of the cancellation tree keeps the invariants: one lemma for each kind of step. */
module ContextSteps {
  import opened Basics
  import opened Context
  import opened ContextInvariants

  ghost predicate Kept(s: State, t: State) { Later(s, t) && Inv(t) }

  /** What a step that leaves locks and errors alone has to see to. */
  lemma QuietStep(s: State, t: State, n: nat, a: nat, b: nat)
    requires Inv(s) && Later(s, t) && Quiet(s, t, n, a, b)
    requires n in t.nodes ==> NodeOk(t, n)
    requires n in t.nodes ==> (n in s.nodes && Shrinks(s.nodes[n], t.nodes[n])) || (ChildrenOk(t, n) && TailOk(t, n))
    requires a in t.calls ==> CallOk(t, a)
    requires b in t.calls ==> CallOk(t, b)
    requires ChildrenStay(s, t, n)
    requires a in t.calls && t.calls[a].Create? && t.calls[a].c in t.nodes ==> LinkOk(t, t.calls[a].c)
    requires n in t.nodes && n !in s.nodes ==> LinkOk(t, n)
    requires SetterEnds(s, t, a)
    ensures Kept(s, t)
  {
    assert Differ(s, t, n, a, b);
    hide Later, Quiet, Differ, ChildrenStay, SetterEnds, Shrinks, NodeOk, CallOk, ChildrenOk, TailOk, LinkOk, Settled,
         Rank, InvCalls, InvNodes, InvLocks, InvLinks, InvEnds;
    KeepAll(s, t, n, a, b);
    LocksQuiet(s, t, n, a, b);
    LinksQuiet(s, t, n, a, b);
    EndsQuiet(s, t, n, a, b);
  }

  // ----- Cancellation -----

  /** The call that finds the context cancelled and unlocked finds its loop over. */
  lemma UnlockedSettled(s: State, c: nat)
    requires Inv(s) && c in s.nodes && s.nodes[c].err.Some? && s.nodes[c].mu.None?
    ensures Settled(s, c)
  {
    assert NodeOk(s, c);
    assert HolderOk(s, s.nodes[c].setter.value);
  }

  lemma {:induction false} Above(keys: set<nat>) returns (n: nat)
    ensures forall k | k in keys :: k < n
  {
    if keys == {} {
      n := 0;
    } else {
      var k :| k in keys;
      n := Above(keys - {k});
      assert forall j | j in keys :: j == k || j in keys - {k};
      n := if k < n then n else k + 1;
    }
  }

  lemma CallQuiet(s: State, n: nat, a: nat, y: Call)
    requires n !in s.nodes && (a in s.calls ==> !Holder(s.calls[a])) && !Holder(y)
    ensures var t := SetCall(s, a, y); Quiet(s, t, n, a, a) && ChildrenStay(s, t, n)
  {
    hide Holder;
  }

  /** A step of one call that changes no context. */
  lemma OnlyCall(s: State, a: nat, y: Call)
    requires Inv(s) && a in s.calls && CallLater(s.calls[a], y) && !Holder(s.calls[a]) && !Holder(y)
    requires var t := SetCall(s, a, y);
             Later(s, t) ==> CallOk(t, a) && SetterEnds(s, t, a) && (y.Create? && y.c in s.nodes ==> LinkOk(t, y.c))
    ensures Kept(s, SetCall(s, a, y))
  {
    hide Later, NodeOk, CallOk, ChildrenOk, TailOk, LinkOk, Settled, Rank, Holder, SetterEnds, ChildrenStay, Inv, Quiet;
    var t := SetCall(s, a, y);
    SetCallLater(s, a, y);
    var n := Above(s.nodes.Keys);
    assert n !in s.nodes;
    CallQuiet(s, n, a, y);
    QuietStep(s, t, n, a, a);
  }

  lemma LateKeeps(s: State, a: nat)
    requires Inv(s) && IsCancel(s, a) && s.calls[a].at.CLock?
    requires s.nodes[s.calls[a].c].err.Some? && s.nodes[s.calls[a].c].mu.None?
    ensures Kept(s, Late(s, a))
  {
    var c, t := s.calls[a].c, Late(s, a);
    UnlockedSettled(s, c);
    SetCallLater(s, a, t.calls[a]);
    assert CallOk(s, a) && NodeOk(s, c);
    SettledKeeps(s, t, c);
    CancelMoves(s, t, a, t.calls[a].at);
    hide Later, NodeOk, CallOk, Settled;
    OnlyCall(s, a, t.calls[a]);
  }

  /** A context cancelled without removal is nobody's child whose parent is uncancelled. */
  lemma NotAChild(s: State, a: nat, p: nat)
    requires Inv(s) && IsCancel(s, a) && p in s.nodes && s.nodes[p].err.None?
    requires s.nodes[s.calls[a].c].setter == Some(a)
    requires var q := Nearest(s, s.calls[a].c);
             s.calls[a].remove && q.Some? ==> q.value in s.nodes && s.nodes[q.value].err.Some?
    ensures s.calls[a].c !in s.nodes[p].children
  {
    assert NodeOk(s, p) && NodeOk(s, s.calls[a].c) && ChildrenOk(s, p);
  }

  lemma BothQuiet(s: State, n: nat, x: Node, a: nat, y: Call)
    requires n in s.nodes && (a in s.calls ==> !Holder(s.calls[a])) && !Holder(y)
    requires x.mu == s.nodes[n].mu && x.err == s.nodes[n].err && x.setter == s.nodes[n].setter
    ensures Quiet(s, SetCall(SetNode(s, n, x), a, y), n, a, a)
  {
    hide Holder;
  }

  /** A step of one call that takes something from one context. */
  lemma ShrinkStep(s: State, n: nat, x: Node, a: nat, y: Call)
    requires Inv(s) && n in s.nodes && (a in s.calls ==> CallLater(s.calls[a], y) && !Holder(s.calls[a])) && !Holder(y)
    requires NodeLater(s.nodes[n], x) && Shrinks(s.nodes[n], x) && LocalOk(x)
    requires x.mu == s.nodes[n].mu && x.err == s.nodes[n].err && x.setter == s.nodes[n].setter
    requires var t := SetCall(SetNode(s, n, x), a, y);
             Later(s, t) ==>
               && CallOk(t, a) && ChildrenStay(s, t, n) && SetterEnds(s, t, a)
               && (y.Create? && y.c in t.nodes ==> LinkOk(t, y.c))
    ensures Kept(s, SetCall(SetNode(s, n, x), a, y))
  {
    hide Later, NodeOk, CallOk, ChildrenOk, TailOk, LinkOk, Settled, Rank, Holder, SetterEnds, ChildrenStay, Shrinks,
         LocalOk, Inv;
    var t := SetCall(SetNode(s, n, x), a, y);
    BothLater(s, n, x, a, y);
    BothQuiet(s, n, x, a, y);
    NodeFacts(s, n);
    NodeShrinks(s, t, n);
    QuietStep(s, t, n, a, a);
  }

  lemma NodeFacts(s: State, c: nat)
    requires Inv(s) && c in s.nodes
    ensures NodeOk(s, c) && LockOk(s, c) && LinkOk(s, c) && ChildrenOk(s, c) && TailOk(s, c)
  {
    hide NodeOk, LockOk, LinkOk, ChildrenOk, TailOk, InvCalls;
  }

  lemma CallFacts(s: State, a: nat)
    requires Inv(s) && a in s.calls
    ensures CallOk(s, a) && HolderOk(s, a)
  {
    hide CallOk, HolderOk, InvNodes, InvLinks, InvEnds, LockOk;
  }

  /** A call behind the loop keeps what the loop achieved. */
  lemma BehindLoop(s: State, t: State, a: nat, at: CancelPoint)
    requires Inv(s) && IsCancel(s, a) && Later(s, t) && Rank(s.calls[a]) >= 2
    requires a in t.calls && t.calls[a] == s.calls[a].(at := at) && (at.CRemove? || at.CTail? || at.CDone?)
    ensures Settled(s, s.calls[a].c) && CallOk(t, a)
  {
    CallFacts(s, a);
    hide Later, Inv, Settled, NodeOk;
    SettledKeeps(s, t, s.calls[a].c);
    CancelMoves(s, t, a, at);
  }

  /** removeChild has nothing to do: no removal asked for, no parent, or a parent that was
      cancelled before anyone asked for its channel. */
  lemma SkipKeeps(s: State, a: nat)
    requires Inv(s) && IsCancel(s, a) && s.calls[a].at.CRemove?
    requires var p := Nearest(s, s.calls[a].c);
             s.calls[a].remove && p.Some? ==> p.value in s.nodes && s.nodes[p.value].err.Some?
    ensures Kept(s, At(s, a, CTail))
  {
    hide Inv, Later, CallOk, Settled;
    var c, t := s.calls[a].c, At(s, a, CTail);
    SetCallLater(s, a, t.calls[a]);
    BehindLoop(s, t, a, CTail);
    NodeFacts(s, c);
    if s.nodes[c].setter == Some(a) {
      forall p | p in t.nodes && t.nodes[p].err.None?
        ensures c !in t.nodes[p].children
      {
        NotAChild(s, a, p);
      }
    }
    OnlyCall(s, a, t.calls[a]);
  }

  lemma RemovedKeeps(s: State, a: nat, p: nat)
    requires Inv(s) && IsCancel(s, a) && s.calls[a].at.CRemove? && s.calls[a].remove
    requires Nearest(s, s.calls[a].c) == Some(p) && p in s.nodes
    ensures Kept(s, Removed(s, a, p))
  {
    hide Inv, Later, CallOk, Settled, NodeOk;
    var c, t := s.calls[a].c, Removed(s, a, p);
    BothLater(s, p, t.nodes[p], a, t.calls[a]);
    BehindLoop(s, t, a, CTail);
    SettledKeeps(s, t, c);
    RemovedEnds(s, a, p);
    PartLocal(s, p, s.nodes[p].children - {c});
    ShrinkStep(s, p, t.nodes[p], a, t.calls[a]);
  }

  lemma PartLocal(s: State, p: nat, part: set<nat>)
    requires Inv(s) && p in s.nodes && part <= s.nodes[p].children
    ensures LocalOk(s.nodes[p].(hasChan := true, children := part))
  {
    NodeFacts(s, p);
  }

  /** A context is among the children of its nearest ancestor only. */
  lemma ChildlessElsewhere(s: State, c: nat, p: nat)
    requires Inv(s) && c in s.nodes && Nearest(s, c) == Some(p)
    ensures forall q | q in s.nodes && q != p :: c !in s.nodes[q].children
  {
    forall q | q in s.nodes && q != p
      ensures c !in s.nodes[q].children
    {
      NodeFacts(s, q);
    }
  }

  lemma RemovedEnds(s: State, a: nat, p: nat)
    requires Inv(s) && IsCancel(s, a) && s.calls[a].at.CRemove? && s.calls[a].remove
    requires Nearest(s, s.calls[a].c) == Some(p) && p in s.nodes && Later(s, Removed(s, a, p))
    ensures SetterEnds(s, Removed(s, a, p), a)
  {
    RemovedTail(s, a, p);
    ChildlessElsewhere(s, s.calls[a].c, p);
    hide Inv, Later, TailOk, Near;
  }

  lemma RemovedTail(s: State, a: nat, p: nat)
    requires Inv(s) && IsCancel(s, a) && s.calls[a].at.CRemove? && p in s.nodes
    ensures TailOk(Removed(s, a, p), s.calls[a].c)
  {
    hide Inv, LinkOk, LockOk, ChildrenOk, LocalOk, SetBy, NodeOk, Near;
    NodeFacts(s, s.calls[a].c);
  }

  lemma TailKeeps(s: State, a: nat)
    requires Inv(s) && IsCancel(s, a) && s.calls[a].at.CTail?
    requires var x := s.nodes[s.calls[a].c]; x.kind == CancelKind || (x.kind == AfterKind && x.once)
    ensures Kept(s, At(s, a, CDone))
  {
    hide Inv, Later, CallOk, Settled;
    var c, t := s.calls[a].c, At(s, a, CDone);
    SetCallLater(s, a, t.calls[a]);
    BehindLoop(s, t, a, CDone);
    NodeFacts(s, c);
    OnlyCall(s, a, t.calls[a]);
  }

  lemma TimerStoppedKeeps(s: State, a: nat)
    requires Inv(s) && IsCancel(s, a) && s.calls[a].at.CTail? && s.nodes[s.calls[a].c].kind == TimerKind
    ensures Kept(s, TimerStopped(s, a))
  {
    hide Inv, Later, CallOk, Settled;
    var c, t := s.calls[a].c, TimerStopped(s, a);
    BothLater(s, c, t.nodes[c], a, t.calls[a]);
    BehindLoop(s, t, a, CDone);
    NodeFacts(s, c);
    ShrinkStep(s, c, t.nodes[c], a, t.calls[a]);
  }

  lemma FuncStartedKeeps(s: State, a: nat)
    requires Inv(s) && IsCancel(s, a) && s.calls[a].at.CTail?
    requires s.nodes[s.calls[a].c].kind == AfterKind && !s.nodes[s.calls[a].c].once
    ensures Kept(s, FuncStarted(s, a))
  {
    hide Inv, Later, CallOk, Settled;
    var c, t := s.calls[a].c, FuncStarted(s, a);
    BothLater(s, c, t.nodes[c], a, t.calls[a]);
    BehindLoop(s, t, a, CDone);
    NodeFacts(s, c);
    ShrinkStep(s, c, t.nodes[c], a, t.calls[a]);
  }

  // ----- Creation -----

  lemma StageMoves(s: State, t: State, a: nat, stage: CreatePoint)
    requires Later(s, t) && IsCreate(s, a) && CallOk(s, a) && StageOk(s, s.calls[a].c, stage)
    requires a in t.calls && t.calls[a] == s.calls[a].(stage := stage)
    ensures CallOk(t, a)
  {
    hide Rank;
    var c := s.calls[a].c;
    if stage.PDone? && stage.expired {
      SettledKeeps(s, t, c);
    }
  }

  /** A context past registration stays linked. */
  lemma LinkStays(s: State, t: State, n: nat, a: nat, b: nat, c: nat)
    requires Inv(s) && Later(s, t) && InvCalls(t) && Quiet(s, t, n, a, b) && ChildrenStay(s, t, n)
    requires c in s.nodes && c in t.nodes && !Fresh(s, c) && !MakerCancels(s, c)
    ensures LinkOk(t, c)
  {
    NodeFacts(s, c);
    hide Inv, Linked, Fresh, MakerCancels, ChildrenStay, Quiet, InvCalls, NodeOk, LockOk, ChildrenOk, TailOk, Rank;
    if Nearest(s, c).Some? {
      LinkQuiet(s, t, n, a, b, c, Nearest(s, c).value);
    }
  }

  /** A finished call that cancelled c leaves it settled. */
  lemma FinishedSettled(s: State, b: nat, c: nat)
    requires Inv(s) && Cancels(s, b, c) && IsFinished(s, b)
    ensures Settled(s, c)
  {
    CallFacts(s, b);
  }

  lemma StageLinked(s: State, a: nat, stage: CreatePoint, n: nat)
    requires Inv(s) && IsCreate(s, a) && CallOk(s, a) && n !in s.nodes
    requires var t := AtStage(s, a, stage); Later(s, t) && InvCalls(t) && Quiet(s, t, n, a, a)
    requires Rank(s.calls[a].(stage := stage)) < 4 || Nearest(s, s.calls[a].c).None?
             || Settled(s, s.calls[a].c) || s.calls[a].stage.PPost?
    ensures LinkOk(AtStage(s, a, stage), s.calls[a].c)
  {
    hide Inv, Later, Settled, StageOk, LockOk, ChildrenOk, TailOk, Quiet, InvCalls;
    var c, t := s.calls[a].c, AtStage(s, a, stage);
    if Settled(s, c) {
      SettledKeeps(s, t, c);
    } else if s.calls[a].stage.PPost? {
      LinkStays(s, t, n, a, a, c);
    }
  }

  /** A step of a constructor that changes no context. */
  lemma StageKeeps(s: State, a: nat, stage: CreatePoint)
    requires Inv(s) && IsCreate(s, a) && CallLater(s.calls[a], s.calls[a].(stage := stage))
    requires !s.calls[a].stage.PHolding? && !stage.PHolding? && StageOk(s, s.calls[a].c, stage)
    requires Rank(s.calls[a].(stage := stage)) < 4 || Nearest(s, s.calls[a].c).None?
             || Settled(s, s.calls[a].c) || s.calls[a].stage.PPost?
    ensures Kept(s, AtStage(s, a, stage))
  {
    hide Later, Settled, StageOk, CallOk, NodeOk, LinkOk, Rank, Quiet, Differ, SetterEnds, Inv, InvCalls, InvNodes;
    var c, t := s.calls[a].c, AtStage(s, a, stage);
    SetCallLater(s, a, t.calls[a]);
    CallFacts(s, a);
    StageMoves(s, t, a, stage);
    var n := Above(s.nodes.Keys);
    assert n !in s.nodes;
    CallQuiet(s, n, a, t.calls[a]);
    QuietDiffers(s, t, n, a, a);
    InvParts(s);
    KeepAll(s, t, n, a, a);
    NotCancelEnds(s, t, a);
    StageLinked(s, a, stage, n);
    OnlyCall(s, a, t.calls[a]);
  }

  lemma WaitFacts(s: State, a: nat)
    requires Inv(s) && IsCreate(s, a)
          && (s.calls[a].stage.POwn? || s.calls[a].stage.PExpired? || s.calls[a].stage.PHolding?)
    ensures Cancels(s, s.calls[a].stage.wait, s.calls[a].c)
  {
    hide Inv, CancelFixed, CancelAtOk, StopOk, Settled, HolderOk;
    CallFacts(s, a);
  }

  lemma OwnDoneKeeps(s: State, a: nat)
    requires Inv(s) && IsCreate(s, a) && s.calls[a].stage.POwn? && IsFinished(s, s.calls[a].stage.wait)
    ensures Kept(s, AtStage(s, a, PPost))
  {
    hide Inv, Settled, IsFinished;
    WaitFacts(s, a);
    FinishedSettled(s, s.calls[a].stage.wait, s.calls[a].c);
    StageKeeps(s, a, PPost);
  }

  lemma ExpiredDoneKeeps(s: State, a: nat)
    requires Inv(s) && IsCreate(s, a) && s.calls[a].stage.PExpired? && IsFinished(s, s.calls[a].stage.wait)
    ensures Kept(s, AtStage(s, a, PDone(true)))
  {
    hide Inv, Settled, IsFinished;
    WaitFacts(s, a);
    FinishedSettled(s, s.calls[a].stage.wait, s.calls[a].c);
    StageFrame(s, a);
    StageKeeps(s, a, PDone(true));
  }

  lemma StageFrame(s: State, a: nat)
    requires Inv(s) && IsCreate(s, a)
    ensures s.nodes[s.calls[a].c].maker == a
    ensures Nearest(s, s.calls[a].c).Some? ==>
      Nearest(s, s.calls[a].c).value in s.nodes && Nearest(s, s.calls[a].c).value < s.calls[a].c
    ensures Rank(s.calls[a]) < 4 ==> Fresh(s, s.calls[a].c) && s.nodes[s.calls[a].c].err.None?
  {
    CallFacts(s, a);
    NodeFacts(s, s.calls[a].c);
    hide Inv, LinkOk, LockOk, ChildrenOk, TailOk, SetBy, LocalOk;
  }

  lemma ChanMadeKeeps(s: State, a: nat, p: nat)
    requires Inv(s) && IsCreate(s, a) && s.calls[a].stage.PGetDone?
    requires Nearest(s, s.calls[a].c) == Some(p) && p in s.nodes
    ensures Kept(s, ChanMade(s, a, p))
  {
    hide Inv, Later;
    var c, t := s.calls[a].c, ChanMade(s, a, p);
    StageFrame(s, a);
    PartLocal(s, p, s.nodes[p].children);
    BothLater(s, p, t.nodes[p], a, t.calls[a]);
    assert CallOk(t, a);
    assert LinkOk(t, c);
    ShrinkStep(s, p, t.nodes[p], a, t.calls[a]);
  }

  lemma ChildAddedKeeps(s: State, a: nat, p: nat)
    requires Inv(s) && IsCreate(s, a) && s.calls[a].stage.PRegister?
    requires Nearest(s, s.calls[a].c) == Some(p) && p in s.nodes && s.nodes[p].err.None?
    ensures Kept(s, ChildAdded(s, a, p))
  {
    hide Inv, Later, Quiet, NodeOk, ChildrenOk, TailOk;
    var c, t := s.calls[a].c, ChildAdded(s, a, p);
    StageFrame(s, a);
    BothLater(s, p, t.nodes[p], a, t.calls[a]);
    BothQuiet(s, p, t.nodes[p], a, t.calls[a]);
    assert CallOk(t, a);
    assert LinkOk(t, c);
    AddedNode(s, a, p);
    AddedChildren(s, a, p);
    QuietStep(s, t, p, a, a);
  }

  lemma NodeParts(s: State, c: nat)
    requires Inv(s) && c in s.nodes
    ensures SetBy(s, c, s.nodes[c]) && LocalOk(s.nodes[c])
  {
    NodeFacts(s, c);
    hide Inv, LinkOk, LockOk, ChildrenOk, TailOk, SetBy, LocalOk;
  }

  lemma AddedNode(s: State, a: nat, p: nat)
    requires Inv(s) && IsCreate(s, a) && s.calls[a].stage.PRegister?
    requires Nearest(s, s.calls[a].c) == Some(p) && p in s.nodes && s.nodes[p].err.None?
    requires Later(s, ChildAdded(s, a, p))
    ensures NodeOk(ChildAdded(s, a, p), p)
  {
    hide Inv, Later, NodeOk, LockOk, LinkOk, ChildrenOk, TailOk, CallOk;
    var c, t := s.calls[a].c, ChildAdded(s, a, p);
    RegisterFacts(s, a, p);
    StageFrame(s, a);
    NodeFacts(s, p);
    NodeParts(s, p);
    SetByKeeps(s, t, p, s.nodes[p]);
    FreshTimer(s, p);
    NodeChanges(s, t, p);
  }

  lemma FreshTimer(s: State, c: nat)
    requires Inv(s) && c in s.nodes
    ensures Fresh(s, c) ==> s.nodes[c].err.None? && s.nodes[c].timer.NoTimer?
  {
    NodeFacts(s, c);
    hide Inv, LinkOk, LockOk, ChildrenOk, TailOk, SetBy, LocalOk;
  }

  lemma RegisterFacts(s: State, a: nat, p: nat)
    requires Inv(s) && IsCreate(s, a) && s.calls[a].stage.PRegister?
    requires Nearest(s, s.calls[a].c) == Some(p) && p in s.nodes
    ensures s.nodes[p].hasChan
  {
    CallFacts(s, a);
    hide Inv;
  }

  lemma AddedChildren(s: State, a: nat, p: nat)
    requires Inv(s) && IsCreate(s, a) && s.calls[a].stage.PRegister?
    requires Nearest(s, s.calls[a].c) == Some(p) && p in s.nodes && s.nodes[p].err.None?
    requires Later(s, ChildAdded(s, a, p))
    ensures ChildrenOk(ChildAdded(s, a, p), p) && TailOk(ChildAdded(s, a, p), p)
  {
    hide Inv, Later, NodeOk, LockOk, LinkOk, CallOk;
    var c, t := s.calls[a].c, ChildAdded(s, a, p);
    StageFrame(s, a);
    NodeFacts(s, p);
    forall k | k in t.nodes[p].children
      ensures k in t.nodes && (t.nodes[k].err.None? || Removing(t, k))
    {
      if k != c {
        NodeParts(s, k);
      }
    }
  }

  /** A call starts another one, and no context changes. */
  lemma SpawnStep(s: State, n: nat, a: nat, y: Call, b: nat, z: Call)
    requires Inv(s) && n !in s.nodes && a in s.calls && b !in s.calls
    requires s.calls[a].Create? && CallLater(s.calls[a], y) && !Holder(s.calls[a]) && !Holder(y) && !Holder(z)
    requires var t := SetCall(SetCall(s, a, y), b, z);
             Later(s, t) ==> CallOk(t, a) && CallOk(t, b)
    requires var t := SetCall(SetCall(s, a, y), b, z);
             Later(s, t) && InvCalls(t) && Quiet(s, t, n, a, b) && y.c in s.nodes ==> LinkOk(t, y.c)
    ensures Kept(s, SetCall(SetCall(s, a, y), b, z))
  {
    hide Later, CallOk, LinkOk, Rank, Holder, Inv, Quiet, Differ, ChildrenStay, SetterEnds, NodeOk, InvCalls,
         InvNodes, InvLocks, InvLinks, InvEnds;
    var t := SetCall(SetCall(s, a, y), b, z);
    SetCallLater(s, a, y);
    SpawnLater(s, SetCall(s, a, y), b, z);
    SpawnQuiet(s, n, a, y, b, z);
    QuietDiffers(s, t, n, a, b);
    InvParts(s);
    KeepAll(s, t, n, a, b);
    NotCancelEnds(s, t, a);
    QuietStep(s, t, n, a, b);
  }

  lemma SpawnQuiet(s: State, n: nat, a: nat, y: Call, b: nat, z: Call)
    requires n !in s.nodes && a in s.calls && b !in s.calls && !Holder(s.calls[a]) && !Holder(y) && !Holder(z)
    ensures var t := SetCall(SetCall(s, a, y), b, z); Quiet(s, t, n, a, b) && ChildrenStay(s, t, n)
  {
    hide Holder;
  }

  lemma InvParts(s: State)
    requires Inv(s)
    ensures InvCalls(s) && InvNodes(s) && InvLocks(s) && InvLinks(s) && InvEnds(s)
  {
    hide InvCalls, InvNodes, InvLocks, InvLinks, InvEnds;
  }

  lemma OwnCalledKeeps(s: State, a: nat, b: nat, p: nat)
    requires Inv(s) && IsCreate(s, a) && s.calls[a].stage.PReadCause? && b !in s.calls
    requires Nearest(s, s.calls[a].c) == Some(p) && p in s.nodes
    ensures Kept(s, OwnCalled(s, a, b, s.calls[a].stage.err, s.nodes[p].cause))
  {
    hide Inv, Later, Quiet, InvCalls;
    var call := s.calls[a];
    var z := Cancel(call.c, false, call.stage.err, s.nodes[p].cause, true, CLock);
    StageFrame(s, a);
    CauseFacts(s, a, p);
    var n := Above(s.nodes.Keys);
    assert n !in s.nodes;
    SpawnStep(s, n, a, call.(stage := POwn(b)), b, z);
  }

  lemma CauseFacts(s: State, a: nat, p: nat)
    requires Inv(s) && IsCreate(s, a) && s.calls[a].stage.PReadCause?
    requires Nearest(s, s.calls[a].c) == Some(p) && p in s.nodes
    ensures s.nodes[p].err == Some(s.calls[a].stage.err) && s.nodes[p].cause.Some?
  {
    hide Inv, CancelFixed, CancelAtOk, StopOk, Settled, HolderOk, LocalOk;
    CallFacts(s, a);
    NodeParts(s, p);
  }

  lemma ExpiredCalledKeeps(s: State, a: nat, b: nat)
    requires Inv(s) && IsCreate(s, a) && s.calls[a].stage.PPost? && b !in s.calls
    ensures Kept(s, ExpiredCalled(s, a, b))
  {
    hide Inv, Later, Quiet, InvCalls, LinkOk;
    var call := s.calls[a];
    var c := call.c;
    var y, z := call.(stage := PExpired(b)), Cancel(c, true, DeadlineExceeded, call.cause, false, CLock);
    var t := SetCall(SetCall(s, a, y), b, z);
    StageFrame(s, a);
    var n := Above(s.nodes.Keys);
    assert n !in s.nodes;
    if Later(s, t) && InvCalls(t) && Quiet(s, t, n, a, b) {
      LinkStays(s, t, n, a, b, c);
    }
    SpawnStep(s, n, a, y, b, z);
  }

  lemma TimerArmedKeeps(s: State, a: nat)
    requires Inv(s) && IsCreate(s, a) && s.calls[a].stage.PPost?
    requires s.nodes[s.calls[a].c].kind == TimerKind && s.nodes[s.calls[a].c].err.None?
    ensures Kept(s, TimerArmed(s, a))
  {
    hide Inv, Later, Quiet, NodeOk, ChildrenOk, CallOk, LinkOk, LocalOk, InvCalls, InvNodes, InvLocks, InvLinks,
         InvEnds;
    var c, t := s.calls[a].c, TimerArmed(s, a);
    var x := t.nodes[c];
    BothLater(s, c, x, a, t.calls[a]);
    BothQuiet(s, c, x, a, t.calls[a]);
    DoneOk(s, a);
    ArmedNode(s, a);
    InvParts(s);
    QuietDiffers(s, t, c, a, a);
    KeepAll(s, t, c, a, a);
    ChildrenAgain(s, t, c, a, a, c);
    LinkStays(s, t, c, a, a, c);
    QuietStep(s, t, c, a, a);
  }

  lemma QuietDiffers(s: State, t: State, n: nat, a: nat, b: nat)
    requires Quiet(s, t, n, a, b)
    ensures Differ(s, t, n, a, b)
  {
    hide Differ;
  }

  lemma DoneOk(s: State, a: nat)
    requires Inv(s) && IsCreate(s, a) && s.calls[a].stage.PPost?
    ensures CallOk(TimerArmed(s, a), a)
    ensures !Fresh(s, s.calls[a].c) && !MakerCancels(s, s.calls[a].c)
  {
    hide Inv;
    StageFrame(s, a);
  }

  lemma ArmedNode(s: State, a: nat)
    requires Inv(s) && IsCreate(s, a) && s.calls[a].stage.PPost?
    requires s.nodes[s.calls[a].c].kind == TimerKind && s.nodes[s.calls[a].c].err.None?
    requires Later(s, TimerArmed(s, a))
    ensures NodeOk(TimerArmed(s, a), s.calls[a].c)
  {
    hide Inv, Later, NodeOk, Settled;
    var c, t := s.calls[a].c, TimerArmed(s, a);
    StageFrame(s, a);
    NodeFacts(s, c);
    NodeParts(s, c);
    SetByKeeps(s, t, c, s.nodes[c]);
    NodeChanges(s, t, c);
  }

  // ----- AfterFunc's stop, and new calls -----

  lemma StopMovesKeeps(s: State, a: nat, phase: StopPoint)
    requires Inv(s) && a in s.calls && s.calls[a].Stop? && CallLater(s.calls[a], s.calls[a].(phase := phase))
    requires phase.SDone?
    ensures Kept(s, SetCall(s, a, s.calls[a].(phase := phase)))
  {
    hide Inv, Later, Settled;
    var y := s.calls[a].(phase := phase);
    SetCallLater(s, a, y);
    StopFacts(s, a);
    FreshKeeps(s, SetCall(s, a, y), y.c);
    OnlyCall(s, a, y);
  }

  lemma StopFacts(s: State, a: nat)
    requires Inv(s) && a in s.calls && s.calls[a].Stop?
    ensures var c := s.calls[a].c; HasMaker(s, c) && !Fresh(s, c) && s.nodes[c].kind == AfterKind
  {
    hide Inv, CancelFixed, CancelAtOk, StageOk, HolderOk, Fresh;
    CallFacts(s, a);
  }

  lemma StopWonKeeps(s: State, a: nat, b: nat)
    requires Inv(s) && a in s.calls && s.calls[a].Stop? && s.calls[a].phase.STry? && b !in s.calls
    requires s.calls[a].c in s.nodes && !s.nodes[s.calls[a].c].once
    ensures Kept(s, StopWon(s, a, b))
  {
    hide Inv, Later, Settled, Quiet, LinkOk, ChildrenOk, TailOk, NodeOk, Fresh, Rank, SetterEnds;
    var c, t := s.calls[a].c, StopWon(s, a, b);
    StopLater(s, a, b);
    StopFacts(s, a);
    FreshKeeps(s, t, c);
    NodeFacts(s, c);
    NodeParts(s, c);
    NodeShrinks(s, t, c);
    NotCancelEnds(s, t, a);
    QuietStep(s, t, c, a, b);
  }

  lemma NotCancelEnds(s: State, t: State, a: nat)
    requires a in s.calls ==> !s.calls[a].Cancel?
    ensures SetterEnds(s, t, a)
  {
  }

  lemma StopLater(s: State, a: nat, b: nat)
    requires a in s.calls && s.calls[a].Stop? && s.calls[a].phase.STry? && b !in s.calls
    requires s.calls[a].c in s.nodes && !s.nodes[s.calls[a].c].once
    ensures Later(s, StopWon(s, a, b)) && Quiet(s, StopWon(s, a, b), s.calls[a].c, a, b)
  {
    var c, t := s.calls[a].c, StopWon(s, a, b);
    BothLater(s, c, t.nodes[c], a, t.calls[a]);
    hide Later;
    SpawnLater(s, SetCall(SetNode(s, c, t.nodes[c]), a, t.calls[a]), b, t.calls[b]);
  }

  /** A call a client makes. */
  lemma NewCallKeeps(s: State, a: nat, y: Call)
    requires Inv(s) && a !in s.calls && !Holder(y) && !y.Create?
    requires Later(s, SetCall(s, a, y)) ==> CallOk(SetCall(s, a, y), a)
    ensures Kept(s, SetCall(s, a, y))
  {
    hide Later, CallOk, Rank, Holder, Inv, Quiet, ChildrenStay, SetterEnds;
    var t := SetCall(s, a, y);
    SetCallLater(s, a, y);
    var n := Above(s.nodes.Keys);
    assert n !in s.nodes;
    CallQuiet(s, n, a, y);
    NewCallEnds(s, t, a);
    QuietStep(s, t, n, a, a);
  }

  lemma NewCallEnds(s: State, t: State, a: nat)
    requires a !in s.calls
    ensures SetterEnds(s, t, a)
  {
  }

  lemma ReadyNotFresh(s: State, c: nat)
    requires Inv(s) && Ready(s, c)
    ensures HasMaker(s, c) && !Fresh(s, c) && s.calls[s.nodes[c].maker].Create?
    ensures Expired(s, c) ==> Settled(s, c) && s.nodes[c].setter.value in s.calls
  {
    hide Inv, CancelFixed, CancelAtOk, HolderOk;
    NodeFacts(s, c);
    CallFacts(s, s.nodes[c].maker);
  }

  lemma NewCancelKeeps(s: State, a: nat, c: nat, cause: Option<Err>)
    requires Inv(s) && Enabled(s, NewCancel(a, c, cause))
    ensures Kept(s, Step(s, NewCancel(a, c, cause)))
  {
    hide Inv, Later, Fresh;
    ReadyNotFresh(s, c);
    var y := Cancel(c, !Expired(s, c), Canceled, if s.nodes[c].kind == TimerKind then None else cause, false, CLock);
    SetCallLater(s, a, y);
    FreshKeeps(s, SetCall(s, a, y), c);
    NewCallKeeps(s, a, y);
  }

  lemma NewStopKeeps(s: State, a: nat, c: nat)
    requires Inv(s) && Enabled(s, NewStop(a, c))
    ensures Kept(s, Step(s, NewStop(a, c)))
  {
    hide Inv, Later, Fresh;
    ReadyNotFresh(s, c);
    SetCallLater(s, a, Stop(c, STry));
    FreshKeeps(s, SetCall(s, a, Stop(c, STry)), c);
    NewCallKeeps(s, a, Stop(c, STry));
  }

  lemma FireKeeps(s: State, a: nat, c: nat)
    requires Inv(s) && Enabled(s, Fire(a, c))
    ensures Kept(s, Step(s, Fire(a, c)))
  {
    hide Inv, Later, Fresh, Settled, SetBy, Ready;
    var t := Step(s, Fire(a, c));
    BothLater(s, c, t.nodes[c], a, t.calls[a]);
    NodeFacts(s, c);
    FreshKeeps(s, t, c);
    ShrinkStep(s, c, t.nodes[c], a, t.calls[a]);
  }

  lemma NewContextKeeps(s: State, a: nat, c: nat, kind: Kind, parent: Ctx, cause: Option<Err>)
    requires Inv(s) && Enabled(s, NewContext(a, c, kind, parent, cause))
    ensures Kept(s, Step(s, NewContext(a, c, kind, parent, cause)))
  {
    hide Inv, Later;
    var t := Step(s, NewContext(a, c, kind, parent, cause));
    BothLater(s, c, t.nodes[c], a, t.calls[a]);
    if Near(parent).Some? {
      ReadyKeeps(s, t, Near(parent).value);
    }
    assert NodeOk(t, c);
    assert CallOk(t, a);
    assert LinkOk(t, c);
    hide NodeOk, CallOk, LinkOk;
    QuietStep(s, t, c, a, a);
  }

  // ----- Steps that take or leave a lock -----

  lemma LockingStep(s: State, t: State, n: nat, a: nat, b: nat)
    requires Inv(s) && Later(s, t) && Locking(s, t, n, a, b)
    requires NodeOk(t, n) && CallOk(t, a) && (b in t.calls ==> CallOk(t, b))
    requires s.nodes[n].mu.None? || s.nodes[n].mu == Some(a)
    requires LockOk(t, n) && HolderOk(t, a) && (b != a && b in t.calls ==> !Holder(t.calls[b]))
    requires InvCalls(t) && InvNodes(t) ==> forall c | c in t.nodes && Nearest(t, c) == Some(n) :: LinkOk(t, c)
    requires ChildrenOk(t, n) && TailOk(t, n)
    requires forall c | c in s.nodes && s.nodes[c].err.None? && n in s.nodes[c].children ::
               t.nodes[n].err.None? || Removing(t, n)
    ensures Kept(s, t)
  {
    InvParts(s);
    LockingDiffers(s, t, n, a, b);
    hide Later, Locking, NodeOk, CallOk, LockOk, HolderOk, LinkOk, ChildrenOk, TailOk, Removing, Holder;
    hide InvCalls, InvNodes, InvLocks, InvLinks, InvEnds;
    KeepAll(s, t, n, a, b);
    LocksLocking(s, t, n, a, b);
    LinksLocking(s, t, n, a, b);
    EndsLocking(s, t, n, a, b);
  }

  lemma LockingDiffers(s: State, t: State, n: nat, a: nat, b: nat)
    requires Locking(s, t, n, a, b)
    ensures Differ(s, t, n, a, b)
  {
    hide Differ;
  }

  /** A call that is not at its loop holds no lock. */
  lemma HoldsNothing(s: State, a: nat)
    requires Inv(s) && a in s.calls && !Holder(s.calls[a])
    ensures forall p | p in s.nodes :: s.nodes[p].mu != Some(a)
  {
    hide Inv;
    forall p | p in s.nodes
      ensures s.nodes[p].mu != Some(a)
    {
      NodeFacts(s, p);
    }
  }

  /** A call holds one lock at most. */
  lemma HoldsOne(s: State, a: nat, n: nat)
    requires Inv(s) && a in s.calls && Holder(s.calls[a])
    requires match s.calls[a]
             case Cancel(c, _, _, _, _, _) => c == n
             case Create(c, _, _) => c in s.nodes && Nearest(s, c) == Some(n)
             case Stop(_, _) => false
    ensures forall p | p in s.nodes && p != n :: s.nodes[p].mu != Some(a)
    ensures n in s.nodes && s.nodes[n].mu == Some(a) && s.nodes[n].err.Some?
  {
    hide Inv, CancelFixed, CancelAtOk, StageOk;
    CallFacts(s, a);
    NodeFacts(s, n);
    forall p | p in s.nodes && p != n
      ensures s.nodes[p].mu != Some(a)
    {
      NodeFacts(s, p);
    }
  }

  lemma EnteredLater(s: State, a: nat)
    requires IsCancel(s, a) && s.calls[a].at.CLock? && s.nodes[s.calls[a].c].err.None?
    ensures Later(s, Entered(s, a))
  {
    var c, t := s.calls[a].c, Entered(s, a);
    hide Later;
    BothLater(s, c, t.nodes[c], a, t.calls[a]);
  }

  lemma EnteredOk(s: State, a: nat)
    requires Inv(s) && IsCancel(s, a) && s.calls[a].at.CLock? && s.nodes[s.calls[a].c].err.None?
    requires Later(s, Entered(s, a))
    ensures var t := Entered(s, a); CallOk(t, a) && NodeOk(t, s.calls[a].c)
  {
    hide Inv, Later, NodeOk, CallOk, LinkOk, LockOk, ChildrenOk, TailOk, Registered, Fresh, LocalOk;
    var c, t := s.calls[a].c, Entered(s, a);
    CallFacts(s, a);
    NodeFacts(s, c);
    NodeParts(s, c);
    EnteredFacts(s, a);
    forall k | k in s.nodes[c].children
      ensures Registered(t, k, c)
    {
      ChildRegistered(s, k, c);
      RegisteredKeeps(s, t, k, c);
    }
    CancelMoves(s, t, a, CLoop(s.nodes[c].children, None));
    SameLocal(s.nodes[c], t.nodes[c]);
    NodeChanges(s, t, c);
  }

  lemma SameLocal(x: Node, y: Node)
    requires LocalOk(x) && y.children == x.children && y.hasChan == x.hasChan && y.timer == x.timer && y.kind == x.kind
    requires y.once == x.once && y.started == x.started && y.stopped == x.stopped
    ensures LocalOk(y)
  {
  }

  lemma ChildRegistered(s: State, k: nat, c: nat)
    requires Inv(s) && c in s.nodes && k in s.nodes[c].children
    ensures Registered(s, k, c)
  {
    hide Inv, Registered, Fresh;
    NodeFacts(s, c);
  }

  /** A cancel call is past its context's registration; before it sets the error, it removes the
      context from an uncancelled parent. */
  lemma EnteredFacts(s: State, a: nat)
    requires Inv(s) && IsCancel(s, a)
    ensures HasMaker(s, s.calls[a].c) && !Fresh(s, s.calls[a].c)
    ensures var p := Nearest(s, s.calls[a].c);
            s.nodes[s.calls[a].c].err.None? && !s.calls[a].remove ==>
              p.Some? && p.value in s.nodes && s.nodes[p.value].err.Some?
  {
    hide Inv, CancelAtOk, StageOk, Fresh;
    CallFacts(s, a);
  }

  lemma EnteredKeeps(s: State, a: nat)
    requires Inv(s) && IsCancel(s, a) && s.calls[a].at.CLock?
    requires s.nodes[s.calls[a].c].err.None? && s.nodes[s.calls[a].c].mu.None?
    ensures Kept(s, Entered(s, a))
  {
    hide Inv, Later, NodeOk, CallOk, Locking;
    var c, t := s.calls[a].c, Entered(s, a);
    EnteredLater(s, a);
    EnteredOk(s, a);
    HoldsNothing(s, a);
    EnteredLocking(s, a);
    EnteredLinks(s, a);
    EnteredFacts(s, a);
    forall d | d in s.nodes && s.nodes[d].err.None? && c in s.nodes[d].children
      ensures Removing(t, c)
    {
      ChildRegistered(s, c, d);
    }
    hide LinkOk;
    LockingStep(s, t, c, a, a);
  }

  lemma EnteredLocking(s: State, a: nat)
    requires IsCancel(s, a) && forall p | p in s.nodes :: s.nodes[p].mu != Some(a)
    ensures Locking(s, Entered(s, a), s.calls[a].c, a, a)
  {
  }

  /** The children of the context are now those the loop will come to. */
  lemma EnteredLinks(s: State, a: nat)
    requires Inv(s) && IsCancel(s, a) && s.calls[a].at.CLock?
    requires s.nodes[s.calls[a].c].err.None? && Later(s, Entered(s, a))
    ensures var t := Entered(s, a);
            forall k | k in t.nodes && Nearest(t, k) == Some(s.calls[a].c) :: LinkOk(t, k)
  {
    hide Inv, Later, Settled, NodeOk, Rank;
    var c, t := s.calls[a].c, Entered(s, a);
    forall k | k in t.nodes && Nearest(t, k) == Some(c)
      ensures LinkOk(t, k)
    {
      NodeFacts(s, k);
      if Settled(s, k) {
        SettledKeeps(s, t, k);
      }
      MakerNotCancel(s, k, a);
    }
  }

  lemma MakerNotCancel(s: State, k: nat, a: nat)
    requires Inv(s) && k in s.nodes && IsCancel(s, a)
    ensures s.nodes[k].maker != a
  {
    hide Inv, LinkOk, LockOk, ChildrenOk, TailOk, SetBy, LocalOk;
    NodeFacts(s, k);
  }

  lemma LoopFacts(s: State, a: nat)
    requires Inv(s) && IsCancel(s, a) && s.calls[a].at.CLoop?
    ensures var c := s.calls[a].c;
            && s.nodes[c].err.Some? && s.nodes[c].cause.Some?
            && s.nodes[c].setter == Some(a) && s.nodes[c].mu == Some(a)
            && (forall k | k in s.calls[a].at.todo :: Registered(s, k, c))
            && AwaitsChild(s, c, s.calls[a].at.wait)
  {
    hide Inv, CancelFixed, StageOk, Registered, AwaitsChild, LocalOk;
    CallFacts(s, a);
    NodeParts(s, s.calls[a].c);
  }

  lemma ChildCalledLater(s: State, a: nat, b: nat, k: nat)
    requires IsCancel(s, a) && s.calls[a].at.CLoop? && s.nodes[s.calls[a].c].err.Some? && b !in s.calls
    ensures Later(s, ChildCalled(s, a, b, k))
  {
    var t := ChildCalled(s, a, b, k);
    SetCallLater(s, a, t.calls[a]);
    hide Later;
    SpawnLater(s, SetCall(s, a, t.calls[a]), b, t.calls[b]);
  }

  lemma ChildCalledOk(s: State, a: nat, b: nat, k: nat)
    requires Inv(s) && IsCancel(s, a) && s.calls[a].at.CLoop? && s.nodes[s.calls[a].c].err.Some?
    requires b !in s.calls && k in s.calls[a].at.todo && Later(s, ChildCalled(s, a, b, k))
    ensures var t := ChildCalled(s, a, b, k); CallOk(t, a) && CallOk(t, b)
  {
    hide Inv, Later, Registered, Fresh, CallOk;
    var c, t := s.calls[a].c, ChildCalled(s, a, b, k);
    LoopFacts(s, a);
    CallFacts(s, a);
    forall j | j in s.calls[a].at.todo
      ensures Registered(t, j, c)
    {
      RegisteredKeeps(s, t, j, c);
    }
    RegisteredParent(t, k, c);
    InheritOk(t, b, k, c);
    CancelMoves(s, t, a, CLoop(s.calls[a].at.todo - {k}, Some(b)));
  }

  lemma RegisteredParent(s: State, k: nat, c: nat)
    requires Registered(s, k, c)
    ensures ParentIs(s, k, c) && HasMaker(s, k) && !Fresh(s, k)
  {
  }

  /** A call that passes on the error of the parent, which is cancelled. */
  lemma InheritOk(s: State, b: nat, k: nat, c: nat)
    requires ParentIs(s, k, c) && HasMaker(s, k) && !Fresh(s, k)
    requires s.nodes[c].err.Some? && s.nodes[c].cause.Some?
    requires b in s.calls && s.calls[b] == Inherit(k, s.nodes[c])
    ensures CallOk(s, b)
  {
    hide Fresh;
  }

  lemma ChildCalledKeeps(s: State, a: nat, b: nat, k: nat)
    requires Inv(s) && IsCancel(s, a) && s.calls[a].at.CLoop? && s.nodes[s.calls[a].c].err.Some?
    requires b !in s.calls && k in s.calls[a].at.todo
    requires s.calls[a].at.wait.Some? ==> IsFinished(s, s.calls[a].at.wait.value)
    ensures Kept(s, ChildCalled(s, a, b, k))
  {
    hide Inv, Later, CallOk, Locking;
    var c, t := s.calls[a].c, ChildCalled(s, a, b, k);
    ChildCalledLater(s, a, b, k);
    ChildCalledOk(s, a, b, k);
    LoopFacts(s, a);
    HoldsOne(s, a, c);
    ChildCalledLocking(s, a, b, k);
    NodeFacts(s, c);
    NodeKeeps(s, t, c);
    ChildCalledLinks(s, a, b, k);
    ChildCalledEnds(s, a, b, k);
    hide NodeOk, LinkOk, ChildrenOk, TailOk, Removing;
    LockingStep(s, t, c, a, b);
  }

  lemma ChildCalledLocking(s: State, a: nat, b: nat, k: nat)
    requires IsCancel(s, a) && s.calls[a].at.CLoop? && s.nodes[s.calls[a].c].err.Some? && b !in s.calls
    requires forall p | p in s.nodes && p != s.calls[a].c :: s.nodes[p].mu != Some(a)
    ensures Locking(s, ChildCalled(s, a, b, k), s.calls[a].c, a, b)
  {
  }

  lemma ChildCalledEnds(s: State, a: nat, b: nat, k: nat)
    requires Inv(s) && IsCancel(s, a) && s.calls[a].at.CLoop? && s.nodes[s.calls[a].c].err.Some?
    requires b !in s.calls && Later(s, ChildCalled(s, a, b, k))
    ensures var t := ChildCalled(s, a, b, k);
            && ChildrenOk(t, s.calls[a].c) && TailOk(t, s.calls[a].c)
            && forall d | d in s.nodes && s.nodes[d].err.None? && s.calls[a].c in s.nodes[d].children ::
               Removing(t, s.calls[a].c)
  {
    hide Inv, Later, NodeOk, LockOk, LinkOk;
    var c, t := s.calls[a].c, ChildCalled(s, a, b, k);
    LoopFacts(s, a);
    NodeFacts(s, c);
    forall d | d in s.nodes && s.nodes[d].err.None? && c in s.nodes[d].children
      ensures Removing(t, c)
    {
      NodeFacts(s, d);
    }
  }

  lemma ChildCalledLinks(s: State, a: nat, b: nat, k: nat)
    requires Inv(s) && IsCancel(s, a) && s.calls[a].at.CLoop? && s.nodes[s.calls[a].c].err.Some?
    requires b !in s.calls && Later(s, ChildCalled(s, a, b, k))
    requires s.calls[a].at.wait.Some? ==> IsFinished(s, s.calls[a].at.wait.value)
    requires s.nodes[s.calls[a].c].mu == Some(a)
    ensures var t := ChildCalled(s, a, b, k);
            InvCalls(t) ==> forall j | j in t.nodes && Nearest(t, j) == Some(s.calls[a].c) :: LinkOk(t, j)
  {
    hide Inv, Later, InvCalls, LinkOk;
    var c, t := s.calls[a].c, ChildCalled(s, a, b, k);
    forall j | j in t.nodes && Nearest(t, j) == Some(c) && InvCalls(t)
      ensures LinkOk(t, j)
    {
      LoopLink(s, t, a, b, k, j);
    }
  }

  /** A child below a loop that goes on. */
  lemma LoopLink(s: State, t: State, a: nat, b: nat, k: nat, j: nat)
    requires Inv(s) && IsCancel(s, a) && s.calls[a].at.CLoop? && s.nodes[s.calls[a].c].err.Some?
    requires s.nodes[s.calls[a].c].mu == Some(a) && b !in s.calls
    requires t == ChildCalled(s, a, b, k)
    requires s.calls[a].at.wait.Some? ==> IsFinished(s, s.calls[a].at.wait.value)
    requires Later(s, t) && InvCalls(t) && j in s.nodes && Nearest(s, j) == Some(s.calls[a].c)
    ensures LinkOk(t, j)
  {
    hide Inv, Later, Settled, NodeOk, InvCalls, LockOk, ChildrenOk, TailOk;
    NodeFacts(s, j);
    if Settled(s, j) {
      SettledKeeps(s, t, j);
    } else if !Fresh(s, j) {
      MakerNotCancel(s, j, a);
      if MakerCancels(s, j) {
        MakerQuiet(s, t, j, a);
      }
    }
  }

  lemma LoopDoneKeeps(s: State, a: nat)
    requires Inv(s) && IsCancel(s, a) && s.calls[a].at.CLoop? && s.calls[a].at.todo == {}
    requires s.calls[a].at.wait.Some? ==> IsFinished(s, s.calls[a].at.wait.value)
    ensures Kept(s, LoopDone(s, a))
  {
    hide Inv, Later, CallOk, Locking, NodeOk;
    var c, t := s.calls[a].c, LoopDone(s, a);
    BothLater(s, c, t.nodes[c], a, t.calls[a]);
    LoopFacts(s, a);
    HoldsOne(s, a, c);
    LoopDoneOk(s, a);
    LoopDoneLocking(s, a);
    LoopDoneLinks(s, a);
    LoopDoneEnds(s, a);
    hide LinkOk, ChildrenOk, TailOk, Removing;
    LockingStep(s, t, c, a, a);
  }

  lemma LoopDoneLocking(s: State, a: nat)
    requires IsCancel(s, a) && forall p | p in s.nodes && p != s.calls[a].c :: s.nodes[p].mu != Some(a)
    ensures Locking(s, LoopDone(s, a), s.calls[a].c, a, a)
  {
  }

  lemma LoopDoneOk(s: State, a: nat)
    requires Inv(s) && IsCancel(s, a) && s.calls[a].at.CLoop? && Later(s, LoopDone(s, a))
    ensures var t := LoopDone(s, a); CallOk(t, a) && NodeOk(t, s.calls[a].c)
  {
    hide Inv, Later, CallOk, NodeOk, Fresh;
    var c, t := s.calls[a].c, LoopDone(s, a);
    LoopFacts(s, a);
    CallFacts(s, a);
    CancelMoves(s, t, a, CRemove);
    NodeFacts(s, c);
    NodeParts(s, c);
    NodeShrinks(s, t, c);
  }

  lemma LoopDoneEnds(s: State, a: nat)
    requires Inv(s) && IsCancel(s, a) && s.calls[a].at.CLoop? && Later(s, LoopDone(s, a))
    ensures var t := LoopDone(s, a);
            && ChildrenOk(t, s.calls[a].c) && TailOk(t, s.calls[a].c)
            && forall d | d in s.nodes && s.nodes[d].err.None? && s.calls[a].c in s.nodes[d].children ::
               Removing(t, s.calls[a].c)
  {
    hide Inv, Later, NodeOk, LockOk, LinkOk;
    var c, t := s.calls[a].c, LoopDone(s, a);
    LoopFacts(s, a);
    NodeFacts(s, c);
    forall d | d in s.nodes && s.nodes[d].err.None? && c in s.nodes[d].children
      ensures Removing(t, c)
    {
      NodeFacts(s, d);
    }
  }

  /** When the loop is over, every child is settled, or its constructor is at it. */
  lemma LoopDoneLinks(s: State, a: nat)
    requires Inv(s) && IsCancel(s, a) && s.calls[a].at.CLoop? && s.calls[a].at.todo == {}
    requires s.calls[a].at.wait.Some? ==> IsFinished(s, s.calls[a].at.wait.value)
    requires s.nodes[s.calls[a].c].mu == Some(a) && s.nodes[s.calls[a].c].err.Some? && Later(s, LoopDone(s, a))
    ensures var t := LoopDone(s, a);
            InvCalls(t) ==> forall j | j in t.nodes && Nearest(t, j) == Some(s.calls[a].c) :: LinkOk(t, j)
  {
    hide Inv, Later, InvCalls, Settled, NodeOk, LockOk, ChildrenOk, TailOk;
    var c, t := s.calls[a].c, LoopDone(s, a);
    forall j | j in t.nodes && Nearest(t, j) == Some(c) && InvCalls(t)
      ensures LinkOk(t, j)
    {
      NodeFacts(s, j);
      MakerNotCancel(s, j, a);
      if Settled(s, j) {
        SettledKeeps(s, t, j);
      } else if !Fresh(s, j) {
        MakerQuiet(s, t, j, a);
      }
    }
  }

  // ----- A constructor that finds its parent cancelled while it holds the lock -----

  lemma HoldCalledKeeps(s: State, a: nat, b: nat, p: nat)
    requires Inv(s) && IsCreate(s, a) && s.calls[a].stage.PRegister? && b !in s.calls
    requires Nearest(s, s.calls[a].c) == Some(p) && p in s.nodes && s.nodes[p].err.Some? && s.nodes[p].mu.None?
    ensures Kept(s, HoldCalled(s, a, b, p))
  {
    hide Inv, Later, CallOk, Locking, NodeOk;
    var c, t := s.calls[a].c, HoldCalled(s, a, b, p);
    StageFrame(s, a);
    HoldCalledLater(s, a, b, p);
    HoldsNothing(s, a);
    HoldCalledLocking(s, a, b, p);
    HoldCalledOk(s, a, b, p);
    HoldLinks(s, t, a, b, p);
    HoldEnds(s, t, a, b, p);
    hide LinkOk, ChildrenOk, TailOk;
    LockingStep(s, t, p, a, b);
  }

  lemma HoldCalledLater(s: State, a: nat, b: nat, p: nat)
    requires IsCreate(s, a) && s.calls[a].stage.PRegister? && b !in s.calls && p in s.nodes && s.nodes[p].err.Some?
    ensures Later(s, HoldCalled(s, a, b, p))
  {
    var t := HoldCalled(s, a, b, p);
    BothLater(s, p, t.nodes[p], a, t.calls[a]);
    hide Later;
    SpawnLater(s, SetCall(SetNode(s, p, t.nodes[p]), a, t.calls[a]), b, t.calls[b]);
  }

  lemma HoldCalledLocking(s: State, a: nat, b: nat, p: nat)
    requires IsCreate(s, a) && b !in s.calls && p in s.nodes && s.nodes[p].err.Some?
    requires Nearest(s, s.calls[a].c) == Some(p) && forall q | q in s.nodes :: s.nodes[q].mu != Some(a)
    ensures Locking(s, HoldCalled(s, a, b, p), p, a, b)
  {
  }

  lemma HoldCalledOk(s: State, a: nat, b: nat, p: nat)
    requires Inv(s) && IsCreate(s, a) && s.calls[a].stage.PRegister? && b !in s.calls
    requires Nearest(s, s.calls[a].c) == Some(p) && p in s.nodes && s.nodes[p].err.Some?
    requires Later(s, HoldCalled(s, a, b, p))
    ensures var t := HoldCalled(s, a, b, p); CallOk(t, a) && CallOk(t, b) && NodeOk(t, p)
  {
    hide Inv, Later, NodeOk, CallOk, LinkOk, LockOk, ChildrenOk, TailOk;
    var c, t := s.calls[a].c, HoldCalled(s, a, b, p);
    StageFrame(s, a);
    NodeParts(s, p);
    NodeFacts(s, p);
    NodeShrinks(s, t, p);
    InheritOk(t, b, c, p);
    HoldingOk(t, a, b, p);
  }

  lemma HoldingOk(t: State, a: nat, b: nat, p: nat)
    requires IsCreate(t, a) && t.calls[a].stage == PHolding(b) && t.nodes[t.calls[a].c].maker == a
    requires Nearest(t, t.calls[a].c) == Some(p) && p in t.nodes && t.nodes[p].err.Some? && Passes(t, b, t.calls[a].c)
    ensures CallOk(t, a)
  {
  }

  /** With no loop at p, its children are settled, or their constructors are at them. */
  lemma HoldLinks(s: State, t: State, a: nat, b: nat, p: nat)
    requires Inv(s) && IsCreate(s, a) && s.calls[a].stage.PRegister? && b !in s.calls
    requires Nearest(s, s.calls[a].c) == Some(p) && p in s.nodes && s.nodes[p].err.Some? && s.nodes[p].mu.None?
    requires t == HoldCalled(s, a, b, p) && Later(s, t)
    ensures InvCalls(t) ==> forall j | j in t.nodes && Nearest(t, j) == Some(p) :: LinkOk(t, j)
  {
    hide Inv, Later, InvCalls, Settled, NodeOk, LockOk, ChildrenOk, TailOk;
    StageFrame(s, a);
    forall j | j in t.nodes && Nearest(t, j) == Some(p) && InvCalls(t)
      ensures LinkOk(t, j)
    {
      NodeFacts(s, j);
      if s.nodes[j].maker == a {
        MakerOf(s, j);
      } else if Settled(s, j) {
        SettledKeeps(s, t, j);
      } else if !Fresh(s, j) {
        MakerQuiet(s, t, j, a);
      }
    }
  }

  lemma MakerOf(s: State, c: nat)
    requires Inv(s) && c in s.nodes
    ensures s.nodes[c].maker in s.calls && s.calls[s.nodes[c].maker].Create? && s.calls[s.nodes[c].maker].c == c
  {
    hide Inv, LinkOk, LockOk, ChildrenOk, TailOk, SetBy, LocalOk, Fresh, Ready;
    NodeFacts(s, c);
  }

  lemma HoldEnds(s: State, t: State, a: nat, b: nat, p: nat)
    requires Inv(s) && IsCreate(s, a) && b !in s.calls && p in s.nodes && s.nodes[p].err.Some? && p in t.nodes
    requires Later(s, t) && Differ(s, t, p, a, b) && t.nodes[p] == s.nodes[p].(mu := t.nodes[p].mu)
    ensures ChildrenOk(t, p) && TailOk(t, p)
    ensures forall d | d in s.nodes && s.nodes[d].err.None? && p in s.nodes[d].children :: Removing(t, p)
  {
    hide Inv, Later, LockOk, LinkOk;
    NodeFacts(s, p);
    NodeParts(s, p);
    var setter := s.nodes[p].setter.value;
    assert setter != a && setter != b;
    LaterHas(s, t, setter);
    forall d | d in s.nodes && s.nodes[d].err.None? && p in s.nodes[d].children
      ensures Removing(t, p)
    {
      NodeFacts(s, d);
    }
  }

  lemma LaterHas(s: State, t: State, a: nat)
    requires Later(s, t) && a in s.calls
    ensures a in t.calls
  {
  }

  lemma HoldDoneKeeps(s: State, a: nat, p: nat)
    requires Inv(s) && IsCreate(s, a) && s.calls[a].stage.PHolding? && IsFinished(s, s.calls[a].stage.wait)
    requires Nearest(s, s.calls[a].c) == Some(p) && p in s.nodes
    ensures Kept(s, HoldDone(s, a, p))
  {
    hide Inv, Later, CallOk, Locking, NodeOk, IsFinished, Settled;
    var c, t := s.calls[a].c, HoldDone(s, a, p);
    BothLater(s, p, t.nodes[p], a, t.calls[a]);
    HoldsOne(s, a, p);
    StageFrame(s, a);
    HoldDoneLocking(s, a, p);
    HoldDoneOk(s, a, p);
    HoldDoneLinks(s, a, p);
    var b := Above(s.calls.Keys);
    assert b !in s.calls;
    HoldDiffers(s, a, p, b);
    HoldEnds(s, t, a, b, p);
    hide LinkOk, ChildrenOk, TailOk;
    LockingStep(s, t, p, a, a);
  }

  lemma HoldDiffers(s: State, a: nat, p: nat, b: nat)
    requires IsCreate(s, a) && p in s.nodes
    ensures Differ(s, HoldDone(s, a, p), p, a, b)
  {
  }

  lemma HoldDoneLocking(s: State, a: nat, p: nat)
    requires IsCreate(s, a) && p in s.nodes && Nearest(s, s.calls[a].c) == Some(p)
    requires forall q | q in s.nodes && q != p :: s.nodes[q].mu != Some(a)
    ensures Locking(s, HoldDone(s, a, p), p, a, a)
  {
  }

  lemma HoldDoneOk(s: State, a: nat, p: nat)
    requires Inv(s) && IsCreate(s, a) && s.calls[a].stage.PHolding? && p in s.nodes
    requires Nearest(s, s.calls[a].c) == Some(p) && Later(s, HoldDone(s, a, p))
    ensures var t := HoldDone(s, a, p); CallOk(t, a) && NodeOk(t, p)
  {
    hide Inv, Later, NodeOk, LinkOk, LockOk, ChildrenOk, TailOk;
    var t := HoldDone(s, a, p);
    StageFrame(s, a);
    NodeParts(s, p);
    NodeFacts(s, p);
    NodeShrinks(s, t, p);
  }

  lemma HoldDoneLinks(s: State, a: nat, p: nat)
    requires Inv(s) && IsCreate(s, a) && s.calls[a].stage.PHolding? && IsFinished(s, s.calls[a].stage.wait)
    requires Nearest(s, s.calls[a].c) == Some(p) && p in s.nodes && s.nodes[p].mu == Some(a) && s.nodes[p].err.Some?
    requires Later(s, HoldDone(s, a, p))
    ensures var t := HoldDone(s, a, p);
            InvCalls(t) ==> forall j | j in t.nodes && Nearest(t, j) == Some(p) :: LinkOk(t, j)
  {
    hide Inv, Later, InvCalls, Settled, NodeOk, LockOk, ChildrenOk, TailOk, IsFinished;
    var t := HoldDone(s, a, p);
    WaitFacts(s, a);
    FinishedSettled(s, s.calls[a].stage.wait, s.calls[a].c);
    forall j | j in t.nodes && Nearest(t, j) == Some(p) && InvCalls(t)
      ensures LinkOk(t, j)
    {
      NodeFacts(s, j);
      MakerOf(s, j);
      if Settled(s, j) {
        SettledKeeps(s, t, j);
      } else if !Fresh(s, j) {
        MakerQuiet(s, t, j, a);
      }
    }
  }
}
