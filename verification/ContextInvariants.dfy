/** What holds in every reachable state of the cancellation tree, and why later states keep it. */
module ContextInvariants {
  import opened Basics
  import opened Context

  // ----- What never changes back -----

  function Rank(call: Call): (n: nat) {
    match call
    case Cancel(_, _, _, _, _, at) =>
      if at.CLock? then 0 else if at.CLoop? then 1 else if at.CRemove? then 2 else if at.CTail? then 3 else 4
    case Create(_, _, stage) =>
      (match stage
       case PGetDone => 0
       case PPoll => 1
       case PReadErr => 2
       case PReadCause(_) => 3
       case PLookup => 2
       case PRegister => 3
       case POwn(_) => 4
       case PHolding(_) => 4
       case PWatch => 4
       case PPost => 5
       case PExpired(_) => 6
       case PDone(_) => 7)
    case Stop(_, phase) => if phase.STry? then 0 else if phase.SWait? then 1 else 2
  }

  predicate SameCall(x: Call, y: Call) {
    match x
    case Cancel(c, remove, err, cause, inherited, _) => y.Cancel? && y == x.(at := y.at)
    case Create(c, cause, _) => y.Create? && y == x.(stage := y.stage)
    case Stop(c, _) => y.Stop? && y == x.(phase := y.phase)
  }

  predicate CallLater(x: Call, y: Call) { SameCall(x, y) && Rank(x) <= Rank(y) }

  /** A context keeps its place in the tree and, once it has them, its error and cause. */
  predicate NodeLater(x: Node, y: Node) {
    && y.kind == x.kind && y.parent == x.parent && y.maker == x.maker
    && (x.err.Some? ==> y.err == x.err && y.cause == x.cause && y.setter == x.setter)
    && (x.hasChan ==> y.hasChan)
    && (x.once ==> y.once && y.started == x.started && y.stopped == x.stopped)
  }

  ghost predicate Later(s: State, t: State) {
    && (forall c | c in s.nodes :: c in t.nodes && NodeLater(s.nodes[c], t.nodes[c]))
    && (forall a | a in s.calls :: a in t.calls && CallLater(s.calls[a], t.calls[a]))
  }

  lemma LaterTrans(s: State, t: State, u: State)
    requires Later(s, t) && Later(t, u)
    ensures Later(s, u)
  {
    hide Rank;
    forall c | c in s.nodes
      ensures c in u.nodes && NodeLater(s.nodes[c], u.nodes[c])
    {
      assert NodeLater(s.nodes[c], t.nodes[c]);
    }
    forall a | a in s.calls
      ensures a in u.calls && CallLater(s.calls[a], u.calls[a])
    {
      assert CallLater(s.calls[a], t.calls[a]);
    }
  }

  // ----- Invariants -----

  predicate HasMaker(s: State, k: nat) { k in s.nodes && s.nodes[k].maker in s.calls }

  /** The constructor has not yet registered the context, nor begun to cancel it. */
  predicate Fresh(s: State, c: nat) {
    c in s.nodes && s.nodes[c].maker in s.calls && Rank(s.calls[s.nodes[c].maker]) < 4
  }

  /** Cancelled, and the loop over the children is over. */
  predicate Settled(s: State, c: nat) {
    && c in s.nodes && s.nodes[c].err.Some? && s.nodes[c].setter.Some?
    && s.nodes[c].setter.value in s.calls && Rank(s.calls[s.nodes[c].setter.value]) >= 2
  }

  /** Call b cancels c on behalf of its parent. */
  predicate Passes(s: State, b: nat, c: nat) {
    b in s.calls && s.calls[b].Cancel? && s.calls[b].c == c && s.calls[b].inherited
  }

  predicate ParentIs(s: State, c: nat, p: nat) {
    c in s.nodes && p in s.nodes && Nearest(s, c) == Some(p)
  }

  /** Cancelled with this error and cause. */
  predicate HasError(s: State, p: nat, err: Err, cause: Option<Err>) {
    p in s.nodes && s.nodes[p].err == Some(err) && s.nodes[p].cause == cause
  }

  /** What a cancel call always satisfies: its context is past registration; an inherited error
      is the parent's; and one that does not remove the context either passes on its parent's
      error or comes too late. */
  predicate CancelFixed(s: State, a: nat, c: nat, remove: bool, err: Err, cause: Option<Err>, inherited: bool) {
    && HasMaker(s, c) && !Fresh(s, c)
    && (inherited ==>
          !remove && cause.Some? && Nearest(s, c).Some? && HasError(s, Nearest(s, c).value, err, cause))
    && (!inherited && !remove ==> s.nodes[c].err.Some? && s.nodes[c].setter != Some(a))
  }

  /** Call wait cancels a child of c. */
  predicate AwaitsChild(s: State, c: nat, wait: Option<nat>) {
    wait.Some? ==>
      && wait.value in s.calls && s.calls[wait.value].Cancel?
      && Passes(s, wait.value, s.calls[wait.value].c) && ParentIs(s, s.calls[wait.value].c, c)
  }

  predicate Registered(s: State, k: nat, c: nat) { ParentIs(s, k, c) && HasMaker(s, k) && !Fresh(s, k) }

  predicate CancelAtOk(s: State, c: nat, at: CancelPoint) {
    match at
    case CLock => true
    case CLoop(todo, wait) => (forall k | k in todo :: Registered(s, k, c)) && AwaitsChild(s, c, wait)
    case _ => Settled(s, c)
  }

  predicate CancelOk(s: State, a: nat, call: Call)
    requires call.Cancel?
  {
    CancelFixed(s, a, call.c, call.remove, call.err, call.cause, call.inherited) && CancelAtOk(s, call.c, call.at)
  }

  predicate CreateOk(s: State, a: nat, call: Call)
    requires call.Create?
  {
    && call.c in s.nodes && s.nodes[call.c].maker == a
    && (Nearest(s, call.c).Some? ==> Nearest(s, call.c).value in s.nodes)
    && StageOk(s, call.c, call.stage)
  }

  /** After parent.Done() the parent has a channel, or was cancelled without one. Never do the
      standard contexts need the goroutine that watches a foreign parent. */
  predicate StageOk(s: State, c: nat, stage: CreatePoint)
    requires c in s.nodes && (Nearest(s, c).Some? ==> Nearest(s, c).value in s.nodes)
  {
    var p := Nearest(s, c);
    match stage
    case PGetDone => true
    case PPoll => p.Some? && (s.nodes[p.value].hasChan || s.nodes[p.value].err.Some?)
    case PReadErr => p.Some? && s.nodes[p.value].err.Some?
    case PReadCause(err) => p.Some? && s.nodes[p.value].err == Some(err)
    case POwn(wait) => p.Some? && s.nodes[p.value].err.Some? && Passes(s, wait, c)
    case PLookup => p.Some? && s.nodes[p.value].hasChan
    case PRegister => p.Some? && s.nodes[p.value].hasChan
    case PHolding(wait) => p.Some? && s.nodes[p.value].err.Some? && Passes(s, wait, c)
    case PWatch => false
    case PPost => true
    case PExpired(wait) => Cancels(s, wait, c)
    case PDone(expired) => expired ==> Settled(s, c)
  }

  predicate Cancels(s: State, b: nat, c: nat) { b in s.calls && s.calls[b].Cancel? && s.calls[b].c == c }

  predicate StopOk(s: State, call: Call)
    requires call.Stop?
  {
    && HasMaker(s, call.c) && !Fresh(s, call.c) && s.nodes[call.c].kind == AfterKind
    && (call.phase.SWait? ==> Cancels(s, call.phase.wait, call.c))
  }

  predicate CallOk(s: State, a: nat)
    requires a in s.calls
  {
    match s.calls[a]
    case Cancel(_, _, _, _, _, _) => CancelOk(s, a, s.calls[a])
    case Create(_, _, _) => CreateOk(s, a, s.calls[a])
    case Stop(_, _) => StopOk(s, s.calls[a])
  }

  /** The error of a context comes from the one call that set it. */
  predicate SetBy(s: State, c: nat, x: Node) {
    && (x.err.Some? <==> x.setter.Some?) && (x.cause.Some? <==> x.setter.Some?)
    && (x.setter.Some? ==>
          && x.setter.value in s.calls && s.calls[x.setter.value].Cancel?
          && var call := s.calls[x.setter.value];
             call.c == c && Rank(call) >= 1 && x.err == Some(call.err) && x.cause == Some(CauseOf(call)))
  }

  /** AfterFunc's function is started or stopped once at most, and only deadlines have timers. */
  predicate LocalOk(x: Node) {
    && (x.children != {} ==> x.hasChan)
    && x.started + x.stopped == (if x.once then 1 else 0)
    && (x.timer != NoTimer ==> x.kind == TimerKind)
  }

  predicate NodeOk(s: State, c: nat)
    requires c in s.nodes
  {
    var x := s.nodes[c];
    && (Near(x.parent).Some? ==> Near(x.parent).value < c && Ready(s, Near(x.parent).value))
    && x.maker in s.calls && s.calls[x.maker].Create? && s.calls[x.maker].c == c
    && SetBy(s, c, x)
    && (forall k | k in x.children :: Registered(s, k, c))
    && (Fresh(s, c) ==> x.err.None? && x.timer.NoTimer?)
    && LocalOk(x)
  }

  ghost predicate InvCalls(s: State) { forall a | a in s.calls :: CallOk(s, a) }

  ghost predicate InvNodes(s: State) { forall c | c in s.nodes :: NodeOk(s, c) }

  predicate Holds(s: State, h: nat, c: nat) {
    h in s.calls &&
    match s.calls[h]
    case Cancel(d, _, _, _, _, at) => d == c && at.CLoop?
    case Create(d, _, stage) => stage.PHolding? && ParentIs(s, d, c)
    case Stop(_, _) => false
  }

  predicate LockOk(s: State, c: nat)
    requires c in s.nodes
  {
    var x := s.nodes[c];
    x.mu.Some? ==> x.err.Some? && Holds(s, x.mu.value, c)
  }

  predicate HolderOk(s: State, a: nat)
    requires a in s.calls
  {
    match s.calls[a]
    case Cancel(c, _, _, _, _, at) =>
      at.CLoop? ==> c in s.nodes && s.nodes[c].mu == Some(a) && s.nodes[c].setter == Some(a)
    case Create(c, _, stage) =>
      stage.PHolding? ==>
        c in s.nodes && Nearest(s, c).Some? && Nearest(s, c).value in s.nodes
        && s.nodes[Nearest(s, c).value].mu == Some(a)
    case Stop(_, _) => true
  }

  ghost predicate InvLocks(s: State) {
    && (forall c | c in s.nodes :: LockOk(s, c))
    && (forall a | a in s.calls :: HolderOk(s, a))
  }

  /** Call b has still to cancel c, or to cancel c's children. */
  predicate CancelsNow(s: State, b: nat, c: nat) { Cancels(s, b, c) && Rank(s.calls[b]) < 2 }

  /** The loop over p's children will come to c, or is at it. */
  predicate Looped(s: State, c: nat, p: nat)
    requires p in s.nodes
  {
    var mu := s.nodes[p].mu;
    mu.Some? && mu.value in s.calls && s.calls[mu.value].Cancel? && s.calls[mu.value].at.CLoop? &&
    var at := s.calls[mu.value].at;
    c in at.todo || (at.wait.Some? && CancelsNow(s, at.wait.value, c))
  }

  /** The constructor of c found the parent cancelled and is cancelling c. */
  predicate MakerCancels(s: State, c: nat)
    requires HasMaker(s, c)
  {
    match s.calls[s.nodes[c].maker]
    case Create(_, _, POwn(wait)) => CancelsNow(s, wait, c)
    case Create(_, _, PHolding(wait)) => CancelsNow(s, wait, c)
    case _ => false
  }

  /** A context whose parent is cancelled is cancelled with all its loop done, or someone is
      about to; one whose parent is not is among the parent's children, or cancelled. */
  predicate Linked(s: State, c: nat, p: nat)
    requires HasMaker(s, c) && p in s.nodes
  {
    || Fresh(s, c) || Settled(s, c)
    || if s.nodes[p].err.None? then c in s.nodes[p].children else Looped(s, c, p) || MakerCancels(s, c)
  }

  ghost predicate InvLinks(s: State) {
    forall c | c in s.nodes :: LinkOk(s, c)
  }

  predicate LinkOk(s: State, c: nat)
    requires c in s.nodes
  {
    HasMaker(s, c) && (Nearest(s, c).Some? ==> Nearest(s, c).value in s.nodes && Linked(s, c, Nearest(s, c).value))
  }

  /** The call that cancelled k will take it from its parent's children. */
  predicate Removing(s: State, k: nat) {
    && k in s.nodes && s.nodes[k].setter.Some? && s.nodes[k].setter.value in s.calls
    && var call := s.calls[s.nodes[k].setter.value];
       call.Cancel? && call.remove && Rank(call) <= 2
  }

  /** The call that set the error of c has not come to this rank. */
  predicate SetterBefore(s: State, c: nat, rank: nat) {
    && c in s.nodes && s.nodes[c].setter.Some? && s.nodes[c].setter.value in s.calls
    && Rank(s.calls[s.nodes[c].setter.value]) < rank
  }

  /** Children are uncancelled, or soon gone. */
  predicate ChildrenOk(s: State, c: nat)
    requires c in s.nodes
  {
    var x := s.nodes[c];
    && (x.err.Some? && x.children != {} ==> SetterBefore(s, c, 2))
    && (x.err.None? ==> forall k | k in x.children :: k in s.nodes && (s.nodes[k].err.None? || Removing(s, k)))
  }

  /** A cancelled context has its timer stopped and its function started, or soon will. */
  predicate TailOk(s: State, c: nat)
    requires c in s.nodes
  {
    var x := s.nodes[c];
    x.err.Some? ==>
      (x.timer != NoTimer || (x.kind == AfterKind && !x.once) ==> SetterBefore(s, c, 4))
  }

  ghost predicate InvEnds(s: State) {
    forall c | c in s.nodes :: ChildrenOk(s, c) && TailOk(s, c)
  }

  ghost predicate Inv(s: State) {
    InvCalls(s) && InvNodes(s) && InvLocks(s) && InvLinks(s) && InvEnds(s)
  }

  // ----- Every step moves on -----

  lemma LaterSame(s: State)
    ensures Later(s, s)
  {
  }

  lemma SetNodeLater(s: State, c: nat, x: Node)
    requires c !in s.nodes || NodeLater(s.nodes[c], x)
    ensures Later(s, SetNode(s, c, x))
  {
    hide Rank;
  }

  lemma SetCallLater(s: State, a: nat, x: Call)
    requires a !in s.calls || CallLater(s.calls[a], x)
    ensures Later(s, SetCall(s, a, x))
  {
    hide Rank, SameCall;
    forall d | d in s.calls
      ensures d in SetCall(s, a, x).calls && CallLater(s.calls[d], SetCall(s, a, x).calls[d])
    {
      SameLater(s.calls[d]);
    }
  }

  lemma SameLater(x: Call)
    ensures CallLater(x, x)
  {
  }

  /** A step that changes one context and one call. */
  lemma BothLater(s: State, c: nat, x: Node, a: nat, y: Call)
    requires c !in s.nodes || NodeLater(s.nodes[c], x)
    requires a !in s.calls || CallLater(s.calls[a], y)
    ensures Later(s, SetCall(SetNode(s, c, x), a, y))
  {
    SetNodeLater(s, c, x);
    SetCallLater(SetNode(s, c, x), a, y);
    hide NodeLater, CallLater, Later;
    LaterTrans(s, SetNode(s, c, x), SetCall(SetNode(s, c, x), a, y));
  }

  lemma SpawnLater(s: State, t: State, b: nat, z: Call)
    requires Later(s, t) && b !in t.calls
    ensures Later(s, SetCall(t, b, z))
  {
    SetCallLater(t, b, z);
    hide NodeLater, CallLater, Later;
    LaterTrans(s, t, SetCall(t, b, z));
  }

  // ----- What later states keep -----

  lemma FinishedKeeps(x: Call, y: Call)
    requires CallLater(x, y) && Finished(x)
    ensures Finished(y)
  {
  }

  lemma ReadyKeeps(s: State, t: State, c: nat)
    requires Later(s, t) && Ready(s, c)
    ensures Ready(t, c)
  {
    FinishedKeeps(s.calls[s.nodes[c].maker], t.calls[s.nodes[c].maker]);
  }

  lemma FreshKeeps(s: State, t: State, c: nat)
    requires Later(s, t) && c in s.nodes && s.nodes[c].maker in s.calls
    ensures Fresh(t, c) ==> Fresh(s, c)
  {
    hide Rank;
  }

  lemma SettledKeeps(s: State, t: State, c: nat)
    requires Later(s, t) && Settled(s, c)
    ensures Settled(t, c)
  {
    hide Rank;
  }

  lemma PassesKeeps(s: State, t: State, b: nat, c: nat)
    requires Later(s, t) && Passes(s, b, c)
    ensures Passes(t, b, c)
  {
    hide Rank;
  }

  lemma ParentKeeps(s: State, t: State, c: nat, p: nat)
    requires Later(s, t) && ParentIs(s, c, p)
    ensures ParentIs(t, c, p)
  {
    hide Rank;
  }

  lemma FixedKeeps(s: State, t: State, a: nat, c: nat, remove: bool, err: Err, cause: Option<Err>, inherited: bool)
    requires Later(s, t) && CancelFixed(s, a, c, remove, err, cause, inherited)
    ensures CancelFixed(t, a, c, remove, err, cause, inherited)
  {
    FreshKeeps(s, t, c);
    hide Rank, Fresh;
  }

  lemma RegisteredKeeps(s: State, t: State, k: nat, c: nat)
    requires Later(s, t) && Registered(s, k, c)
    ensures Registered(t, k, c)
  {
    ParentKeeps(s, t, k, c);
    FreshKeeps(s, t, k);
    hide Rank, Fresh;
  }

  lemma AwaitsKeeps(s: State, t: State, c: nat, wait: Option<nat>)
    requires Later(s, t) && AwaitsChild(s, c, wait)
    ensures AwaitsChild(t, c, wait)
  {
    hide Rank;
    if wait.Some? {
      var k := s.calls[wait.value].c;
      PassesKeeps(s, t, wait.value, k);
      ParentKeeps(s, t, k, c);
    }
  }

  lemma CancelAtKeeps(s: State, t: State, c: nat, at: CancelPoint)
    requires Later(s, t) && CancelAtOk(s, c, at)
    ensures CancelAtOk(t, c, at)
  {
    hide Later, Registered, AwaitsChild, Settled;
    match at
    case CLock =>
    case CLoop(todo, wait) =>
      forall k | k in todo
        ensures Registered(t, k, c)
      {
        RegisteredKeeps(s, t, k, c);
      }
      AwaitsKeeps(s, t, c, wait);
    case _ => SettledKeeps(s, t, c);
  }

  lemma CallKeeps(s: State, t: State, a: nat)
    requires Later(s, t) && a in s.calls && CallOk(s, a) && t.calls[a] == s.calls[a]
    ensures CallOk(t, a)
  {
    var call := s.calls[a];
    match call
    case Cancel(c, remove, err, cause, inherited, at) =>
      hide Later, CancelFixed, CancelAtOk;
      FixedKeeps(s, t, a, c, remove, err, cause, inherited);
      CancelAtKeeps(s, t, c, at);
    case Create(c, _, stage) =>
      hide Rank;
    case Stop(_, _) =>
      hide Rank;
  }

  lemma SetByKeeps(s: State, t: State, c: nat, x: Node)
    requires Later(s, t) && SetBy(s, c, x)
    ensures SetBy(t, c, x)
  {
    hide Rank;
    if x.setter.Some? {
      assert CallLater(s.calls[x.setter.value], t.calls[x.setter.value]);
    }
  }

  /** A context changed by a step stays sound, given what the step must see to. */
  lemma NodeChanges(s: State, t: State, c: nat)
    requires Later(s, t) && c in s.nodes && NodeOk(s, c)
    requires SetBy(t, c, t.nodes[c]) && LocalOk(t.nodes[c])
    requires forall k | k in t.nodes[c].children :: k in s.nodes[c].children || Registered(t, k, c)
    requires Fresh(s, c) ==> t.nodes[c].err.None? && t.nodes[c].timer.NoTimer?
    ensures NodeOk(t, c)
  {
    hide Rank, Ready, Fresh, SetBy, LocalOk, Registered;
    var x := s.nodes[c];
    if Near(x.parent).Some? {
      ReadyKeeps(s, t, Near(x.parent).value);
    }
    assert CallLater(s.calls[x.maker], t.calls[x.maker]);
    FreshKeeps(s, t, c);
    forall k | k in t.nodes[c].children
      ensures Registered(t, k, c)
    {
      if k in x.children {
        RegisteredKeeps(s, t, k, c);
      }
    }
  }

  lemma NodeShrinks(s: State, t: State, c: nat)
    requires Later(s, t) && c in s.nodes && NodeOk(s, c) && c in t.nodes
    requires Shrinks(s.nodes[c], t.nodes[c]) && LocalOk(t.nodes[c])
    requires t.nodes[c].err == s.nodes[c].err && t.nodes[c].setter == s.nodes[c].setter
    ensures NodeOk(t, c)
  {
    SetByKeeps(s, t, c, s.nodes[c]);
    hide Later, LocalOk, Registered, Fresh, Rank;
    NodeChanges(s, t, c);
  }

  lemma NodeKeeps(s: State, t: State, c: nat)
    requires Later(s, t) && c in s.nodes && NodeOk(s, c) && t.nodes[c] == s.nodes[c]
    ensures NodeOk(t, c)
  {
    SetByKeeps(s, t, c, s.nodes[c]);
    hide Later, SetBy, LocalOk, Registered, Fresh;
    NodeChanges(s, t, c);
  }

  // ----- The structure of calls and contexts -----

  /** t differs from s at most in context n and the calls a and b. */
  predicate Differ(s: State, t: State, n: nat, a: nat, b: nat) {
    && (forall c | c in t.nodes :: c == n || (c in s.nodes && t.nodes[c] == s.nodes[c]))
    && (forall d | d in t.calls :: d == a || d == b || (d in s.calls && t.calls[d] == s.calls[d]))
  }

  lemma KeepAll(s: State, t: State, n: nat, a: nat, b: nat)
    requires InvCalls(s) && InvNodes(s) && Later(s, t) && Differ(s, t, n, a, b)
    requires n in t.nodes ==> NodeOk(t, n)
    requires a in t.calls ==> CallOk(t, a)
    requires b in t.calls ==> CallOk(t, b)
    ensures InvCalls(t) && InvNodes(t)
  {
    forall d | d in t.calls
      ensures CallOk(t, d)
    {
      if d != a && d != b {
        CallKeeps(s, t, d);
      }
    }
    forall c | c in t.nodes
      ensures NodeOk(t, c)
    {
      if c != n {
        NodeKeeps(s, t, c);
      }
    }
  }

  lemma CancelMoves(s: State, t: State, a: nat, at: CancelPoint)
    requires Later(s, t) && IsCancel(s, a) && CallOk(s, a)
    requires a in t.calls && t.calls[a] == s.calls[a].(at := at) && CancelAtOk(t, s.calls[a].c, at)
    ensures CallOk(t, a)
  {
    hide Later, CancelFixed, CancelAtOk;
    var call := s.calls[a];
    FixedKeeps(s, t, a, call.c, call.remove, call.err, call.cause, call.inherited);
  }

  // ----- Steps that leave locks and errors alone -----

  predicate Holder(call: Call) {
    match call
    case Cancel(_, _, _, _, _, at) => at.CLoop?
    case Create(_, _, stage) => stage.PHolding?
    case Stop(_, _) => false
  }

  /** Context n keeps its lock and error; call a neither takes nor leaves a lock; b is new. */
  predicate Quiet(s: State, t: State, n: nat, a: nat, b: nat) {
    && Differ(s, t, n, a, b)
    && (n in s.nodes && n in t.nodes ==>
          t.nodes[n].mu == s.nodes[n].mu && t.nodes[n].err == s.nodes[n].err && t.nodes[n].setter == s.nodes[n].setter)
    && (n !in s.nodes && n in t.nodes ==> t.nodes[n].mu.None? && t.nodes[n].err.None?)
    && (a in s.calls ==> !Holder(s.calls[a])) && (a in t.calls ==> !Holder(t.calls[a]))
    && (b != a && b in t.calls ==> b !in s.calls && !Holder(t.calls[b]))
  }

  /** No child is lost that is not settled. */
  ghost predicate ChildrenStay(s: State, t: State, n: nat) {
    n in s.nodes && n in t.nodes ==>
      forall k | k in s.nodes[n].children :: k in t.nodes[n].children || Settled(t, k)
  }

  /** If a is the call that set its context's error, it moves behind the loop, and what it had to
      do by then is done. */
  ghost predicate SetterEnds(s: State, t: State, a: nat) {
    a in s.calls && a in t.calls && s.calls[a].Cancel? && s.calls[a].c in s.nodes
    && s.nodes[s.calls[a].c].setter == Some(a) ==>
      && Rank(s.calls[a]) >= 2 && s.calls[a].c in t.nodes && TailOk(t, s.calls[a].c)
      && (Rank(s.calls[a]) == 2 < Rank(t.calls[a]) ==>
            forall p | p in t.nodes && t.nodes[p].err.None? :: s.calls[a].c !in t.nodes[p].children)
  }

  lemma LocksQuiet(s: State, t: State, n: nat, a: nat, b: nat)
    requires InvLocks(s) && Later(s, t) && Quiet(s, t, n, a, b)
    ensures InvLocks(t)
  {
    hide Rank;
    forall c | c in t.nodes
      ensures LockOk(t, c)
    {
      if c in s.nodes && s.nodes[c].mu.Some? {
        assert LockOk(s, c);
        HoldsQuiet(s, t, n, a, b, s.nodes[c].mu.value, c);
      }
    }
    forall d | d in t.calls
      ensures HolderOk(t, d)
    {
      if d != a && d != b {
        assert HolderOk(s, d);
        HolderQuiet(s, t, n, a, b, d);
      }
    }
  }

  lemma HoldsQuiet(s: State, t: State, n: nat, a: nat, b: nat, h: nat, c: nat)
    requires Later(s, t) && Quiet(s, t, n, a, b) && Holds(s, h, c)
    ensures Holds(t, h, c)
  {
    hide Rank;
    if s.calls[h].Create? {
      ParentKeeps(s, t, s.calls[h].c, c);
    }
  }

  lemma HolderQuiet(s: State, t: State, n: nat, a: nat, b: nat, d: nat)
    requires Later(s, t) && Quiet(s, t, n, a, b) && d != a && d != b && d in t.calls
    requires d in s.calls && HolderOk(s, d)
    ensures HolderOk(t, d)
  {
    hide Rank;
  }

  /** A call that cancels c now, or has come past its loop. */
  lemma CancelsNowKeeps(s: State, t: State, b: nat, c: nat)
    requires Later(s, t) && InvCalls(t) && CancelsNow(s, b, c)
    ensures CancelsNow(t, b, c) || Settled(t, c)
  {
    assert CallLater(s.calls[b], t.calls[b]);
    assert CallOk(t, b);
  }

  lemma LinkQuiet(s: State, t: State, n: nat, a: nat, b: nat, c: nat, p: nat)
    requires Later(s, t) && InvCalls(t) && Quiet(s, t, n, a, b)
    requires HasMaker(s, c) && p in s.nodes && Linked(s, c, p)
    requires s.nodes[c].maker == a ==> !Fresh(s, c) && !MakerCancels(s, c)
    requires ChildrenStay(s, t, n)
    ensures HasMaker(t, c) && p in t.nodes && Linked(t, c, p)
  {
    hide Settled, CancelsNow, Rank, InvCalls;
    if Settled(s, c) {
      SettledKeeps(s, t, c);
    } else if !Fresh(s, c) && s.nodes[p].err.Some? {
      if Looped(s, c, p) {
        LoopedQuiet(s, t, n, a, b, c, p);
      } else {
        MakerQuiet(s, t, c, a);
      }
    }
  }

  lemma LoopedQuiet(s: State, t: State, n: nat, a: nat, b: nat, c: nat, p: nat)
    requires Later(s, t) && InvCalls(t) && Quiet(s, t, n, a, b) && p in s.nodes && Looped(s, c, p)
    ensures p in t.nodes && (Looped(t, c, p) || Settled(t, c))
  {
    hide Settled, CancelsNow, InvCalls, Rank;
    var at := s.calls[s.nodes[p].mu.value].at;
    if at.wait.Some? && CancelsNow(s, at.wait.value, c) {
      CancelsNowKeeps(s, t, at.wait.value, c);
    }
  }

  lemma MakerQuiet(s: State, t: State, c: nat, a: nat)
    requires Later(s, t) && InvCalls(t) && HasMaker(s, c) && MakerCancels(s, c)
    requires s.nodes[c].maker in t.calls && t.calls[s.nodes[c].maker] == s.calls[s.nodes[c].maker]
    ensures MakerCancels(t, c) || Settled(t, c)
  {
    hide Settled, CancelsNow, InvCalls, Rank;
    match s.calls[s.nodes[c].maker]
    case Create(_, _, POwn(wait)) => CancelsNowKeeps(s, t, wait, c);
    case Create(_, _, PHolding(wait)) => CancelsNowKeeps(s, t, wait, c);
    case _ =>
  }

  /** Linked holds again for all contexts but the one whose constructor moved, which the step
      sees to. */
  lemma LinksQuiet(s: State, t: State, n: nat, a: nat, b: nat)
    requires InvLinks(s) && Later(s, t) && InvNodes(s) && InvCalls(t) && InvNodes(t) && Quiet(s, t, n, a, b)
    requires ChildrenStay(s, t, n)
    requires a in t.calls && t.calls[a].Create? && t.calls[a].c in t.nodes ==> LinkOk(t, t.calls[a].c)
    requires n in t.nodes && n !in s.nodes ==> LinkOk(t, n)
    ensures InvLinks(t)
  {
    hide Later, Quiet, Linked, Settled, InvCalls;
    forall c | c in t.nodes
      ensures LinkOk(t, c)
    {
      LinkAgain(s, t, n, a, b, c);
    }
  }

  lemma LinkAgain(s: State, t: State, n: nat, a: nat, b: nat, c: nat)
    requires InvLinks(s) && Later(s, t) && InvNodes(s) && InvCalls(t) && InvNodes(t)
    requires Quiet(s, t, n, a, b) && c in t.nodes
    requires ChildrenStay(s, t, n)
    requires a in t.calls && t.calls[a].Create? && t.calls[a].c in t.nodes ==> LinkOk(t, t.calls[a].c)
    requires n in t.nodes && n !in s.nodes ==> LinkOk(t, n)
    ensures LinkOk(t, c)
  {
    assert NodeOk(t, c);
    hide Linked, Settled, InvCalls, InvNodes, Rank, SetBy, LocalOk, Ready, Fresh;
    if t.nodes[c].maker != a && c in s.nodes {
      assert LinkOk(s, c);
      if Nearest(s, c).Some? {
        LinkQuiet(s, t, n, a, b, c, Nearest(s, c).value);
      }
    }
  }

  /** A context loses children, its timer, or the choice of its function, and gains nothing. */
  predicate Shrinks(x: Node, y: Node) {
    && y.children <= x.children && (y.timer != NoTimer ==> x.timer != NoTimer)
    && (x.once ==> y.once) && y.kind == x.kind && y.cause == x.cause
  }

  /** Only call a has moved, and what it was to do at the end of its cancellation is done. */
  lemma EndsQuiet(s: State, t: State, n: nat, a: nat, b: nat)
    requires InvEnds(s) && InvNodes(s) && Later(s, t) && Quiet(s, t, n, a, b)
    requires n in t.nodes ==> (n in s.nodes && Shrinks(s.nodes[n], t.nodes[n])) || (ChildrenOk(t, n) && TailOk(t, n))
    requires SetterEnds(s, t, a)
    ensures InvEnds(t)
  {
    hide Holder, SetterEnds;
    forall c | c in t.nodes
      ensures ChildrenOk(t, c) && TailOk(t, c)
    {
      if c != n || (n in s.nodes && Shrinks(s.nodes[n], t.nodes[n])) {
        EndAgain(s, t, n, a, b, c);
      }
    }
  }

  lemma EndAgain(s: State, t: State, n: nat, a: nat, b: nat, c: nat)
    requires InvEnds(s) && InvNodes(s) && Later(s, t) && Quiet(s, t, n, a, b)
    requires SetterEnds(s, t, a)
    requires c in t.nodes && c in s.nodes && Shrinks(s.nodes[c], t.nodes[c])
    ensures ChildrenOk(t, c) && TailOk(t, c)
  {
    assert TailOk(s, c) && NodeOk(s, c);
    ChildrenAgain(s, t, n, a, b, c);
    hide InvEnds, Rank, Holder, LocalOk, Ready, Fresh, ChildrenOk;
    SetterQuiet(s, t, n, a, b, c);
  }

  lemma ChildrenAgain(s: State, t: State, n: nat, a: nat, b: nat, c: nat)
    requires InvEnds(s) && InvNodes(s) && Later(s, t) && Quiet(s, t, n, a, b)
    requires SetterEnds(s, t, a)
    requires c in t.nodes && c in s.nodes && t.nodes[c].children <= s.nodes[c].children
    ensures ChildrenOk(t, c)
  {
    assert ChildrenOk(s, c) && NodeOk(s, c);
    hide InvEnds, Holder, LocalOk, Ready, Fresh, TailOk;
    SetterQuiet(s, t, n, a, b, c);
    forall k | k in t.nodes[c].children && t.nodes[c].err.None?
      ensures k in t.nodes && (t.nodes[k].err.None? || Removing(t, k))
    {
      assert NodeOk(s, k);
      SetterQuiet(s, t, n, a, b, k);
    }
  }

  /** The call that set an error stands where it stood, unless it is the one that moves. */
  lemma SetterQuiet(s: State, t: State, n: nat, a: nat, b: nat, c: nat)
    requires Later(s, t) && Quiet(s, t, n, a, b) && c in s.nodes && NodeOk(s, c)
    ensures c in t.nodes && t.nodes[c].err == s.nodes[c].err && t.nodes[c].setter == s.nodes[c].setter
    ensures s.nodes[c].setter.Some? && s.nodes[c].setter != Some(a) ==>
      s.nodes[c].setter.value in t.calls && t.calls[s.nodes[c].setter.value] == s.calls[s.nodes[c].setter.value]
    ensures s.nodes[c].setter == Some(a) ==> a in t.calls && a in s.calls && s.calls[a].Cancel? && s.calls[a].c == c
    ensures s.nodes[c].setter.Some? <==> s.nodes[c].err.Some?
  {
    hide Rank, Holder;
  }

  // ----- Steps that take or leave a lock -----

  /** Call a moves and holds at most the lock of n; b is new. */
  ghost predicate Locking(s: State, t: State, n: nat, a: nat, b: nat) {
    && Differ(s, t, n, a, b) && n in s.nodes && n in t.nodes && a in s.calls && a in t.calls
    && (b != a ==> b !in s.calls)
    && (forall p | p in s.nodes && p != n :: s.nodes[p].mu != Some(a))
    && (s.calls[a].Create? ==> s.calls[a].c in s.nodes && Nearest(s, s.calls[a].c) == Some(n))
    && (s.calls[a].Cancel? ==> s.calls[a].c == n)
  }

  lemma LinkElsewhere(s: State, t: State, n: nat, a: nat, b: nat, c: nat, p: nat)
    requires Later(s, t) && InvCalls(t) && Locking(s, t, n, a, b)
    requires HasMaker(s, c) && p in s.nodes && p != n && Linked(s, c, p)
    requires s.nodes[c].maker != a
    ensures HasMaker(t, c) && p in t.nodes && Linked(t, c, p)
  {
    hide Settled, CancelsNow, Rank, InvCalls;
    if Settled(s, c) {
      SettledKeeps(s, t, c);
    } else if !Fresh(s, c) && s.nodes[p].err.Some? {
      if Looped(s, c, p) {
        var at := s.calls[s.nodes[p].mu.value].at;
        if at.wait.Some? && CancelsNow(s, at.wait.value, c) {
          CancelsNowKeeps(s, t, at.wait.value, c);
        }
      } else {
        MakerQuiet(s, t, c, a);
      }
    }
  }

  /** The links of the contexts below n, and of the one a creates, are for the step to see to. */
  lemma LinksLocking(s: State, t: State, n: nat, a: nat, b: nat)
    requires InvLinks(s) && InvNodes(s) && Later(s, t) && InvCalls(t) && Locking(s, t, n, a, b)
    requires forall c | c in t.nodes && Nearest(t, c) == Some(n) :: LinkOk(t, c)
    ensures InvLinks(t)
  {
    hide Later, InvCalls, InvNodes, Linked, Settled;
    forall c | c in t.nodes
      ensures LinkOk(t, c)
    {
      if Nearest(t, c) != Some(n) {
        LinkAside(s, t, n, a, b, c);
      }
    }
  }

  lemma LinkAside(s: State, t: State, n: nat, a: nat, b: nat, c: nat)
    requires InvLinks(s) && InvNodes(s) && Later(s, t) && InvCalls(t) && Locking(s, t, n, a, b)
    requires c in t.nodes && Nearest(t, c) != Some(n)
    ensures LinkOk(t, c)
  {
    assert c in s.nodes && NodeOk(s, c);
    hide Linked, Settled, InvCalls, InvNodes, Rank, SetBy, LocalOk, Ready, Fresh;
    assert LinkOk(s, c);
    assert NodeLater(s.nodes[c], t.nodes[c]);
    if Nearest(s, c).Some? {
      LinkElsewhere(s, t, n, a, b, c, Nearest(s, c).value);
    }
  }

  lemma LocksLocking(s: State, t: State, n: nat, a: nat, b: nat)
    requires InvLocks(s) && Later(s, t) && Locking(s, t, n, a, b)
    requires s.nodes[n].mu.None? || s.nodes[n].mu == Some(a)
    requires LockOk(t, n) && HolderOk(t, a) && (b != a && b in t.calls ==> !Holder(t.calls[b]))
    ensures InvLocks(t)
  {
    hide Rank;
    forall c | c in t.nodes
      ensures LockOk(t, c)
    {
      if c != n && s.nodes[c].mu.Some? {
        assert LockOk(s, c);
        HoldsAside(s, t, n, a, b, s.nodes[c].mu.value, c);
      }
    }
    forall d | d in t.calls
      ensures HolderOk(t, d)
    {
      if d != a && d != b {
        assert HolderOk(s, d);
        HolderAside(s, t, n, a, b, d);
      }
    }
  }

  lemma HoldsAside(s: State, t: State, n: nat, a: nat, b: nat, h: nat, c: nat)
    requires Later(s, t) && Locking(s, t, n, a, b) && h != a && Holds(s, h, c)
    ensures Holds(t, h, c)
  {
    hide Rank;
    if s.calls[h].Create? {
      ParentKeeps(s, t, s.calls[h].c, c);
    }
  }

  lemma HolderAside(s: State, t: State, n: nat, a: nat, b: nat, d: nat)
    requires Later(s, t) && Locking(s, t, n, a, b) && d != a && d != b && d in t.calls
    requires d in s.calls && HolderOk(s, d)
    requires s.nodes[n].mu.None? || s.nodes[n].mu == Some(a)
    ensures HolderOk(t, d)
  {
    hide Rank;
  }

  lemma EndsLocking(s: State, t: State, n: nat, a: nat, b: nat)
    requires InvEnds(s) && InvNodes(s) && Later(s, t) && Locking(s, t, n, a, b)
    requires ChildrenOk(t, n) && TailOk(t, n)
    requires forall c | c in s.nodes && s.nodes[c].err.None? && n in s.nodes[c].children ::
               t.nodes[n].err.None? || Removing(t, n)
    ensures InvEnds(t)
  {
    hide Rank;
    forall c | c in t.nodes
      ensures ChildrenOk(t, c) && TailOk(t, c)
    {
      if c != n {
        EndAside(s, t, n, a, b, c);
      }
    }
  }

  lemma EndAside(s: State, t: State, n: nat, a: nat, b: nat, c: nat)
    requires InvEnds(s) && InvNodes(s) && Later(s, t) && Locking(s, t, n, a, b)
    requires forall d | d in s.nodes && s.nodes[d].err.None? && n in s.nodes[d].children ::
               t.nodes[n].err.None? || Removing(t, n)
    requires c in t.nodes && c != n
    ensures ChildrenOk(t, c) && TailOk(t, c)
  {
    assert ChildrenOk(s, c) && TailOk(s, c) && NodeOk(s, c);
    hide InvEnds, Rank, LocalOk, Ready, Fresh;
    SetterAside(s, t, n, a, b, c);
    forall k | k in t.nodes[c].children && t.nodes[c].err.None?
      ensures k in t.nodes && (t.nodes[k].err.None? || Removing(t, k))
    {
      if k != n {
        assert NodeOk(s, k);
        SetterAside(s, t, n, a, b, k);
      }
    }
  }

  lemma SetterAside(s: State, t: State, n: nat, a: nat, b: nat, c: nat)
    requires Later(s, t) && Locking(s, t, n, a, b) && c in s.nodes && c != n && NodeOk(s, c)
    ensures c in t.nodes && t.nodes[c] == s.nodes[c]
    ensures s.nodes[c].setter.Some? ==>
      s.nodes[c].setter.value in s.calls && s.nodes[c].setter.value in t.calls
      && t.calls[s.nodes[c].setter.value] == s.calls[s.nodes[c].setter.value]
    ensures s.nodes[c].setter.Some? <==> s.nodes[c].err.Some?
  {
    hide Rank;
  }
}
