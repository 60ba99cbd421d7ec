/** The cancellation tree of context/context.go as a step machine. A state holds every context and
    every call ever made on one, each call with its program point; an action moves one call.
    Any number of calls run, interleaved in any order. What a call does to one context while it
    holds that context's lock, without calling another, is one action. */
module Context {
  import opened Basics

  datatype Err = Canceled | DeadlineExceeded | Custom(id: nat)

  /** The parent of a context: values are passed through, WithoutCancel cuts the tree. */
  datatype Ctx = Background | Value(parent: Ctx) | WithoutCancel(parent: Ctx) | Of(id: nat)

  /** parent.Value(&cancelCtxKey): the innermost enclosing cancelCtx. */
  function Near(c: Ctx): (p: Option<nat>) {
    match c
    case Background => None
    case Value(parent) => Near(parent)
    case WithoutCancel(_) => None
    case Of(id) => Some(id)
  }

  datatype Kind = CancelKind | TimerKind | AfterKind

  datatype Timer = NoTimer | Armed(cause: Option<Err>) | Fired

  /** A cancelCtx, timerCtx or afterFuncCtx. The done channel is its own when hasChan, and closed
      when err is set; done without hasChan is closedchan. started and stopped count the outcomes of
      AfterFunc. setter and maker are history: the call that set err, and the one that created the
      context. */
  datatype Node = Node(
    kind: Kind,
    parent: Ctx,
    hasChan: bool,
    children: set<nat>,
    err: Option<Err>,
    cause: Option<Err>,
    mu: Option<nat>,
    timer: Timer,
    once: bool,
    started: nat,
    stopped: nat,
    setter: Option<nat>,
    maker: nat)

  /** cancel: the lock, the loop over the children with the call awaited, removeChild, and what
      timerCtx and afterFuncCtx do afterwards. */
  datatype CancelPoint = CLock | CLoop(todo: set<nat>, wait: Option<nat>) | CRemove | CTail | CDone

  /** propagateCancel: parent.Done(), the poll of it, the loads of the parent's error and cause,
      the call for an already cancelled parent, parentCancelCtx, the registration, the call made
      with the parent's lock held, and the goroutine for foreign contexts. Then
      WithDeadlineCause: the check of the deadline, and the call for one that has passed; expired
      says at the end that this was the case. */
  datatype CreatePoint =
    | PGetDone
    | PPoll
    | PReadErr
    | PReadCause(err: Err)
    | POwn(wait: nat)
    | PLookup
    | PRegister
    | PHolding(wait: nat)
    | PWatch
    | PPost
    | PExpired(wait: nat)
    | PDone(expired: bool)

  datatype StopPoint = STry | SWait(wait: nat) | SDone(result: bool)

  /** inherited says that a cancel call passes on the parent's error. */
  datatype Call =
    | Cancel(c: nat, remove: bool, err: Err, cause: Option<Err>, inherited: bool, at: CancelPoint)
    | Create(c: nat, cause: Option<Err>, stage: CreatePoint)
    | Stop(c: nat, phase: StopPoint)

  datatype State = State(nodes: map<nat, Node>, calls: map<nat, Call>)

  const INIT := State(map[], map[])

  datatype Action =
    | NewContext(a: nat, c: nat, kind: Kind, parent: Ctx, deadlineCause: Option<Err>)
    | NewCancel(a: nat, c: nat, cause: Option<Err>)
    | NewStop(a: nat, c: nat)
    | Fire(a: nat, c: nat)
    | Move(a: nat, b: nat, choice: Choice)

  /** What a move may choose: the child to cancel next, or whether the deadline has passed. */
  datatype Choice = Child(id: nat) | Passed(passed: bool)

  // ----- Reading a state -----

  function Nearest(s: State, c: nat): (p: Option<nat>)
    requires c in s.nodes
  {
    Near(s.nodes[c].parent)
  }

  predicate Free(s: State, c: nat) { c in s.nodes && s.nodes[c].mu.None? }

  predicate Finished(call: Call) {
    match call
    case Cancel(_, _, _, _, _, at) => at.CDone?
    case Create(_, _, stage) => stage.PDone?
    case Stop(_, phase) => phase.SDone?
  }

  predicate IsFinished(s: State, a: nat) { a in s.calls && Finished(s.calls[a]) }

  /** The context's constructor has returned. */
  predicate Ready(s: State, c: nat) { c in s.nodes && IsFinished(s, s.nodes[c].maker) }

  /** The deadline had passed at creation: the cancel function returned then does not remove the
      context from its parent. */
  predicate Expired(s: State, c: nat)
    requires c in s.nodes
  {
    var maker := s.nodes[c].maker;
    maker in s.calls && s.calls[maker].Create? && s.calls[maker].stage.PDone? && s.calls[maker].stage.expired
  }

  /** The cause a cancel call sets: its error when none is given. */
  function CauseOf(call: Call): (e: Err)
    requires call.Cancel?
  {
    if call.cause.Some? then call.cause.value else call.err
  }

  // ----- Steps -----

  function SetNode(s: State, c: nat, x: Node): State { s.(nodes := s.nodes[c := x]) }

  function SetCall(s: State, a: nat, x: Call): State { s.(calls := s.calls[a := x]) }

  function At(s: State, a: nat, at: CancelPoint): State
    requires a in s.calls && s.calls[a].Cancel?
  {
    SetCall(s, a, s.calls[a].(at := at))
  }

  function AtStage(s: State, a: nat, stage: CreatePoint): State
    requires a in s.calls && s.calls[a].Create?
  {
    SetCall(s, a, s.calls[a].(stage := stage))
  }

  /** The cancel call a parent makes for a child, with its own error and cause. */
  function Inherit(k: nat, p: Node): (call: Call)
    requires p.err.Some?
  {
    Cancel(k, false, p.err.value, p.cause, true, CLock)
  }

  predicate IsCancel(s: State, a: nat) { a in s.calls && s.calls[a].Cancel? && s.calls[a].c in s.nodes }

  predicate CanMoveCancel(s: State, a: nat, b: nat, choice: Choice)
    requires a in s.calls && s.calls[a].Cancel?
  {
    var call := s.calls[a];
    call.c in s.nodes &&
    var x := s.nodes[call.c];
    match call.at
    case CLock => x.mu.None?
    case CLoop(todo, wait) =>
      && (wait.Some? ==> IsFinished(s, wait.value))
      && x.err.Some? && (todo != {} ==> b !in s.calls && choice.Child? && choice.id in todo)
    case CRemove =>
      call.remove && Nearest(s, call.c).Some? ==>
        var p := Nearest(s, call.c).value;
        p in s.nodes && ((s.nodes[p].err.Some? && !s.nodes[p].hasChan) || s.nodes[p].mu.None?)
    case CTail => x.kind == TimerKind ==> x.mu.None?
    case CDone => false
  }

  /** Already cancelled by another call. */
  function Late(s: State, a: nat): State
    requires IsCancel(s, a)
  {
    At(s, a, if s.nodes[s.calls[a].c].kind == CancelKind then CDone else CRemove)
  }

  /** The first cancel call sets the error, closes done and keeps the lock. */
  function Entered(s: State, a: nat): State
    requires IsCancel(s, a)
  {
    var call := s.calls[a];
    var x := s.nodes[call.c];
    SetCall(SetNode(s, call.c,
      x.(err := Some(call.err), cause := Some(CauseOf(call)), setter := Some(a), mu := Some(a))),
            a, call.(at := CLoop(x.children, None)))
  }

  function ChildCalled(s: State, a: nat, b: nat, k: nat): State
    requires IsCancel(s, a) && s.calls[a].at.CLoop? && s.nodes[s.calls[a].c].err.Some?
  {
    var call := s.calls[a];
    SetCall(At(s, a, CLoop(call.at.todo - {k}, Some(b))), b, Inherit(k, s.nodes[call.c]))
  }

  function LoopDone(s: State, a: nat): State
    requires IsCancel(s, a)
  {
    var c := s.calls[a].c;
    At(SetNode(s, c, s.nodes[c].(children := {}, mu := None)), a, CRemove)
  }

  /** removeChild; parent.Done() may still have to make the channel. */
  function Removed(s: State, a: nat, p: nat): State
    requires IsCancel(s, a) && p in s.nodes
  {
    var y := s.nodes[p];
    At(SetNode(s, p, y.(hasChan := true, children := y.children - {s.calls[a].c})), a, CTail)
  }

  function TimerStopped(s: State, a: nat): State
    requires IsCancel(s, a)
  {
    var c := s.calls[a].c;
    At(SetNode(s, c, s.nodes[c].(timer := NoTimer)), a, CDone)
  }

  function FuncStarted(s: State, a: nat): State
    requires IsCancel(s, a)
  {
    var c := s.calls[a].c;
    At(SetNode(s, c, s.nodes[c].(once := true, started := s.nodes[c].started + 1)), a, CDone)
  }

  function MoveCancel(s: State, a: nat, b: nat, choice: Choice): State
    requires a in s.calls && s.calls[a].Cancel? && CanMoveCancel(s, a, b, choice)
  {
    var call := s.calls[a];
    var x := s.nodes[call.c];
    match call.at
    case CLock => if x.err.Some? then Late(s, a) else Entered(s, a)
    case CLoop(todo, _) => if todo == {} then LoopDone(s, a) else ChildCalled(s, a, b, choice.id)
    case CRemove =>
      if !call.remove || Nearest(s, call.c).None? then At(s, a, CTail)
      else
        var p := Nearest(s, call.c).value;
        if s.nodes[p].err.Some? && !s.nodes[p].hasChan then At(s, a, CTail) else Removed(s, a, p)
    case CTail =>
      match x.kind
      case CancelKind => At(s, a, CDone)
      case TimerKind => TimerStopped(s, a)
      case AfterKind => if x.once then At(s, a, CDone) else FuncStarted(s, a)
  }

  predicate CanMoveCreate(s: State, a: nat, b: nat, choice: Choice)
    requires a in s.calls && s.calls[a].Create?
  {
    var call := s.calls[a];
    call.c in s.nodes &&
    var p := Nearest(s, call.c);
    (p.Some? ==> p.value in s.nodes) &&
    match call.stage
    case PGetDone => p.None? || s.nodes[p.value].hasChan || s.nodes[p.value].err.Some? || s.nodes[p.value].mu.None?
    case PPoll => p.Some?
    case PReadErr => p.Some? && s.nodes[p.value].mu.None? && s.nodes[p.value].err.Some?
    case PReadCause(_) => p.Some? && s.nodes[p.value].mu.None? && b !in s.calls
    case POwn(wait) => IsFinished(s, wait)
    case PLookup => p.Some?
    case PRegister => p.Some? && s.nodes[p.value].mu.None? && b !in s.calls
    case PHolding(wait) => p.Some? && IsFinished(s, wait)
    case PWatch => true
    case PPost =>
      s.nodes[call.c].kind == TimerKind ==>
        choice.Passed? && if choice.passed then b !in s.calls else s.nodes[call.c].mu.None?
    case PExpired(wait) => IsFinished(s, wait)
    case PDone(_) => false
  }

  predicate IsCreate(s: State, a: nat) { a in s.calls && s.calls[a].Create? && s.calls[a].c in s.nodes }

  function ChanMade(s: State, a: nat, p: nat): State
    requires IsCreate(s, a) && p in s.nodes
  {
    AtStage(SetNode(s, p, s.nodes[p].(hasChan := true)), a, PPoll)
  }

  /** The parent was cancelled: the new context is cancelled at once. */
  function OwnCalled(s: State, a: nat, b: nat, err: Err, cause: Option<Err>): State
    requires IsCreate(s, a)
  {
    SetCall(AtStage(s, a, POwn(b)), b, Cancel(s.calls[a].c, false, err, cause, true, CLock))
  }

  function ChildAdded(s: State, a: nat, p: nat): State
    requires IsCreate(s, a) && p in s.nodes
  {
    AtStage(SetNode(s, p, s.nodes[p].(children := s.nodes[p].children + {s.calls[a].c})), a, PPost)
  }

  /** The same, with the parent's lock held. */
  function HoldCalled(s: State, a: nat, b: nat, p: nat): State
    requires IsCreate(s, a) && p in s.nodes && s.nodes[p].err.Some?
  {
    SetCall(AtStage(SetNode(s, p, s.nodes[p].(mu := Some(a))), a, PHolding(b)), b, Inherit(s.calls[a].c, s.nodes[p]))
  }

  function HoldDone(s: State, a: nat, p: nat): State
    requires IsCreate(s, a) && p in s.nodes
  {
    AtStage(SetNode(s, p, s.nodes[p].(mu := None)), a, PPost)
  }

  function ExpiredCalled(s: State, a: nat, b: nat): State
    requires IsCreate(s, a)
  {
    SetCall(AtStage(s, a, PExpired(b)), b, Cancel(s.calls[a].c, true, DeadlineExceeded, s.calls[a].cause, false, CLock))
  }

  function TimerArmed(s: State, a: nat): State
    requires IsCreate(s, a)
  {
    var c := s.calls[a].c;
    AtStage(SetNode(s, c, s.nodes[c].(timer := Armed(s.calls[a].cause))), a, PDone(false))
  }

  function MoveCreate(s: State, a: nat, b: nat, choice: Choice): State
    requires a in s.calls && s.calls[a].Create? && CanMoveCreate(s, a, b, choice)
  {
    var call := s.calls[a];
    var c := call.c;
    var p := Nearest(s, c);
    match call.stage
    case PGetDone =>
      if p.None? then AtStage(s, a, PPost)
      else if s.nodes[p.value].hasChan || s.nodes[p.value].err.Some? then AtStage(s, a, PPoll)
      else ChanMade(s, a, p.value)
    case PPoll => AtStage(s, a, if s.nodes[p.value].err.Some? then PReadErr else PLookup)
    case PReadErr => AtStage(s, a, PReadCause(s.nodes[p.value].err.value))
    case PReadCause(err) => OwnCalled(s, a, b, err, s.nodes[p.value].cause)
    case POwn(_) => AtStage(s, a, PPost)
    case PLookup => AtStage(s, a, if s.nodes[p.value].hasChan then PRegister else PWatch)
    case PRegister => if s.nodes[p.value].err.Some? then HoldCalled(s, a, b, p.value) else ChildAdded(s, a, p.value)
    case PHolding(_) => HoldDone(s, a, p.value)
    case PWatch => AtStage(s, a, PPost)
    case PPost =>
      if s.nodes[c].kind != TimerKind then AtStage(s, a, PDone(false))
      else if choice.passed then ExpiredCalled(s, a, b)
      else if s.nodes[c].err.Some? then AtStage(s, a, PDone(false))
      else TimerArmed(s, a)
    case PExpired(_) => AtStage(s, a, PDone(true))
  }

  predicate CanMoveStop(s: State, a: nat, b: nat)
    requires a in s.calls && s.calls[a].Stop?
  {
    s.calls[a].c in s.nodes &&
    match s.calls[a].phase
    case STry => b !in s.calls
    case SWait(wait) => IsFinished(s, wait)
    case SDone(_) => false
  }

  /** once.Do in the stop function: f will not run, and the context is cancelled. */
  function StopWon(s: State, a: nat, b: nat): State
    requires a in s.calls && s.calls[a].Stop? && s.calls[a].c in s.nodes
  {
    var c := s.calls[a].c;
    var x := s.nodes[c];
    SetCall(SetCall(SetNode(s, c, x.(once := true, stopped := x.stopped + 1)), a, Stop(c, SWait(b))),
            b, Cancel(c, true, Canceled, None, false, CLock))
  }

  function MoveStop(s: State, a: nat, b: nat): State
    requires a in s.calls && s.calls[a].Stop? && CanMoveStop(s, a, b)
  {
    var c := s.calls[a].c;
    match s.calls[a].phase
    case STry => if s.nodes[c].once then SetCall(s, a, Stop(c, SDone(false))) else StopWon(s, a, b)
    case SWait(_) => SetCall(s, a, Stop(c, SDone(true)))
  }

  predicate CanMove(s: State, a: nat, b: nat, choice: Choice) {
    a in s.calls &&
    match s.calls[a]
    case Cancel(_, _, _, _, _, _) => CanMoveCancel(s, a, b, choice)
    case Create(_, _, _) => CanMoveCreate(s, a, b, choice)
    case Stop(_, _) => CanMoveStop(s, a, b)
  }

  function MoveCall(s: State, a: nat, b: nat, choice: Choice): State
    requires CanMove(s, a, b, choice)
  {
    match s.calls[a]
    case Cancel(_, _, _, _, _, _) => MoveCancel(s, a, b, choice)
    case Create(_, _, _) => MoveCreate(s, a, b, choice)
    case Stop(_, _) => MoveStop(s, a, b)
  }

  /** Ids grow, so that a context is younger than its parent. */
  predicate Enabled(s: State, act: Action) {
    match act
    case NewContext(a, c, _, parent, _) =>
      && a !in s.calls && (forall d | d in s.nodes :: d < c)
      && (Near(parent).Some? ==> Ready(s, Near(parent).value) && s.nodes[Near(parent).value].kind != AfterKind)
    case NewCancel(a, c, _) => a !in s.calls && Ready(s, c) && s.nodes[c].kind != AfterKind
    case NewStop(a, c) => a !in s.calls && Ready(s, c) && s.nodes[c].kind == AfterKind
    case Fire(a, c) => a !in s.calls && c in s.nodes && s.nodes[c].timer.Armed?
    case Move(a, b, choice) => CanMove(s, a, b, choice)
  }

  function Step(s: State, act: Action): State
    requires Enabled(s, act)
  {
    match act
    case NewContext(a, c, kind, parent, cause) =>
      SetCall(SetNode(s, c, Node(kind, parent, false, {}, None, None, None, NoTimer, false, 0, 0, None, a)),
              a, Create(c, cause, PGetDone))
    case NewCancel(a, c, cause) =>
      SetCall(s, a,
        Cancel(c, !Expired(s, c), Canceled, if s.nodes[c].kind == TimerKind then None else cause, false, CLock))
    case NewStop(a, c) => SetCall(s, a, Stop(c, STry))
    case Fire(a, c) =>
      var x := s.nodes[c];
      SetCall(SetNode(s, c, x.(timer := Fired)), a, Cancel(c, true, DeadlineExceeded, x.timer.cause, false, CLock))
    case Move(a, b, choice) => MoveCall(s, a, b, choice)
  }

  /** t is reached from s by these actions, in this order. */
  predicate Run(s: State, acts: seq<Action>, t: State)
    decreases |acts|
  {
    if acts == [] then s == t
    else Enabled(s, acts[0]) && Run(Step(s, acts[0]), acts[1..], t)
  }
}
