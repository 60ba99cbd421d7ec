/** io/pipe.go as a step machine. A state holds every read, write and close call ever made,
    each with its program point; an action moves one call, or two that meet on an unbuffered
    channel. Any number of calls run, interleaved in any order. */
module Pipe {

  import opened Basics

  datatype Error = EOF | ErrClosedPipe | Other(id: nat)

  /** read: the poll of done, the blocking select, the send on rdCh, and the two loads of
      readCloseError. */
  datatype ReadPoint =
    | RPoll
    | RSelect
    | RSend(got: seq<byte>)
    | RLoadRerr
    | RLoadWerr(rerr: Option<Error>)
    | RReturned(got: seq<byte>, err: Option<Error>)

  /** late records whether done was closed when the call was made. */
  datatype ReadCall = ReadCall(cap: nat, late: bool, at: ReadPoint)

  /** write: b is the part not yet sent, n counts the bytes acknowledged so far, locked says
      whether wrMu is held. */
  datatype WritePoint =
    | WPoll
    | WLock
    | WSelect(b: seq<byte>, n: nat)
    | WAwait(b: seq<byte>, n: nat)
    | WLoadWerr(n: nat, locked: bool)
    | WLoadRerr(n: nat, locked: bool, werr: Option<Error>)
    | WUnlock(n: nat, err: Option<Error>)
    | WReturned(n: nat, err: Option<Error>)

  datatype WriteCall = WriteCall(data: seq<byte>, late: bool, at: WritePoint)

  datatype Side = ReadSide | WriteSide

  datatype ClosePoint = CStore | CClose | CReturned

  datatype CloseCall = CloseCall(side: Side, err: Error, at: ClosePoint)

  /** One slice passed from write w to read r. */
  datatype Handover = Handover(w: nat, r: nat, bytes: seq<byte>)

  /** log and order are history: the hand-overs made, and the writes in the order in which
      they acquired wrMu. */
  datatype State = State(
    done: bool,
    rerr: Option<Error>,
    werr: Option<Error>,
    lock: Option<nat>,
    readCalls: map<nat, ReadCall>,
    writeCalls: map<nat, WriteCall>,
    closeCalls: map<nat, CloseCall>,
    log: seq<Handover>,
    order: seq<nat>)

  const INIT := State(false, None, None, None, map[], map[], map[], [], [])

  datatype Action =
    | StartRead(id: nat, cap: nat)
    | PollRead(id: nat)
    | ReadSeesDone(id: nat)
    | ReadLoadsRerr(id: nat)
    | ReadLoadsWerr(id: nat)
    | StartWrite(id: nat, data: seq<byte>)
    | PollWrite(id: nat)
    | Acquire(id: nat)
    | WriteSeesDone(id: nat)
    | WriteLoadsWerr(id: nat)
    | WriteLoadsRerr(id: nat)
    | Release(id: nat)
    | Send(w: nat, r: nat)
    | Acknowledge(w: nat, r: nat)
    | StartClose(id: nat, side: Side, cause: Option<Error>)
    | StoreError(id: nat)
    | CloseDone(id: nat)

  // ----- Steps -----

  function SetRead(s: State, id: nat, c: ReadCall): State { s.(readCalls := s.readCalls[id := c]) }

  function SetWrite(s: State, id: nat, c: WriteCall): State { s.(writeCalls := s.writeCalls[id := c]) }

  function AtRead(s: State, id: nat, p: ReadPoint): State
    requires id in s.readCalls
  {
    SetRead(s, id, s.readCalls[id].(at := p))
  }

  function AtWrite(s: State, id: nat, p: WritePoint): State
    requires id in s.writeCalls
  {
    SetWrite(s, id, s.writeCalls[id].(at := p))
  }

  function AtClose(s: State, id: nat, p: ClosePoint): State
    requires id in s.closeCalls
  {
    s.(closeCalls := s.closeCalls[id := s.closeCalls[id].(at := p)])
  }

  /** onceError.Store. */
  function StoreOnce(stored: Option<Error>, e: Error): Option<Error> {
    if stored.Some? then stored else Some(e)
  }

  /** readCloseError and writeCloseError, from the two loads in the order each makes them. */
  function CloseError(own: Option<Error>, other: Option<Error>): Error {
    if own.None? && other.Some? then other.value else ErrClosedPipe
  }

  /** What copy(b, bw) moves. */
  function Copied(cap: nat, rest: seq<byte>): seq<byte> { rest[..Min(cap, |rest|)] }

  /** The point after rdCh delivered nw: the loop goes on while bytes remain. */
  function AfterAck(b: seq<byte>, n: nat): WritePoint {
    if |b| > 0 then WSelect(b, n) else WUnlock(n, None)
  }

  predicate Enabled(s: State, a: Action) {
    match a
    case StartRead(id, _) => id !in s.readCalls
    case PollRead(id) => id in s.readCalls && s.readCalls[id].at.RPoll?
    case ReadSeesDone(id) => id in s.readCalls && s.readCalls[id].at.RSelect? && s.done
    case ReadLoadsRerr(id) => id in s.readCalls && s.readCalls[id].at.RLoadRerr?
    case ReadLoadsWerr(id) => id in s.readCalls && s.readCalls[id].at.RLoadWerr?
    case StartWrite(id, _) => id !in s.writeCalls
    case PollWrite(id) => id in s.writeCalls && s.writeCalls[id].at.WPoll?
    case Acquire(id) => id in s.writeCalls && s.writeCalls[id].at.WLock? && s.lock.None?
    case WriteSeesDone(id) => id in s.writeCalls && s.writeCalls[id].at.WSelect? && s.done
    case WriteLoadsWerr(id) => id in s.writeCalls && s.writeCalls[id].at.WLoadWerr?
    case WriteLoadsRerr(id) => id in s.writeCalls && s.writeCalls[id].at.WLoadRerr?
    case Release(id) => id in s.writeCalls && s.writeCalls[id].at.WUnlock?
    case Send(w, r) =>
      w in s.writeCalls && r in s.readCalls && s.writeCalls[w].at.WSelect? && s.readCalls[r].at.RSelect?
    case Acknowledge(w, r) =>
      w in s.writeCalls && r in s.readCalls && s.writeCalls[w].at.WAwait? && s.readCalls[r].at.RSend?
                              && |s.readCalls[r].at.got| <= |s.writeCalls[w].at.b|   // b[nw:] would panic otherwise
    case StartClose(id, _, _) => id !in s.closeCalls
    case StoreError(id) => id in s.closeCalls && s.closeCalls[id].at.CStore?
    case CloseDone(id) => id in s.closeCalls && s.closeCalls[id].at.CClose?
  }

  function Step(s: State, a: Action): State
    requires Enabled(s, a)
  {
    match a
    case StartRead(id, cap) => SetRead(s, id, ReadCall(cap, s.done, RPoll))
    case PollRead(id) => AtRead(s, id, if s.done then RLoadRerr else RSelect)
    case ReadSeesDone(id) => AtRead(s, id, RLoadRerr)
    case ReadLoadsRerr(id) => AtRead(s, id, RLoadWerr(s.rerr))
    case ReadLoadsWerr(id) => AtRead(s, id, RReturned([], Some(CloseError(s.readCalls[id].at.rerr, s.werr))))
    case StartWrite(id, data) => SetWrite(s, id, WriteCall(data, s.done, WPoll))
    case PollWrite(id) => AtWrite(s, id, if s.done then WLoadWerr(0, false) else WLock)
    case Acquire(id) => AtWrite(s, id, WSelect(s.writeCalls[id].data, 0)).(lock := Some(id), order := s.order + [id])
    case WriteSeesDone(id) => AtWrite(s, id, WLoadWerr(s.writeCalls[id].at.n, true))
    case WriteLoadsWerr(id) => AtWrite(s, id, WLoadRerr(s.writeCalls[id].at.n, s.writeCalls[id].at.locked, s.werr))
    case WriteLoadsRerr(id) =>
      var p := s.writeCalls[id].at;
      var err := Some(CloseError(p.werr, s.rerr));
      AtWrite(s, id, if p.locked then WUnlock(p.n, err) else WReturned(p.n, err))
    case Release(id) =>
      AtWrite(s, id, WReturned(s.writeCalls[id].at.n, s.writeCalls[id].at.err)).(lock := None)
    case Send(w, r) =>
      var p := s.writeCalls[w].at;
      var got := Copied(s.readCalls[r].cap, p.b);
      AtRead(AtWrite(s, w, WAwait(p.b, p.n)), r, RSend(got)).(log := s.log + [Handover(w, r, got)])
    case Acknowledge(w, r) =>
      var got, p := s.readCalls[r].at.got, s.writeCalls[w].at;
      AtRead(AtWrite(s, w, AfterAck(p.b[|got|..], p.n + |got|)), r, RReturned(got, None))
    case StartClose(id, side, cause) =>
      var err := if cause.Some? then cause.value else if side == ReadSide then ErrClosedPipe else EOF;
      s.(closeCalls := s.closeCalls[id := CloseCall(side, err, CStore)])
    case StoreError(id) =>
      var c := s.closeCalls[id];
      var t := AtClose(s, id, CClose);
      if c.side == ReadSide then t.(rerr := StoreOnce(s.rerr, c.err)) else t.(werr := StoreOnce(s.werr, c.err))
    case CloseDone(id) => AtClose(s, id, CReturned).(done := true)
  }

  /** t is reached from s by these actions, in this order. */
  predicate Run(s: State, acts: seq<Action>, t: State)
    decreases |acts|
  {
    if acts == [] then s == t
    else Enabled(s, acts[0]) && Run(Step(s, acts[0]), acts[1..], t)
  }

  // ----- History -----

  /** All bytes handed over, in order. */
  function Flat(log: seq<Handover>): seq<byte> {
    if log == [] then [] else Flat(log[..|log| - 1]) + log[|log| - 1].bytes
  }

  /** The bytes taken from one write, in order. */
  function Taken(log: seq<Handover>, w: nat): seq<byte> {
    if log == [] then []
    else Taken(log[..|log| - 1], w) + (if log[|log| - 1].w == w then log[|log| - 1].bytes else [])
  }

  /** The bytes taken from each write of a list, one write after the other. */
  function TakenInOrder(log: seq<Handover>, order: seq<nat>): seq<byte> {
    if order == [] then []
    else TakenInOrder(log, order[..|order| - 1]) + Taken(log, order[|order| - 1])
  }

  // ----- Invariants -----

  /** The points at which a write holds wrMu. */
  predicate Holding(p: WritePoint) {
    match p
    case WSelect(_, _) => true
    case WAwait(_, _) => true
    case WLoadWerr(_, locked) => locked
    case WLoadRerr(_, locked, _) => locked
    case WUnlock(_, _) => true
    case _ => false
  }

  /** The points of a write that has not acquired wrMu and never will, or not yet. */
  predicate Outside(p: WritePoint) {
    match p
    case WPoll => true
    case WLock => true
    case WLoadWerr(_, locked) => !locked
    case WLoadRerr(_, locked, _) => !locked
    case _ => false
  }

  /** wrMu is held by the last write of the acquisition order and by no other. */
  ghost predicate InvLock(s: State) {
    && (s.lock.Some? ==>
          && s.lock.value in s.writeCalls && Holding(s.writeCalls[s.lock.value].at)
          && s.order != [] && s.order[|s.order| - 1] == s.lock.value)
    && (forall w | w in s.writeCalls && Holding(s.writeCalls[w].at) :: s.lock == Some(w))
  }

  /** Each write acquires wrMu at most once. */
  ghost predicate InvOrder(s: State) {
    && (forall i, j | 0 <= i < j < |s.order| :: s.order[i] != s.order[j])
    && (forall w | w in s.order :: w in s.writeCalls && !Outside(s.writeCalls[w].at))
  }

  /** c awaits the acknowledgement of got, a prefix of what it still has to send, and taken is
      what it has counted plus got. */
  predicate Awaits(c: WriteCall, taken: seq<byte>, got: seq<byte>) {
    c.at.WAwait? && got <= c.at.b && c.at.n <= |c.data| && taken == c.data[..c.at.n] + got
  }

  ghost predicate SliceTaken(calls: map<nat, ReadCall>) {
    exists r :: r in calls && calls[r].at.RSend?
  }

  /** A slice is in flight exactly while the holder of wrMu awaits its acknowledgement; one
      reader has it, and got a prefix of what the writer still has to send. */
  ghost predicate InvFlight(s: State) {
    && (forall r | r in s.readCalls && s.readCalls[r].at.RSend? ::
          && s.lock.Some? && s.lock.value in s.writeCalls
          && Awaits(s.writeCalls[s.lock.value], Taken(s.log, s.lock.value), s.readCalls[r].at.got))
    && (forall q, r | q in s.readCalls && r in s.readCalls && s.readCalls[q].at.RSend? && s.readCalls[r].at.RSend? ::
        q == r)
    && (forall w | w in s.writeCalls && s.writeCalls[w].at.WAwait? :: SliceTaken(s.readCalls))
  }

  function Count(p: WritePoint): nat {
    match p
    case WPoll => 0
    case WLock => 0
    case WSelect(_, n) => n
    case WAwait(_, n) => n
    case WLoadWerr(n, _) => n
    case WLoadRerr(n, _, _) => n
    case WUnlock(n, _) => n
    case WReturned(n, _) => n
  }

  function Rest(c: WriteCall): seq<byte> {
    match c.at
    case WSelect(b, _) => b
    case WAwait(b, _) => b
    case _ => c.data[Min(Count(c.at), |c.data|)..]
  }

  /** Outside a hand-over, what a write counts is what was taken from it, a prefix of its
      data; it finishes without error only when everything was taken. */
  predicate Accounted(c: WriteCall, taken: seq<byte>) {
    && Count(c.at) <= |c.data| && Rest(c) == c.data[Count(c.at)..]
    && (!c.at.WAwait? ==> taken == c.data[..Count(c.at)])
    && ((c.at.WUnlock? || c.at.WReturned?) && c.at.err.None? ==> Count(c.at) == |c.data|)
  }

  ghost predicate InvTaken(s: State) {
    forall w | w in s.writeCalls :: Accounted(s.writeCalls[w], Taken(s.log, w))
  }

  /** Reading the log front to back is reading the writes in the order of wrMu. */
  ghost predicate InvLog(s: State) {
    && Flat(s.log) == TakenInOrder(s.log, s.order)
    && (forall i | 0 <= i < |s.log| :: s.log[i].w in s.order)
  }

  /** What a read took, if it took part in a hand-over. */
  function Got(p: ReadPoint): Option<seq<byte>> {
    match p
    case RSend(got) => Some(got)
    case RReturned(got, err) => if err.None? then Some(got) else None
    case _ => None
  }

  /** Hand-overs and successful reads correspond one to one, with the same bytes. */
  ghost predicate InvReads(s: State) {
    && (forall i | 0 <= i < |s.log| ::
        s.log[i].r in s.readCalls && Got(s.readCalls[s.log[i].r].at) == Some(s.log[i].bytes))
    && (forall i, j | 0 <= i < j < |s.log| :: s.log[i].r != s.log[j].r)
    && (forall r | r in s.readCalls && Got(s.readCalls[r].at).Some? :: exists i :: 0 <= i < |s.log| && s.log[i].r == r)
    && (forall r | r in s.readCalls && s.readCalls[r].at.RReturned? && s.readCalls[r].at.err.Some? ::
        s.readCalls[r].at.got == [])
  }

  /** done is closed only after a side stored its error; every close call stores first. */
  ghost predicate InvClose(s: State) {
    && (s.done ==> s.rerr.Some? || s.werr.Some?)
    && (forall c | c in s.closeCalls && !s.closeCalls[c].at.CStore? ::
          if s.closeCalls[c].side == ReadSide then s.rerr.Some? else s.werr.Some?)
    && (forall c | c in s.closeCalls && s.closeCalls[c].at.CReturned? :: s.done)
  }

  /** The error a call on one side may report: its own side's close gives ErrClosedPipe,
      otherwise it is the other side's stored error. */
  predicate Explained(e: Error, own: Option<Error>, other: Option<Error>) {
    (e == ErrClosedPipe && own.Some?) || other == Some(e)
  }

  predicate ReadOk(c: ReadCall, done: bool, rerr: Option<Error>, werr: Option<Error>) {
    && (c.late ==> done && !c.at.RSelect? && Got(c.at).None?)
    && (c.at.RLoadRerr? || c.at.RLoadWerr? ==> done)
    && (c.at.RLoadWerr? ==> if c.at.rerr.None? then werr.Some? else rerr.Some?)
    && (c.at.RReturned? && c.at.err.Some? ==> Explained(c.at.err.value, rerr, werr))
  }

  predicate WriteOk(c: WriteCall, done: bool, rerr: Option<Error>, werr: Option<Error>) {
    && (c.late ==> done && !c.at.WLock? && !Holding(c.at) && Count(c.at) == 0 && (c.at.WReturned? ==> c.at.err.Some?))
    && (c.at.WLoadWerr? || c.at.WLoadRerr? ==> done)
    && (c.at.WLoadRerr? ==> if c.at.werr.None? then rerr.Some? else werr.Some?)
    && ((c.at.WUnlock? || c.at.WReturned?) && c.at.err.Some? ==> Explained(c.at.err.value, werr, rerr))
  }

  /** Calls that meet a closed pipe: late ones transfer nothing, and errors are explained. */
  ghost predicate InvErrors(s: State) {
    && (forall r | r in s.readCalls :: ReadOk(s.readCalls[r], s.done, s.rerr, s.werr))
    && (forall w | w in s.writeCalls :: WriteOk(s.writeCalls[w], s.done, s.rerr, s.werr))
  }

  ghost predicate Structure(s: State) {
    InvLock(s) && InvOrder(s) && InvFlight(s) && InvTaken(s) && InvLog(s) && InvReads(s)
  }

  ghost predicate Inv(s: State) {
    Structure(s) && InvClose(s) && InvErrors(s)
  }

  lemma InitInv()
    ensures Inv(INIT)
  {}

  // ----- Steps of one call that transfer nothing -----

  /** One read moves between points outside a hand-over. */
  predicate ReadSolo(s: State, id: nat, c: ReadCall) {
    && (id in s.readCalls ==> Got(s.readCalls[id].at).None?)
    && Got(c.at).None?
    && (c.at.RReturned? ==> c.at.got == [])
  }

  /** One write moves between points outside a hand-over, its lock status unchanged. */
  predicate WriteSolo(s: State, id: nat, c: WriteCall) {
    && !c.at.WAwait? && (c.at.WUnlock? || c.at.WReturned? ==> c.at.err.Some?)
    && if id in s.writeCalls then SameHold(s.writeCalls[id], c) else c.at == WPoll
  }

  predicate SameHold(b: WriteCall, c: WriteCall) {
    && c.data == b.data && Count(c.at) == Count(b.at) && !b.at.WAwait? && !c.at.WSelect?
    && (Holding(c.at) <==> Holding(b.at)) && (Outside(c.at) ==> Outside(b.at))
  }

  /** Four of the invariants do not look at the reads. */
  lemma WriteSideFrame(s: State, t: State)
    requires InvLock(s) && InvOrder(s) && InvTaken(s) && InvLog(s)
    requires t.lock == s.lock && t.writeCalls == s.writeCalls && t.log == s.log && t.order == s.order
    ensures InvLock(t) && InvOrder(t) && InvTaken(t) && InvLog(t)
  {
    hide Accounted, Holding, Outside, Taken, Flat, TakenInOrder;
  }

  lemma ReadSideFrame(s: State, t: State)
    requires InvLog(s) && InvReads(s)
    requires t.readCalls == s.readCalls && t.log == s.log && t.order == s.order
    ensures InvLog(t) && InvReads(t)
  {
    hide Got, Flat, TakenInOrder;
  }

  lemma ReadSoloKeeps(s: State, id: nat, c: ReadCall)
    requires Structure(s) && ReadSolo(s, id, c)
    ensures Structure(SetRead(s, id, c))
  {
    ReadSoloReads(s, id, c);
    ReadSoloFlight(s, id, c);
    hide InvFlight, InvReads, InvLock, InvOrder, InvTaken, InvLog;
    WriteSideFrame(s, SetRead(s, id, c));
  }

  lemma ReadSoloReads(s: State, id: nat, c: ReadCall)
    requires InvReads(s) && ReadSolo(s, id, c)
    ensures InvReads(SetRead(s, id, c))
  {}

  lemma ReadSoloFlight(s: State, id: nat, c: ReadCall)
    requires InvFlight(s) && ReadSolo(s, id, c)
    ensures InvFlight(SetRead(s, id, c))
  {
    if SliceTaken(s.readCalls) {
      var r :| r in s.readCalls && s.readCalls[r].at.RSend?;
      assert SetRead(s, id, c).readCalls[r].at.RSend?;
    }
    hide Awaits, SliceTaken;
  }

  lemma {:induction false} TakenOutside(log: seq<Handover>, w: nat)
    requires forall i | 0 <= i < |log| :: log[i].w != w
    ensures Taken(log, w) == []
  {
    if log != [] {
      TakenOutside(log[..|log| - 1], w);
    }
  }

  lemma WriteSoloKeeps(s: State, id: nat, c: WriteCall)
    requires Structure(s) && WriteSolo(s, id, c)
    ensures Structure(SetWrite(s, id, c))
  {
    WriteSoloTaken(s, id, c);
    WriteSoloLock(s, id, c);
    WriteSoloFlight(s, id, c);
    hide InvFlight, InvLock, InvOrder, InvTaken, InvLog, InvReads, WriteSolo;
    ReadSideFrame(s, SetWrite(s, id, c));
  }

  lemma WriteSoloTaken(s: State, id: nat, c: WriteCall)
    requires InvTaken(s) && InvLog(s) && InvOrder(s) && WriteSolo(s, id, c)
    ensures InvTaken(SetWrite(s, id, c))
  {
    hide Accounted, Taken, SameHold;
    if id in s.writeCalls {
      SoloAccounted(s.writeCalls[id], c, Taken(s.log, id));
    } else {
      TakenOutside(s.log, id);
      NewAccounted(c);
    }
  }

  lemma NewAccounted(c: WriteCall)
    requires c.at == WPoll
    ensures Accounted(c, [])
  {}

  lemma SoloAccounted(b: WriteCall, c: WriteCall, taken: seq<byte>)
    requires Accounted(b, taken) && SameHold(b, c) && !c.at.WAwait?
    requires c.at.WUnlock? || c.at.WReturned? ==> c.at.err.Some?
    ensures Accounted(c, taken)
  {}

  lemma WriteSoloLock(s: State, id: nat, c: WriteCall)
    requires InvLock(s) && InvOrder(s) && WriteSolo(s, id, c)
    ensures InvLock(SetWrite(s, id, c)) && InvOrder(SetWrite(s, id, c))
  {
    assert !Holding(WPoll);
    hide SliceTaken, Count, Holding, Outside;
  }

  lemma WriteSoloFlight(s: State, id: nat, c: WriteCall)
    requires InvFlight(s) && WriteSolo(s, id, c)
    ensures InvFlight(SetWrite(s, id, c))
  {
    hide Count, Holding, Outside;
  }

  /** A close call touches neither the calls nor the history. */
  lemma CloseSoloKeeps(s: State, t: State)
    requires Structure(s) && t.lock == s.lock && t.readCalls == s.readCalls && t.writeCalls == s.writeCalls
    requires t.log == s.log && t.order == s.order
    ensures Structure(t)
  {
    hide Awaits, Accounted, Got, Holding, Outside;
  }

  // ----- The lock -----

  lemma AcquireKeeps(s: State, id: nat, c: WriteCall)
    requires Structure(s) && id in s.writeCalls && s.writeCalls[id].at.WLock? && s.lock.None?
    requires c == s.writeCalls[id].(at := WSelect(s.writeCalls[id].data, 0))
    ensures Structure(SetWrite(s, id, c).(lock := Some(id), order := s.order + [id]))
  {
    AcquireLock(s, id, c);
    AcquireFlight(s, id, c);
    AcquireTaken(s, id, c);
    AcquireLog(s, id);
    AcquireReads(s, id, c);
    assert InvLog(SetWrite(s, id, c).(lock := Some(id), order := s.order + [id])) by {
      hide InvLock, InvOrder, InvFlight, InvTaken, InvReads, Flat, TakenInOrder;
    }
    hide InvLock, InvOrder, InvFlight, InvTaken, InvLog, InvReads;
  }

  lemma AcquireReads(s: State, id: nat, c: WriteCall)
    requires InvReads(s)
    ensures InvReads(SetWrite(s, id, c).(lock := Some(id), order := s.order + [id]))
  {
    hide Got;
  }

  lemma AcquireLock(s: State, id: nat, c: WriteCall)
    requires InvLock(s) && InvOrder(s) && id in s.writeCalls && s.writeCalls[id].at.WLock? && s.lock.None?
    requires c.at.WSelect?
    ensures id !in s.order
    ensures var t := SetWrite(s, id, c).(lock := Some(id), order := s.order + [id]); InvLock(t) && InvOrder(t)
  {
    assert Holding(c.at) && !Outside(c.at);
    assert Outside(s.writeCalls[id].at);
    hide Holding, Outside;
    assert id !in s.order;
  }

  lemma AcquireFlight(s: State, id: nat, c: WriteCall)
    requires InvFlight(s) && id in s.writeCalls && s.lock.None? && c.at.WSelect?
    ensures InvFlight(SetWrite(s, id, c).(lock := Some(id), order := s.order + [id]))
  {
    hide Awaits;
  }

  lemma AcquireTaken(s: State, id: nat, c: WriteCall)
    requires InvTaken(s) && id in s.writeCalls && s.writeCalls[id].at.WLock?
    requires c == s.writeCalls[id].(at := WSelect(s.writeCalls[id].data, 0))
    ensures InvTaken(SetWrite(s, id, c).(lock := Some(id), order := s.order + [id]))
  {
    hide Accounted, Taken, Rest, Count;
    FreshAccounted(s.writeCalls[id], c, Taken(s.log, id));
  }

  lemma FreshAccounted(b: WriteCall, c: WriteCall, taken: seq<byte>)
    requires Accounted(b, taken) && b.at.WLock? && c == b.(at := WSelect(b.data, 0))
    ensures Accounted(c, taken)
  {}

  lemma AcquireLog(s: State, id: nat)
    requires InvLog(s) && id !in s.order
    ensures InvLog(s.(order := s.order + [id]))
  {
    TakenOutside(s.log, id);
    assert (s.order + [id])[..|s.order|] == s.order;
    hide Flat, Taken;
  }

  lemma ReleaseKeeps(s: State, id: nat, c: WriteCall)
    requires Structure(s) && id in s.writeCalls && s.writeCalls[id].at.WUnlock?
    requires c == s.writeCalls[id].(at := WReturned(s.writeCalls[id].at.n, s.writeCalls[id].at.err))
    ensures Structure(SetWrite(s, id, c).(lock := None))
  {
    ReleaseLock(s, id, c);
    ReleaseTaken(s, id, c);
    hide InvLock, InvOrder, InvFlight, InvTaken, InvLog, InvReads;
    ReadSideFrame(s, SetWrite(s, id, c).(lock := None));
  }

  lemma ReleaseTaken(s: State, id: nat, c: WriteCall)
    requires InvTaken(s) && id in s.writeCalls && s.writeCalls[id].at.WUnlock?
    requires c == s.writeCalls[id].(at := WReturned(s.writeCalls[id].at.n, s.writeCalls[id].at.err))
    ensures InvTaken(SetWrite(s, id, c).(lock := None))
  {
    hide Accounted, Taken, Rest, Count;
    ReleasedAccounted(s.writeCalls[id], c, Taken(s.log, id));
  }

  lemma ReleasedAccounted(b: WriteCall, c: WriteCall, taken: seq<byte>)
    requires Accounted(b, taken) && b.at.WUnlock? && c == b.(at := WReturned(b.at.n, b.at.err))
    ensures Accounted(c, taken)
  {}

  lemma ReleaseLock(s: State, id: nat, c: WriteCall)
    requires InvLock(s) && InvOrder(s) && InvFlight(s)
    requires id in s.writeCalls && s.writeCalls[id].at.WUnlock? && c.at.WReturned?
    ensures var t := SetWrite(s, id, c).(lock := None); InvLock(t) && InvOrder(t) && InvFlight(t)
  {
    assert Holding(s.writeCalls[id].at) && !Holding(c.at) && !Outside(c.at);
    hide Holding, Outside, Awaits;
  }

  // ----- The hand-over -----

  /** Sending moves the writer to its wait and the reader to its acknowledgement. */
  function Sent(s: State, w: nat, r: nat, b: WriteCall, c: ReadCall, got: seq<byte>): State {
    SetRead(SetWrite(s, w, b), r, c).(log := s.log + [Handover(w, r, got)])
  }

  predicate IsSend(s: State, w: nat, r: nat, b: WriteCall, c: ReadCall, got: seq<byte>) {
    && w in s.writeCalls && r in s.readCalls
    && s.writeCalls[w].at.WSelect? && s.readCalls[r].at.RSelect?
    && b == s.writeCalls[w].(at := WAwait(s.writeCalls[w].at.b, s.writeCalls[w].at.n))
    && c == s.readCalls[r].(at := RSend(got))
    && got <= s.writeCalls[w].at.b
  }

  lemma LogGrows(log: seq<Handover>, h: Handover)
    ensures Flat(log + [h]) == Flat(log) + h.bytes
    ensures forall w :: Taken(log + [h], w) == Taken(log, w) + if h.w == w then h.bytes else []
  {
    assert (log + [h])[..|log|] == log;
  }

  lemma SendKeeps(s: State, w: nat, r: nat, b: WriteCall, c: ReadCall, got: seq<byte>)
    requires Structure(s) && IsSend(s, w, r, b, c, got)
    ensures Structure(Sent(s, w, r, b, c, got))
  {
    SendLock(s, w, r, b, c, got);
    SendFlight(s, w, r, b, c, got);
    SendTaken(s, w, r, b, c, got);
    SendLog(s, w, r, b, c, got);
    SendReads(s, w, r, b, c, got);
    hide InvLock, InvOrder, InvFlight, InvTaken, InvLog, InvReads;
  }

  lemma SendLock(s: State, w: nat, r: nat, b: WriteCall, c: ReadCall, got: seq<byte>)
    requires InvLock(s) && InvOrder(s) && IsSend(s, w, r, b, c, got)
    ensures var t := Sent(s, w, r, b, c, got); InvLock(t) && InvOrder(t)
  {
    assert Holding(b.at) && !Outside(b.at);
    hide Holding, Outside;
  }

  /** Before a send no slice is in flight, since the sender holds wrMu and is not waiting. */
  lemma NothingInFlight(s: State, w: nat)
    requires InvLock(s) && InvFlight(s) && w in s.writeCalls && s.writeCalls[w].at.WSelect?
    ensures s.lock == Some(w)
    ensures forall q | q in s.readCalls :: !s.readCalls[q].at.RSend?
    ensures forall v | v in s.writeCalls :: !s.writeCalls[v].at.WAwait?
  {
    assert Holding(s.writeCalls[w].at);
    assert forall v | v in s.writeCalls && s.writeCalls[v].at.WAwait? :: Holding(s.writeCalls[v].at);
  }

  lemma SendFlight(s: State, w: nat, r: nat, b: WriteCall, c: ReadCall, got: seq<byte>)
    requires InvLock(s) && InvFlight(s) && InvTaken(s) && IsSend(s, w, r, b, c, got)
    ensures InvFlight(Sent(s, w, r, b, c, got))
  {
    NothingInFlight(s, w);
    LogGrows(s.log, Handover(w, r, got));
    var t := Sent(s, w, r, b, c, got);
    assert Awaits(b, Taken(t.log, w), got) by {
      assert Accounted(s.writeCalls[w], Taken(s.log, w));
      hide InvLock, InvFlight, InvTaken;
    }
    assert t.readCalls[r].at.RSend?;
    hide Awaits, Taken, InvTaken, InvLock, InvFlight;
    SendFlightAt(s, t, w, r);
  }

  lemma SendFlightAt(s: State, t: State, w: nat, r: nat)
    requires s.lock == Some(w) && t.lock == Some(w) && w in t.writeCalls && r in t.readCalls && t.readCalls[r].at.RSend?
    requires forall q | q in s.readCalls :: !s.readCalls[q].at.RSend?
    requires t.readCalls == s.readCalls[r := t.readCalls[r]]
    requires Awaits(t.writeCalls[w], Taken(t.log, w), t.readCalls[r].at.got)
    ensures InvFlight(t)
  {
    hide Awaits, Taken;
    assert SliceTaken(t.readCalls);
  }

  lemma SendTaken(s: State, w: nat, r: nat, b: WriteCall, c: ReadCall, got: seq<byte>)
    requires InvTaken(s) && IsSend(s, w, r, b, c, got)
    ensures InvTaken(Sent(s, w, r, b, c, got))
  {
    hide Accounted, Taken;
    LogGrows(s.log, Handover(w, r, got));
    var t := Sent(s, w, r, b, c, got);
    SentAccounted(s.writeCalls[w], b, Taken(s.log, w), Taken(t.log, w));
    forall v | v in t.writeCalls
      ensures Accounted(t.writeCalls[v], Taken(t.log, v))
    {
      if v != w {
        assert Taken(t.log, v) == Taken(s.log, v) + [];
        assert t.writeCalls[v] == s.writeCalls[v] && Taken(t.log, v) == Taken(s.log, v);
      }
    }
  }

  lemma SentAccounted(a: WriteCall, b: WriteCall, before: seq<byte>, after: seq<byte>)
    requires Accounted(a, before) && a.at.WSelect? && b == a.(at := WAwait(a.at.b, a.at.n))
    ensures Accounted(b, after)
  {}

  lemma {:induction false} OthersUnaffected(log: seq<Handover>, h: Handover, order: seq<nat>)
    requires h.w !in order
    ensures TakenInOrder(log + [h], order) == TakenInOrder(log, order)
  {
    LogGrows(log, h);
    if order != [] {
      OthersUnaffected(log, h, order[..|order| - 1]);
      assert Taken(log + [h], order[|order| - 1]) == Taken(log, order[|order| - 1]) + [];
    }
  }

  lemma SendLog(s: State, w: nat, r: nat, b: WriteCall, c: ReadCall, got: seq<byte>)
    requires InvLog(s) && InvOrder(s) && InvLock(s) && IsSend(s, w, r, b, c, got)
    ensures InvLog(Sent(s, w, r, b, c, got))
  {
    hide Flat, Taken, TakenInOrder;
    assert Holding(s.writeCalls[w].at);
    var h := Handover(w, r, got);
    assert w !in s.order[..|s.order| - 1];
    LogGrows(s.log, h);
    LastGrows(s.log, h, s.order);
  }

  lemma LastGrows(log: seq<Handover>, h: Handover, order: seq<nat>)
    requires order != [] && order[|order| - 1] == h.w && h.w !in order[..|order| - 1]
    ensures TakenInOrder(log + [h], order) == TakenInOrder(log, order) + h.bytes
  {
    hide Flat, Taken;
    OthersUnaffected(log, h, order[..|order| - 1]);
    LogGrows(log, h);
  }

  lemma SendReads(s: State, w: nat, r: nat, b: WriteCall, c: ReadCall, got: seq<byte>)
    requires InvReads(s) && IsSend(s, w, r, b, c, got)
    ensures InvReads(Sent(s, w, r, b, c, got))
  {
    var t := Sent(s, w, r, b, c, got);
    assert Got(s.readCalls[r].at).None? && Got(c.at) == Some(got);
    hide Got;
    forall q | q in t.readCalls && Got(t.readCalls[q].at).Some?
      ensures exists i :: 0 <= i < |t.log| && t.log[i].r == q
    {
      if q == r {
        assert t.log[|s.log|].r == r;
      } else {
        var i :| 0 <= i < |s.log| && s.log[i].r == q;
        assert t.log[i].r == q;
      }
    }
  }

  /** Acknowledging returns the read and lets the writer go on. */
  function Acknowledged(s: State, w: nat, r: nat, b: WriteCall, c: ReadCall): State {
    SetRead(SetWrite(s, w, b), r, c)
  }

  predicate IsAck(s: State, w: nat, r: nat, b: WriteCall, c: ReadCall) {
    && w in s.writeCalls && r in s.readCalls
    && s.writeCalls[w].at.WAwait? && s.readCalls[r].at.RSend?
    && var p, got := s.writeCalls[w].at, s.readCalls[r].at.got;
    && |got| <= |p.b|
    && b == s.writeCalls[w].(at := AfterAck(p.b[|got|..], p.n + |got|))
    && c == s.readCalls[r].(at := RReturned(got, None))
  }

  lemma AckKeeps(s: State, w: nat, r: nat, b: WriteCall, c: ReadCall)
    requires Structure(s) && IsAck(s, w, r, b, c)
    ensures Structure(Acknowledged(s, w, r, b, c))
  {
    AckLock(s, w, r, b, c);
    AckFlight(s, w, r, b, c);
    AckTaken(s, w, r, b, c);
    AckReads(s, w, r, b, c);
    assert InvLog(Acknowledged(s, w, r, b, c)) by {
      hide InvLock, InvOrder, InvFlight, InvTaken, InvReads, Flat, TakenInOrder;
    }
    hide InvLock, InvOrder, InvFlight, InvTaken, InvLog, InvReads;
  }

  lemma AckLock(s: State, w: nat, r: nat, b: WriteCall, c: ReadCall)
    requires InvLock(s) && InvOrder(s) && IsAck(s, w, r, b, c)
    ensures var t := Acknowledged(s, w, r, b, c); InvLock(t) && InvOrder(t)
  {
    assert Holding(s.writeCalls[w].at) && Holding(b.at) && !Outside(b.at);
    hide Holding, Outside, AfterAck;
  }

  /** The one slice in flight is the one acknowledged. */
  lemma AckFlight(s: State, w: nat, r: nat, b: WriteCall, c: ReadCall)
    requires InvLock(s) && InvFlight(s) && IsAck(s, w, r, b, c)
    ensures InvFlight(Acknowledged(s, w, r, b, c))
  {
    var t := Acknowledged(s, w, r, b, c);
    assert !b.at.WAwait?;
    assert forall v | v in s.writeCalls && s.writeCalls[v].at.WAwait? :: Holding(s.writeCalls[v].at);
    assert forall v | v in t.writeCalls :: !t.writeCalls[v].at.WAwait?;
    assert forall q | q in t.readCalls :: !t.readCalls[q].at.RSend?;
  }

  lemma AckTaken(s: State, w: nat, r: nat, b: WriteCall, c: ReadCall)
    requires InvLock(s) && InvFlight(s) && InvTaken(s) && IsAck(s, w, r, b, c)
    ensures InvTaken(Acknowledged(s, w, r, b, c))
  {
    assert s.lock == Some(w) by { assert Holding(s.writeCalls[w].at); }
    assert Awaits(s.writeCalls[w], Taken(s.log, w), s.readCalls[r].at.got);
    assert Accounted(s.writeCalls[w], Taken(s.log, w));
    AckAccounted(s.writeCalls[w], b, Taken(s.log, w), s.readCalls[r].at.got);
    hide Accounted, Taken, Awaits, InvFlight, InvLock;
  }

  lemma AckAccounted(a: WriteCall, b: WriteCall, taken: seq<byte>, got: seq<byte>)
    requires Awaits(a, taken, got) && Accounted(a, taken)
    requires b == a.(at := AfterAck(a.at.b[|got|..], a.at.n + |got|))
    ensures Accounted(b, taken)
  {
    var n := a.at.n;
    assert a.at.b == a.data[n..];
    assert a.data[..n] + got == a.data[..n + |got|];
    assert a.data[n..][|got|..] == a.data[n + |got|..];
  }

  lemma AckReads(s: State, w: nat, r: nat, b: WriteCall, c: ReadCall)
    requires InvReads(s) && IsAck(s, w, r, b, c)
    ensures InvReads(Acknowledged(s, w, r, b, c))
  {
    assert Got(s.readCalls[r].at) == Got(c.at);
    hide Got;
  }

  // ----- Every step keeps the invariant -----

  lemma StructureStep(s: State, a: Action)
    requires Structure(s) && Enabled(s, a)
    ensures Structure(Step(s, a))
  {
    hide Structure, Step, Enabled;
    match a
    case Acquire(id) => LockStructure(s, a);
    case Release(id) => LockStructure(s, a);
    case Send(w, r) => MeetStructure(s, a);
    case Acknowledge(w, r) => MeetStructure(s, a);
    case StartRead(id, _) => ReadStructure(s, a, id);
    case PollRead(id) => ReadStructure(s, a, id);
    case ReadSeesDone(id) => ReadStructure(s, a, id);
    case ReadLoadsRerr(id) => ReadStructure(s, a, id);
    case ReadLoadsWerr(id) => ReadStructure(s, a, id);
    case StartWrite(id, _) => WriteStructure(s, a, id);
    case PollWrite(id) => WriteStructure(s, a, id);
    case WriteSeesDone(id) => WriteStructure(s, a, id);
    case WriteLoadsWerr(id) => WriteStructure(s, a, id);
    case WriteLoadsRerr(id) => WriteStructure(s, a, id);
    case StartClose(_, _, _) => CloseStructure(s, a);
    case StoreError(_) => CloseStructure(s, a);
    case CloseDone(_) => CloseStructure(s, a);
  }

  lemma CloseStructure(s: State, a: Action)
    requires Structure(s) && Enabled(s, a) && (a.StartClose? || a.StoreError? || a.CloseDone?)
    ensures Structure(Step(s, a))
  {
    hide Structure;
    CloseSoloKeeps(s, Step(s, a));
  }

  predicate ReadAction(a: Action, id: nat) {
    match a
    case StartRead(i, _) => i == id
    case PollRead(i) => i == id
    case ReadSeesDone(i) => i == id
    case ReadLoadsRerr(i) => i == id
    case ReadLoadsWerr(i) => i == id
    case _ => false
  }

  predicate WriteAction(a: Action, id: nat) {
    match a
    case StartWrite(i, _) => i == id
    case PollWrite(i) => i == id
    case WriteSeesDone(i) => i == id
    case WriteLoadsWerr(i) => i == id
    case WriteLoadsRerr(i) => i == id
    case _ => false
  }

  lemma ReadStructure(s: State, a: Action, id: nat)
    requires Structure(s) && Enabled(s, a) && ReadAction(a, id)
    ensures Structure(Step(s, a))
  {
    hide Structure;
    var c := Step(s, a).readCalls[id];
    assert Step(s, a) == SetRead(s, id, c);
    ReadSoloKeeps(s, id, c);
  }

  lemma WriteStructure(s: State, a: Action, id: nat)
    requires Structure(s) && Enabled(s, a) && WriteAction(a, id)
    ensures Structure(Step(s, a))
  {
    hide Structure;
    var c := Step(s, a).writeCalls[id];
    assert Step(s, a) == SetWrite(s, id, c);
    WriteSoloKeeps(s, id, c);
  }

  lemma LockStructure(s: State, a: Action)
    requires Structure(s) && Enabled(s, a) && (a.Acquire? || a.Release?)
    ensures Structure(Step(s, a))
  {
    hide Structure;
    var c := Step(s, a).writeCalls[a.id];
    if a.Acquire? {
      AcquireKeeps(s, a.id, c);
    } else {
      ReleaseKeeps(s, a.id, c);
    }
  }

  lemma MeetStructure(s: State, a: Action)
    requires Structure(s) && Enabled(s, a) && (a.Send? || a.Acknowledge?)
    ensures Structure(Step(s, a))
  {
    hide Structure;
    var t := Step(s, a);
    var b, c := t.writeCalls[a.w], t.readCalls[a.r];
    if a.Send? {
      SendKeeps(s, a.w, a.r, b, c, c.at.got);
    } else {
      AckKeeps(s, a.w, a.r, b, c);
    }
  }

  /** done is never reopened and a stored error is never replaced. */
  predicate Later(s: State, t: State) {
    && (s.done ==> t.done)
    && (s.rerr.Some? ==> t.rerr == s.rerr)
    && (s.werr.Some? ==> t.werr == s.werr)
  }

  lemma StepIsLater(s: State, a: Action)
    requires Enabled(s, a)
    ensures Later(s, Step(s, a))
  {}

  lemma CloseStep(s: State, a: Action)
    requires InvClose(s) && Enabled(s, a)
    ensures InvClose(Step(s, a))
  {
    if !(a.StartClose? || a.StoreError? || a.CloseDone?) {
      CloseSideFrame(s, a);
      hide Step, Enabled;
    } else {
      hide Got, Holding;
    }
  }

  lemma CloseSideFrame(s: State, a: Action)
    requires Enabled(s, a) && !(a.StartClose? || a.StoreError? || a.CloseDone?)
    ensures var t := Step(s, a);
            t.done == s.done && t.rerr == s.rerr && t.werr == s.werr && t.closeCalls == s.closeCalls
  {}

  lemma ErrorsStep(s: State, a: Action)
    requires InvClose(s) && InvErrors(s) && Enabled(s, a)
    ensures InvErrors(Step(s, a))
  {
    var t := Step(s, a);
    StepIsLater(s, a);
    forall r | r in t.readCalls
      ensures ReadOk(t.readCalls[r], t.done, t.rerr, t.werr)
    {
      if r in s.readCalls && t.readCalls[r] == s.readCalls[r] {
        assert ReadOk(s.readCalls[r], s.done, s.rerr, s.werr);
      } else {
        ReadMoves(s, a, r);
      }
    }
    forall w | w in t.writeCalls
      ensures WriteOk(t.writeCalls[w], t.done, t.rerr, t.werr)
    {
      if w in s.writeCalls && t.writeCalls[w] == s.writeCalls[w] {
        assert WriteOk(s.writeCalls[w], s.done, s.rerr, s.werr);
      } else {
        WriteMoves(s, a, w);
      }
    }
  }

  lemma ReadMoves(s: State, a: Action, r: nat)
    requires InvClose(s) && InvErrors(s) && Enabled(s, a)
    requires r in Step(s, a).readCalls && (r in s.readCalls ==> Step(s, a).readCalls[r] != s.readCalls[r])
    ensures var t := Step(s, a); ReadOk(t.readCalls[r], t.done, t.rerr, t.werr)
  {
    if r in s.readCalls {
      assert ReadOk(s.readCalls[r], s.done, s.rerr, s.werr);
    }
    hide InvErrors;
    if ReadAction(a, r) {
      ReadMovesAlone(s, a, r);
    } else {
      hide ReadAction;
    }
  }

  lemma ReadMovesAlone(s: State, a: Action, r: nat)
    requires (s.done ==> s.rerr.Some? || s.werr.Some?) && Enabled(s, a) && ReadAction(a, r)
    requires r in s.readCalls ==> ReadOk(s.readCalls[r], s.done, s.rerr, s.werr)
    ensures var t := Step(s, a); ReadOk(t.readCalls[r], t.done, t.rerr, t.werr)
  {}

  lemma WriteMoves(s: State, a: Action, w: nat)
    requires InvClose(s) && InvErrors(s) && Enabled(s, a)
    requires w in Step(s, a).writeCalls && (w in s.writeCalls ==> Step(s, a).writeCalls[w] != s.writeCalls[w])
    ensures var t := Step(s, a); WriteOk(t.writeCalls[w], t.done, t.rerr, t.werr)
  {
    if w in s.writeCalls {
      assert WriteOk(s.writeCalls[w], s.done, s.rerr, s.werr);
    }
    hide InvErrors;
    if WriteAction(a, w) {
      WriteMovesAlone(s, a, w);
    } else if a.Acquire? || a.Release? || a.Send? || a.Acknowledge? {
      WriteMovesLocked(s, a, w);
    }
  }

  lemma WriteMovesAlone(s: State, a: Action, w: nat)
    requires (s.done ==> s.rerr.Some? || s.werr.Some?) && Enabled(s, a) && WriteAction(a, w)
    requires w in s.writeCalls ==> WriteOk(s.writeCalls[w], s.done, s.rerr, s.werr)
    ensures var t := Step(s, a); WriteOk(t.writeCalls[w], t.done, t.rerr, t.werr)
  {}

  lemma WriteMovesLocked(s: State, a: Action, w: nat)
    requires Enabled(s, a) && (a.Acquire? || a.Release? || a.Send? || a.Acknowledge?)
    requires w in s.writeCalls && WriteOk(s.writeCalls[w], s.done, s.rerr, s.werr)
    ensures var t := Step(s, a); WriteOk(t.writeCalls[w], t.done, t.rerr, t.werr)
  {}

  lemma InvStep(s: State, a: Action)
    requires Inv(s) && Enabled(s, a)
    ensures Inv(Step(s, a))
  {
    hide Structure, InvClose, InvErrors, Step, Enabled;
    StructureStep(s, a);
    CloseStep(s, a);
    ErrorsStep(s, a);
  }

  // ----- Runs -----

  lemma {:induction false} RunInv(s: State, acts: seq<Action>, t: State)
    requires Inv(s) && Run(s, acts, t)
    ensures Inv(t)
    decreases |acts|
  {
    hide Inv, Enabled, Step;
    if acts != [] {
      InvStep(s, acts[0]);
      RunInv(Step(s, acts[0]), acts[1..], t);
    }
  }

  /** In every run, reading the hand-overs in order gives the prefixes taken from the writes,
      one write after the other in the order of wrMu; every hand-over is the result of a read
      of its own; and a returned write reports exactly what was taken from it, all of its
      data if it reports no error. */
  lemma Conservation(acts: seq<Action>, s: State)
    requires Run(INIT, acts, s)
    ensures Flat(s.log) == TakenInOrder(s.log, s.order)
    ensures forall i, j | 0 <= i < j < |s.order| :: s.order[i] != s.order[j]
    ensures forall i | 0 <= i < |s.log| :: s.log[i].w in s.order && s.log[i].r in s.readCalls
              && Got(s.readCalls[s.log[i].r].at) == Some(s.log[i].bytes)
    ensures forall i, j | 0 <= i < j < |s.log| :: s.log[i].r != s.log[j].r
    ensures forall r | r in s.readCalls && s.readCalls[r].at.RReturned? && s.readCalls[r].at.err.None? ::
              exists i :: 0 <= i < |s.log| && s.log[i].r == r
    ensures forall w | w in s.writeCalls && s.writeCalls[w].at.WReturned? ::
              var c := s.writeCalls[w];
              && c.at.n <= |c.data| && Taken(s.log, w) == c.data[..c.at.n]
              && (c.at.err.None? ==> Taken(s.log, w) == c.data)
  {
    InitInv();
    RunInv(INIT, acts, s);
    hide Taken, Flat, TakenInOrder, InvLock, InvFlight, InvErrors, InvClose, InvTaken, InvLog, InvReads, InvOrder,
         Got, Run;
    HistoryFacts(s);
    ReportFacts(s);
  }

  lemma HistoryFacts(s: State)
    requires InvLog(s) && InvOrder(s) && InvReads(s)
    ensures Flat(s.log) == TakenInOrder(s.log, s.order)
    ensures forall i, j | 0 <= i < j < |s.order| :: s.order[i] != s.order[j]
    ensures forall i | 0 <= i < |s.log| :: s.log[i].w in s.order && s.log[i].r in s.readCalls
              && Got(s.readCalls[s.log[i].r].at) == Some(s.log[i].bytes)
    ensures forall i, j | 0 <= i < j < |s.log| :: s.log[i].r != s.log[j].r
    ensures forall r | r in s.readCalls && s.readCalls[r].at.RReturned? && s.readCalls[r].at.err.None? ::
              exists i :: 0 <= i < |s.log| && s.log[i].r == r
  {
    hide Flat, TakenInOrder;
  }

  lemma ReportFacts(s: State)
    requires InvTaken(s)
    ensures forall w | w in s.writeCalls && s.writeCalls[w].at.WReturned? ::
              var c := s.writeCalls[w];
              && c.at.n <= |c.data| && Taken(s.log, w) == c.data[..c.at.n]
              && (c.at.err.None? ==> Taken(s.log, w) == c.data)
  {
    forall w | w in s.writeCalls && s.writeCalls[w].at.WReturned?
      ensures var c := s.writeCalls[w];
              && c.at.n <= |c.data| && Taken(s.log, w) == c.data[..c.at.n]
              && (c.at.err.None? ==> Taken(s.log, w) == c.data)
    {
      assert Accounted(s.writeCalls[w], Taken(s.log, w));
    }
  }

  /** At most one slice is in flight. */
  lemma OneInFlight(acts: seq<Action>, s: State, v: nat, w: nat)
    requires Run(INIT, acts, s)
    requires v in s.writeCalls && w in s.writeCalls && s.writeCalls[v].at.WAwait? && s.writeCalls[w].at.WAwait?
    ensures v == w
  {
    InitInv();
    RunInv(INIT, acts, s);
    assert Holding(s.writeCalls[v].at) && Holding(s.writeCalls[w].at);
    hide InvOrder, InvFlight, InvTaken, InvLog, InvReads, InvErrors, InvClose;
  }

  /** A hand-over begun on wrCh can finish on rdCh, whether or not done has been closed: one
      reader, and only one, can acknowledge, and slicing off what it took cannot panic. */
  lemma HandoverFinishes(acts: seq<Action>, s: State, w: nat) returns (r: nat)
    requires Run(INIT, acts, s) && w in s.writeCalls && s.writeCalls[w].at.WAwait?
    ensures Enabled(s, Acknowledge(w, r))
    ensures forall q | q in s.readCalls && s.readCalls[q].at.RSend? :: q == r
  {
    InitInv();
    RunInv(INIT, acts, s);
    hide InvOrder, InvTaken, InvLog, InvReads, InvErrors, InvClose, InvFlight, InvLock;
    r := TheReceiver(s, w);
  }

  lemma TheReceiver(s: State, w: nat) returns (r: nat)
    requires InvLock(s) && InvFlight(s) && w in s.writeCalls && s.writeCalls[w].at.WAwait?
    ensures Enabled(s, Acknowledge(w, r))
    ensures forall q | q in s.readCalls && s.readCalls[q].at.RSend? :: q == r
  {
    assert Holding(s.writeCalls[w].at);
    hide Taken, Holding;
    r :| r in s.readCalls && s.readCalls[r].at.RSend?;
    assert Awaits(s.writeCalls[w], Taken(s.log, w), s.readCalls[r].at.got);
  }

  /** A call made after done was closed transfers nothing and can only return an error. */
  lemma LateCallsFail(acts: seq<Action>, s: State)
    requires Run(INIT, acts, s)
    ensures forall r | r in s.readCalls && s.readCalls[r].late ::
              && (forall i | 0 <= i < |s.log| :: s.log[i].r != r)
              && (s.readCalls[r].at.RReturned? ==> s.readCalls[r].at.got == [] && s.readCalls[r].at.err.Some?)
    ensures forall w | w in s.writeCalls && s.writeCalls[w].late ::
              && Taken(s.log, w) == []
              && (s.writeCalls[w].at.WReturned? ==> s.writeCalls[w].at.n == 0 && s.writeCalls[w].at.err.Some?)
  {
    InitInv();
    RunInv(INIT, acts, s);
    hide InvLock, InvOrder, InvFlight, InvLog, InvClose, Taken, Explained;
    forall w | w in s.writeCalls && s.writeCalls[w].late
      ensures Taken(s.log, w) == []
      ensures s.writeCalls[w].at.WReturned? ==> s.writeCalls[w].at.n == 0 && s.writeCalls[w].at.err.Some?
    {
      assert WriteOk(s.writeCalls[w], s.done, s.rerr, s.werr);
      assert Accounted(s.writeCalls[w], Taken(s.log, w));
    }
    forall r | r in s.readCalls && s.readCalls[r].late
      ensures forall i | 0 <= i < |s.log| :: s.log[i].r != r
      ensures s.readCalls[r].at.RReturned? ==> s.readCalls[r].at.got == [] && s.readCalls[r].at.err.Some?
    {
      assert ReadOk(s.readCalls[r], s.done, s.rerr, s.werr);
    }
  }

  /** The errors reported: a failed read says ErrClosedPipe only if the read side was closed,
      and otherwise the write side's error; writes symmetrically. */
  lemma FailuresExplained(acts: seq<Action>, s: State)
    requires Run(INIT, acts, s)
    ensures forall r | r in s.readCalls && s.readCalls[r].at.RReturned? && s.readCalls[r].at.err.Some? ::
              && s.readCalls[r].at.got == []
              && (if s.rerr.None? then s.werr == s.readCalls[r].at.err
                  else s.readCalls[r].at.err == Some(ErrClosedPipe) || s.readCalls[r].at.err == s.werr)
    ensures forall w | w in s.writeCalls && s.writeCalls[w].at.WReturned? && s.writeCalls[w].at.err.Some? ::
              if s.werr.None? then s.rerr == s.writeCalls[w].at.err
              else s.writeCalls[w].at.err == Some(ErrClosedPipe) || s.writeCalls[w].at.err == s.rerr
  {
    InitInv();
    RunInv(INIT, acts, s);
    hide InvLock, InvOrder, InvFlight, InvTaken, InvLog, InvClose;
    forall r | r in s.readCalls
      ensures ReadOk(s.readCalls[r], s.done, s.rerr, s.werr)
    {}
    forall w | w in s.writeCalls
      ensures WriteOk(s.writeCalls[w], s.done, s.rerr, s.werr)
    {}
  }

  /** Over any run each side's first stored error stays, and done stays closed. */
  lemma {:induction false} ErrorsStay(s: State, acts: seq<Action>, t: State)
    requires Run(s, acts, t)
    ensures Later(s, t)
    decreases |acts|
  {
    hide Enabled, Step;
    if acts != [] {
      StepIsLater(s, acts[0]);
      ErrorsStay(Step(s, acts[0]), acts[1..], t);
    }
  }

  /** Steps that make no new call. */
  predicate Progress(a: Action) { !a.StartRead? && !a.StartWrite? && !a.StartClose? }

  /** Once done is closed no call is stuck: while a read or a write has not returned, some
      call can take a step. */
  lemma NobodyStuckAfterClose(acts: seq<Action>, s: State) returns (a: Action)
    requires Run(INIT, acts, s) && s.done
    requires (exists r :: r in s.readCalls && !s.readCalls[r].at.RReturned?)
          || (exists w :: w in s.writeCalls && !s.writeCalls[w].at.WReturned?)
    ensures Progress(a) && Enabled(s, a)
  {
    InitInv();
    RunInv(INIT, acts, s);
    if r :| r in s.readCalls && !s.readCalls[r].at.RReturned? {
      match s.readCalls[r].at
      case RPoll => a := PollRead(r);
      case RSelect => a := ReadSeesDone(r);
      case RSend(_) => a := Acknowledge(s.lock.value, r);
      case RLoadRerr => a := ReadLoadsRerr(r);
      case RLoadWerr(_) => a := ReadLoadsWerr(r);
    } else {
      var w :| w in s.writeCalls && !s.writeCalls[w].at.WReturned?;
      match s.writeCalls[w].at
      case WPoll => a := PollWrite(w);
      case WLock =>
        if s.lock.None? {
          a := Acquire(w);
        } else {
          a := HolderMoves(acts, s);
        }
      case WSelect(_, _) => a := WriteSeesDone(w);
      case WAwait(_, _) =>
        var r := HandoverFinishes(acts, s, w);
        a := Acknowledge(w, r);
      case WLoadWerr(_, _) => a := WriteLoadsWerr(w);
      case WLoadRerr(_, _, _) => a := WriteLoadsRerr(w);
      case WUnlock(_, _) => a := Release(w);
    }
  }

  /** After done is closed the holder of wrMu always has a step to take. */
  lemma HolderMoves(acts: seq<Action>, s: State) returns (a: Action)
    requires Run(INIT, acts, s) && s.done && s.lock.Some?
    ensures Progress(a) && Enabled(s, a)
  {
    InitInv();
    RunInv(INIT, acts, s);
    var w := s.lock.value;
    match s.writeCalls[w].at
    case WSelect(_, _) => a := WriteSeesDone(w);
    case WAwait(_, _) =>
      var r := HandoverFinishes(acts, s, w);
      a := Acknowledge(w, r);
    case WLoadWerr(_, _) => a := WriteLoadsWerr(w);
    case WLoadRerr(_, _, _) => a := WriteLoadsRerr(w);
    case WUnlock(_, _) => a := Release(w);
    case _ => assert false; a := Release(w);
  }
}
