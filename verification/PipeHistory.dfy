/** What calls on a pipe report, in terms of the actions of a run: which errors are stored and
    returned, how much each hand-over moves, and what calls made after a close can do. */
module PipeHistory {
  import opened Basics
  import opened Pipe

  // ----- The calls are those that were made -----

  /** The error a close of this side without a cause stands for. */
  function DefaultError(side: Side): Error { if side == ReadSide then ErrClosedPipe else EOF }

  /** Close call id was made for this side and with this error, or with none where it is the default. */
  predicate ClosedWith(acts: seq<Action>, id: nat, side: Side, e: Error) {
    StartClose(id, side, Some(e)) in acts || (StartClose(id, side, None) in acts && e == DefaultError(side))
  }

  ghost predicate ReadsMade(acts: seq<Action>, s: State) {
    && (forall id | id in s.readCalls :: StartRead(id, s.readCalls[id].cap) in acts)
    && (forall id, cap | StartRead(id, cap) in acts :: id in s.readCalls && s.readCalls[id].cap == cap)
  }

  ghost predicate WritesMade(acts: seq<Action>, s: State) {
    && (forall id | id in s.writeCalls :: StartWrite(id, s.writeCalls[id].data) in acts)
    && (forall id, data | StartWrite(id, data) in acts :: id in s.writeCalls && s.writeCalls[id].data == data)
  }

  ghost predicate ClosesMade(acts: seq<Action>, s: State) {
    && (forall id | id in s.closeCalls :: ClosedWith(acts, id, s.closeCalls[id].side, s.closeCalls[id].err))
    && (forall id, side, cause | StartClose(id, side, cause) in acts ::
          && id in s.closeCalls && s.closeCalls[id].side == side
          && s.closeCalls[id].err == if cause.Some? then cause.value else DefaultError(side))
  }

  /** A stored error is that of some close call of its side. */
  ghost predicate StoredFrom(acts: seq<Action>, side: Side, stored: Option<Error>) {
    stored.Some? ==> exists id :: ClosedWith(acts, id, side, stored.value)
  }

  /** A hand-over moves what the reader has room for, of what the writer has left. */
  predicate FullSlice(s: State, i: nat)
    requires i < |s.log|
  {
    var h := s.log[i];
    && h.r in s.readCalls && h.w in s.writeCalls
    && |Taken(s.log[..i], h.w)| <= |s.writeCalls[h.w].data|
    && |h.bytes| == Min(s.readCalls[h.r].cap, |s.writeCalls[h.w].data| - |Taken(s.log[..i], h.w)|)
  }

  ghost predicate Sent(s: State, w: nat) { exists i :: 0 <= i < |s.log| && s.log[i].w == w }

  /** The loop of write sends once at least, and again only while bytes are left. */
  ghost predicate LoopOk(s: State, w: nat)
    requires w in s.writeCalls
  {
    match s.writeCalls[w].at
    case WSelect(b, _) => b == [] ==> !Sent(s, w)
    case WAwait(_, _) => Sent(s, w)
    case WUnlock(_, err) => err.None? ==> Sent(s, w)
    case WReturned(_, err) => err.None? ==> Sent(s, w)
    case _ => true
  }

  ghost predicate LoopsOk(s: State) { forall w | w in s.writeCalls :: LoopOk(s, w) }

  ghost predicate Made(acts: seq<Action>, s: State) {
    && ReadsMade(acts, s) && WritesMade(acts, s) && ClosesMade(acts, s)
    && StoredFrom(acts, ReadSide, s.rerr) && StoredFrom(acts, WriteSide, s.werr)
    && (forall i | 0 <= i < |s.log| :: FullSlice(s, i))
    && LoopsOk(s)
  }

  /** Calls keep what they were made with, and only new calls are added. */
  predicate ReadsKept(a: Action, s: State, t: State) {
    && (forall id | id in s.readCalls :: id in t.readCalls && t.readCalls[id].cap == s.readCalls[id].cap)
    && (forall id | id in t.readCalls && id !in s.readCalls :: a == StartRead(id, t.readCalls[id].cap))
    && (a.StartRead? ==> a.id in t.readCalls && t.readCalls[a.id].cap == a.cap)
  }

  predicate WritesKept(a: Action, s: State, t: State) {
    && (forall id | id in s.writeCalls :: id in t.writeCalls && t.writeCalls[id].data == s.writeCalls[id].data)
    && (forall id | id in t.writeCalls && id !in s.writeCalls :: a == StartWrite(id, t.writeCalls[id].data))
    && (a.StartWrite? ==> a.id in t.writeCalls && t.writeCalls[a.id].data == a.data)
  }

  predicate ClosesKept(a: Action, s: State, t: State) {
    && (forall id | id in s.closeCalls :: id in t.closeCalls && SameClose(s.closeCalls[id], t.closeCalls[id]))
    && (forall id | id in t.closeCalls && id !in s.closeCalls :: a.StartClose? && a.id == id)
    && (a.StartClose? ==>
          && a.id in t.closeCalls && t.closeCalls[a.id].side == a.side
          && t.closeCalls[a.id].err == if a.cause.Some? then a.cause.value else DefaultError(a.side))
  }

  predicate SameClose(x: CloseCall, y: CloseCall) { y.side == x.side && y.err == x.err }

  lemma StepReads(s: State, a: Action)
    requires Enabled(s, a)
    ensures ReadsKept(a, s, Step(s, a))
  {
    hide Copied, AfterAck, CloseError, StoreOnce;
  }

  lemma StepWrite(s: State, a: Action, id: nat)
    requires Enabled(s, a)
    ensures var t := Step(s, a);
            && (id in s.writeCalls ==> id in t.writeCalls && t.writeCalls[id].data == s.writeCalls[id].data)
            && (id in t.writeCalls && id !in s.writeCalls ==> a == StartWrite(id, t.writeCalls[id].data))
            && (a.StartWrite? ==> a.id in t.writeCalls && t.writeCalls[a.id].data == a.data)
  {
    hide Copied, AfterAck, CloseError, StoreOnce;
  }

  lemma StepWrites(s: State, a: Action)
    requires Enabled(s, a)
    ensures WritesKept(a, s, Step(s, a))
  {
    hide Step, Enabled;
    forall id: nat
      ensures var t := Step(s, a);
              && (id in s.writeCalls ==> id in t.writeCalls && t.writeCalls[id].data == s.writeCalls[id].data)
              && (id in t.writeCalls && id !in s.writeCalls ==> a == StartWrite(id, t.writeCalls[id].data))
    {
      StepWrite(s, a, id);
    }
    if a.StartWrite? {
      StepWrite(s, a, a.id);
    }
  }

  lemma StepCloses(s: State, a: Action)
    requires Enabled(s, a)
    ensures ClosesKept(a, s, Step(s, a))
  {
    hide Copied, AfterAck, CloseError, StoreOnce;
  }

  lemma StepErrors(s: State, a: Action, acts: seq<Action>)
    requires Enabled(s, a) && ClosesMade(acts, s)
    requires StoredFrom(acts, ReadSide, s.rerr) && StoredFrom(acts, WriteSide, s.werr)
    ensures StoredFrom(acts, ReadSide, Step(s, a).rerr) && StoredFrom(acts, WriteSide, Step(s, a).werr)
  {
    hide ClosedWith;
  }

  lemma StepLog(s: State, a: Action)
    requires Enabled(s, a) && !a.Send?
    ensures Step(s, a).log == s.log
  {
  }

  lemma SendSlice(s: State, w: nat, r: nat)
    requires InvTaken(s) && Enabled(s, Send(w, r))
    ensures var t := Step(s, Send(w, r));
            && |t.log| == |s.log| + 1 && t.log[..|s.log|] == s.log && FullSlice(t, |s.log|)
  {
    SendParts(s, w, r);
    hide Taken, Step, InvTaken;
    var t, n := Step(s, Send(w, r)), |s.log|;
    assert t.log[..n] == s.log && t.log[n].w == w && t.log[n].r == r;
  }

  /** What a hand-over adds to the log. */
  lemma SendParts(s: State, w: nat, r: nat)
    requires InvTaken(s) && Enabled(s, Send(w, r))
    ensures var t := Step(s, Send(w, r));
            && w in s.writeCalls && r in s.readCalls && w in t.writeCalls && r in t.readCalls
            && t.writeCalls[w].data == s.writeCalls[w].data && t.readCalls[r].cap == s.readCalls[r].cap
            && |Taken(s.log, w)| <= |s.writeCalls[w].data|
            && exists bytes :: t.log == s.log + [Handover(w, r, bytes)]
                 && |bytes| == Min(s.readCalls[r].cap, |s.writeCalls[w].data| - |Taken(s.log, w)|)
  {
    hide Taken, CloseError, StoreOnce, AfterAck;
    assert Accounted(s.writeCalls[w], Taken(s.log, w));
    assert Step(s, Send(w, r)).log == s.log + [Handover(w, r, Copied(s.readCalls[r].cap, s.writeCalls[w].at.b))];
  }

  lemma SliceKept(s: State, a: Action, t: State, i: nat)
    requires ReadsKept(a, s, t) && WritesKept(a, s, t) && i < |s.log| <= |t.log| && t.log[..|s.log|] == s.log
    requires FullSlice(s, i)
    ensures FullSlice(t, i)
  {
    hide Taken;
    assert t.log[i] == t.log[..|s.log|][i];
    assert t.log[..i] == t.log[..|s.log|][..i];
  }

  lemma StepSlices(s: State, a: Action)
    requires Enabled(s, a) && InvTaken(s) && forall i | 0 <= i < |s.log| :: FullSlice(s, i)
    ensures var t := Step(s, a); forall i | 0 <= i < |t.log| :: FullSlice(t, i)
  {
    hide Step, Enabled, Taken, InvTaken, ReadsKept, WritesKept, FullSlice;
    var t := Step(s, a);
    StepReads(s, a);
    StepWrites(s, a);
    if a.Send? {
      SendSlice(s, a.w, a.r);
    } else {
      StepLog(s, a);
      assert t.log[..|s.log|] == s.log;
    }
    forall i | 0 <= i < |s.log|
      ensures FullSlice(t, i)
    {
      SliceKept(s, a, t, i);
    }
  }

  lemma SendLoops(s: State, w: nat, r: nat)
    requires LoopsOk(s) && InvLock(s) && Enabled(s, Send(w, r))
    ensures LoopsOk(Step(s, Send(w, r)))
  {
    hide Copied;
    var t := Step(s, Send(w, r));
    assert t.log[|s.log|].w == w;
    assert Holding(s.writeCalls[w].at);
    forall v | v in t.writeCalls
      ensures LoopOk(t, v)
    {
      if v != w {
        SentKept(s, t, v);
        assert LoopOk(s, v);
      }
    }
  }

  lemma SentKept(s: State, t: State, w: nat)
    requires s.log <= t.log && (|t.log| == |s.log| || (|t.log| == |s.log| + 1 && t.log[|s.log|].w != w))
    ensures Sent(s, w) <==> Sent(t, w)
  {
    if Sent(s, w) {
      var i :| 0 <= i < |s.log| && s.log[i].w == w;
      assert t.log[i].w == w;
    }
  }

  lemma LoopStep(s: State, a: Action, v: nat)
    requires Enabled(s, a) && !a.Send? && v in Step(s, a).writeCalls
    requires v in s.writeCalls ==> LoopOk(s, v)
    requires a.Acquire? ==> !Sent(s, a.id)
    ensures LoopOk(Step(s, a), v)
  {
    StepLog(s, a);
    SentKept(s, Step(s, a), v);
    hide Copied, CloseError, StoreOnce, Sent;
  }

  lemma StepLoops(s: State, a: Action)
    requires LoopsOk(s) && InvLock(s) && InvOrder(s) && InvLog(s) && Enabled(s, a)
    ensures LoopsOk(Step(s, a))
  {
    if a.Send? {
      SendLoops(s, a.w, a.r);
    } else {
      if a.Acquire? {
        NothingSent(s, a.id);
      }
      hide Step, Enabled, InvLock, InvOrder, InvLog, LoopOk;
      forall v | v in Step(s, a).writeCalls
        ensures LoopOk(Step(s, a), v)
      {
        LoopStep(s, a, v);
      }
    }
  }

  lemma NothingSent(s: State, w: nat)
    requires InvOrder(s) && InvLog(s) && w in s.writeCalls && s.writeCalls[w].at.WLock?
    ensures !Sent(s, w)
  {
    hide Flat, TakenInOrder;
  }

  lemma MoreReads(acts: seq<Action>, a: Action, s: State, t: State)
    requires ReadsMade(acts, s) && ReadsKept(a, s, t)
    ensures ReadsMade(acts + [a], t)
  {
  }

  lemma MoreWrites(acts: seq<Action>, a: Action, s: State, t: State)
    requires WritesMade(acts, s) && WritesKept(a, s, t)
    ensures WritesMade(acts + [a], t)
  {
  }

  lemma MoreCloses(acts: seq<Action>, a: Action, s: State, t: State)
    requires ClosesMade(acts, s) && ClosesKept(a, s, t)
    ensures ClosesMade(acts + [a], t)
  {
  }

  lemma MoreStored(acts: seq<Action>, a: Action, side: Side, stored: Option<Error>)
    requires StoredFrom(acts, side, stored)
    ensures StoredFrom(acts + [a], side, stored)
  {
    if stored.Some? {
      var id :| ClosedWith(acts, id, side, stored.value);
      assert ClosedWith(acts + [a], id, side, stored.value);
    }
  }

  lemma StepMade(acts: seq<Action>, s: State, a: Action)
    requires Inv(s) && Made(acts, s) && Enabled(s, a)
    ensures Made(acts + [a], Step(s, a))
  {
    hide Structure, InvClose, InvErrors, Step, Enabled, FullSlice, InvTaken, ReadsMade, WritesMade, ClosesMade,
         StoredFrom, LoopsOk, InvLock, InvOrder, InvLog, ReadsKept, WritesKept, ClosesKept;
    var t := Step(s, a);
    StepReads(s, a);
    MoreReads(acts, a, s, t);
    StepWrites(s, a);
    MoreWrites(acts, a, s, t);
    StepCloses(s, a);
    MoreCloses(acts, a, s, t);
    StepErrors(s, a, acts);
    MoreStored(acts, a, ReadSide, t.rerr);
    MoreStored(acts, a, WriteSide, t.werr);
    InvParts(s);
    StepSlices(s, a);
    StepLoops(s, a);
  }

  lemma InvParts(s: State)
    requires Inv(s)
    ensures InvTaken(s) && InvLock(s) && InvOrder(s) && InvLog(s)
  {
  }

  lemma {:induction false} RunMade(past: seq<Action>, s: State, acts: seq<Action>, t: State)
    requires Inv(s) && Made(past, s) && Run(s, acts, t)
    ensures Made(past + acts, t)
    decreases |acts|
  {
    hide Inv, Made, Enabled, Step;
    if acts == [] {
      assert past + acts == past;
    } else {
      StepMade(past, s, acts[0]);
      InvStep(s, acts[0]);
      RunMade(past + [acts[0]], Step(s, acts[0]), acts[1..], t);
      assert past + [acts[0]] + acts[1..] == past + acts;
    }
  }

  lemma NothingMade()
    ensures Made([], INIT)
  {
  }

  lemma FromStart(acts: seq<Action>, s: State)
    requires Run(INIT, acts, s)
    ensures Inv(s) && Made(acts, s)
  {
    hide Inv, Made, Run;
    InitInv();
    RunInv(INIT, acts, s);
    NothingMade();
    RunMade([], INIT, acts, s);
    assert [] + acts == acts;
  }

  // ----- What calls report -----

  /** The errors stored are those given to some close of that side, EOF standing for none on the write
      side and ErrClosedPipe on the read side. */
  lemma StoredErrors(acts: seq<Action>, s: State)
    requires Run(INIT, acts, s)
    ensures s.rerr.Some? ==>
              exists id :: StartClose(id, ReadSide, s.rerr) in acts
                || (StartClose(id, ReadSide, None) in acts && s.rerr == Some(ErrClosedPipe))
    ensures s.werr.Some? ==>
              exists id :: StartClose(id, WriteSide, s.werr) in acts
                || (StartClose(id, WriteSide, None) in acts && s.werr == Some(EOF))
  {
    hide Inv, Run, ReadsMade, WritesMade, ClosesMade, FullSlice, LoopsOk;
    FromStart(acts, s);
    if s.rerr.Some? {
      var id :| ClosedWith(acts, id, ReadSide, s.rerr.value);
    }
    if s.werr.Some? {
      var id :| ClosedWith(acts, id, WriteSide, s.werr.value);
    }
  }

  /** Closing the write side without an error gives readers EOF. */
  lemma PlainClose(acts: seq<Action>, s: State, r: nat)
    requires Run(INIT, acts, s) && s.rerr.None?
    requires forall id, cause | StartClose(id, WriteSide, cause) in acts :: cause.None?
    requires r in s.readCalls && s.readCalls[r].at.RReturned? && s.readCalls[r].at.err.Some?
    ensures s.readCalls[r].at.err == Some(EOF)
  {
    hide Run;
    StoredErrors(acts, s);
    FailuresExplained(acts, s);
  }

  /** Hand-overs are as large as the two slices allow, for the slices the calls were made with. */
  lemma SlicesFull(acts: seq<Action>, s: State, i: nat, cap: nat, data: seq<byte>)
    requires Run(INIT, acts, s) && i < |s.log|
    requires StartRead(s.log[i].r, cap) in acts && StartWrite(s.log[i].w, data) in acts
    ensures var sent := |Taken(s.log[..i], s.log[i].w)|;
            sent <= |data| && |s.log[i].bytes| == Min(cap, |data| - sent)
  {
    hide Run, Inv, Made;
    FromStart(acts, s);
    SliceOf(acts, s, i, cap, data);
  }

  lemma SliceOf(acts: seq<Action>, s: State, i: nat, cap: nat, data: seq<byte>)
    requires Made(acts, s) && i < |s.log|
    requires StartRead(s.log[i].r, cap) in acts && StartWrite(s.log[i].w, data) in acts
    ensures var sent := |Taken(s.log[..i], s.log[i].w)|;
            sent <= |data| && |s.log[i].bytes| == Min(cap, |data| - sent)
  {
    hide Taken, StoredFrom, ClosesMade;
    assert FullSlice(s, i);
  }

  /** A write waits for a reader only while bytes are left, or to send once; it reports success only
      after sending, be its data empty. */
  lemma SendsOnce(acts: seq<Action>, s: State, w: nat)
    requires Run(INIT, acts, s) && w in s.writeCalls
    ensures s.writeCalls[w].at.WSelect? ==> Taken(s.log, w) != s.writeCalls[w].data || !Sent(s, w)
    ensures s.writeCalls[w].at.WReturned? && s.writeCalls[w].at.err.None? ==> Sent(s, w)
  {
    hide Inv, Run, Taken, Made, InvTaken, InvLock, InvOrder, InvLog;
    FromStart(acts, s);
    InvParts(s);
    LoopAndTaken(acts, s, w);
  }

  lemma LoopAndTaken(acts: seq<Action>, s: State, w: nat)
    requires Made(acts, s) && InvTaken(s) && w in s.writeCalls
    ensures LoopOk(s, w)
    ensures s.writeCalls[w].at.WSelect? && Taken(s.log, w) == s.writeCalls[w].data ==> s.writeCalls[w].at.b == []
  {
    hide Taken, ReadsMade, WritesMade, ClosesMade, StoredFrom, FullSlice, LoopOk;
    assert Accounted(s.writeCalls[w], Taken(s.log, w));
  }

  // ----- Calls made after a close -----

  /** A read of this name has not been made, or has been, and can only say ErrClosedPipe. */
  predicate ReadRefused(s: State, r: nat) {
    s.rerr.Some? && (r in s.readCalls ==>
      var p := s.readCalls[r].at;
      (p.RLoadWerr? ==> p.rerr.Some?) && (p.RReturned? && p.err.Some? ==> p.err == Some(ErrClosedPipe)))
  }

  predicate WriteRefused(s: State, w: nat) {
    s.werr.Some? && (w in s.writeCalls ==>
      var p := s.writeCalls[w].at;
      && (p.WLoadRerr? ==> p.werr.Some?)
      && ((p.WReturned? || p.WUnlock?) && p.err.Some? ==> p.err == Some(ErrClosedPipe)))
  }

  lemma StepReadRefused(s: State, a: Action, r: nat)
    requires Enabled(s, a) && ReadRefused(s, r)
    ensures ReadRefused(Step(s, a), r)
  {
    hide Copied, AfterAck;
  }

  lemma StepWriteRefused(s: State, a: Action, w: nat)
    requires Enabled(s, a) && WriteRefused(s, w)
    ensures WriteRefused(Step(s, a), w)
  {
    hide Copied;
  }

  lemma {:induction false} RunRefused(s: State, acts: seq<Action>, t: State, r: nat, w: nat)
    requires Run(s, acts, t)
    ensures ReadRefused(s, r) ==> ReadRefused(t, r)
    ensures WriteRefused(s, w) ==> WriteRefused(t, w)
    decreases |acts|
  {
    hide Enabled, Step, ReadRefused, WriteRefused;
    if acts != [] {
      if ReadRefused(s, r) {
        StepReadRefused(s, acts[0], r);
      }
      if WriteRefused(s, w) {
        StepWriteRefused(s, acts[0], w);
      }
      RunRefused(Step(s, acts[0]), acts[1..], t, r, w);
    }
  }

  /** A read made after its own side's error was stored fails with ErrClosedPipe only, whatever the
      write side says; writes symmetrically. */
  lemma OwnSideFirst(s: State, acts: seq<Action>, t: State)
    requires Run(s, acts, t)
    ensures s.rerr.Some? ==>
              forall r | r in t.readCalls && r !in s.readCalls && t.readCalls[r].at.RReturned? ::
                t.readCalls[r].at.err.Some? ==> t.readCalls[r].at.err == Some(ErrClosedPipe)
    ensures s.werr.Some? ==>
              forall w | w in t.writeCalls && w !in s.writeCalls && t.writeCalls[w].at.WReturned? ::
                t.writeCalls[w].at.err.Some? ==> t.writeCalls[w].at.err == Some(ErrClosedPipe)
  {
    hide Run;
    if s.rerr.Some? {
      forall r | r in t.readCalls && r !in s.readCalls
        ensures ReadRefused(t, r)
      {
        RunRefused(s, acts, t, r, 0);
      }
    }
    if s.werr.Some? {
      forall w | w in t.writeCalls && w !in s.writeCalls
        ensures WriteRefused(t, w)
      {
        RunRefused(s, acts, t, 0, w);
      }
    }
  }

  /** A call that was made at a time when done was closed. */
  predicate LateRead(s: State, r: nat) { s.done && (r in s.readCalls ==> s.readCalls[r].late) }

  predicate LateWrite(s: State, w: nat) { s.done && (w in s.writeCalls ==> s.writeCalls[w].late) }

  lemma StepLate(s: State, a: Action, r: nat, w: nat)
    requires Enabled(s, a)
    ensures LateRead(s, r) ==> LateRead(Step(s, a), r)
    ensures LateWrite(s, w) ==> LateWrite(Step(s, a), w)
  {
    hide Copied;
  }

  lemma {:induction false} RunLate(s: State, acts: seq<Action>, t: State, r: nat, w: nat)
    requires Run(s, acts, t)
    ensures LateRead(s, r) ==> LateRead(t, r)
    ensures LateWrite(s, w) ==> LateWrite(t, w)
    decreases |acts|
  {
    hide Enabled, Step, LateRead, LateWrite;
    if acts != [] {
      StepLate(s, acts[0], r, w);
      RunLate(Step(s, acts[0]), acts[1..], t, r, w);
    }
  }

  lemma {:induction false} RunConcat(s: State, acts: seq<Action>, t: State, more: seq<Action>, u: State)
    requires Run(s, acts, t) && Run(t, more, u)
    ensures Run(s, acts + more, u)
    decreases |acts|
  {
    hide Enabled, Step;
    if acts == [] {
      assert acts + more == more;
    } else {
      RunConcat(Step(s, acts[0]), acts[1..], t, more, u);
      assert (acts + more)[1..] == acts[1..] + more;
    }
  }

  /** Calls made once done is closed move no byte, and return zero and an error. */
  lemma CallsAfterClose(acts: seq<Action>, s: State, more: seq<Action>, t: State)
    requires Run(INIT, acts, s) && s.done && Run(s, more, t)
    ensures forall r | r in t.readCalls && r !in s.readCalls ::
              && (forall i | 0 <= i < |t.log| :: t.log[i].r != r)
              && (t.readCalls[r].at.RReturned? ==> t.readCalls[r].at.got == [] && t.readCalls[r].at.err.Some?)
    ensures forall w | w in t.writeCalls && w !in s.writeCalls ::
              && Taken(t.log, w) == []
              && (t.writeCalls[w].at.WReturned? ==> t.writeCalls[w].at.n == 0 && t.writeCalls[w].at.err.Some?)
  {
    hide Run, Taken;
    RunConcat(INIT, acts, s, more, t);
    LateCallsFail(acts + more, t);
    forall r | r in t.readCalls && r !in s.readCalls
      ensures t.readCalls[r].late
    {
      RunLate(s, more, t, r, 0);
    }
    forall w | w in t.writeCalls && w !in s.writeCalls
      ensures t.writeCalls[w].late
    {
      RunLate(s, more, t, 0, w);
    }
  }
}
