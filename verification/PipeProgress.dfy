/** Progress of the pipe of io/pipe.go: when its calls wait, and that they never run for ever. */
module PipeProgress {
  import opened Basics
  import opened Measures
  import opened Pipe

  // ----- When nothing can move -----

  /** No close call is under way, the pipe is open unless every call has returned, and the calls left
      are all reads at the select statement, or all writes at it or behind the one that is. */
  ghost predicate Waiting(s: State) {
    && (forall c | c in s.closeCalls :: s.closeCalls[c].at.CReturned?)
    && (forall r | r in s.readCalls :: s.readCalls[r].at.RReturned? || (s.readCalls[r].at.RSelect? && !s.done))
    && (forall w | w in s.writeCalls ::
          || s.writeCalls[w].at.WReturned? || (s.writeCalls[w].at.WLock? && s.lock.Some?)
          || (s.writeCalls[w].at.WSelect? && !s.done))
    && (ReadsReturned(s) || WritesReturned(s))
  }

  ghost predicate ReadsReturned(s: State) { forall r | r in s.readCalls :: s.readCalls[r].at.RReturned? }

  ghost predicate WritesReturned(s: State) { forall w | w in s.writeCalls :: s.writeCalls[w].at.WReturned? }

  /** A write beyond the lock has a step of its own or meets a waiting read. */
  lemma WriteMeets(acts: seq<Action>, s: State, w: nat, r: nat) returns (a: Action)
    requires Run(INIT, acts, s) && w in s.writeCalls && r in s.readCalls && s.readCalls[r].at.RSelect?
    requires !s.writeCalls[w].at.WPoll? && !s.writeCalls[w].at.WLock? && !s.writeCalls[w].at.WReturned?
    ensures Progress(a) && Enabled(s, a)
  {
    match s.writeCalls[w].at
    case WSelect(_, _) => a := Send(w, r);
    case WAwait(_, _) =>
      var q := HandoverFinishes(acts, s, w);
      a := Acknowledge(w, q);
    case WLoadWerr(_, _) => a := WriteLoadsWerr(w);
    case WLoadRerr(_, _, _) => a := WriteLoadsRerr(w);
    case WUnlock(_, _) => a := Release(w);
  }

  lemma HolderBeyondLock(acts: seq<Action>, s: State)
    requires Run(INIT, acts, s) && s.lock.Some?
    ensures s.lock.value in s.writeCalls && Holding(s.writeCalls[s.lock.value].at)
  {
    InitInv();
    RunInv(INIT, acts, s);
  }

  lemma ReceiverMeets(acts: seq<Action>, s: State, r: nat) returns (a: Action)
    requires Run(INIT, acts, s) && r in s.readCalls && s.readCalls[r].at.RSend?
    ensures Progress(a) && Enabled(s, a)
  {
    InitInv();
    RunInv(INIT, acts, s);
    a := Acknowledge(s.lock.value, r);
  }

  /** An unfinished read and an unfinished write never wait for each other: some call has a step. */
  lemma PartnersMove(acts: seq<Action>, s: State, r: nat, w: nat) returns (a: Action)
    requires Run(INIT, acts, s)
    requires r in s.readCalls && !s.readCalls[r].at.RReturned?
    requires w in s.writeCalls && !s.writeCalls[w].at.WReturned?
    ensures Progress(a) && Enabled(s, a)
  {
    match s.readCalls[r].at
    case RPoll => a := PollRead(r);
    case RSelect =>
      if s.writeCalls[w].at.WPoll? {
        a := PollWrite(w);
      } else if !s.writeCalls[w].at.WLock? {
        a := WriteMeets(acts, s, w, r);
      } else if s.lock.None? {
        a := Acquire(w);
      } else {
        HolderBeyondLock(acts, s);
        a := WriteMeets(acts, s, s.lock.value, r);
      }
    case RSend(_) => a := ReceiverMeets(acts, s, r);
    case RLoadRerr => a := ReadLoadsRerr(r);
    case RLoadWerr(_) => a := ReadLoadsWerr(r);
  }

  /** No call can move exactly when all that are left wait for a partner that has not been called. */
  lemma StuckExactly(acts: seq<Action>, s: State)
    requires Run(INIT, acts, s)
    ensures (forall a :: Progress(a) ==> !Enabled(s, a)) <==> Waiting(s)
  {
    if forall a :: Progress(a) ==> !Enabled(s, a) {
      StuckWaits(acts, s);
    }
    if Waiting(s) {
      forall a | Progress(a)
        ensures !Enabled(s, a)
      {
      }
    }
  }

  lemma StuckWaits(acts: seq<Action>, s: State)
    requires Run(INIT, acts, s) && forall a :: Progress(a) ==> !Enabled(s, a)
    ensures Waiting(s)
  {
    forall c | c in s.closeCalls
      ensures s.closeCalls[c].at.CReturned?
    {
      assert !Enabled(s, StoreError(c)) && !Enabled(s, CloseDone(c));
    }
    forall r | r in s.readCalls
      ensures s.readCalls[r].at.RReturned? || (s.readCalls[r].at.RSelect? && !s.done)
    {
      if !s.readCalls[r].at.RReturned? && (s.readCalls[r].at.RSelect? ==> s.done) {
        var a := ReadHasStep(acts, s, r);
      }
    }
    forall w | w in s.writeCalls
      ensures s.writeCalls[w].at.WReturned? || (s.writeCalls[w].at.WLock? && s.lock.Some?)
           || (s.writeCalls[w].at.WSelect? && !s.done)
    {
      if !s.writeCalls[w].at.WReturned? && (s.writeCalls[w].at.WLock? ==> s.lock.None?)
         && (s.writeCalls[w].at.WSelect? ==> s.done) {
        var a := WriteHasStep(acts, s, w);
      }
    }
    if r, w :| r in s.readCalls && w in s.writeCalls && !s.readCalls[r].at.RReturned?
               && !s.writeCalls[w].at.WReturned? {
      var a := PartnersMove(acts, s, r, w);
    }
  }

  lemma ReadHasStep(acts: seq<Action>, s: State, r: nat) returns (a: Action)
    requires Run(INIT, acts, s) && r in s.readCalls
    requires !s.readCalls[r].at.RReturned? && (s.readCalls[r].at.RSelect? ==> s.done)
    ensures Progress(a) && Enabled(s, a)
  {
    match s.readCalls[r].at
    case RPoll => a := PollRead(r);
    case RSelect => a := ReadSeesDone(r);
    case RSend(_) => a := ReceiverMeets(acts, s, r);
    case RLoadRerr => a := ReadLoadsRerr(r);
    case RLoadWerr(_) => a := ReadLoadsWerr(r);
  }

  lemma WriteHasStep(acts: seq<Action>, s: State, w: nat) returns (a: Action)
    requires Run(INIT, acts, s) && w in s.writeCalls && !s.writeCalls[w].at.WReturned?
    requires (s.writeCalls[w].at.WLock? ==> s.lock.None?) && (s.writeCalls[w].at.WSelect? ==> s.done)
    ensures Progress(a) && Enabled(s, a)
  {
    match s.writeCalls[w].at
    case WPoll => a := PollWrite(w);
    case WLock => a := Acquire(w);
    case WSelect(_, _) => a := WriteSeesDone(w);
    case WAwait(_, _) =>
      var r := HandoverFinishes(acts, s, w);
      a := Acknowledge(w, r);
    case WLoadWerr(_, _) => a := WriteLoadsWerr(w);
    case WLoadRerr(_, _, _) => a := WriteLoadsRerr(w);
    case WUnlock(_, _) => a := Release(w);
  }

  // ----- Calls never run for ever -----

  function ReadLeft(p: ReadPoint): nat {
    match p
    case RPoll => 11
    case RSelect => 10
    case RSend(_) => 6
    case RLoadRerr => 2
    case RLoadWerr(_) => 1
    case RReturned(_, _) => 0
  }

  /** Every round of a write's loop is paid for by the read it meets. */
  function WriteLeft(p: WritePoint): nat {
    match p
    case WPoll => 9
    case WLock => 8
    case WSelect(_, _) => 7
    case WAwait(_, _) => 8
    case WLoadWerr(_, _) => 3
    case WLoadRerr(_, _, _) => 2
    case WUnlock(_, _) => 1
    case WReturned(_, _) => 0
  }

  function CloseLeft(p: ClosePoint): nat {
    match p
    case CStore => 2
    case CClose => 1
    case CReturned => 0
  }

  function ReadsLeft(calls: map<nat, ReadCall>): map<nat, nat> { map r | r in calls :: ReadLeft(calls[r].at) }

  function WritesLeft(calls: map<nat, WriteCall>): map<nat, nat> { map w | w in calls :: WriteLeft(calls[w].at) }

  function ClosesLeft(calls: map<nat, CloseCall>): map<nat, nat> { map c | c in calls :: CloseLeft(calls[c].at) }

  /** The steps left to the calls whose ids are below n, at most. */
  function Left(s: State, n: nat): nat {
    Total(ReadsLeft(s.readCalls), n) + Total(WritesLeft(s.writeCalls), n) + Total(ClosesLeft(s.closeCalls), n)
  }

  ghost predicate Below(s: State, n: nat) {
    && (forall r | r in s.readCalls :: r < n)
    && (forall w | w in s.writeCalls :: w < n)
    && (forall c | c in s.closeCalls :: c < n)
  }

  lemma ReadMoved(calls: map<nat, ReadCall>, r: nat, c: ReadCall, n: nat)
    requires r in calls && r < n
    ensures Total(ReadsLeft(calls[r := c]), n) == Total(ReadsLeft(calls), n) + ReadLeft(c.at) - ReadLeft(calls[r].at)
  {
    hide ReadLeft;
    assert ReadsLeft(calls[r := c]) == ReadsLeft(calls)[r := ReadLeft(c.at)];
    TotalUpdate(ReadsLeft(calls), r, ReadLeft(c.at), n);
  }

  lemma WriteMoved(calls: map<nat, WriteCall>, w: nat, c: WriteCall, n: nat)
    requires w in calls && w < n
    ensures Total(WritesLeft(calls[w := c]), n)
            == Total(WritesLeft(calls), n) + WriteLeft(c.at) - WriteLeft(calls[w].at)
  {
    hide WriteLeft;
    assert WritesLeft(calls[w := c]) == WritesLeft(calls)[w := WriteLeft(c.at)];
    TotalUpdate(WritesLeft(calls), w, WriteLeft(c.at), n);
  }

  lemma CloseMoved(calls: map<nat, CloseCall>, k: nat, c: CloseCall, n: nat)
    requires k in calls && k < n
    ensures Total(ClosesLeft(calls[k := c]), n)
            == Total(ClosesLeft(calls), n) + CloseLeft(c.at) - CloseLeft(calls[k].at)
  {
    hide CloseLeft;
    assert ClosesLeft(calls[k := c]) == ClosesLeft(calls)[k := CloseLeft(c.at)];
    TotalUpdate(ClosesLeft(calls), k, CloseLeft(c.at), n);
  }

  predicate Meets(a: Action) { a.Send? || a.Acknowledge? }

  predicate Reads(a: Action) { a.PollRead? || a.ReadSeesDone? || a.ReadLoadsRerr? || a.ReadLoadsWerr? }

  predicate Closes(a: Action) { a.StoreError? || a.CloseDone? }

  lemma MeetWorks(s: State, a: Action, n: nat)
    requires Enabled(s, a) && Meets(a) && Below(s, n)
    ensures Left(Step(s, a), n) < Left(s, n)
  {
    hide Total, ReadsLeft, WritesLeft, ClosesLeft;
    var t := Step(s, a);
    ReadMoved(s.readCalls, a.r, t.readCalls[a.r], n);
    WriteMoved(s.writeCalls, a.w, t.writeCalls[a.w], n);
  }

  lemma ReadWorks(s: State, a: Action, n: nat)
    requires Enabled(s, a) && Reads(a) && Below(s, n)
    ensures Left(Step(s, a), n) < Left(s, n)
  {
    hide Total, ReadsLeft, WritesLeft, ClosesLeft;
    ReadMoved(s.readCalls, a.id, Step(s, a).readCalls[a.id], n);
  }

  lemma CloseWorks(s: State, a: Action, n: nat)
    requires Enabled(s, a) && Closes(a) && Below(s, n)
    ensures Left(Step(s, a), n) < Left(s, n)
  {
    hide Total, ReadsLeft, WritesLeft, ClosesLeft;
    CloseMoved(s.closeCalls, a.id, Step(s, a).closeCalls[a.id], n);
  }

  lemma WriteWorks(s: State, a: Action, n: nat)
    requires Enabled(s, a) && Progress(a) && !Meets(a) && !Reads(a) && !Closes(a) && Below(s, n)
    ensures Left(Step(s, a), n) < Left(s, n)
  {
    hide Total, ReadsLeft, WritesLeft, ClosesLeft;
    WriteMoved(s.writeCalls, a.id, Step(s, a).writeCalls[a.id], n);
  }

  lemma StaysBelow(s: State, a: Action, n: nat)
    requires Enabled(s, a) && Progress(a) && Below(s, n)
    ensures Below(Step(s, a), n)
  {
  }

  /** Every step of a call brings all calls nearer to their end. */
  lemma StepWorks(s: State, a: Action, n: nat)
    requires Enabled(s, a) && Progress(a) && Below(s, n)
    ensures Below(Step(s, a), n) && Left(Step(s, a), n) < Left(s, n)
  {
    hide Enabled, Step, Left, Below;
    StaysBelow(s, a, n);
    if Meets(a) {
      MeetWorks(s, a, n);
    } else if Reads(a) {
      ReadWorks(s, a, n);
    } else if Closes(a) {
      CloseWorks(s, a, n);
    } else {
      WriteWorks(s, a, n);
    }
  }

  ghost predicate AllProgress(acts: seq<Action>) { forall i | 0 <= i < |acts| :: Progress(acts[i]) }

  /** Without new calls, the run from any state is no longer than the work left in it. */
  lemma {:induction false} RunsEnd(s: State, acts: seq<Action>, t: State, n: nat)
    requires Run(s, acts, t) && AllProgress(acts) && Below(s, n)
    ensures Below(t, n) && |acts| + Left(t, n) <= Left(s, n)
    decreases |acts|
  {
    if acts != [] {
      hide Enabled, Step, Left, Below;
      assert Progress(acts[0]);
      StepWorks(s, acts[0], n);
      RunsEnd(Step(s, acts[0]), acts[1..], t, n);
    }
  }

  lemma {:induction false} RunMore(s: State, acts: seq<Action>, t: State, a: Action)
    requires Run(s, acts, t) && Enabled(t, a)
    ensures Run(s, acts + [a], Step(t, a))
    decreases |acts|
  {
    hide Enabled, Step;
    if acts == [] {
      assert [a][1..] == [];
    } else {
      RunMore(Step(s, acts[0]), acts[1..], t, a);
      assert (acts + [a])[1..] == acts[1..] + [a];
    }
  }

  /** After done is closed every read and write returns: the calls can be run to their ends, and by
      RunsEnd no order of their steps goes on for ever. */
  lemma {:induction false} AllReturn(acts: seq<Action>, s: State, n: nat) returns (more: seq<Action>, t: State)
    requires Run(INIT, acts, s) && s.done && Below(s, n)
    ensures Run(s, more, t) && AllProgress(more) && ReadsReturned(t) && WritesReturned(t)
    decreases Left(s, n)
  {
    if ReadsReturned(s) && WritesReturned(s) {
      return [], s;
    }
    hide Enabled, Step, Left;
    var a := NobodyStuckAfterClose(acts, s);
    StepWorks(s, a, n);
    RunMore(INIT, acts, s, a);
    StepIsLater(s, a);
    var rest;
    rest, t := AllReturn(acts + [a], Step(s, a), n);
    more := [a] + rest;
    assert more[1..] == rest;
  }
}
