/** Detection beside a running program (golf/src/runtime/mgc.go and mgcmark.go): the collector scans
    globals, stacks and objects while goroutines run, the write barrier of mbarrier.go fills a
    buffer, and deadlocks are looked for in short pauses. */
module ConcurrentMark {
  import opened Basics
  import opened PartialDeadlock
  import Golf

  /** listed are the goroutines of the snapshot, roots those found awake so far, and scanned those
      whose stack is black. A buffered object has been shaded by the barrier and is not marked yet. */
  datatype State = State(
    p: Program,
    listed: set<nat>,
    roots: set<nat>,
    scanned: set<nat>,
    globalsDone: bool,
    marked: set<nat>,
    grey: set<nat>,
    buffered: set<nat>,
    reported: Option<set<nat>>)

  function Start(p: Program, listed: set<nat>, roots: set<nat>): State {
    State(p, listed, roots, {}, false, {}, {}, {}, None)
  }

  datatype Move =
    | Mutate(a: Action, shaded: set<nat>)
    | Flush(o: nat)
    | ScanGlobals
    | ScanStack(g: nat)
    | ScanObject(o: nat)
    | Discover(g: nat)
    | Detect

  // ----- The write barrier -----

  /** A pointer written is shaded while the stack of the goroutine is grey. */
  function Inserted(s: State, g: nat, os: set<nat>): set<nat> { if g in s.scanned then {} else os }

  /** What a step of the program has to put into the buffer: pointers overwritten, pointers written,
      and what is copied from one stack to another. */
  function Shaded(s: State, a: Action): set<nat>
    requires PartialDeadlock.Enabled(s.p, a)
  {
    match a
    case Store(g, _, o) => Inserted(s, g, {o})
    case StoreGlobal(g, o) => Inserted(s, g, {o})
    case Erase(_, into, o) => s.p.heap[into] * {o}
    case EraseGlobal(_, o) => s.p.globals * {o}
    case Spawn(g, _, stack) => Inserted(s, g, stack)
    case Operate(_, _, _, given, taken) => given + taken
    case _ => {}
  }

  /** What it may put there: the implementation shades both pointers whatever the colour of the
      stack. */
  function Shadeable(p: Program, a: Action): set<nat>
    requires PartialDeadlock.Enabled(p, a)
  {
    match a
    case Store(_, into, o) => p.heap[into] + {o}
    case StoreGlobal(_, o) => p.globals + {o}
    case Erase(_, into, _) => p.heap[into]
    case EraseGlobal(_, _) => p.globals
    case Spawn(_, _, stack) => stack
    case Operate(_, _, _, given, taken) => given + taken
    case _ => {}
  }

  /** A new object is marked, and a new goroutine has nothing left to scan. */
  function Mutated(s: State, a: Action, shaded: set<nat>): State
    requires PartialDeadlock.Enabled(s.p, a)
  {
    var t := s.(p := PartialDeadlock.Step(s.p, a), buffered := s.buffered + shaded);
    match a
    case Alloc(_, o) => t.(marked := s.marked + {o})
    case Spawn(_, h, _) => t.(scanned := s.scanned + {h})
    case _ => t
  }

  // ----- The collector -----

  function Mark(s: State, os: set<nat>): State { s.(marked := s.marked + os, grey := s.grey + (os - s.marked)) }

  /** Blocked on unmarked objects only. */
  predicate Asleep(s: State, g: nat) {
    g in s.p.threads && s.p.threads[g].wait.Blocked? && s.p.threads[g].wait.on !! s.marked
  }

  function Awake(s: State): set<nat> { set g | g in s.listed && !Asleep(s, g) }

  predicate WorkLeft(s: State) {
    s.grey != {} || s.buffered != {} || !s.globalsDone || !(s.roots <= s.scanned)
  }

  predicate Enabled(s: State, m: Move) {
    s.reported.None? &&
    match m
    case Mutate(a, shaded) =>
      PartialDeadlock.Enabled(s.p, a) && Shaded(s, a) <= shaded <= Shadeable(s.p, a)
    case Flush(o) => o in s.buffered
    case ScanGlobals => !s.globalsDone
    case ScanStack(g) => g in s.roots
    case ScanObject(o) => o in s.grey && o in s.p.heap
    case Discover(g) => g in Awake(s)
    case Detect => !WorkLeft(s)
  }

  /** A pause either finds more goroutines awake, which become roots, or reports the others. */
  function Step(s: State, m: Move): State
    requires Enabled(s, m)
  {
    match m
    case Mutate(a, shaded) => Mutated(s, a, shaded)
    case Flush(o) => Mark(s.(buffered := s.buffered - {o}), {o})
    case ScanGlobals => Mark(s, s.p.globals).(globalsDone := true)
    case ScanStack(g) =>
      Mark(s, if g in s.p.threads then s.p.threads[g].stack else {}).(scanned := s.scanned + {g})
    case ScanObject(o) => Mark(s.(grey := s.grey - {o}), s.p.heap[o])
    case Discover(g) => s.(roots := s.roots + {g})
    case Detect =>
      if Awake(s) <= s.roots then s.(reported := Some(s.listed - s.roots)) else s.(roots := s.roots + Awake(s))
  }

  predicate Run(s: State, moves: seq<Move>, t: State)
    decreases |moves|
  {
    if moves == [] then s == t else Enabled(s, moves[0]) && Run(Step(s, moves[0]), moves[1..], t)
  }

  /** For goroutines that wait, Asleep is what stackRootValid refuses; of the others, only those
      reported before, which are roots from the start, never run. */
  lemma AsleepIsInvalid(h: Golf.Heap, gs: map<nat, Golf.G>, s: State, g: nat)
    requires Golf.HeapOk(h) && g in gs && s.p == Golf.ProgramOf(h, gs)
    ensures gs[g].status.Waiting? ==> (Asleep(s, g) <==> !Golf.StackRootValid(h, s.marked, gs[g]))
    ensures !gs[g].status.Waiting? ==> (Asleep(s, g) <==> gs[g].status.Deadlocked?)
    ensures !Golf.IsBlocked(gs[g]) && !gs[g].status.Deadlocked? ==> !Asleep(s, g)
  {
    hide Golf.GcUnmask, Golf.HeapOk;
    var gp := gs[g];
    if gp.status.Waiting? {
      if Golf.StackRootValid(h, s.marked, gp) {
        ValidMaybeWoken(h, s.marked, gp);
      } else {
        Golf.InvalidWaits(h, s.marked, gp);
      }
    }
  }

  /** The converse of Golf.InvalidWaits. */
  lemma ValidMaybeWoken(h: Golf.Heap, marked: set<nat>, gp: Golf.G)
    requires gp.status.Waiting? && Golf.StackRootValid(h, marked, gp)
    ensures Golf.WaitOf(h, gp).Blocked? ==> !(Golf.WaitOf(h, gp).on !! marked)
  {
    hide Golf.GcUnmask;
    if Golf.WaitOf(h, gp).Blocked? {
      var addresses := if gp.reason.SyncCondWait? then [Golf.GcUnmask(gp.notifier)]
                       else if gp.reason.ChanReceive? || gp.reason.Select? || gp.reason.ChanSend? then gp.channels
                       else [Golf.GcUnmask(gp.sema)];
      var i :| 0 <= i < |addresses| && Golf.CheckIfMarked(h, marked, addresses[i]);
      assert addresses[i] in h.owner && h.owner[addresses[i]] in Golf.WaitOf(h, gp).on;
    }
  }

  // ----- No object is hidden from the collector -----

  lemma ShadeableInHeap(p: Program, a: Action)
    requires WellFormed(p) && PartialDeadlock.Enabled(p, a)
    ensures Shadeable(p, a) <= p.heap.Keys
  {
  }

  /** References lead to objects. */
  ghost predicate WellFormed(p: Program) {
    && p.globals <= p.heap.Keys
    && (forall o | o in p.heap :: p.heap[o] <= p.heap.Keys)
    && (forall g | g in p.threads :: p.threads[g].stack <= p.heap.Keys)
    && (forall g | g in p.threads && p.threads[g].wait.Blocked? :: p.threads[g].wait.on <= p.heap.Keys)
  }

  lemma WellFormedStep(p: Program, a: Action)
    requires WellFormed(p) && PartialDeadlock.Enabled(p, a)
    ensures WellFormed(PartialDeadlock.Step(p, a)) && p.heap.Keys <= PartialDeadlock.Step(p, a).heap.Keys
  {
  }

  /** c holds what is marked and what marking will come to: it is closed under references, except
      that nothing is followed from an object already scanned. */
  ghost predicate Coming(s: State, c: set<nat>) {
    && s.marked <= c && s.buffered <= c && (!s.globalsDone ==> s.p.globals <= c)
    && (forall o | o in c && o in s.p.heap && (o in s.grey || o !in s.marked) :: s.p.heap[o] <= c)
  }

  ghost predicate Covers(s: State, c: set<nat>) {
    && s.p.globals <= c
    && (forall o | o in s.marked && o in s.p.heap :: s.p.heap[o] <= c)
    && (forall g | g in s.scanned && g in s.p.threads :: s.p.threads[g].stack <= c)
  }

  /** Whatever globals, scanned objects and scanned stacks refer to is marked or will be. */
  ghost predicate Safe(s: State) { forall c: set<nat> :: Coming(s, c) ==> Covers(s, c) }

  ghost predicate Inv(s: State) {
    && WellFormed(s.p) && Safe(s)
    && s.grey <= s.marked <= s.p.heap.Keys && s.buffered <= s.p.heap.Keys
    && (forall g | g in s.p.threads :: g in s.listed || g in s.scanned)
    && (s.reported.Some? ==>
          !WorkLeft(s) && s.reported.value == s.listed - s.roots
          && Cut(s.p, s.reported.value, s.p.heap.Keys - s.marked))
  }

  /** No step of the program moves a reference out of the collector's sight. */
  lemma MutateKeeps(s: State, a: Action, shaded: set<nat>, c: set<nat>)
    requires Inv(s) && PartialDeadlock.Enabled(s.p, a) && Shaded(s, a) <= shaded
    requires Coming(Mutated(s, a, shaded), c)
    ensures Covers(Mutated(s, a, shaded), c)
  {
    assert Coming(s, c);
    assert Covers(s, c);
  }

  lemma ScanKeeps(s: State, m: Move, c: set<nat>)
    requires Inv(s) && Enabled(s, m) && !m.Mutate? && Coming(Step(s, m), c)
    ensures Covers(Step(s, m), c)
  {
    assert Coming(s, c);
    assert Covers(s, c);
  }

  /** When there is no work left, what is marked is closed, and the goroutines left are cut off. */
  lemma DetectCuts(s: State)
    requires Inv(s) && !WorkLeft(s) && Awake(s) <= s.roots
    ensures Cut(s.p, s.listed - s.roots, s.p.heap.Keys - s.marked)
  {
    assert Coming(s, s.marked);
    assert Covers(s, s.marked);
    forall g | g in s.listed - s.roots
      ensures Asleep(s, g)
    {
      assert g !in Awake(s);
    }
  }

  lemma StepKeeps(s: State, m: Move)
    requires Inv(s) && Enabled(s, m)
    ensures Inv(Step(s, m))
  {
    var t := Step(s, m);
    forall c | Coming(t, c)
      ensures Covers(t, c)
    {
      if m.Mutate? {
        MutateKeeps(s, m.a, m.shaded, c);
      } else {
        ScanKeeps(s, m, c);
      }
    }
    if m.Mutate? {
      WellFormedStep(s.p, m.a);
      ShadeableInHeap(s.p, m.a);
    }
    if m.Detect? && Awake(s) <= s.roots {
      DetectCuts(s);
    }
  }

  lemma StartInv(p: Program, listed: set<nat>, roots: set<nat>)
    requires WellFormed(p) && p.threads.Keys <= listed
    ensures Inv(Start(p, listed, roots))
  {
  }

  lemma {:induction false} RunKeeps(s: State, moves: seq<Move>, t: State)
    requires Inv(s) && Run(s, moves, t)
    ensures Inv(t)
    decreases |moves|
  {
    if moves != [] {
      hide Inv, Step, Enabled;
      StepKeeps(s, moves[0]);
      RunKeeps(Step(s, moves[0]), moves[1..], t);
    }
  }

  // ----- What a report means -----

  /** However program and collector interleave, the goroutines reported are cut off at the report:
      they never wake, and taking them away changes no run of the others. */
  lemma ReportIsSound(p: Program, listed: set<nat>, roots: set<nat>, moves: seq<Move>, t: State, acts: seq<Action>)
    requires WellFormed(p) && p.threads.Keys <= listed
    requires Run(Start(p, listed, roots), moves, t) && t.reported.Some?
    ensures var dead := t.reported.value;
            && (After(t.p, acts).Some? ==>
                  forall g | g in dead ::
                    g in t.p.threads && g in After(t.p, acts).value.threads
                    && After(t.p, acts).value.threads[g] == t.p.threads[g])
            && (FreshNames(acts, dead) ==>
                  After(Without(t.p, dead), acts)
                  == match After(t.p, acts) case Some(q) => Some(Without(q, dead)) case None => None)
  {
    hide Run, WellFormed, Safe, Cut, Without, PartialDeadlock.Step, PartialDeadlock.Enabled;
    StartInv(p, listed, roots);
    RunKeeps(Start(p, listed, roots), moves, t);
    var dead, lost := t.reported.value, t.p.heap.Keys - t.marked;
    if After(t.p, acts).Some? {
      DeadForEver(t.p, acts, dead, lost);
    }
    if FreshNames(acts, dead) {
      ReclaimKeepsRuns(t.p, acts, dead, lost);
    }
  }

  /** Goroutines cut off stay out of the collector's reach. */
  ghost predicate Hidden(s: State, dead: set<nat>, lost: set<nat>) {
    && Cut(s.p, dead, lost) && dead <= s.listed
    && s.marked !! lost && s.buffered !! lost && s.grey !! lost
    && s.roots !! dead
    && (s.reported.Some? ==> dead <= s.reported.value)
  }

  lemma HiddenMutate(s: State, a: Action, shaded: set<nat>, dead: set<nat>, lost: set<nat>)
    requires Hidden(s, dead, lost) && s.reported.None? && PartialDeadlock.Enabled(s.p, a)
    requires shaded <= Shadeable(s.p, a)
    ensures Hidden(Mutated(s, a, shaded), dead, lost)
  {
    CutStep(s.p, a, dead, lost);
  }

  lemma HiddenStep(s: State, m: Move, dead: set<nat>, lost: set<nat>)
    requires Hidden(s, dead, lost) && Enabled(s, m)
    ensures Hidden(Step(s, m), dead, lost)
  {
    assert forall g | g in dead :: Asleep(s, g);
    if m.Mutate? {
      HiddenMutate(s, m.a, m.shaded, dead, lost);
    }
  }

  lemma {:induction false} HiddenRun(s: State, moves: seq<Move>, t: State, dead: set<nat>, lost: set<nat>)
    requires Hidden(s, dead, lost) && Run(s, moves, t)
    ensures Hidden(t, dead, lost)
    decreases |moves|
  {
    if moves != [] {
      hide Hidden, Step, Enabled;
      HiddenStep(s, moves[0], dead, lost);
      HiddenRun(Step(s, moves[0]), moves[1..], t, dead, lost);
    }
  }

  /** Every goroutine cut off when the cycle starts, and blocked in the snapshot, is reported in
      it, whatever the program does meanwhile. */
  lemma ReportIsComplete(p: Program, listed: set<nat>, roots: set<nat>, moves: seq<Move>, t: State,
                         dead: set<nat>, lost: set<nat>)
    requires Run(Start(p, listed, roots), moves, t) && t.reported.Some?
    requires Cut(p, dead, lost) && dead <= listed - roots
    ensures dead <= t.reported.value && t.marked !! lost
  {
    HiddenRun(Start(p, listed, roots), moves, t, dead, lost);
  }

  /** If the program stands still, the report is the greatest set of goroutines that are cut off. */
  lemma StoppedIsExact(p: Program, listed: set<nat>, roots: set<nat>, moves: seq<Move>, t: State,
                       dead: set<nat>, lost: set<nat>)
    requires WellFormed(p) && p.threads.Keys <= listed
    requires Run(Start(p, listed, roots), moves, t) && t.reported.Some?
    requires CollectorOnly(moves)
    ensures Cut(p, t.reported.value, p.heap.Keys - t.marked)
    ensures Cut(p, dead, lost) && dead <= listed - roots ==> dead <= t.reported.value
  {
    StartInv(p, listed, roots);
    RunKeeps(Start(p, listed, roots), moves, t);
    StillGrows(Start(p, listed, roots), moves, t);
    if Cut(p, dead, lost) && dead <= listed - roots {
      ReportIsComplete(p, listed, roots, moves, t, dead, lost);
    }
  }

  lemma RunStep(s: State, m: Move, rest: seq<Move>, t: State)
    requires Enabled(s, m) && Run(Step(s, m), rest, t)
    ensures Run(s, [m] + rest, t)
  {
    assert ([m] + rest)[1..] == rest;
  }

  // ----- Exactly which goroutines are sure to be reported -----

  ghost predicate CollectorOnly(moves: seq<Move>) { forall i | 0 <= i < |moves| :: !moves[i].Mutate? }

  /** A move of the collector that brings it nearer to a report. */
  lemma NextMove(s: State) returns (m: Move)
    requires s.grey <= s.p.heap.Keys && s.reported.None?
    ensures Enabled(s, m) && !m.Mutate? && !m.Discover? && (m.ScanStack? ==> m.g !in s.scanned)
  {
    if !s.globalsDone {
      m := ScanGlobals;
    } else if g :| g in s.roots && g !in s.scanned {
      m := ScanStack(g);
    } else if o :| o in s.buffered {
      m := Flush(o);
    } else if o :| o in s.grey {
      m := ScanObject(o);
    } else {
      m := Detect;
    }
  }

  /** From every state the collector alone comes to a report, whatever the program has done. */
  lemma {:induction false} CanReport(s: State) returns (moves: seq<Move>, t: State)
    requires Inv(s) && s.reported.None?
    ensures Run(s, moves, t) && CollectorOnly(moves) && t.reported.Some?
    decreases s.listed - s.roots, !s.globalsDone, s.roots - s.scanned, s.p.heap.Keys - s.marked, s.buffered, s.grey
  {
    var m := NextMove(s);
    var next := Step(s, m);
    StepKeeps(s, m);
    if next.reported.Some? {
      moves, t := [m], next;
      assert moves[1..] == [];
    } else {
      var rest;
      rest, t := CanReport(next);
      moves := [m] + rest;
      assert moves[1..] == rest;
    }
  }

  /** While the program stands still, what is a root, marked or buffered stays marked or a root. */
  lemma {:induction false} StillGrows(s: State, moves: seq<Move>, t: State)
    requires Run(s, moves, t) && CollectorOnly(moves)
    ensures t.p == s.p && t.listed == s.listed && s.roots <= t.roots
    ensures s.marked <= t.marked && s.buffered <= t.marked + t.buffered
    decreases |moves|
  {
    if moves != [] {
      assert !moves[0].Mutate?;
      StillGrows(Step(s, moves[0]), moves[1..], t);
    }
  }

  ghost predicate SurelyReported(s: State, g: nat) {
    forall moves, t :: Run(s, moves, t) && t.reported.Some? ==> g in t.reported.value
  }

  /** From any point of a cycle, a goroutine is in every report that can follow exactly when it
      belongs to a set that is cut off now, with nothing of it a root, marked or buffered yet. */
  lemma SureExactly(s: State, g: nat)
    requires Inv(s) && s.reported.None?
    ensures SurelyReported(s, g) <==> exists dead, lost :: g in dead && Hidden(s, dead, lost)
  {
    hide Inv, Run, Hidden;
    if SurelyReported(s, g) {
      var moves, t := CanReport(s);
      assert g in t.reported.value;
      ReportHides(s, moves, t);
    }
    if dead, lost :| g in dead && Hidden(s, dead, lost) {
      forall moves, t | Run(s, moves, t) && t.reported.Some?
        ensures g in t.reported.value
      {
        HiddenRun(s, moves, t, dead, lost);
        HiddenReported(t, dead, lost);
      }
    }
  }

  lemma HiddenReported(t: State, dead: set<nat>, lost: set<nat>)
    requires Hidden(t, dead, lost) && t.reported.Some?
    ensures dead <= t.reported.value
  {
  }

  /** The report of a run without program steps was hidden at its start. */
  lemma ReportHides(s: State, moves: seq<Move>, t: State)
    requires Inv(s) && Run(s, moves, t) && CollectorOnly(moves) && s.reported.None? && t.reported.Some?
    ensures Hidden(s, t.reported.value, t.p.heap.Keys - t.marked)
  {
    RunKeeps(s, moves, t);
    StillGrows(s, moves, t);
    hide Run, Cut, Safe, WellFormed;
  }

  /** At the start of a cycle: the goroutines sure to be reported are those blocked in the snapshot
      that are cut off. */
  lemma SureAtStart(p: Program, listed: set<nat>, roots: set<nat>, g: nat)
    requires WellFormed(p) && p.threads.Keys <= listed
    ensures SurelyReported(Start(p, listed, roots), g)
            <==> exists dead, lost :: g in dead && dead <= listed - roots && Cut(p, dead, lost)
  {
    hide WellFormed, Cut;
    var s := Start(p, listed, roots);
    StartInv(p, listed, roots);
    SureExactly(s, g);
    assert forall dead, lost :: Hidden(s, dead, lost) <==> dead <= listed - roots && Cut(p, dead, lost);
  }

  /** If it runs, a goroutine cut off during the cycle may have to wait for the next one: the channel
      was marked before the other end dropped it. */
  lemma FloatingChannel()
    ensures var p := Program({}, map[5 := {}], map[0 := Thread({5}, Runs), 1 := Thread({5}, Blocked({5}))]);
            exists moves, t ::
              Run(Start(p, {0, 1}, {0}), moves, t) && t.reported == Some({}) && Cut(t.p, {1}, {5})
  {
    var p := Program({}, map[5 := {}], map[0 := Thread({5}, Runs), 1 := Thread({5}, Blocked({5}))]);
    var q := Program({}, map[5 := {}], map[0 := Thread({}, Runs), 1 := Thread({5}, Blocked({5}))]);
    var s3 := State(q, {0, 1}, {0}, {0}, true, {5}, {5}, {}, None);
    var t := State(q, {0, 1}, {0, 1}, {0, 1}, true, {5}, {}, {}, Some({}));
    assert Cut(q, {1}, {5});
    Dropped(p, q, s3);
    NotReported(q, s3, t);
    var second := [ScanObject(5), Discover(1), ScanStack(1), Detect];
    RunStep(State(p, {0, 1}, {0}, {0}, true, {5}, {5}, {}, None), Mutate(Drop(0, 5), {}), second, t);
    var third := [Mutate(Drop(0, 5), {})] + second;
    RunStep(State(p, {0, 1}, {0}, {}, true, {}, {}, {}, None), ScanStack(0), third, t);
    RunStep(Start(p, {0, 1}, {0}), ScanGlobals, [ScanStack(0)] + third, t);
  }

  /** Until the drop. */
  lemma Dropped(p: Program, q: Program, s3: State)
    requires p == Program({}, map[5 := {}], map[0 := Thread({5}, Runs), 1 := Thread({5}, Blocked({5}))])
    requires q == Program({}, map[5 := {}], map[0 := Thread({}, Runs), 1 := Thread({5}, Blocked({5}))])
    requires s3 == State(q, {0, 1}, {0}, {0}, true, {5}, {5}, {}, None)
    ensures var s0 := Start(p, {0, 1}, {0});
            var s1 := State(p, {0, 1}, {0}, {}, true, {}, {}, {}, None);
            var s2 := State(p, {0, 1}, {0}, {0}, true, {5}, {5}, {}, None);
            && Enabled(s0, ScanGlobals) && Step(s0, ScanGlobals) == s1
            && Enabled(s1, ScanStack(0)) && Step(s1, ScanStack(0)) == s2
            && Enabled(s2, Mutate(Drop(0, 5), {})) && Step(s2, Mutate(Drop(0, 5), {})) == s3
  {
  }

  /** And from it to a report of no one. */
  lemma NotReported(q: Program, s3: State, t: State)
    requires q == Program({}, map[5 := {}], map[0 := Thread({}, Runs), 1 := Thread({5}, Blocked({5}))])
    requires s3 == State(q, {0, 1}, {0}, {0}, true, {5}, {5}, {}, None)
    requires t == State(q, {0, 1}, {0, 1}, {0, 1}, true, {5}, {}, {}, Some({}))
    ensures Run(s3, [ScanObject(5), Discover(1), ScanStack(1), Detect], t)
  {
    var s4 := s3.(grey := {});
    var s5 := s4.(roots := {0, 1});
    var s6 := s5.(scanned := {0, 1});
    assert Enabled(s3, ScanObject(5)) && Step(s3, ScanObject(5)) == s4;
    assert !Asleep(s4, 1);
    assert Enabled(s4, Discover(1)) && Step(s4, Discover(1)) == s5;
    assert Enabled(s5, ScanStack(1)) && Step(s5, ScanStack(1)) == s6;
    assert s6.listed - s6.roots == {};
    assert Enabled(s6, Detect) && Step(s6, Detect) == t;
    assert Run(t, [], t);
    hide Enabled, Step;
    RunStep(s6, Detect, [], t);
    RunStep(s5, ScanStack(1), [Detect], t);
    RunStep(s4, Discover(1), [ScanStack(1), Detect], t);
    RunStep(s3, ScanObject(5), [Discover(1), ScanStack(1), Detect], t);
  }
}
