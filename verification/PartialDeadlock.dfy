/** Programs of goroutines over a heap, as far as partial deadlocks go: who holds which objects,
    and who is blocked on what. A goroutine blocked on objects that no other goroutine can ever
    reach stays blocked for ever, and taking it away changes nothing for the others. */
module PartialDeadlock {
  import opened Basics

  /** A blocked goroutine waits for one of the objects; a parked one for the outside world:
      a timer, the network, or an object that is not in the heap. */
  datatype Wait = Runs | Blocked(on: set<nat>) | Parked

  datatype Thread = Thread(stack: set<nat>, wait: Wait)

  /** An object is a set of references. */
  datatype Program = Program(globals: set<nat>, heap: map<nat, set<nat>>, threads: map<nat, Thread>)

  datatype Action =
    | Load(g: nat, from: nat, o: nat)
    | LoadGlobal(g: nat, o: nat)
    | Drop(g: nat, o: nat)
    | Store(g: nat, into: nat, o: nat)
    | Erase(g: nat, into: nat, o: nat)
    | StoreGlobal(g: nat, o: nat)
    | EraseGlobal(g: nat, o: nat)
    | Alloc(g: nat, o: nat)
    | Spawn(g: nat, h: nat, stack: set<nat>)
    | Operate(g: nat, o: nat, h: nat, given: set<nat>, taken: set<nat>)
    | Block(g: nat, wait: Wait)
    | Unpark(h: nat)
    | Exit(g: nat)

  predicate Running(p: Program, g: nat) { g in p.threads && p.threads[g].wait.Runs? }

  /** What a goroutine can name. */
  function Held(p: Program, g: nat): set<nat>
    requires g in p.threads
  {
    p.threads[g].stack + p.globals
  }

  /** Operate is a send, receive, close, unlock or signal on o that lets h, blocked on o, go on;
      references pass both ways. A goroutine only blocks on what it holds. */
  predicate Enabled(p: Program, a: Action) {
    match a
    case Load(g, from, o) => Running(p, g) && from in Held(p, g) && from in p.heap && o in p.heap[from]
    case LoadGlobal(g, o) => Running(p, g) && o in p.globals
    case Drop(g, _) => Running(p, g)
    case Store(g, into, o) => Running(p, g) && into in Held(p, g) && into in p.heap && o in Held(p, g)
    case Erase(g, into, _) => Running(p, g) && into in Held(p, g) && into in p.heap
    case StoreGlobal(g, o) => Running(p, g) && o in Held(p, g)
    case EraseGlobal(g, _) => Running(p, g)
    case Alloc(g, o) => Running(p, g) && o !in p.heap
    case Spawn(g, h, stack) => Running(p, g) && h !in p.threads && stack <= Held(p, g)
    case Operate(g, o, h, given, taken) =>
      && Running(p, g) && o in Held(p, g)
      && h in p.threads && p.threads[h].wait.Blocked? && o in p.threads[h].wait.on
      && given <= Held(p, g) && taken <= p.threads[h].stack
    case Block(g, wait) => Running(p, g) && !wait.Runs? && (wait.Blocked? ==> wait.on <= Held(p, g))
    case Unpark(h) => h in p.threads && p.threads[h].wait.Parked?
    case Exit(g) => Running(p, g)
  }

  function SetThread(p: Program, g: nat, t: Thread): Program { p.(threads := p.threads[g := t]) }

  function Hold(p: Program, g: nat, more: set<nat>): Program
    requires g in p.threads
  {
    SetThread(p, g, p.threads[g].(stack := p.threads[g].stack + more))
  }

  function Step(p: Program, a: Action): Program
    requires Enabled(p, a)
  {
    match a
    case Load(g, _, o) => Hold(p, g, {o})
    case LoadGlobal(g, o) => Hold(p, g, {o})
    case Drop(g, o) => SetThread(p, g, p.threads[g].(stack := p.threads[g].stack - {o}))
    case Store(_, into, o) => p.(heap := p.heap[into := p.heap[into] + {o}])
    case Erase(_, into, o) => p.(heap := p.heap[into := p.heap[into] - {o}])
    case StoreGlobal(_, o) => p.(globals := p.globals + {o})
    case EraseGlobal(_, o) => p.(globals := p.globals - {o})
    case Alloc(g, o) => Hold(p.(heap := p.heap[o := {}]), g, {o})
    case Spawn(_, h, stack) => SetThread(p, h, Thread(stack, Runs))
    case Operate(g, _, h, given, taken) =>
      Hold(SetThread(p, h, Thread(p.threads[h].stack + given, Runs)), g, taken)
    case Block(g, wait) => SetThread(p, g, p.threads[g].(wait := wait))
    case Unpark(h) => SetThread(p, h, p.threads[h].(wait := Runs))
    case Exit(g) => p.(threads := p.threads - {g})
  }

  /** Where these actions lead, if they can be done in this order. */
  function After(p: Program, acts: seq<Action>): (q: Option<Program>)
    decreases |acts|
  {
    if acts == [] then Some(p)
    else if Enabled(p, acts[0]) then After(Step(p, acts[0]), acts[1..])
    else None
  }

  // ----- Dead goroutines -----

  /** The goroutines of dead hold the objects of lost to themselves: they are blocked on nothing
      else, and nothing outside refers to them. */
  ghost predicate Cut(p: Program, dead: set<nat>, lost: set<nat>) {
    && (forall o | o in lost :: o in p.heap)
    && (forall g | g in dead :: g in p.threads && p.threads[g].wait.Blocked? && p.threads[g].wait.on <= lost)
    && p.globals !! lost
    && (forall o | o in p.heap && o !in lost :: p.heap[o] !! lost)
    && (forall g | g in p.threads && g !in dead :: p.threads[g].stack !! lost)
  }

  /** One step leaves dead goroutines as they are, and cut off. */
  lemma CutStep(p: Program, a: Action, dead: set<nat>, lost: set<nat>)
    requires Cut(p, dead, lost) && Enabled(p, a)
    ensures Cut(Step(p, a), dead, lost)
    ensures forall g | g in dead :: g in p.threads && g in Step(p, a).threads && Step(p, a).threads[g] == p.threads[g]
  {
  }

  /** In every future of the program, however it goes on, the dead goroutines are blocked, with the
      same stack, on the same objects. */
  lemma {:induction false} DeadForEver(p: Program, acts: seq<Action>, dead: set<nat>, lost: set<nat>)
    requires Cut(p, dead, lost) && After(p, acts).Some?
    ensures var q := After(p, acts).value;
            && Cut(q, dead, lost)
            && forall g | g in dead :: g in p.threads && g in q.threads && q.threads[g] == p.threads[g]
    decreases |acts|
  {
    if acts != [] {
      CutStep(p, acts[0], dead, lost);
      DeadForEver(Step(p, acts[0]), acts[1..], dead, lost);
    }
  }

  // ----- Reclaiming them -----

  function Without(p: Program, dead: set<nat>): Program { p.(threads := p.threads - dead) }

  lemma SetWithout(p: Program, g: nat, t: Thread, dead: set<nat>)
    requires g !in dead
    ensures Without(SetThread(p, g, t), dead) == SetThread(Without(p, dead), g, t)
  {
    assert (p.threads[g := t] - dead) == (p.threads - dead)[g := t];
  }

  lemma WithoutEnabled(p: Program, a: Action, dead: set<nat>, lost: set<nat>)
    requires Cut(p, dead, lost) && Enabled(p, a)
    ensures Enabled(Without(p, dead), a)
    ensures a.Spawn? ==> a.h !in dead
    ensures a.Operate? ==> a.g !in dead && a.h !in dead
  {
  }

  /** A program without its dead goroutines can do what it could do. */
  lemma WithoutStep(p: Program, a: Action, dead: set<nat>, lost: set<nat>)
    requires Cut(p, dead, lost) && Enabled(p, a)
    ensures Enabled(Without(p, dead), a) && Step(Without(p, dead), a) == Without(Step(p, a), dead)
  {
    WithoutEnabled(p, a, dead, lost);
    hide Without;
    match a
    case Operate(g, _, h, given, taken) =>
      var q := SetThread(p, h, Thread(p.threads[h].stack + given, Runs));
      SetWithout(p, h, q.threads[h], dead);
      SetWithout(q, g, q.threads[g].(stack := q.threads[g].stack + taken), dead);
      WithoutThread(p, g, dead);
      WithoutThread(p, h, dead);
      WithoutThread(q, g, dead);
    case Spawn(_, h, stack) => SetWithout(p, h, Thread(stack, Runs), dead);
    case _ => WithoutSingle(p, a, dead, lost);
  }

  lemma WithoutThread(p: Program, g: nat, dead: set<nat>)
    requires g in p.threads && g !in dead
    ensures g in Without(p, dead).threads && Without(p, dead).threads[g] == p.threads[g]
  {
  }

  lemma WithoutSingle(p: Program, a: Action, dead: set<nat>, lost: set<nat>)
    requires Cut(p, dead, lost) && Enabled(p, a) && Enabled(Without(p, dead), a) && !a.Operate? && !a.Spawn?
    ensures Step(Without(p, dead), a) == Without(Step(p, a), dead)
  {
  }

  /** And it can do no more, unless it is told to reuse their names. */
  lemma WithoutOnly(p: Program, a: Action, dead: set<nat>, lost: set<nat>)
    requires Cut(p, dead, lost) && Enabled(Without(p, dead), a) && !(a.Spawn? && a.h in dead)
    ensures Enabled(p, a)
  {
  }

  ghost predicate FreshNames(acts: seq<Action>, dead: set<nat>) {
    forall i | 0 <= i < |acts| :: !(acts[i].Spawn? && acts[i].h in dead)
  }

  /** Reclaiming the dead goroutines preserves every run of the others, step for step, in both
      directions. */
  lemma {:induction false} ReclaimKeepsRuns(p: Program, acts: seq<Action>, dead: set<nat>, lost: set<nat>)
    requires Cut(p, dead, lost) && FreshNames(acts, dead)
    ensures After(Without(p, dead), acts)
            == match After(p, acts) case Some(q) => Some(Without(q, dead)) case None => None
    decreases |acts|
  {
    if acts != [] {
      hide Enabled, Step, Cut, Without;
      var a := acts[0];
      assert !(a.Spawn? && a.h in dead);
      if Enabled(Without(p, dead), a) {
        WithoutOnly(p, a, dead, lost);
      }
      if Enabled(p, a) {
        WithoutStep(p, a, dead, lost);
        CutStep(p, a, dead, lost);
        ReclaimKeepsRuns(Step(p, a), acts[1..], dead, lost);
      }
    }
  }
}
