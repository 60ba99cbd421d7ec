/** The deadlock detection of the Golf collector (golf/src/runtime/mgc.go and mgcmark.go). Blocked
    goroutines start outside the root set, their addresses masked; they join it when what they
    wait on is marked. Those that never join are reported. */
module Golf {
  import opened Basics
  import opened Powers
  import opened Words
  import opened WordFacts
  import opened PartialDeadlock

  // ----- Address obfuscation -----

  const GC_UNDO_BIT_MASK: Word := 0x0fff_ffff_ffff_ffff
  const GC_BIT_MASK: Word := 0xf000_0000_0000_0000

  /** The addresses of objects leave the masked bits clear. */
  type Address = p: nat | p < 0x1000_0000_0000_0000

  function GcMask(p: Word): (m: Word) { OrWord(p, GC_BIT_MASK) }

  function GcUnmask(p: Word): (u: Word) { AndWord(p, GC_UNDO_BIT_MASK) }

  /** scanobject does not follow such a pointer. */
  predicate Skipped(p: Word) { AndWord(p, GC_BIT_MASK) == GC_BIT_MASK }

  lemma Pow60()
    ensures Pow2(60) == 0x1000_0000_0000_0000
  {
    Pow2Values();
  }

  lemma UnmaskValue(p: Word)
    ensures GcUnmask(p) == p % 0x1000_0000_0000_0000
  {
    Pow60();
    AndMask(p, 60);
  }

  lemma NibbleAnd()
    ensures And(15, 15) == 15 && And(0, 15) == 0
  {
    assert And(1, 1) == 1 && And(3, 3) == 3 && And(7, 7) == 7;
    assert And(0, 1) == 0 && And(0, 3) == 0 && And(0, 7) == 0;
  }

  /** Masking hides an address from the marker and can be undone; a plain address is in sight, and
      unmasking leaves it alone. */
  lemma MaskRoundTrip(p: Address)
    ensures GcUnmask(GcMask(p)) == p && GcUnmask(p) == p
    ensures Skipped(GcMask(p)) && !Skipped(p)
  {
    hide And, Or, Pow2;
    Pow60();
    NibbleAnd();
    OrDisjoint(15, p, 60);
    UnmaskValue(p);
    UnmaskValue(GcMask(p));
    AndShifted(15, p, 15, 60);
    AndShifted(0, p, 15, 60);
  }

  // ----- Goroutines -----

  datatype Status = Waiting | Unreachable | Deadlocked | Dead | Active

  datatype Reason =
    | ChanReceive | ChanSend | Select
    | ChanReceiveNilChan | ChanSendNilChan | SelectNoCases
    | SyncWaitGroupWait | SyncMutexLock | SyncRWMutexLock | SyncRWMutexRLock
    | SyncCondWait
    | OtherReason

  /** channels are those of the sudog list; sema and notifier are masked addresses, or 0. */
  datatype G = G(status: Status, reason: Reason, channels: seq<nat>, sema: Word, notifier: Word, stack: set<nat>)

  predicate UnblockingWaitReason(reason: Reason) { reason.OtherReason? }

  predicate IsBlocked(gp: G) { gp.status.Waiting? && !UnblockingWaitReason(gp.reason) }

  /** The heap during one cycle: owner finds the object an address lies in (findObject), and refs
      gives the references in an object. */
  datatype Heap = Heap(owner: map<nat, nat>, refs: map<nat, set<nat>>, globals: set<nat>)

  ghost predicate HeapOk(h: Heap) {
    && (forall p | p in h.owner :: h.owner[p] in h.refs)
    && (forall o | o in h.refs :: h.refs[o] <= h.refs.Keys)
    && h.globals <= h.refs.Keys
  }

  /** Addresses outside the heap count as marked. */
  predicate CheckIfMarked(h: Heap, marked: set<nat>, p: nat) { p in h.owner ==> h.owner[p] in marked }

  /** Whether a goroutine may still be woken, as far as marking has come. */
  predicate StackRootValid(h: Heap, marked: set<nat>, gp: G) {
    match gp.reason
    case SelectNoCases => false
    case ChanSendNilChan => false
    case ChanReceiveNilChan => false
    case ChanReceive => exists i :: 0 <= i < |gp.channels| && CheckIfMarked(h, marked, gp.channels[i])
    case Select => exists i :: 0 <= i < |gp.channels| && CheckIfMarked(h, marked, gp.channels[i])
    case ChanSend => exists i :: 0 <= i < |gp.channels| && CheckIfMarked(h, marked, gp.channels[i])
    case SyncCondWait => gp.notifier == 0 || CheckIfMarked(h, marked, GcUnmask(gp.notifier))
    case OtherReason => true
    case _ => gp.sema == 0 || CheckIfMarked(h, marked, GcUnmask(gp.sema))
  }

  /** More marks make more goroutines valid. */
  lemma ValidMonotone(h: Heap, marked: set<nat>, more: set<nat>, gp: G)
    requires StackRootValid(h, marked, gp) && marked <= more
    ensures StackRootValid(h, more, gp)
  {
    if gp.reason.ChanReceive? || gp.reason.Select? || gp.reason.ChanSend? {
      var i :| 0 <= i < |gp.channels| && CheckIfMarked(h, marked, gp.channels[i]);
      assert CheckIfMarked(h, more, gp.channels[i]);
    }
  }

  // ----- Liveness, independently of the collector -----

  /** live and marked agree: everything live goroutines and globals reach is marked, and everyone
      who is not blocked, or blocked on something marked, is live. */
  ghost predicate Consistent(h: Heap, gs: map<nat, G>, live: set<nat>, marked: set<nat>) {
    && Closed(h, marked)
    && (forall g | g in live && g in gs :: gs[g].stack <= marked)
    && (forall g | g in gs && (!IsBlocked(gs[g]) || StackRootValid(h, marked, gs[g])) :: g in live)
  }

  ghost predicate Closed(h: Heap, marked: set<nat>) {
    h.globals <= marked && forall o | o in h.refs && o in marked :: h.refs[o] <= marked
  }

  /** The least such pair: no one is live without need. */
  ghost predicate LeastLive(h: Heap, gs: map<nat, G>, live: set<nat>, marked: set<nat>) {
    && Consistent(h, gs, live, marked) && live <= gs.Keys
    && forall l: set<nat>, m: set<nat> :: Consistent(h, gs, l, m) ==> live <= l && marked <= m
  }

  // ----- The heap as a program -----

  /** What a blocked goroutine waits on. It is parked when an address it waits on is not in the
      heap, or not known: then anyone might wake it. One kept as deadlocked is never scheduled. */
  function WaitOf(h: Heap, gp: G): (w: Wait) {
    if gp.status.Deadlocked? then Blocked({})
    else if !gp.status.Waiting? then Runs
    else
      match gp.reason
      case SelectNoCases => Blocked({})
      case ChanSendNilChan => Blocked({})
      case ChanReceiveNilChan => Blocked({})
      case ChanReceive => WaitOn(h, gp.channels)
      case Select => WaitOn(h, gp.channels)
      case ChanSend => WaitOn(h, gp.channels)
      case SyncCondWait => if gp.notifier == 0 then Parked else WaitOn(h, [GcUnmask(gp.notifier)])
      case OtherReason => Parked
      case _ => if gp.sema == 0 then Parked else WaitOn(h, [GcUnmask(gp.sema)])
  }

  function WaitOn(h: Heap, addresses: seq<nat>): (w: Wait) {
    if forall i :: 0 <= i < |addresses| ==> addresses[i] in h.owner
    then Blocked(set i | 0 <= i < |addresses| :: h.owner[addresses[i]])
    else Parked
  }

  function ProgramOf(h: Heap, gs: map<nat, G>): (p: Program) {
    Program(h.globals, h.refs, map g | g in gs && !gs[g].status.Dead? :: Thread(gs[g].stack, WaitOf(h, gs[g])))
  }

  /** A blocked goroutine that is not valid waits on unmarked objects only. */
  lemma InvalidWaits(h: Heap, marked: set<nat>, gp: G)
    requires HeapOk(h) && gp.status.Waiting? && !StackRootValid(h, marked, gp)
    ensures WaitOf(h, gp).Blocked? && WaitOf(h, gp).on <= h.refs.Keys - marked
  {
    hide GcUnmask, HeapOk;
    var reason := gp.reason;
    if !reason.SelectNoCases? && !reason.ChanSendNilChan? && !reason.ChanReceiveNilChan? {
      var addresses := if reason.SyncCondWait? then [GcUnmask(gp.notifier)]
                       else if reason.ChanReceive? || reason.Select? || reason.ChanSend? then gp.channels
                       else [GcUnmask(gp.sema)];
      forall i | 0 <= i < |addresses|
        ensures addresses[i] in h.owner && h.owner[addresses[i]] !in marked
      {
        assert !CheckIfMarked(h, marked, addresses[i]);
      }
      OwnersInHeap(h);
    }
  }

  lemma OwnersInHeap(h: Heap)
    requires HeapOk(h)
    ensures forall p | p in h.owner :: h.owner[p] in h.refs
  {
  }

  /** Soundness: goroutines outside a consistent live set are cut off from the rest of the
      program, together with the unmarked objects. */
  lemma UnliveAreCut(h: Heap, gs: map<nat, G>, live: set<nat>, marked: set<nat>)
    requires HeapOk(h) && Consistent(h, gs, live, marked)
    ensures Cut(ProgramOf(h, gs), gs.Keys - live, h.refs.Keys - marked)
  {
    hide StackRootValid, WaitOf;
    forall g | g in gs.Keys - live
      ensures IsBlocked(gs[g]) && WaitOf(h, gs[g]).Blocked? && WaitOf(h, gs[g]).on <= h.refs.Keys - marked
    {
      InvalidWaits(h, marked, gs[g]);
    }
  }

  /** A reported goroutine is never woken: in every run of the program from here it stays blocked
      where it is; and reclaiming all reported goroutines changes no run of the others. */
  lemma ReportedNeverWake(h: Heap, gs: map<nat, G>, live: set<nat>, marked: set<nat>, acts: seq<Action>)
    requires HeapOk(h) && Consistent(h, gs, live, marked)
    ensures var p, dead := ProgramOf(h, gs), gs.Keys - live;
            && (After(p, acts).Some? ==>
                  forall g | g in dead ::
                    && g in p.threads && g in After(p, acts).value.threads
                    && After(p, acts).value.threads[g] == p.threads[g])
            && (FreshNames(acts, dead) ==>
                  After(Without(p, dead), acts)
                  == match After(p, acts) case Some(q) => Some(Without(q, dead)) case None => None)
  {
    hide Consistent, Cut, ProgramOf, Without, HeapOk, PartialDeadlock.Step, PartialDeadlock.Enabled;
    var p, dead, lost := ProgramOf(h, gs), gs.Keys - live, h.refs.Keys - marked;
    UnliveAreCut(h, gs, live, marked);
    if After(p, acts).Some? {
      DeadForEver(p, acts, dead, lost);
    }
    if FreshNames(acts, dead) {
      ReclaimKeepsRuns(p, acts, dead, lost);
    }
  }

  // ----- The collector -----

  /** The goroutines named by the entries of a root array. */
  function Names(roots: seq<Word>): (names: seq<Address>)
    ensures |names| == |roots|
  {
    seq(|roots|, i requires 0 <= i < |roots| => Unmasked(roots[i]))
  }

  function Unmasked(p: Word): (u: Address)
    ensures u == GcUnmask(p)
  {
    UnmaskValue(p);
    GcUnmask(p)
  }

  /** The goroutines of a snapshot that are not blocked, in order. */
  function Runners(gs: map<nat, G>, allgs: seq<Address>): (r: seq<Word>)
    requires forall i | 0 <= i < |allgs| :: allgs[i] in gs
    ensures |r| <= |allgs|
  {
    if allgs == [] then []
    else
      var g := allgs[|allgs| - 1];
      var r := Runners(gs, allgs[..|allgs| - 1]);
      if IsBlocked(gs[g]) then r else r + [g]
  }

  /** The blocked ones, masked, the last first. */
  function Sleepers(gs: map<nat, G>, allgs: seq<Address>): (r: seq<Word>)
    requires forall i | 0 <= i < |allgs| :: allgs[i] in gs
    ensures |r| + |Runners(gs, allgs)| == |allgs|
  {
    if allgs == [] then []
    else
      var g := allgs[|allgs| - 1];
      var r := Sleepers(gs, allgs[..|allgs| - 1]);
      if IsBlocked(gs[g]) then [GcMask(g)] + r else r
  }

  lemma SplitStep(gs: map<nat, G>, names: seq<Address>, k: nat)
    requires k < |names| && forall i | 0 <= i < |names| :: names[i] in gs
    ensures Runners(gs, names[..k + 1])
            == if IsBlocked(gs[names[k]]) then Runners(gs, names[..k]) else Runners(gs, names[..k]) + [names[k]]
    ensures Sleepers(gs, names[..k + 1])
            == if IsBlocked(gs[names[k]]) then [GcMask(names[k])] + Sleepers(gs, names[..k])
               else Sleepers(gs, names[..k])
  {
    hide GcMask, IsBlocked;
    assert names[..k + 1][..k] == names[..k];
  }

  lemma WriteLeft<T>(before: seq<T>, after: seq<T>, at: nat, x: T, hi: nat)
    requires at < hi <= |before| && after == before[at := x]
    ensures after[..at + 1] == before[..at] + [x] && after[hi..] == before[hi..]
  {
  }

  lemma WriteRight<T>(before: seq<T>, after: seq<T>, at: nat, x: T, lo: nat)
    requires lo <= at < |before| && after == before[at := x]
    ensures after[at..] == [x] + before[at + 1..] && after[..lo] == before[..lo]
  {
  }

  /** Fill the root array from both ends: the runnable goroutines from the left, the blocked ones,
      masked, from the right. */
  method AllGsSnapshotSortedForGC(gs: map<nat, G>, allgs: seq<Word>) returns (sorted: array<Word>, count: nat)
    requires forall i | 0 <= i < |allgs| :: GcUnmask(allgs[i]) in gs
    ensures fresh(sorted) && sorted.Length == |allgs|
    ensures var names := Names(allgs);
            count <= |allgs| && sorted[..count] == Runners(gs, names) && sorted[count..] == Sleepers(gs, names)
  {
    hide GcMask, GcUnmask, Runners, Sleepers, Names, IsBlocked;
    sorted := new Word[|allgs|];
    var currIndex: nat := 0;
    var blockedIndex: int := sorted.Length - 1;
    ghost var names := Names(allgs);
    NoGoroutines(gs);
    NamesIn(gs, allgs);
    assert names[..0] == [];
    ghost var slots := sorted[..];
    for k := 0 to |allgs|
      invariant 0 <= currIndex <= blockedIndex + 1 <= |allgs| && blockedIndex + 1 - currIndex == |allgs| - k
      invariant sorted[..] == slots && slots[..currIndex] == Runners(gs, names[..k])
      invariant slots[blockedIndex + 1..] == Sleepers(gs, names[..k])
    {
      var gp := gs[GcUnmask(allgs[k])];
      SnapshotStep(gs, allgs, k, slots, currIndex, blockedIndex);
      if !gp.status.Waiting? || UnblockingWaitReason(gp.reason) {
        sorted[currIndex] := GcUnmask(allgs[k]);
        slots := slots[currIndex := GcUnmask(allgs[k])];
        currIndex := currIndex + 1;
      } else {
        sorted[blockedIndex] := GcMask(GcUnmask(allgs[k]));
        slots := slots[blockedIndex := GcMask(GcUnmask(allgs[k]))];
        blockedIndex := blockedIndex - 1;
      }
    }
    assert names[..|allgs|] == names;
    return sorted, blockedIndex + 1;
  }

  /** One goroutine more, at the left end or at the right. */
  lemma SnapshotStep(gs: map<nat, G>, allgs: seq<Word>, k: nat, slots: seq<Word>, left: nat, right: nat)
    requires k < |allgs| && (forall i | 0 <= i < |allgs| :: GcUnmask(allgs[i]) in gs)
    requires forall i | 0 <= i < |allgs| :: Names(allgs)[i] in gs
    requires left <= right < |slots|
    requires slots[..left] == Runners(gs, Names(allgs)[..k]) && slots[right + 1..] == Sleepers(gs, Names(allgs)[..k])
    ensures var gp, names := gs[GcUnmask(allgs[k])], Names(allgs)[..k + 1];
            if !gp.status.Waiting? || UnblockingWaitReason(gp.reason) then
              var after := slots[left := GcUnmask(allgs[k])];
              after[..left + 1] == Runners(gs, names) && after[right + 1..] == Sleepers(gs, names)
            else
              var after := slots[right := GcMask(GcUnmask(allgs[k]))];
              after[..left] == Runners(gs, names) && after[right..] == Sleepers(gs, names)
  {
    hide GcMask, GcUnmask, Runners, Sleepers, Names, IsBlocked;
    GuardIsBlocked(gs, allgs, k);
    SplitStep(gs, Names(allgs), k);
    var plain, masked := GcUnmask(allgs[k]), GcMask(GcUnmask(allgs[k]));
    WriteLeft(slots, slots[left := plain], left, plain, right + 1);
    WriteRight(slots, slots[right := masked], right, masked, left);
  }

  lemma NamesIn(gs: map<nat, G>, allgs: seq<Word>)
    requires forall i | 0 <= i < |allgs| :: GcUnmask(allgs[i]) in gs
    ensures forall i | 0 <= i < |allgs| :: Names(allgs)[i] in gs
  {
    hide GcUnmask;
  }

  lemma GuardIsBlocked(gs: map<nat, G>, allgs: seq<Word>, k: nat)
    requires k < |allgs| && GcUnmask(allgs[k]) in gs
    ensures Names(allgs)[k] == GcUnmask(allgs[k])
    ensures var gp := gs[GcUnmask(allgs[k])];
            IsBlocked(gp) <==> !(!gp.status.Waiting? || UnblockingWaitReason(gp.reason))
  {
    hide GcUnmask;
  }

  lemma NoGoroutines(gs: map<nat, G>)
    ensures Runners(gs, []) == [] && Sleepers(gs, []) == []
  {
  }

  // ----- Permutations of the roots -----

  lemma NamesUpdate(roots: seq<Word>, i: nat, p: Word)
    requires i < |roots|
    ensures Names(roots[i := p]) == Names(roots)[i := Unmasked(p)]
  {
    hide GcUnmask;
  }

  lemma UnmaskTwice(p: Word)
    ensures GcUnmask(GcUnmask(p)) == GcUnmask(p)
  {
    hide GcUnmask;
    UnmaskValue(p);
    UnmaskValue(GcUnmask(p));
  }

  /** Each goroutine has exactly one entry. */
  ghost predicate Lists(names: seq<Address>, keys: set<nat>) {
    && (forall i | 0 <= i < |names| :: names[i] in keys)
    && (forall g | g in keys :: exists i :: 0 <= i < |names| && names[i] == g)
    && (forall i, j | 0 <= i < j < |names| :: names[i] != names[j])
  }

  lemma SwapLists(names: seq<Address>, i: nat, j: nat, keys: set<nat>)
    requires i < |names| && j < |names| && Lists(names, keys)
    ensures Lists(names[i := names[j]][j := names[i]], keys)
  {
    var swapped := names[i := names[j]][j := names[i]];
    forall g | g in keys
      ensures exists k :: 0 <= k < |swapped| && swapped[k] == g
    {
      var k :| 0 <= k < |names| && names[k] == g;
      var at := if k == i then j else if k == j then i else k;
      assert swapped[at] == g;
    }
  }

  // ----- The collector -----

  /** Roots to the left of valid are plain addresses; those to the right belong to blocked
      goroutines. */
  ghost predicate RootsOk(roots: seq<Word>, valid: nat, gs: map<nat, G>) {
    && valid <= |roots| && Lists(Names(roots), gs.Keys)
    && (forall k | 0 <= k < valid :: roots[k] == Unmasked(roots[k]))
    && (forall k | valid <= k < |roots| ::
        Unmasked(roots[k]) in gs && !UnblockingWaitReason(gs[Unmasked(roots[k])].reason))
  }

  /** Everything marked has been scanned, and so have the globals and the first roots. */
  ghost predicate MarksOk(h: Heap, gs: map<nat, G>, roots: seq<Word>, marked: set<nat>, globals: bool, done: int) {
    GreyOk(h, marked, {}) && MarksDone(h, gs, roots, marked, globals, done)
  }

  /** Entry k belongs to a goroutine that may be woken, or to one that may not. */
  predicate RunnableAt(h: Heap, marked: set<nat>, gs: map<nat, G>, roots: seq<Word>, k: nat, runnable: bool) {
    k < |roots| && Unmasked(roots[k]) in gs && (StackRootValid(h, marked, gs[Unmasked(roots[k])]) <==> runnable)
  }

  ghost predicate RunnableIn(h: Heap, marked: set<nat>, gs: map<nat, G>, roots: seq<Word>, lo: nat, hi: nat,
                             runnable: bool) {
    forall k | lo <= k < hi :: RunnableAt(h, marked, gs, roots, k, runnable)
  }

  lemma RangeUpdate(h: Heap, marked: set<nat>, gs: map<nat, G>, roots: seq<Word>, lo: nat, hi: nat, runnable: bool,
                    at: nat, x: Word)
    requires RunnableIn(h, marked, gs, roots, lo, hi, runnable) && at < |roots| && !(lo <= at < hi)
    ensures RunnableIn(h, marked, gs, roots[at := x], lo, hi, runnable)
  {
    hide StackRootValid;
    var changed := roots[at := x];
    forall k | lo <= k < hi
      ensures RunnableAt(h, marked, gs, changed, k, runnable)
    {
      assert RunnableAt(h, marked, gs, roots, k, runnable);
    }
  }

  /** Entry k belongs to a goroutine that is awake or may be woken, or to one that is not. */
  predicate AwakeAt(h: Heap, marked: set<nat>, gs: map<nat, G>, roots: seq<Word>, k: nat, awake: bool) {
    && k < |roots| && Unmasked(roots[k]) in gs
    && (!gs[Unmasked(roots[k])].status.Waiting? || StackRootValid(h, marked, gs[Unmasked(roots[k])]) <==> awake)
  }

  ghost predicate AwakeIn(h: Heap, marked: set<nat>, gs: map<nat, G>, roots: seq<Word>, lo: nat, hi: nat, awake: bool) {
    forall k | lo <= k < hi :: AwakeAt(h, marked, gs, roots, k, awake)
  }

  /** Promoting entry i swaps it with the first entry that is not awake. */
  lemma PromoteRoot(h: Heap, marked: set<nat>, gs: map<nat, G>, roots: seq<Word>, start: nat, v: nat, i: nat)
    requires RootsOk(roots, v, gs) && start <= v <= i < |roots|
    requires AwakeIn(h, marked, gs, roots, start, v, true) && AwakeIn(h, marked, gs, roots, v, i, false)
    requires AwakeAt(h, marked, gs, roots, i, true)
    ensures var after := roots[i := roots[v]][v := GcUnmask(roots[i])];
            && RootsOk(after, v + 1, gs) && after[..start] == roots[..start]
            && AwakeIn(h, marked, gs, after, start, v + 1, true) && AwakeIn(h, marked, gs, after, v + 1, i + 1, false)
  {
    hide StackRootValid, RootsOk, GcUnmask;
    var after := roots[i := roots[v]][v := GcUnmask(roots[i])];
    UnmaskTwice(roots[i]);
    if v == i {
      assert after == roots[v := GcUnmask(roots[v])];
      MoveRoot(roots, v, gs);
    } else {
      SwapRoots(roots, v, i, gs);
    }
    forall k | start <= k < v + 1
      ensures AwakeAt(h, marked, gs, after, k, true)
    {
      assert k < v ==> AwakeAt(h, marked, gs, roots, k, true);
    }
    forall k | v + 1 <= k < i + 1
      ensures AwakeAt(h, marked, gs, after, k, false)
    {
      assert AwakeAt(h, marked, gs, roots, if k < i then k else v, false);
    }
  }

  /** What becomes of a reported goroutine: in mode 1 it is shut down, in mode 2 it is kept. */
  function Reclaimed(mode: nat, gp: G): (r: G) {
    if mode == 1 then G(Dead, OtherReason, [], 0, 0, {}) else gp.(status := Deadlocked)
  }

  /** What the modes promise about a reported goroutine: mode 1 ends it, and nothing it held is kept
      for its sake; mode 2 keeps it, blocked as it was, with all that its stack refers to. */
  predicate ShutOrKept(mode: nat, gp: G, r: G, marked: set<nat>) {
    && (mode == 1 ==> r.status.Dead? && r.stack == {})
    && (mode == 2 ==>
          && r.status.Deadlocked? && r.reason == gp.reason && r.channels == gp.channels
          && r.sema == gp.sema && r.notifier == gp.notifier && r.stack == gp.stack <= marked)
  }

  lemma TurnedKept(h: Heap, mode: nat, before: map<nat, G>, after: map<nat, G>, roots: seq<Word>, start: nat, rest: nat,
                   marked: set<nat>)
    requires Turned(before, after, Names(roots), start, |roots|, mode, rest) && (mode == 1 || mode == 2)
    requires MarksDone(h, after, roots, marked, true, |roots|)
    ensures forall k | start <= k < |roots| ::
              && Unmasked(roots[k]) in before && Unmasked(roots[k]) in after
              && ShutOrKept(mode, before[Unmasked(roots[k])], after[Unmasked(roots[k])], marked)
  {
    forall k | start <= k < |roots|
      ensures Unmasked(roots[k]) in before && Unmasked(roots[k]) in after
      ensures ShutOrKept(mode, before[Unmasked(roots[k])], after[Unmasked(roots[k])], marked)
    {
      assert Names(roots)[k] == Unmasked(roots[k]);
    }
  }

  /** Exactly the goroutines behind valid are reported; they were asleep, and nothing they wait on
      was marked. */
  ghost predicate Reported(h: Heap, mode: nat, gs: map<nat, G>, after: map<nat, G>, marked: set<nat>,
                           names: seq<Address>, valid: nat) {
    && after.Keys == gs.Keys
    && forall k | 0 <= k < |names| :: names[k] in gs &&
         if k < valid then after[names[k]] == gs[names[k]]
         else
           && IsBlocked(gs[names[k]]) && !StackRootValid(h, marked, gs[names[k]])
           && after[names[k]] == Reclaimed(mode, gs[names[k]])
  }

  lemma NothingToReport(h: Heap, mode: nat, gs: map<nat, G>, marked: set<nat>, roots: seq<Word>)
    requires RootsOk(roots, |roots|, gs)
    ensures Reported(h, mode, gs, gs, marked, Names(roots), |roots|)
  {
  }

  /** The program the collector leaves is the one it found, without the reported goroutines in mode 1,
      and with them cut off for good in mode 2. */
  lemma ProgramLeft(h: Heap, mode: nat, gs: map<nat, G>, after: map<nat, G>, live: set<nat>, marked: set<nat>)
    requires HeapOk(h) && Consistent(h, gs, live, marked) && (mode == 1 || mode == 2) && after.Keys == gs.Keys
    requires forall g | g in after :: after[g] == if g in live then gs[g] else Reclaimed(mode, gs[g])
    ensures Left(mode, ProgramOf(h, gs), ProgramOf(h, after), gs.Keys - live, h.refs.Keys - marked)
  {
    var p, q, dead := ProgramOf(h, gs), ProgramOf(h, after), gs.Keys - live;
    UnliveAreCut(h, gs, live, marked);
    DeadWait(h, gs, live, marked);
    hide Consistent, IsBlocked, StackRootValid, HeapOk, Cut, ProgramOf, Without;
    OthersLeft(h, mode, gs, after, dead);
    if mode == 1 {
      DeadGone(h, gs, after, dead);
    } else {
      forall g | g in dead
        ensures g in q.threads && q.threads[g].wait == Blocked({})
      {
        DeadKept(h, after, g);
      }
      CutKept(p, q, dead, h.refs.Keys - marked);
    }
  }

  lemma DeadWait(h: Heap, gs: map<nat, G>, live: set<nat>, marked: set<nat>)
    requires Consistent(h, gs, live, marked)
    ensures forall g | g in gs.Keys - live :: gs[g].status.Waiting?
  {
  }

  lemma OthersLeft(h: Heap, mode: nat, gs: map<nat, G>, after: map<nat, G>, dead: set<nat>)
    requires after.Keys == gs.Keys
    requires forall g | g in after :: after[g] == if g in dead then Reclaimed(mode, gs[g]) else gs[g]
    ensures Without(ProgramOf(h, after), dead) == Without(ProgramOf(h, gs), dead)
  {
    hide WaitOf, Reclaimed;
    assert Without(ProgramOf(h, after), dead).threads == Without(ProgramOf(h, gs), dead).threads;
  }

  lemma DeadGone(h: Heap, gs: map<nat, G>, after: map<nat, G>, dead: set<nat>)
    requires after.Keys == gs.Keys
    requires forall g | g in after :: after[g] == if g in dead then Reclaimed(1, gs[g]) else gs[g]
    ensures ProgramOf(h, after) == Without(ProgramOf(h, gs), dead)
  {
    hide WaitOf;
    assert ProgramOf(h, after).threads == ProgramOf(h, gs).threads - dead;
  }

  lemma DeadKept(h: Heap, gs: map<nat, G>, g: nat)
    requires g in gs && gs[g].status.Deadlocked?
    ensures g in ProgramOf(h, gs).threads && ProgramOf(h, gs).threads[g].wait == Blocked({})
  {
  }

  lemma CutKept(p: Program, q: Program, dead: set<nat>, lost: set<nat>)
    requires Cut(p, dead, lost) && Without(q, dead) == Without(p, dead)
    requires forall g | g in dead :: g in q.threads && q.threads[g].wait == Blocked({})
    ensures Cut(q, dead, lost)
  {
    forall g | g in q.threads && g !in dead
      ensures q.threads[g].stack !! lost
    {
      WithoutThread(q, g, dead);
      assert g in Without(p, dead).threads;
      assert g in p.threads;
      WithoutThread(p, g, dead);
    }
  }

  ghost predicate Left(mode: nat, p: Program, q: Program, dead: set<nat>, lost: set<nat>) {
    && Cut(p, dead, lost) && Without(q, dead) == Without(p, dead)
    && (mode == 1 ==> q == Without(p, dead)) && (mode == 2 ==> Cut(q, dead, lost))
  }

  /** What a step of the report makes of a goroutine; 0 marks it unreachable, 3 leaves it alone. */
  function Turn(code: nat, gp: G): (r: G) {
    if code == 0 then gp.(status := Unreachable) else if code == 3 then gp else Reclaimed(code, gp)
  }

  /** The goroutines from start to mid have been turned one way, those behind another way. */
  ghost predicate Turned(before: map<nat, G>, after: map<nat, G>, names: seq<Address>, start: nat, mid: nat, code: nat,
                         rest: nat) {
    && after.Keys == before.Keys
    && forall k | 0 <= k < |names| :: names[k] in before
         && after[names[k]] == Turn(if k < start then 3 else if k < mid then code else rest, before[names[k]])
  }

  lemma NotTurned(gs: map<nat, G>, names: seq<Address>, start: nat, roots: seq<Word>)
    requires names == Names(roots) && RootsOk(roots, start, gs)
    ensures Turned(gs, gs, names, start, start, 0, 3)
  {
  }

  lemma MarksFrame(h: Heap, gs: map<nat, G>, roots: seq<Word>, more: seq<Word>, marked: set<nat>, globals: bool,
                   done: int, valid: nat)
    requires MarksOk(h, gs, roots, marked, globals, done) && done <= valid <= |roots| && valid <= |more|
    requires more[..valid] == roots[..valid]
    ensures MarksOk(h, gs, more, marked, globals, done)
  {
    forall k | 0 <= k < done && k < |more|
      ensures Unmasked(more[k]) in gs ==> gs[Unmasked(more[k])].stack <= marked
    {
      assert more[..valid][k] == roots[..valid][k];
    }
  }

  lemma MoveRoot(roots: seq<Word>, v: nat, gs: map<nat, G>)
    requires RootsOk(roots, v, gs) && v < |roots|
    ensures RootsOk(roots[v := GcUnmask(roots[v])], v + 1, gs)
  {
    hide GcUnmask, Lists;
    var moved := roots[v := GcUnmask(roots[v])];
    UnmaskTwice(roots[v]);
    NamesUpdate(roots, v, GcUnmask(roots[v]));
    assert Names(moved) == Names(roots);
  }

  lemma SwapRoots(roots: seq<Word>, v: nat, iv: nat, gs: map<nat, G>)
    requires RootsOk(roots, v, gs) && v < iv < |roots|
    ensures RootsOk(roots[iv := roots[v]][v := GcUnmask(roots[iv])], v + 1, gs)
  {
    hide GcUnmask, Lists;
    var name := GcUnmask(roots[iv]);
    UnmaskTwice(roots[iv]);
    NamesUpdate(roots, iv, roots[v]);
    NamesUpdate(roots[iv := roots[v]], v, name);
    SwapLists(Names(roots), iv, v, gs.Keys);
  }

  ghost predicate StacksOk(h: Heap, gs: map<nat, G>) { forall g | g in gs :: gs[g].stack <= h.refs.Keys }

  /** What the marker must not exceed: a set that holds the old marks, the globals and the stacks
      of the first roots, and whatever they refer to. */
  ghost predicate Absorbs(h: Heap, gs: map<nat, G>, roots: seq<Word>, valid: nat, marked: set<nat>, m: set<nat>) {
    && marked <= m && Closed(h, m)
    && (forall k | 0 <= k < valid && k < |roots| :: Unmasked(roots[k]) in gs ==> gs[Unmasked(roots[k])].stack <= m)
  }

  /** Grey objects are marked but not yet scanned. */
  ghost predicate GreyOk(h: Heap, marked: set<nat>, grey: set<nat>) {
    marked <= h.refs.Keys && grey <= marked
    && forall o | o in marked && o !in grey && o in h.refs :: h.refs[o] <= marked
  }

  class Collector {
    const heap: Heap
    const mode: nat
    const baseStacks: nat
    const stackRoots: array<Word>
    var gs: map<nat, G>
    var marked: set<nat>
    var nValidStackRoots: nat
    var markrootJobs: nat
    var markrootNext: nat

    ghost predicate Valid()
      reads this, stackRoots
    {
      && HeapOk(heap) && StacksOk(heap, gs) && 0 < baseStacks && (mode == 1 || mode == 2)
      && markrootJobs == baseStacks + nValidStackRoots && markrootNext <= markrootJobs
      && RootsOk(stackRoots[..], nValidStackRoots, gs)
      && MarksOk(heap, gs, stackRoots[..], marked, baseStacks <= markrootNext, markrootNext - baseStacks)
    }

    /** No goroutine to the left is there without need, and nothing is marked without need. */
    ghost predicate Needed()
      reads this, stackRoots
    {
      OnlyNeeded(heap, gs, stackRoots[..], nValidStackRoots, marked)
    }

    /** What became of the roots from start on. */
    ghost predicate AllShutOrKept(before: map<nat, G>, start: nat)
      reads this, stackRoots
    {
      forall k | start <= k < stackRoots.Length ::
        var g := Unmasked(stackRoots[k]);
        g in before && g in gs && ShutOrKept(mode, before[g], gs[g], marked)
    }

    /** The start of a cycle: the roots are a snapshot, and nothing is marked. */
    constructor (heap: Heap, mode: nat, baseStacks: nat, gs: map<nat, G>, ghost names: seq<Address>,
                 sorted: array<Word>, count: nat)
      requires HeapOk(heap) && StacksOk(heap, gs) && 0 < baseStacks && (mode == 1 || mode == 2)
      requires Lists(names, gs.Keys) && count <= sorted.Length
      requires sorted[..count] == Runners(gs, names) && sorted[count..] == Sleepers(gs, names)
      ensures Valid() && Needed() && this.heap == heap && this.mode == mode && this.gs == gs
    {
      this.heap, this.mode, this.baseStacks, this.gs, this.stackRoots := heap, mode, baseStacks, gs, sorted;
      marked, nValidStackRoots, markrootNext := {}, count, 0;
      markrootJobs := baseStacks + count;
      new;
      SnapshotRoots(heap, gs, names, sorted[..], count, baseStacks);
    }

    /** Reorder the goroutine list: move all roots that have become valid to the left, and make
        them marking jobs. */
    method GcDiscoverMoreStackRoots()
      requires Valid()
      modifies stackRoots, this`nValidStackRoots, this`markrootJobs
      ensures Valid()
      ensures old(nValidStackRoots) <= nValidStackRoots
      ensures stackRoots[..old(nValidStackRoots)] == old(stackRoots[..nValidStackRoots])
      ensures RunnableIn(heap, marked, gs, stackRoots[..], old(nValidStackRoots), nValidStackRoots, true)
      ensures RunnableIn(heap, marked, gs, stackRoots[..], nValidStackRoots, stackRoots.Length, false)
    {
      hide StackRootValid, HeapOk, MarksOk, RootsOk, GcUnmask;
      var v, iv := nValidStackRoots, stackRoots.Length;
      ghost var first := stackRoots[..];
      RootsBounded(first, v, gs);
      while v < iv
        modifies stackRoots
        invariant nValidStackRoots <= v <= iv <= stackRoots.Length
        invariant RootsOk(stackRoots[..], v, gs)
        invariant stackRoots[..nValidStackRoots] == first[..nValidStackRoots]
        invariant RunnableIn(heap, marked, gs, stackRoots[..], nValidStackRoots, v, true)
        invariant RunnableIn(heap, marked, gs, stackRoots[..], iv, stackRoots.Length, false)
        decreases iv - v
      {
        var p := stackRoots[v];
        RootNamed(stackRoots[..], v, v, gs);
        var gp := GcUnmask(p);
        UnmaskTwice(p);
        ghost var before := stackRoots[..];
        if StackRootValid(heap, marked, gs[gp]) {
          MoveRoot(before, v, gs);
          stackRoots[v] := gp;
          assert stackRoots[..] == before[v := gp];
          RangeUpdate(heap, marked, gs, before, nValidStackRoots, v, true, v, gp);
          RangeUpdate(heap, marked, gs, before, iv, stackRoots.Length, false, v, gp);
          v := v + 1;
        } else {
          while true
            modifies stackRoots
            invariant v < iv <= stackRoots.Length && stackRoots[..] == before
            invariant RunnableIn(heap, marked, gs, before, iv, stackRoots.Length, false)
            decreases iv
          {
            iv := iv - 1;
            if iv == v {
              break;
            }
            RootNamed(before, v, iv, gs);
            var swapGp := GcUnmask(stackRoots[iv]);
            UnmaskTwice(stackRoots[iv]);
            if StackRootValid(heap, marked, gs[swapGp]) {
              SwapRoots(before, v, iv, gs);
              stackRoots[iv] := p;
              stackRoots[v] := swapGp;
              assert stackRoots[..] == before[iv := p][v := swapGp];
              RangeUpdate(heap, marked, gs, before, nValidStackRoots, v, true, iv, p);
              RangeUpdate(heap, marked, gs, before[iv := p], nValidStackRoots, v, true, v, swapGp);
              RangeUpdate(heap, marked, gs, before, iv + 1, stackRoots.Length, false, iv, p);
              RangeUpdate(heap, marked, gs, before[iv := p], iv + 1, stackRoots.Length, false, v, swapGp);
              v := v + 1;
              break;
            }
          }
        }
      }
      MarksFrame(heap, gs, first, stackRoots[..], marked, baseStacks <= markrootNext, markrootNext - baseStacks,
        nValidStackRoots);
      var newRootJobs := baseStacks + v;
      if newRootJobs > markrootJobs {
        nValidStackRoots := v;
        markrootJobs := newRootJobs;
      }
    }

    /** Drain the root jobs, then the grey objects: everything reachable is marked. */
    method GcDrain()
      requires Valid()
      modifies this`marked, this`markrootNext
      ensures Valid() && markrootNext == markrootJobs
      ensures old(marked) <= marked
      ensures forall m :: Absorbs(heap, gs, stackRoots[..], nValidStackRoots, old(marked), m) ==> marked <= m
    {
      hide Absorbs, RootsOk, GcUnmask, StacksOk;
      ghost var roots := stackRoots[..];
      RootsBounded(roots, nValidStackRoots, gs);
      AbsorbsMarked(heap, gs, roots, nValidStackRoots, marked);
      var grey: set<nat> := {};
      while markrootNext < markrootJobs
        invariant markrootNext <= markrootJobs && old(marked) <= marked
        invariant GreyOk(heap, marked, grey)
        invariant MarksDone(heap, gs, roots, marked, baseStacks <= markrootNext, markrootNext - baseStacks)
        invariant forall m :: Absorbs(heap, gs, roots, nValidStackRoots, old(marked), m) ==> marked <= m
      {
        if markrootNext >= baseStacks {
          RootNamed(roots, nValidStackRoots, markrootNext - baseStacks, gs);
          RootPlain(roots, nValidStackRoots, markrootNext - baseStacks, gs);
        }
        var found := if markrootNext < baseStacks then heap.globals
                     else gs[stackRoots[markrootNext - baseStacks]].stack;
        FoundOk(heap, gs, roots, nValidStackRoots, old(marked), baseStacks, markrootNext);
        grey := grey + (found - marked);
        marked := marked + found;
        markrootNext := markrootNext + 1;
      }
      while grey != {}
        invariant markrootNext == markrootJobs && old(marked) <= marked
        invariant GreyOk(heap, marked, grey)
        invariant MarksDone(heap, gs, roots, marked, true, nValidStackRoots)
        invariant forall m :: Absorbs(heap, gs, roots, nValidStackRoots, old(marked), m) ==> marked <= m
        decreases heap.refs.Keys - marked, grey
      {
        var o :| o in grey;
        var found := heap.refs[o] - marked;
        ScanOk(heap, gs, roots, nValidStackRoots, old(marked), marked, o);
        grey := grey - {o} + found;
        marked := marked + found;
      }
    }

    /** Look once more for goroutines that can run; report those that cannot, and let the last
        marking jobs reclaim them or keep them. False means that there is more to mark. */
    method DetectPartialDeadlocks() returns (done: bool)
      requires Valid() && markrootNext == markrootJobs
      modifies this, stackRoots
      ensures Valid()
      ensures gs.Keys == old(gs.Keys)
      ensures !done ==>
        && gs == old(gs) && marked == old(marked) && markrootNext == old(markrootNext)
        && old(nValidStackRoots) < nValidStackRoots
        && stackRoots[..old(nValidStackRoots)] == old(stackRoots[..nValidStackRoots])
        && AwakeIn(heap, marked, gs, stackRoots[..], old(nValidStackRoots), nValidStackRoots, true)
      ensures done ==>
        && nValidStackRoots == stackRoots.Length
        && Names(stackRoots[..]) == old(Names(stackRoots[..]))
        && Reported(heap, mode, old(gs), gs, old(marked), old(Names(stackRoots[..])), old(nValidStackRoots))
        && AllShutOrKept(old(gs), old(nValidStackRoots)) && Closed(heap, marked)
    {
      hide StackRootValid, HeapOk, MarksOk, RootsOk, GcUnmask, StacksOk, Closed, ShutOrKept;
      ghost var first := stackRoots[..];
      ghost var start := nValidStackRoots;
      RootsBounded(first, start, gs);
      if nValidStackRoots == stackRoots.Length {
        NothingToReport(heap, mode, gs, marked, first);
        DrainedMarks(heap, gs, first, marked, start);
        return true;
      }
      var foundMoreWork := false;
      for i := nValidStackRoots to stackRoots.Length
        invariant start <= nValidStackRoots <= i && markrootJobs == baseStacks + nValidStackRoots
        invariant RootsOk(stackRoots[..], nValidStackRoots, gs)
        invariant stackRoots[..start] == first[..start]
        invariant gs == old(gs) && marked == old(marked) && markrootNext == old(markrootNext)
        invariant AwakeIn(heap, marked, gs, stackRoots[..], start, nValidStackRoots, true)
        invariant AwakeIn(heap, marked, gs, stackRoots[..], nValidStackRoots, i, false)
        invariant foundMoreWork <==> nValidStackRoots > start
        invariant !foundMoreWork ==> stackRoots[..] == first
      {
        ghost var before := stackRoots[..];
        RootNamed(before, nValidStackRoots, i, gs);
        var gp := GcUnmask(stackRoots[i]);
        UnmaskTwice(stackRoots[i]);
        if gs[gp].status.Waiting? && !StackRootValid(heap, marked, gs[gp]) {
          continue;
        }
        PromoteRoot(heap, marked, gs, before, start, nValidStackRoots, i);
        stackRoots[i] := stackRoots[nValidStackRoots];
        stackRoots[nValidStackRoots] := gp;
        assert stackRoots[..] == before[i := before[nValidStackRoots]][nValidStackRoots := gp];
        nValidStackRoots := nValidStackRoots + 1;
        markrootJobs := markrootJobs + 1;
        foundMoreWork := true;
      }
      MarksFrame(heap, gs, first, stackRoots[..], marked, baseStacks <= markrootNext, markrootNext - baseStacks, start);
      if foundMoreWork {
        return false;
      }
      AllAsleep(heap, mode, gs, marked, first, nValidStackRoots);
      ReportDeadlocks();
      done := true;
    }

    /** The end of detectPartialDeadlocks: mark the remaining goroutines unreachable, make them
        marking jobs, and drain those. */
    method ReportDeadlocks()
      requires Valid() && markrootNext == markrootJobs
      requires forall k | nValidStackRoots <= k < stackRoots.Length ::
                 Unmasked(stackRoots[k]) in gs && IsBlocked(gs[Unmasked(stackRoots[k])])
      modifies this`gs, this`marked, this`nValidStackRoots, this`markrootJobs, this`markrootNext, stackRoots
      ensures Valid() && nValidStackRoots == stackRoots.Length
      ensures Names(stackRoots[..]) == old(Names(stackRoots[..]))
      ensures Turned(old(gs), gs, old(Names(stackRoots[..])), old(nValidStackRoots), stackRoots.Length, mode, 3)
      ensures AllShutOrKept(old(gs), old(nValidStackRoots)) && Closed(heap, marked)
    {
      hide HeapOk, MarksOk, RootsOk, GcUnmask, StacksOk, Turned, ShutOrKept;
      ghost var first, names, start, gs0 := stackRoots[..], Names(stackRoots[..]), nValidStackRoots, gs;
      RootsBounded(first, start, gs);
      NotTurned(gs, names, start, first);
      for i := nValidStackRoots to stackRoots.Length
        invariant nValidStackRoots == start && markrootNext == markrootJobs == baseStacks + start
        invariant marked == old(marked) && StacksOk(heap, gs)
        invariant RootsOk(stackRoots[..], i, gs) && Names(stackRoots[..]) == names
        invariant stackRoots[..start] == first[..start]
        invariant Turned(gs0, gs, names, start, i, 0, 3)
      {
        ghost var before := stackRoots[..];
        RootNamed(before, i, i, gs);
        var gp := GcUnmask(stackRoots[i]);
        UnmaskTwice(stackRoots[i]);
        RootsListed(before, i, gs);
        TurnStep(heap, gs0, gs, before, start, i, 0, 3);
        MoveRoot(before, i, gs);
        RootsStatus(before[i := gp], i + 1, gs, gp, gs[gp].(status := Unreachable));
        NamesUpdate(before, i, gp);
        gs := gs[gp := gs[gp].(status := Unreachable)];
        stackRoots[i] := gp;
        assert stackRoots[..] == before[i := gp];
      }
      ghost var roots := stackRoots[..];
      MarksFrame(heap, gs0, first, roots, marked, true, start, start);
      MarksTurned(heap, gs0, gs, roots, marked, start);
      TurnedOver(gs0, gs, names, start, mode);
      markrootJobs := markrootJobs + (stackRoots.Length - nValidStackRoots);
      DrainDeadlocks(gs0);
      nValidStackRoots := stackRoots.Length;
      TurnedAll(gs0, gs, names, start, mode);
      MarksBoth(heap, gs, stackRoots[..], marked, true, markrootNext - baseStacks);
    }

    /** gcDrain once more, over the roots of the reported goroutines: markroot shuts them down, or
        keeps them as deadlocked and scans their stacks. */
    method DrainDeadlocks(ghost gs0: map<nat, G>)
      requires HeapOk(heap) && StacksOk(heap, gs) && StacksOk(heap, gs0) && (mode == 1 || mode == 2)
      requires 0 < baseStacks && nValidStackRoots <= stackRoots.Length
      requires markrootNext == baseStacks + nValidStackRoots && markrootJobs == baseStacks + stackRoots.Length
      requires RootsOk(stackRoots[..], stackRoots.Length, gs)
      requires GreyOk(heap, marked, {}) && MarksDone(heap, gs, stackRoots[..], marked, true, nValidStackRoots)
      requires Turned(gs0, gs, Names(stackRoots[..]), nValidStackRoots, nValidStackRoots, mode, 0)
      modifies this`gs, this`marked, this`markrootNext
      ensures StacksOk(heap, gs) && markrootNext == markrootJobs
      ensures RootsOk(stackRoots[..], stackRoots.Length, gs)
      ensures GreyOk(heap, marked, {}) && MarksDone(heap, gs, stackRoots[..], marked, true, stackRoots.Length)
      ensures Turned(gs0, gs, Names(stackRoots[..]), nValidStackRoots, stackRoots.Length, mode, 0)
      ensures AllShutOrKept(gs0, nValidStackRoots)
    {
      hide RootsOk, GcUnmask, StacksOk, Turned, ShutOrKept, Turn;
      ghost var roots := stackRoots[..];
      ghost var size := stackRoots.Length;
      var grey: set<nat> := {};
      while markrootNext < markrootJobs
        invariant baseStacks + nValidStackRoots <= markrootNext <= markrootJobs
        invariant StacksOk(heap, gs) && RootsOk(roots, size, gs) && GreyOk(heap, marked, grey)
        invariant MarksDone(heap, gs, roots, marked, true, markrootNext - baseStacks)
        invariant Turned(gs0, gs, Names(roots), nValidStackRoots, markrootNext - baseStacks, mode, 0)
      {
        var i := markrootNext - baseStacks;
        RootNamed(roots, size, i, gs);
        RootPlain(roots, size, i, gs);
        RootsListed(roots, size, gs);
        TurnStep(heap, gs0, gs, roots, nValidStackRoots, i, mode, 0);
        var gp := stackRoots[i];
        MarksOther(heap, gs, roots, marked, i, Turn(mode, gs0[gp]));
        RootsRekeyed(roots, gs, gs[gp := Turn(mode, gs0[gp])]);
        MarkRoot(gp, gs0[gp]);
        var found := gs[gp].stack;
        FoundMore(heap, gs, roots, marked, i);
        grey := grey + (found - marked);
        marked := marked + found;
        markrootNext := markrootNext + 1;
      }
      Blacken(grey, roots, size);
      TurnedKept(heap, mode, gs0, gs, roots, nValidStackRoots, 0, marked);
    }

    /** What markroot does about a goroutine's status before it scans the stack. */
    method MarkRoot(gp: nat, ghost before: G)
      requires gp in gs && gs[gp] == Turn(0, before) && (mode == 1 || mode == 2)
      modifies this`gs
      ensures gs == old(gs)[gp := Turn(mode, before)]
    {
      if gs[gp].status.Unreachable? {
        if mode == 1 {
          gs := gs[gp := G(Dead, OtherReason, [], 0, 0, {})];
        } else {
          gs := gs[gp := gs[gp].(status := Deadlocked)];
        }
      }
    }

    /** Scan the grey objects, and what they lead to, until none is left. */
    method Blacken(work: set<nat>, ghost roots: seq<Word>, ghost size: nat)
      requires HeapOk(heap) && GreyOk(heap, marked, work) && MarksDone(heap, gs, roots, marked, true, size)
      modifies this`marked
      ensures GreyOk(heap, marked, {}) && MarksDone(heap, gs, roots, marked, true, size)
    {
      var grey := work;
      while grey != {}
        invariant GreyOk(heap, marked, grey) && MarksDone(heap, gs, roots, marked, true, size)
        decreases heap.refs.Keys - marked, grey
      {
        var o :| o in grey;
        var found := heap.refs[o] - marked;
        RefsInHeap(heap, o);
        grey := grey - {o} + found;
        marked := marked + found;
      }
    }

    /** Marking and detection in turns, until every goroutine is a root: what is reported are
        exactly the goroutines outside the least consistent live set. */
    method GcMarkDone() returns (ghost live: set<nat>, ghost marks: set<nat>)
      requires Valid() && Needed()
      modifies this, stackRoots
      ensures Valid() && nValidStackRoots == stackRoots.Length
      ensures LeastLive(heap, old(gs), live, marks)
      ensures gs.Keys == old(gs.Keys)
      ensures forall g | g in gs :: gs[g] == if g in live then old(gs)[g] else Reclaimed(mode, old(gs)[g])
      ensures forall g | g in gs && g !in live :: ShutOrKept(mode, old(gs)[g], gs[g], marked)
      ensures Closed(heap, marked)
      ensures Left(mode, ProgramOf(heap, old(gs)), ProgramOf(heap, gs), old(gs).Keys - live, heap.refs.Keys - marks)
    {
      hide Left, ProgramOf, LeastLive, OnlyNeeded, RootsOk, MarksOk, HeapOk, StacksOk, Absorbs, RunnableIn, AwakeIn,
           Reported, ShutOrKept, Closed;
      while true
        invariant Valid() && Needed() && gs == old(gs)
        decreases stackRoots.Length - nValidStackRoots, markrootJobs - markrootNext
      {
        ghost var roots, n, before := stackRoots[..], nValidStackRoots, marked;
        RootsBounded(roots, n, gs);
        GcDiscoverMoreStackRoots();
        RootsBounded(stackRoots[..], nValidStackRoots, gs);
        NeededMore(heap, gs, roots, stackRoots[..], n, nValidStackRoots, marked);
        if markrootNext < markrootJobs {
          GcDrain();
          NeededMarks(heap, gs, stackRoots[..], nValidStackRoots, before, marked);
          continue;
        }
        roots, n := stackRoots[..], nValidStackRoots;
        live, marks := LiveNames(roots, n), marked;
        DrainedMarks(heap, gs, roots, marked, n);
        RootsListed(roots, n, gs);
        var done := DetectPartialDeadlocks();
        if done {
          OthersReported(old(gs), gs, mode, stackRoots[..], roots, n, marked);
          ReportIsExact(heap, mode, old(gs), gs, roots, n, marks);
          LeastConsistent(heap, old(gs), live, marks);
          ProgramLeft(heap, mode, old(gs), gs, live, marks);
          return;
        }
        RootsBounded(stackRoots[..], nValidStackRoots, gs);
        NeededMore(heap, gs, roots, stackRoots[..], n, nValidStackRoots, marked);
      }
    }
  }

  lemma OthersReported(before: map<nat, G>, after: map<nat, G>, mode: nat, roots: seq<Word>, first: seq<Word>, n: nat,
                       marked: set<nat>)
    requires Names(roots) == Names(first) && Lists(Names(first), before.Keys) && n <= |first|
    requires forall k | n <= k < |roots| ::
               var g := Unmasked(roots[k]);
               g in before && g in after && ShutOrKept(mode, before[g], after[g], marked)
    ensures forall g | g in before && g !in LiveNames(first, n) ::
              g in after && ShutOrKept(mode, before[g], after[g], marked)
  {
    hide ShutOrKept, GcUnmask;
    forall g | g in before && g !in LiveNames(first, n)
      ensures g in after && ShutOrKept(mode, before[g], after[g], marked)
    {
      var k :| 0 <= k < |Names(first)| && Names(first)[k] == g;
      assert Unmasked(first[k]) == g == Names(roots)[k] == Unmasked(roots[k]);
    }
  }

  lemma LeastConsistent(h: Heap, gs: map<nat, G>, live: set<nat>, marked: set<nat>)
    requires LeastLive(h, gs, live, marked)
    ensures Consistent(h, gs, live, marked)
  {
  }

  /** Every consistent pair has all these marks, and all the first roots live. */
  ghost predicate OnlyNeeded(h: Heap, gs: map<nat, G>, roots: seq<Word>, valid: nat, marked: set<nat>) {
    forall l: set<nat>, m: set<nat> :: Consistent(h, gs, l, m) ==> marked <= m && LiveNames(roots, valid) <= l
  }

  ghost function LiveNames(roots: seq<Word>, valid: nat): (live: set<nat>) {
    set k | 0 <= k < valid && k < |roots| :: Unmasked(roots[k])
  }

  ghost predicate MarksDone(h: Heap, gs: map<nat, G>, roots: seq<Word>, marked: set<nat>, globals: bool, done: int) {
    && (globals ==> h.globals <= marked)
    && (forall k | 0 <= k < done && k < |roots| :: Unmasked(roots[k]) in gs ==> gs[Unmasked(roots[k])].stack <= marked)
  }

  lemma RootsBounded(roots: seq<Word>, v: nat, gs: map<nat, G>)
    requires RootsOk(roots, v, gs)
    ensures v <= |roots|
  {
  }

  lemma RootNamed(roots: seq<Word>, v: nat, k: nat, gs: map<nat, G>)
    requires RootsOk(roots, v, gs) && k < |roots|
    ensures Unmasked(roots[k]) in gs
  {
    assert Names(roots)[k] == Unmasked(roots[k]);
  }

  lemma RootPlain(roots: seq<Word>, v: nat, k: nat, gs: map<nat, G>)
    requires RootsOk(roots, v, gs) && k < v
    ensures k < |roots| && roots[k] == GcUnmask(roots[k])
  {
    hide GcUnmask, Lists;
  }

  lemma AbsorbsMarked(h: Heap, gs: map<nat, G>, roots: seq<Word>, valid: nat, marked: set<nat>)
    ensures forall m :: Absorbs(h, gs, roots, valid, marked, m) ==> marked <= m
  {
  }

  /** A root job finds nothing the marker must not mark. */
  lemma FoundOk(h: Heap, gs: map<nat, G>, roots: seq<Word>, valid: nat, marked: set<nat>, base: nat, next: nat)
    requires HeapOk(h) && StacksOk(h, gs) && next < base + valid && valid <= |roots|
    requires next >= base ==> Unmasked(roots[next - base]) in gs
    ensures var found := if next < base then h.globals else gs[Unmasked(roots[next - base])].stack;
            found <= h.refs.Keys && forall m :: Absorbs(h, gs, roots, valid, marked, m) ==> found <= m
  {
  }

  lemma ScanOk(h: Heap, gs: map<nat, G>, roots: seq<Word>, valid: nat, before: set<nat>, marked: set<nat>, o: nat)
    requires HeapOk(h) && o in marked && o in h.refs
    requires forall m :: Absorbs(h, gs, roots, valid, before, m) ==> marked <= m
    ensures h.refs[o] <= h.refs.Keys && forall m :: Absorbs(h, gs, roots, valid, before, m) ==> h.refs[o] <= m
  {
    forall m | Absorbs(h, gs, roots, valid, before, m)
      ensures h.refs[o] <= m
    {
      assert o in m;
    }
  }

  /** Turning the next goroutine turns no other. */
  lemma TurnStep(h: Heap, before: map<nat, G>, gs: map<nat, G>, roots: seq<Word>, start: nat, i: nat, code: nat,
                 rest: nat)
    requires Lists(Names(roots), gs.Keys) && start <= i < |roots| && StacksOk(h, gs) && StacksOk(h, before)
    requires Turned(before, gs, Names(roots), start, i, code, rest)
    ensures var g := Unmasked(roots[i]);
            && g in gs && g in before && gs[g] == Turn(rest, before[g])
            && var after := gs[g := Turn(code, before[g])];
               Turned(before, after, Names(roots), start, i + 1, code, rest) && StacksOk(h, after)
  {
    hide Turn;
    var names := Names(roots);
    var g := Unmasked(roots[i]);
    assert names[i] == g;
    TurnStack(code, before[g]);
  }

  lemma TurnStack(code: nat, gp: G)
    ensures Turn(code, gp).stack <= gp.stack
  {
  }

  /** A goroutine that keeps its reason may change its status. */
  lemma RootsStatus(roots: seq<Word>, v: nat, gs: map<nat, G>, g: nat, x: G)
    requires RootsOk(roots, v, gs) && g in gs && x.reason == gs[g].reason
    ensures RootsOk(roots, v, gs[g := x])
  {
    hide Unmasked;
    assert gs[g := x].Keys == gs.Keys;
  }

  lemma AllAsleep(h: Heap, mode: nat, gs: map<nat, G>, marked: set<nat>, roots: seq<Word>, v: nat)
    requires RootsOk(roots, v, gs) && AwakeIn(h, marked, gs, roots, v, |roots|, false)
    ensures forall k | v <= k < |roots| :: Unmasked(roots[k]) in gs && IsBlocked(gs[Unmasked(roots[k])])
    ensures forall k | v <= k < |roots| :: !StackRootValid(h, marked, gs[Unmasked(roots[k])])
  {
    forall k | v <= k < |roots|
      ensures Unmasked(roots[k]) in gs && IsBlocked(gs[Unmasked(roots[k])])
           && !StackRootValid(h, marked, gs[Unmasked(roots[k])])
    {
      assert AwakeAt(h, marked, gs, roots, k, false);
    }
  }

  lemma RootsListed(roots: seq<Word>, v: nat, gs: map<nat, G>)
    requires RootsOk(roots, v, gs)
    ensures Lists(Names(roots), gs.Keys)
  {
  }

  lemma RefsInHeap(h: Heap, o: nat)
    requires HeapOk(h) && o in h.refs
    ensures h.refs[o] <= h.refs.Keys
  {
  }

  /** Unreachable is where every goroutine behind start begins the last drain. */
  lemma TurnedOver(before: map<nat, G>, after: map<nat, G>, names: seq<Address>, start: nat, mode: nat)
    requires Turned(before, after, names, start, |names|, 0, 3)
    ensures Turned(before, after, names, start, start, mode, 0)
  {
    hide Turn;
  }

  lemma TurnedAll(before: map<nat, G>, after: map<nat, G>, names: seq<Address>, start: nat, mode: nat)
    requires Turned(before, after, names, start, |names|, mode, 0)
    ensures Turned(before, after, names, start, |names|, mode, 3)
  {
    hide Turn;
  }

  /** The goroutines before start are as they were, and their stacks are marked. */
  lemma MarksTurned(h: Heap, before: map<nat, G>, gs: map<nat, G>, roots: seq<Word>, marked: set<nat>, start: nat)
    requires MarksOk(h, before, roots, marked, true, start)
    requires Turned(before, gs, Names(roots), start, |roots|, 0, 3)
    ensures GreyOk(h, marked, {}) && MarksDone(h, gs, roots, marked, true, start)
  {
    hide Turn, GreyOk;
    forall k | 0 <= k < start && k < |roots|
      ensures Unmasked(roots[k]) in gs ==> gs[Unmasked(roots[k])].stack <= marked
    {
      assert Names(roots)[k] == Unmasked(roots[k]);
      TurnStack(3, before[Unmasked(roots[k])]);
    }
  }

  lemma RootsRekeyed(roots: seq<Word>, gs: map<nat, G>, more: map<nat, G>)
    requires RootsOk(roots, |roots|, gs) && more.Keys == gs.Keys
    ensures RootsOk(roots, |roots|, more)
  {
    hide Unmasked;
  }

  /** Turning goroutine i leaves the stacks scanned before it alone. */
  lemma MarksOther(h: Heap, gs: map<nat, G>, roots: seq<Word>, marked: set<nat>, i: nat, x: G)
    requires i < |roots| && Lists(Names(roots), gs.Keys) && MarksDone(h, gs, roots, marked, true, i)
    ensures MarksDone(h, gs[Unmasked(roots[i]) := x], roots, marked, true, i)
  {
    var after := gs[Unmasked(roots[i]) := x];
    forall k | 0 <= k < i
      ensures Unmasked(roots[k]) in after ==> after[Unmasked(roots[k])].stack <= marked
    {
      assert Names(roots)[k] == Unmasked(roots[k]) && Names(roots)[i] == Unmasked(roots[i]);
      assert Names(roots)[k] != Names(roots)[i];
    }
  }

  lemma FoundMore(h: Heap, gs: map<nat, G>, roots: seq<Word>, marked: set<nat>, i: nat)
    requires i < |roots| && Unmasked(roots[i]) in gs && StacksOk(h, gs) && MarksDone(h, gs, roots, marked, true, i)
    ensures var found := gs[Unmasked(roots[i])].stack;
            found <= h.refs.Keys && MarksDone(h, gs, roots, marked + found, true, i + 1)
  {
  }

  lemma MarksBoth(h: Heap, gs: map<nat, G>, roots: seq<Word>, marked: set<nat>, globals: bool, done: int)
    requires GreyOk(h, marked, {}) && MarksDone(h, gs, roots, marked, globals, done)
    ensures MarksOk(h, gs, roots, marked, globals, done)
  {
  }

  // ----- Why the report is exact -----

  /** Entries promoted because they are awake, or wait on something marked, are live in every
      consistent pair. */
  lemma NeededMore(h: Heap, gs: map<nat, G>, roots: seq<Word>, more: seq<Word>, n: nat, valid: nat, marked: set<nat>)
    requires OnlyNeeded(h, gs, roots, n, marked) && n <= valid <= |more| && n <= |roots| && more[..n] == roots[..n]
    requires RunnableIn(h, marked, gs, more, n, valid, true) || AwakeIn(h, marked, gs, more, n, valid, true)
    ensures OnlyNeeded(h, gs, more, valid, marked)
  {
    hide StackRootValid;
    forall l: set<nat>, m: set<nat>, k: nat | Consistent(h, gs, l, m) && k < valid
      ensures Unmasked(more[k]) in l
    {
      if k < n {
        assert more[..n][k] == roots[..n][k];
        assert Unmasked(roots[k]) in LiveNames(roots, n);
      } else {
        assert RunnableAt(h, marked, gs, more, k, true) || AwakeAt(h, marked, gs, more, k, true);
        var gp := gs[Unmasked(more[k])];
        if StackRootValid(h, marked, gp) {
          ValidMonotone(h, marked, m, gp);
        }
      }
    }
  }

  /** What draining marks is marked in every consistent pair. */
  lemma NeededMarks(h: Heap, gs: map<nat, G>, roots: seq<Word>, valid: nat, before: set<nat>, marked: set<nat>)
    requires OnlyNeeded(h, gs, roots, valid, before)
    requires forall m :: Absorbs(h, gs, roots, valid, before, m) ==> marked <= m
    ensures OnlyNeeded(h, gs, roots, valid, marked)
  {
    hide StackRootValid;
    forall l: set<nat>, m: set<nat> | Consistent(h, gs, l, m)
      ensures marked <= m
    {
      forall k | 0 <= k < valid && k < |roots| && Unmasked(roots[k]) in gs
        ensures gs[Unmasked(roots[k])].stack <= m
      {
        assert Unmasked(roots[k]) in LiveNames(roots, valid);
      }
      assert Absorbs(h, gs, roots, valid, before, m);
    }
  }

  lemma DrainedMarks(h: Heap, gs: map<nat, G>, roots: seq<Word>, marked: set<nat>, done: nat)
    requires MarksOk(h, gs, roots, marked, true, done)
    ensures Closed(h, marked)
    ensures forall g | g in LiveNames(roots, done) && g in gs :: gs[g].stack <= marked
  {
    assert GreyOk(h, marked, {}) && MarksDone(h, gs, roots, marked, true, done);
  }

  lemma ReportIsExact(h: Heap, mode: nat, gs: map<nat, G>, after: map<nat, G>, roots: seq<Word>, n: nat,
                      marks: set<nat>)
    requires Lists(Names(roots), gs.Keys) && OnlyNeeded(h, gs, roots, n, marks) && Closed(h, marks)
    requires forall g | g in LiveNames(roots, n) && g in gs :: gs[g].stack <= marks
    requires Reported(h, mode, gs, after, marks, Names(roots), n) && n <= |roots|
    ensures LeastLive(h, gs, LiveNames(roots, n), marks)
    ensures forall g | g in after ::
              g in gs && after[g] == if g in LiveNames(roots, n) then gs[g] else Reclaimed(mode, gs[g])
  {
    hide StackRootValid, Closed, Reclaimed;
    var live := LiveNames(roots, n);
    forall g | g in gs
      ensures g in live || (IsBlocked(gs[g]) && !StackRootValid(h, marks, gs[g]))
      ensures after[g] == if g in live then gs[g] else Reclaimed(mode, gs[g])
    {
      var k :| 0 <= k < |Names(roots)| && Names(roots)[k] == g;
      assert Unmasked(roots[k]) == g;
      if g in live {
        var j :| 0 <= j < n && j < |roots| && Unmasked(roots[j]) == g;
        assert Names(roots)[j] == g;
      }
    }
    assert Consistent(h, gs, live, marks);
    forall g | g in live
      ensures g in gs.Keys
    {
      var j :| 0 <= j < n && j < |roots| && Unmasked(roots[j]) == g;
      assert Names(roots)[j] == g;
    }
  }

  /** A snapshot lists every goroutine once, plainly if it is not blocked and masked if it is. */
  lemma {:induction false} SnapshotSplits(gs: map<nat, G>, names: seq<Address>)
    requires forall i | 0 <= i < |names| :: names[i] in gs
    ensures forall k | 0 <= k < |Runners(gs, names)| ::
              var p := Runners(gs, names)[k]; Unmasked(p) == p && p in names && !IsBlocked(gs[p])
    ensures forall k | 0 <= k < |Sleepers(gs, names)| ::
              var p := Sleepers(gs, names)[k]; Unmasked(p) in names && IsBlocked(gs[Unmasked(p)]) && Skipped(p)
    ensures forall g | g in names ::
              if IsBlocked(gs[g]) then GcMask(g) in Sleepers(gs, names) else g in Runners(gs, names)
  {
    hide GcMask, GcUnmask, Skipped;
    if names != [] {
      var g := names[|names| - 1];
      var rest := names[..|names| - 1];
      SnapshotSplits(gs, rest);
      MaskRoundTrip(g);
      assert names == rest + [g];
    }
  }

  ghost predicate Distinct(names: seq<Address>) { forall i, j | 0 <= i < j < |names| :: names[i] != names[j] }

  lemma DistinctConcat(a: seq<Address>, b: seq<Address>)
    requires Distinct(a) && Distinct(b) && forall x | x in a :: x !in b
    ensures Distinct(a + b)
  {
    var s := a + b;
    forall i, j | 0 <= i < j < |s|
      ensures s[i] != s[j]
    {
      assert i < |a| ==> s[i] == a[i] && a[i] in a;
      assert j >= |a| ==> s[j] == b[j - |a|] && b[j - |a|] in b;
    }
  }

  lemma NamesConcat(a: seq<Word>, b: seq<Word>)
    ensures Names(a + b) == Names(a) + Names(b)
  {
    hide GcUnmask;
  }

  lemma NameOne(p: Word)
    ensures Names([p]) == [Unmasked(p)]
  {
    hide GcUnmask;
  }

  lemma {:induction false} SnapshotDistinct(gs: map<nat, G>, names: seq<Address>)
    requires (forall i | 0 <= i < |names| :: names[i] in gs) && Distinct(names)
    ensures Distinct(Names(Runners(gs, names))) && Distinct(Names(Sleepers(gs, names)))
    ensures forall x | x in Names(Runners(gs, names)) :: x in names && !IsBlocked(gs[x])
    ensures forall x | x in Names(Sleepers(gs, names)) :: x in names && IsBlocked(gs[x])
  {
    hide GcMask, GcUnmask, Names;
    if names == [] {
      assert Names([]) == [] by {
        NamesConcat([], []);
      }
    } else {
      var g := names[|names| - 1];
      var rest := names[..|names| - 1];
      assert names == rest + [g];
      assert g !in rest by {
        assert forall i | 0 <= i < |rest| :: rest[i] == names[i] != g;
      }
      SnapshotDistinct(gs, rest);
      MaskRoundTrip(g);
      NameOne(g);
      NameOne(GcMask(g));
      if IsBlocked(gs[g]) {
        NamesConcat([GcMask(g)], Sleepers(gs, rest));
        DistinctConcat([g], Names(Sleepers(gs, rest)));
      } else {
        NamesConcat(Runners(gs, rest), [g]);
        DistinctConcat(Names(Runners(gs, rest)), [g]);
      }
    }
  }

  lemma SnapshotLists(gs: map<nat, G>, names: seq<Address>, roots: seq<Word>, count: nat)
    requires Lists(names, gs.Keys) && count <= |roots|
    requires roots[..count] == Runners(gs, names) && roots[count..] == Sleepers(gs, names)
    ensures Lists(Names(roots), gs.Keys)
  {
    hide GcMask, GcUnmask, Runners, Sleepers, Names;
    SnapshotDistinct(gs, names);
    assert roots == roots[..count] + roots[count..];
    NamesConcat(roots[..count], roots[count..]);
    DistinctConcat(Names(roots[..count]), Names(roots[count..]));
    forall k | 0 <= k < |Names(roots)|
      ensures Names(roots)[k] in gs.Keys
    {
      assert Names(roots)[k] in Names(roots[..count]) || Names(roots)[k] in Names(roots[count..]);
    }
    forall g | g in gs.Keys
      ensures exists k :: 0 <= k < |Names(roots)| && Names(roots)[k] == g
    {
      SnapshotHas(gs, names, roots, count, g);
    }
  }

  lemma SnapshotHas(gs: map<nat, G>, names: seq<Address>, roots: seq<Word>, count: nat, g: nat)
    requires Lists(names, gs.Keys) && count <= |roots| && g in gs
    requires roots[..count] == Runners(gs, names) && roots[count..] == Sleepers(gs, names)
    ensures exists k :: 0 <= k < |Names(roots)| && Names(roots)[k] == g
  {
    hide GcMask, GcUnmask, Runners, Sleepers, Skipped, IsBlocked;
    SnapshotSplits(gs, names);
    var i :| 0 <= i < |names| && names[i] == g;
    MaskRoundTrip(names[i]);
    var p: Word := if IsBlocked(gs[g]) then GcMask(names[i]) else names[i];
    assert p in roots by {
      assert roots == roots[..count] + roots[count..];
    }
    EntryNamed(roots, p);
  }

  lemma EntryNamed(roots: seq<Word>, p: Word)
    requires p in roots
    ensures exists k :: 0 <= k < |Names(roots)| && Names(roots)[k] == Unmasked(p)
  {
    hide GcUnmask;
    var k :| 0 <= k < |roots| && roots[k] == p;
    assert Names(roots)[k] == Unmasked(p);
  }

  /** The snapshot divides the goroutines into those no one has to wake, and those it masks. */
  lemma SnapshotRoots(h: Heap, gs: map<nat, G>, names: seq<Address>, roots: seq<Word>, count: nat, base: nat)
    requires Lists(names, gs.Keys) && count <= |roots| && 0 < base
    requires roots[..count] == Runners(gs, names) && roots[count..] == Sleepers(gs, names)
    ensures RootsOk(roots, count, gs) && OnlyNeeded(h, gs, roots, count, {})
    ensures MarksOk(h, gs, roots, {}, false, 0 - base)
  {
    hide GcMask, GcUnmask, Runners, Sleepers, Skipped, StackRootValid, Closed, Lists, IsBlocked;
    SnapshotLists(gs, names, roots, count);
    SnapshotSorted(gs, names, roots, count);
    SortedRoots(h, gs, roots, count);
  }

  lemma SnapshotSorted(gs: map<nat, G>, names: seq<Address>, roots: seq<Word>, count: nat)
    requires Lists(names, gs.Keys) && count <= |roots|
    requires roots[..count] == Runners(gs, names) && roots[count..] == Sleepers(gs, names)
    ensures forall k | 0 <= k < |roots| :: SortedAt(gs, roots[k], k < count)
  {
    hide GcMask, GcUnmask, Runners, Sleepers, Skipped, IsBlocked;
    SnapshotSplits(gs, names);
    forall k | 0 <= k < |roots|
      ensures SortedAt(gs, roots[k], k < count)
    {
      if k < count {
        assert roots[..count][k] == roots[k];
      } else {
        assert roots[count..][k - count] == roots[k];
      }
    }
  }

  /** A plain entry of a goroutine that is not blocked, or an entry of one that is. */
  predicate SortedAt(gs: map<nat, G>, p: Word, plain: bool) {
    Unmasked(p) in gs && if plain then Unmasked(p) == p && !IsBlocked(gs[Unmasked(p)]) else IsBlocked(gs[Unmasked(p)])
  }

  lemma SortedRoots(h: Heap, gs: map<nat, G>, roots: seq<Word>, count: nat)
    requires Lists(Names(roots), gs.Keys) && count <= |roots|
    requires forall k | 0 <= k < |roots| :: SortedAt(gs, roots[k], k < count)
    ensures RootsOk(roots, count, gs) && OnlyNeeded(h, gs, roots, count, {})
  {
    hide Lists, StackRootValid, Closed, Names;
  }
}
