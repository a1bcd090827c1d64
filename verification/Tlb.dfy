/** A hart's address-translation cache over the page tables (sections 4.2.1 and 4.3.2): it may hold the final
    entry of any walk, valid or not, and any pointer to an inner table, may start a walk at any pointer it holds,
    may drop anything at any time, and has no size or replacement policy. The tables are edited underneath it,
    with and without fences. */
module Tlb {
  import opened Words
  import opened Sv39
  import opened Pool
  import opened Cells
  import opened PoolOps
  import FixRetry

  /** The final entry of some walk, used for every address that shares the level-`cover` slot: a superpage may be held
      whole or in 4 KB or 2 MB fractions. */
  datatype Leaf = Leaf(va: Word, level: Level, pte: Word, cover: Level)

  /** The level-`level` table for every address that shares the slot above it. */
  datatype Pointer = Pointer(va: Word, level: Level, table: nat)

  datatype Fence = Fence(va: Word, at: nat)

  /** The tables in memory (the last of the history since the last full fence), the targeted fences since then
      with the point of the history at which each ran, and the cache. */
  datatype State = State(history: seq<Pool>, fences: seq<Fence>, leaves: set<Leaf>, pointers: set<Pointer>)

  ghost predicate Ok(s: State) {
    s.history != [] && forall i | 0 <= i < |s.history| :: WellFormed(s.history[i])
  }

  ghost function Current(s: State): Pool
    requires Ok(s)
  {
    s.history[|s.history| - 1]
  }

  predicate Covers(e: Leaf, x: Word) { SameSlot(x, e.va, e.cover) }

  predicate PointsFor(q: Pointer, x: Word) { q.level < 2 ==> SameSlot(x, q.va, q.level + 1) }

  /** An edit that leaves every table on every path where it is: overwriting final entries, hanging fresh tables. */
  ghost predicate KeepsPaths(p: Pool, q: Pool)
    requires WellFormed(p) && WellFormed(q)
  {
    forall x: Word, l: Level | Reach(p, x, l).Some? :: Reach(q, x, l) == Reach(p, x, l)
  }

  /** The walk for va from the root or from any cached pointer that serves it. */
  ghost predicate WalkResult(s: State, va: Word, end: Stop)
    requires Ok(s)
  {
    || end == HwWalk(Current(s), Addr(Current(s), Current(s).root), va, 2)
    || exists q | q in s.pointers ::
         PointsFor(q, va) && end == HwWalk(Current(s), Addr(Current(s), q.table), va, q.level)
  }

  datatype Event =
    | Walk(va: Word, end: Stop, cover: Level) // cache the final entry of a walk, or a fraction of it
    | Point(va: Word, level: Level)       // cache a pointer to an inner table
    | Evict(leaves: set<Leaf>, pointers: set<Pointer>)
    | Edit(tables: Pool)                  // the kernel edits the tables, no fence
    | SfenceVa(va: Word)                  // sfence.vma with an address: final entries only
    | SfenceAll                           // sfence.vma
    | MapperCall(tables: Pool)            // arch_mem_map, arch_mem_unmap, map_raw: edits, then a full fence

  ghost predicate Possible(s: State, e: Event)
    requires Ok(s)
  {
    match e
    case Walk(va, end, cover) => !end.AccessFault? && WalkResult(s, va, end) && cover <= end.level
    case Point(va, level) => Reach(Current(s), va, level).Some?
    case Evict(leaves, pointers) => true
    case Edit(q) => WellFormed(q) && KeepsPaths(Current(s), q)
    case SfenceVa(va) => true
    case SfenceAll => true
    case MapperCall(q) => WellFormed(q)
  }

  ghost function After(s: State, e: Event): State
    requires Ok(s) && Possible(s, e)
  {
    match e
    case Walk(va, end, cover) =>
      State(s.history, s.fences, s.leaves + {Leaf(va, end.level, end.pte, cover)}, s.pointers)
    case Point(va, level) =>
      State(s.history, s.fences, s.leaves, s.pointers + {Pointer(va, level, Reach(Current(s), va, level).value)})
    case Evict(leaves, pointers) => State(s.history, s.fences, s.leaves - leaves, s.pointers - pointers)
    case Edit(q) => State(s.history + [q], s.fences, s.leaves, s.pointers)
    case SfenceVa(va) =>
      State(s.history, s.fences + [Fence(va, |s.history| - 1)], (set e | e in s.leaves && !Covers(e, va)), s.pointers)
    case SfenceAll => State([Current(s)], [], {}, {})
    case MapperCall(q) => State([q], [], {}, {})
  }

  // ---- What the cache can hold ----

  /** Point i of the history is no older than any fence for the page of x. */
  predicate SinceFence(s: State, x: Word, i: nat) {
    i < |s.history| && forall k | 0 <= k < |s.fences| && SameSlot(x, s.fences[k].va, 0) :: s.fences[k].at <= i
  }

  /** The cached entry was the final entry for x at a point since the last fence for x. */
  ghost predicate LeafWasCurrent(s: State, e: Leaf, x: Word)
    requires Ok(s)
  {
    exists i: nat :: SinceFence(s, x, i) && StopLevel(s.history[i], x) == e.level && StopEntry(s.history[i], x) == e.pte
  }

  ghost predicate Invariant(s: State)
  {
    && Ok(s)
    && (forall k | 0 <= k < |s.fences| :: s.fences[k].at < |s.history|)
    && (forall q | q in s.pointers :: Reach(Current(s), q.va, q.level) == Some(q.table))
    && (forall e, x: Word | e in s.leaves && Covers(e, x) :: LeafWasCurrent(s, e, x))
  }

  /** Whatever pointer a walk starts from, it ends at the current final entry. */
  lemma AnyWalkIsCurrent(s: State, va: Word, end: Stop)
    requires Invariant(s) && WalkResult(s, va, end)
    ensures end == HwWalk(Current(s), Addr(Current(s), Current(s).root), va, 2)
    ensures !end.AccessFault? && end.pte == StopEntry(Current(s), va) && end.level == StopLevel(Current(s), va)
  {
    var p := Current(s);
    WalkEndFields(p, va);
    if end != HwWalk(p, Addr(p, p.root), va, 2) {
      var q :| q in s.pointers && PointsFor(q, va) && end == HwWalk(p, Addr(p, q.table), va, q.level);
      SameSlotsReachTogether(p, va, q.va, q.level);
      WalkFollowsReach(p, va, q.level);
    }
  }

  lemma StillCurrent(s: State, t: State, e: Leaf, x: Word)
    requires Ok(s) && Ok(t) && LeafWasCurrent(s, e, x)
    requires s.history <= t.history
    requires forall k | 0 <= k < |t.fences| && SameSlot(x, t.fences[k].va, 0) :: t.fences[k] in s.fences
    ensures LeafWasCurrent(t, e, x)
  {
    var i: nat :| SinceFence(s, x, i) && StopLevel(s.history[i], x) == e.level && StopEntry(s.history[i], x) == e.pte;
    assert SinceFence(t, x, i);
    assert t.history[i] == s.history[i];
  }

  lemma WalkKeeps(s: State, va: Word, end: Stop, cover: Level)
    requires Invariant(s) && Possible(s, Walk(va, end, cover))
    ensures Invariant(After(s, Walk(va, end, cover)))
  {
    var t := After(s, Walk(va, end, cover));
    AnyWalkIsCurrent(s, va, end);
    forall e, x: Word | e in t.leaves && Covers(e, x) ensures LeafWasCurrent(t, e, x) {
      if e in s.leaves {
        StillCurrent(s, t, e, x);
      } else {
        SameSlotStopsTogether(Current(s), x, va);
        assert SinceFence(t, x, |t.history| - 1);
      }
    }
  }

  lemma EditKeeps(s: State, q: Pool)
    requires Invariant(s) && Possible(s, Edit(q))
    ensures Invariant(After(s, Edit(q)))
  {
    var t := After(s, Edit(q));
    forall e, x: Word | e in t.leaves && Covers(e, x) ensures LeafWasCurrent(t, e, x) {
      StillCurrent(s, t, e, x);
    }
  }

  lemma SfenceKeeps(s: State, va: Word)
    requires Invariant(s)
    ensures Invariant(After(s, SfenceVa(va)))
  {
    var t := After(s, SfenceVa(va));
    forall e, x: Word | e in t.leaves && Covers(e, x) ensures LeafWasCurrent(t, e, x) {
      assert !SameSlot(x, va, 0);
      StillCurrent(s, t, e, x);
    }
  }

  lemma PointKeeps(s: State, va: Word, level: Level)
    requires Invariant(s) && Possible(s, Point(va, level))
    ensures Invariant(After(s, Point(va, level)))
  {
    var t := After(s, Point(va, level));
    forall e, x: Word | e in t.leaves && Covers(e, x) ensures LeafWasCurrent(t, e, x) { StillCurrent(s, t, e, x); }
  }

  lemma EvictKeeps(s: State, leaves: set<Leaf>, pointers: set<Pointer>)
    requires Invariant(s)
    ensures Invariant(After(s, Evict(leaves, pointers)))
  {
    var t := After(s, Evict(leaves, pointers));
    forall e, x: Word | e in t.leaves && Covers(e, x) ensures LeafWasCurrent(t, e, x) { StillCurrent(s, t, e, x); }
  }

  lemma FlushKeeps(p: Pool)
    requires WellFormed(p)
    ensures Invariant(State([p], [], {}, {}))
  {
  }

  /** Every event keeps the invariant. */
  lemma EventKeeps(s: State, e: Event)
    requires Invariant(s) && Possible(s, e)
    ensures Invariant(After(s, e))
  {
    match e
    case Walk(va, end, cover) => WalkKeeps(s, va, end, cover);
    case Point(va, level) => PointKeeps(s, va, level);
    case Evict(leaves, pointers) => EvictKeeps(s, leaves, pointers);
    case Edit(q) => EditKeeps(s, q);
    case SfenceVa(va) => SfenceKeeps(s, va);
    case SfenceAll => FlushKeeps(Current(s));
    case MapperCall(q) => FlushKeeps(q);
  }

  // ---- Runs ----

  ghost predicate Runs(s: State, es: seq<Event>)
    decreases |es|
  {
    Ok(s) && (es == [] || (Possible(s, es[0]) && Runs(After(s, es[0]), es[1..])))
  }

  ghost function EndOf(s: State, es: seq<Event>): State
    requires Runs(s, es)
    decreases |es|
  {
    if es == [] then s else EndOf(After(s, es[0]), es[1..])
  }

  lemma {:induction false} RunKeeps(s: State, es: seq<Event>)
    requires Invariant(s) && Runs(s, es)
    ensures Invariant(EndOf(s, es))
    decreases |es|
  {
    if es != [] {
      EventKeeps(s, es[0]);
      RunKeeps(After(s, es[0]), es[1..]);
    }
  }

  // ---- What an access can see ----

  /** An access to x may use any cached entry that covers x, or a walk from the root or any cached pointer. */
  ghost predicate CanSee(s: State, x: Word, m: Option<Mapping>)
    requires Ok(s)
  {
    || (exists e | e in s.leaves :: Covers(e, x) && m == LeafView(e.pte, e.level, x))
    || (exists end :: WalkResult(s, x, end) && m == (if end.LeafAt? then Some(Grant(end.pte, end.level, x)) else None))
  }

  /** In every reachable state an access uses only a translation that the tables held at some point since the last
      fence for its address. */
  lemma AccessIsRecent(s: State, x: Word, m: Option<Mapping>) returns (i: nat)
    requires Invariant(s) && Canonical(x) && CanSee(s, x, m)
    ensures SinceFence(s, x, i) && m == View(s.history[i], x)
  {
    if e :| e in s.leaves && Covers(e, x) && m == LeafView(e.pte, e.level, x) {
      i := LeafIsRecent(s, e, x);
    } else {
      var end :| WalkResult(s, x, end) && m == (if end.LeafAt? then Some(Grant(end.pte, end.level, x)) else None);
      WalkIsCurrent(s, x, end);
      i := |s.history| - 1;
    }
  }

  lemma LeafIsRecent(s: State, e: Leaf, x: Word) returns (i: nat)
    requires Invariant(s) && Canonical(x) && e in s.leaves && Covers(e, x)
    ensures SinceFence(s, x, i) && LeafView(e.pte, e.level, x) == View(s.history[i], x)
  {
    assert LeafWasCurrent(s, e, x);
    i :| SinceFence(s, x, i) && StopLevel(s.history[i], x) == e.level && StopEntry(s.history[i], x) == e.pte;
    ViewIsStopEntry(s.history[i], x);
  }

  lemma WalkIsCurrent(s: State, x: Word, end: Stop)
    requires Invariant(s) && Canonical(x) && WalkResult(s, x, end)
    ensures SinceFence(s, x, |s.history| - 1)
    ensures View(Current(s), x) == if end.LeafAt? then Some(Grant(end.pte, end.level, x)) else None
  {
    AnyWalkIsCurrent(s, x, end);
  }

  /** If the tables have held one translation for x ever since the last fence for x, that is what accesses see. */
  lemma StableAccess(s: State, x: Word, m: Option<Mapping>)
    requires Invariant(s) && Canonical(x) && CanSee(s, x, m)
    requires forall i: nat | SinceFence(s, x, i) :: View(s.history[i], x) == View(Current(s), x)
    ensures m == View(Current(s), x)
  {
    var i := AccessIsRecent(s, x, m);
  }

  // ---- Targeted fences ----

  /** Re-pointing the final entry of one address keeps all paths. */
  lemma RepointKeepsPaths(p: Pool, va: Word, w: Word)
    requires WellFormed(p) && (StopLevel(p, va) == 0 || !IsBranch(w))
    ensures KeepsPaths(p, FixRetry.Touch(p, va, w))
  {
    var L, q := StopLevel(p, va), FixRetry.Touch(p, va, w);
    forall x: Word, l: Level | Reach(p, x, l).Some? ensures Reach(q, x, l) == Reach(p, x, l) {
      ReachAfterWrite(p, va, L, w, x, l);
      if SameSlot(x, va, L) && l < L {
        SameSlotStopsTogether(p, x, va);
        ReachPrefix(p, x, l);
      }
    }
  }

  /** Hanging a fresh table keeps all paths. */
  lemma GrowKeepsPaths(p: Pool, va: Word)
    requires WellFormed(p) && StopLevel(p, va) > 0 && !V(StopEntry(p, va)) && GrowAt(p, va).Some?
    ensures WellFormed(GrowAt(p, va).value) && KeepsPaths(p, GrowAt(p, va).value)
  {
    GrowHit(p, va, va);
    forall x: Word, l: Level | Reach(p, x, l).Some? ensures Reach(GrowAt(p, va).value, x, l) == Reach(p, x, l) {
      ReachAfterGrow(p, va, x, l);
      if SameSlot(x, va, StopLevel(p, va)) && l < StopLevel(p, va) { SameSlotStopsTogether(p, x, va); }
    }
  }

  /** Events of the hardware alone: walks, cached pointers, evictions. */
  ghost predicate Quiet(es: seq<Event>) { forall e | e in es :: e.Walk? || e.Point? || e.Evict? }

  lemma {:induction false} QuietRun(s: State, es: seq<Event>)
    requires Runs(s, es) && Quiet(es)
    ensures EndOf(s, es).history == s.history && EndOf(s, es).fences == s.fences
    decreases |es|
  {
    if es != [] {
      assert es[0] in es;
      QuietRun(After(s, es[0]), es[1..]);
    }
  }

  /** From the return of a mapper call, or any full fence, until the next edit, every access agrees with the tables,
      whatever the hart caches meanwhile. */
  lemma AgreesAfterMapperCall(s: State, q: Pool, es: seq<Event>, x: Word, m: Option<Mapping>)
    requires Ok(s) && WellFormed(q) && Canonical(x)
    requires Quiet(es) && Runs(After(s, MapperCall(q)), es)
    requires Ok(EndOf(After(s, MapperCall(q)), es)) && CanSee(EndOf(After(s, MapperCall(q)), es), x, m)
    ensures m == View(q, x)
  {
    var t := EndOf(After(s, MapperCall(q)), es);
    FlushKeeps(q);
    RunKeeps(After(s, MapperCall(q)), es);
    QuietRun(After(s, MapperCall(q)), es);
    var i := AccessIsRecent(t, x, m);
  }

  /** No fence since the edit: an access sees the old translation or the new one. */
  lemma OldOrNew(s: State, p: Pool, q: Pool, x: Word, m: Option<Mapping>)
    requires WellFormed(p) && WellFormed(q)
    requires Invariant(s) && s.history == [p, q] && Canonical(x) && CanSee(s, x, m)
    ensures m == View(p, x) || m == View(q, x)
  {
    var i := AccessIsRecent(s, x, m);
  }

  /** Nothing cached yet, and the final entry of the walk for va about to be cached for its page. */
  ghost function JustFenced(p: Pool): State { State([p], [], {}, {}) }

  ghost function WalkOf(p: Pool, va: Word): Event
    requires WellFormed(p)
  {
    Walk(va, HwWalk(p, Addr(p, p.root), va, 2), 0)
  }

  lemma CachesWalk(p: Pool, va: Word)
    requires WellFormed(p)
    ensures Invariant(JustFenced(p)) && Possible(JustFenced(p), WalkOf(p, va))
    ensures After(JustFenced(p), WalkOf(p, va)).leaves == {Leaf(va, StopLevel(p, va), StopEntry(p, va), 0)}
  {
    FlushKeeps(p);
    WalkEndFields(p, va);
  }

  /** Without a fence both can be seen: after a walk for va and then an edit of its final entry, accesses to the page
      may use the old translation and may use the new one, and no other. */
  lemma UnfencedSeesBoth(p: Pool, va: Word, w: Word, x: Word) returns (s1: State, s2: State)
    requires WellFormed(p) && Canonical(va) && Canonical(x) && SameSlot(x, va, 0)
    requires StopLevel(p, va) == 0 || !IsBranch(w)
    ensures Possible(JustFenced(p), WalkOf(p, va)) && s1 == After(JustFenced(p), WalkOf(p, va))
    ensures Ok(s1) && Possible(s1, Edit(FixRetry.Touch(p, va, w))) && s2 == After(s1, Edit(FixRetry.Touch(p, va, w)))
    ensures Ok(s2)
    ensures forall m :: CanSee(s2, x, m) <==> m == View(p, x) || m == View(FixRetry.Touch(p, va, w), x)
  {
    var q := FixRetry.Touch(p, va, w);
    CachesWalk(p, va);
    s1 := After(JustFenced(p), WalkOf(p, va));
    EventKeeps(JustFenced(p), WalkOf(p, va));
    RepointKeepsPaths(p, va, w);
    s2 := After(s1, Edit(q));
    EventKeeps(s1, Edit(q));
    BothSeen(s2, p, q, va, x);
  }

  lemma BothSeen(s: State, p: Pool, q: Pool, va: Word, x: Word)
    requires WellFormed(p) && WellFormed(q) && Invariant(s) && s.history == [p, q]
    requires Canonical(x) && SameSlot(x, va, 0) && Leaf(va, StopLevel(p, va), StopEntry(p, va), 0) in s.leaves
    ensures forall m :: CanSee(s, x, m) <==> m == View(p, x) || m == View(q, x)
  {
    SeesOld(s, p, va, x);
    SeesCurrent(s, x);
    forall m | CanSee(s, x, m) ensures m == View(p, x) || m == View(q, x) { OldOrNew(s, p, q, x, m); }
  }

  lemma SeesOld(s: State, p: Pool, va: Word, x: Word)
    requires Ok(s) && WellFormed(p) && Canonical(x) && SameSlot(x, va, 0)
    requires Leaf(va, StopLevel(p, va), StopEntry(p, va), 0) in s.leaves
    ensures CanSee(s, x, View(p, x))
  {
    SameSlotStopsTogether(p, x, va);
    ViewIsStopEntry(p, x);
    var e := Leaf(va, StopLevel(p, va), StopEntry(p, va), 0);
    assert Covers(e, x) && View(p, x) == LeafView(e.pte, e.level, x);
  }

  lemma SeesCurrent(s: State, x: Word)
    requires Ok(s) && Canonical(x)
    ensures CanSee(s, x, View(Current(s), x))
  {
    assert WalkResult(s, x, HwWalk(Current(s), Addr(Current(s), Current(s).root), x, 2));
  }

  /** A fence for va ran after the edit: its page sees the new translation. */
  lemma FencedIsNew(s: State, p: Pool, q: Pool, va: Word, x: Word, m: Option<Mapping>)
    requires WellFormed(q)
    requires Invariant(s) && s.history == [p, q] && s.fences == [Fence(va, 1)]
    requires Canonical(x) && CanSee(s, x, m) && SameSlot(x, va, 0)
    ensures m == View(q, x)
  {
    var i := AccessIsRecent(s, x, m);
    assert s.fences[0].at <= i;
  }

  /** An address outside the re-pointed slot is undisturbed. */
  lemma RepointLeavesOthers(p: Pool, va: Word, w: Word, x: Word)
    requires WellFormed(p) && (StopLevel(p, va) == 0 || !IsBranch(w))
    requires Canonical(x) && !SameSlot(x, va, StopLevel(p, va))
    ensures View(FixRetry.Touch(p, va, w), x) == View(p, x)
  {
    FixRetry.TouchEffect(p, va, w, x);
    ViewIsStopEntry(p, x);
    ViewIsStopEntry(FixRetry.Touch(p, va, w), x);
  }

  /** The states of the scenario: a fenced state, a re-pointed final entry, hardware activity, a targeted fence,
      hardware activity. */
  ghost predicate Scenario(s: State, va: Word, w: Word, s1: State, s2: State)
  {
    && Invariant(s) && |s.history| == 1 && s.fences == []
    && (StopLevel(Current(s), va) == 0 || !IsBranch(w))
    && Possible(s, Edit(FixRetry.Touch(Current(s), va, w)))
    && (exists es | Quiet(es) ::
          Runs(After(s, Edit(FixRetry.Touch(Current(s), va, w))), es)
          && s1 == EndOf(After(s, Edit(FixRetry.Touch(Current(s), va, w))), es))
    && Ok(s1)
    && (exists es | Quiet(es) :: Runs(After(s1, SfenceVa(va)), es) && s2 == EndOf(After(s1, SfenceVa(va)), es))
  }

  lemma EditedState(s: State, q: Pool, s1: State)
    requires Invariant(s) && |s.history| == 1 && s.fences == [] && Possible(s, Edit(q))
    requires exists es | Quiet(es) :: Runs(After(s, Edit(q)), es) && s1 == EndOf(After(s, Edit(q)), es)
    ensures Invariant(s1) && s1.history == [Current(s), q] && s1.fences == []
  {
    var s0 := After(s, Edit(q));
    EventKeeps(s, Edit(q));
    var es :| Quiet(es) && Runs(s0, es) && s1 == EndOf(s0, es);
    RunKeeps(s0, es);
    QuietRun(s0, es);
  }

  lemma FencedState(s1: State, va: Word, s2: State)
    requires Invariant(s1) && |s1.history| == 2 && s1.fences == []
    requires exists es | Quiet(es) :: Runs(After(s1, SfenceVa(va)), es) && s2 == EndOf(After(s1, SfenceVa(va)), es)
    ensures Invariant(s2) && s2.history == s1.history && s2.fences == [Fence(va, 1)]
  {
    EventKeeps(s1, SfenceVa(va));
    var fs :| Quiet(fs) && Runs(After(s1, SfenceVa(va)), fs) && s2 == EndOf(After(s1, SfenceVa(va)), fs);
    RunKeeps(After(s1, SfenceVa(va)), fs);
    QuietRun(After(s1, SfenceVa(va)), fs);
  }

  lemma ScenarioStates(s: State, va: Word, w: Word, s1: State, s2: State)
    requires Scenario(s, va, w, s1, s2)
    ensures Invariant(s1) && s1.history == [Current(s), FixRetry.Touch(Current(s), va, w)]
    ensures Invariant(s2) && s2.history == s1.history && s2.fences == [Fence(va, 1)]
  {
    EditedState(s, FixRetry.Touch(Current(s), va, w), s1);
    FencedState(s1, va, s2);
  }

  /** Re-pointing one final entry from a fenced state, whatever the hardware caches meanwhile: before the fence an
      access sees the old or the new translation; after the fence for va alone its page sees the new one, and
      every address outside the re-pointed slot sees what it saw all along. */
  lemma TargetedFence(s: State, va: Word, w: Word, s1: State, s2: State, x: Word, m: Option<Mapping>)
    requires Scenario(s, va, w, s1, s2) && Canonical(x)
    ensures Invariant(s1) && Invariant(s2)
    ensures CanSee(s1, x, m) ==> m == View(Current(s), x) || m == View(FixRetry.Touch(Current(s), va, w), x)
    ensures CanSee(s2, x, m) && SameSlot(x, va, 0) ==> m == View(FixRetry.Touch(Current(s), va, w), x)
    ensures CanSee(s2, x, m) && !SameSlot(x, va, StopLevel(Current(s), va)) ==> m == View(Current(s), x)
  {
    ScenarioStates(s, va, w, s1, s2);
    var p, q := Current(s), FixRetry.Touch(Current(s), va, w);
    if CanSee(s1, x, m) { OldOrNew(s1, p, q, x, m); }
    if CanSee(s2, x, m) {
      OldOrNew(s2, p, q, x, m);
      if SameSlot(x, va, 0) { FencedIsNew(s2, p, q, va, x, m); }
      if !SameSlot(x, va, StopLevel(p, va)) { RepointLeavesOthers(p, va, w, x); }
    }
  }

  // ---- Fix and retry through the cache ----

  /** A repair is an edit the cache model covers: it moves no table. */
  lemma RepairIsPossible(s: State, va: Word, f: FixRetry.Fixer, k: FixRetry.Kind)
    requires Invariant(s)
    ensures Possible(s, Edit(FixRetry.FixAt(Current(s), va, f, k)))
  {
    var p := Current(s);
    FixRetry.OneFixSuffices(StopEntry(p, va), StopLevel(p, va), f, k, true);
    RepointKeepsPaths(p, va, FixRetry.Fixed(StopEntry(p, va), f, k));
  }

  /** The state of a retry: tables edited to q, the handler's fence (with the address in the suite, full in the
      kernel), and whatever the hart caches or evicts before the access runs again. */
  ghost predicate Refenced(s: State, q: Pool, va: Word, full: bool, t: State)
    requires Ok(s) && Possible(s, Edit(q))
  {
    var u := After(After(s, Edit(q)), if full then SfenceAll else SfenceVa(va));
    exists es | Quiet(es) :: Runs(u, es) && t == EndOf(u, es)
  }

  lemma RefencedState(s: State, q: Pool, va: Word, full: bool, t: State)
    requires Invariant(s) && Possible(s, Edit(q)) && Refenced(s, q, va, full, t)
    ensures Invariant(t)
    ensures forall i: nat | SinceFence(t, va, i) :: t.history[i] == q
  {
    var e := if full then SfenceAll else SfenceVa(va);
    EventKeeps(s, Edit(q));
    EventKeeps(After(s, Edit(q)), e);
    var u := After(After(s, Edit(q)), e);
    var es :| Quiet(es) && Runs(u, es) && t == EndOf(u, es);
    RunKeeps(u, es);
    QuietRun(u, es);
    if !full { assert t.fences[|s.fences|] == Fence(va, |s.history|); }
  }

  lemma RefencedSeesEdit(s: State, q: Pool, va: Word, full: bool, t: State, m: Option<Mapping>)
    requires Invariant(s) && Possible(s, Edit(q)) && Refenced(s, q, va, full, t)
    requires Canonical(va) && Ok(t) && CanSee(t, va, m)
    ensures m == View(q, va)
  {
    RefencedState(s, q, va, full, t);
    var i := AccessIsRecent(t, va, m);
  }

  /** The state in which a repaired access is retried. */
  ghost predicate Repaired(s: State, va: Word, f: FixRetry.Fixer, k: FixRetry.Kind, full: bool, t: State)
    requires Invariant(s)
  {
    RepairIsPossible(s, va, f, k);
    Refenced(s, FixRetry.FixAt(Current(s), va, f, k), va, full, t)
  }

  lemma RetrySeesRepair(
    s: State, va: Word, f: FixRetry.Fixer, k: FixRetry.Kind, full: bool, t: State, m: Option<Mapping>)
    requires Invariant(s) && Canonical(va) && Ok(t) && CanSee(t, va, m) && Repaired(s, va, f, k, full, t)
    ensures m == View(FixRetry.FixAt(Current(s), va, f, k), va)
  {
    RepairIsPossible(s, va, f, k);
    RefencedSeesEdit(s, FixRetry.FixAt(Current(s), va, f, k), va, full, t, m);
  }

  /** Whatever the cache held when the fault was taken, stale invalid entries included, the retried access is granted
      exactly when the handler serves the address: the fault does not repeat. */
  lemma RetryIsGranted(
    s: State, va: Word, f: FixRetry.Fixer, k: FixRetry.Kind, svadu: bool, full: bool, t: State, m: Option<Mapping>)
    requires Invariant(s) && Canonical(va) && Ok(t) && CanSee(t, va, m)
    requires Repaired(s, va, f, k, full, t)
    ensures FixRetry.Grants(m, k, svadu) <==> FixRetry.Servable(Current(s), va, f)
  {
    RetrySeesRepair(s, va, f, k, full, t, m);
    FixRetry.RepairGrants(Current(s), va, f, k, svadu);
  }
}
