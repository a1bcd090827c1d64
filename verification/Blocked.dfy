/** The mappers' loops over all of memory, the table pool and everything else, with no assumption on the path: any
    valid entry is followed as a pointer, a superpage leaf included. On a clear path they are the pool's operations;
    on a blocked one they write into the superpage's own frame and the map is lost. */
module Blocked {
  import opened Words
  import opened Sv39
  import opened Pool
  import opened Cells
  import opened PoolOps
  import opened Ranges
  import opened Boot
  import opened Mmu

  /** The words of memory outside the pool, by address. */
  datatype Machine = Machine(pool: Pool, outside: nat -> Word)

  function Fetch(m: Machine, a: nat): Word
    requires Shape(m.pool)
  {
    match ReadPte(m.pool, a)
    case Some(w) => w
    case None => m.outside(a)
  }

  function Put(m: Machine, a: nat, w: Word): (r: Machine)
    requires Shape(m.pool)
    ensures Shape(r.pool)
  {
    if ReadPte(m.pool, a).Some? then
      Machine(SetEntry(m.pool, (a - m.pool.base) / 4096, (a - m.pool.base) % 4096 / 8, w), m.outside)
    else
      Machine(m.pool, (b: nat) => if b == a then w else m.outside(b))
  }

  /** alloc_table for the entry at `slot` of a level-l table: the first free table, zeroed. */
  function Alloc(m: Machine, l: Level, slot: nat): (r: Option<(Machine, nat)>)
    requires Shape(m.pool)
    ensures r.Some? ==> Shape(r.value.0.pool) && r.value.1 < |m.pool.tables|
  {
    var p := m.pool;
    var k := FirstFree(p.used, 0);
    if k == |p.used| then None
    else
      var parent := if p.base <= slot then ((slot - p.base) / 4096, (slot - p.base) % 4096 / 8) else (0, 0);
      Some((Machine(Taken(p, k, ZeroTable(), l - 1, parent), m.outside), k))
  }

  /** Table k, filled with t and labelled. */
  function Taken(p: Pool, k: nat, t: Table, rank: int, parent: (nat, nat)): Pool
    requires Shape(p) && k < |p.tables|
  {
    Pool(p.base, p.tables[k := t], p.used[k := true], p.root, p.rank[k := rank], p.parent[k := parent])
  }

  /** `for (l = ...; l > level; l--)` from the table at address a: allocate where the entry is invalid, follow it
      otherwise. None is the panic. */
  function Descent(m: Machine, a: nat, va: Word, l: Level, level: Level): (r: Option<(Machine, nat)>)
    requires Shape(m.pool)
    ensures r.Some? ==> Shape(r.value.0.pool)
    decreases l as int, a
  {
    if l <= level then Some((m, a))
    else
      var slot := a + 8 * Vpn(va, l);
      if V(Fetch(m, slot)) then Descent(m, PteToPhys(Fetch(m, slot)), va, l - 1, level)
      else match Alloc(m, l, slot)
        case None => None
        case Some(r) =>
          var m' := Put(r.0, slot, BranchPte(Addr(m.pool, r.1)));
          Descent(m', PteToPhys(Fetch(m', slot)), va, l - 1, level)
  }

  /** map_page (level 0) and map_raw. */
  function MapLoop(m: Machine, va: Word, pa: Word, bits: Word, level: Level): (r: Option<Machine>)
    requires Shape(m.pool)
    ensures r.Some? ==> Shape(r.value.pool)
  {
    match Descent(m, Addr(m.pool, m.pool.root), va, 2, level)
    case None => None
    case Some(r) => Some(Put(r.0, r.1 + 8 * Vpn(va, level), RawPte(pa, bits)))
  }

  // ---- A clear path ----

  lemma FetchAtTable(m: Machine, t: nat, j: nat)
    requires Shape(m.pool) && t < |m.pool.tables| && j < 512
    ensures Fetch(m, Addr(m.pool, t) + 8 * j) == m.pool.tables[t][j]
    ensures forall w: Word :: Put(m, Addr(m.pool, t) + 8 * j, w) == Machine(SetEntry(m.pool, t, j, w), m.outside)
  {
    ReadAtTable(m.pool, t, j);
    SlotOffset(t, j);
    assert Addr(m.pool, t) + 8 * j - m.pool.base == 4096 * t + 8 * j;
  }

  /** Following the branch at level l of va's path. */
  lemma FollowBranch(m: Machine, va: Word, l: Level)
    requires WellFormed(m.pool) && l > 0 && Reach(m.pool, va, l).Some? && Reach(m.pool, va, l - 1).Some?
    ensures var w := Fetch(m, Addr(m.pool, Reach(m.pool, va, l).value) + 8 * Vpn(va, l));
      V(w) && PteToPhys(w) == Addr(m.pool, Reach(m.pool, va, l - 1).value)
  {
    var p, t, j := m.pool, Reach(m.pool, va, l).value, Vpn(va, l);
    FetchAtTable(m, t, j);
    assert GoodBranch(p, t, j);
    AddrAligned(p, Reach(p, va, l - 1).value);
    BranchFields(Addr(p, Reach(p, va, l - 1).value));
  }

  /** The slot of a table is its label. */
  lemma AllocAtSlot(m: Machine, t: nat, j: nat, l: Level)
    requires Shape(m.pool) && t < |m.pool.tables| && j < 512
    ensures var k := FirstFree(m.pool.used, 0);
      Alloc(m, l, Addr(m.pool, t) + 8 * j)
      == if k == |m.pool.used| then None
         else Some((Machine(Taken(m.pool, k, ZeroTable(), l - 1, (t, j)), m.outside), k))
  {
    SlotOffset(t, j);
    assert Addr(m.pool, t) + 8 * j - m.pool.base == 4096 * t + 8 * j;
  }

  lemma BranchInto(m: Machine, t: nat, j: nat, k: nat, rank: int)
    requires Shape(m.pool) && t < |m.pool.tables| && k < |m.pool.tables| && k != t && j < 512
    ensures var p, b := m.pool, BranchPte(Addr(m.pool, k));
      Put(Machine(Taken(p, k, ZeroTable(), rank, (t, j)), m.outside), Addr(p, t) + 8 * j, b)
      == Machine(
        Pool(p.base, p.tables[k := ZeroTable()][t := p.tables[t][j := b]], p.used[k := true], p.root,
             p.rank[k := rank], p.parent[k := (t, j)]),
        m.outside)
  {
    var q := Taken(m.pool, k, ZeroTable(), rank, (t, j));
    PutInTable(Machine(q, m.outside), t, j, BranchPte(Addr(m.pool, k)));
    assert q.tables[t] == m.pool.tables[t];
  }

  lemma PutInTable(m: Machine, t: nat, j: nat, w: Word)
    requires Shape(m.pool) && t < |m.pool.tables| && j < 512
    ensures Put(m, Addr(m.pool, t) + 8 * j, w) == Machine(SetEntry(m.pool, t, j, w), m.outside)
  {
    FetchAtTable(m, t, j);
  }

  /** Allocating and storing the branch is the pool's growth step. */
  lemma AllocGrows(m: Machine, t: nat, j: nat, l: Level)
    requires WellFormed(m.pool) && l > 0 && t < |m.pool.tables| && m.pool.used[t] && m.pool.rank[t] == l && j < 512
    ensures var slot, r := Addr(m.pool, t) + 8 * j, Alloc(m, l, Addr(m.pool, t) + 8 * j);
      match Grow(m.pool, t, j)
      case None => r.None?
      case Some(q) =>
        && r.Some? && r.value.1 == FirstFree(m.pool.used, 0)
        && Put(r.value.0, slot, BranchPte(Addr(m.pool, r.value.1))) == Machine(q, m.outside)
  {
    var k := FirstFree(m.pool.used, 0);
    AllocAtSlot(m, t, j, l);
    if k < |m.pool.used| { BranchInto(m, t, j, k, l - 1); }
  }

  /** One round through a branch. */
  lemma StepDown(m: Machine, va: Word, l: Level, level: Level)
    requires WellFormed(m.pool) && level < l && Reach(m.pool, va, l).Some? && Reach(m.pool, va, l - 1).Some?
    ensures Descent(m, Addr(m.pool, Reach(m.pool, va, l).value), va, l, level)
         == Descent(m, Addr(m.pool, Reach(m.pool, va, l - 1).value), va, l - 1, level)
  {
    FollowBranch(m, va, l);
  }

  /** One round that allocates. */
  lemma StepGrow(m: Machine, va: Word, l: Level, level: Level)
    requires WellFormed(m.pool) && level < l && StopLevel(m.pool, va) == l && !V(StopEntry(m.pool, va))
    ensures GrowAt(m.pool, va).None? ==> Descent(m, Addr(m.pool, StopTable(m.pool, va)), va, l, level).None?
    ensures GrowAt(m.pool, va).Some? ==>
      var g := Machine(GrowAt(m.pool, va).value, m.outside);
      && WellFormed(g.pool) && Reach(g.pool, va, l - 1).Some?
      && Descent(m, Addr(m.pool, StopTable(m.pool, va)), va, l, level)
      == Descent(g, Addr(g.pool, Reach(g.pool, va, l - 1).value), va, l - 1, level)
  {
    var t, j := StopTable(m.pool, va), Vpn(va, l);
    FetchAtTable(m, t, j);
    AllocGrows(m, t, j, l);
    if GrowAt(m.pool, va).Some? { GrownStep(m, va, l); }
  }

  lemma GrownStep(m: Machine, va: Word, l: Level)
    requires WellFormed(m.pool) && StopLevel(m.pool, va) == l > 0 && !V(StopEntry(m.pool, va))
    requires GrowAt(m.pool, va).Some?
    ensures var g := Machine(GrowAt(m.pool, va).value, m.outside);
      && WellFormed(g.pool) && Reach(g.pool, va, l - 1).Some?
      && PteToPhys(Fetch(g, Addr(m.pool, StopTable(m.pool, va)) + 8 * Vpn(va, l)))
      == Addr(g.pool, Reach(g.pool, va, l - 1).value)
  {
    var g := Machine(GrowAt(m.pool, va).value, m.outside);
    GrowHit(m.pool, va, va);
    ReachAfterGrow(m.pool, va, va, l);
    FollowBranch(g, va, l);
  }

  /** What the loop should arrive at. */
  ghost function Arrival(m: Machine, va: Word, level: Level): Option<(Machine, nat)>
    requires WellFormed(m.pool) && Clear(m.pool, va, level)
  {
    match Descend(m.pool, va, level)
    case None => None
    case Some(q) => Some((Machine(q, m.outside), Addr(q, Reach(q, va, level).value)))
  }

  lemma GrowthArrives(m: Machine, va: Word, level: Level)
    requires WellFormed(m.pool) && level < StopLevel(m.pool, va) && !V(StopEntry(m.pool, va))
    requires GrowAt(m.pool, va).Some?
    ensures var g := Machine(GrowAt(m.pool, va).value, m.outside);
      WellFormed(g.pool) && Clear(g.pool, va, level) && Arrival(m, va, level) == Arrival(g, va, level)
  {
    GrowHit(m.pool, va, va);
    ZeroIsInvalid();
  }

  /** On a clear path the loop is the pool's descent, table for table. */
  lemma {:induction false} ClearDescent(m: Machine, va: Word, l: Level, level: Level)
    requires WellFormed(m.pool) && Clear(m.pool, va, level) && level <= l && Reach(m.pool, va, l).Some?
    ensures Descent(m, Addr(m.pool, Reach(m.pool, va, l).value), va, l, level) == Arrival(m, va, level)
    decreases l
  {
    if l == level {
      DescendDone(m.pool, va, level);
    } else if V(m.pool.tables[Reach(m.pool, va, l).value][Vpn(va, l)]) {
      ValidContinues(m.pool, va, level, l);
      StepDown(m, va, l, level);
      ClearDescent(m, va, l - 1, level);
    } else {
      InvalidStops(m.pool, va, l);
      StepGrow(m, va, l, level);
      if GrowAt(m.pool, va).Some? {
        GrowthArrives(m, va, level);
        ClearDescent(Machine(GrowAt(m.pool, va).value, m.outside), va, l - 1, level);
      }
    }
  }

  /** On a clear path the loop is the pool's map, and touches no other memory. */
  lemma LoopIsMapRaw(m: Machine, va: Word, pa: Word, bits: Word, level: Level)
    requires WellFormed(m.pool) && Clear(m.pool, va, level) && (level == 0 || !IsBranch(RawPte(pa, bits)))
    ensures MapLoop(m, va, pa, bits, level)
         == match MapRaw(m.pool, va, pa, bits, level)
            case None => None
            case Some(q) => Some(Machine(q, m.outside))
  {
    RootDescent(m, va, level);
    if Descend(m.pool, va, level).Some? {
      PutIsWrite(Machine(Descend(m.pool, va, level).value, m.outside), va, level, RawPte(pa, bits));
    }
  }

  lemma RootDescent(m: Machine, va: Word, level: Level)
    requires WellFormed(m.pool) && Clear(m.pool, va, level)
    ensures Descent(m, Addr(m.pool, m.pool.root), va, 2, level) == Arrival(m, va, level)
  {
    ClearDescent(m, va, 2, level);
  }

  lemma PutIsWrite(m: Machine, va: Word, level: Level, w: Word)
    requires WellFormed(m.pool) && Reach(m.pool, va, level).Some? && (level == 0 || !IsBranch(w))
    ensures Put(m, Addr(m.pool, Reach(m.pool, va, level).value) + 8 * Vpn(va, level), w)
         == Machine(WriteAt(m.pool, va, level, w), m.outside)
  {
    FetchAtTable(m, Reach(m.pool, va, level).value, Vpn(va, level));
  }

  // ---- A blocked path ----

  /** The page at a holds no table. */
  predicate Outside(p: Pool, a: nat) { a + 4096 <= p.base || p.base + 4096 * |p.tables| <= a }

  /** The leaf in the way does not map the pool, and what the loop reads of its frame does not lead into it. */
  ghost predicate LeadsAway(m: Machine, va: Word, level: Level)
    requires WellFormed(m.pool)
  {
    var f := PteToPhys(StopEntry(m.pool, va));
    && Outside(m.pool, f)
    && (StopLevel(m.pool, va) - 1 > level && V(m.outside(f + 8 * Vpn(va, 1))) ==>
          Outside(m.pool, PteToPhys(m.outside(f + 8 * Vpn(va, 1)))))
  }

  /** A used table that nothing points to changes no walk. */
  lemma {:induction false} LooseTable(p: Pool, k: nat, t: Table, parent: (nat, nat), x: Word, l: Level)
    requires WellFormed(p) && k < |p.tables| && !p.used[k]
    ensures WellFormed(Taken(p, k, t, 0, parent))
    ensures Reach(Taken(p, k, t, 0, parent), x, l) == Reach(p, x, l)
    decreases 2 - l
  {
    var q := Taken(p, k, t, 0, parent);
    forall s, i | 0 <= s < |q.tables| && q.used[s] && q.rank[s] > 0 && 0 <= i < 512 && IsBranch(q.tables[s][i])
      ensures GoodBranch(q, s, i)
    {
      assert GoodBranch(p, s, i);
    }
    if l < 2 {
      LooseTable(p, k, t, parent, x, l + 1);
      SameStep(p, q, x, l);
    }
  }

  lemma LooseTableKeepsCells(p: Pool, k: nat, t: Table, parent: (nat, nat), x: Word)
    requires WellFormed(p) && k < |p.tables| && !p.used[k]
    ensures WellFormed(Taken(p, k, t, 0, parent))
    ensures StopLevel(Taken(p, k, t, 0, parent), x) == StopLevel(p, x)
    ensures StopEntry(Taken(p, k, t, 0, parent), x) == StopEntry(p, x)
  {
    LooseTable(p, k, t, parent, x, 0);
    LooseTable(p, k, t, parent, x, 1);
    LooseTable(p, k, t, parent, x, 2);
  }

  /** The loop walks down to the leaf in the way. */
  lemma {:induction false} DescendsToStop(m: Machine, va: Word, l: Level, level: Level)
    requires WellFormed(m.pool) && StopLevel(m.pool, va) <= l && level < StopLevel(m.pool, va)
    requires Reach(m.pool, va, l).Some?
    ensures Descent(m, Addr(m.pool, Reach(m.pool, va, l).value), va, l, level)
         == Descent(m, Addr(m.pool, StopTable(m.pool, va)), va, StopLevel(m.pool, va), level)
    decreases l
  {
    if l > StopLevel(m.pool, va) {
      PassedIsBranch(m.pool, va, l);
      StepDown(m, va, l, level);
      DescendsToStop(m, va, l - 1, level);
    }
  }

  /** A store outside the pool leaves the pool. */
  lemma PutOutside(m: Machine, a: nat, j: nat, w: Word)
    requires Shape(m.pool) && j < 512 && Outside(m.pool, a)
    ensures Put(m, a + 8 * j, w).pool == m.pool && Fetch(m, a + 8 * j) == m.outside(a + 8 * j)
    ensures Put(m, a + 8 * j, w).outside(a + 8 * j) == w
  {
  }

  /** The pool is as it was, or has one more table in use that nothing points to. */
  ghost predicate AsGood(p: Pool, q: Pool) {
    q == p || exists k: nat, t: Table, parent: (nat, nat) ::
      Shape(p) && k < |p.tables| && !p.used[k] && q == Taken(p, k, t, 0, parent)
  }

  /** Wherever the loop ends, its last store leaves the pool as good. */
  ghost predicate LandsWell(p: Pool, r: Option<(Machine, nat)>, va: Word, pa: Word, bits: Word, level: Level) {
    r.Some? ==>
      && Shape(r.value.0.pool)
      && AsGood(p, Put(r.value.0, r.value.1 + 8 * Vpn(va, level), RawPte(pa, bits)).pool)
  }

  lemma LandsOutside(m: Machine, a: nat, va: Word, pa: Word, bits: Word, level: Level)
    requires Shape(m.pool) && Outside(m.pool, a)
    ensures LandsWell(m.pool, Some((m, a)), va, pa, bits, level)
  {
    PutOutside(m, a, Vpn(va, level), RawPte(pa, bits));
  }

  /** From the frame of a superpage taken for a table, one level down. */
  lemma FrameAsTable(m: Machine, f: nat, va: Word, pa: Word, bits: Word, l: Level, level: Level)
      returns (r: Option<(Machine, nat)>)
    requires Shape(m.pool) && Outside(m.pool, f) && level == l - 1 == 0
    requires V(m.outside(f + 8 * Vpn(va, l))) ==> Outside(m.pool, PteToPhys(m.outside(f + 8 * Vpn(va, l))))
    ensures r == Descent(m, f, va, l, level) && LandsWell(m.pool, r, va, pa, bits, level)
  {
    var slot := f + 8 * Vpn(va, l);
    FrameStep(m, f, va, l, level);
    if V(m.outside(slot)) {
      r := Some((m, PteToPhys(m.outside(slot))));
      LandsOutside(m, PteToPhys(m.outside(slot)), va, pa, bits, level);
    } else if Alloc(m, l, slot).Some? {
      r := ViaFresh(m, slot, Alloc(m, l, slot).value);
      FrameAllocates(m, f, Vpn(va, l), va, pa, bits, l, level);
    } else {
      r := None;
    }
  }

  lemma FrameAllocates(m: Machine, f: nat, i: nat, va: Word, pa: Word, bits: Word, l: Level, level: Level)
    requires Shape(m.pool) && Outside(m.pool, f) && i < 512 && l == 1 && Alloc(m, l, f + 8 * i).Some?
    ensures LandsWell(m.pool, ViaFresh(m, f + 8 * i, Alloc(m, l, f + 8 * i).value), va, pa, bits, level)
  {
    var r := Alloc(m, l, f + 8 * i).value;
    var parent := AllocTakes(m, l, f + 8 * i);
    LandsInFresh(m, r, parent, f, i, va, pa, bits, level);
  }

  lemma LandsInFresh(
    m: Machine, r: (Machine, nat), parent: (nat, nat), f: nat, i: nat, va: Word, pa: Word, bits: Word, level: Level)
    requires Shape(m.pool) && Outside(m.pool, f) && i < 512 && r.1 < |m.pool.tables| && !m.pool.used[r.1]
    requires r.0.pool == Taken(m.pool, r.1, ZeroTable(), 0, parent)
    ensures LandsWell(m.pool, ViaFresh(m, f + 8 * i, r), va, pa, bits, level)
  {
    BranchReadBack(m, r.0, r.1, f, i);
    FreshUnderFrame(m, r.0, r.1, parent, f, i, Vpn(va, level), RawPte(pa, bits));
  }

  /** Store the branch to the fresh table and follow it. */
  function ViaFresh(m: Machine, slot: nat, r: (Machine, nat)): Option<(Machine, nat)>
    requires Shape(m.pool) && Shape(r.0.pool) && r.1 < |m.pool.tables|
  {
    var m' := Put(r.0, slot, BranchPte(Addr(m.pool, r.1)));
    Some((m', PteToPhys(Fetch(m', slot))))
  }

  lemma AllocTakes(m: Machine, l: Level, slot: nat) returns (parent: (nat, nat))
    requires Shape(m.pool) && Alloc(m, l, slot).Some?
    ensures var r := Alloc(m, l, slot).value;
      r.1 < |m.pool.tables| && !m.pool.used[r.1] && r.0.pool == Taken(m.pool, r.1, ZeroTable(), l - 1, parent)
  {
    var p := m.pool;
    parent := if p.base <= slot then ((slot - p.base) / 4096, (slot - p.base) % 4096 / 8) else (0, 0);
  }

  /** Its one round. */
  lemma FrameStep(m: Machine, f: nat, va: Word, l: Level, level: Level)
    requires Shape(m.pool) && Outside(m.pool, f) && level == l - 1
    ensures var slot := f + 8 * Vpn(va, l);
      Descent(m, f, va, l, level)
      == if V(m.outside(slot)) then Some((m, PteToPhys(m.outside(slot))))
         else match Alloc(m, l, slot)
           case None => None
           case Some(r) => ViaFresh(m, slot, r)
  {
    PutOutside(m, f, Vpn(va, l), 0);
  }

  /** The branch stored in the frame leads to the table. */
  lemma BranchReadBack(m: Machine, m1: Machine, k: nat, f: nat, i: nat)
    requires Shape(m.pool) && Outside(m.pool, f) && i < 512 && k < |m.pool.tables|
    requires Shape(m1.pool) && m1.pool.base == m.pool.base && |m1.pool.tables| == |m.pool.tables|
    ensures PteToPhys(Fetch(Put(m1, f + 8 * i, BranchPte(Addr(m.pool, k))), f + 8 * i)) == Addr(m.pool, k)
  {
    var m2 := Put(m1, f + 8 * i, BranchPte(Addr(m.pool, k)));
    PutOutside(m1, f, i, BranchPte(Addr(m.pool, k)));
    PutOutside(m2, f, i, 0);
    AddrAligned(m.pool, k);
    BranchFields(Addr(m.pool, k));
  }

  /** The table allocated there hangs from the frame, not from the pool. */
  lemma FreshUnderFrame(
    m: Machine, m1: Machine, k: nat, parent: (nat, nat), f: nat, i: nat, j: nat, w: Word)
    requires Shape(m.pool) && Outside(m.pool, f) && i < 512 && j < 512
    requires k < |m.pool.tables| && !m.pool.used[k] && m1.pool == Taken(m.pool, k, ZeroTable(), 0, parent)
    ensures AsGood(m.pool, Put(Put(m1, f + 8 * i, BranchPte(Addr(m.pool, k))), Addr(m.pool, k) + 8 * j, w).pool)
  {
    PutOutside(m1, f, i, BranchPte(Addr(m.pool, k)));
    FreshTableFilled(m.pool, Put(m1, f + 8 * i, BranchPte(Addr(m.pool, k))), k, parent, j, w);
  }

  lemma FreshTableFilled(p: Pool, m: Machine, k: nat, parent: (nat, nat), j: nat, w: Word)
    requires Shape(p) && k < |p.tables| && !p.used[k] && j < 512 && m.pool == Taken(p, k, ZeroTable(), 0, parent)
    ensures AsGood(p, Put(m, Addr(p, k) + 8 * j, w).pool)
  {
    FetchAtTable(m, k, j);
    var q := Put(m, Addr(p, k) + 8 * j, w).pool;
    assert q == Taken(p, k, ZeroTable()[j := w], 0, parent);
  }

  /** From the leaf in the way. */
  lemma FromTheLeaf(m: Machine, va: Word, pa: Word, bits: Word, level: Level)
      returns (r: Option<(Machine, nat)>)
    requires WellFormed(m.pool) && !Clear(m.pool, va, level) && LeadsAway(m, va, level)
    ensures r == Descent(m, Addr(m.pool, StopTable(m.pool, va)), va, StopLevel(m.pool, va), level)
    ensures LandsWell(m.pool, r, va, pa, bits, level)
  {
    var f := PteToPhys(StopEntry(m.pool, va));
    LeafFollowed(m, va, level);
    if StopLevel(m.pool, va) - 1 == level {
      r := Some((m, f));
      LandsOutside(m, f, va, pa, bits, level);
    } else {
      r := FrameAsTable(m, f, va, pa, bits, 1, level);
    }
  }

  /** The leaf is followed as a pointer to its frame. */
  lemma LeafFollowed(m: Machine, va: Word, level: Level)
    requires WellFormed(m.pool) && level < StopLevel(m.pool, va) && V(StopEntry(m.pool, va))
    ensures var l := StopLevel(m.pool, va);
      Descent(m, Addr(m.pool, StopTable(m.pool, va)), va, l, level)
      == Descent(m, PteToPhys(StopEntry(m.pool, va)), va, l - 1, level)
    ensures Descent(m, PteToPhys(StopEntry(m.pool, va)), va, level, level)
         == Some((m, PteToPhys(StopEntry(m.pool, va))))
  {
    FetchAtTable(m, StopTable(m.pool, va), Vpn(va, StopLevel(m.pool, va)));
  }

  lemma DescendsFromRoot(m: Machine, va: Word, level: Level)
    requires WellFormed(m.pool) && level < StopLevel(m.pool, va)
    ensures Descent(m, Addr(m.pool, m.pool.root), va, 2, level)
         == Descent(m, Addr(m.pool, StopTable(m.pool, va)), va, StopLevel(m.pool, va), level)
  {
    assert Reach(m.pool, va, 2) == Some(m.pool.root);
    DescendsToStop(m, va, 2, level);
  }

  lemma BlockedLoop(m: Machine, va: Word, pa: Word, bits: Word, level: Level)
    requires WellFormed(m.pool) && !Clear(m.pool, va, level) && LeadsAway(m, va, level)
    ensures match MapLoop(m, va, pa, bits, level) case None => true case Some(r) => AsGood(m.pool, r.pool)
  {
    DescendsFromRoot(m, va, level);
    var r := FromTheLeaf(m, va, pa, bits, level);
  }

  /** A map below a superpage that does not map the pool is lost: every address, the one asked for included, keeps
      the translation it had. */
  lemma BlockedMapIsLost(m: Machine, va: Word, pa: Word, bits: Word, level: Level, x: Word)
    requires WellFormed(m.pool) && !Clear(m.pool, va, level) && LeadsAway(m, va, level)
    ensures match MapLoop(m, va, pa, bits, level)
            case None => true
            case Some(r) =>
              && WellFormed(r.pool)
              && StopLevel(r.pool, x) == StopLevel(m.pool, x) && StopEntry(r.pool, x) == StopEntry(m.pool, x)
              && (Canonical(x) ==> View(r.pool, x) == View(m.pool, x))
  {
    BlockedLoop(m, va, pa, bits, level);
    var r := MapLoop(m, va, pa, bits, level);
    if r.Some? {
      AsGoodKeeps(m.pool, r.value.pool, x);
    }
  }

  lemma AsGoodKeeps(p: Pool, q: Pool, x: Word)
    requires WellFormed(p) && AsGood(p, q)
    ensures WellFormed(q) && StopLevel(q, x) == StopLevel(p, x) && StopEntry(q, x) == StopEntry(p, x)
    ensures Canonical(x) ==> View(q, x) == View(p, x)
  {
    if q != p {
      var k: nat, t: Table, parent: (nat, nat) :| k < |p.tables| && !p.used[k] && q == Taken(p, k, t, 0, parent);
      LooseTableKeepsCells(p, k, t, parent, x);
    }
    if Canonical(x) {
      ViewIsStopEntry(p, x);
      ViewIsStopEntry(q, x);
    }
  }

  /** A map takes effect exactly on a clear path. */
  lemma TakesEffectIffClear(m: Machine, va: Word, pa: Word, bits: Word, level: Level)
    requires WellFormed(m.pool) && (level == 0 || !IsBranch(RawPte(pa, bits)))
    requires !Clear(m.pool, va, level) ==> LeadsAway(m, va, level)
    ensures match MapLoop(m, va, pa, bits, level)
            case None => true
            case Some(r) =>
              && WellFormed(r.pool)
              && (Clear(m.pool, va, level) <==>
                    StopLevel(r.pool, va) == level && StopEntry(r.pool, va) == RawPte(pa, bits))
  {
    if Clear(m.pool, va, level) {
      LoopIsMapRaw(m, va, pa, bits, level);
      if MapRaw(m.pool, va, pa, bits, level).Some? {
        WriteHit(Descend(m.pool, va, level).value, va, level, RawPte(pa, bits), va);
      }
    } else {
      BlockedMapIsLost(m, va, pa, bits, level, va);
    }
  }

  // ---- The boot map is in the way ----

  /** After boot the MMIO gigapage blocks every page and megapage map of the first gigabyte. */
  lemma MmioBlocks(base: Word, n: nat, start: Word, end: Word, x: Word, level: Level)
    requires n > 0 && base % 4096 == 0 && base + 4096 * n <= 0x100_0000_0000_0000 && BootLayout(start, end)
    requires x < 0x4000_0000 && level < 2
    ensures WellFormed(RootOnly(base, n)) && EnabledRun(RootOnly(base, n), BootOps(start, end))
    ensures var r := Run(RootOnly(base, n), BootOps(start, end));
      r.Some? ==>
        !Clear(r.value, x, level) && StopEntry(r.value, x) == LeafPte(0, PERM_RW) && StopLevel(r.value, x) == 2
  {
    var p := RootOnly(base, n);
    BootLegal(base, n, start, end);
    RunRefines(p, CellsOf(p), BootOps(start, end));
    BootCells(base, n, start, end, x);
    var r := Run(p, BootOps(start, end));
    if r.Some? {
      assert CellAt(r.value, x) == BootCell(x, start, end);
    }
  }

  lemma {:induction false} RunStaysInPlace(p: Pool, ops: seq<Op>)
    requires WellFormed(p) && EnabledRun(p, ops) && Run(p, ops).Some?
    ensures Run(p, ops).value.base == p.base && |Run(p, ops).value.tables| == |p.tables|
    decreases |ops|
  {
    if ops != [] { RunStaysInPlace(Step(p, ops[0]).value, ops[1..]); }
  }

  /** A leaf on frame 0 is taken for a table at physical address 0. */
  lemma FrameZero()
    ensures PteToPhys(LeafPte(0, PERM_RW)) == 0
  {
    PermBits();
    LeafIsRaw(0, PERM_RW);
    VadFits(PERM_RW);
    RawFields(0, LeafBits(PERM_RW));
  }

  /** So after boot no page or megapage map of the first gigabyte takes effect: the address keeps going to itself.
      For a page the loop also reads a word of low memory, which must not happen to point into the pool. */
  lemma BootMapIsLost(
    base: Word, n: nat, start: Word, end: Word, outside: nat -> Word, va: Word, pa: Word, bits: Word, level: Level)
    requires n > 0 && base % 4096 == 0 && base + 4096 * n <= 0x100_0000_0000_0000 && BootLayout(start, end)
    requires start <= base && va < 0x4000_0000 && level < 2
    requires WellFormed(RootOnly(base, n)) && EnabledRun(RootOnly(base, n), BootOps(start, end))
    requires Run(RootOnly(base, n), BootOps(start, end)).Some?
    requires level == 0 && V(outside(8 * Vpn(va, 1))) ==>
               || PteToPhys(outside(8 * Vpn(va, 1))) + 4096 <= base
               || base + 4096 * n <= PteToPhys(outside(8 * Vpn(va, 1)))
    ensures match MapLoop(Machine(Run(RootOnly(base, n), BootOps(start, end)).value, outside), va, pa, bits, level)
            case None => true
            case Some(r) => View(r.pool, va) == Some(Mapping(va, true, true, false, false, true, true))
  {
    var p := Run(RootOnly(base, n), BootOps(start, end)).value;
    MmioBlocks(base, n, start, end, va, level);
    RunStaysInPlace(RootOnly(base, n), BootOps(start, end));
    LostBelowMmio(Machine(p, outside), va, pa, bits, level);
    BootMap(base, n, start, end, va);
  }

  lemma LostBelowMmio(m: Machine, va: Word, pa: Word, bits: Word, level: Level)
    requires WellFormed(m.pool) && 4096 <= m.pool.base && Canonical(va) && level < 2 == StopLevel(m.pool, va)
    requires !Clear(m.pool, va, level) && StopEntry(m.pool, va) == LeafPte(0, PERM_RW)
    requires level == 0 && V(m.outside(8 * Vpn(va, 1))) ==> Outside(m.pool, PteToPhys(m.outside(8 * Vpn(va, 1))))
    ensures match MapLoop(m, va, pa, bits, level) case None => true case Some(r) => View(r.pool, va) == View(m.pool, va)
  {
    FrameZero();
    BlockedMapIsLost(m, va, pa, bits, level, va);
  }
}
