/** The table pool as a value: 512-entry tables laid out contiguously from a base address, the used flags,
    and two labels that exist only for the argument (the level and the unique parent slot of each used table).
    The hardware walker reads these tables by physical address. */
module Pool {
  import opened Words
  import opened Sv39

  type Table = t: seq<Word> | |t| == 512 witness seq(512, _ => 0)

  datatype Pool = Pool(
    base: nat,
    tables: seq<Table>,
    used: seq<bool>,
    root: nat,
    rank: seq<int>,
    parent: seq<(nat, nat)>)

  /** Physical (and, being identity-mapped, virtual) address of table t. */
  function Addr(p: Pool, t: nat): nat { p.base + 4096 * t }

  function TableIndex(p: Pool, a: int): int { (a - p.base) / 4096 }

  function Next(p: Pool, w: Word): int { TableIndex(p, PteToPhys(w)) }

  predicate Shape(p: Pool) {
    && |p.used| == |p.rank| == |p.parent| == |p.tables|
    && p.base % 4096 == 0
    && p.base + 4096 * |p.tables| <= 0x100_0000_0000_0000
    && p.root < |p.tables|
  }

  /** The branch entry j of table t points at a used table one level down whose only parent slot is (t, j). */
  predicate GoodBranch(p: Pool, t: nat, j: nat)
    requires Shape(p) && t < |p.tables| && j < 512
  {
    var k := Next(p, p.tables[t][j]);
    && 0 <= k < |p.tables|
    && p.tables[t][j] == BranchPte(Addr(p, k))
    && p.used[k]
    && p.rank[k] + 1 == p.rank[t]
    && p.parent[k] == (t, j)
  }

  /** A stratified forest hanging from the root: every branch goes one level down to a used table, and no table
      is the target of two branches. */
  ghost predicate WellFormed(p: Pool) {
    && Shape(p)
    && p.used[p.root] && p.rank[p.root] == 2
    && (forall t | 0 <= t < |p.tables| && p.used[t] :: 0 <= p.rank[t] <= 2)
    && (forall t, j {:trigger GoodBranch(p, t, j)} |
          0 <= t < |p.tables| && p.used[t] && p.rank[t] > 0 && 0 <= j < 512 && IsBranch(p.tables[t][j]) ::
          GoodBranch(p, t, j))
  }

  // ---- The hardware walker (section 4.3.2) ----

  /** The 8-byte word at physical address a, if it lies in the pool. */
  function ReadPte(p: Pool, a: nat): Option<Word>
    requires Shape(p)
  {
    if p.base <= a < p.base + 4096 * |p.tables| && a % 8 == 0
    then Some(p.tables[(a - p.base) / 4096][(a - p.base) % 4096 / 8])
    else None
  }

  /** How a walk ends: the entry at which it stops, that entry's address and level, and whether it is a leaf. */
  datatype Stop =
    | LeafAt(slot: nat, pte: Word, level: Level)
    | PageFault(slot: nat, pte: Word, level: Level)
    | AccessFault  // the walk left the pool

  /** Steps 2 to 6: i is the level, a the physical address of the table page. */
  function HwWalk(p: Pool, a: nat, va: Word, i: Level): Stop
    requires Shape(p)
    decreases i as int, a
  {
    var slot := a + Vpn(va, i) * 8;
    match ReadPte(p, slot)
    case None => AccessFault
    case Some(pte) =>
      if !V(pte) || (!R(pte) && W(pte)) || ReservedBits(pte) then PageFault(slot, pte, i)
      else if R(pte) || X(pte) then
        if Ppn(pte) * 4096 % Span(i) != 0 then PageFault(slot, pte, i) else LeafAt(slot, pte, i)
      else if U(pte) || A(pte) || D(pte) then PageFault(slot, pte, i)
      else if i == 0 then PageFault(slot, pte, i)
      else HwWalk(p, Ppn(pte) * 4096, va, i - 1)
  }

  /** The translation of va with satp pointing at the root table; None is a page fault for every access. */
  function View(p: Pool, va: Word): Option<Mapping>
    requires Shape(p)
  {
    if !Canonical(va) then None
    else match HwWalk(p, Addr(p, p.root), va, 2)
      case LeafAt(_, pte, i) => Some(Grant(pte, i, va))
      case _ => None
  }

  // ---- The tables a walk visits ----

  /** The level-l table that translates va, if every entry above it on the way is a branch. */
  ghost function Reach(p: Pool, va: Word, l: Level): (r: Option<nat>)
    requires WellFormed(p)
    ensures r.Some? ==> r.value < |p.tables| && p.used[r.value] && p.rank[r.value] == l
    decreases 2 - l, va
  {
    if l == 2 then Some(p.root)
    else match Reach(p, va, l + 1)
      case None => None
      case Some(t) =>
        var w := p.tables[t][Vpn(va, l + 1)];
        if IsBranch(w) then assert GoodBranch(p, t, Vpn(va, l + 1)); Some(Next(p, w)) else None
  }

  /** The level at which the walk for va ends. */
  ghost function StopLevel(p: Pool, va: Word): (l: Level)
    requires WellFormed(p)
    ensures Reach(p, va, l).Some?
  {
    if Reach(p, va, 0).Some? then 0 else if Reach(p, va, 1).Some? then 1 else 2
  }

  ghost function StopTable(p: Pool, va: Word): (t: nat)
    requires WellFormed(p)
    ensures t < |p.tables| && p.used[t] && p.rank[t] == StopLevel(p, va)
  {
    Reach(p, va, StopLevel(p, va)).value
  }

  /** The entry at which the walk for va ends. */
  ghost function StopEntry(p: Pool, va: Word): Word
    requires WellFormed(p)
  {
    p.tables[StopTable(p, va)][Vpn(va, StopLevel(p, va))]
  }

  lemma SlotOffset(t: nat, j: nat)
    requires j < 512
    ensures (4096 * t + 8 * j) / 4096 == t && (4096 * t + 8 * j) % 4096 == 8 * j
  {
  }

  lemma SlotAligned(base: nat, t: nat, j: nat)
    requires base % 4096 == 0
    ensures (base + (4096 * t + 8 * j)) % 8 == 0
  {
    assert base == 8 * (512 * (base / 4096));
    assert base + (4096 * t + 8 * j) == 8 * (512 * (base / 4096) + 512 * t + j);
  }

  lemma ReadAtTable(p: Pool, t: nat, j: nat)
    requires Shape(p) && t < |p.tables| && j < 512
    ensures ReadPte(p, Addr(p, t) + j * 8) == Some(p.tables[t][j])
  {
    SlotOffset(t, j);
    SlotAligned(p.base, t, j);
    assert Addr(p, t) + j * 8 == p.base + (4096 * t + 8 * j);
  }

  lemma AddrAligned(p: Pool, t: nat)
    requires Shape(p) && t < |p.tables|
    ensures Addr(p, t) % 4096 == 0 && Addr(p, t) + 4096 <= 0x100_0000_0000_0000
  {
    assert Addr(p, t) == 4096 * (p.base / 4096 + t);
  }

  lemma WalkPointer(p: Pool, a: nat, table: Word, va: Word, l: Level)
    requires Shape(p) && l < 2
    requires table % 4096 == 0 && table < 0x100_0000_0000_0000
    requires ReadPte(p, a + Vpn(va, l + 1) * 8) == Some(BranchPte(table))
    ensures HwWalk(p, a, va, l + 1) == HwWalk(p, table, va, l)
  {
    BranchFields(table);
  }

  lemma WalkThroughBranch(p: Pool, t: nat, va: Word, l: Level)
    requires WellFormed(p) && l < 2
    requires t < |p.tables| && p.used[t] && p.rank[t] == l + 1 && IsBranch(p.tables[t][Vpn(va, l + 1)])
    ensures var k := Next(p, p.tables[t][Vpn(va, l + 1)]);
            k >= 0 && HwWalk(p, Addr(p, t), va, l + 1) == HwWalk(p, Addr(p, k), va, l)
  {
    var j := Vpn(va, l + 1);
    assert GoodBranch(p, t, j);
    ReadAtTable(p, t, j);
    AddrAligned(p, Next(p, p.tables[t][j]));
    WalkPointer(p, Addr(p, t), Addr(p, Next(p, p.tables[t][j])), va, l);
  }

  /** The hardware walk follows exactly the tables of Reach, and so never leaves the pool. */
  lemma {:induction false} WalkFollowsReach(p: Pool, va: Word, l: Level)
    requires WellFormed(p) && Reach(p, va, l).Some?
    ensures HwWalk(p, Addr(p, p.root), va, 2) == HwWalk(p, Addr(p, Reach(p, va, l).value), va, l)
    decreases 2 - l
  {
    if l < 2 {
      WalkFollowsReach(p, va, l + 1);
      WalkThroughBranch(p, Reach(p, va, l + 1).value, va, l);
    }
  }

  function StopAt(slot: nat, w: Word, l: Level, va: Word): Stop {
    if LeafView(w, l, va).Some? then LeafAt(slot, w, l) else PageFault(slot, w, l)
  }

  /** The walk ends at a level-l entry that the mappers do not follow either. */
  lemma WalkEnds(p: Pool, t: nat, va: Word, l: Level)
    requires Shape(p) && t < |p.tables|
    requires l == 0 || !IsBranch(p.tables[t][Vpn(va, l)])
    ensures var w := p.tables[t][Vpn(va, l)];
            HwWalk(p, Addr(p, t), va, l) == StopAt(Addr(p, t) + Vpn(va, l) * 8, w, l, va)
  {
    ReadAtTable(p, t, Vpn(va, l));
  }

  lemma StopIsNoBranch(p: Pool, va: Word)
    requires WellFormed(p)
    ensures StopLevel(p, va) == 0 || !IsBranch(StopEntry(p, va))
  {
    if StopLevel(p, va) > 0 {
      assert Reach(p, va, StopLevel(p, va) - 1).None?;
    }
  }

  lemma WalkStops(p: Pool, va: Word)
    requires WellFormed(p)
    ensures var w, l := StopEntry(p, va), StopLevel(p, va);
            HwWalk(p, Addr(p, p.root), va, 2) == StopAt(Addr(p, StopTable(p, va)) + Vpn(va, l) * 8, w, l, va)
  {
    var l := StopLevel(p, va);
    WalkFollowsReach(p, va, l);
    StopIsNoBranch(p, va);
    WalkEnds(p, StopTable(p, va), va, l);
  }

  /** The entry at which the walk ends, field by field. */
  lemma WalkEndFields(p: Pool, va: Word)
    requires WellFormed(p)
    ensures HwWalk(p, Addr(p, p.root), va, 2) != AccessFault
    ensures HwWalk(p, Addr(p, p.root), va, 2).slot == Addr(p, StopTable(p, va)) + Vpn(va, StopLevel(p, va)) * 8
    ensures HwWalk(p, Addr(p, p.root), va, 2).pte == StopEntry(p, va)
    ensures HwWalk(p, Addr(p, p.root), va, 2).level == StopLevel(p, va)
  {
    WalkStops(p, va);
  }

  /** On a well-formed pool the hardware translation of a canonical address is what the entry where the
      mappers' own walk stops grants at that level, and the walker reads no memory outside the pool. */
  lemma ViewIsStopEntry(p: Pool, va: Word)
    requires WellFormed(p)
    ensures Canonical(va) ==> View(p, va) == LeafView(StopEntry(p, va), StopLevel(p, va), va)
    ensures HwWalk(p, Addr(p, p.root), va, 2) != AccessFault
  {
    WalkStops(p, va);
  }

  /** No table is reached twice: two addresses meet in a level-l table only if they share every slot above it. */
  lemma {:induction false} ReachInjective(p: Pool, x: Word, y: Word, l: Level)
    requires WellFormed(p)
    requires Reach(p, x, l).Some? && Reach(p, x, l) == Reach(p, y, l)
    ensures l < 2 ==> SameSlot(x, y, l + 1)
    decreases 2 - l
  {
    if l < 2 {
      var t, u := Reach(p, x, l + 1).value, Reach(p, y, l + 1).value;
      assert GoodBranch(p, t, Vpn(x, l + 1));
      assert GoodBranch(p, u, Vpn(y, l + 1));
      ReachInjective(p, x, y, l + 1);
    }
  }

  lemma {:induction false} SameSlotsReachTogether(p: Pool, x: Word, y: Word, l: Level)
    requires WellFormed(p)
    requires l < 2 ==> SameSlot(x, y, l + 1)
    ensures Reach(p, x, l) == Reach(p, y, l)
    decreases 2 - l
  {
    if l < 2 { SameSlotsReachTogether(p, x, y, l + 1); }
  }
}
