/** What the pool says about each address, as an abstract map from addresses to leaves, and how the two
    primitive table updates (overwriting an entry, hanging a fresh table from an invalid entry) change it. */
module Cells {
  import opened Words
  import opened Sv39
  import opened Pool

  /** The abstract content at one address: nothing, or a valid entry covering it at some level. */
  datatype Cell = Unmapped | Mapped(level: Level, pte: Word)

  function CellOf(w: Word, l: Level): Cell { if V(w) then Mapped(l, w) else Unmapped }

  function CellView(c: Cell, va: Word): Option<Mapping> {
    match c
    case Unmapped => None
    case Mapped(l, w) => LeafView(w, l, va)
  }

  ghost function CellAt(p: Pool, va: Word): Cell
    requires WellFormed(p)
  {
    CellOf(StopEntry(p, va), StopLevel(p, va))
  }

  /** The cell determines the hardware translation. */
  lemma ViewOfCell(p: Pool, va: Word)
    requires WellFormed(p) && Canonical(va)
    ensures View(p, va) == CellView(CellAt(p, va), va)
  {
    ViewIsStopEntry(p, va);
  }

  // ---- Overwriting one entry ----

  function SetEntry(p: Pool, t: nat, j: nat, w: Word): Pool
    requires t < |p.tables| && j < 512
  {
    Pool(p.base, p.tables[t := p.tables[t][j := w]], p.used, p.root, p.rank, p.parent)
  }

  lemma WriteKeepsWellFormed(p: Pool, t: nat, j: nat, w: Word)
    requires WellFormed(p) && t < |p.tables| && p.used[t] && j < 512
    requires p.rank[t] == 0 || !IsBranch(w)
    ensures WellFormed(SetEntry(p, t, j, w))
  {
    var q := SetEntry(p, t, j, w);
    forall s, i | 0 <= s < |q.tables| && q.used[s] && q.rank[s] > 0 && 0 <= i < 512 && IsBranch(q.tables[s][i])
      ensures GoodBranch(q, s, i)
    {
      assert q.tables[s][i] == p.tables[s][i];
      assert GoodBranch(p, s, i);
    }
  }

  /** One step down from a table both pools reach, through an entry they agree on. */
  lemma SameStep(p: Pool, q: Pool, x: Word, l: Level)
    requires WellFormed(p) && WellFormed(q) && l < 2
    requires p.base == q.base && Reach(q, x, l + 1) == Reach(p, x, l + 1)
    requires var r := Reach(p, x, l + 1);
             r.Some? && r.value < |q.tables| ==>
             q.tables[r.value][Vpn(x, l + 1)] == p.tables[r.value][Vpn(x, l + 1)]
    ensures Reach(q, x, l) == Reach(p, x, l)
  {
  }

  /** The pool after writing w into the level-L slot of va. */
  ghost function WriteAt(p: Pool, va: Word, L: Level, w: Word): (q: Pool)
    requires WellFormed(p) && Reach(p, va, L).Some? && (L == 0 || !IsBranch(w))
    ensures WellFormed(q)
  {
    WriteKeepsWellFormed(p, Reach(p, va, L).value, Vpn(va, L), w);
    SetEntry(p, Reach(p, va, L).value, Vpn(va, L), w)
  }

  lemma WriteAtEntry(p: Pool, va: Word, L: Level, w: Word, t: nat, j: nat)
    requires WellFormed(p) && Reach(p, va, L).Some? && (L == 0 || !IsBranch(w))
    requires t < |p.tables| && j < 512
    ensures |WriteAt(p, va, L, w).tables| == |p.tables|
    ensures WriteAt(p, va, L, w).tables[t][j] ==
              if t == Reach(p, va, L).value && j == Vpn(va, L) then w else p.tables[t][j]
  {
  }

  lemma {:induction false} ReachAfterWrite(p: Pool, va: Word, L: Level, w: Word, x: Word, l: Level)
    requires WellFormed(p) && Reach(p, va, L).Some? && (L == 0 || !IsBranch(w))
    ensures Reach(WriteAt(p, va, L, w), x, l) == if l < L && SameSlot(x, va, L) then None else Reach(p, x, l)
    decreases 2 - l
  {
    if l < 2 {
      ReachAfterWrite(p, va, L, w, x, l + 1);
      if SameSlot(x, va, L) && l < L {
        SameSlotsReachTogether(p, x, va, L);
        WriteAtEntry(p, va, L, w, Reach(p, va, L).value, Vpn(va, L));
      } else if Reach(p, x, l + 1).Some? {
        if l + 1 == L && Reach(p, x, L) == Reach(p, va, L) { ReachInjective(p, x, va, L); }
        WriteAtEntry(p, va, L, w, Reach(p, x, l + 1).value, Vpn(x, l + 1));
        SameStep(p, WriteAt(p, va, L, w), x, l);
      }
    }
  }

  lemma WriteHit(p: Pool, va: Word, L: Level, w: Word, x: Word)
    requires WellFormed(p) && Reach(p, va, L).Some? && (L == 0 || !IsBranch(w)) && SameSlot(x, va, L)
    ensures StopLevel(WriteAt(p, va, L, w), x) == L
    ensures StopEntry(WriteAt(p, va, L, w), x) == w
  {
    ReachAfterWrite(p, va, L, w, x, 0);
    ReachAfterWrite(p, va, L, w, x, 1);
    ReachAfterWrite(p, va, L, w, x, L);
    SameSlotsReachTogether(p, x, va, L);
    WriteAtEntry(p, va, L, w, Reach(p, va, L).value, Vpn(va, L));
  }

  lemma WriteMiss(p: Pool, va: Word, L: Level, w: Word, x: Word)
    requires WellFormed(p) && Reach(p, va, L).Some? && (L == 0 || !IsBranch(w)) && !SameSlot(x, va, L)
    ensures StopLevel(WriteAt(p, va, L, w), x) == StopLevel(p, x)
    ensures StopEntry(WriteAt(p, va, L, w), x) == StopEntry(p, x)
  {
    ReachAfterWrite(p, va, L, w, x, 0);
    ReachAfterWrite(p, va, L, w, x, 1);
    ReachAfterWrite(p, va, L, w, x, 2);
    WriteAtEntry(p, va, L, w, StopTable(p, x), Vpn(x, StopLevel(p, x)));
    if StopTable(p, x) == Reach(p, va, L).value {
      ReachInjective(p, x, va, L);
    }
  }

  /** Writing a leaf (or an invalid entry) into the level-L slot of va re-points exactly the addresses that
      share that slot; every other address keeps its cell. */
  lemma WriteChangesOneSlot(p: Pool, va: Word, L: Level, w: Word, x: Word)
    requires WellFormed(p) && Reach(p, va, L).Some? && (L == 0 || !IsBranch(w))
    ensures CellAt(WriteAt(p, va, L, w), x) == if SameSlot(x, va, L) then CellOf(w, L) else CellAt(p, x)
  {
    if SameSlot(x, va, L) { WriteHit(p, va, L, w, x); } else { WriteMiss(p, va, L, w, x); }
  }

  /** A table is reached only through the tables above it. */
  lemma ReachPrefix(p: Pool, va: Word, l: Level)
    requires WellFormed(p) && Reach(p, va, l).Some?
    ensures forall m: Level | m >= l :: Reach(p, va, m).Some?
  {
    if l == 0 { assert Reach(p, va, 1).Some?; }
    forall m: Level | m >= l ensures Reach(p, va, m).Some? {
      assert m == 2 || m == 1 || m == 0;
    }
  }

  // ---- Hanging a fresh table from an invalid entry ----

  function ZeroTable(): (t: Table)
    ensures forall j | 0 <= j < 512 :: t[j] == 0
  {
    seq(512, _ => 0)
  }

  function FirstFree(used: seq<bool>, i: nat): (k: nat)
    requires i <= |used|
    ensures i <= k <= |used|
    ensures k < |used| ==> !used[k]
    ensures forall m | i <= m < k :: used[m]
    decreases |used| - i
  {
    if i == |used| || !used[i] then i else FirstFree(used, i + 1)
  }

  /** The pool after taking the first free table, zeroed, as child of slot (t, j). */
  function Grow(p: Pool, t: nat, j: nat): Option<Pool>
    requires WellFormed(p) && t < |p.tables| && p.used[t] && j < 512
  {
    var k := FirstFree(p.used, 0);
    if k == |p.used| then None
    else Some(Pool(
      p.base,
      p.tables[k := ZeroTable()][t := p.tables[t][j := BranchPte(Addr(p, k))]],
      p.used[k := true],
      p.root,
      p.rank[k := p.rank[t] - 1],
      p.parent[k := (t, j)]))
  }

  lemma GrowKeepsBranch(p: Pool, q: Pool, t: nat, j: nat, k: nat, s: nat, i: nat)
    requires WellFormed(p) && Shape(q) && p.base == q.base && |p.tables| == |q.tables|
    requires k < |p.tables| && !p.used[k]
    requires q.used == p.used[k := true] && q.rank == p.rank[k := q.rank[k]] && q.parent == p.parent[k := (t, j)]
    requires s < |p.tables| && p.used[s] && p.rank[s] > 0 && i < 512 && IsBranch(p.tables[s][i])
    requires q.tables[s][i] == p.tables[s][i]
    ensures GoodBranch(q, s, i)
  {
    assert GoodBranch(p, s, i);
  }

  lemma GrowNewBranch(p: Pool, t: nat, j: nat)
    requires WellFormed(p) && t < |p.tables| && p.used[t] && j < 512
    requires p.rank[t] > 0 && Grow(p, t, j).Some?
    ensures var q, k := Grow(p, t, j).value, FirstFree(p.used, 0);
            Shape(q) && IsBranch(q.tables[t][j]) && Next(q, q.tables[t][j]) == k && GoodBranch(q, t, j)
  {
    var k := FirstFree(p.used, 0);
    BranchFields(Addr(p, k));
  }

  lemma GrowKeepsWellFormed(p: Pool, t: nat, j: nat)
    requires WellFormed(p) && t < |p.tables| && p.used[t] && j < 512
    requires p.rank[t] > 0 && !IsBranch(p.tables[t][j]) && Grow(p, t, j).Some?
    ensures var q, k := Grow(p, t, j).value, FirstFree(p.used, 0);
            WellFormed(q) && IsBranch(q.tables[t][j]) && Next(q, q.tables[t][j]) == k
  {
    var k := FirstFree(p.used, 0);
    var q := Grow(p, t, j).value;
    GrowNewBranch(p, t, j);
    ZeroIsInvalid();
    forall s, i | 0 <= s < |q.tables| && q.used[s] && q.rank[s] > 0 && 0 <= i < 512 && IsBranch(q.tables[s][i])
      ensures GoodBranch(q, s, i)
    {
      if (s, i) != (t, j) { GrowKeepsBranch(p, q, t, j, k, s, i); }
    }
  }

  lemma ZeroIsInvalid()
    ensures !V(0)
  {
    ZeroHasNoBits(0);
  }

  /** What map_page and map_raw do when the walk for va meets an invalid entry above the target level. */
  ghost function GrowAt(p: Pool, va: Word): Option<Pool>
    requires WellFormed(p)
  {
    Grow(p, StopTable(p, va), Vpn(va, StopLevel(p, va)))
  }

  lemma {:induction false} ReachAfterGrow(p: Pool, va: Word, x: Word, l: Level)
    requires WellFormed(p) && StopLevel(p, va) > 0 && !V(StopEntry(p, va)) && GrowAt(p, va).Some?
    ensures WellFormed(GrowAt(p, va).value)
    ensures Reach(GrowAt(p, va).value, x, l) ==
              if l < StopLevel(p, va) && SameSlot(x, va, StopLevel(p, va))
              then (if l == StopLevel(p, va) - 1 then Some(FirstFree(p.used, 0)) else None)
              else Reach(p, x, l)
    decreases 2 - l
  {
    var L, t0 := StopLevel(p, va), StopTable(p, va);
    var q := GrowAt(p, va).value;
    GrowKeepsWellFormed(p, t0, Vpn(va, L));
    if l < 2 {
      ReachAfterGrow(p, va, x, l + 1);
      if SameSlot(x, va, L) && l < L {
        SameSlotsReachTogether(p, x, va, L);
        ZeroIsInvalid();
      } else {
        if l + 1 == L && Reach(p, x, L) == Some(t0) { ReachInjective(p, x, va, L); }
        SameStep(p, q, x, l);
      }
    }
  }

  lemma GrowHit(p: Pool, va: Word, x: Word)
    requires WellFormed(p) && StopLevel(p, va) > 0 && !V(StopEntry(p, va)) && GrowAt(p, va).Some?
    requires SameSlot(x, va, StopLevel(p, va))
    ensures WellFormed(GrowAt(p, va).value)
    ensures StopLevel(GrowAt(p, va).value, x) == StopLevel(p, va) - 1
    ensures StopTable(GrowAt(p, va).value, x) == FirstFree(p.used, 0)
    ensures StopEntry(GrowAt(p, va).value, x) == 0 && CellAt(p, x) == Unmapped
  {
    ReachAfterGrow(p, va, x, 0);
    ReachAfterGrow(p, va, x, 1);
    SameSlotStopsTogether(p, x, va);
  }

  /** Addresses that share the slot where the walk stops both stop there. */
  lemma SameSlotStopsTogether(p: Pool, x: Word, va: Word)
    requires WellFormed(p) && SameSlot(x, va, StopLevel(p, va))
    ensures StopLevel(p, x) == StopLevel(p, va) && StopTable(p, x) == StopTable(p, va)
  {
    var L := StopLevel(p, va);
    SameSlotsReachTogether(p, x, va, L);
    if L > 0 { SameSlotsReachTogether(p, x, va, L - 1); }
    if L == 2 { assert Reach(p, x, 0).None?; }
  }

  lemma GrowMiss(p: Pool, va: Word, x: Word)
    requires WellFormed(p) && StopLevel(p, va) > 0 && !V(StopEntry(p, va)) && GrowAt(p, va).Some?
    requires !SameSlot(x, va, StopLevel(p, va))
    ensures WellFormed(GrowAt(p, va).value)
    ensures StopLevel(GrowAt(p, va).value, x) == StopLevel(p, x)
    ensures StopTable(GrowAt(p, va).value, x) == StopTable(p, x)
    ensures StopEntry(GrowAt(p, va).value, x) == StopEntry(p, x)
  {
    ReachAfterGrow(p, va, x, 0);
    ReachAfterGrow(p, va, x, 1);
    ReachAfterGrow(p, va, x, 2);
    if StopTable(p, x) == StopTable(p, va) {
      ReachInjective(p, x, va, StopLevel(p, va));
    }
  }

  /** A fresh table changes no address's cell. */
  lemma GrowChangesNothing(p: Pool, va: Word, x: Word)
    requires WellFormed(p) && StopLevel(p, va) > 0 && !V(StopEntry(p, va)) && GrowAt(p, va).Some?
    ensures WellFormed(GrowAt(p, va).value)
    ensures CellAt(GrowAt(p, va).value, x) == CellAt(p, x)
  {
    if SameSlot(x, va, StopLevel(p, va)) {
      GrowHit(p, va, x);
      ZeroIsInvalid();
    } else {
      GrowMiss(p, va, x);
    }
  }
}
