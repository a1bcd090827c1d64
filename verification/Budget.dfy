/** How many tables a contiguous range of 4 KB maps can take from the pool. */
module Budget {
  import opened Words
  import opened Sv39
  import opened Pool
  import opened Cells
  import opened PoolOps
  import opened Ranges

  /** Pages per table at level r: 2^9 for the leaf level, 2^18 for the middle. */
  function PagesPer(r: Level): nat { if r == 0 then 0x200 else 0x4_0000 }

  /** A fresh leaf-level table is needed only at the first page and at 2 MB boundaries, a fresh middle table only at the
      first page and at 1 GB boundaries. c is the number of the first page. */
  function CostAt(c: nat, k: nat, r: Level): nat { if k == 0 || (c + k) % PagesPer(r) == 0 then 1 else 0 }

  function RangeCostAt(c: nat, k: nat, n: nat, r: Level): nat
    decreases n - k
  {
    if k >= n then 0 else CostAt(c, k, r) + RangeCostAt(c, k + 1, n, r)
  }

  function StepCost(c: nat, k: nat): nat { CostAt(c, k, 0) + CostAt(c, k, 1) }

  function RangeCost(c: nat, k: nat, n: nat): nat { RangeCostAt(c, k, n, 0) + RangeCostAt(c, k, n, 1) }

  function CeilDiv(a: nat, b: nat): nat
    requires b > 0
  {
    (a + b - 1) / b
  }

  lemma NextMultiple(a: nat)
    requires a > 0
    ensures a / 0x200 == (a - 1) / 0x200 + (if a % 0x200 == 0 then 1 else 0)
    ensures a / 0x4_0000 == (a - 1) / 0x4_0000 + (if a % 0x4_0000 == 0 then 1 else 0)
  {
  }

  lemma {:induction false} LaterCostAt(c: nat, k: nat, n: nat, r: Level)
    requires 1 <= k <= n && r < 2
    ensures RangeCostAt(c, k, n, r) == (c + n - 1) / PagesPer(r) - (c + k - 1) / PagesPer(r)
    decreases n - k
  {
    if k < n {
      NextMultiple(c + k);
      LaterCostAt(c, k + 1, n, r);
    }
  }

  /** n pages never need more than ceil((n-1)/512) + 1 leaf-level and ceil((n-1)/2^18) + 1 middle tables. */
  lemma RangeCostBound(c: nat, n: nat)
    requires n >= 1
    ensures RangeCost(c, 0, n) <= CeilDiv(n - 1, 0x200) + 1 + CeilDiv(n - 1, 0x4_0000) + 1
  {
    LaterCostAt(c, 1, n, 0);
    LaterCostAt(c, 1, n, 1);
    QuotientGap(c, n - 1);
  }

  lemma QuotientGap(c: nat, d: nat)
    ensures (c + d) / 0x200 - c / 0x200 <= CeilDiv(d, 0x200)
    ensures (c + d) / 0x4_0000 - c / 0x4_0000 <= CeilDiv(d, 0x4_0000)
  {
  }

  lemma SameUpperKey(va: Word, k: nat)
    requires k > 0
    ensures (va / 4096 + k) % 0x200 != 0 ==> SameSlot(PageOf(va, k), PageOf(va, k - 1), 1)
    ensures (va / 4096 + k) % 0x4_0000 != 0 ==> SameSlot(PageOf(va, k), PageOf(va, k - 1), 2)
  {
    var c := va / 4096;
    SameSlotIsSameKey(PageOf(va, k), PageOf(va, k - 1));
    KeyOfPage(va, k);
    KeyOfPage(va, k - 1);
    Successor(c + k - 1);
  }

  lemma ModParts(q: nat, x: nat)
    ensures (0x800_0000 * q + x) % 0x200 == x % 0x200
    ensures (0x800_0000 * q + x) % 0x4_0000 == x % 0x4_0000
  {
    DropMultiple200(x, 0x4_0000 * q);
    DropMultiple40000(x, 0x200 * q);
  }

  lemma DropMultiple200(x: nat, c: nat)
    ensures (0x200 * c + x) % 0x200 == x % 0x200
  {
  }

  lemma DropMultiple40000(x: nat, c: nat)
    ensures (0x4_0000 * c + x) % 0x4_0000 == x % 0x4_0000
  {
  }

  lemma Successor(a: nat)
    ensures var x, y := a % 0x800_0000, (a + 1) % 0x800_0000;
            && ((a + 1) % 0x200 != 0 ==> x / 0x200 == y / 0x200)
            && ((a + 1) % 0x4_0000 != 0 ==> x / 0x4_0000 == y / 0x4_0000)
  {
    var q, x := a / 0x800_0000, a % 0x800_0000;
    ModParts(q, x + 1);
    if x < 0x7FF_FFFF {
      assert (a + 1) % 0x800_0000 == x + 1;
      NextMultiple(x + 1);
    }
  }

  /** Tables at level r that a 4 KB map of va has to allocate. */
  ghost function MissingAt(p: Pool, va: Word, r: Level): nat
    requires WellFormed(p)
  {
    if StopLevel(p, va) > r then 1 else 0
  }

  lemma ReachedAtMost(p: Pool, va: Word, r: Level)
    requires WellFormed(p) && Reach(p, va, r).Some?
    ensures StopLevel(p, va) <= r
  {
  }

  /** Only the first page and those at a boundary of level r + 1 lack a table at level r. */
  lemma StepNeedsAt(p: Pool, va: Word, k: nat, r: Level)
    requires WellFormed(p) && r < 2
    requires k > 0 ==> Reach(p, PageOf(va, k - 1), 0).Some?
    ensures MissingAt(p, PageOf(va, k), r) <= CostAt(va / 4096, k, r)
  {
    if k > 0 {
      var x, y := PageOf(va, k), PageOf(va, k - 1);
      SameUpperKey(va, k);
      ReachPrefix(p, y, 0);
      if SameSlot(x, y, r + 1) {
        SameSlotsReachTogether(p, x, y, r);
        ReachedAtMost(p, x, r);
      }
    }
  }

  lemma StepNeeds(p: Pool, va: Word, k: nat)
    requires WellFormed(p)
    requires k > 0 ==> Reach(p, PageOf(va, k - 1), 0).Some?
    ensures Missing(p, PageOf(va, k), 0) <= StepCost(va / 4096, k)
  {
    StepNeedsAt(p, va, k, 0);
    StepNeedsAt(p, va, k, 1);
  }

  lemma MapRawConsumes(p: Pool, va: Word, pa: Word, bits: Word)
    requires WellFormed(p) && Clear(p, va, 0)
    ensures MapRaw(p, va, pa, bits, 0).None? <==> FreeTables(p.used) < Missing(p, va, 0)
    ensures MapRaw(p, va, pa, bits, 0).Some? ==>
              var q := MapRaw(p, va, pa, bits, 0).value;
              FreeTables(q.used) == FreeTables(p.used) - Missing(p, va, 0) && Reach(q, va, 0).Some?
  {
    DescendConsumes(p, va, 0);
    if Descend(p, va, 0).Some? {
      ReachAfterWrite(Descend(p, va, 0).value, va, 0, RawPte(pa, bits), va, 0);
    }
  }

  /** Mapping page k leaves the rest of the range free of superpages. */
  lemma StepKeepsClear(p: Pool, va: Word, pa: Word, k: nat, n: nat, perm: Word)
    requires WellFormed(p) && k < n && ClearRange(CellsOf(p), va, k, n)
    ensures Clear(p, PageOf(va, k), 0)
    ensures MapRaw(p, PageOf(va, k), PageOf(pa, k), LeafBits(perm), 0).Some? ==>
              ClearRange(CellsOf(MapRaw(p, PageOf(va, k), PageOf(pa, k), LeafBits(perm), 0).value), va, k + 1, n)
  {
    var m := CellsOf(p);
    var r := MapRaw(p, PageOf(va, k), PageOf(pa, k), LeafBits(perm), 0);
    if r.Some? {
      forall i: nat | k + 1 <= i < n
        ensures CellsOf(r.value)(PageOf(va, i)).Mapped? ==> CellsOf(r.value)(PageOf(va, i)).level == 0
      {
        MapRawEffect(p, PageOf(va, k), PageOf(pa, k), LeafBits(perm), 0, PageOf(va, i));
        assert m(PageOf(va, i)).Mapped? ==> m(PageOf(va, i)).level == 0;
      }
    }
  }

  /** A run of maps over contiguous pages takes at most RangeCost tables, and panics only if fewer are free. */
  lemma {:induction false} MapOpsConsume(p: Pool, va: Word, pa: Word, k: nat, n: nat, perm: Word)
    requires WellFormed(p) && ClearRange(CellsOf(p), va, k, n)
    requires k > 0 ==> Reach(p, PageOf(va, k - 1), 0).Some?
    ensures EnabledRun(p, MapOps(va, pa, k, n, perm))
    ensures Run(p, MapOps(va, pa, k, n, perm)).None? ==> FreeTables(p.used) < RangeCost(va / 4096, k, n)
    ensures Run(p, MapOps(va, pa, k, n, perm)).Some? ==>
              FreeTables(p.used)
              <= FreeTables(Run(p, MapOps(va, pa, k, n, perm)).value.used) + RangeCost(va / 4096, k, n)
    decreases n - k
  {
    if k < n {
      var ops := MapOps(va, pa, k, n, perm);
      assert ops[1..] == MapOps(va, pa, k + 1, n, perm);
      StepNeeds(p, va, k);
      StepKeepsClear(p, va, pa, k, n, perm);
      MapRawConsumes(p, PageOf(va, k), PageOf(pa, k), LeafBits(perm));
      if Step(p, ops[0]).Some? {
        MapOpsConsume(Step(p, ops[0]).value, va, pa, k + 1, n, perm);
      }
    }
  }

  /** Mapping n pages succeeds whenever the pool has ceil((n-1)/512)+1 plus ceil((n-1)/2^18)+1 tables free. */
  lemma EnoughTables(p: Pool, va: Word, pa: Word, n: nat, perm: Word)
    requires WellFormed(p) && RangeFree(p, va, n) && n >= 1
    requires FreeTables(p.used) >= CeilDiv(n - 1, 0x200) + 1 + CeilDiv(n - 1, 0x4_0000) + 1
    ensures EnabledRun(p, MapOps(va, pa, 0, n, perm))
    ensures Run(p, MapOps(va, pa, 0, n, perm)).Some?
  {
    RangeCostBound(va / 4096, n);
    MapOpsConsume(p, va, pa, 0, n, perm);
  }

  // ---- Leaf-level and middle tables apart ----

  function CountAt(used: seq<bool>, rank: seq<int>, r: int): nat
    requires |used| == |rank|
  {
    if used == [] then 0
    else CountAt(used[..|used| - 1], rank[..|used| - 1], r)
         + if used[|used| - 1] && rank[|used| - 1] == r then 1 else 0
  }

  /** The used tables whose entries are at level r. */
  function TablesAt(p: Pool, r: Level): nat
    requires Shape(p)
  {
    CountAt(p.used, p.rank, r)
  }

  lemma {:induction false} CountTaken(used: seq<bool>, rank: seq<int>, k: nat, tag: int, r: int)
    requires |used| == |rank| && k < |used| && !used[k]
    ensures CountAt(used[k := true], rank[k := tag], r) == CountAt(used, rank, r) + if tag == r then 1 else 0
    decreases |used|
  {
    var n := |used| - 1;
    if k < n {
      CountTaken(used[..n], rank[..n], k, tag, r);
      assert used[k := true][..n] == used[..n][k := true] && rank[k := tag][..n] == rank[..n][k := tag];
    } else {
      assert used[k := true][..n] == used[..n] && rank[k := tag][..n] == rank[..n];
    }
  }

  lemma {:induction false} DescendTakes(p: Pool, va: Word, r: Level)
    requires WellFormed(p) && Clear(p, va, 0) && Descend(p, va, 0).Some?
    ensures TablesAt(Descend(p, va, 0).value, r) == TablesAt(p, r) + MissingAt(p, va, r)
    decreases StopLevel(p, va) as int
  {
    if StopLevel(p, va) > 0 {
      CountTaken(p.used, p.rank, FirstFree(p.used, 0), StopLevel(p, va) - 1, r);
      GrowHit(p, va, va);
      ZeroIsInvalid();
      DescendTakes(GrowAt(p, va).value, va, r);
    }
  }

  lemma MapRawTakes(p: Pool, va: Word, pa: Word, bits: Word, r: Level)
    requires WellFormed(p) && Clear(p, va, 0) && MapRaw(p, va, pa, bits, 0).Some?
    ensures TablesAt(MapRaw(p, va, pa, bits, 0).value, r) == TablesAt(p, r) + MissingAt(p, va, r)
    ensures Reach(MapRaw(p, va, pa, bits, 0).value, va, 0).Some?
  {
    DescendTakes(p, va, r);
    MapRawConsumes(p, va, pa, bits);
  }

  lemma {:induction false} MapOpsTake(p: Pool, va: Word, pa: Word, k: nat, n: nat, perm: Word, r: Level)
    requires WellFormed(p) && ClearRange(CellsOf(p), va, k, n) && r < 2
    requires k > 0 ==> Reach(p, PageOf(va, k - 1), 0).Some?
    requires EnabledRun(p, MapOps(va, pa, k, n, perm)) && Run(p, MapOps(va, pa, k, n, perm)).Some?
    ensures TablesAt(Run(p, MapOps(va, pa, k, n, perm)).value, r) <= TablesAt(p, r) + RangeCostAt(va / 4096, k, n, r)
    decreases n - k
  {
    if k < n {
      MapOpsHead(p, va, pa, k, n, perm);
      StepNeedsAt(p, va, k, r);
      StepKeepsClear(p, va, pa, k, n, perm);
      MapRawTakes(p, PageOf(va, k), PageOf(pa, k), LeafBits(perm), r);
      var q := MapRaw(p, PageOf(va, k), PageOf(pa, k), LeafBits(perm), 0).value;
      MapOpsTake(q, va, pa, k + 1, n, perm, r);
    }
  }

  /** Mapping n pages takes at most ceil((n-1)/512)+1 leaf-level and at most ceil((n-1)/2^18)+1 middle tables. */
  lemma TablesTaken(p: Pool, va: Word, pa: Word, n: nat, perm: Word, r: Level)
    requires WellFormed(p) && RangeFree(p, va, n) && n >= 1 && r < 2
    requires EnabledRun(p, MapOps(va, pa, 0, n, perm)) && Run(p, MapOps(va, pa, 0, n, perm)).Some?
    ensures TablesAt(Run(p, MapOps(va, pa, 0, n, perm)).value, r)
         <= TablesAt(p, r) + CeilDiv(n - 1, PagesPer(r)) + 1
  {
    MapOpsTake(p, va, pa, 0, n, perm, r);
    LaterCostAt(va / 4096, 1, n, r);
    QuotientGap(va / 4096, n - 1);
  }
}
