/** The bare-metal suite's page tables (common/smode.c): a bump allocator and an unrolled mapper and walker,
    proved against the same pool functions as the kernel's first-fit, loop-based ones. */
module Suite {
  import opened Words
  import opened Sv39
  import opened Pool
  import opened Cells
  import opened PoolOps
  import opened TableArray
  import opened Ranges
  import opened Boot
  import opened Mmu
  import FixRetry

  /** The used flags of a bump allocator: exactly the first `next` tables. */
  predicate IsPrefix(used: seq<bool>, next: nat) {
    next <= |used| && forall i | 0 <= i < |used| :: used[i] <==> i < next
  }

  /** On such flags the kernel's first-fit scan is the bump allocator, and it runs out when the bump does. */
  lemma FirstFitIsBump(used: seq<bool>, next: nat)
    requires IsPrefix(used, next)
    ensures FirstFree(used, 0) == next
    ensures FreeTables(used) == |used| - next
  {
    assert next < |used| ==> !used[next];
    CountPrefix(used, next);
  }

  lemma {:induction false} CountPrefix(used: seq<bool>, next: nat)
    requires IsPrefix(used, next)
    ensures FreeTables(used) == |used| - next
    decreases |used|
  {
    if used != [] {
      var n := |used| - 1;
      CountPrefix(used[..n], if next > n then n else next);
    }
  }

  lemma {:induction false} DescendKeepsPrefix(p: Pool, va: Word, level: Level, next: nat)
    requires WellFormed(p) && Clear(p, va, level) && Descend(p, va, level).Some? && IsPrefix(p.used, next)
    ensures IsPrefix(Descend(p, va, level).value.used, next + Missing(p, va, level))
    decreases StopLevel(p, va) as int
  {
    if StopLevel(p, va) > level {
      FirstFitIsBump(p.used, next);
      GrowHit(p, va, va);
      ZeroIsInvalid();
      DescendKeepsPrefix(GrowAt(p, va).value, va, level, next + 1);
    }
  }

  /** Tables are never freed, so over every kernel run the used flags stay a prefix: the kernel's allocator
      hands out the same tables in the same order as the suite's. */
  lemma {:induction false} RunKeepsPrefix(p: Pool, ops: seq<Op>, next: nat)
    requires WellFormed(p) && EnabledRun(p, ops) && Run(p, ops).Some? && IsPrefix(p.used, next)
    ensures exists next': nat :: next <= next' && IsPrefix(Run(p, ops).value.used, next')
    decreases |ops|
  {
    if ops != [] {
      var q := Step(p, ops[0]).value;
      if ops[0].MapOp? {
        DescendKeepsPrefix(p, ops[0].va, ops[0].level, next);
        RunKeepsPrefix(q, ops[1..], next + Missing(p, ops[0].va, ops[0].level));
      } else {
        RunKeepsPrefix(q, ops[1..], next);
      }
    }
  }

  /** Whatever their roots and pools, the suite's tables and the kernel's give equal translations after a common run of
      operations if they did so, leaf for leaf, before it. */
  lemma CommonRunAgrees(p: Pool, q: Pool, ops: seq<Op>, x: Word)
    requires WellFormed(p) && WellFormed(q) && (forall y: Word :: CellAt(p, y) == CellAt(q, y))
    requires LegalRun(CellsOf(p), ops) && Canonical(x)
    ensures EnabledRun(p, ops) && EnabledRun(q, ops)
    ensures Run(p, ops).Some? && Run(q, ops).Some? ==> View(Run(p, ops).value, x) == View(Run(q, ops).value, x)
  {
    RunRefines(p, CellsOf(p), ops);
    RunRefines(q, CellsOf(p), ops);
    if Run(p, ops).Some? && Run(q, ops).Some? {
      ViewOfCell(Run(p, ops).value, x);
      ViewOfCell(Run(q, ops).value, x);
    }
  }

  /** `perm & ~PTE_V`. */
  function ClearV(perm: Word): Word { perm - perm % 2 }

  /** The entry bits pt_map_page writes below the frame number. */
  function SuiteBits(perm: Word, valid: bool): Word { if valid then LeafBits(perm) else ClearV(perm) }

  /** The word pt_map_page writes: in both cases the frame, and all ten flags. */
  lemma SuiteWord(pa: Word, perm: Word, valid: bool)
    requires pa < 0x100_0000_0000_0000 && perm < 1024
    ensures var w := RawPte(pa, SuiteBits(perm, valid));
      && Ppn(w) == pa / 4096 && !ReservedBits(w)
      && (valid ==> forall k: nat | k < 10 :: Bit(w, k) <==> Bit(perm, k) || k in {0, 6, 7})
      && (!valid ==> forall k: nat | k < 10 :: Bit(w, k) <==> Bit(perm, k) && k != 0)
  {
    if valid {
      LeafIsRaw(pa, perm);
      LeafFrame(pa, perm);
      LeafBitsAre(pa, perm);
    } else {
      RawFields(pa, ClearV(perm));
      assert pa / 4096 < 0x1000_0000_0000;
      FrameFields(pa / 4096, ClearV(perm));
      forall k: nat | k < 10 ensures Bit(ClearV(perm), k) <==> Bit(perm, k) && k != 0 {
        assert ClearV(perm) / 2 == perm / 2;
      }
    }
  }

  /** What the hardware makes of it. */
  lemma SuiteMapTranslates(p: Pool, va: Word, pa: Word, perm: Word, valid: bool)
    requires WellFormed(p) && Clear(p, va, 0)
    ensures MapRaw(p, va, pa, SuiteBits(perm, valid), 0).Some? ==>
      var q := MapRaw(p, va, pa, SuiteBits(perm, valid), 0).value;
      && StopLevel(q, va) == 0 && StopEntry(q, va) == RawPte(pa, SuiteBits(perm, valid))
      && (pa < 0x100_0000_0000_0000 && perm < 1024 && valid && R(perm) ==>
            forall x: Word | Canonical(x) && SameSlot(x, va, 0) ::
              View(q, x) == Some(Mapping(pa / 4096 * 4096 + x % 4096, true, W(perm), X(perm), U(perm), true, true)))
      && (pa < 0x100_0000_0000_0000 && perm < 1024 && !valid ==>
            forall x: Word | Canonical(x) && SameSlot(x, va, 0) :: View(q, x) == None)
      && forall x: Word | Canonical(x) && !SameSlot(x, va, 0) :: View(q, x) == View(p, x)
  {
    if MapRaw(p, va, pa, SuiteBits(perm, valid), 0).Some? {
      MapRawTranslates(p, va, pa, SuiteBits(perm, valid), 0);
      if pa < 0x100_0000_0000_0000 && perm < 1024 { SuiteWord(pa, perm, valid); }
      if valid { PageMapTranslates(p, va, pa, perm, 0); }
    }
  }

  // ---- The suite's first table ----

  const SRAM_BASE: Word := 0x8000_0000

  /** A root with two gigapages: I/O at 0, read-write, and SRAM, read-write-execute. */
  predicate IdentityTable(t: Table) {
    && t[0] == LeafPte(0, PERM_RW) && t[2] == LeafPte(SRAM_BASE, PERM_RWX)
    && forall j | 0 <= j < 512 && j != 0 && j != 2 :: t[j] == 0
  }

  function IdentityView(x: Word): Option<Mapping> {
    if x < 0x4000_0000 then Some(Mapping(x, true, true, false, false, true, true))
    else if SRAM_BASE <= x < 0xC000_0000 then Some(Mapping(x, true, true, true, false, true, true))
    else None
  }

  lemma IdentityLeaves()
    ensures V(LeafPte(0, PERM_RW)) && R(LeafPte(0, PERM_RW))
    ensures V(LeafPte(SRAM_BASE, PERM_RWX)) && R(LeafPte(SRAM_BASE, PERM_RWX))
  {
    PermBits();
    LeafFlags(0, PERM_RW);
    LeafFlags(SRAM_BASE, PERM_RWX);
  }

  /** A pool whose root is that table and which has no other inner table. */
  ghost predicate IdentityPool(p: Pool) {
    && Shape(p) && p.used[p.root] && IdentityTable(p.tables[p.root])
    && forall t | 0 <= t < |p.rank| :: p.rank[t] == if t == p.root then 2 else 0
  }

  lemma IdentityIsWellFormed(p: Pool)
    requires IdentityPool(p)
    ensures WellFormed(p)
  {
    IdentityLeaves();
    ZeroIsInvalid();
    forall j | 0 <= j < 512 ensures !IsBranch(p.tables[p.root][j]) {
      assert j == 0 || j == 2 || p.tables[p.root][j] == 0;
    }
  }

  lemma IdentityStops(p: Pool, x: Word)
    requires IdentityPool(p)
    ensures WellFormed(p) && StopLevel(p, x) == 2 && StopEntry(p, x) == p.tables[p.root][Vpn(x, 2)]
  {
    IdentityIsWellFormed(p);
    IdentityLeaves();
    ZeroIsInvalid();
    assert !IsBranch(p.tables[p.root][Vpn(x, 2)]);
    assert Reach(p, x, 1).None?;
  }

  lemma GigapageView(pa: Word, perm: Word, x: Word)
    requires pa < 0x100_0000_0000_0000 && pa % 0x4000_0000 == 0 && perm < 1024 && R(perm)
    ensures LeafView(LeafPte(pa, perm), 2, x)
         == Some(Mapping(pa + x % 0x4000_0000, true, W(perm), X(perm), U(perm), true, true))
  {
    assert pa / 4096 * 4096 == pa;
    LeafGrants(pa, perm, 2, x);
  }

  /** A root with two leaves that map the first and the third gigabyte to themselves. */
  lemma RootView(t: Table, x: Word, io: Word, sram: Word, rw: Word, rwx: Word)
    requires Canonical(x) && t[0] == io && t[2] == sram && forall j | 0 <= j < 512 && j != 0 && j != 2 :: t[j] == 0
    requires rw < 1024 && R(rw) && W(rw) && !X(rw) && !U(rw) && io == LeafPte(0, rw)
    requires rwx < 1024 && R(rwx) && W(rwx) && X(rwx) && !U(rwx) && sram == LeafPte(SRAM_BASE, rwx)
    ensures LeafView(t[Vpn(x, 2)], 2, x) == IdentityView(x)
  {
    RootIndex(x);
    if Vpn(x, 2) == 0 {
      GigapageView(0, rw, x);
    } else if Vpn(x, 2) == 2 {
      GigapageView(SRAM_BASE, rwx, x);
    } else {
      ZeroIsInvalid();
    }
  }

  lemma RootIndex(x: Word)
    requires Canonical(x)
    ensures Vpn(x, 2) == 0 <==> x < 0x4000_0000
    ensures Vpn(x, 2) == 2 <==> SRAM_BASE <= x < 0xC000_0000
    ensures Vpn(x, 2) == 0 ==> 0 + x % 0x4000_0000 == x
    ensures Vpn(x, 2) == 2 ==> SRAM_BASE + x % 0x4000_0000 == x
  {
    VpnDecomposes(x);
  }

  /** It maps exactly the first gigabyte and the SRAM gigabyte, each to itself. */
  lemma IdentityTranslates(p: Pool, x: Word)
    requires IdentityPool(p) && Canonical(x)
    ensures WellFormed(p) && View(p, x) == IdentityView(x)
  {
    IdentityStops(p, x);
    ViewIsStopEntry(p, x);
    PermBits();
    var t := p.tables[p.root];
    RootView(t, x, t[0], t[2], PERM_RW, PERM_RWX);
  }

  lemma IdentityMaps(p: Pool)
    requires IdentityPool(p)
    ensures WellFormed(p) && forall x: Word | Canonical(x) :: View(p, x) == IdentityView(x)
  {
    IdentityIsWellFormed(p);
    forall x: Word | Canonical(x) ensures View(p, x) == IdentityView(x) { IdentityTranslates(p, x); }
  }

  /** What a fresh table for the entry where the walk stops leaves to do. */
  lemma PageHung(p: Pool, q: Pool, va: Word, l: Level)
    requires WellFormed(p) && StopLevel(p, va) == l > 0 && !V(StopEntry(p, va)) && GrowAt(p, va) == Some(q)
    ensures WellFormed(q) && Clear(p, va, 0) && Clear(q, va, 0) && Descend(q, va, 0) == Descend(p, va, 0)
    ensures Missing(q, va, 0) == Missing(p, va, 0) - 1
    ensures Reach(q, va, l) == Reach(p, va, l) && Reach(q, va, l - 1).Some?
  {
    GrowHit(p, va, va);
    ReachAfterGrow(p, va, va, l);
    ZeroIsInvalid();
  }

  /** The entry of the table where the walk stops. */
  lemma StoppedAt(p: Pool, va: Word, l: Level, tbl: Word)
    requires WellFormed(p) && StopLevel(p, va) == l && Reach(p, va, l).Some? && tbl == Addr(p, Reach(p, va, l).value)
    ensures tbl + 8 * Vpn(va, l) == Addr(p, StopTable(p, va)) + 8 * Vpn(va, l)
    ensures Lookup(p, va) == if l > 0 && !V(StopEntry(p, va)) then None else Some(tbl + 8 * Vpn(va, l))
  {
  }

  /** A valid entry without permissions leads to the next table. */
  lemma GoesOn(p: Pool, va: Word, l: Level)
    requires WellFormed(p) && l > 0 && Reach(p, va, l).Some?
    requires IsBranch(p.tables[Reach(p, va, l).value][Vpn(va, l)])
    ensures Reach(p, va, l - 1).Some? && StopLevel(p, va) < l
  {
    assert Reach(p, va, l - 1).Some?;
  }

  class Suite {
    const base: Word               // pt_pool
    const tables: array2<Word>
    var next: nat                  // pt_pool_next_page
    ghost var pool: Pool

    ghost predicate Valid()
      reads this, tables
    {
      WellFormed(pool) && Holds(tables, base, pool) && IsPrefix(pool.used, next)
    }

    constructor (base: Word, numTables: nat)
      ensures this.base == base && tables.Length0 == numTables && tables.Length1 == 512 && next == 0
      ensures fresh(tables)
    {
      this.base := base;
      tables := new Word[numTables, 512]((_, _) => 0);
      next := 0;
      pool := Pool(base, [], [], 0, [], []);
    }

    /** pt_alloc_page: bump and zero. The source has no bound check, so a free page is the caller's duty. */
    method AllocPage() returns (page: Word)
      requires next < tables.Length0 && tables.Length1 == 512 && base + 4096 * tables.Length0 <= 0x100_0000_0000_0000
      modifies this`next, tables
      ensures next == old(next) + 1 && page == base + 4096 * old(next)
      ensures forall j | 0 <= j < 512 :: tables[old(next), j] == 0
      ensures forall t, j | 0 <= t < tables.Length0 && 0 <= j < 512 && t != old(next) ::
                tables[t, j] == old(tables[t, j])
    {
      page := base + 4096 * next;
      var i := 0;
      while i < 512
        invariant 0 <= i <= 512 && next == old(next)
        invariant forall m | 0 <= m < i :: tables[next, m] == 0
        invariant forall t, m | 0 <= t < tables.Length0 && 0 <= m < 512 && t != next ::
                    tables[t, m] == old(tables[t, m])
      {
        tables[next, i] := 0;
        i := i + 1;
      }
      next := next + 1;
    }

    /** pt_reset: every table is free again, and nothing is mapped until a new root is set up. */
    method Reset()
      modifies this`next
      ensures next == 0
    {
      next := 0;
    }

    /** pt_setup_identity_kernel: a fresh root with the two identity gigapages. */
    method SetupIdentityKernel() returns (root: Word)
      requires next < tables.Length0 && tables.Length1 == 512
      requires base % 4096 == 0 && base + 4096 * tables.Length0 <= 0x100_0000_0000_0000
      modifies this`next, this`pool, tables
      ensures Valid() && next == old(next) + 1
      ensures root == Addr(pool, pool.root) && IdentityPool(pool)
      ensures forall x: Word | Canonical(x) :: View(pool, x) == IdentityView(x)
    {
      ghost var t := next;
      root := AllocPage();
      assert (root - base) / 4096 == t;
      assert Vpn(SRAM_BASE, 2) == 2 && SRAM_BASE / 0x4000_0000 * 0x4000_0000 == SRAM_BASE;
      tables[(root - base) / 4096, Vpn(SRAM_BASE, 2)] := LeafPte(SRAM_BASE / 0x4000_0000 * 0x4000_0000, PERM_RWX);
      tables[(root - base) / 4096, 0] := LeafPte(0, PERM_RW);
      pool := Snapshot(t);
      assert IdentityTable(pool.tables[t]);
      IdentityMaps(pool);
    }

    /** `pt_reset(); root = pt_setup_identity_kernel();`, as each test starts. */
    method Restart() returns (root: Word)
      requires tables.Length0 > 0 && tables.Length1 == 512
      requires base % 4096 == 0 && base + 4096 * tables.Length0 <= 0x100_0000_0000_0000
      modifies this`next, this`pool, tables
      ensures Valid() && next == 1 && root == base == Addr(pool, pool.root)
      ensures forall x: Word | Canonical(x) :: View(pool, x) == IdentityView(x)
    {
      Reset();
      root := SetupIdentityKernel();
      assert pool.root == 0;
    }

    /** The arrays as a pool with root t and no inner table below it. */
    ghost function Snapshot(t: nat): (p: Pool)
      requires t < tables.Length0 && tables.Length1 == 512
      reads this, tables
      ensures |p.tables| == |p.used| == |p.rank| == |p.parent| == tables.Length0 && p.base == base && p.root == t
      ensures IsPrefix(p.used, if next <= tables.Length0 then next else tables.Length0)
      ensures forall s | 0 <= s < tables.Length0 :: p.rank[s] == if s == t then 2 else 0
      ensures forall s, j {:trigger tables[s, j]} | 0 <= s < tables.Length0 && 0 <= j < 512 ::
                p.tables[s][j] == tables[s, j]
    {
      Pool(
        base,
        seq(tables.Length0, s requires 0 <= s < tables.Length0 reads this, tables =>
          seq(512, j requires 0 <= j < 512 reads this, tables => tables[s, j])),
        seq(tables.Length0, s requires 0 <= s reads this => s < next),
        t,
        seq(tables.Length0, s => if s == t then 2 else 0),
        seq(tables.Length0, _ => (0, 0)))
    }

    /** `tbl[j] = branch(pt_alloc_page())` over an invalid entry. */
    method HangPage(va: Word, l: Level, tbl: Word)
      requires Valid() && Reach(pool, va, l).Some? && tbl == Addr(pool, Reach(pool, va, l).value)
      requires StopLevel(pool, va) == l > 0 && !V(StopEntry(pool, va)) && next < tables.Length0
      modifies this`next, this`pool, tables
      ensures Valid() && next == old(next) + 1 && Some(pool) == GrowAt(old(pool), va)
    {
      TablePointer(pool, Reach(pool, va, l).value);
      FirstFitIsBump(pool.used, next);
      var page := AllocPage();
      GrowHit(pool, va, va);
      tables[(tbl - base) / 4096, Vpn(va, l)] := BranchPte(page);
      pool := GrowAt(pool, va).value;
    }

    /** One unrolled round of pt_map_page: hang a fresh page if the entry is invalid, then follow it. */
    method Child(va: Word, l: Level, tbl: Word) returns (child: Word)
      requires Valid() && Clear(pool, va, 0) && l > 0
      requires Reach(pool, va, l).Some? && tbl == Addr(pool, Reach(pool, va, l).value)
      requires Missing(pool, va, 0) <= tables.Length0 - next
      modifies this`next, this`pool, tables
      ensures Valid() && Clear(pool, va, 0)
      ensures Missing(pool, va, 0) <= tables.Length0 - next
      ensures Descend(pool, va, 0) == Descend(old(pool), va, 0)
      ensures Reach(pool, va, l - 1).Some? && child == Addr(pool, Reach(pool, va, l - 1).value)
    {
      TablePointer(pool, Reach(pool, va, l).value);
      if !V(Load(tables, base, tbl, Vpn(va, l))) {
        InvalidStops(pool, va, l);
        HangPage(va, l, tbl);
        PageHung(old(pool), pool, va, l);
      } else {
        ValidContinues(pool, va, 0, l);
      }
      child := Follow(tables, base, pool, va, l, tbl);
    }

    /** pt_map_page agrees with the kernel's mapper on every pool they share: same tables allocated, same words
        written. */
    method MapPage(root: Word, va: Word, pa: Word, perm: Word, valid: bool)
      requires Valid() && Clear(pool, va, 0) && root == Addr(pool, pool.root)
      requires Missing(pool, va, 0) <= tables.Length0 - next
      modifies this`next, this`pool, tables
      ensures Valid()
      ensures MapRaw(old(pool), va, pa, SuiteBits(perm, valid), 0) == Some(pool)
      ensures StopLevel(pool, va) == 0
      ensures pa < 0x100_0000_0000_0000 && perm < 1024 ==> Ppn(StopEntry(pool, va)) == pa / 4096
      ensures pa < 0x100_0000_0000_0000 && perm < 1024 && valid ==>
                forall k: nat | k < 10 :: Bit(StopEntry(pool, va), k) <==> Bit(perm, k) || k in {0, 6, 7}
      ensures pa < 0x100_0000_0000_0000 && perm < 1024 && !valid ==>
                forall k: nat | k < 10 :: Bit(StopEntry(pool, va), k) <==> Bit(perm, k) && k != 0
      ensures pa < 0x100_0000_0000_0000 && perm < 1024 && valid && R(perm) ==>
                forall x: Word | Canonical(x) && SameSlot(x, va, 0) ::
                  View(pool, x)
                  == Some(Mapping(pa / 4096 * 4096 + x % 4096, true, W(perm), X(perm), U(perm), true, true))
      ensures pa < 0x100_0000_0000_0000 && perm < 1024 && !valid ==>
                forall x: Word | Canonical(x) && SameSlot(x, va, 0) :: View(pool, x) == None
      ensures forall x: Word | Canonical(x) && !SameSlot(x, va, 0) :: View(pool, x) == View(old(pool), x)
    {
      SuiteMapTranslates(pool, va, pa, perm, valid);
      if pa < 0x100_0000_0000_0000 && perm < 1024 { SuiteWord(pa, perm, valid); }
      var l1 := Child(va, 2, root);
      var l0 := Child(va, 1, l1);
      DescendDone(pool, va, 0);
      LeafIsRaw(pa, perm);
      StoreLeaf(va, l0, if valid then LeafPte(pa, perm) else Or(PhysToPpn(pa), ClearV(perm)));
    }

    /** `l2[idx0] = w`. */
    method StoreLeaf(va: Word, l0: Word, w: Word)
      requires Valid() && Reach(pool, va, 0).Some? && l0 == Addr(pool, Reach(pool, va, 0).value)
      modifies this`pool, tables
      ensures Valid() && pool == WriteAt(old(pool), va, 0, w)
    {
      TablePointer(pool, Reach(pool, va, 0).value);
      tables[(l0 - base) / 4096, Vpn(va, 0)] := w;
      pool := WriteAt(pool, va, 0, w);
    }

    /** pt_walk names exactly the entry where the walk stops, at every level; z_riscv_mmu_pte_lookup returns the
        same entry, except for null exactly where pt_walk stops at an invalid entry above level 0. */
    method Walk(root: Word, va: Word) returns (pte: nat, level: Level)
      requires Valid() && root == Addr(pool, pool.root)
      ensures level == StopLevel(pool, va) && pte == Addr(pool, StopTable(pool, va)) + 8 * Vpn(va, level)
      ensures Lookup(pool, va) == if level > 0 && !V(StopEntry(pool, va)) then None else Some(pte)
    {
      var stops := StopsAt(va, 2, root);
      if stops {
        StoppedAt(pool, va, 2, root);
        return root + 8 * Vpn(va, 2), 2;
      }
      var l1 := Follow(tables, base, pool, va, 2, root);
      stops := StopsAt(va, 1, l1);
      if stops {
        StoppedAt(pool, va, 1, l1);
        return l1 + 8 * Vpn(va, 1), 1;
      }
      var l0 := Follow(tables, base, pool, va, 1, l1);
      StoppedAt(pool, va, 0, l0);
      return l0 + 8 * Vpn(va, 0), 0;
    }

    /** One unrolled round of pt_walk: it returns at a leaf and at an invalid entry. */
    method StopsAt(va: Word, l: Level, tbl: Word) returns (stops: bool)
      requires Valid() && l > 0 && Reach(pool, va, l).Some? && tbl == Addr(pool, Reach(pool, va, l).value)
      ensures stops <==> StopLevel(pool, va) == l
      ensures !stops ==> Reach(pool, va, l - 1).Some?
    {
      TablePointer(pool, Reach(pool, va, l).value);
      var w := Load(tables, base, tbl, Vpn(va, l));
      if V(w) && HasXwr(w) {
        LeafStops(pool, va, l);
        return true;
      }
      if !V(w) {
        InvalidStops(pool, va, l);
        return true;
      }
      GoesOn(pool, va, l);
      return false;
    }

    /** The page-fault branch of s_trap_handler with handler_action 0: or V, A and D and the permissions the cause
        asks for into the entry where the walk stops, at whatever level that is. */
    method FixPte(root: Word, scause: Word, stval: Word)
      requires Valid() && root == Addr(pool, pool.root) && FixRetry.IsPageFault(scause)
      modifies this`pool, tables
      ensures Valid()
      ensures pool == FixRetry.FixAt(old(pool), stval, FixRetry.SuiteHandler, FixRetry.KindOf(scause))
      ensures scause == 13 ==>
                FixRetry.Gains(StopEntry(old(pool), stval), StopEntry(pool, stval), {0, 1, 6, 7})
      ensures scause == 15 ==>
                FixRetry.Gains(StopEntry(old(pool), stval), StopEntry(pool, stval), {0, 1, 2, 6, 7})
      ensures scause == 12 ==>
                FixRetry.Gains(StopEntry(old(pool), stval), StopEntry(pool, stval), {0, 1, 3, 6, 7})
      ensures FixRetry.Servable(old(pool), stval, FixRetry.SuiteHandler) ==> forall svadu: bool ::
                && (scause == 13 ==> FixRetry.Grants(View(pool, stval), FixRetry.Load, svadu))
                && (scause == 15 ==> FixRetry.Grants(View(pool, stval), FixRetry.Store, svadu))
                && (scause == 12 ==> FixRetry.Grants(View(pool, stval), FixRetry.Fetch, svadu))
    {
      var pte, level := Walk(root, stval);
      SlotOffset(StopTable(pool, stval), Vpn(stval, level));
      var t, j := (pte - base) / 4096, (pte - base) % 4096 / 8;
      assert t == StopTable(pool, stval) && j == Vpn(stval, level);
      var w := tables[t, j];
      var fixed := Or(w, 0xC1);  // V | A | D
      if scause == 13 {
        fixed := Or(fixed, 0x2);
      } else if scause == 15 {
        fixed := Or(fixed, 0x6);
      } else {
        fixed := Or(fixed, 0xA);
      }
      FixRetry.SuiteMaskInTwoSteps(w);
      FixRetry.RepairByCause(pool, stval, FixRetry.SuiteHandler, scause);
      assert fixed == FixRetry.Fixed(w, FixRetry.SuiteHandler, FixRetry.KindOf(scause));
      tables[t, j] := fixed;
      pool := FixRetry.FixAt(pool, stval, FixRetry.SuiteHandler, FixRetry.KindOf(scause));
    }
  }
}
