/** The Sv39 MMU support of the Zephyr kernel (arch/riscv/core/mmu.c): a static pool of 512-entry tables that
    the mappers build and edit in place, through table pointers that are also the physical addresses the
    hardware walker reads. Each method is proved against its function on the pool as a value. */
module Mmu {
  import opened Words
  import opened Sv39
  import opened Pool
  import opened Cells
  import opened PoolOps
  import opened TableArray
  import opened Ranges
  import opened Boot
  import FixRetry

  /** The K_MEM_PERM_RW, K_MEM_PERM_EXEC and K_MEM_PERM_USER bits of the portable flags. */
  datatype Flags = Flags(rw: bool, exec: bool, user: bool)

  function PermFromFlags(flags: Flags): Word {
    var perm := PTE_R;
    var perm := if flags.rw then Or(perm, PTE_W) else perm;
    var perm := if flags.exec then Or(perm, PTE_X) else perm;
    if flags.user then Or(perm, PTE_U) else perm
  }

  /** Mapped memory is always readable; the other permissions are exactly the flags asked for, and no other bit of
      the entry is set: not V, A, D or G, and not the two bits left to software. */
  lemma PermFromFlagsGrants(flags: Flags)
    ensures var perm := PermFromFlags(flags);
            && perm < 1024
            && forall k: nat | k < 10 ::
                 Bit(perm, k) <==> k == 1 || (k == 2 && flags.rw) || (k == 3 && flags.exec) || (k == 4 && flags.user)
  {
    OneBit();
    var p1 := if flags.rw then Or(PTE_R, PTE_W) else PTE_R;
    var p2 := if flags.exec then Or(p1, PTE_X) else p1;
    AddFlag(PTE_R, PTE_W);
    AddFlag(p1, PTE_X);
    AddFlag(p2, PTE_U);
  }

  lemma OneBit()
    ensures forall k: nat | k < 10 :: Bit(PTE_R, k) <==> k == 1
    ensures forall k: nat | k < 10 :: Bit(PTE_W, k) <==> k == 2
    ensures forall k: nat | k < 10 :: Bit(PTE_X, k) <==> k == 3
    ensures forall k: nat | k < 10 :: Bit(PTE_U, k) <==> k == 4
  {
    forall k: nat | k < 10 ensures Bit(PTE_R, k) <==> k == 1 { PowerBit(1, k); }
    forall k: nat | k < 10 ensures Bit(PTE_W, k) <==> k == 2 { PowerBit(2, k); }
    forall k: nat | k < 10 ensures Bit(PTE_X, k) <==> k == 3 { PowerBit(3, k); }
    forall k: nat | k < 10 ensures Bit(PTE_U, k) <==> k == 4 { PowerBit(4, k); }
    assert Pow2(1) == 2 && Pow2(2) == 4 && Pow2(3) == 8 && Pow2(4) == 16;
  }

  lemma AddFlag(perm: Word, flag: Word)
    requires perm < 1024 && flag < 1024
    ensures Or(perm, flag) < 1024
    ensures forall k: nat :: Bit(Or(perm, flag), k) <==> Bit(perm, k) || Bit(flag, k)
  {
    Pow2Ten();
    OrBound(perm, flag, 10);
    forall k: nat ensures Bit(Or(perm, flag), k) <==> Bit(perm, k) || Bit(flag, k) { OrBits(perm, flag, k); }
  }

  /** The permission bits by name. */
  lemma PermFlags(flags: Flags)
    ensures var perm := PermFromFlags(flags);
      perm < 1024 && R(perm) && W(perm) == flags.rw && X(perm) == flags.exec && U(perm) == flags.user
  {
    PermFromFlagsGrants(flags);
  }

  /** The promise of arch_mem_map: if the tables suffice, every offset of the page-rounded range translates to the
      same offset from phys, with the permissions of the flags. */
  lemma ArchMemMapGrants(p: Pool, virt: Word, phys: Word, n: nat, flags: Flags, off: nat)
    requires WellFormed(p) && RangeFree(p, virt, n) && n <= 0x800_0000
    requires virt % 4096 == phys % 4096 && phys + 4096 * n <= 0x100_0000_0000_0000
    requires virt % 4096 + off < 4096 * n && Canonical(Plus(virt, off))
    ensures EnabledRun(p, MapOps(virt, phys, 0, n, PermFromFlags(flags)))
    ensures var r := Run(p, MapOps(virt, phys, 0, n, PermFromFlags(flags)));
      r.Some? ==>
        View(r.value, Plus(virt, off)) == Some(Mapping(phys + off, true, flags.rw, flags.exec, flags.user, true, true))
  {
    var i: nat := (virt % 4096 + off) / 4096;
    MapRangeTranslates(p, virt, phys, n, PermFromFlags(flags), Plus(virt, off));
    OffsetInPage(virt, off);
    LeafAtOffset(virt, phys, flags, off, i);
  }

  lemma LeafAtOffset(virt: Word, phys: Word, flags: Flags, off: nat, i: nat)
    requires virt % 4096 == phys % 4096 && i == (virt % 4096 + off) / 4096
    requires phys + 4096 * i < 0x100_0000_0000_0000
    ensures LeafView(LeafPte(PageOf(phys, i), PermFromFlags(flags)), 0, Plus(virt, off))
         == Some(Mapping(phys + off, true, flags.rw, flags.exec, flags.user, true, true))
  {
    PermFlags(flags);
    FrameOffset(virt, phys, off, i);
    LeafGrants(PageOf(phys, i), PermFromFlags(flags), 0, Plus(virt, off));
  }

  /** Offset off of a range lies on its page number (virt % 4096 + off) / 4096. */
  lemma OffsetInPage(virt: Word, off: nat)
    ensures InPage(Plus(virt, off), virt, (virt % 4096 + off) / 4096)
  {
    var i: nat := (virt % 4096 + off) / 4096;
    assert virt + off == 4096 * (virt / 4096 + i) + (virt % 4096 + off) % 4096;
    KeyOfOffset(virt / 4096 + i, (virt % 4096 + off) % 4096);
    KeyOfPage(virt, i);
    SameSlotIsSameKey(Plus(virt, off), PageOf(virt, i));
  }

  lemma KeyOfOffset(page: nat, d: nat)
    requires d < 4096
    ensures (4096 * page + d) % 0x1_0000_0000_0000_0000 / 4096 % 0x800_0000 == page % 0x800_0000
  {
    var q := page / 0x10_0000_0000_0000;
    assert (4096 * page + d) % 0x1_0000_0000_0000_0000 == 4096 * (page - q * 0x10_0000_0000_0000) + d;
    ModShift(page, q);
  }

  lemma FrameOffset(virt: Word, phys: Word, off: nat, i: nat)
    requires virt % 4096 == phys % 4096 && i == (virt % 4096 + off) / 4096
    requires phys + 4096 * i < 0x100_0000_0000_0000
    ensures PageOf(phys, i) == phys + 4096 * i
    ensures PageOf(phys, i) / 4096 * 4096 + Plus(virt, off) % 4096 == phys + off
  {
    OffsetBits(virt, off);
  }

  lemma OffsetBits(virt: Word, off: nat)
    ensures Plus(virt, off) % 4096 == (virt % 4096 + off) % 4096
  {
  }

  /** The walk goes below a table it reaches only through a branch. */
  lemma PassedIsBranch(p: Pool, va: Word, l: Level)
    requires WellFormed(p) && Reach(p, va, l).Some? && StopLevel(p, va) < l
    ensures IsBranch(p.tables[Reach(p, va, l).value][Vpn(va, l)]) && Reach(p, va, l - 1).Some?
  {
    ReachPrefix(p, va, StopLevel(p, va));
    assert Reach(p, va, l - 1).Some?;
  }

  /** An invalid entry in a table that is reached ends the walk there. */
  lemma InvalidStops(p: Pool, va: Word, l: Level)
    requires WellFormed(p) && Reach(p, va, l).Some? && !V(p.tables[Reach(p, va, l).value][Vpn(va, l)])
    ensures StopLevel(p, va) == l && !V(StopEntry(p, va))
  {
    if StopLevel(p, va) < l { PassedIsBranch(p, va, l); }
  }

  /** On a clear path a valid entry above the target level leads to the next table. */
  lemma ValidContinues(p: Pool, va: Word, level: Level, l: Level)
    requires WellFormed(p) && Clear(p, va, level) && level < l
    requires Reach(p, va, l).Some? && V(p.tables[Reach(p, va, l).value][Vpn(va, l)])
    ensures Reach(p, va, l - 1).Some?
  {
    if StopLevel(p, va) < l { PassedIsBranch(p, va, l); }
  }

  lemma LeafStops(p: Pool, va: Word, l: Level)
    requires WellFormed(p) && Reach(p, va, l).Some?
    requires V(p.tables[Reach(p, va, l).value][Vpn(va, l)]) && HasXwr(p.tables[Reach(p, va, l).value][Vpn(va, l)])
    ensures StopLevel(p, va) == l && V(StopEntry(p, va))
  {
    if StopLevel(p, va) < l { PassedIsBranch(p, va, l); }
  }

  lemma DescendDone(p: Pool, va: Word, level: Level)
    requires WellFormed(p) && Clear(p, va, level) && Reach(p, va, level).Some?
    ensures Descend(p, va, level) == Some(p)
  {
    assert StopLevel(p, va) <= level;
  }

  lemma LeafMapsTranslate(p: Pool, va: Word, pa: Word, perm: Word, l: Level)
    requires WellFormed(p) && Clear(p, va, l) && (l == 0 || !IsBranch(RawPte(pa, LeafBits(perm))))
    requires MapRaw(p, va, pa, LeafBits(perm), l).Some?
    ensures var q := MapRaw(p, va, pa, LeafBits(perm), l).value;
      && (pa < 0x100_0000_0000_0000 && perm < 1024 && R(perm) && pa / 4096 * 4096 % Span(l) == 0 ==>
            forall x: Word | Canonical(x) && SameSlot(x, va, l) ::
              View(q, x) == Some(Mapping(pa / 4096 * 4096 + x % Span(l), true, W(perm), X(perm), U(perm), true, true)))
      && forall x: Word | Canonical(x) && !SameSlot(x, va, l) :: View(q, x) == View(p, x)
  {
    var q := MapRaw(p, va, pa, LeafBits(perm), l).value;
    forall x: Word | Canonical(x)
      ensures pa < 0x100_0000_0000_0000 && perm < 1024 && R(perm) && pa / 4096 * 4096 % Span(l) == 0
              && SameSlot(x, va, l) ==>
                View(q, x) == Some(Mapping(pa / 4096 * 4096 + x % Span(l), true, W(perm), X(perm), U(perm), true, true))
      ensures !SameSlot(x, va, l) ==> View(q, x) == View(p, x)
    {
      LeafMapTranslates(p, va, pa, perm, l, x);
    }
  }

  /** The steps of a range, offset by offset. */
  lemma StepIsPage(a: Word, size: Word, off: nat)
    requires off % 4096 == 0
    ensures off < size <==> off / 4096 < Pages(size)
    ensures Plus(a, off) == PageOf(a, off / 4096)
  {
    LoopGuard(size, off / 4096);
  }

  lemma PageIsStep(a: Word, size: Word, i: nat)
    requires i < Pages(size)
    ensures 4096 * i < size && 4096 * i % 4096 == 0 && PageOf(a, i) == Plus(a, 4096 * i)
  {
    LoopGuard(size, i);
  }

  /** An address in none of the pages at the steps of 4 KB below size translates as before. */
  lemma ArchMapOutside(p: Pool, virt: Word, phys: Word, size: Word, perm: Word, x: Word)
    requires WellFormed(p) && RangeFree(p, virt, Pages(size)) && Canonical(x) && size <= 0x80_0000_0000
    requires forall off: nat | off < size && off % 4096 == 0 :: !SameSlot(x, Plus(virt, off), 0)
    ensures EnabledRun(p, MapOps(virt, phys, 0, Pages(size), perm))
    ensures var r := Run(p, MapOps(virt, phys, 0, Pages(size), perm));
      r.Some? ==> View(r.value, x) == View(p, x)
  {
    MapRangeTranslates(p, virt, phys, Pages(size), perm, x);
    forall i: nat | i < Pages(size) ensures !InPage(x, virt, i) { PageIsStep(virt, size, i); }
  }

  lemma ArchUnmapInside(p: Pool, addr: Word, size: Word, off: nat, x: Word)
    requires WellFormed(p) && Canonical(x) && off < size && off % 4096 == 0 && SameSlot(x, Plus(addr, off), 0)
    ensures EnabledRun(p, UnmapOps(addr, 0, Pages(size))) && Run(p, UnmapOps(addr, 0, Pages(size))).Some?
    ensures View(Run(p, UnmapOps(addr, 0, Pages(size))).value, x) == None
  {
    StepIsPage(addr, size, off);
    UnmapRangeTranslates(p, addr, Pages(size), x);
    assert InPage(x, addr, off / 4096);
  }

  lemma ArchUnmapOutside(p: Pool, addr: Word, size: Word, x: Word)
    requires WellFormed(p) && RangeFree(p, addr, Pages(size)) && Canonical(x)
    requires forall off: nat | off < size && off % 4096 == 0 :: !SameSlot(x, Plus(addr, off), 0)
    ensures EnabledRun(p, UnmapOps(addr, 0, Pages(size))) && Run(p, UnmapOps(addr, 0, Pages(size))).Some?
    ensures View(Run(p, UnmapOps(addr, 0, Pages(size))).value, x) == View(p, x)
  {
    UnmapRangeTranslates(p, addr, Pages(size), x);
    forall i: nat | i < Pages(size) ensures !InPage(x, addr, i) { PageIsStep(addr, size, i); }
  }

  lemma ArchMapInside(p: Pool, virt: Word, phys: Word, size: Word, flags: Flags, off: nat)
    requires WellFormed(p) && RangeFree(p, virt, Pages(size)) && size <= 0x80_0000_0000
    requires virt % 4096 == phys % 4096 == 0 && phys + size <= 0xFF_FFFF_FFFF_F000
    requires off < size && Canonical(Plus(virt, off))
    ensures EnabledRun(p, MapOps(virt, phys, 0, Pages(size), PermFromFlags(flags)))
    ensures var r := Run(p, MapOps(virt, phys, 0, Pages(size), PermFromFlags(flags)));
      r.Some? ==>
        View(r.value, Plus(virt, off)) == Some(Mapping(phys + off, true, flags.rw, flags.exec, flags.user, true, true))
  {
    ArchMemMapGrants(p, virt, phys, Pages(size), flags, off);
  }

  lemma ArchMapTranslates(p: Pool, virt: Word, phys: Word, size: Word, flags: Flags)
    requires WellFormed(p) && RangeFree(p, virt, Pages(size)) && size <= 0x80_0000_0000
    requires EnabledRun(p, MapOps(virt, phys, 0, Pages(size), PermFromFlags(flags)))
    requires Run(p, MapOps(virt, phys, 0, Pages(size), PermFromFlags(flags))).Some?
    ensures var q := Run(p, MapOps(virt, phys, 0, Pages(size), PermFromFlags(flags))).value;
      && (virt % 4096 == phys % 4096 == 0 && phys + size <= 0xFF_FFFF_FFFF_F000 ==>
            forall off: nat | off < size && Canonical(Plus(virt, off)) ::
              View(q, Plus(virt, off))
              == Some(Mapping(phys + off, true, flags.rw, flags.exec, flags.user, true, true)))
      && (forall x: Word | Canonical(x)
              && (forall off: nat | off < size && off % 4096 == 0 :: !SameSlot(x, Plus(virt, off), 0)) ::
            View(q, x) == View(p, x))
  {
    var q := Run(p, MapOps(virt, phys, 0, Pages(size), PermFromFlags(flags))).value;
    if virt % 4096 == phys % 4096 == 0 && phys + size <= 0xFF_FFFF_FFFF_F000 {
      forall off: nat | off < size && Canonical(Plus(virt, off))
        ensures View(q, Plus(virt, off))
             == Some(Mapping(phys + off, true, flags.rw, flags.exec, flags.user, true, true))
      {
        ArchMapInside(p, virt, phys, size, flags, off);
      }
    }
    forall x: Word | Canonical(x)
        && (forall off: nat | off < size && off % 4096 == 0 :: !SameSlot(x, Plus(virt, off), 0))
      ensures View(q, x) == View(p, x)
    {
      ArchMapOutside(p, virt, phys, size, PermFromFlags(flags), x);
    }
  }

  lemma ArchUnmapTranslates(p: Pool, addr: Word, size: Word)
    requires WellFormed(p)
    ensures EnabledRun(p, UnmapOps(addr, 0, Pages(size))) && Run(p, UnmapOps(addr, 0, Pages(size))).Some?
    ensures var q := Run(p, UnmapOps(addr, 0, Pages(size))).value;
      && (forall off: nat, x: Word | off < size && off % 4096 == 0 && Canonical(x)
              && SameSlot(x, Plus(addr, off), 0) ::
            View(q, x) == None)
      && (RangeFree(p, addr, Pages(size)) ==> forall x: Word | Canonical(x)
              && (forall off: nat | off < size && off % 4096 == 0 :: !SameSlot(x, Plus(addr, off), 0)) ::
            View(q, x) == View(p, x))
  {
    UnmapNeverPanics(p, addr, 0, Pages(size));
    var q := Run(p, UnmapOps(addr, 0, Pages(size))).value;
    forall off: nat, x: Word | off < size && off % 4096 == 0 && Canonical(x) && SameSlot(x, Plus(addr, off), 0)
      ensures View(q, x) == None
    {
      ArchUnmapInside(p, addr, size, off, x);
    }
    if RangeFree(p, addr, Pages(size)) {
      forall x: Word | Canonical(x)
          && (forall off: nat | off < size && off % 4096 == 0 :: !SameSlot(x, Plus(addr, off), 0))
        ensures View(q, x) == View(p, x)
      {
        ArchUnmapOutside(p, addr, size, x);
      }
    }
  }

  lemma PageMapTranslates(p: Pool, va: Word, pa: Word, perm: Word, l: Level)
    requires l == 0 && WellFormed(p) && Clear(p, va, l) && MapRaw(p, va, pa, LeafBits(perm), l).Some?
    ensures var q := MapRaw(p, va, pa, LeafBits(perm), l).value;
      && (pa < 0x100_0000_0000_0000 && perm < 1024 && R(perm) ==>
            forall x: Word | Canonical(x) && SameSlot(x, va, l) ::
              View(q, x) == Some(Mapping(pa / 4096 * 4096 + x % 4096, true, W(perm), X(perm), U(perm), true, true)))
      && forall x: Word | Canonical(x) && !SameSlot(x, va, l) :: View(q, x) == View(p, x)
  {
    LeafMapsTranslate(p, va, pa, perm, l);
    PageFrame(pa);
  }

  lemma PageFrame(pa: Word)
    ensures pa / 4096 * 4096 % Span(0) == 0
  {
  }

  lemma GigapageFrame(pa: Word)
    requires pa % 0x4000_0000 == 0
    ensures pa / 4096 * 4096 == pa && pa / 4096 * 4096 % Span(2) == 0
  {
  }

  /** A gigapage needs no table but the root. */
  lemma GigapageFits(p: Pool, va: Word, pa: Word, perm: Word, l: Level)
    requires l == 2 && WellFormed(p) && !IsBranch(RawPte(pa, LeafBits(perm)))
    ensures Clear(p, va, l) && MapRaw(p, va, pa, LeafBits(perm), l).Some?
  {
    DescendAtRoot(p, va);
  }

  lemma GigapageMapTranslates(p: Pool, va: Word, pa: Word, perm: Word, l: Level)
    requires l == 2 && WellFormed(p) && !IsBranch(RawPte(pa, LeafBits(perm)))
    requires Clear(p, va, l) && MapRaw(p, va, pa, LeafBits(perm), l).Some?
    ensures var q := MapRaw(p, va, pa, LeafBits(perm), l).value;
      && (pa < 0x100_0000_0000_0000 && pa % 0x4000_0000 == 0 && perm < 1024 && R(perm) ==>
            forall x: Word | Canonical(x) && SameSlot(x, va, l) ::
              View(q, x) == Some(Mapping(pa + x % 0x4000_0000, true, W(perm), X(perm), U(perm), true, true)))
      && forall x: Word | Canonical(x) && !SameSlot(x, va, l) :: View(q, x) == View(p, x)
  {
    LeafMapsTranslate(p, va, pa, perm, l);
    if pa % 0x4000_0000 == 0 { GigapageFrame(pa); }
  }

  lemma BootMaps(base: Word, n: nat, start: Word, end: Word)
    requires n > 0 && base % 4096 == 0 && base + 4096 * n <= 0x100_0000_0000_0000 && BootLayout(start, end)
    ensures WellFormed(RootOnly(base, n)) && EnabledRun(RootOnly(base, n), BootOps(start, end))
    ensures Run(RootOnly(base, n), BootOps(start, end)).Some? ==>
              var p := Run(RootOnly(base, n), BootOps(start, end)).value;
              forall x: Word | Canonical(x) ::
                && (start <= x < end ==> View(p, x) == Some(Mapping(x, true, true, true, false, true, true)))
                && (x < 0x4000_0000 ==> View(p, x) == Some(Mapping(x, true, true, false, false, true, true)))
                && (0x4000_0000 <= x < start ==> View(p, x) == None)
                && (x >= (end + 4095) / 4096 * 4096 ==> View(p, x) == None)
  {
    BootLegal(base, n, start, end);
    forall x: Word | Canonical(x) && Run(RootOnly(base, n), BootOps(start, end)).Some?
      ensures var p := Run(RootOnly(base, n), BootOps(start, end)).value;
        && (start <= x < end ==> View(p, x) == Some(Mapping(x, true, true, true, false, true, true)))
        && (x < 0x4000_0000 ==> View(p, x) == Some(Mapping(x, true, true, false, false, true, true)))
        && (0x4000_0000 <= x < start ==> View(p, x) == None)
        && (x >= (end + 4095) / 4096 * 4096 ==> View(p, x) == None)
    {
      BootMap(base, n, start, end, x);
    }
  }

  lemma NothingLeft(p: Pool, a: Word, k: nat, n: nat, perm: Word)
    requires WellFormed(p) && k >= n && EnabledRun(p, MapOps(a, a, k, n, perm))
    ensures Run(p, MapOps(a, a, k, n, perm)) == Some(p)
  {
  }

  class Mmu {
    const base: Word              // mmu_tables
    const tables: array2<Word>
    const used: array<bool>       // mmu_table_used
    var root: Word                // kernel_root
    ghost var pool: Pool

    /** The arrays hold the pool's tables and flags. */
    ghost predicate Linked()
      reads this, tables, used
    {
      Holds(tables, base, pool) && used.Length == |pool.tables| && used[..] == pool.used
    }

    ghost predicate Valid()
      reads this, tables, used
    {
      Linked() && WellFormed(pool) && root == Addr(pool, pool.root)
    }

    /** The zero-initialised static data of mmu.c. */
    constructor (base: Word, numTables: nat)
      requires numTables > 0
      ensures this.base == base && tables.Length0 == used.Length == numTables && tables.Length1 == 512
      ensures fresh(tables) && fresh(used)
      ensures forall i | 0 <= i < numTables :: !used[i]
    {
      this.base := base;
      tables := new Word[numTables, 512]((_, _) => 0);
      used := new bool[numTables](_ => false);
      root := 0;
      pool := Pool(base, [], [], 0, [], []);
    }

    /** First fit over the used flags; not ok is the k_panic of an exhausted pool. */
    method AllocTable() returns (ok: bool, tbl: Word)
      requires tables.Length0 == used.Length && tables.Length1 == 512
      requires base % 4096 == 0 && base + 4096 * tables.Length0 <= 0x100_0000_0000_0000
      modifies tables, used
      ensures ok == (FirstFree(old(used[..]), 0) < used.Length)
      ensures !ok ==> unchanged(tables) && unchanged(used)
      ensures ok ==>
                var k := FirstFree(old(used[..]), 0);
                && tbl == base + 4096 * k
                && used[..] == old(used[..])[k := true]
                && (forall j | 0 <= j < 512 :: tables[k, j] == 0)
                && (forall t, j | 0 <= t < tables.Length0 && 0 <= j < 512 && t != k ::
                      tables[t, j] == old(tables[t, j]))
    {
      var i := 0;
      while i < used.Length
        invariant 0 <= i <= used.Length
        invariant FirstFree(used[..], 0) == FirstFree(used[..], i)
        invariant unchanged(tables) && unchanged(used)
      {
        if !used[i] {
          used[i] := true;
          var j := 0;
          while j < 512
            invariant 0 <= j <= 512
            invariant forall m | 0 <= m < j :: tables[i, m] == 0
            invariant forall t, m | 0 <= t < tables.Length0 && 0 <= m < 512 && t != i ::
                        tables[t, m] == old(tables[t, m])
            invariant used[..] == old(used[..])[i := true]
          {
            tables[i, j] := 0;
            j := j + 1;
          }
          return true, base + 4096 * i;
        }
        i := i + 1;
      }
      return false, 0;
    }

    /** The tables va's descent has reached: the level-l table is at tbl. */
    ghost predicate Reached(va: Word, l: Level, tbl: Word)
      requires WellFormed(pool)
      reads this
    {
      Reach(pool, va, l).Some? && tbl == Addr(pool, Reach(pool, va, l).value)
    }

    /** `tbl[j] = branch(alloc_table())` over an invalid entry. */
    method HangTable(va: Word, l: Level, tbl: Word) returns (ok: bool)
      requires Valid() && Reached(va, l, tbl) && StopLevel(pool, va) == l > 0 && !V(StopEntry(pool, va))
      modifies this`pool, tables, used
      ensures Valid()
      ensures ok == GrowAt(old(pool), va).Some?
      ensures pool == if ok then GrowAt(old(pool), va).value else old(pool)
    {
      TablePointer(pool, Reach(pool, va, l).value);
      var table;
      ok, table := AllocTable();
      if ok {
        GrowHit(pool, va, va);
        tables[(tbl - base) / 4096, Vpn(va, l)] := BranchPte(table);
        pool := GrowAt(pool, va).value;
      }
    }

    /** One round of the loop of map_page and map_raw: from the level-l table at tbl to the table below. */
    method NextTable(va: Word, ghost level: Level, l: Level, tbl: Word) returns (ok: bool, next: Word)
      requires Valid() && Clear(pool, va, level) && level < l && Reached(va, l, tbl)
      modifies this`pool, tables, used
      ensures Valid() && Clear(pool, va, level)
      ensures Descend(pool, va, level) == Descend(old(pool), va, level)
      ensures !ok ==> Descend(old(pool), va, level).None?
      ensures ok ==> Reached(va, l - 1, next)
    {
      TablePointer(pool, Reach(pool, va, l).value);
      ok, next := true, 0;
      if !V(Load(tables, base, tbl, Vpn(va, l))) {
        InvalidStops(pool, va, l);
        ok := HangTable(va, l, tbl);
        if !ok { return; }
        GrowHit(old(pool), va, va);
      } else {
        ValidContinues(pool, va, level, l);
      }
      next := Follow(tables, base, pool, va, l, tbl);
    }

    /** `tbl[vpn(va, level)] = w` in the table the descent reached. */
    method StoreLeaf(va: Word, level: Level, tbl: Word, w: Word)
      requires Valid() && Reach(pool, va, level).Some? && tbl == Addr(pool, Reach(pool, va, level).value)
      requires level == 0 || !IsBranch(w)
      modifies this`pool, tables
      ensures Valid() && pool == WriteAt(old(pool), va, level, w)
    {
      TablePointer(pool, Reach(pool, va, level).value);
      tables[(tbl - base) / 4096, Vpn(va, level)] := w;
      pool := WriteAt(pool, va, level, w);
    }

    method DescendTo(va: Word, level: Level) returns (ok: bool, tbl: Word)
      requires Valid() && Clear(pool, va, level)
      modifies this`pool, tables, used
      ensures Valid()
      ensures ok == Descend(old(pool), va, level).Some?
      ensures ok ==> pool == Descend(old(pool), va, level).value && tbl == Addr(pool, Reach(pool, va, level).value)
    {
      ghost var result := Descend(pool, va, level);
      tbl := root;
      var l: Level := 2;
      while l > level
        invariant level <= l
        invariant Valid() && Clear(pool, va, level) && Reached(va, l, tbl)
        invariant Descend(pool, va, level) == result
      {
        ok, tbl := NextTable(va, level, l, tbl);
        if !ok { return; }
        l := l - 1;
      }
      assert l == level;
      DescendDone(pool, va, level);
      ok := true;
    }

    /** map_page: one 4 KB page. Not ok is the panic of an exhausted pool. */
    method MapPage(va: Word, pa: Word, perm: Word) returns (ok: bool)
      requires Valid() && Clear(pool, va, 0)
      modifies this`pool, tables, used
      ensures Valid()
      ensures ok == MapRaw(old(pool), va, pa, LeafBits(perm), 0).Some?
      ensures ok ==> pool == MapRaw(old(pool), va, pa, LeafBits(perm), 0).value
      ensures ok && pa < 0x100_0000_0000_0000 && perm < 1024 && R(perm) ==>
                forall x: Word | Canonical(x) && SameSlot(x, va, 0) ::
                  View(pool, x)
                  == Some(Mapping(pa / 4096 * 4096 + x % 4096, true, W(perm), X(perm), U(perm), true, true))
      ensures ok ==> forall x: Word | Canonical(x) && !SameSlot(x, va, 0) :: View(pool, x) == View(old(pool), x)
    {
      if MapRaw(pool, va, pa, LeafBits(perm), 0).Some? { PageMapTranslates(pool, va, pa, perm, 0); }
      var tbl;
      ok, tbl := DescendTo(va, 0);
      if ok {
        LeafIsRaw(pa, perm);
        StoreLeaf(va, 0, tbl, LeafPte(pa, perm));
      }
    }

    /** map_gigapage: a leaf in the root. */
    method MapGigapage(va: Word, pa: Word, perm: Word)
      requires Valid() && !IsBranch(RawPte(pa, LeafBits(perm)))
      modifies this`pool, tables
      ensures Valid() && MapRaw(old(pool), va, pa, LeafBits(perm), 2) == Some(pool)
      ensures pa < 0x100_0000_0000_0000 && pa % 0x4000_0000 == 0 && perm < 1024 && R(perm) ==>
                forall x: Word | Canonical(x) && SameSlot(x, va, 2) ::
                  View(pool, x) == Some(Mapping(pa + x % 0x4000_0000, true, W(perm), X(perm), U(perm), true, true))
      ensures forall x: Word | Canonical(x) && !SameSlot(x, va, 2) :: View(pool, x) == View(old(pool), x)
    {
      GigapageFits(pool, va, pa, perm, 2);
      GigapageMapTranslates(pool, va, pa, perm, 2);
      LeafIsRaw(pa, perm);
      StoreLeaf(va, 2, root, LeafPte(pa, perm));
    }

    /** z_riscv_mmu_map_raw: exactly the caller's bits, at any level. */
    method MapRawAt(va: Word, pa: Word, bits: Word, level: Level) returns (ok: bool)
      requires va % Span(level) == 0 && pa % Span(level) == 0
      requires Valid() && Clear(pool, va, level) && (level == 0 || !IsBranch(RawPte(pa, bits)))
      modifies this`pool, tables, used
      ensures Valid()
      ensures ok == MapRaw(old(pool), va, pa, bits, level).Some?
      ensures ok ==> pool == MapRaw(old(pool), va, pa, bits, level).value
      ensures ok && bits < 1024 ==>
                && StopLevel(pool, va) == level && StopEntry(pool, va) / 1024 == pa / 4096
                && forall k: nat | k < 10 :: Bit(StopEntry(pool, va), k) <==> Bit(bits, k)
      ensures ok ==> forall x: Word | Canonical(x) && !SameSlot(x, va, level) :: View(pool, x) == View(old(pool), x)
    {
      ghost var was := pool;
      var tbl;
      ok, tbl := DescendTo(va, level);
      if ok {
        StoreLeaf(va, level, tbl, RawPte(pa, bits));
        MapRawTranslates(was, va, pa, bits, level);
        if bits < 1024 { RawFields(pa, bits); }
      }
    }

    /** unmap_page: zero the leaf covering va, at whatever level it sits. */
    method UnmapPage(va: Word)
      requires Valid()
      modifies this`pool, tables
      ensures Valid() && pool == Unmap(old(pool), va)
      ensures forall x: Word | Canonical(x) ::
                View(pool, x) == if SameSlot(x, va, StopLevel(old(pool), va)) then None else View(old(pool), x)
    {
      forall x: Word | Canonical(x)
        ensures View(Unmap(pool, va), x) == if SameSlot(x, va, StopLevel(pool, va)) then None else View(pool, x)
      {
        UnmapTranslates(pool, va, x);
      }
      ZeroIsInvalid();
      var tbl := root;
      var l: int := 2;
      while l > 0
        invariant 0 <= l <= 2 && Valid() && pool == old(pool)
        invariant Reach(pool, va, l).Some? && tbl == Addr(pool, Reach(pool, va, l).value)
      {
        TablePointer(pool, Reach(pool, va, l).value);
        var pte := Load(tables, base, tbl, Vpn(va, l));
        if !V(pte) {
          InvalidStops(pool, va, l);
          return;
        }
        if HasXwr(pte) {
          LeafStops(pool, va, l);
          StoreLeaf(va, l, tbl, 0);
          return;
        }
        tbl := Follow(tables, base, pool, va, l, tbl);
        l := l - 1;
      }
      StoreLeaf(va, 0, tbl, 0);
    }

    /** z_riscv_mmu_pte_lookup: the address of the leaf entry covering va, or null. */
    method PteLookup(va: Word) returns (pte: Option<nat>)
      requires Valid()
      ensures pte == Lookup(pool, va)
    {
      var tbl := root;
      var l: int := 2;
      while l > 0
        invariant 0 <= l <= 2
        invariant Reach(pool, va, l).Some? && tbl == Addr(pool, Reach(pool, va, l).value)
      {
        TablePointer(pool, Reach(pool, va, l).value);
        var w := Load(tables, base, tbl, Vpn(va, l));
        if !V(w) {
          InvalidStops(pool, va, l);
          return None;
        }
        if HasXwr(w) {
          LeafStops(pool, va, l);
          return Some(tbl + 8 * Vpn(va, l));
        }
        tbl := Follow(tables, base, pool, va, l, tbl);
        l := l - 1;
      }
      return Some(tbl + 8 * Vpn(va, 0));
    }

    /** One iteration of arch_mem_map, at page k of the range. */
    method MapStep(va: Word, pa: Word, perm: Word, ghost virt: Word, ghost phys: Word, ghost k: nat, ghost n: nat)
      returns (ok: bool)
      requires Valid() && va == PageOf(virt, k) && pa == PageOf(phys, k) && k < n
      requires EnabledRun(pool, MapOps(virt, phys, k, n, perm))
      modifies this`pool, tables, used
      ensures Valid()
      ensures ok ==> EnabledRun(pool, MapOps(virt, phys, k + 1, n, perm))
      ensures ok ==> Run(old(pool), MapOps(virt, phys, k, n, perm)) == Run(pool, MapOps(virt, phys, k + 1, n, perm))
      ensures !ok ==> Run(old(pool), MapOps(virt, phys, k, n, perm)) == None
    {
      MapOpsHead(pool, virt, phys, k, n, perm);
      ok := MapPage(va, pa, perm);
    }

    /** One iteration of arch_mem_unmap. */
    method UnmapStep(va: Word, ghost addr: Word, ghost k: nat, ghost n: nat)
      requires Valid() && va == PageOf(addr, k) && k < n
      requires EnabledRun(pool, UnmapOps(addr, k, n))
      modifies this`pool, tables
      ensures Valid() && EnabledRun(pool, UnmapOps(addr, k + 1, n))
      ensures Run(old(pool), UnmapOps(addr, k, n)) == Run(pool, UnmapOps(addr, k + 1, n))
    {
      UnmapOpsHead(pool, addr, k, n);
      UnmapPage(va);
    }

    /** Write through an entry pointer, `*pte = w`. */
    method StoreThrough(va: Word, pte: nat, w: Word)
      requires Valid() && Lookup(pool, va) == Some(pte)
      requires StopLevel(pool, va) == 0 || !IsBranch(w)
      modifies this`pool, tables
      ensures Valid() && pool == FixRetry.Touch(old(pool), va, w)
    {
      SlotOffset(StopTable(pool, va), Vpn(va, StopLevel(pool, va)));
      tables[(pte - base) / 4096, (pte - base) % 4096 / 8] := w;
      pool := FixRetry.Touch(pool, va, w);
    }

    /** Read through an entry pointer, `*pte`. */
    function LoadThrough(ghost va: Word, pte: nat): (w: Word)
      requires Valid() && Lookup(pool, va) == Some(pte)
      reads this, tables, used
      ensures w == StopEntry(pool, va)
    {
      SlotOffset(StopTable(pool, va), Vpn(va, StopLevel(pool, va)));
      tables[(pte - base) / 4096, (pte - base) % 4096 / 8]
    }

    /** The resolver p1c_fixup: repair the leaf entry by cause and ask for a retry. */
    method P1cFixup(scause: Word, stval: Word) returns (resolved: bool)
      requires Valid()
      modifies this`pool, tables
      ensures Valid()
      ensures resolved == (Lookup(old(pool), stval).Some? && FixRetry.IsPageFault(scause))
      ensures pool == if resolved
                      then FixRetry.FixAt(old(pool), stval, FixRetry.KernelResolver, FixRetry.KindOf(scause))
                      else old(pool)
      ensures resolved && scause == 13 ==>
                FixRetry.Gains(StopEntry(old(pool), stval), StopEntry(pool, stval), {0, 1, 6})
      ensures resolved && scause == 15 ==>
                FixRetry.Gains(StopEntry(old(pool), stval), StopEntry(pool, stval), {0, 1, 2, 6, 7})
      ensures resolved && scause == 12 ==>
                FixRetry.Gains(StopEntry(old(pool), stval), StopEntry(pool, stval), {0, 1, 3, 6})
      ensures resolved && FixRetry.Servable(old(pool), stval, FixRetry.KernelResolver) ==> forall svadu: bool ::
                && (scause == 13 ==> FixRetry.Grants(View(pool, stval), FixRetry.Load, svadu))
                && (scause == 15 ==> FixRetry.Grants(View(pool, stval), FixRetry.Store, svadu))
                && (scause == 12 ==> FixRetry.Grants(View(pool, stval), FixRetry.Fetch, svadu))
    {
      var pte := PteLookup(stval);
      if pte.None? {
        return false;
      }
      var w := LoadThrough(stval, pte.value);
      var mask: Word;
      if scause == 13 {
        mask := 0x43;  // V | R | A
      } else if scause == 15 {
        mask := 0xC7;  // V | R | W | A | D
      } else if scause == 12 {
        mask := 0x4B;  // V | R | X | A
      } else {
        return false;
      }
      FixRetry.OneFixSuffices(w, StopLevel(pool, stval), FixRetry.KernelResolver, FixRetry.KindOf(scause), true);
      FixRetry.RepairByCause(pool, stval, FixRetry.KernelResolver, scause);
      StoreThrough(stval, pte.value, Or(w, mask));
      return true;
    }

    /** The page-fault dispatch of z_riscv_fault: retry (return without advancing mepc) exactly when a resolver is
        registered, the cause is a page fault and the resolver repaired the entry; otherwise the fault is fatal. */
    method DispatchFault(registered: bool, scause: Word, stval: Word) returns (retry: bool)
      requires Valid()
      modifies this`pool, tables
      ensures Valid()
      ensures retry == (registered && FixRetry.IsPageFault(scause) && Lookup(old(pool), stval).Some?)
      ensures !retry ==> pool == old(pool)
      ensures retry ==>
                pool == FixRetry.FixAt(old(pool), stval, FixRetry.KernelResolver, FixRetry.KindOf(scause))
      ensures retry && scause == 13 ==>
                FixRetry.Gains(StopEntry(old(pool), stval), StopEntry(pool, stval), {0, 1, 6})
      ensures retry && scause == 15 ==>
                FixRetry.Gains(StopEntry(old(pool), stval), StopEntry(pool, stval), {0, 1, 2, 6, 7})
      ensures retry && scause == 12 ==>
                FixRetry.Gains(StopEntry(old(pool), stval), StopEntry(pool, stval), {0, 1, 3, 6})
      ensures retry && FixRetry.Servable(old(pool), stval, FixRetry.KernelResolver) ==> forall svadu: bool ::
                && (scause == 13 ==> FixRetry.Grants(View(pool, stval), FixRetry.Load, svadu))
                && (scause == 15 ==> FixRetry.Grants(View(pool, stval), FixRetry.Store, svadu))
                && (scause == 12 ==> FixRetry.Grants(View(pool, stval), FixRetry.Fetch, svadu))
    {
      retry := false;
      if scause == 12 || scause == 13 || scause == 15 {
        if registered {
          retry := P1cFixup(scause, stval);
        }
      }
    }

    /** arch_mem_map: one map_page for every 4 KB step below size. */
    method ArchMemMap(virt: Word, phys: Word, size: Word, flags: Flags) returns (ok: bool)
      requires size <= WORD_SIZE - 4096
      requires Valid() && RangeFree(pool, virt, Pages(size))
      modifies this`pool, tables, used
      ensures Valid()
      ensures EnabledRun(old(pool), MapOps(virt, phys, 0, Pages(size), PermFromFlags(flags)))
      ensures ok == Run(old(pool), MapOps(virt, phys, 0, Pages(size), PermFromFlags(flags))).Some?
      ensures ok ==> pool == Run(old(pool), MapOps(virt, phys, 0, Pages(size), PermFromFlags(flags))).value
      ensures ok && size <= 0x80_0000_0000 && virt % 4096 == phys % 4096 == 0
              && phys + size <= 0xFF_FFFF_FFFF_F000 ==>
                forall off: nat | off < size && Canonical(Plus(virt, off)) ::
                  View(pool, Plus(virt, off))
                  == Some(Mapping(phys + off, true, flags.rw, flags.exec, flags.user, true, true))
      ensures ok && size <= 0x80_0000_0000 ==>
                forall x: Word | Canonical(x)
                    && (forall off: nat | off < size && off % 4096 == 0 :: !SameSlot(x, Plus(virt, off), 0)) ::
                  View(pool, x) == View(old(pool), x)
    {
      ghost var was := pool;
      ok := MapSteps(virt, phys, size, PermFromFlags(flags));
      if ok && size <= 0x80_0000_0000 { ArchMapTranslates(was, virt, phys, size, flags); }
    }

    /** `for (off = 0; off < size; off += PAGE_SIZE_4K) map_page(virt + off, phys + off, perm)`. */
    method MapSteps(virt: Word, phys: Word, size: Word, perm: Word) returns (ok: bool)
      requires size <= WORD_SIZE - 4096
      requires Valid() && RangeFree(pool, virt, Pages(size))
      modifies this`pool, tables, used
      ensures Valid()
      ensures EnabledRun(old(pool), MapOps(virt, phys, 0, Pages(size), perm))
      ensures ok == Run(old(pool), MapOps(virt, phys, 0, Pages(size), perm)).Some?
      ensures ok ==> pool == Run(old(pool), MapOps(virt, phys, 0, Pages(size), perm)).value
    {
      ghost var n := Pages(size);
      MapRangeEnabled(pool, virt, phys, n, perm);
      ghost var result := Run(pool, MapOps(virt, phys, 0, n, perm));
      var off := 0;
      ghost var k := 0;
      while off < size
        invariant off == 4096 * k
        invariant Valid() && EnabledRun(pool, MapOps(virt, phys, k, n, perm))
        invariant Run(pool, MapOps(virt, phys, k, n, perm)) == result
      {
        LoopGuard(size, k);
        ok := MapStep(Plus(virt, off), Plus(phys, off), perm, virt, phys, k, n);
        if !ok { return; }
        off := off + 4096;
        k := k + 1;
      }
      LoopGuard(size, k);
      ok := true;
    }

    /** arch_mem_unmap: one unmap_page for every 4 KB step below size. */
    method ArchMemUnmap(addr: Word, size: Word)
      requires size <= WORD_SIZE - 4096
      requires Valid()
      modifies this`pool, tables
      ensures Valid()
      ensures EnabledRun(old(pool), UnmapOps(addr, 0, Pages(size)))
      ensures Run(old(pool), UnmapOps(addr, 0, Pages(size))) == Some(pool)
      ensures forall off: nat, x: Word | off < size && off % 4096 == 0 && Canonical(x)
                  && SameSlot(x, Plus(addr, off), 0) ::
                View(pool, x) == None
      ensures RangeFree(old(pool), addr, Pages(size)) ==>
                forall x: Word | Canonical(x)
                    && (forall off: nat | off < size && off % 4096 == 0 :: !SameSlot(x, Plus(addr, off), 0)) ::
                  View(pool, x) == View(old(pool), x)
    {
      ghost var was := pool;
      UnmapSteps(addr, size);
      ArchUnmapTranslates(was, addr, size);
    }

    /** `for (off = 0; off < size; off += PAGE_SIZE_4K) unmap_page(addr + off)`. */
    method UnmapSteps(addr: Word, size: Word)
      requires size <= WORD_SIZE - 4096
      requires Valid()
      modifies this`pool, tables
      ensures Valid()
      ensures EnabledRun(old(pool), UnmapOps(addr, 0, Pages(size)))
      ensures Run(old(pool), UnmapOps(addr, 0, Pages(size))) == Some(pool)
    {
      ghost var n := Pages(size);
      UnmapNeverPanics(pool, addr, 0, n);
      ghost var result := Run(pool, UnmapOps(addr, 0, n));
      var off := 0;
      ghost var k := 0;
      while off < size
        invariant off == 4096 * k
        invariant Valid() && EnabledRun(pool, UnmapOps(addr, k, n))
        invariant Run(pool, UnmapOps(addr, k, n)) == result
      {
        LoopGuard(size, k);
        UnmapStep(Plus(addr, off), addr, k, n);
        off := off + 4096;
        k := k + 1;
      }
      LoopGuard(size, k);
    }

    /** z_riscv_mmu_init up to the satp write: the root, the MMIO gigapage and the identity-mapped image. */
    method Init(start: Word, end: Word) returns (ok: bool)
      requires tables.Length0 == used.Length > 0 && tables.Length1 == 512
      requires base % 4096 == 0 && base + 4096 * tables.Length0 <= 0x100_0000_0000_0000
      requires forall i | 0 <= i < used.Length :: !used[i]
      requires forall t, j | 0 <= t < tables.Length0 && 0 <= j < 512 :: tables[t, j] == 0
      requires BootLayout(start, end)
      modifies this, tables, used
      ensures Valid()
      ensures EnabledRun(RootOnly(base, used.Length), BootOps(start, end))
      ensures ok == Run(RootOnly(base, used.Length), BootOps(start, end)).Some?
      ensures ok ==> pool == Run(RootOnly(base, used.Length), BootOps(start, end)).value
      ensures used.Length >= 32 && end - start <= 14337 * 4096 ==> ok
      ensures ok ==> forall x: Word | Canonical(x) ::
                && (start <= x < end ==> View(pool, x) == Some(Mapping(x, true, true, true, false, true, true)))
                && (x < 0x4000_0000 ==> View(pool, x) == Some(Mapping(x, true, true, false, false, true, true)))
                && (0x4000_0000 <= x < start ==> View(pool, x) == None)
                && (x >= (end + 4095) / 4096 * 4096 ==> View(pool, x) == None)
    {
      if used.Length >= 32 && end - start <= 14337 * 4096 { BootFits(base, used.Length, start, end); }
      BootMaps(base, used.Length, start, end);
      BootLegal(base, used.Length, start, end);
      BootHead(base, used.Length, start, end);
      InitRoot();
      ok := MapImage(start, end, PERM_RWX);
    }

    /** `kernel_root = alloc_table()` and the MMIO gigapage. */
    method InitRoot()
      requires tables.Length0 == used.Length > 0 && tables.Length1 == 512
      requires base % 4096 == 0 && base + 4096 * tables.Length0 <= 0x100_0000_0000_0000
      requires forall i | 0 <= i < used.Length :: !used[i]
      requires forall t, j | 0 <= t < tables.Length0 && 0 <= j < 512 :: tables[t, j] == 0
      modifies this, tables, used
      ensures Valid() && pool == MmioOnly(base, used.Length)
    {
      RootOnlyWellFormed(base, used.Length);
      MmioIsLeaf();
      var ok;
      ok, root := AllocTable();
      pool := RootOnly(base, used.Length);
      MapGigapage(0, 0, PERM_RW);
    }

    /** `for (va = start; va < end; va += PAGE_SIZE_4K) map_page(va, va, RWX)`. */
    method MapImage(start: Word, end: Word, perm: Word) returns (ok: bool)
      requires Valid() && end <= WORD_SIZE - 4096
      requires EnabledRun(pool, MapOps(start, start, 0, ImagePages(start, end), perm))
      modifies this`pool, tables, used
      ensures Valid()
      ensures ok == Run(old(pool), MapOps(start, start, 0, ImagePages(start, end), perm)).Some?
      ensures ok ==> pool == Run(old(pool), MapOps(start, start, 0, ImagePages(start, end), perm)).value
    {
      ghost var n := ImagePages(start, end);
      ghost var result := Run(pool, MapOps(start, start, 0, n, perm));
      var va: int := start;
      ghost var k := 0;
      while va < end
        invariant va == start + 4096 * k && n == ImagePages(start, end)
        invariant Valid() && EnabledRun(pool, MapOps(start, start, k, n, perm))
        invariant Run(pool, MapOps(start, start, k, n, perm)) == result
      {
        ImageStep(start, end, k);
        ok := MapStep(va, va, perm, start, start, k, n);
        if !ok { return; }
        va := va + 4096;
        k := k + 1;
      }
      ImageGuard(start, end, k);
      NothingLeft(pool, start, k, n, perm);
      ok := true;
    }
  }
}
