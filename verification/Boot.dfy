/** What z_riscv_mmu_init leaves mapped, and why the kernel can keep editing its own tables through pointers. */
module Boot {
  import opened Words
  import opened Sv39
  import opened Pool
  import opened Cells
  import opened PoolOps
  import opened Ranges
  import opened Budget

  const PERM_RW: Word := 0x6
  const PERM_RWX: Word := 0xE

  /** The pool right after alloc_table for the root. */
  ghost function RootOnly(base: Word, n: nat): Pool
    requires n > 0
  {
    Pool(base, seq(n, _ => ZeroTable()), seq(n, i => i == 0), 0, seq(n, _ => 2), seq(n, _ => (0, 0)))
  }

  lemma RootOnlyWellFormed(base: Word, n: nat)
    requires n > 0 && base % 4096 == 0 && base + 4096 * n <= 0x100_0000_0000_0000
    ensures WellFormed(RootOnly(base, n))
    ensures forall x: Word :: CellAt(RootOnly(base, n), x) == Unmapped
  {
    ZeroIsInvalid();
    var p := RootOnly(base, n);
    assert WellFormed(p);
    forall x: Word ensures CellAt(p, x) == Unmapped {
      assert Reach(p, x, 1).None?;
    }
  }

  /** The image lies above the MMIO gigabyte and below the end of the lower canonical half. */
  predicate BootLayout(start: Word, end: Word) {
    0x4000_0000 <= start <= end < 0x40_0000_0000 && start % 4096 == 0
  }

  function ImagePages(start: Word, end: Word): nat { if start < end then Pages(end - start) else 0 }

  lemma ImageGuard(start: Word, end: Word, k: nat)
    ensures start + 4096 * k < end <==> k < ImagePages(start, end)
  {
    if start < end { LoopGuard(end - start, k); }
  }

  lemma ImageStep(start: Word, end: Word, k: nat)
    requires start + 4096 * k < end
    ensures k < ImagePages(start, end) && start + 4096 * k == PageOf(start, k)
  {
    ImageGuard(start, end, k);
    ImageAddress(start, k);
  }

  /** The run of z_riscv_mmu_init after the root is allocated: the MMIO gigapage, then the kernel image. */
  function BootOps(start: Word, end: Word): seq<Op> {
    [MapOp(0, 0, LeafBits(PERM_RW), 2)] + MapOps(start, start, 0, ImagePages(start, end), PERM_RWX)
  }

  predicate InImage(x: Word, start: Word, end: Word) {
    start / 4096 <= x / 4096 < start / 4096 + ImagePages(start, end)
  }

  lemma PermBits()
    ensures R(PERM_RW) && W(PERM_RW) && !X(PERM_RW) && !U(PERM_RW)
    ensures R(PERM_RWX) && W(PERM_RWX) && X(PERM_RWX) && !U(PERM_RWX)
  {
  }

  lemma MmioIsLeaf()
    ensures V(RawPte(0, LeafBits(PERM_RW))) && !IsBranch(RawPte(0, LeafBits(PERM_RW)))
  {
    PermBits();
    LeafIsRaw(0, PERM_RW);
    LeafFlags(0, PERM_RW);
  }

  lemma ImageAddress(start: Word, k: nat)
    requires start + 4096 * k < WORD_SIZE
    ensures PageOf(start, k) == start + 4096 * k
  {
  }

  /** Image pages never share the root slot of the MMIO gigapage. */
  lemma ImageAboveMmio(start: Word, end: Word, i: nat)
    requires BootLayout(start, end) && i < ImagePages(start, end)
    ensures PageOf(start, i) == start + 4096 * i && 0x4000_0000 <= PageOf(start, i) < 0x40_0000_0000
    ensures !SameSlot(PageOf(start, i), 0, 2)
  {
    ImageAddress(start, i);
    assert Vpn(0, 2) == 0;
  }

  lemma BootLegal(base: Word, n: nat, start: Word, end: Word)
    requires n > 0 && base % 4096 == 0 && base + 4096 * n <= 0x100_0000_0000_0000 && BootLayout(start, end)
    ensures WellFormed(RootOnly(base, n))
    ensures LegalRun(CellsOf(RootOnly(base, n)), BootOps(start, end))
    ensures EnabledRun(RootOnly(base, n), BootOps(start, end))
  {
    var p, ops := RootOnly(base, n), BootOps(start, end);
    RootOnlyWellFormed(base, n);
    var m := CellsOf(p);
    var m' := AbstractStep(m, ops[0]);
    MmioIsLeaf();
    assert ops[1..] == MapOps(start, start, 0, ImagePages(start, end), PERM_RWX);
    forall i: nat | 0 <= i < ImagePages(start, end)
      ensures m'(PageOf(start, i)).Mapped? ==> m'(PageOf(start, i)).level == 0
    {
      ImageAboveMmio(start, end, i);
    }
    MapOpsLegal(m', start, start, 0, ImagePages(start, end), PERM_RWX);
    RunRefines(p, m, ops);
  }

  /** The pool once the MMIO gigapage is in the root. */
  ghost function MmioOnly(base: Word, n: nat): (p: Pool)
    requires n > 0 && base % 4096 == 0 && base + 4096 * n <= 0x100_0000_0000_0000
    ensures WellFormed(p)
  {
    RootOnlyWellFormed(base, n);
    MmioIsLeaf();
    WriteAt(RootOnly(base, n), 0, 2, RawPte(0, LeafBits(PERM_RW)))
  }

  /** The first boot operation installs the gigapage without allocating. */
  lemma BootHead(base: Word, n: nat, start: Word, end: Word)
    requires n > 0 && base % 4096 == 0 && base + 4096 * n <= 0x100_0000_0000_0000
    requires WellFormed(RootOnly(base, n)) && EnabledRun(RootOnly(base, n), BootOps(start, end))
    ensures EnabledRun(MmioOnly(base, n), MapOps(start, start, 0, ImagePages(start, end), PERM_RWX))
    ensures Run(RootOnly(base, n), BootOps(start, end))
         == Run(MmioOnly(base, n), MapOps(start, start, 0, ImagePages(start, end), PERM_RWX))
  {
    var ops := BootOps(start, end);
    assert ops[1..] == MapOps(start, start, 0, ImagePages(start, end), PERM_RWX);
    DescendAtRoot(RootOnly(base, n), 0);
  }

  lemma DescendAtRoot(p: Pool, va: Word)
    requires WellFormed(p)
    ensures Clear(p, va, 2) && Descend(p, va, 2) == Some(p)
  {
  }

  /** The boot map at one address. */
  function BootCell(x: Word, start: Word, end: Word): Cell {
    if InImage(x, start, end) then Mapped(0, LeafPte(x / 4096 * 4096, PERM_RWX))
    else if x < 0x4000_0000 then Mapped(2, LeafPte(0, PERM_RW))
    else Unmapped
  }

  lemma InImageIsInPage(x: Word, start: Word, end: Word, i: nat)
    requires BootLayout(start, end) && Canonical(x) && i < ImagePages(start, end)
    ensures InPage(x, start, i) <==> x / 4096 == start / 4096 + i
  {
    ImageAboveMmio(start, end, i);
    SameSlotIsSameSpan(x, PageOf(start, i), 0);
    assert (start + 4096 * i) / 4096 == start / 4096 + i;
  }

  /** The cells once the MMIO gigapage is in the root. */
  lemma MmioCells(m: CellMap, start: Word, end: Word, x: Word)
    requires Canonical(x) && m(x) == Unmapped
    ensures AbstractStep(m, BootOps(start, end)[0])(x)
         == if x < 0x4000_0000 then Mapped(2, LeafPte(0, PERM_RW)) else Unmapped
  {
    MmioIsLeaf();
    LeafIsRaw(0, PERM_RW);
    SameSlotIsSameSpan(x, 0, 2);
  }

  lemma BootCells(base: Word, n: nat, start: Word, end: Word, x: Word)
    requires n > 0 && base % 4096 == 0 && base + 4096 * n <= 0x100_0000_0000_0000 && BootLayout(start, end)
    requires Canonical(x)
    ensures AbstractRun(CellsOf(RootOnly(base, n)), BootOps(start, end))(x) == BootCell(x, start, end)
  {
    var ops, k := BootOps(start, end), ImagePages(start, end);
    RootOnlyWellFormed(base, n);
    var m := CellsOf(RootOnly(base, n));
    assert m(x) == Unmapped;
    var m' := AbstractStep(m, ops[0]);
    MmioCells(m, start, end, x);
    assert ops[1..] == MapOps(start, start, 0, k, PERM_RWX);
    if InImage(x, start, end) {
      var i: nat := x / 4096 - start / 4096;
      InImageIsInPage(x, start, end, i);
      ImageAboveMmio(start, end, i);
      MapOpsInside(m', start, start, 0, k, PERM_RWX, x, i);
      LeafFlags(PageOf(start, i), PERM_RWX);
      assert PageOf(start, i) == x / 4096 * 4096;
    } else {
      forall i: nat | 0 <= i < k ensures !InPage(x, start, i) { InImageIsInPage(x, start, end, i); }
      MapOpsOutside(m', start, start, 0, k, PERM_RWX, x);
    }
  }

  /** The boot map, with every mapped address going to itself. */
  function BootView(x: Word, start: Word, end: Word): Option<Mapping> {
    if InImage(x, start, end) then Some(Mapping(x, true, true, true, false, true, true))
    else if x < 0x4000_0000 then Some(Mapping(x, true, true, false, false, true, true))
    else None
  }

  lemma BootCellView(x: Word, start: Word, end: Word)
    requires BootLayout(start, end)
    ensures CellView(BootCell(x, start, end), x) == BootView(x, start, end)
  {
    PermBits();
    if InImage(x, start, end) {
      ImageBelowHalf(x, start, end);
      SelfLeaf(x, PERM_RWX);
    } else if x < 0x4000_0000 {
      LowLeaf(x, PERM_RW);
    }
  }

  lemma SelfLeaf(x: Word, perm: Word)
    requires x < 0x40_0000_0000 && perm < 1024 && R(perm)
    ensures LeafView(LeafPte(x / 4096 * 4096, perm), 0, x)
         == Some(Mapping(x, true, W(perm), X(perm), U(perm), true, true))
  {
    LeafGrants(x / 4096 * 4096, perm, 0, x);
  }

  lemma LowLeaf(x: Word, perm: Word)
    requires x < 0x4000_0000 && perm < 1024 && R(perm)
    ensures LeafView(LeafPte(0, perm), 2, x) == Some(Mapping(x, true, W(perm), X(perm), U(perm), true, true))
  {
    LeafGrants(0, perm, 2, x);
  }

  lemma ImageBelowHalf(x: Word, start: Word, end: Word)
    requires BootLayout(start, end) && InImage(x, start, end)
    ensures x < 0x40_0000_0000
  {
  }

  /** After z_riscv_mmu_init exactly the low 1 GB (read-write, never executable) and the kernel image
      (read-write-execute) are mapped, each address to itself, and nothing else. */
  lemma BootTranslates(base: Word, n: nat, start: Word, end: Word, x: Word)
    requires n > 0 && base % 4096 == 0 && base + 4096 * n <= 0x100_0000_0000_0000 && BootLayout(start, end)
    requires Canonical(x)
    ensures WellFormed(RootOnly(base, n)) && EnabledRun(RootOnly(base, n), BootOps(start, end))
    ensures Run(RootOnly(base, n), BootOps(start, end)).Some? ==>
              View(Run(RootOnly(base, n), BootOps(start, end)).value, x) == BootView(x, start, end)
  {
    BootLegal(base, n, start, end);
    BootCells(base, n, start, end, x);
    RunTranslates(RootOnly(base, n), BootOps(start, end), x);
    BootCellView(x, start, end);
  }

  /** The end of the image, rounded up to a page. */
  function ImageTop(end: Word): nat { (end + 4095) / 4096 * 4096 }

  lemma ImageSpan(x: Word, start: Word, end: Word)
    requires BootLayout(start, end)
    ensures InImage(x, start, end) <==> start <= x < ImageTop(end)
    ensures end <= ImageTop(end) < end + 4096
  {
    var a, t := start / 4096, (end + 4095) / 4096;
    ImagePagesOfAligned(a, start, end);
    assert a + ImagePages(start, end) == t;
    assert start <= x <==> a <= x / 4096;
    assert x < 4096 * t <==> x / 4096 < t;
  }

  lemma ImagePagesOfAligned(a: nat, start: Word, end: Word)
    requires start == 4096 * a && start <= end
    ensures a + ImagePages(start, end) == (end + 4095) / 4096
  {
  }

  /** The boot map in the image's two addresses alone: every byte from start to end, and the rest of the last page, is
      mapped to itself read-write-execute, the low 1 GB read-write, and nothing in between or above. */
  lemma BootMap(base: Word, n: nat, start: Word, end: Word, x: Word)
    requires n > 0 && base % 4096 == 0 && base + 4096 * n <= 0x100_0000_0000_0000 && BootLayout(start, end)
    requires Canonical(x)
    ensures WellFormed(RootOnly(base, n)) && EnabledRun(RootOnly(base, n), BootOps(start, end))
    ensures Run(RootOnly(base, n), BootOps(start, end)).Some? ==>
              var view := View(Run(RootOnly(base, n), BootOps(start, end)).value, x);
              && (start <= x < end ==> view == Some(Mapping(x, true, true, true, false, true, true)))
              && (end <= x < (end + 4095) / 4096 * 4096 && start < end ==>
                    view == Some(Mapping(x, true, true, true, false, true, true)))
              && (x < 0x4000_0000 ==> view == Some(Mapping(x, true, true, false, false, true, true)))
              && (0x4000_0000 <= x < start ==> view == None)
              && (x >= (end + 4095) / 4096 * 4096 ==> view == None)
  {
    BootTranslates(base, n, start, end, x);
    ImageSpan(x, start, end);
  }

  // ---- Boot fits the default pool ----

  lemma {:induction false} FreeFalse(used: seq<bool>)
    requires |used| > 0 && used[0] && forall i | 1 <= i < |used| :: !used[i]
    ensures FreeTables(used) == |used| - 1
    decreases |used|
  {
    if |used| > 1 { FreeFalse(used[..|used| - 1]); }
  }

  /** Before the image is mapped nothing above the MMIO gigapage is. */
  lemma ImageStartsFree(base: Word, n: nat, start: Word, end: Word, i: nat)
    requires n >= 32 && base % 4096 == 0 && base + 4096 * n <= 0x100_0000_0000_0000 && BootLayout(start, end)
    requires i < ImagePages(start, end) && WellFormed(RootOnly(base, n))
    ensures WellFormed(MmioOnly(base, n)) && CellsOf(MmioOnly(base, n))(PageOf(start, i)) == Unmapped
  {
    BootLegal(base, n, start, end);
    BootHead(base, n, start, end);
    ImageAboveMmio(start, end, i);
    MmioIsLeaf();
    WriteChangesOneSlot(RootOnly(base, n), 0, 2, RawPte(0, LeafBits(PERM_RW)), PageOf(start, i));
  }

  /** With the default pool of 32 tables, boot never panics for an image of up to 14337 pages (56 MB). */
  lemma BootFits(base: Word, n: nat, start: Word, end: Word)
    requires n >= 32 && base % 4096 == 0 && base + 4096 * n <= 0x100_0000_0000_0000 && BootLayout(start, end)
    requires ImagePages(start, end) <= 14337
    ensures WellFormed(RootOnly(base, n)) && EnabledRun(RootOnly(base, n), BootOps(start, end))
    ensures Run(RootOnly(base, n), BootOps(start, end)).Some?
  {
    var p, k := RootOnly(base, n), ImagePages(start, end);
    BootLegal(base, n, start, end);
    BootHead(base, n, start, end);
    var q := MmioOnly(base, n);
    FreeFalse(p.used);
    if k >= 1 {
      forall i: nat | 0 <= i < k
        ensures CellsOf(q)(PageOf(start, i)).Mapped? ==> CellsOf(q)(PageOf(start, i)).level == 0
      {
        ImageStartsFree(base, n, start, end, i);
      }
      EnoughTables(q, start, start, k, PERM_RWX);
    }
  }

  // ---- Later runs keep the kernel's own tables reachable ----

  /** The operation writes no leaf span that meets the image. */
  ghost predicate Avoids(op: Op, start: Word, end: Word) {
    match op
    case MapOp(va, _, _, level) => forall y: Word | Canonical(y) && InImage(y, start, end) :: !SameSlot(y, va, level)
    case UnmapOp(va) => forall y: Word | Canonical(y) && InImage(y, start, end) :: !SameSlot(y, va, 0)
  }

  /** One such operation leaves the 4 KB leaves of the image alone. */
  lemma StepKeepsImage(p: Pool, op: Op, start: Word, end: Word, x: Word)
    requires WellFormed(p) && Enabled(p, op) && Avoids(op, start, end) && Step(p, op).Some?
    requires Canonical(x) && InImage(x, start, end) && CellAt(p, x).Mapped? && CellAt(p, x).level == 0
    ensures WellFormed(Step(p, op).value) && CellAt(Step(p, op).value, x) == CellAt(p, x)
  {
    match op
    case MapOp(va, pa, bits, level) =>
      MapRawEffect(p, va, pa, bits, level, x);
    case UnmapOp(va) =>
      UnmapEffect(p, va, x);
      if SameSlot(x, va, StopLevel(p, va)) { SameSlotStopsTogether(p, x, va); }
  }

  /** However a run remaps the rest, the leaves of the image survive it. */
  lemma {:induction false} RunKeepsImage(p: Pool, ops: seq<Op>, start: Word, end: Word, x: Word)
    requires WellFormed(p) && EnabledRun(p, ops) && Run(p, ops).Some?
    requires forall op | op in ops :: Avoids(op, start, end)
    requires Canonical(x) && InImage(x, start, end) && CellAt(p, x).Mapped? && CellAt(p, x).level == 0
    ensures CellAt(Run(p, ops).value, x) == CellAt(p, x)
    decreases |ops|
  {
    if ops != [] {
      StepKeepsImage(p, ops[0], start, end, x);
      RunKeepsImage(Step(p, ops[0]).value, ops[1..], start, end, x);
    }
  }

  /** After boot and any later run whose leaf spans avoid the image, every byte of the table pool (which lies in
      the image) is still mapped to its own physical address and writable, so the kernel's table pointers and
      the hardware walker name the same words. */
  lemma TablesStaySelfMapped(base: Word, n: nat, start: Word, end: Word, ops: seq<Op>, a: Word)
    requires n > 0 && base % 4096 == 0 && base + 4096 * n <= 0x100_0000_0000_0000 && BootLayout(start, end)
    requires start <= base && base + 4096 * n <= end && base <= a < base + 4096 * n
    requires forall op | op in ops :: Avoids(op, start, end)
    ensures WellFormed(RootOnly(base, n)) && EnabledRun(RootOnly(base, n), BootOps(start, end))
    ensures var r := Run(RootOnly(base, n), BootOps(start, end));
            r.Some? && EnabledRun(r.value, ops) && Run(r.value, ops).Some? ==>
              View(Run(r.value, ops).value, a) == Some(Mapping(a, true, true, true, false, true, true))
  {
    BootLegal(base, n, start, end);
    var boot := RootOnly(base, n);
    var r := Run(boot, BootOps(start, end));
    if r.Some? && EnabledRun(r.value, ops) && Run(r.value, ops).Some? {
      RunRefines(boot, CellsOf(boot), BootOps(start, end));
      BootCells(base, n, start, end, a);
      PoolInImage(base, n, start, end, a);
      assert CellAt(r.value, a) == BootCell(a, start, end);
      RunKeepsImage(r.value, ops, start, end, a);
      ViewOfCell(Run(r.value, ops).value, a);
      BootCellView(a, start, end);
    }
  }

  lemma PoolInImage(base: Word, n: nat, start: Word, end: Word, a: Word)
    requires BootLayout(start, end) && start <= base && base + 4096 * n <= end && base <= a < base + 4096 * n
    ensures InImage(a, start, end) && Canonical(a)
  {
  }
}
