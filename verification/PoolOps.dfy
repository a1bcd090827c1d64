/** The kernel mappers as functions on the pool, and their refinement of an abstract map from addresses to
    leaves: every operation changes the translation of exactly the span it writes. */
module PoolOps {
  import opened Words
  import opened Sv39
  import opened Pool
  import opened Cells

  /** No leaf sits above the target level on the way to va. The mappers follow any valid entry as a pointer,
      so a superpage leaf there would be taken for a table. */
  ghost predicate Clear(p: Pool, va: Word, level: Level)
    requires WellFormed(p)
  {
    StopLevel(p, va) > level ==> !V(StopEntry(p, va))
  }

  /** The descent of map_page and map_raw: allocate the missing tables above `level`; None is the panic of
      an exhausted pool. */
  ghost function Descend(p: Pool, va: Word, level: Level): (r: Option<Pool>)
    requires WellFormed(p) && Clear(p, va, level)
    ensures r.Some? ==> WellFormed(r.value) && Reach(r.value, va, level).Some?
    ensures r.Some? ==> r.value.base == p.base && r.value.root == p.root && |r.value.tables| == |p.tables|
    decreases StopLevel(p, va) as int
  {
    if StopLevel(p, va) <= level then
      ReachPrefix(p, va, StopLevel(p, va));
      Some(p)
    else match GrowAt(p, va)
      case None => None
      case Some(q) =>
        GrowHit(p, va, va);
        ZeroIsInvalid();
        Descend(q, va, level)
  }

  ghost function MapRaw(p: Pool, va: Word, pa: Word, bits: Word, level: Level): (r: Option<Pool>)
    requires WellFormed(p) && Clear(p, va, level) && (level == 0 || !IsBranch(RawPte(pa, bits)))
    ensures r.Some? ==> WellFormed(r.value)
  {
    match Descend(p, va, level)
    case None => None
    case Some(q) => Some(WriteAt(q, va, level, RawPte(pa, bits)))
  }

  ghost function Unmap(p: Pool, va: Word): (q: Pool)
    requires WellFormed(p)
    ensures WellFormed(q)
  {
    ZeroIsInvalid();
    if StopLevel(p, va) == 0 || V(StopEntry(p, va)) then WriteAt(p, va, StopLevel(p, va), 0) else p
  }

  /** Address of the entry z_riscv_mmu_pte_lookup returns; None is the null pointer. */
  ghost function Lookup(p: Pool, va: Word): Option<nat>
    requires WellFormed(p)
  {
    if StopLevel(p, va) > 0 && !V(StopEntry(p, va)) then None
    else Some(Addr(p, StopTable(p, va)) + 8 * Vpn(va, StopLevel(p, va)))
  }

  lemma {:induction false} DescendChangesNothing(p: Pool, va: Word, level: Level, x: Word)
    requires WellFormed(p) && Clear(p, va, level) && Descend(p, va, level).Some?
    ensures CellAt(Descend(p, va, level).value, x) == CellAt(p, x)
    decreases StopLevel(p, va) as int
  {
    if StopLevel(p, va) > level {
      GrowChangesNothing(p, va, x);
      GrowHit(p, va, va);
      ZeroIsInvalid();
      DescendChangesNothing(GrowAt(p, va).value, va, level, x);
    }
  }

  // ---- The abstract map ----

  type CellMap = Word -> Cell

  datatype Op =
    | MapOp(va: Word, pa: Word, bits: Word, level: Level)
    | UnmapOp(va: Word)

  /** What the source leaves to its callers: no leaf above the target level, and raw bits above level 0 that
      do not themselves form a pointer. */
  predicate Legal(m: CellMap, op: Op) {
    match op
    case MapOp(va, pa, bits, level) =>
      && (m(va).Mapped? ==> m(va).level <= level)
      && (level == 0 || !IsBranch(RawPte(pa, bits)))
    case UnmapOp(va) => true
  }

  /** A map re-points the addresses of one slot; an unmap drops the whole leaf covering its address. */
  function AbstractStep(m: CellMap, op: Op): CellMap {
    match op
    case MapOp(va, pa, bits, level) =>
      (x: Word) => if SameSlot(x, va, level) then CellOf(RawPte(pa, bits), level) else m(x)
    case UnmapOp(va) =>
      (x: Word) => if m(va).Mapped? && SameSlot(x, va, m(va).level) then Unmapped else m(x)
  }

  ghost predicate Implements(p: Pool, m: CellMap) {
    WellFormed(p) && forall x: Word :: CellAt(p, x) == m(x)
  }

  ghost predicate Enabled(p: Pool, op: Op)
    requires WellFormed(p)
  {
    op.MapOp? ==> Clear(p, op.va, op.level) && (op.level == 0 || !IsBranch(RawPte(op.pa, op.bits)))
  }

  ghost function Step(p: Pool, op: Op): Option<Pool>
    requires WellFormed(p) && Enabled(p, op)
  {
    match op
    case MapOp(va, pa, bits, level) => MapRaw(p, va, pa, bits, level)
    case UnmapOp(va) => Some(Unmap(p, va))
  }

  lemma LegalIsEnabled(p: Pool, m: CellMap, op: Op)
    requires Implements(p, m) && Legal(m, op)
    ensures Enabled(p, op)
  {
    if op.MapOp? { assert CellAt(p, op.va) == m(op.va); }
  }

  /** A raw map at any level keeps the pool well-formed and changes the cells of exactly the addresses in the
      leaf slot it writes. */
  lemma MapRawEffect(p: Pool, va: Word, pa: Word, bits: Word, level: Level, x: Word)
    requires WellFormed(p) && Clear(p, va, level)
    requires level == 0 || !IsBranch(RawPte(pa, bits))
    requires MapRaw(p, va, pa, bits, level).Some?
    ensures CellAt(MapRaw(p, va, pa, bits, level).value, x)
         == if SameSlot(x, va, level) then CellOf(RawPte(pa, bits), level) else CellAt(p, x)
  {
    DescendChangesNothing(p, va, level, x);
    WriteChangesOneSlot(Descend(p, va, level).value, va, level, RawPte(pa, bits), x);
  }

  /** The walk for a mapped address ends at the word that was asked for, the hardware translates the whole slot by
      that word, and every other address as before. */
  lemma MapRawTranslates(p: Pool, va: Word, pa: Word, bits: Word, level: Level)
    requires WellFormed(p) && Clear(p, va, level)
    requires level == 0 || !IsBranch(RawPte(pa, bits))
    requires MapRaw(p, va, pa, bits, level).Some?
    ensures var q := MapRaw(p, va, pa, bits, level).value;
      && StopLevel(q, va) == level && StopEntry(q, va) == RawPte(pa, bits)
      && forall x: Word | Canonical(x) ::
           View(q, x) == if SameSlot(x, va, level) then LeafView(RawPte(pa, bits), level, x) else View(p, x)
  {
    var q, d := MapRaw(p, va, pa, bits, level).value, Descend(p, va, level).value;
    WriteHit(d, va, level, RawPte(pa, bits), va);
    forall x: Word | Canonical(x)
      ensures View(q, x) == if SameSlot(x, va, level) then LeafView(RawPte(pa, bits), level, x) else View(p, x)
    {
      ViewIsStopEntry(q, x);
      if SameSlot(x, va, level) {
        WriteHit(d, va, level, RawPte(pa, bits), x);
      } else {
        MapRawEffect(p, va, pa, bits, level, x);
        ViewOfCell(q, x);
        ViewOfCell(p, x);
      }
    }
  }

  /** After an unmap nothing of the span that covered the address translates, and every other address as before. */
  lemma UnmapTranslates(p: Pool, va: Word, x: Word)
    requires WellFormed(p) && Canonical(x)
    ensures View(Unmap(p, va), x) == if SameSlot(x, va, StopLevel(p, va)) then None else View(p, x)
  {
    UnmapEffect(p, va, x);
    ViewOfCell(Unmap(p, va), x);
    ViewOfCell(p, x);
    if SameSlot(x, va, StopLevel(p, va)) { SameSlotStopsTogether(p, x, va); }
  }

  /** An unmap keeps the pool well-formed and invalidates exactly the span of the leaf covering va. */
  lemma UnmapEffect(p: Pool, va: Word, x: Word)
    requires WellFormed(p)
    ensures CellAt(Unmap(p, va), x)
         == if CellAt(p, va).Mapped? && SameSlot(x, va, StopLevel(p, va)) then Unmapped else CellAt(p, x)
  {
    ZeroIsInvalid();
    if StopLevel(p, va) == 0 || V(StopEntry(p, va)) {
      WriteChangesOneSlot(p, va, StopLevel(p, va), 0, x);
      if SameSlot(x, va, StopLevel(p, va)) { SameSlotStopsTogether(p, x, va); }
    }
  }

  /** Every operation refines the abstract step, at every address. */
  lemma StepRefines(p: Pool, m: CellMap, op: Op)
    requires Implements(p, m) && Legal(m, op)
    ensures Enabled(p, op)
    ensures Step(p, op).Some? ==> Implements(Step(p, op).value, AbstractStep(m, op))
  {
    LegalIsEnabled(p, m, op);
    if Step(p, op).Some? {
      var q := Step(p, op).value;
      match op
      case MapOp(va, pa, bits, level) =>
        forall x: Word ensures CellAt(q, x) == AbstractStep(m, op)(x) {
          MapRawEffect(p, va, pa, bits, level, x);
        }
      case UnmapOp(va) =>
        forall x: Word ensures CellAt(q, x) == AbstractStep(m, op)(x) {
          UnmapEffect(p, va, x);
        }
    }
  }

  // ---- Whole runs ----

  function AbstractRun(m: CellMap, ops: seq<Op>): CellMap
    decreases |ops|
  {
    if ops == [] then m else AbstractRun(AbstractStep(m, ops[0]), ops[1..])
  }

  predicate LegalRun(m: CellMap, ops: seq<Op>)
    decreases |ops|
  {
    ops == [] || (Legal(m, ops[0]) && LegalRun(AbstractStep(m, ops[0]), ops[1..]))
  }

  /** Each operation meets its precondition in the state in which it runs. */
  ghost predicate EnabledRun(p: Pool, ops: seq<Op>)
    requires WellFormed(p)
    decreases |ops|
  {
    ops == [] ||
    (Enabled(p, ops[0]) && (Step(p, ops[0]).Some? ==> EnabledRun(Step(p, ops[0]).value, ops[1..])))
  }

  /** The concrete run; None when the pool is exhausted on the way. */
  ghost function Run(p: Pool, ops: seq<Op>): (r: Option<Pool>)
    requires WellFormed(p) && EnabledRun(p, ops)
    ensures r.Some? ==> WellFormed(r.value)
    decreases |ops|
  {
    if ops == [] then Some(p)
    else match Step(p, ops[0])
      case None => None
      case Some(q) => Run(q, ops[1..])
  }

  /** The abstract map of a pool. */
  ghost function CellsOf(p: Pool): CellMap
  {
    (x: Word) => if WellFormed(p) then CellAt(p, x) else Unmapped
  }

  /** Over every run of maps at any level and unmaps the pool stays a stratified tree and its cells are the
      abstract map; legality can be read off the abstract map. */
  lemma {:induction false} RunRefines(p: Pool, m: CellMap, ops: seq<Op>)
    requires Implements(p, m) && LegalRun(m, ops)
    ensures EnabledRun(p, ops)
    ensures Run(p, ops).Some? ==> Implements(Run(p, ops).value, AbstractRun(m, ops))
    decreases |ops|
  {
    if ops != [] {
      StepRefines(p, m, ops[0]);
      if Step(p, ops[0]).Some? {
        RunRefines(Step(p, ops[0]).value, AbstractStep(m, ops[0]), ops[1..]);
      }
    }
  }

  /** Over every run, the Sv39 translation of every canonical address is what the abstract map says, and the
      hardware walker reads no word outside the pool. */
  lemma RunTranslates(p: Pool, ops: seq<Op>, x: Word)
    requires WellFormed(p) && LegalRun(CellsOf(p), ops) && Canonical(x)
    ensures EnabledRun(p, ops)
    ensures Run(p, ops).Some? ==>
              var q := Run(p, ops).value;
              && View(q, x) == CellView(AbstractRun(CellsOf(p), ops)(x), x)
              && HwWalk(q, Addr(q, q.root), x, 2) != AccessFault
  {
    RunRefines(p, CellsOf(p), ops);
    if Run(p, ops).Some? {
      var q := Run(p, ops).value;
      ViewOfCell(q, x);
      ViewIsStopEntry(q, x);
    }
  }

  // ---- Exhaustion of the pool ----

  function FreeTables(used: seq<bool>): nat {
    if used == [] then 0 else FreeTables(used[..|used| - 1]) + (if used[|used| - 1] then 0 else 1)
  }

  lemma {:induction false} FreeAfterTake(used: seq<bool>, k: nat)
    requires k < |used| && !used[k]
    ensures FreeTables(used) == FreeTables(used[k := true]) + 1
    decreases |used|
  {
    var n := |used| - 1;
    if k < n {
      FreeAfterTake(used[..n], k);
      assert used[k := true][..n] == used[..n][k := true];
    } else {
      assert used[k := true][..n] == used[..n];
    }
  }

  lemma {:induction false} NoneFree(used: seq<bool>)
    requires forall k | 0 <= k < |used| :: used[k]
    ensures FreeTables(used) == 0
    decreases |used|
  {
    if used != [] { NoneFree(used[..|used| - 1]); }
  }

  lemma GrowFree(p: Pool, t: nat, j: nat)
    requires WellFormed(p) && t < |p.tables| && p.used[t] && j < 512
    ensures Grow(p, t, j).None? <==> FreeTables(p.used) == 0
    ensures Grow(p, t, j).Some? ==> FreeTables(Grow(p, t, j).value.used) == FreeTables(p.used) - 1
  {
    var k := FirstFree(p.used, 0);
    if k < |p.used| { FreeAfterTake(p.used, k); } else { NoneFree(p.used); }
  }

  /** Tables the descent to `level` for va has to allocate. */
  ghost function Missing(p: Pool, va: Word, level: Level): nat
    requires WellFormed(p)
  {
    if StopLevel(p, va) <= level then 0 else StopLevel(p, va) - level
  }

  /** The panic of an exhausted pool is reached exactly when fewer tables are free than the walk is missing;
      otherwise exactly the missing ones are consumed. */
  lemma {:induction false} DescendConsumes(p: Pool, va: Word, level: Level)
    requires WellFormed(p) && Clear(p, va, level)
    ensures Descend(p, va, level).None? <==> FreeTables(p.used) < Missing(p, va, level)
    ensures Descend(p, va, level).Some? ==>
              FreeTables(Descend(p, va, level).value.used) == FreeTables(p.used) - Missing(p, va, level)
    decreases StopLevel(p, va) as int
  {
    if StopLevel(p, va) > level {
      GrowFree(p, StopTable(p, va), Vpn(va, StopLevel(p, va)));
      if GrowAt(p, va).Some? {
        GrowHit(p, va, va);
        ZeroIsInvalid();
        DescendConsumes(GrowAt(p, va).value, va, level);
      }
    }
  }

  // ---- The lookup ----

  /** z_riscv_mmu_pte_lookup returns the address of exactly the entry at which the section 4.3.2 walk ends,
      and null exactly when that is an invalid entry above level 0. */
  lemma LookupIsWalkEnd(p: Pool, va: Word)
    requires WellFormed(p)
    ensures var end := HwWalk(p, Addr(p, p.root), va, 2);
            && !end.AccessFault?
            && ReadPte(p, end.slot) == Some(end.pte)
            && Lookup(p, va) == if end.level > 0 && !V(end.pte) then None else Some(end.slot)
  {
    WalkEndFields(p, va);
    ReadAtTable(p, StopTable(p, va), Vpn(va, StopLevel(p, va)));
  }

  lemma SlotsDiffer(t: nat, j: nat, u: nat, i: nat)
    requires j < 512 && i < 512 && 4096 * t + 8 * j == 4096 * u + 8 * i
    ensures t == u && j == i
  {
  }

  /** Two addresses get the same entry pointer if and only if they lie in the same 4 KB, 2 MB or 1 GB span of
      the leaf. */
  lemma SameLookupIffSameSpan(p: Pool, x: Word, y: Word)
    requires WellFormed(p) && Canonical(x) && Canonical(y)
    requires Lookup(p, x).Some? && Lookup(p, y).Some?
    ensures Lookup(p, x) == Lookup(p, y) <==> x / Span(StopLevel(p, x)) == y / Span(StopLevel(p, x))
  {
    var l := StopLevel(p, x);
    SameSlotIsSameSpan(x, y, l);
    if Lookup(p, x) == Lookup(p, y) {
      SlotsDiffer(StopTable(p, x), Vpn(x, l), StopTable(p, y), Vpn(y, StopLevel(p, y)));
      ReachInjective(p, x, y, l);
    }
    if SameSlot(x, y, l) {
      SameSlotStopsTogether(p, y, x);
    }
  }
}
