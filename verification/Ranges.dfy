/** Page ranges: arch_mem_map and arch_mem_unmap as runs of single-page operations, their effect on the
    translation, and the restoration law. */
module Ranges {
  import opened Words
  import opened Sv39
  import opened Pool
  import opened Cells
  import opened PoolOps

  /** The address of the k-th page step from a, in wrapping `uintptr_t` arithmetic. */
  function PageOf(a: Word, k: nat): Word { Plus(a, 4096 * k) }

  /** Loop iterations of `for (off = 0; off < size; off += 4096)`. */
  function Pages(size: Word): nat { (size + 4095) / 4096 }

  lemma LoopGuard(size: Word, k: nat)
    ensures 4096 * k < size <==> k < Pages(size)
  {
  }

  /** The bits map_page adds to the caller's permissions. */
  function LeafBits(perm: Word): Word { Or(perm, 0xC1) }

  function MapOps(va: Word, pa: Word, k: nat, n: nat, perm: Word): seq<Op>
    decreases n - k
  {
    if k >= n then [] else [MapOp(PageOf(va, k), PageOf(pa, k), LeafBits(perm), 0)] + MapOps(va, pa, k + 1, n, perm)
  }

  function UnmapOps(va: Word, k: nat, n: nat): seq<Op>
    decreases n - k
  {
    if k >= n then [] else [UnmapOp(PageOf(va, k))] + UnmapOps(va, k + 1, n)
  }

  /** The number of the 4 KB page within the 39-bit space; it names a level-0 slot. */
  function PageKey(x: Word): nat { x / 4096 % 0x800_0000 }

  lemma SameSlotIsSameKey(x: Word, y: Word)
    ensures SameSlot(x, y, 0) <==> PageKey(x) == PageKey(y)
    ensures SameSlot(x, y, 1) <==> PageKey(x) / 0x200 == PageKey(y) / 0x200
    ensures SameSlot(x, y, 2) <==> PageKey(x) / 0x4_0000 == PageKey(y) / 0x4_0000
  {
    KeyDigits(x);
    KeyDigits(y);
  }

  lemma KeyDigits(x: Word)
    ensures PageKey(x) == Vpn(x, 2) * 0x4_0000 + Vpn(x, 1) * 0x200 + Vpn(x, 0)
    ensures PageKey(x) / 0x200 == Vpn(x, 2) * 0x200 + Vpn(x, 1)
    ensures PageKey(x) / 0x4_0000 == Vpn(x, 2)
  {
    var y := x / 4096;
    assert x / 0x20_0000 == y / 512;
    assert x / 0x4000_0000 == y / 512 / 512;
    Digits(y);
  }

  lemma Digits(y: nat)
    ensures y % 0x800_0000 == y / 512 / 512 % 512 * 0x4_0000 + y / 512 % 512 * 0x200 + y % 512
    ensures y % 0x800_0000 / 0x200 == y / 512 / 512 % 512 * 0x200 + y / 512 % 512
    ensures y % 0x800_0000 / 0x4_0000 == y / 512 / 512 % 512
  {
    var a := y / 512;
    var b := a / 512;
    var c := b / 512;
    var low := b % 512 * 0x4_0000 + a % 512 * 0x200 + y % 512;
    assert y == c * 0x800_0000 + low;
    ModMultiple(low, c);
    assert low / 0x200 == b % 512 * 0x200 + a % 512;
  }

  lemma KeyOfPage(a: Word, k: nat)
    ensures PageKey(PageOf(a, k)) == (a / 4096 + k) % 0x800_0000
  {
    var q := (a + 4096 * k) / 0x1_0000_0000_0000_0000;
    assert PageOf(a, k) == a + 4096 * k - q * 0x1_0000_0000_0000_0000;
    assert PageOf(a, k) / 4096 == a / 4096 + k - q * 0x10_0000_0000_0000;
    ModShift(a / 4096 + k, q);
  }

  lemma ModShift(n: nat, q: nat)
    requires n >= q * 0x10_0000_0000_0000
    ensures (n - q * 0x10_0000_0000_0000) % 0x800_0000 == n % 0x800_0000
  {
    assert q * 0x10_0000_0000_0000 == (q * 0x200_0000) * 0x800_0000;
    ModMultiple(n - q * 0x10_0000_0000_0000, q * 0x200_0000);
  }

  lemma ModMultiple(n: nat, c: nat)
    ensures (n + c * 0x800_0000) % 0x800_0000 == n % 0x800_0000
  {
  }

  /** The pages of a range no longer than the address space are pairwise distinct. */
  lemma DistinctPages(a: Word, i: nat, j: nat, n: nat)
    requires i < n && j < n && n <= 0x800_0000
    requires SameSlot(PageOf(a, i), PageOf(a, j), 0)
    ensures i == j
  {
    SameSlotIsSameKey(PageOf(a, i), PageOf(a, j));
    KeyOfPage(a, i);
    KeyOfPage(a, j);
    CongruentOffsets(a / 4096, i, j);
  }

  lemma CongruentOffsets(c: nat, i: nat, j: nat)
    requires i < 0x800_0000 && j < 0x800_0000 && (c + i) % 0x800_0000 == (c + j) % 0x800_0000
    ensures i == j
  {
    var r, q, s := (c + i) % 0x800_0000, (c + i) / 0x800_0000, (c + j) / 0x800_0000;
    assert c + i == 0x800_0000 * q + r && c + j == 0x800_0000 * s + r;
    assert i - j == 0x800_0000 * (q - s);
  }

  // ---- The abstract effect of a range ----

  /** x lies in page i of the range. */
  predicate InPage(x: Word, va: Word, i: nat) { SameSlot(x, PageOf(va, i), 0) }

  /** No page of the range lies under a superpage leaf. */
  ghost predicate ClearRange(m: CellMap, va: Word, k: nat, n: nat) {
    forall i: nat | k <= i < n :: m(PageOf(va, i)).Mapped? ==> m(PageOf(va, i)).level == 0
  }

  lemma {:induction false} MapOpsLegal(m: CellMap, va: Word, pa: Word, k: nat, n: nat, perm: Word)
    requires ClearRange(m, va, k, n)
    ensures LegalRun(m, MapOps(va, pa, k, n, perm))
    decreases n - k
  {
    if k < n {
      var ops := MapOps(va, pa, k, n, perm);
      assert ops[1..] == MapOps(va, pa, k + 1, n, perm);
      assert Legal(m, ops[0]);
      MapOpsLegal(AbstractStep(m, ops[0]), va, pa, k + 1, n, perm);
    }
  }

  lemma {:induction false} MapOpsOutside(m: CellMap, va: Word, pa: Word, k: nat, n: nat, perm: Word, x: Word)
    requires forall i: nat | k <= i < n :: !InPage(x, va, i)
    ensures AbstractRun(m, MapOps(va, pa, k, n, perm))(x) == m(x)
    decreases n - k
  {
    if k < n {
      var ops := MapOps(va, pa, k, n, perm);
      assert ops[1..] == MapOps(va, pa, k + 1, n, perm);
      assert !InPage(x, va, k);
      MapOpsOutside(AbstractStep(m, ops[0]), va, pa, k + 1, n, perm, x);
    }
  }

  lemma {:induction false} MapOpsInside(m: CellMap, va: Word, pa: Word, k: nat, n: nat, perm: Word, x: Word, i: nat)
    requires k <= i < n <= 0x800_0000 && InPage(x, va, i)
    ensures AbstractRun(m, MapOps(va, pa, k, n, perm))(x) == CellOf(LeafPte(PageOf(pa, i), perm), 0)
    decreases n - k
  {
    var ops := MapOps(va, pa, k, n, perm);
    assert ops[1..] == MapOps(va, pa, k + 1, n, perm);
    var m' := AbstractStep(m, ops[0]);
    if i == k {
      LeafIsRaw(PageOf(pa, k), perm);
      forall j: nat | k + 1 <= j < n ensures !InPage(x, va, j) {
        if InPage(x, va, j) { DistinctPages(va, i, j, n); }
      }
      MapOpsOutside(m', va, pa, k + 1, n, perm, x);
    } else {
      MapOpsInside(m', va, pa, k + 1, n, perm, x, i);
    }
  }

  lemma {:induction false} UnmapOpsLegal(m: CellMap, va: Word, k: nat, n: nat)
    ensures LegalRun(m, UnmapOps(va, k, n))
    decreases n - k
  {
    if k < n {
      var ops := UnmapOps(va, k, n);
      assert ops[1..] == UnmapOps(va, k + 1, n);
      UnmapOpsLegal(AbstractStep(m, ops[0]), va, k + 1, n);
    }
  }

  /** Over a range without superpages, the unmap run clears exactly the mapped pages of the range. */
  lemma {:induction false} UnmapOpsEffect(m: CellMap, va: Word, k: nat, n: nat, x: Word)
    requires ClearRange(m, va, k, n)
    requires forall y: Word, z: Word | SameSlot(y, z, 0) :: m(y) == m(z)
    ensures AbstractRun(m, UnmapOps(va, k, n))(x)
         == if exists i: nat :: k <= i < n && InPage(x, va, i) then Unmapped else m(x)
    decreases n - k
  {
    if k < n {
      var ops := UnmapOps(va, k, n);
      assert ops[1..] == UnmapOps(va, k + 1, n);
      var m' := AbstractStep(m, ops[0]);
      assert m(PageOf(va, k)).Mapped? ==> m(PageOf(va, k)).level == 0;
      forall y: Word, z: Word | SameSlot(y, z, 0) ensures m'(y) == m'(z) {
        assert m(y) == m(z);
      }
      UnmapOpsEffect(m', va, k + 1, n, x);
      if InPage(x, va, k) {
        assert m(x) == m(PageOf(va, k));
      }
    }
  }

  lemma {:induction false} UnmappedStays(m: CellMap, va: Word, k: nat, n: nat, x: Word)
    requires m(x) == Unmapped
    ensures AbstractRun(m, UnmapOps(va, k, n))(x) == Unmapped
    decreases n - k
  {
    if k < n {
      var ops := UnmapOps(va, k, n);
      assert ops[1..] == UnmapOps(va, k + 1, n);
      UnmappedStays(AbstractStep(m, ops[0]), va, k + 1, n, x);
    }
  }

  /** Whatever was mapped there, superpages included, no page of the range is mapped after the run. */
  lemma {:induction false} UnmapOpsInside(m: CellMap, va: Word, k: nat, n: nat, x: Word, i: nat)
    requires k <= i < n && InPage(x, va, i)
    requires forall y: Word, z: Word | SameSlot(y, z, 0) :: m(y) == m(z)
    ensures AbstractRun(m, UnmapOps(va, k, n))(x) == Unmapped
    decreases n - k
  {
    var ops := UnmapOps(va, k, n);
    assert ops[1..] == UnmapOps(va, k + 1, n);
    var m' := AbstractStep(m, ops[0]);
    if i == k {
      assert m(x) == m(PageOf(va, k));
      UnmappedStays(m', va, k + 1, n, x);
    } else {
      forall y: Word, z: Word | SameSlot(y, z, 0) ensures m'(y) == m'(z) {
        assert m(y) == m(z);
      }
      UnmapOpsInside(m', va, k + 1, n, x, i);
    }
  }

  /** A pool's cells do not distinguish addresses of one page. */
  lemma CellsRespectPages(p: Pool, y: Word, z: Word)
    requires WellFormed(p) && SameSlot(y, z, 0)
    ensures CellAt(p, y) == CellAt(p, z)
  {
    SameSlotStopsTogether(p, y, z);
  }

  // ---- arch_mem_map and arch_mem_unmap on pools ----

  ghost predicate RangeFree(p: Pool, va: Word, n: nat)
    requires WellFormed(p)
  {
    ClearRange(CellsOf(p), va, 0, n)
  }

  lemma MapRangeEnabled(p: Pool, va: Word, pa: Word, n: nat, perm: Word)
    requires WellFormed(p) && RangeFree(p, va, n)
    ensures EnabledRun(p, MapOps(va, pa, 0, n, perm))
  {
    MapOpsLegal(CellsOf(p), va, pa, 0, n, perm);
    RunRefines(p, CellsOf(p), MapOps(va, pa, 0, n, perm));
  }

  /** One iteration of the mapping loop. */
  lemma MapOpsHead(p: Pool, va: Word, pa: Word, k: nat, n: nat, perm: Word)
    requires WellFormed(p) && k < n && EnabledRun(p, MapOps(va, pa, k, n, perm))
    ensures Clear(p, PageOf(va, k), 0)
    ensures match MapRaw(p, PageOf(va, k), PageOf(pa, k), LeafBits(perm), 0)
            case None => Run(p, MapOps(va, pa, k, n, perm)) == None
            case Some(q) =>
              && EnabledRun(q, MapOps(va, pa, k + 1, n, perm))
              && Run(p, MapOps(va, pa, k, n, perm)) == Run(q, MapOps(va, pa, k + 1, n, perm))
  {
    var ops := MapOps(va, pa, k, n, perm);
    assert ops[1..] == MapOps(va, pa, k + 1, n, perm);
    assert Enabled(p, ops[0]);
  }

  lemma UnmapOpsHead(p: Pool, va: Word, k: nat, n: nat)
    requires WellFormed(p) && k < n && EnabledRun(p, UnmapOps(va, k, n))
    ensures EnabledRun(Unmap(p, PageOf(va, k)), UnmapOps(va, k + 1, n))
    ensures Run(p, UnmapOps(va, k, n)) == Run(Unmap(p, PageOf(va, k)), UnmapOps(va, k + 1, n))
  {
    var ops := UnmapOps(va, k, n);
    assert ops[1..] == UnmapOps(va, k + 1, n);
    assert ops[0] == UnmapOp(PageOf(va, k));
  }

  /** Every page of the range translates to its frame with the leaf's permissions, offset for offset, and the
      translation of every other address is untouched. */
  lemma MapRangeTranslates(p: Pool, va: Word, pa: Word, n: nat, perm: Word, x: Word)
    requires WellFormed(p) && RangeFree(p, va, n) && n <= 0x800_0000 && Canonical(x)
    ensures EnabledRun(p, MapOps(va, pa, 0, n, perm))
    ensures Run(p, MapOps(va, pa, 0, n, perm)).Some? ==>
              var q := Run(p, MapOps(va, pa, 0, n, perm)).value;
              && (forall i: nat | i < n && InPage(x, va, i) ::
                    View(q, x) == LeafView(LeafPte(PageOf(pa, i), perm), 0, x))
              && ((forall i: nat | i < n :: !InPage(x, va, i)) ==> View(q, x) == View(p, x))
  {
    var m, ops := CellsOf(p), MapOps(va, pa, 0, n, perm);
    MapOpsLegal(m, va, pa, 0, n, perm);
    RunTranslates(p, ops, x);
    ViewOfCell(p, x);
    forall i: nat | i < n && InPage(x, va, i)
      ensures AbstractRun(m, ops)(x) == CellOf(LeafPte(PageOf(pa, i), perm), 0)
    {
      MapOpsInside(m, va, pa, 0, n, perm, x, i);
    }
    if forall i: nat | i < n :: !InPage(x, va, i) {
      MapOpsOutside(m, va, pa, 0, n, perm, x);
    }
  }

  /** What a mapped leaf grants, for permissions R, W, X, U and frames below 2^56 aligned to the leaf's span:
      the frame plus the offset, the permissions asked for, and A and D preset. */
  lemma LeafGrants(pa: Word, perm: Word, l: Level, x: Word)
    requires pa < 0x100_0000_0000_0000 && perm < 1024 && R(perm) && pa / 4096 * 4096 % Span(l) == 0
    ensures LeafView(LeafPte(pa, perm), l, x)
         == Some(Mapping(pa / 4096 * 4096 + x % Span(l), true, W(perm), X(perm), U(perm), true, true))
  {
    LeafFlags(pa, perm);
    LeafFrame(pa, perm);
  }

  /** A page or superpage mapped with permissions: every address of its slot goes to the frame plus its offset with
      those permissions and A and D set, and every other address as before. */
  lemma LeafMapTranslates(p: Pool, va: Word, pa: Word, perm: Word, l: Level, x: Word)
    requires WellFormed(p) && Clear(p, va, l) && (l == 0 || !IsBranch(RawPte(pa, LeafBits(perm)))) && Canonical(x)
    requires MapRaw(p, va, pa, LeafBits(perm), l).Some?
    ensures var q := MapRaw(p, va, pa, LeafBits(perm), l).value;
      && (!SameSlot(x, va, l) ==> View(q, x) == View(p, x))
      && (SameSlot(x, va, l) && pa < 0x100_0000_0000_0000 && perm < 1024 && R(perm)
          && pa / 4096 * 4096 % Span(l) == 0 ==>
            View(q, x) == Some(Mapping(pa / 4096 * 4096 + x % Span(l), true, W(perm), X(perm), U(perm), true, true)))
  {
    MapRawTranslates(p, va, pa, LeafBits(perm), l);
    if pa < 0x100_0000_0000_0000 && perm < 1024 && R(perm) && pa / 4096 * 4096 % Span(l) == 0 {
      LeafIsRaw(pa, perm);
      LeafGrants(pa, perm, l, x);
    }
  }

  lemma LeafFlags(pa: Word, perm: Word)
    requires perm < 1024
    ensures var w := LeafPte(pa, perm);
            && V(w) && A(w) && D(w)
            && (R(w) <==> R(perm)) && (W(w) <==> W(perm)) && (X(w) <==> X(perm)) && (U(w) <==> U(perm))
  {
    LeafFlag(pa, perm, 0); LeafFlag(pa, perm, 1); LeafFlag(pa, perm, 2); LeafFlag(pa, perm, 3);
    LeafFlag(pa, perm, 4); LeafFlag(pa, perm, 6); LeafFlag(pa, perm, 7);
    VadFlags();
  }

  lemma VadFlags()
    ensures Bit(0xC1, 0) && Bit(0xC1, 6) && Bit(0xC1, 7)
    ensures !Bit(0xC1, 1) && !Bit(0xC1, 2) && !Bit(0xC1, 3) && !Bit(0xC1, 4)
  {
  }

  lemma LeafFrame(pa: Word, perm: Word)
    requires pa < 0x100_0000_0000_0000 && perm < 1024
    ensures Ppn(LeafPte(pa, perm)) == pa / 4096 && !ReservedBits(LeafPte(pa, perm))
  {
    VadFits(perm);
    LeafIsRaw(pa, perm);
    RawFields(pa, LeafBits(perm));
    assert pa / 4096 < 0x1000_0000_0000;
    FrameFields(pa / 4096, LeafBits(perm));
  }

  lemma VadFits(perm: Word)
    requires perm < 1024
    ensures LeafBits(perm) < 1024
  {
    Pow2Ten();
    OrBound(perm, 0xC1, 10);
  }

  lemma FrameFields(f: nat, bits: nat)
    requires f < 0x1000_0000_0000 && bits < 1024
    ensures (f * 1024 + bits) / 1024 % 0x1000_0000_0000 == f && (f * 1024 + bits) / 0x40_0000_0000_0000 == 0
  {
  }

  lemma LeafFlag(pa: Word, perm: Word, k: nat)
    requires perm < 1024 && k < 10
    ensures Bit(LeafPte(pa, perm), k) <==> Bit(perm, k) || Bit(0xC1, k)
  {
    VadFits(perm);
    LeafIsRaw(pa, perm);
    RawFields(pa, LeafBits(perm));
    OrBits(perm, 0xC1, k);
  }

  /** All ten flags of a leaf: the caller's, with V, A and D (bits 0, 6 and 7) added. */
  lemma LeafBitsAre(pa: Word, perm: Word)
    requires perm < 1024
    ensures forall k: nat | k < 10 :: Bit(LeafPte(pa, perm), k) <==> Bit(perm, k) || k in {0, 6, 7}
  {
    forall k: nat | k < 10 ensures Bit(LeafPte(pa, perm), k) <==> Bit(perm, k) || k in {0, 6, 7} {
      LeafFlag(pa, perm, k);
      VadFlags();
      assert !Bit(0xC1, 5) && !Bit(0xC1, 8) && !Bit(0xC1, 9);
    }
  }

  /** Unmapping a range that was unmapped before it was mapped restores the original translation exactly, at
      every address. */
  lemma UnmapRestores(p: Pool, va: Word, pa: Word, n: nat, perm: Word, x: Word)
    requires WellFormed(p) && n <= 0x800_0000 && Canonical(x)
    requires forall i: nat | i < n :: CellAt(p, PageOf(va, i)) == Unmapped
    ensures RangeFree(p, va, n) && EnabledRun(p, MapOps(va, pa, 0, n, perm))
    ensures Run(p, MapOps(va, pa, 0, n, perm)).Some? ==>
              var q := Run(p, MapOps(va, pa, 0, n, perm)).value;
              && EnabledRun(q, UnmapOps(va, 0, n))
              && Run(q, UnmapOps(va, 0, n)).Some?
              && View(Run(q, UnmapOps(va, 0, n)).value, x) == View(p, x)
  {
    var m, ops := CellsOf(p), MapOps(va, pa, 0, n, perm);
    assert RangeFree(p, va, n) by {
      forall i: nat | 0 <= i < n ensures m(PageOf(va, i)).Mapped? ==> m(PageOf(va, i)).level == 0 {
        assert CellAt(p, PageOf(va, i)) == Unmapped;
      }
    }
    MapOpsLegal(m, va, pa, 0, n, perm);
    RunRefines(p, m, ops);
    if Run(p, ops).Some? {
      var q := Run(p, ops).value;
      UnmapAfterMap(p, q, va, pa, n, perm, x);
    }
  }

  lemma {:induction false} UnmapNeverPanics(p: Pool, va: Word, k: nat, n: nat)
    requires WellFormed(p)
    ensures EnabledRun(p, UnmapOps(va, k, n)) && Run(p, UnmapOps(va, k, n)).Some?
    decreases n - k
  {
    if k < n {
      var ops := UnmapOps(va, k, n);
      assert ops[1..] == UnmapOps(va, k + 1, n);
      UnmapNeverPanics(Unmap(p, PageOf(va, k)), va, k + 1, n);
    }
  }

  /** No address of the range translates after the unmap; over a range without superpages every other address
      translates as before. */
  lemma UnmapRangeTranslates(p: Pool, va: Word, n: nat, x: Word)
    requires WellFormed(p) && Canonical(x)
    ensures EnabledRun(p, UnmapOps(va, 0, n)) && Run(p, UnmapOps(va, 0, n)).Some?
    ensures var q := Run(p, UnmapOps(va, 0, n)).value;
      && (forall i: nat | i < n && InPage(x, va, i) :: View(q, x) == None)
      && (RangeFree(p, va, n) && (forall i: nat | i < n :: !InPage(x, va, i)) ==> View(q, x) == View(p, x))
  {
    var m := CellsOf(p);
    UnmapNeverPanics(p, va, 0, n);
    UnmapOpsLegal(m, va, 0, n);
    RunRefines(p, m, UnmapOps(va, 0, n));
    var q := Run(p, UnmapOps(va, 0, n)).value;
    forall y: Word, z: Word | SameSlot(y, z, 0) ensures m(y) == m(z) { CellsRespectPages(p, y, z); }
    ViewOfCell(p, x);
    ViewOfCell(q, x);
    forall i: nat | i < n && InPage(x, va, i) ensures View(q, x) == None { UnmapOpsInside(m, va, 0, n, x, i); }
    if RangeFree(p, va, n) && forall i: nat | i < n :: !InPage(x, va, i) { UnmapOpsEffect(m, va, 0, n, x); }
  }

  lemma UnmapAfterMap(p: Pool, q: Pool, va: Word, pa: Word, n: nat, perm: Word, x: Word)
    requires WellFormed(p) && n <= 0x800_0000 && Canonical(x)
    requires forall i: nat | i < n :: CellAt(p, PageOf(va, i)) == Unmapped
    requires Implements(q, AbstractRun(CellsOf(p), MapOps(va, pa, 0, n, perm)))
    ensures EnabledRun(q, UnmapOps(va, 0, n)) && Run(q, UnmapOps(va, 0, n)).Some?
    ensures View(Run(q, UnmapOps(va, 0, n)).value, x) == View(p, x)
  {
    var m, m' := CellsOf(p), AbstractRun(CellsOf(p), MapOps(va, pa, 0, n, perm));
    UnmapNeverPanics(q, va, 0, n);
    assert ClearRange(m', va, 0, n) by {
      forall i: nat | 0 <= i < n ensures m'(PageOf(va, i)).Mapped? ==> m'(PageOf(va, i)).level == 0 {
        MapOpsInside(m, va, pa, 0, n, perm, PageOf(va, i), i);
      }
    }
    forall y: Word, z: Word | SameSlot(y, z, 0) ensures m'(y) == m'(z) {
      assert CellAt(q, y) == m'(y) && CellAt(q, z) == m'(z);
      CellsRespectPages(q, y, z);
    }
    UnmapOpsLegal(m', va, 0, n);
    RunRefines(q, m', UnmapOps(va, 0, n));
    UnmapOpsEffect(m', va, 0, n, x);
    var r := Run(q, UnmapOps(va, 0, n)).value;
    ViewOfCell(r, x);
    ViewOfCell(p, x);
    if i: nat :| i < n && InPage(x, va, i) {
      CellsRespectPages(p, x, PageOf(va, i));
      assert CellAt(p, PageOf(va, i)) == Unmapped;
    } else {
      MapOpsOutside(m, va, pa, 0, n, perm, x);
    }
  }
}
