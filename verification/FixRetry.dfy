/** Fix-and-retry page faults: an access by the hardware rules (section 4.3.2, steps 5 to 7, supervisor mode with
    SUM and MXR clear), the two handlers that repair the faulting entry, and how often a trace can fault. */
module FixRetry {
  import opened Words
  import opened Sv39
  import opened Pool
  import opened Cells
  import opened PoolOps

  datatype Kind = Load | Store | Fetch
  datatype Fixer = SuiteHandler | KernelResolver

  /** scause 12, 13 and 15. */
  predicate IsPageFault(scause: Word) { scause == 12 || scause == 13 || scause == 15 }

  function KindOf(scause: Word): Kind
    requires IsPageFault(scause)
  {
    if scause == 13 then Load else if scause == 15 then Store else Fetch
  }

  /** Steps 3 to 6 for a leaf at level l: valid, supervisor, aligned, and the access type permitted. */
  predicate Permits(w: Word, l: Level, k: Kind) {
    LeafView(w, l, 0).Some? && !U(w) && (match k case Load => R(w) case Store => W(w) case Fetch => X(w))
  }

  /** Step 7: A must be set, and D for a store. */
  predicate AdSet(w: Word, k: Kind) { A(w) && (k == Store ==> D(w)) }

  /** The access goes through: with hardware A/D updating (Svadu) whenever it is permitted, without it only if
      software has set the bits already. */
  predicate Succeeds(w: Word, l: Level, k: Kind, svadu: bool) { Permits(w, l, k) && (svadu || AdSet(w, k)) }

  /** The entry after a successful access. */
  function AfterAccess(w: Word, k: Kind): Word {
    if AdSet(w, k) then w else if k == Store then Or(w, 0xC0) else Or(w, 0x40)
  }

  /** The bits each handler ors into the entry. The suite's handler does it in two steps. */
  function FixMask(f: Fixer, k: Kind): Word {
    match f
    case SuiteHandler => (match k case Load => 0xC3 case Store => 0xC7 case Fetch => 0xCB)
    case KernelResolver => (match k case Load => 0x43 case Store => 0xC7 case Fetch => 0x4B)
  }

  function Fixed(w: Word, f: Fixer, k: Kind): Word { Or(w, FixMask(f, k)) }

  // ---- One entry ----

  /** Or-ing flags below the frame number keeps the frame, the reserved bits and every bit already set. */
  lemma OrFlags(w: Word, mask: Word)
    requires mask < 1024
    ensures Ppn(Or(w, mask)) == Ppn(w) && (ReservedBits(Or(w, mask)) <==> ReservedBits(w))
    ensures forall b: nat :: Bit(Or(w, mask), b) <==> Bit(w, b) || Bit(mask, b)
  {
    OrHighField(w, mask);
    assert mask / 1024 == 0;
    HighFieldDecides(w, Or(w, mask));
    forall b: nat ensures Bit(Or(w, mask), b) <==> Bit(w, b) || Bit(mask, b) { OrBits(w, mask, b); }
  }

  lemma HighFieldDecides(a: Word, b: Word)
    requires a / 1024 == b / 1024
    ensures Ppn(a) == Ppn(b) && (ReservedBits(a) <==> ReservedBits(b))
  {
    assert a / 0x40_0000_0000_0000 == a / 1024 / 0x1000_0000_0000;
    assert b / 0x40_0000_0000_0000 == b / 1024 / 0x1000_0000_0000;
  }

  lemma SuiteMasks()
    ensures Bit(0xC3, 0) && Bit(0xC3, 1) && !Bit(0xC3, 2) && !Bit(0xC3, 3) && !Bit(0xC3, 4) && Bit(0xC3, 6)
    ensures Bit(0xC7, 0) && Bit(0xC7, 1) && Bit(0xC7, 2) && !Bit(0xC7, 3) && !Bit(0xC7, 4)
    ensures Bit(0xC7, 6) && Bit(0xC7, 7)
    ensures Bit(0xCB, 0) && Bit(0xCB, 1) && !Bit(0xCB, 2) && Bit(0xCB, 3) && !Bit(0xCB, 4) && Bit(0xCB, 6)
  {
  }

  lemma KernelMasks()
    ensures Bit(0x43, 0) && Bit(0x43, 1) && !Bit(0x43, 2) && !Bit(0x43, 3) && !Bit(0x43, 4) && Bit(0x43, 6)
    ensures Bit(0x4B, 0) && Bit(0x4B, 1) && !Bit(0x4B, 2) && Bit(0x4B, 3) && !Bit(0x4B, 4) && Bit(0x4B, 6)
  {
  }

  lemma MaskBits(f: Fixer, k: Kind)
    ensures var m := FixMask(f, k);
            && m < 1024 && V(m) && R(m) && A(m) && !U(m)
            && (W(m) <==> k == Store) && (X(m) <==> k == Fetch) && (k == Store ==> D(m))
  {
    SuiteMasks();
    KernelMasks();
  }

  lemma AdMaskBits()
    ensures Bit(0x40, 6) && Bit(0xC0, 6) && Bit(0xC0, 7)
    ensures forall b: nat | b <= 4 :: !Bit(0x40, b) && !Bit(0xC0, b)
  {
    assert !Bit(0x40, 0) && !Bit(0x40, 1) && !Bit(0x40, 2) && !Bit(0x40, 3) && !Bit(0x40, 4);
    assert !Bit(0xC0, 0) && !Bit(0xC0, 1) && !Bit(0xC0, 2) && !Bit(0xC0, 3) && !Bit(0xC0, 4);
  }

  lemma SuiteMaskInTwoSteps(w: Word)
    ensures Or(Or(w, 0xC1), 0x2) == Or(w, 0xC3)
    ensures Or(Or(w, 0xC1), 0x6) == Or(w, 0xC7)
    ensures Or(Or(w, 0xC1), 0xA) == Or(w, 0xCB)
  {
    OrAssoc(w, 0xC1, 0x2);
    OrAssoc(w, 0xC1, 0x6);
    OrAssoc(w, 0xC1, 0xA);
    assert BitOr(0xC1, 0x2) == 0xC3 && BitOr(0xC1, 0x6) == 0xC7 && BitOr(0xC1, 0xA) == 0xCB;
  }

  /** Entry w with exactly these flags set besides its own. */
  ghost predicate Gains(w: Word, repaired: Word, flags: set<nat>) {
    forall b: nat :: Bit(repaired, b) <==> Bit(w, b) || b in flags
  }

  /** Bits 0 to 3 are V, R, W, X; bits 6 and 7 are A and D. */
  lemma MaskFlags(b: nat)
    ensures Bit(0x43, b) <==> b in {0, 1, 6}
    ensures Bit(0x4B, b) <==> b in {0, 1, 3, 6}
    ensures Bit(0xC3, b) <==> b in {0, 1, 6, 7}
    ensures Bit(0xC7, b) <==> b in {0, 1, 2, 6, 7}
    ensures Bit(0xCB, b) <==> b in {0, 1, 3, 6, 7}
  {
    if b < 8 { MaskLowFlags(b); } else {
      assert Pow2(8) == 256;
      NoHighBit(0x43, 8, b);
      NoHighBit(0x4B, 8, b);
      NoHighBit(0xC3, 8, b);
      NoHighBit(0xC7, 8, b);
      NoHighBit(0xCB, 8, b);
    }
  }

  lemma MaskLowFlags(b: nat)
    requires b < 8
    ensures Bit(0x43, b) <==> b in {0, 1, 6}
    ensures Bit(0x4B, b) <==> b in {0, 1, 3, 6}
    ensures Bit(0xC3, b) <==> b in {0, 1, 6, 7}
    ensures Bit(0xC7, b) <==> b in {0, 1, 2, 6, 7}
    ensures Bit(0xCB, b) <==> b in {0, 1, 3, 6, 7}
  {
    SuiteMasks();
    KernelMasks();
    assert !Bit(0x43, 5) && !Bit(0x4B, 5) && !Bit(0xC3, 5) && !Bit(0xC7, 5) && !Bit(0xCB, 5);
    assert !Bit(0x43, 7) && !Bit(0x4B, 7) && Bit(0xC3, 7) && Bit(0xC7, 7) && Bit(0xCB, 7);
  }

  /** What no handler repairs: a user page, a reserved high bit, a misaligned superpage frame. */
  predicate Fixable(w: Word, l: Level) {
    !U(w) && !ReservedBits(w) && Ppn(w) * 4096 % Span(l) == 0
  }

  /** One fix suffices exactly for the fixable entries, with both handlers, for every kind of access, with and
      without hardware A/D updating. The fix keeps the frame, only adds flags, and never leaves W without R. */
  lemma OneFixSuffices(w: Word, l: Level, f: Fixer, k: Kind, svadu: bool)
    ensures Succeeds(Fixed(w, f, k), l, k, svadu) <==> Fixable(w, l)
    ensures Ppn(Fixed(w, f, k)) == Ppn(w) && (Fixable(Fixed(w, f, k), l) <==> Fixable(w, l))
    ensures forall b: nat :: Bit(w, b) ==> Bit(Fixed(w, f, k), b)
    ensures R(Fixed(w, f, k)) && V(Fixed(w, f, k))
  {
    MaskBits(f, k);
    OrFlags(w, FixMask(f, k));
  }

  /** Bits gained from a fix or an access never take away a kind of access that already succeeded. */
  lemma GrowthKeepsSuccess(w: Word, mask: Word, l: Level, k: Kind, svadu: bool)
    requires mask < 1024 && !U(mask) && (W(mask) ==> R(mask)) && Succeeds(w, l, k, svadu)
    ensures Succeeds(Or(w, mask), l, k, svadu)
  {
    OrFlags(w, mask);
  }

  lemma AccessKeeps(w: Word, l: Level, k: Kind, j: Kind, svadu: bool)
    ensures Fixable(AfterAccess(w, k), l) <==> Fixable(w, l)
    ensures Succeeds(w, l, j, svadu) ==> Succeeds(AfterAccess(w, k), l, j, svadu)
    ensures V(AfterAccess(w, k)) <==> V(w)
    ensures HasXwr(w) ==> HasXwr(AfterAccess(w, k))
  {
    AdMaskBits();
    OrFlags(w, 0x40);
    OrFlags(w, 0xC0);
  }

  /** The kinds of access an entry still faults on. */
  function Need(w: Word, l: Level, svadu: bool): nat {
    (if Succeeds(w, l, Load, svadu) then 0 else 1)
    + (if Succeeds(w, l, Store, svadu) then 0 else 1)
    + (if Succeeds(w, l, Fetch, svadu) then 0 else 1)
  }

  lemma NeedAfterFix(w: Word, l: Level, f: Fixer, k: Kind, svadu: bool)
    requires Fixable(w, l) && !Succeeds(w, l, k, svadu)
    ensures Need(Fixed(w, f, k), l, svadu) < Need(w, l, svadu)
  {
    OneFixSuffices(w, l, f, k, svadu);
    MaskBits(f, k);
    forall j: Kind | Succeeds(w, l, j, svadu) ensures Succeeds(Fixed(w, f, k), l, j, svadu) {
      GrowthKeepsSuccess(w, FixMask(f, k), l, j, svadu);
    }
  }

  lemma NeedAfterAccess(w: Word, l: Level, k: Kind, svadu: bool)
    ensures Need(AfterAccess(w, k), l, svadu) <= Need(w, l, svadu)
  {
    AccessKeeps(w, l, k, Load, svadu);
    AccessKeeps(w, l, k, Store, svadu);
    AccessKeeps(w, l, k, Fetch, svadu);
  }

  // ---- On the pool ----

  /** Rewriting the entry where the walk for va stops. */
  ghost function Touch(p: Pool, va: Word, w: Word): (q: Pool)
    requires WellFormed(p) && (StopLevel(p, va) == 0 || !IsBranch(w))
    ensures WellFormed(q)
  {
    WriteAt(p, va, StopLevel(p, va), w)
  }

  lemma TouchEffect(p: Pool, va: Word, w: Word, x: Word)
    requires WellFormed(p) && (StopLevel(p, va) == 0 || !IsBranch(w))
    ensures StopLevel(Touch(p, va, w), x) == StopLevel(p, x)
    ensures StopEntry(Touch(p, va, w), x) == if SameSlot(x, va, StopLevel(p, va)) then w else StopEntry(p, x)
  {
    if SameSlot(x, va, StopLevel(p, va)) {
      SameSlotStopsTogether(p, x, va);
      WriteHit(p, va, StopLevel(p, va), w, x);
    } else {
      WriteMiss(p, va, StopLevel(p, va), w, x);
    }
  }

  ghost predicate AccessOk(p: Pool, va: Word, k: Kind, svadu: bool)
    requires WellFormed(p)
  {
    Canonical(va) && Succeeds(StopEntry(p, va), StopLevel(p, va), k, svadu)
  }

  /** What S-mode hardware does with a translation (section 4.3.1); without Svadu a clear A or D bit faults. */
  predicate Grants(view: Option<Mapping>, k: Kind, svadu: bool) {
    match view
    case None => false
    case Some(m) =>
      && !m.u && (match k case Load => m.r case Store => m.w case Fetch => m.x)
      && (svadu || (m.a && (k == Store ==> m.d)))
  }

  /** An access succeeds exactly when the hardware translation grants it. */
  lemma AccessIsHardware(p: Pool, va: Word, k: Kind, svadu: bool)
    requires WellFormed(p)
    ensures AccessOk(p, va, k, svadu) <==> Grants(View(p, va), k, svadu)
  {
    if Canonical(va) { ViewIsStopEntry(p, va); }
  }

  /** The pages the handlers can serve: a fixable entry, which for the kernel's resolver must not be an invalid
      one above level 0 (there the lookup is null and the fault stays fatal). */
  ghost predicate Servable(p: Pool, va: Word, f: Fixer)
    requires WellFormed(p)
  {
    && Canonical(va) && Fixable(StopEntry(p, va), StopLevel(p, va))
    && (f.KernelResolver? ==> Lookup(p, va).Some?)
  }

  /** What a handler makes of the tables: the repaired entry, or nothing where the kernel's lookup is null. */
  ghost function FixAt(p: Pool, va: Word, f: Fixer, k: Kind): (q: Pool)
    requires WellFormed(p)
    ensures WellFormed(q)
  {
    OneFixSuffices(StopEntry(p, va), StopLevel(p, va), f, k, true);
    if f.KernelResolver? && Lookup(p, va).None? then p else Touch(p, va, Fixed(StopEntry(p, va), f, k))
  }

  ghost function AccessAt(p: Pool, va: Word, k: Kind, svadu: bool): (q: Pool)
    requires WellFormed(p) && AccessOk(p, va, k, svadu)
    ensures WellFormed(q)
  {
    AccessKeeps(StopEntry(p, va), StopLevel(p, va), k, k, svadu);
    Touch(p, va, AfterAccess(StopEntry(p, va), k))
  }

  /** After one fix the retried access goes through for exactly the servable addresses; and every address outside
      the slot of the repaired entry translates as before. */
  lemma RetrySucceeds(p: Pool, va: Word, f: Fixer, k: Kind, svadu: bool, x: Word)
    requires WellFormed(p) && Canonical(va) && Canonical(x)
    ensures AccessOk(FixAt(p, va, f, k), va, k, svadu) <==> Servable(p, va, f)
    ensures !SameSlot(x, va, StopLevel(p, va)) ==> View(FixAt(p, va, f, k), x) == View(p, x)
  {
    var w := Fixed(StopEntry(p, va), f, k);
    OneFixSuffices(StopEntry(p, va), StopLevel(p, va), f, k, svadu);
    TouchEffect(p, va, w, va);
    TouchEffect(p, va, w, x);
    ViewIsStopEntry(p, x);
    ViewIsStopEntry(FixAt(p, va, f, k), x);
  }

  /** The same by the hardware's own rules. */
  lemma RepairGrants(p: Pool, va: Word, f: Fixer, k: Kind, svadu: bool)
    requires WellFormed(p) && Canonical(va)
    ensures Grants(View(FixAt(p, va, f, k), va), k, svadu) <==> Servable(p, va, f)
  {
    RetrySucceeds(p, va, f, k, svadu, va);
    AccessIsHardware(FixAt(p, va, f, k), va, k, svadu);
  }

  lemma FixGains(w: Word, f: Fixer, scause: Word)
    requires IsPageFault(scause)
    ensures scause == 13 ==>
              Gains(w, Fixed(w, f, KindOf(scause)), if f.SuiteHandler? then {0, 1, 6, 7} else {0, 1, 6})
    ensures scause == 15 ==> Gains(w, Fixed(w, f, KindOf(scause)), {0, 1, 2, 6, 7})
    ensures scause == 12 ==>
              Gains(w, Fixed(w, f, KindOf(scause)), if f.SuiteHandler? then {0, 1, 3, 6, 7} else {0, 1, 3, 6})
  {
    var m := FixMask(f, KindOf(scause));
    forall b: nat ensures Bit(Or(w, m), b) <==> Bit(w, b) || Bit(m, b) { OrBits(w, m, b); }
    forall b: nat ensures scause == 13 ==> (Bit(m, b) <==> b in if f.SuiteHandler? then {0, 1, 6, 7} else {0, 1, 6}) {
      MaskFlags(b);
    }
    forall b: nat ensures scause == 15 ==> (Bit(m, b) <==> b in {0, 1, 2, 6, 7}) { MaskFlags(b); }
    forall b: nat
      ensures scause == 12 ==> (Bit(m, b) <==> b in if f.SuiteHandler? then {0, 1, 3, 6, 7} else {0, 1, 3, 6})
    {
      MaskFlags(b);
    }
  }

  /** The repair by its cause: which flags the entry gains, and that the access which faulted is granted afterwards. */
  lemma RepairByCause(p: Pool, va: Word, f: Fixer, scause: Word)
    requires WellFormed(p) && IsPageFault(scause) && (f.KernelResolver? ==> Lookup(p, va).Some?)
    ensures var q, w := FixAt(p, va, f, KindOf(scause)), StopEntry(p, va);
      && StopLevel(q, va) == StopLevel(p, va)
      && (scause == 13 ==> Gains(w, StopEntry(q, va), if f.SuiteHandler? then {0, 1, 6, 7} else {0, 1, 6}))
      && (scause == 15 ==> Gains(w, StopEntry(q, va), {0, 1, 2, 6, 7}))
      && (scause == 12 ==> Gains(w, StopEntry(q, va), if f.SuiteHandler? then {0, 1, 3, 6, 7} else {0, 1, 3, 6}))
    ensures var view := View(FixAt(p, va, f, KindOf(scause)), va);
      Servable(p, va, f) ==> forall svadu: bool ::
        && (scause == 13 ==> Grants(view, Load, svadu))
        && (scause == 15 ==> Grants(view, Store, svadu))
        && (scause == 12 ==> Grants(view, Fetch, svadu))
  {
    var w, k := StopEntry(p, va), KindOf(scause);
    FixGains(w, f, scause);
    OneFixSuffices(w, StopLevel(p, va), f, k, true);
    TouchEffect(p, va, Fixed(w, f, k), va);
    forall svadu: bool | Servable(p, va, f) ensures Grants(View(FixAt(p, va, f, k), va), k, svadu) {
      RepairGrants(p, va, f, k, svadu);
    }
  }

  /** Execute one access under fix-and-retry; the number says how many faults it took. */
  ghost function Serve(p: Pool, va: Word, k: Kind, f: Fixer, svadu: bool): (r: (Pool, nat))
    requires WellFormed(p) && Servable(p, va, f)
    ensures WellFormed(r.0)
  {
    if AccessOk(p, va, k, svadu) then (AccessAt(p, va, k, svadu), 0)
    else
      RetrySucceeds(p, va, f, k, svadu, va);
      (AccessAt(FixAt(p, va, f, k), va, k, svadu), 1)
  }

  ghost function NeedAt(p: Pool, x: Word, svadu: bool): nat
    requires WellFormed(p)
  {
    Need(StopEntry(p, x), StopLevel(p, x), svadu)
  }

  lemma AccessAtKeeps(p: Pool, va: Word, k: Kind, svadu: bool, x: Word, f: Fixer)
    requires WellFormed(p) && AccessOk(p, va, k, svadu)
    ensures StopLevel(AccessAt(p, va, k, svadu), x) == StopLevel(p, x)
    ensures Servable(p, x, f) ==> Servable(AccessAt(p, va, k, svadu), x, f)
    ensures NeedAt(AccessAt(p, va, k, svadu), x, svadu) <= NeedAt(p, x, svadu)
    ensures !SameSlot(x, va, StopLevel(p, va)) ==> StopEntry(AccessAt(p, va, k, svadu), x) == StopEntry(p, x)
  {
    var w, l := StopEntry(p, va), StopLevel(p, va);
    AccessKeeps(w, l, k, k, svadu);
    NeedAfterAccess(w, l, k, svadu);
    TouchEffect(p, va, AfterAccess(w, k), x);
    if SameSlot(x, va, l) { SameSlotStopsTogether(p, x, va); }
  }

  lemma FixAtKeeps(p: Pool, va: Word, k: Kind, svadu: bool, x: Word, f: Fixer)
    requires WellFormed(p) && Servable(p, va, f) && !AccessOk(p, va, k, svadu)
    ensures StopLevel(FixAt(p, va, f, k), x) == StopLevel(p, x)
    ensures Servable(p, x, f) ==> Servable(FixAt(p, va, f, k), x, f)
    ensures !SameSlot(x, va, StopLevel(p, va)) ==> StopEntry(FixAt(p, va, f, k), x) == StopEntry(p, x)
    ensures if SameSlot(x, va, StopLevel(p, va)) then NeedAt(FixAt(p, va, f, k), x, svadu) < NeedAt(p, x, svadu)
            else NeedAt(FixAt(p, va, f, k), x, svadu) == NeedAt(p, x, svadu)
  {
    var w, l := StopEntry(p, va), StopLevel(p, va);
    OneFixSuffices(w, l, f, k, svadu);
    NeedAfterFix(w, l, f, k, svadu);
    TouchEffect(p, va, Fixed(w, f, k), x);
    if SameSlot(x, va, l) { SameSlotStopsTogether(p, x, va); }
  }

  /** One served access: x stays servable, its need never grows, and it shrinks with every fault on its entry. */
  lemma ServeKeeps(p: Pool, va: Word, k: Kind, f: Fixer, svadu: bool, x: Word)
    requires WellFormed(p) && Servable(p, va, f)
    ensures var r := Serve(p, va, k, f, svadu);
            && StopLevel(r.0, x) == StopLevel(p, x)
            && (Servable(p, x, f) ==> Servable(r.0, x, f))
            && NeedAt(r.0, x, svadu) + (if SameSlot(x, va, StopLevel(p, va)) then r.1 else 0) <= NeedAt(p, x, svadu)
            && (!SameSlot(x, va, StopLevel(p, va)) ==> StopEntry(r.0, x) == StopEntry(p, x))
  {
    if AccessOk(p, va, k, svadu) {
      AccessAtKeeps(p, va, k, svadu, x, f);
    } else {
      RetrySucceeds(p, va, f, k, svadu, va);
      FixAtKeeps(p, va, k, svadu, x, f);
      FixAtKeeps(p, va, k, svadu, va, f);
      AccessAtKeeps(FixAt(p, va, f, k), va, k, svadu, x, f);
    }
  }

  /** Two views of a page that grant the same accesses. */
  predicate SameGrants(m: Option<Mapping>, n: Option<Mapping>, svadu: bool) {
    forall k: Kind :: Grants(m, k, svadu) <==> Grants(n, k, svadu)
  }

  /** Setting A and D takes no permission away and gives none. */
  lemma AccessGrantsNothing(w: Word, l: Level, k: Kind, j: Kind, svadu: bool)
    requires Succeeds(w, l, k, svadu)
    ensures Succeeds(AfterAccess(w, k), l, j, svadu) <==> Succeeds(w, l, j, svadu)
  {
    AdMaskBits();
    OrFlags(w, 0x40);
    OrFlags(w, 0xC0);
  }

  lemma SameGrantsAfterAccess(p: Pool, va: Word, k: Kind, svadu: bool, x: Word)
    requires WellFormed(p) && AccessOk(p, va, k, svadu)
    ensures SameGrants(View(AccessAt(p, va, k, svadu), x), View(p, x), svadu)
  {
    var w, l := StopEntry(p, va), StopLevel(p, va);
    var q := AccessAt(p, va, k, svadu);
    AccessKeeps(w, l, k, k, svadu);
    TouchEffect(p, va, AfterAccess(w, k), x);
    if SameSlot(x, va, l) { SameSlotStopsTogether(p, x, va); }
    forall j: Kind ensures Grants(View(q, x), j, svadu) <==> Grants(View(p, x), j, svadu) {
      AccessGrantsNothing(w, l, k, j, svadu);
      AccessIsHardware(p, x, j, svadu);
      AccessIsHardware(q, x, j, svadu);
    }
  }

  // ---- Traces of accesses ----

  datatype Request = Request(va: Word, kind: Kind)

  ghost predicate AllServable(p: Pool, reqs: seq<Request>, f: Fixer)
    requires WellFormed(p)
  {
    forall r | r in reqs :: Servable(p, r.va, f)
  }

  /** Every request of the trace stays servable while the trace runs, so the trace runs to its end. */
  lemma TraceContinues(p: Pool, reqs: seq<Request>, f: Fixer, svadu: bool)
    requires WellFormed(p) && reqs != [] && AllServable(p, reqs, f)
    ensures AllServable(Serve(p, reqs[0].va, reqs[0].kind, f, svadu).0, reqs[1..], f)
  {
    forall r | r in reqs[1..] ensures Servable(Serve(p, reqs[0].va, reqs[0].kind, f, svadu).0, r.va, f) {
      ServeKeeps(p, reqs[0].va, reqs[0].kind, f, svadu, r.va);
    }
  }

  /** Faults of a whole trace. */
  ghost function Faults(p: Pool, reqs: seq<Request>, f: Fixer, svadu: bool): nat
    requires WellFormed(p) && AllServable(p, reqs, f)
    decreases |reqs|
  {
    if reqs == [] then 0
    else
      TraceContinues(p, reqs, f, svadu);
      var r := Serve(p, reqs[0].va, reqs[0].kind, f, svadu);
      r.1 + Faults(r.0, reqs[1..], f, svadu)
  }

  /** The faults among them that hit the entry translating x. */
  ghost function FaultsOn(p: Pool, reqs: seq<Request>, f: Fixer, svadu: bool, x: Word): nat
    requires WellFormed(p) && AllServable(p, reqs, f)
    decreases |reqs|
  {
    if reqs == [] then 0
    else
      TraceContinues(p, reqs, f, svadu);
      var r := Serve(p, reqs[0].va, reqs[0].kind, f, svadu);
      (if SameSlot(x, reqs[0].va, StopLevel(p, reqs[0].va)) then r.1 else 0) + FaultsOn(r.0, reqs[1..], f, svadu, x)
  }

  /** Whatever the trace, each page faults at most as often as it has kinds of access still missing: never more
      than three times in all. */
  lemma {:induction false} AtMostThreeFaultsPerPage(p: Pool, reqs: seq<Request>, f: Fixer, svadu: bool, x: Word)
    requires WellFormed(p) && AllServable(p, reqs, f)
    ensures FaultsOn(p, reqs, f, svadu, x) <= NeedAt(p, x, svadu) <= 3
    decreases |reqs|
  {
    if reqs != [] {
      TraceContinues(p, reqs, f, svadu);
      ServeKeeps(p, reqs[0].va, reqs[0].kind, f, svadu, x);
      AtMostThreeFaultsPerPage(Serve(p, reqs[0].va, reqs[0].kind, f, svadu).0, reqs[1..], f, svadu, x);
    }
  }

  /** The requests hit pairwise different entries, all of them invalid. */
  ghost predicate ColdAndDistinct(p: Pool, reqs: seq<Request>)
    requires WellFormed(p)
  {
    && (forall i | 0 <= i < |reqs| :: !V(StopEntry(p, reqs[i].va)))
    && (forall i, j | 0 <= i < j < |reqs| :: !SameSlot(reqs[j].va, reqs[i].va, StopLevel(p, reqs[i].va)))
  }

  /** First accesses to n distinct invalid pages take exactly n faults, for every n. */
  lemma {:induction false} ColdPagesFaultOnceEach(p: Pool, reqs: seq<Request>, f: Fixer, svadu: bool)
    requires WellFormed(p) && AllServable(p, reqs, f) && ColdAndDistinct(p, reqs)
    ensures Faults(p, reqs, f, svadu) == |reqs|
    decreases |reqs|
  {
    if reqs != [] {
      TraceContinues(p, reqs, f, svadu);
      var q := Serve(p, reqs[0].va, reqs[0].kind, f, svadu).0;
      var rest := reqs[1..];
      forall i | 0 <= i < |rest|
        ensures !V(StopEntry(q, rest[i].va)) && StopLevel(q, rest[i].va) == StopLevel(p, rest[i].va)
      {
        assert rest[i] == reqs[i + 1];
        ServeKeeps(p, reqs[0].va, reqs[0].kind, f, svadu, rest[i].va);
      }
      forall i, j | 0 <= i < j < |rest| ensures !SameSlot(rest[j].va, rest[i].va, StopLevel(q, rest[i].va)) {
        assert rest[i] == reqs[i + 1] && rest[j] == reqs[j + 1];
      }
      ColdPagesFaultOnceEach(q, rest, f, svadu);
    }
  }

  // ---- Where a repair goes too far ----

  /** Only the faulting page may change. */
  ghost predicate OthersKept(p: Pool, va: Word, f: Fixer, k: Kind)
    requires WellFormed(p)
  {
    forall x: Word | Canonical(x) && !SameSlot(x, va, 0) :: View(FixAt(p, va, f, k), x) == View(p, x)
  }

  /** For either handler and every fault it serves, only the faulting page changes exactly when the walk reached a
      level-0 entry. Above it the repair forges a superpage from an invalid entry, or widens the whole of a valid
      one. */
  lemma FixIsLocalIff(p: Pool, va: Word, f: Fixer, k: Kind, svadu: bool)
    requires WellFormed(p) && Servable(p, va, f) && !AccessOk(p, va, k, svadu)
    ensures OthersKept(p, va, f, k) <==> StopLevel(p, va) == 0
  {
    if StopLevel(p, va) == 0 {
      forall x: Word | Canonical(x) && !SameSlot(x, va, 0) ensures View(FixAt(p, va, f, k), x) == View(p, x) {
        RetrySucceeds(p, va, f, k, svadu, x);
      }
    } else {
      NeighbourShares(va, StopLevel(p, va));
      SuperpageWidened(p, va, f, k, svadu);
    }
  }

  /** Above level 0 a page nobody touched gains the very access that faulted. */
  lemma SuperpageWidened(p: Pool, va: Word, f: Fixer, k: Kind, svadu: bool)
    requires WellFormed(p) && Servable(p, va, f) && !AccessOk(p, va, k, svadu) && StopLevel(p, va) > 0
    ensures !Grants(View(p, Neighbour(va)), k, svadu)
    ensures Grants(View(FixAt(p, va, f, k), Neighbour(va)), k, svadu)
  {
    var l, x := StopLevel(p, va), Neighbour(va);
    NeighbourShares(va, l);
    SameSlotStopsTogether(p, x, va);
    OneFixSuffices(StopEntry(p, va), l, f, k, svadu);
    TouchEffect(p, va, Fixed(StopEntry(p, va), f, k), x);
    AccessIsHardware(p, x, k, svadu);
    AccessIsHardware(FixAt(p, va, f, k), x, k, svadu);
  }

  /** A page of the same 2 MB span. */
  function Neighbour(va: Word): Word {
    if Vpn(va, 0) == 0 then va + 4096 else va - 4096
  }

  lemma NeighbourShares(va: Word, l: Level)
    requires Canonical(va) && l > 0
    ensures Canonical(Neighbour(va)) && SameSlot(Neighbour(va), va, l) && !SameSlot(Neighbour(va), va, 0)
  {
    var x := Neighbour(va);
    VpnDecomposes(va);
    VpnDecomposes(x);
    assert x / 0x20_0000 == va / 0x20_0000;
    assert x / 0x4000_0000 == va / 0x4000_0000;
  }
}
