/** Sv39 page-table entries and the address translation process of the RISC-V Privileged
    Architecture v1.12 (sections 4.3.2 and 4.4.1), written from the standard and independent of the mappers,
    together with the packing helpers of the kernel's mmu.c. */
module Sv39 {
  import opened Words

  const PAGE_SIZE: nat := 4096
  const PT_ENTRIES: nat := 512

  /** Table level: 2 is the root, 0 holds the 4 KB leaves. */
  type Level = l: int | 0 <= l < 3

  // ---- Entry flags ----

  const PTE_V: Word := 0x001
  const PTE_R: Word := 0x002
  const PTE_W: Word := 0x004
  const PTE_X: Word := 0x008
  const PTE_U: Word := 0x010
  const PTE_A: Word := 0x040
  const PTE_D: Word := 0x080

  predicate V(w: Word) { Bit(w, 0) }
  predicate R(w: Word) { Bit(w, 1) }
  predicate W(w: Word) { Bit(w, 2) }
  predicate X(w: Word) { Bit(w, 3) }
  predicate U(w: Word) { Bit(w, 4) }
  predicate A(w: Word) { Bit(w, 6) }
  predicate D(w: Word) { Bit(w, 7) }

  /** The mappers' own test for a leaf, `*pte & PTE_XWR`. */
  predicate HasXwr(w: Word) { R(w) || W(w) || X(w) }

  /** An entry the mappers follow as a pointer to the next table. */
  predicate IsBranch(w: Word) { V(w) && !HasXwr(w) }

  // ---- Packing, as mmu.c does it ----

  function PhysToPpn(pa: Word): Word { pa / 4096 * 1024 }

  function PteToPhys(w: Word): Word { w / 1024 * 4096 % 0x1_0000_0000_0000_0000 }

  function BranchPte(table: Word): Word { Or(PhysToPpn(table), PTE_V) }

  function RawPte(pa: Word, bits: Word): Word { Or(PhysToPpn(pa), bits) }

  function LeafPte(pa: Word, perm: Word): Word {
    Or(Or(Or(Or(PhysToPpn(pa), perm), PTE_V), PTE_A), PTE_D)
  }

  // ---- Addresses ----

  /** Bytes covered by a leaf at the given level: 4 KB, 2 MB or 1 GB. */
  function Span(l: Level): nat {
    if l == 0 then 0x1000 else if l == 1 then 0x20_0000 else 0x4000_0000
  }

  function Vpn(va: Word, l: Level): (j: nat)
    ensures j < 512
  {
    va / Span(l) % 512
  }

  /** Section 4.4.1: bits 63 to 39 of a virtual address must all equal bit 38. */
  predicate Canonical(va: Word) {
    va < 0x40_0000_0000 || va >= 0x1_0000_0000_0000_0000 - 0x40_0000_0000
  }

  /** Both addresses are translated by the same level-l slot of the tree. */
  predicate SameSlot(x: Word, y: Word, l: Level) {
    Vpn(x, 2) == Vpn(y, 2) && (l <= 1 ==> Vpn(x, 1) == Vpn(y, 1)) && (l == 0 ==> Vpn(x, 0) == Vpn(y, 0))
  }

  /** For canonical addresses a shared slot is a shared 4 KB, 2 MB or 1 GB span. */
  lemma SameSlotIsSameSpan(x: Word, y: Word, l: Level)
    requires Canonical(x) && Canonical(y)
    ensures SameSlot(x, y, l) <==> x / Span(l) == y / Span(l)
  {
    VpnDecomposes(x);
    VpnDecomposes(y);
  }

  lemma VpnDecomposes(x: Word)
    requires Canonical(x)
    ensures var hi := if x < 0x40_0000_0000 then 0 else 0x1FF_FFFF;
            x / Span(2) == 512 * hi + Vpn(x, 2)
    ensures x / Span(1) == 512 * (x / Span(2)) + Vpn(x, 1)
    ensures x / Span(0) == 512 * (x / Span(1)) + Vpn(x, 0)
    ensures (x < 0x40_0000_0000) == (Vpn(x, 2) < 256)
  {
  }

  // ---- What a leaf grants ----

  function Ppn(w: Word): nat { w / 1024 % 0x1000_0000_0000 }

  /** Bits 63 to 54: reserved without Svnapot and Svpbmt, and must be zero. */
  predicate ReservedBits(w: Word) { w / 0x40_0000_0000_0000 != 0 }

  /** The translation of one virtual address: its physical address and the leaf's permission and status bits. */
  datatype Mapping = Mapping(pa: nat, r: bool, w: bool, x: bool, u: bool, a: bool, d: bool)
  datatype Option<+T> = None | Some(value: T)

  /** Section 4.3.2, step 8: the frame of the leaf plus the offset within its span. */
  function Grant(w: Word, l: Level, va: Word): Mapping {
    Mapping(Ppn(w) * 4096 + va % Span(l), R(w), W(w), X(w), U(w), A(w), D(w))
  }

  /** What the walk makes of va when it ends at entry w of a level-l table (steps 3 to 6 and 8):
      nothing when w is invalid, reserved, a pointer, or a misaligned superpage. */
  function LeafView(w: Word, l: Level, va: Word): Option<Mapping> {
    if !V(w) || (!R(w) && W(w)) || ReservedBits(w) then None
    else if !R(w) && !X(w) then None
    else if Ppn(w) * 4096 % Span(l) != 0 then None
    else Some(Grant(w, l, va))
  }

  // ---- Field laws ----

  lemma LowBitsOfAligned(x: nat, k: nat)
    requires k < 10
    ensures !Bit(1024 * x, k)
  {
    var e := 10 - k;
    BitOfMultiple(x * Pow2(e - 1), k);
    Pow2Add(e, k);
    Pow2Ten();
    assert 1024 * x == x * Pow2(e) * Pow2(k) by {
      assert Pow2(e) * Pow2(k) == 1024;
      MulAssoc(x, Pow2(e), Pow2(k));
    }
    assert x * Pow2(e) == 2 * (x * Pow2(e - 1));
  }

  lemma MulAssoc(a: nat, b: nat, c: nat)
    ensures a * b * c == a * (b * c)
  {
  }

  lemma {:induction false} BitOfMultiple(y: nat, k: nat)
    ensures !Bit(2 * y * Pow2(k), k)
    decreases k
  {
    if k > 0 {
      var p := Pow2(k - 1);
      assert 2 * y * Pow2(k) == 2 * (2 * y * p);
      BitOfMultiple(y, k - 1);
    }
  }

  /** Flags given below the page-number field are kept, and the field is the frame number of pa. */
  lemma RawFields(pa: Word, bits: Word)
    requires bits < 1024
    ensures RawPte(pa, bits) == pa / 4096 * 1024 + bits
    ensures RawPte(pa, bits) / 1024 == pa / 4096
    ensures forall k: nat :: k < 10 ==> (Bit(RawPte(pa, bits), k) <==> Bit(bits, k))
  {
    Pow2Ten();
    OrAligned(pa / 4096, bits, 10);
    forall k: nat | k < 10 ensures Bit(RawPte(pa, bits), k) <==> Bit(bits, k) {
      OrBits(PhysToPpn(pa), bits, k);
      LowBitsOfAligned(pa / 4096, k);
    }
  }

  /** A branch entry round-trips the table address and carries no flag but V. */
  lemma BranchFields(a: Word)
    requires a % 4096 == 0 && a < 0x100_0000_0000_0000
    ensures PteToPhys(BranchPte(a)) == a && Ppn(BranchPte(a)) * 4096 == a
    ensures IsBranch(BranchPte(a)) && !ReservedBits(BranchPte(a))
    ensures !U(BranchPte(a)) && !A(BranchPte(a)) && !D(BranchPte(a))
  {
    RawFields(a, PTE_V);
    assert Bit(PTE_V, 0) && !Bit(PTE_V, 1) && !Bit(PTE_V, 2) && !Bit(PTE_V, 3)
        && !Bit(PTE_V, 4) && !Bit(PTE_V, 6) && !Bit(PTE_V, 7);
  }

  lemma VadBits()
    ensures BitOr(BitOr(PTE_V, PTE_A), PTE_D) == 0xC1
  {
    assert BitOr(PTE_V, PTE_A) == 0x41;
  }

  /** map_page's entry is the raw entry with V, A and D added to the permissions. */
  lemma LeafIsRaw(pa: Word, perm: Word)
    ensures LeafPte(pa, perm) == RawPte(pa, Or(perm, 0xC1))
  {
    VadBits();
    OrThreeMore(PhysToPpn(pa), perm, PTE_V, PTE_A, PTE_D);
  }

  lemma OrThreeMore(p: nat, q: nat, a: nat, b: nat, c: nat)
    ensures BitOr(BitOr(BitOr(BitOr(p, q), a), b), c) == BitOr(p, BitOr(q, BitOr(BitOr(a, b), c)))
  {
    OrAssoc(BitOr(p, q), a, b);
    OrAssoc(BitOr(p, q), BitOr(a, b), c);
    OrAssoc(p, q, BitOr(BitOr(a, b), c));
  }
}
