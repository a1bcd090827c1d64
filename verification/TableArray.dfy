/** The array of 512-entry tables that both mappers keep, read through table pointers: the address of a table in the
    array is also its physical address. */
module TableArray {
  import opened Words
  import opened Sv39
  import opened Pool

  /** The array, at address base, holds the tables of p. */
  ghost predicate Holds(tables: array2<Word>, base: Word, p: Pool)
    reads tables
  {
    && tables.Length0 == |p.tables| && tables.Length1 == 512 && p.base == base
    && forall t, j {:trigger tables[t, j]} | 0 <= t < tables.Length0 && 0 <= j < 512 :: tables[t, j] == p.tables[t][j]
  }

  predicate IsTable(n: nat, base: Word, tbl: Word) { base <= tbl < base + 4096 * n && (tbl - base) % 4096 == 0 }

  /** `tbl[j]`. */
  function Load(tables: array2<Word>, base: Word, tbl: Word, j: nat): Word
    requires IsTable(tables.Length0, base, tbl) && j < 512 && tables.Length1 == 512
    reads tables
  {
    tables[(tbl - base) / 4096, j]
  }

  lemma TablePointer(p: Pool, t: nat)
    requires Shape(p) && t < |p.tables|
    ensures Addr(p, t) < WORD_SIZE && p.base < WORD_SIZE
    ensures IsTable(|p.tables|, p.base, Addr(p, t)) && (Addr(p, t) - p.base) / 4096 == t
  {
    assert Addr(p, t) - p.base == 4096 * t;
  }

  /** `(uint64_t *)pte_to_phys(tbl[vpn(va, l)])`. */
  function Follow(tables: array2<Word>, base: Word, ghost p: Pool, va: Word, l: Level, tbl: Word): (next: Word)
    requires WellFormed(p) && Holds(tables, base, p) && l > 0
    requires Reach(p, va, l - 1).Some? && tbl == Addr(p, Reach(p, va, l).value)
    reads tables
    ensures next == Addr(p, Reach(p, va, l - 1).value)
  {
    TablePointer(p, Reach(p, va, l).value);
    assert GoodBranch(p, Reach(p, va, l).value, Vpn(va, l));
    AddrAligned(p, Reach(p, va, l - 1).value);
    BranchFields(Addr(p, Reach(p, va, l - 1).value));
    PteToPhys(Load(tables, base, tbl, Vpn(va, l)))
  }
}
