# A verified model of the RISC-V memory and interrupt test platform

The repository carries a RISC-V Sv39 port of a kernel (`mmu.c` inside a patch), a bare-metal test suite with its own
page tables and M-mode firmware, and tests of faults, TLB maintenance, dual-core protocols and interrupts. This
project models that code in Dafny and proves what it relies on, for all inputs, all runs and all interleavings.
`dafny verify dfyconfig.toml` checks it.

## How it is organised

**Page tables.** `Words` has 64-bit words and the bit arithmetic; `Sv39` the entry formats, packed exactly as the code
packs them. `Pool` states what a well-formed pool of tables is (every used table has one parent slot and a level one
below it) and gives the hardware's side: `HwWalk`, written from section 4.3.2 of the RISC-V Privileged Architecture
v1.12, reads raw words at physical addresses and applies the permission and reserved-bit rules to give `View`, the
translation of an address. `Cells` and `PoolOps` prove that the operations refine an abstract map from addresses to
leaves. `Ranges`, `Budget` and `Boot` lift this to whole ranges, to the number of tables, and to boot. `Mmu` and
`Suite` are the two implementations as classes over mutable arrays of words; each method equals an operation of
`PoolOps`, so everything proved there holds of them.

`TableArray` is the array of tables the two classes share. `Blocked` is the mappers' loop once more, over all of memory
and with no assumption on the path.

**Faults and the TLB.** `FixRetry` has the two repair policies (the suite's handler and the registered resolver) and
traces of accesses under them. `Tlb` is a cache that may hold any walk's final entry, valid or not, and any inner
pointer, may keep fractions of a superpage, start a walk from any pointer and drop anything at any time; `Edit` changes
the tables without a fence. `FaultTraces` runs the traces of accesses through that cache.

**Two-hart protocols.** `Rvwmo` is an axiomatic memory model after chapter 14 of the Unprivileged ISA 20191213: a
global memory order, preserved program order from same-address stores and from fences, and the load value axiom with
store forwarding. Leaving out the other ordering rules allows more executions, so the for-all theorems are the
stronger for it; the executions given as counterexamples are `Genuine`: they leave program order only where none of the
thirteen rules applies. `Handshake` is the flag handshake that `SpinLock`, `MessagePassing` and `AtomicCounter` share,
and `Clearing` the set-up before a job; `PingPong` has its own handshake and `SmokeTest` is the smallest use of both.
The sides of a protocol are automata over traces. `LockTraces`, `PongTraces` and `MessageTraces` build the source's
loops without them, with any number of spins and any values loaded, and show that they are accepted; `Interleaved`
builds executions one operation at a time, to show that what the theorems speak of can happen.
`Mailbox` and `Cas` concern one word each, where coherence makes interleaving exact. `Cas` follows the LR/SC loop
instruction by instruction.

**Interrupts.** `Interrupts` is the machine: each register write of the M-mode handler is a step of its own, so other
harts and the clock run in between. `MTrap` is the handler itself, changing the CLINT words and CSRs in place.

## What the code does not promise

- A page map below a superpage takes the leaf for a table pointer (the loops test V only). If the superpage neither maps
  the pool nor holds, where the loop reads it, a word that leads into the pool, the map is lost, as maps below 1 GB are
  after boot (`Blocked.BootMapIsLost`), and takes effect exactly when no leaf is in the way
  (`Blocked.TakesEffectIffClear`); otherwise it may overwrite a table. The mappers' contracts on the pool therefore
  require `Clear`.
- One repair makes an access succeed only for entries with U clear, zero reserved bits and, above level 0, an aligned
  frame (`FixRetry.OneFixSuffices` is an equivalence). Above level 0 either handler's repair also changes the pages
  beside the faulting one, forging a superpage from an invalid entry or widening a valid one (`FixRetry.FixIsLocalIff`,
  `FixRetry.SuperpageWidened`).
- The dual-core test (rv64gcv-baremetal-testsuite-main/tests/p4_dualcore.c) lacks fences. For each failure named there
  is an execution that shows it, allowed by all thirteen rules, and a theorem that the fences suffice for every one.
  - P4.0 (lines 130-138), no fence w,w before the post and no fence r,rw after the wait: core 0 may read its own cleared
    payload (`SmokeTest.UnfencedTestFails`, `SmokeTest.FencedTestPasses`).
  - P4.1B (lines 166-179), no fence w,w before the post and no fence r,rw behind the job's start: the verdict may be 0
    (`MessagePassing.UnfencedPostFails`, `MessagePassing.VerdictStored`). P4.1A passes as it stands.
  - P4.2 (lines 187-204), no fence w,w before the post: an add may be lost in memory itself
    (`AtomicCounter.UnfencedClearLosesAdd`, `AtomicCounter.NoAddLostAfterClearing`); no fence w,w before the done flag
    and no fence r,rw after it: the last read may miss an add (`AtomicCounter.UnfencedReadMissesAdd`,
    `AtomicCounter.ClearedTestPasses`).
  - P4.3 (lines 208-235), no fence w,w before the post: the lock may be held twice
    (`SpinLock.UnfencedClearBreaksLock`, `SpinLock.NoLostUpdateAfterClearing`); no fence r,rw after the done flag: the
    last read may miss an increment (`SpinLock.UnfencedReadMissesIncrement`, `SpinLock.ClearedTestPasses`).
  - P4.4 (lines 239-262) needs no further fence and passes as it stands (`PingPong.TestPassesAsItStands`).
  In P4.0, P4.2 and P4.3 the call through the mailbox word orders the job's first store or atomic access (rule 11), so
  the fence before the post is the only one needed there; in P4.1B the job starts with a load, which needs its own.
- The mailbox loses a job posted after the running job's done flag and before the clearing store
  (`Mailbox.DoomedIffBusy`, `Mailbox.WaitingForDoneLosesAJob`), the pattern the dual-core test uses.
- The suite's boot code enables MTIE without setting `mtimecmp`
  (rv64gcv-baremetal-testsuite-main/common/boot.S:46-48), so one delivery can precede any call
  (`Interrupts.BootTimerFires`); `Interrupts.TimerCallsConserved` counts it.
- Unmapping one page under a superpage drops the whole superpage (`PoolOps.UnmapEffect`), and tables are never freed.

## Model

| member | source | states |
|---|---|---|
| `Sv39.BranchFields` | zephyr-changes/zephyr-riscv-port.patch:183-191 | a table address survives packing into a branch entry and unpacking, and the entry is one the hardware reads as a pointer to that same table: V set, X/W/R/U/A/D and the reserved bits clear |
| `Sv39.RawFields` | zephyr-changes/zephyr-riscv-port.patch:188-191 | a frame number and ten caller bits never disturb each other in one 64-bit entry |
| `Sv39.LeafIsRaw` | zephyr-changes/zephyr-riscv-port.patch:209 | a kernel leaf is a raw entry whose bits are the caller's with V, A and D added, for every permission word |
| `Sv39.SameSlotIsSameSpan` | zephyr-changes/zephyr-riscv-port.patch:177-181 | two canonical addresses index the same slots down to a level exactly when they lie in the same 4 KB, 2 MB or 1 GB span |
| `Pool.WalkFollowsReach` | zephyr-changes/zephyr-riscv-port.patch:128-131 | the hardware walk of section 4.3.2, reading physical words, and the kernel's walk over C table pointers pass through the same tables |
| `Pool.WalkStops` | zephyr-changes/zephyr-riscv-port.patch:311-328 | on a well-formed pool the hardware walk stops at exactly the slot, word and level of the software walk, and never meets an access fault |
| `Pool.ViewIsStopEntry` | zephyr-changes/zephyr-riscv-port.patch:311-328 | the translation the hardware computes is the one the stop entry grants |
| `Pool.ReachInjective` | zephyr-changes/zephyr-riscv-port.patch:161-175 | no table is reached along two different paths: addresses that share a table share every index above it |
| `Pool.SameSlotsReachTogether` | zephyr-changes/zephyr-riscv-port.patch:194-207 | addresses with the same upper indices reach the same table |
| `Cells.ViewOfCell` | zephyr-changes/zephyr-riscv-port.patch:194-210 | the abstract map (a span and its entry, per address) determines the hardware translation |
| `Cells.WriteKeepsWellFormed` | zephyr-changes/zephyr-riscv-port.patch:209 | storing any non-branch word, or any word at level 0, keeps the pool a stratified tree |
| `Cells.ReachAfterWrite` | zephyr-changes/zephyr-riscv-port.patch:353-354 | a stored leaf cuts off exactly the tables below its own span and moves no other path |
| `Cells.WriteChangesOneSlot` | zephyr-changes/zephyr-riscv-port.patch:353-354 | a store at a level changes the map on that slot's span and on no other address |
| `Cells.FirstFree` | zephyr-changes/zephyr-riscv-port.patch:161-172 | the first-fit scan finds the lowest free table, if there is one |
| `Cells.GrowKeepsWellFormed` | zephyr-changes/zephyr-riscv-port.patch:201-205 | hanging a freshly zeroed table keeps the tree: the new table is reached once, and nothing else is re-parented |
| `Cells.ReachAfterGrow` | zephyr-changes/zephyr-riscv-port.patch:201-205 | after hanging a table, exactly the addresses of the grown span reach it, and all others reach what they did |
| `Cells.GrowChangesNothing` | zephyr-changes/zephyr-riscv-port.patch:201-205 | allocating an inner table changes the translation of no address |
| `PoolOps.DescendChangesNothing` | zephyr-changes/zephyr-riscv-port.patch:194-207 | the whole descent, with every table it allocates, changes no translation |
| `PoolOps.MapRawEffect` | zephyr-changes/zephyr-riscv-port.patch:330-358 | map_page and map_raw change the map on exactly the span of the leaf they write, at any of the three levels |
| `PoolOps.UnmapEffect` | zephyr-changes/zephyr-riscv-port.patch:219-237 | unmap_page clears exactly the span of the leaf covering the address, a superpage included, and does nothing where nothing is mapped |
| `PoolOps.MapRawTranslates` | zephyr-changes/zephyr-riscv-port.patch:330-358 | after a map the walk ends at exactly the word asked for, the hardware translates its whole span by that word, and every other address as before |
| `PoolOps.UnmapTranslates` | zephyr-changes/zephyr-riscv-port.patch:219-237 | after an unmap nothing of the span that covered the address translates, and every other address as before |
| `PoolOps.StepRefines` | zephyr-changes/zephyr-riscv-port.patch:194-237 | one operation on the pool simulates one update of the abstract address map |
| `PoolOps.RunRefines` | zephyr-changes/zephyr-riscv-port.patch:194-358 | every run of 4 KB maps, raw maps at levels 0 to 2 and unmaps keeps the pool well formed and implements the abstract run |
| `PoolOps.RunTranslates` | zephyr-changes/zephyr-riscv-port.patch:194-358 | after every such run the hardware translates every canonical address as the abstract map says, with no access fault |
| `PoolOps.GrowFree` | zephyr-changes/zephyr-riscv-port.patch:161-175 | an allocation fails exactly when no table is free and otherwise uses one up |
| `PoolOps.DescendConsumes` | zephyr-changes/zephyr-riscv-port.patch:194-207 | a descent panics exactly when fewer tables are free than its path lacks, and otherwise consumes exactly that many |
| `PoolOps.LookupIsWalkEnd` | zephyr-changes/zephyr-riscv-port.patch:311-328 | pte_lookup returns the slot where the hardware walk stops, or null exactly when it stops at an invalid entry above level 0 |
| `PoolOps.SameLookupIffSameSpan` | zephyr-suite/p1d_tlb_ptw/src/p1d_tlb_ptw.c:187-218 | two lookups give the same entry pointer exactly when the addresses lie in the same span of that leaf's level |
| `Ranges.DistinctPages` | zephyr-changes/zephyr-riscv-port.patch:261-263 | the pages of a range of up to 2^27 pages fall in different slots, wrap-around included |
| `Ranges.MapRangeTranslates` | zephyr-changes/zephyr-riscv-port.patch:255-267 | a run of page maps makes each page of the range go through the leaf for its own frame and leaves every other address alone |
| `Ranges.LeafGrants` | zephyr-changes/zephyr-riscv-port.patch:209-216 | a leaf at any level grants its frame plus the offset with exactly the permissions asked for, readable, accessed and dirty |
| `Ranges.LeafFlags` | zephyr-changes/zephyr-riscv-port.patch:209 | the kernel's leaf carries the caller's R, W, X and U and always V, A and D |
| `Ranges.UnmapRestores` | zephyr-changes/zephyr-riscv-port.patch:255-280 | mapping an unmapped range and unmapping it restores the original translation of every address |
| `Ranges.UnmapNeverPanics` | zephyr-changes/zephyr-riscv-port.patch:269-280 | arch_mem_unmap allocates nothing and always completes |
| `Ranges.UnmapRangeTranslates` | zephyr-changes/zephyr-riscv-port.patch:269-280 | no address of an unmapped range translates, superpages included; over a range without superpages every other address translates as before |
| `Ranges.UnmapAfterMap` | zephyr-changes/zephyr-riscv-port.patch:255-280 | the restoration needs only the abstract map in between, whatever pool implements it |
| `Budget.StepNeeds` | zephyr-changes/zephyr-riscv-port.patch:194-207 | after one page is mapped the next needs a new table only where it crosses a 2 MB or 1 GB boundary |
| `Budget.RangeCostBound` | zephyr-changes/zephyr-riscv-port.patch:194-207 | n pages cross at most ceil((n-1)/512)+1 and ceil((n-1)/2^18)+1 such boundaries from any start |
| `Budget.MapOpsConsume` | zephyr-changes/zephyr-riscv-port.patch:161-210 | a range of maps consumes at most the boundaries it crosses, and panics only with fewer tables free |
| `Budget.EnoughTables` | zephyr-changes/zephyr-riscv-port.patch:161-210 | with that many tables free, mapping n contiguous pages never reaches the panic |
| `Budget.TablesTaken` | zephyr-changes/zephyr-riscv-port.patch:161-210 | mapping n pages takes at most ceil((n-1)/512)+1 leaf-level tables and, counted apart, at most ceil((n-1)/2^18)+1 middle ones |
| `Boot.BootTranslates` | zephyr-changes/zephyr-riscv-port.patch:360-376 | the run of boot operations on the pool gives the translation that BootMap spells out, at every canonical address |
| `Boot.BootMap` | zephyr-changes/zephyr-riscv-port.patch:360-376 | in the image's two addresses alone: every byte from start to end, and the rest of the last page, is mapped to itself RWX, the low 1 GB RW without X; nothing from 1 GB to start, and nothing from end rounded up to a page |
| `Boot.BootFits` | zephyr-changes/zephyr-riscv-port.patch:45-47 | the default 32 tables suffice for any image of up to 14337 pages |
| `Boot.RunKeepsImage` | zephyr-changes/zephyr-riscv-port.patch:125-128 | runs whose leaf spans avoid the image keep every image page's entry |
| `Boot.TablesStaySelfMapped` | zephyr-changes/zephyr-riscv-port.patch:125-128 | after boot and any such run every word of the table pool is mapped to itself, writable: C pointers and the hardware walker meet the same memory |
| `FixRetry.OrFlags` | zephyr-suite/p1c_fault_handle/src/p1c_fault_handle.c:69-76 | or-ing flag bits into an entry keeps its frame and reserved bits and adds exactly those flags |
| `FixRetry.OneFixSuffices` | baremetal/common/smode.c:295-299 | for every entry word, cause, handler and A/D mode, the retried access succeeds if and only if the entry is fixable (U clear, reserved bits clear, superpage aligned); the frame stays and permissions only grow |
| `FixRetry.SuiteMaskInTwoSteps` | baremetal/common/smode.c:295-299 | the handler's two or-steps amount to one mask per cause |
| `FixRetry.GrowthKeepsSuccess` | baremetal/common/smode.c:295-299 | a repair made for one cause never takes away an access that already succeeded |
| `FixRetry.AccessIsHardware` | baremetal/common/smode.c:288-312 | an access succeeds in the model exactly when the hardware's translation permits it in S-mode in the given A/D mode |
| `FixRetry.TouchEffect` | baremetal/common/smode.c:300 | rewriting a stop entry changes the entry of exactly the addresses of its span |
| `FixRetry.RetrySucceeds` | zephyr-suite/p1c_fault_handle/src/p1c_fault_handle.c:61-86 | on any pool the access goes through after the handler exactly when the handler serves the address (fixable entry, and for the kernel's resolver a lookup that is not null), and every page outside the entry's span translates as before |
| `FixRetry.ServeKeeps` | zephyr-changes/zephyr-riscv-port.patch:81-100 | serving an access under fix-and-retry lowers the count of missing bits of its page by at least its faults, and of no page raises it |
| `FixRetry.AtMostThreeFaultsPerPage` | baremetal/common/smode.c:288-312 | every finite trace of accesses terminates with at most as many faults on a page as it had bits missing, three at most |
| `FixRetry.ColdPagesFaultOnceEach` | zephyr-suite/p1c_fault_handle/src/p1c_fault_handle.c:165-184 | first loads of n distinct pages without V fault exactly n times, for every n |
| `FixRetry.FixIsLocalIff` | baremetal/common/smode.c:288-304 | for both handlers and every fault they serve, valid superpages included, all other pages keep their translation if and only if the walk stopped at level 0 |
| `FixRetry.SuperpageWidened` | zephyr-suite/p1d_tlb_ptw/src/p1d_tlb_ptw.c:160-199 | above level 0 the repair gives a page nobody touched the access that faulted: an invalid entry becomes a superpage, a read-only megapage becomes writable throughout |
| `FixRetry.RepairGrants` | zephyr-suite/p1c_fault_handle/src/p1c_fault_handle.c:61-86 | the hardware grants the repaired access exactly for the addresses the handler serves; the kernel's resolver serves none whose lookup is null |
| `FixRetry.RepairByCause` | zephyr-suite/p1c_fault_handle/src/p1c_fault_handle.c:61-86 | by the cause of the fault: after 13 the entry gains V, R and A, after 15 V, R, W, A and D, after 12 V, R, X and A (the suite's handler always adds D) and no other bit, and then a load, a store or a fetch is granted at every servable address |
| `Mmu.PermFromFlagsGrants` | zephyr-changes/zephyr-riscv-port.patch:239-253 | of the ten flag bits exactly R, and W, X and U as the flags ask, are set: not V, A, D, G or the software bits |
| `TableArray.Follow` | zephyr-changes/zephyr-riscv-port.patch:183-186 | the pointer in a branch entry of the array is the address of the next table of the walk |
| `Mmu.ArchMemMapGrants` | zephyr-changes/zephyr-riscv-port.patch:255-267 | after arch_mem_map every offset of the page-rounded range translates to phys + offset, readable, with write, execute and user exactly as the flags ask, accessed and dirty |
| `Mmu.Mmu.AllocTable` | zephyr-changes/zephyr-riscv-port.patch:161-175 | takes and zeroes the first free table and leaves all other tables and flags alone; fails without effect when all are used |
| `Mmu.Mmu.HangTable` | zephyr-changes/zephyr-riscv-port.patch:201-205 | allocation and branch store together are the pool's growth step |
| `Mmu.Mmu.NextTable` | zephyr-changes/zephyr-riscv-port.patch:197-207 | a round of the mapper's loop reaches the next table and preserves the result of the rest of the descent |
| `Mmu.Mmu.DescendTo` | zephyr-changes/zephyr-riscv-port.patch:341-351 | the loop over levels reaches the target table exactly when the specified descent succeeds, with the pool it specifies |
| `Mmu.Mmu.MapPage` | zephyr-changes/zephyr-riscv-port.patch:194-210 | the array code refines the 4 KB map and fails exactly where it panics: every address of the page goes to its frame plus offset with the permissions given, A and D set, and no other address changes |
| `Mmu.Mmu.MapGigapage` | zephyr-changes/zephyr-riscv-port.patch:213-216 | the root store refines a level-2 map: every address of the gigabyte goes to its frame plus offset, and no other address changes |
| `Mmu.Mmu.MapRawAt` | zephyr-changes/zephyr-riscv-port.patch:330-358 | the array code refines the raw map at every level: the entry holds the frame and exactly the caller's ten bits, V=0 included, and no other address changes |
| `Mmu.Mmu.UnmapPage` | zephyr-changes/zephyr-riscv-port.patch:219-237 | the array code refines the unmap: nothing of the span that covered the address translates afterwards, and every other address does as before |
| `Mmu.Mmu.PteLookup` | zephyr-changes/zephyr-riscv-port.patch:311-328 | the returned pointer is the specified lookup |
| `Mmu.Mmu.ArchMemMap` | zephyr-changes/zephyr-riscv-port.patch:255-267 | the offset loop performs the whole range of maps and fails exactly when that run panics: every virt + off with off below size goes to phys + off with the permissions of the flags, and an address in none of those pages translates as before |
| `Mmu.Mmu.ArchMemUnmap` | zephyr-changes/zephyr-riscv-port.patch:269-280 | the offset loop performs the whole range of unmaps and never fails: no address of those pages translates, and over a range without superpages every other address does as before |
| `Mmu.Mmu.P1cFixup` | zephyr-suite/p1c_fault_handle/src/p1c_fault_handle.c:61-86 | resolves exactly page faults whose lookup is not null: the entry gains R after cause 13, R, W and D after 15, R and X after 12, V and A always and nothing else, so the load, store or fetch is granted at a servable address |
| `Mmu.Mmu.DispatchFault` | zephyr-changes/zephyr-riscv-port.patch:81-100 | retries exactly when a resolver is registered, the cause is a page fault and an entry was found, and then the retried load (13), store (15) or fetch (12) is granted at a servable address; otherwise the tables are untouched |
| `Mmu.Mmu.InitRoot` | zephyr-changes/zephyr-riscv-port.patch:362-366 | from zeroed arrays, the root and the MMIO gigapage |
| `Mmu.Mmu.Init` | zephyr-changes/zephyr-riscv-port.patch:360-376 | boot leaves start to end mapped to itself RWX and the low 1 GB RW, nothing between them and nothing beyond the last page; it fails exactly when the run of maps panics, and not with 32 tables and an image of up to 14337 pages |
| `Suite.FirstFitIsBump` | baremetal/common/smode.c:145-151 | over a prefix of used flags first fit picks what the bump allocator picks |
| `Suite.RunKeepsPrefix` | zephyr-changes/zephyr-riscv-port.patch:161-175 | every run of kernel operations keeps the used flags a prefix |
| `Suite.CommonRunAgrees` | zephyr-changes/zephyr-riscv-port.patch:161-210 | after any common run of operations the suite's tables and the kernel's give equal translations at every address if they agreed before it, whatever their pools and roots |
| `Suite.IdentityTranslates` | baremetal/common/smode.c:171-181 | a root with the two identity leaves is a well-formed pool that maps exactly the first and the SRAM gigabyte, each to itself |
| `Suite.Suite.SetupIdentityKernel` | baremetal/common/smode.c:171-181 | from any bump position: a fresh root, a valid state of the mapper, and the translation of every canonical address |
| `Suite.Suite.Restart` | baremetal/common/smode.c:153-181 | pt_reset and the set-up together leave a valid mapper with one table in use |
| `Suite.Suite.AllocPage` | baremetal/common/smode.c:145-151 | hands out the next page zeroed and leaves every other page alone |
| `Suite.Suite.HangPage` | baremetal/common/smode.c:186-188 | the suite's allocation and branch store are the kernel's growth step |
| `Suite.Suite.MapPage` | baremetal/common/smode.c:182-192 | the suite's mapper makes the same pool as the kernel's raw map; a valid entry carries the caller's bits with V, A and D and maps the page to its frame with those permissions, an invalid one keeps frame and bits 1 to 9 with V clear and maps nothing; no other address changes |
| `Suite.Suite.Walk` | baremetal/common/smode.c:194-209 | pt_walk names the entry where the walk stops; pte_lookup agrees with it except for null exactly at invalid upper entries |
| `Suite.Suite.FixPte` | baremetal/common/smode.c:288-304 | the suite handler's walk and store: V, A and D always, R after cause 13, R and W after 15, R and X after 12, nothing else, so the load, store or fetch is granted at a servable address |
| `Blocked.LoopIsMapRaw` | zephyr-changes/zephyr-riscv-port.patch:341-354 | the mapper's loop over all of memory, with no assumption built in, is the pool's map on a clear path and touches no other memory |
| `Blocked.BlockedMapIsLost` | zephyr-changes/zephyr-riscv-port.patch:198-209 | below a superpage that neither maps the pool nor leads into it the loop leaves the translation of every address as it was, at any depth, allocated table or not |
| `Blocked.TakesEffectIffClear` | zephyr-changes/zephyr-riscv-port.patch:194-210 | a map takes effect if and only if no leaf above its level is in the way, provided a leaf in the way neither maps the pool nor holds, where the loop reads it, a word that leads into the pool |
| `Blocked.MmioBlocks` | zephyr-changes/zephyr-riscv-port.patch:364-366 | after boot the MMIO gigapage is in the way of every page and megapage map of the first gigabyte |
| `Blocked.BootMapIsLost` | zephyr-changes/zephyr-riscv-port.patch:364-366 | after boot such a map is lost, unless a word of low memory leads into the pool: the address keeps going to itself |
| `Tlb.RunKeeps` | zephyr-suite/p1d_tlb_ptw/src/p1d_tlb_ptw.c:69-134 | over every trace of walks, cached pointers, evictions, edits and fences each cached leaf was current at some point since the last fence covering it, and each cached pointer still leads where the tables do |
| `Tlb.AccessIsRecent` | zephyr-suite/p1d_tlb_ptw/src/p1d_tlb_ptw.c:105-134 | an access uses a translation that the tables gave at some point since the last fence covering its address |
| `Tlb.StableAccess` | zephyr-suite/p1d_tlb_ptw/src/p1d_tlb_ptw.c:69-103 | an address whose translation has not changed since then sees the current one, whatever is cached |
| `Tlb.AgreesAfterMapperCall` | zephyr-changes/zephyr-riscv-port.patch:255-280 | from the return of a mapper call until the next edit every access agrees with the current tables, whatever is cached meanwhile |
| `Tlb.RepairIsPossible` | zephyr-suite/p1c_fault_handle/src/p1c_fault_handle.c:61-86 | a repair moves no table on any path, so the TLB model covers it on every pool |
| `Tlb.RetryIsGranted` | zephyr-suite/p1c_fault_handle/src/p1c_fault_handle.c:61-86 | whatever the TLB held at the fault, stale invalid entries included, the access retried after the handler and its fence, targeted or full, is granted if and only if the handler serves the address |
| `Tlb.OldOrNew` | zephyr-suite/p1d_tlb_ptw/src/p1d_tlb_ptw.c:105-129 | after a live re-point without a fence an access sees the old or the new translation and nothing else |
| `Tlb.UnfencedSeesBoth` | zephyr-suite/p1d_tlb_ptw/src/p1d_tlb_ptw.c:105-129 | and both can be seen: after a walk and an unfenced edit of its final entry the translations an access may use are exactly those two |
| `Tlb.FencedIsNew` | zephyr-suite/p1d_tlb_ptw/src/p1d_tlb_ptw.c:131-133 | after the targeted fence the address sees the new translation |
| `Tlb.RepointKeepsPaths` | zephyr-suite/p1d_tlb_ptw/src/p1d_tlb_ptw.c:91-93 | re-pointing a final entry moves no table on any path, so pointers already cached stay right |
| `Tlb.GrowKeepsPaths` | zephyr-changes/zephyr-riscv-port.patch:201-205 | hanging a fresh table moves no table on any path |
| `Tlb.TargetedFence` | zephyr-suite/p1d_tlb_ptw/src/p1d_tlb_ptw.c:69-103 | re-point, anything cached or evicted, targeted fence, anything again: the address sees the new leaf and addresses outside its span are undisturbed |
| `FaultTraces.FaultIsReal` | baremetal/common/smode.c:288-312 | on a page whose cached translations all grant what the tables grant, an attempt faults exactly when the tables refuse it |
| `FaultTraces.AttemptKeeps` | baremetal/common/smode.c:288-312 | an attempt on any 4 KB page, with whatever is cached, evicted or set by hardware, keeps every page that was so coherent, and costs the page it faults on a missing kind of access |
| `FaultTraces.AtMostThreeFaultsPerPage` | baremetal/common/smode.c:288-312 | along every trace of attempts through the cache, with either handler and its fence and in both A/D modes, a page faults at most three times |
| `FaultTraces.NoAccessFaultsTwice` | baremetal/common/smode.c:288-312 | an attempt that repeats one that faulted goes through, whatever the hart caches in between |
| `FaultTraces.FencedIsCoherent` | baremetal/common/smode.c:288-312 | after a full fence every page is coherent, so the bound holds of every trace from there |
| `Rvwmo.ChosenLoadReadsMemory` | rv64gcv-baremetal-testsuite-main/tests/p4_dualcore.c:85-96 | where fences keep program order, RVWMO's load value axiom collapses to reading the memory of that moment |
| `Rvwmo.PerformedInAll` | rv64gcv-baremetal-testsuite-main/tests/p4_dualcore.c:80-108 | operations counted along the global memory order are the operations of all the programs, none twice |
| `Rvwmo.AllVisibleReadsFinal` | rv64gcv-baremetal-testsuite-main/tests/p4_dualcore.c:200-204 | a load to which every store of its word is visible reads the final memory, however early it performs |
| `Rvwmo.GenuineIsAllowed` | rv64gcv-baremetal-testsuite-main/tests/p4_dualcore.c:200-204 | an execution that departs from program order only where none of RVWMO's thirteen rules orders the pair is allowed by this model |
| `Rvwmo.GenuineControls` | rv64gcv-baremetal-testsuite-main/tests/p4_dualcore.c:187-204 | the executions given as counterexamples keep every control dependency from a load to a later store or AMO |
| `Handshake.AnnouncedIsBefore` | rv64gcv-baremetal-testsuite-main/tests/p4_dualcore.c:49-66 | a store behind fence w,w and a flag performs before whatever another hart does behind a load that saw the flag and fence r,rw |
| `Handshake.FinalRead` | rv64gcv-baremetal-testsuite-main/tests/p4_dualcore.c:200-204 | a load behind the announcements of all other harts' stores to its word, and behind its own hart's, reads the final memory |
| `Clearing.PostOrdersClearing` | baremetal/common/smode.c:370-379 | with a fence w,w before the post, and the job's accesses behind a load that saw it, the clearing stores perform before every other store to their words and every load sees them |
| `Clearing.StoringJobs` | baremetal/common/smode.c:360-363 | a job of stores and atomic accesses is behind that load without a fence, by the control dependency of the call (rule 11) |
| `Clearing.FencedJobs` | baremetal/common/smode.c:360-363 | any job is, with a fence r,rw |
| `Clearing.FromClearedAllowed` | rv64gcv-baremetal-testsuite-main/tests/p4_dualcore.c:167-169 | where the clearing stores come first and every load sees them, or their words were zero already, the execution in which the words start cleared is allowed too, every load returning what it returned |
| `Clearing.SameMemory` | rv64gcv-baremetal-testsuite-main/tests/p4_dualcore.c:167-169 | and it ends in the same memory |
| `SpinLock.FencesRestoreProgramOrder` | rv64gcv-baremetal-testsuite-main/tests/p4_dualcore.c:87-96 | the amoswap and the two fences put every memory operation of every loop in program order in every allowed execution, whatever unordered reads follow the loop |
| `SpinLock.MutualExclusion` | rv64gcv-baremetal-testsuite-main/tests/p4_dualcore.c:80-108 | in every execution, with any number of harts and loops, no two harts are ever between acquire and release |
| `SpinLock.HolderReadsLatest` | rv64gcv-baremetal-testsuite-main/tests/p4_dualcore.c:101-104 | every holder reads the count of all increments performed so far, never a stale value |
| `SpinLock.NoLostUpdate` | rv64gcv-baremetal-testsuite-main/tests/p4_dualcore.c:80-108 | the memory ends with shared_var at its first value plus the increments of all the programs |
| `SpinLock.NoLostUpdateAfterClearing` | rv64gcv-baremetal-testsuite-main/tests/p4_dualcore.c:208-235 | from the clearing of the fields on, with a fence w,w before the post and nothing else: a lock run from a free lock, to which all the lock's theorems apply, with the same final memory |
| `SpinLock.ClearedTestPasses` | rv64gcv-baremetal-testsuite-main/tests/p4_dualcore.c:208-235 | the whole test with the two fences it lacks, from any memory: the read of the total returns the total |
| `SpinLock.UnfencedClearBreaksLock` | rv64gcv-baremetal-testsuite-main/tests/p4_dualcore.c:209-235 | without the fence before the post, as in the test, there is an execution, allowed by every rule, in which both harts stand in the critical section and an increment is lost; a fence in front of the job does not help |
| `SpinLock.FencedReadIsTotal` | rv64gcv-baremetal-testsuite-main/tests/p4_dualcore.c:231-235 | with fence r,rw between the done flags and the read, the read returns that total in every execution |
| `SpinLock.UnfencedReadMissesIncrement` | rv64gcv-baremetal-testsuite-main/tests/p4_dualcore.c:231-235 | without it, as in the test, there is an execution, allowed by every rule, in which core 0 sees the done flag and reads 1 for a total of 2 |
| `LockTraces.AnyLoopIsWorker` | rv64gcv-baremetal-testsuite-main/tests/p4_dualcore.c:80-108 | the lock's theorems cover every trace of the loop: any number of rounds, each with any number of amoswaps that found the lock held, any values loaded, done flag included |
| `LockTraces.AnyPosterIsWorker` | rv64gcv-baremetal-testsuite-main/tests/p4_dualcore.c:209-235 | and core 0's whole trace: clearing, post with or without the fence, loop, any polls of the done flag, read with or without the fence |
| `LockTraces.AnyJobIsWorker` | baremetal/common/smode.c:355-367 | and core 1's: any polls of the empty mailbox, the call, the loop, the done flag |
| `LockTraces.AnyScheduleRuns` | rv64gcv-baremetal-testsuite-main/tests/p4_dualcore.c:80-108 | for any number of harts and every schedule of holders with rivals there is an execution in which each holder enters in turn while its rival finds the lock held, and the variable ends at the number of sections |
| `PingPong.TurnComesBack` | rv64gcv-baremetal-testsuite-main/tests/p4_dualcore.c:111-122 | a hart that hands the turn away sees it again only after the other hart's store, though no fence follows its own |
| `PingPong.RoundsInOrder` | rv64gcv-baremetal-testsuite-main/tests/p4_dualcore.c:111-122 | with the spins dropped, every hart's rounds perform in program order |
| `PingPong.Alternates` | rv64gcv-baremetal-testsuite-main/tests/p4_dualcore.c:247-256 | at every moment one of the harts is waiting, and core 0 is in the same round as core 1 or one ahead: strict alternation |
| `PingPong.RoundReads` | rv64gcv-baremetal-testsuite-main/tests/p4_dualcore.c:247-262 | round n of hart h reads 2n + h for every n, so core 0's read after N rounds is 2N |
| `PingPong.TestPassesAsItStands` | rv64gcv-baremetal-testsuite-main/tests/p4_dualcore.c:239-262 | the test exactly as written, clearing stores included and with no fence round the post: from static zero every round n of hart h reads 2n + h in every execution |
| `PingPong.RoundReadsAfterClearing` | rv64gcv-baremetal-testsuite-main/tests/p4_dualcore.c:239-262 | and from any memory if the post and the job have their fences |
| `PongTraces.AnyLoopIsPlayer` | rv64gcv-baremetal-testsuite-main/tests/p4_dualcore.c:111-122 | the game's theorems cover every trace of the loop: any number of rounds with any number of spins in each and any values loaded |
| `PongTraces.AnyCheckIsPlayer` | rv64gcv-baremetal-testsuite-main/tests/p4_dualcore.c:247-262 | and core 0's with its last wait and its read, which is the read of the round after the last |
| `PongTraces.AnyLengthRuns` | rv64gcv-baremetal-testsuite-main/tests/p4_dualcore.c:239-262 | for every n there is an execution, with spins, in which both harts play n rounds |
| `AtomicCounter.AddsTakeTickets` | rv64gcv-baremetal-testsuite-main/tests/p4_dualcore.c:72-74 | each amoadd.d returns the number of adds performed before it |
| `SmokeTest.FencedTestPasses` | rv64gcv-baremetal-testsuite-main/tests/p4_dualcore.c:130-138 | with a fence w,w before the post and a fence r,rw after the wait core 0 reads the magic number in every execution, from any memory and for every number |
| `SmokeTest.FencedTestRuns` | rv64gcv-baremetal-testsuite-main/tests/p4_dualcore.c:130-138 | from any memory and for every number there is an execution of the fenced test that runs to its end and reads it |
| `SmokeTest.UnfencedTestFails` | rv64gcv-baremetal-testsuite-main/tests/p4_dualcore.c:130-138 | with either missing, and so in the test, there is an execution, allowed by every rule, in which core 0 sees the flag and reads its own cleared payload |
| `MessagePassing.SetUpBeforeJob` | baremetal/common/smode.c:370-379 | with fence w,w before the post and fence r,rw after the job is taken, everything core 0 set up performs before everything the job does |
| `MessagePassing.SentBeforeReceived` | rv64gcv-baremetal-testsuite-main/tests/p4_dualcore.c:49-66 | everything the producer stored up to the payload, set-up included, performs before whatever the consumer does past its wait and fence |
| `MessagePassing.ExpectedIsSetUp` | rv64gcv-baremetal-testsuite-main/tests/p4_dualcore.c:147-175 | every load of fence_expected returns the value set up: in P4.1A as the test stands, in P4.1B with those two fences |
| `MessagePassing.ConsumerReadsPayload` | rv64gcv-baremetal-testsuite-main/tests/p4_dualcore.c:49-58 | under the same condition the payload read after the flag is the expected value, never one of the clearing stores, for every value |
| `MessagePassing.VerdictStored` | rv64gcv-baremetal-testsuite-main/tests/p4_dualcore.c:55-56 | under the same condition the consumer stores the verdict 1 |
| `MessagePassing.ProducerReadsVerdict` | rv64gcv-baremetal-testsuite-main/tests/p4_dualcore.c:149-162 | in P4.1A core 0, having seen fence_done and fenced, reads fence_ok = 1 |
| `MessagePassing.UnfencedPostFails` | rv64gcv-baremetal-testsuite-main/tests/p4_dualcore.c:166-179 | with either of those two fences missing, and so in P4.1B, there is an execution, allowed by every rule, in which core 1 publishes the old value and core 0 stores the verdict 0 |
| `MessagePassing.UnfencedMessageFails` | rv64gcv-baremetal-testsuite-main/tests/p4_dualcore.c:49-66 | with either fence of the message itself missing the consumer may see the flag and read the old payload, in an execution allowed by every rule |
| `MessageTraces.AnyProducer` | rv64gcv-baremetal-testsuite-main/tests/p4_dualcore.c:60-67 | the theorems cover every trace of the producer on either core: any clearing, any polls of the mailbox, any polls of the done flag |
| `MessageTraces.AnyConsumer` | rv64gcv-baremetal-testsuite-main/tests/p4_dualcore.c:49-58 | and of the consumer, with any polls of the flag and any values loaded |
| `MessageTraces.SessionRuns` | rv64gcv-baremetal-testsuite-main/tests/p4_dualcore.c:147-179 | in both directions, for every expected value, with or without the fences round the post, there is an execution in which both sides run to the end and the producer reads the verdict 1 |
| `AtomicCounter.NoAddLost` | rv64gcv-baremetal-testsuite-main/tests/p4_dualcore.c:71-75 | the memory ends with the counter at its first value plus the adds of all the programs, with no fence anywhere |
| `AtomicCounter.NoAddLostAfterClearing` | rv64gcv-baremetal-testsuite-main/tests/p4_dualcore.c:187-204 | from the clearing of the counter on, with a fence w,w before the post and nothing else, the memory ends at the number of adds whatever it held before: the call through the mailbox orders the job's adds |
| `AtomicCounter.ClearedTestPasses` | rv64gcv-baremetal-testsuite-main/tests/p4_dualcore.c:187-204 | the whole test with the three fences it lacks, from any memory: the assertion of the total holds in every execution |
| `AtomicCounter.UnfencedClearLosesAdd` | rv64gcv-baremetal-testsuite-main/tests/p4_dualcore.c:187-204 | without that fence, as in the test, there is an execution, allowed by every rule, in which two adds leave 1 in memory; a fence in front of the job does not help |
| `AtomicCounter.FencedReadIsTotal` | rv64gcv-baremetal-testsuite-main/tests/p4_dualcore.c:200-204 | with fence w,w before every done flag and fence r,rw after seeing it, a read behind them returns that total, for any number of harts |
| `AtomicCounter.FencedTestPasses` | rv64gcv-baremetal-testsuite-main/tests/p4_dualcore.c:193-204 | the two-core test from a zero done flag with the two fences round it: the assertion of the total holds in every execution |
| `AtomicCounter.UnfencedReadMissesAdd` | rv64gcv-baremetal-testsuite-main/tests/p4_dualcore.c:187-204 | with either fence missing, and so in the test, there is an execution, allowed by every rule, in which core 0 sees the done flag and reads 1 for a total of 2 |
| `Mailbox.JobsAreASubsequence` | baremetal/common/smode.c:355-367 | in every interleaving core 1 never calls null, and what it calls is picked from what was posted at strictly increasing positions |
| `Mailbox.PostsAreConserved` | baremetal/common/smode.c:343-379 | every post is called, pending, or paid for by one post that found the mailbox occupied |
| `Mailbox.NothingLostIffPostedWhenEmpty` | baremetal/common/smode.c:370-379 | the jobs called and the one waiting are exactly the jobs posted, in order, if and only if every post found the mailbox empty |
| `Mailbox.DoomedIffBusy` | baremetal/common/smode.c:363-366 | a job is never called in any continuation if and only if it was posted between the call of another job and the clearing store |
| `Mailbox.WaitingForDoneLosesAJob` | baremetal/common/smode.c:363-366 | waiting for the previous job's done flag before posting is not enough: a run in which the second job is erased |
| `Cas.EveryCallLinearized` | rv64gcv-baremetal-testsuite-main/common/test.h:335-350 | in every run of any number of harts, with any stores and spurious failures, a call that returns 1 did one store, at the state it loaded, from expected to desired; a call that returns 0 stored nothing and saw another value |
| `Cas.ScSucceedsIffNoStore` | rv64gcv-baremetal-testsuite-main/common/test.h:340-343 | whatever the other harts do before the SC, it can succeed if and only if the reservation was good and they stored nothing: a change and change back cannot pass |
| `Cas.StoresAccounted` | rv64gcv-baremetal-testsuite-main/common/test.h:335-350 | every store to the word is a plain store or belongs to one call that returned 1 or is about to |
| `Cas.CasCounterIsExact` | rv64gcv-baremetal-testsuite-main/common/test.h:335-350 | increments made by compare-and-swap alone add up to exactly the number of calls that returned 1 |
| `Cas.LoneCallSucceeds` | rv64gcv-baremetal-testsuite-main/common/test.h:335-350 | undisturbed on a word that holds expected a call can fail its SC any number of times and then stores desired once and returns 1 |
| `Cas.LoneCallFails` | rv64gcv-baremetal-testsuite-main/common/test.h:335-350 | on a word that holds something else it can run to its end, and then stores nothing and returns 0 |
| `Interrupts.TimerCallsConserved` | baremetal/common/m_trap.c:76-85 | set_timer calls (plus one if MTIE was left on at boot) are delivered once, superseded, or in flight, at most one in flight, at every step of every run |
| `Interrupts.BootTimerFires` | baremetal/common/m_trap.c:37-47 | with MTIE left on at boot and mtimecmp already reached there is a run that delivers a timer interrupt before any set_timer call |
| `Interrupts.PendingMeansSilenced` | baremetal/common/m_trap.c:37-47 | a pending STIP means MTIE off, and mtimecmp at its maximum except between the first two writes of a set_timer |
| `Interrupts.NeverEarly` | baremetal/common/smode.c:236-244 | no S-timer interrupt is delivered before the time last armed |
| `Interrupts.HandlerSilences` | baremetal/common/smode.c:236-244 | the S-mode timer handler leaves mtimecmp at its maximum and STIP clear |
| `Interrupts.NoSecondInterrupt` | baremetal/common/smode.c:236-244 | from that call on, in every interleaving, no timer interrupt is delivered before the hart's own next set_timer while mtime is below the maximum |
| `Interrupts.ArmedTimerArrives` | baremetal/common/m_trap.c:37-85 | from every state of S-mode code with the interrupt enabled, set_timer for any time can be delivered once that time has come |
| `Interrupts.IpisConserved` | baremetal/common/m_trap.c:87-95 | IPIs sent to a hart are delivered, merged, cleared unread or on their way; deliveries never exceed sends |
| `Interrupts.SentIpiStays` | baremetal/common/m_trap.c:49-58 | a sent IPI stays in MSIP, the M-mode handler or SSIP in every continuation until SSIP is cleared on its hart; a target out of range reaches nobody |
| `Interrupts.RepresentedUntilCleared` | baremetal/common/smode.c:245-248 | only the S-mode handler's clear, the park loop's clear and SBI_CLEAR_IPI can end that |
| `Interrupts.SentIpiArrives` | baremetal/common/m_trap.c:49-95 | from every such state an IPI to any hart, the sender included, can be delivered |
| `MTrap.FinishIsARun` | baremetal/common/m_trap.c:37-100 | a handler call is the step-by-step protocol run by that hart's writes alone |
| `MTrap.BootStarts` | baremetal/common/m_trap.c:28-133 | the platform as constructed is a start of the protocol |
| `MTrap.Platform.constructor` | baremetal/common/m_trap.c:28-133 | a valid platform with nothing pending, MTIE on and mtimecmp as given |
| `MTrap.Platform.MTimer` | baremetal/common/m_trap.c:37-47 | mtimecmp at its maximum, MTIE off, STIP on, on this hart only: the state the protocol reaches |
| `MTrap.Platform.MSoft` | baremetal/common/m_trap.c:49-58 | MSIP off and SSIP on, on this hart only: the state the protocol reaches |
| `MTrap.Platform.SetTimer` | baremetal/common/m_trap.c:76-85 | mtimecmp as given, STIP off, MTIE on, on this hart only: the state the protocol reaches |
| `MTrap.Platform.SendIpi` | baremetal/common/m_trap.c:87-95 | rings the target's MSIP and no other; a target of NUM_HARTS or more is ignored |
| `MTrap.Platform.ReflectEcall` | baremetal/common/m_trap.c:101-116 | an unknown ecall resumes at the aligned S-mode vector with scause, sepc, stval and SPP set and no interrupt state changed |
| `MTrap.Platform.MTrapHandler` | baremetal/common/m_trap.c:28-133 | by cause and function number: SBI 0 sets mtimecmp, clears STIP and sets MTIE; 1 raises MSIP of a target below 2 and nothing else; 2 clears SSIP; each resumes at mepc + 4; any other is reflected; interrupt 7 clears MTIE, sets mtimecmp to its maximum and STIP, 3 clears MSIP and sets SSIP, both resuming at mepc; every other cause panics with nothing changed |

## Left out

- Mmu.Mmu.MapPage: requires an unblocked path, because below a superpage the arrays are not what the C pointers reach; that case is in Blocked, for superpages that do not map the pool itself and frames whose words do not lead into it.
- PoolOps.MapRawEffect: the same.
- Mmu.Mmu.DescendTo: the same. The level loops of map_page and map_raw are the same code in the source, written twice; here they are one method. The panic of an exhausted pool is a false result.
- Mmu.Mmu.MapRawAt: excludes raw bits that encode a branch above level 0, which would hang a table the pool does not own.
- Mmu.Mmu.ArchMemMap: requires an unblocked range and size at most 2^64 - 4096, because the offset of a longer range wraps and the loop does not end; the clause on single offsets is for page-aligned virt and phys, physical addresses below 2^56 and sizes up to 2^39 (Ranges.MapRangeTranslates has the general form); `mmu_lock` is taken to make the call atomic.
- Mmu.Mmu.ArchMemUnmap: same bound on size, for the same reason.
- Ranges.MapRangeTranslates: up to 2^27 pages, all that Sv39 can name; a longer range maps some page twice.
- Mmu.PermFromFlagsGrants: the numeric values of K_MEM_PERM_RW, _EXEC and _USER are not in the repository, so the flags are three booleans.
- Mmu.Mmu.Init: ends before the satp write and its fence. The image's bounds are parameters, laid out above the low 1 GB and below 2^38.
- Suite.Suite.AllocPage: pt_alloc_page has no bound check, so a free page is a precondition.
- Suite.Suite.MapPage: enough free pages for the same reason, and an unblocked path.
- Mmu.Mmu.DispatchFault: the registered resolver is p1c_fixup; other resolvers are not modelled.
- Suite.Suite.FixPte: the handler's log output, its skip mode and its counters are not modelled.
- Tlb.RunKeeps: unfenced edits are those that leave every inner table where it is; replacing a branch by a superpage is only modelled inside a mapper call, which fences. ASIDs, global mappings and MXR are not used by the code.
- FixRetry.AtMostThreeFaultsPerPage: the trace's accesses bypass the translation cache; FaultTraces.AtMostThreeFaultsPerPage goes through it, for 4 KB pages (a repair of a superpage is fenced for one of its pages only).
- FaultTraces.AtMostThreeFaultsPerPage: accesses are atomic and on one hart.
- SpinLock.NoLostUpdate: starts from the cleared fields; SpinLock.NoLostUpdateAfterClearing starts before core 0 clears them.
- AtomicCounter.NoAddLost: the same, with AtomicCounter.NoAddLostAfterClearing.
- PingPong.RoundReads: the same, with PingPong.TestPassesAsItStands.
- SpinLock.NoLostUpdateAfterClearing: the job watches no done flag, as in the test; only hart 0 reads the total.
- MessagePassing.ConsumerReadsPayload: in P4.1A fence_flag starts at zero, as static data does; the wake-up interrupt orders nothing here, since core 1 polls the mailbox.
- Rvwmo.ChosenLoadReadsMemory: acquire and release bits and the other preserved-order rules are not used, so nothing rests on them; where the call through the mailbox is used, rule 11 is a hypothesis (Controls).
- Mailbox.JobsAreASubsequence: posted functions are not null; the wake-up interrupt and wfi are not part of it, since wfi may return freely.
- Cas.EveryCallLinearized: safety only; an LR/SC loop under constant interference need not end.
- Interrupts.NeverEarly: mtime does not wrap, and MTIP follows mtime and mtimecmp at once, as the emulated CLINT does.
- Interrupts.IpisConserved: S-mode never sets SSIP itself.
- MTrap.Platform.MTrapHandler: a panic is a result; the finisher write, the saved trap words and the endless wfi are not modelled. The effect of a reflected ecall on a running S-mode handler is not in the interrupt protocol.
- Liveness of the park loop and fairness of the spinlock: the code does not guarantee them.
- The other atomic operations (and, or, xor, min, max): one-line semantics.
- UART and finisher output, test assertions, boot assembly, PMP and delegation setup, register save and restore: no deep property.
- The kernel, its test framework, spinlocks, timers and semaphores, the drivers, samples and build files: library code and wrappers.
- Sv48 and user mode: not used.
- The twins under rv64gcv-baremetal-testsuite-main/common: they differ from baremetal/common only in where the verdict is written.
