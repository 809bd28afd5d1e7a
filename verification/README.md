# The memory, swap, area, environment and lock cores of the kernel, in Dafny

This project models the parts of a JOS-derived 32-bit x86 kernel whose correctness spans several
functions or whole runs, and proves what they keep. Paths below are relative to the kernel's source
tree. `dafny verify dfyconfig.toml` checks everything.

**Physical pages, page tables, copy-on-write.** `CowModel` is a flat machine: page-table entries,
area permissions, reference counts and frame contents, with demand-zero faults, fork, write faults,
stores, unmapping and exit as steps. `CowSafety` proves that over every run each environment sees
exactly the bytes, and may use each page for exactly what, it would if fork copied memory eagerly. `PageWalk`, `FrameUse`, `TableGrowth`,
`ForkExit`, `ForkShare` and `PageTables` give the same operations on two-level tables inside physical
frames (section 4.3 of the Intel SDM, volume 3A), with the free list and `pp_ref`; each operation of the
class `Memory` is proved equal to a step of the flat machine, with every count exact and every frame
either in use, reserved or on the free list. `PageAllocator` refines that free list to the linked page
descriptors and adds 4 MB allocation: its 4 KB allocation takes the head of the sequence that `Memory`
takes it from, and its 4 KB release pushes the head.

**Swapping.** `SwapProtocol` is the FIFO tasklet machine: `ktask` advances the first tasklet by one
sector; faults, reclaims, user stores and unmappings come in between. `SwapSafety` and `SwapRuns` prove
the swap map's integrity, that users see what they would see without swapping, progress, and the round
trip. `SwapAccounts` is who holds what: a frame is allocated exactly while an entry maps it or a queued
page-in holds it, and an environment sleeps exactly while a page-in for it is queued. `SwapSlots` is the
same for disk slots. `SwapHazards` is
what happens outside the protocol's limits. `Bitmap`, `Tasklets` and `SwapKernel` carry the steps down
to the byte bitmap, the linked tasklets and in-place frames.

**Areas.** `VmaAreas` is the ordered list and its address-to-permission map; `VmaSpace` is the 105
linked slots with insertion, splitting, merging, protect and destroy; `VmaCopy` is the copy at fork.

**Environments.** `EnvIds` is the id arithmetic, `EnvModel` the table as a state machine over the
critical sections of `env_lock`, `EnvWaits` is `sys_wait` from its call to its wake-up, `EnvTable` the
table in place with the scheduler's search, and `SchedSearch` the circular order and its fairness.

**Smaller cores.** `Spinlock` interleaves single loads, stores and exchanges of any number of CPUs;
`Stabs` is the typed binary search; `NumberText` is the number printer against `strtol`.

Words of page tables are pairs of a 20-bit number and a record of flag bits, a lossless form of the
32-bit word. Disk readiness, CPU interleaving, the choice of a page to reclaim, and whether memory for a
page directory is available are parameters.

## What the code does that its comments do not say

- `find_swap_spot` is right exactly while fewer than 32767 slots are used; the next slot would run past
  the map (`SwapMap.SpotIsFreeRun`).
- The flag edits of a swap round trip lose `PTE_G` and any `PTE_AVAIL` bit (`SwapProtocol.FlagsRoundTrip`);
  because `page_in` flips the full field set by `swap_in`, its branch for shared pages never runs
  (`SwapProtocol.SharersNeverUpdated`).
- A store into a sector that eviction already wrote is lost (`SwapHazards.WriteTakesEffect`).
- A page freed during its write leaves seven bits of its slot set; the search for a hole then returns
  that slot, and the next eviction into it ends with seven used sectors marked free
  (`SwapHazards.FreedDuringWrite`, `FreedMisleads`, `NextEviction`).
- `env_free` does not give back the slots of swapped pages: they stay used for ever
  (`SwapSlots.SlotsConserved`, `SwapSlots.RunLost`).
- Making a shared page writable with protect breaks isolation (`CowSafety.ProtectExact`).
- `page_dedup` without memory leaves a count one too low (`CowSafety.DedupNoMemoryExact`).
- Fork counts every absent entry of an existing page table as a mapping of frame 0
  (`PageTables.Memory.ForkEnv`). When it runs out of frames it leaves the child half-built.
- A demand fault without a free frame panics; with one frame but no page table the environment is killed
  and the frame stays allocated (`PageTables.Memory.DemandFault`).
- `vma_new` dereferences NULL when no slot is left, although it documents a result of 0.
- `vma_list_merge` returns -1 after a successful merge unless the free list was empty.
- `vma_remove_alloced` does not clear the huge mark, so a reused slot can be marked huge; destroying a
  huge area always fails, and destroying an unmapped address reads through NULL.
- A 4 MB allocation that asks for poisoning never succeeds.
- `env_init` sets up one entry too many; an environment there is not found under its own id, is not
  woken by `env_free`, and is not seen by the scheduler.
- Without a runnable environment `runnable_env_lookup` looks at the slot before its start, not at the
  current environment as the comment in `sched_yield` describes.
- `stab_binsearch` does not cross its bounds when every entry lies above the address, and with entries
  at an address and just behind it can return the later one (`Stabs.AgreesExactly`).
- In base 16 `strtol` reads on behind a printed 0 that is followed by an x.

## Model

| member | source | states |
|---|---|---|
| SwapMap.Spot | kern/mm_pres.c:182-193 | the first clear bit from index 1, or 0 when all are set |
| SwapMap.SpotIsFreeRun | kern/mm_pres.c:177-193 | in a map of whole runs the single bit found starts a wholly free eight-sector run inside the map if and only if fewer than 32767 slots are used |
| Bitmap.GetBit | kern/bitmap.c:14-17 | the shift and mask read the abstract bit |
| Bitmap.ToggleBit | kern/bitmap.c:7-10 | the xor changes exactly the one abstract bit |
| SwapProtocol.FlagsRoundTrip | kern/mm_pres.c:261-279 | the flag edits of page_out, swap_in and page_in restore an entry if and only if it used neither PTE_G nor PTE_AVAIL, and the fault handler starts a page-in if and only if PTE_AVAIL was empty or full |
| SwapProtocol.SharersNeverUpdated | kern/mm_pres.c:118-160 | page_in looks for other entries to update if and only if PTE_AVAIL was partly set, so never after swap_in |
| SwapSafety.IdleMapIsWhole | kern/mm_pres.c:177-193 | whenever no transfer is part-way the set bits are whole eight-sector runs at 1 mod 8 |
| SwapSafety.KtaskKeeps | kern/env.c:704-773 | a ktask round keeps the whole invariant (queue order, map, ownership, disk contents) and changes no page a user can see |
| SwapSafety.OutMoves | kern/mm_pres.c:213-234 | writing one sector keeps the invariant and the view |
| SwapSafety.InMoves | kern/mm_pres.c:88-109 | reading one sector back keeps the invariant and the view |
| SwapSafety.OutEnds | kern/mm_pres.c:235-297 | ending an eviction moves the page from its frame to its slot without changing the view |
| SwapSafety.InEnds | kern/mm_pres.c:110-170 | ending a page-in moves the page from its slot to its frame without changing the view |
| SwapSafety.ReclaimKeeps | kern/mm_pres.c:373-391 | queuing an eviction keeps the invariant and the view |
| SwapSafety.FaultKeeps | kern/trap.c:628-726 | swap_in keeps the invariant and the view |
| SwapSafety.WriteView | kern/mm_pres.c:221-230 | a store into a present page is the store into the page a user sees |
| SwapSafety.WriteExact | kern/mm_pres.c:221-230 | a store keeps the invariant if and only if it does not change a sector that eviction already wrote |
| SwapSafety.StepRefines | kern/env.c:704-773 | every step refines the same step on plain private pages |
| SwapAccounts.StepAccounts | kern/mm_pres.c:284-288 | every step keeps: a frame is allocated if and only if a present entry maps it or a queued page-in holds it, with count 1 or 0; an environment sleeps if and only if a page-in for it is queued |
| SwapAccounts.HeadSettled | kern/mm_pres.c:163-170 | the last round of an eviction leaves its frame free with count 0; the last round of a page-in leaves its frame allocated with count 1 and its environment awake |
| SwapRuns.BootInv | kern/mm_pres.c:23-26 | the empty map and queue with all frames free and nobody asleep satisfy the invariant and the accounts |
| SwapRuns.RunAccounts | kern/env.c:704-773 | the accounts over every run |
| SwapRuns.BootAccounts | kern/env.c:704-773 | after any run from boot, spelled out: who is allocated and who sleeps, each if and only if |
| SwapRuns.RunRefines | kern/env.c:704-773 | over every run the kernel does not halt, the invariant holds, and users see what they would see without swapping |
| SwapRuns.TaskFinishes | kern/env.c:704-773 | whatever else is queued, a tasklet ends within nine ready rounds for each tasklet up to it |
| SwapRuns.WaitAt | kern/env.c:704-773 | that number of rounds is at most nine times its place in the queue |
| SwapRuns.StaysIdle | kern/env.c:704-773 | a page no tasklet is about keeps its entry through any run |
| SwapRuns.Evicted | kern/mm_pres.c:198-301 | after enough ready rounds an evicted page is on disk, unchanged, and a fault will fetch it |
| SwapRuns.EvictedFrees | kern/mm_pres.c:284-288 | after enough ready rounds the evicted page's old frame is free, unless some step took it again |
| SwapRuns.PageInWakes | kern/mm_pres.c:165-170 | after enough ready rounds the environment that faulted is awake, unless it has faulted on another page |
| SwapRuns.SwapRoundTrip | kern/trap.c:628-726 | evict, fault, page in, with any other work in between: the entry's flags are the original ones on the new frame, the bytes are identical, and the environment is awake unless it has faulted again |
| SwapRuns.SlotSettled | kern/mm_pres.c:96-105 | the round that ends a page-in leaves its slot's eight bits clear, the one that ends a page-out leaves them set and its number in the entry |
| SwapSlots.StepLost | kern/env.c:882-887 | in any step a slot is lost (used, named by no entry, moved by no transfer) if and only if it was lost before or the step drops the swapped entry that names it |
| SwapSlots.RunLost | kern/env.c:882-887 | the same over runs: a lost slot never comes back |
| SwapSlots.SlotsConserved | kern/mm_pres.c:182-193 | after any run from boot, with no transfer part-way, a slot is used if and only if a swapped entry names it or the run dropped one that did |
| SwapHazards.EvictionKeeps | kern/mm_pres.c:198-301 | the rest of an eviction, from any point, keeps the invariant and the view and ends with whole runs |
| SwapHazards.NotReadyIdles | kern/mm_pres.c:231-234 | rounds with the disk not ready change nothing once a transfer has begun |
| SwapHazards.LateWriteIsLost | kern/mm_pres.c:221-297 | a store into a sector already written, at any point of the transfer, is gone for every user when the eviction ends |
| SwapHazards.WriteTakesEffect | kern/mm_pres.c:221-297 | a store by any user during an eviction shows afterwards if and only if its sector was not yet written or it stores the same bytes |
| SwapHazards.DroppedEviction | kern/mm_pres.c:242-245 | if the page is unmapped and freed at any point, the rest of the eviction sets all bits of the slot and then clears the first one only |
| SwapHazards.FreedDuringWrite | kern/mm_pres.c:242-249 | wherever in the transfer the page is taken away, the map has whole runs afterwards if and only if the frame was still referenced before the last round |
| SwapHazards.FreedMisleads | kern/mm_pres.c:182-193 | after that the search for a hole returns the same slot, of which only the first sector is free |
| SwapHazards.NextEviction | kern/mm_pres.c:213-230 | the next eviction takes that slot and ends with its seven other sectors marked free; the next hole found starts inside it |
| Tasklets.NoTaskletLost | kern/pmap.c:591-671 | each of the 100 tasklets is on the work list, on the free list or being prepared |
| Tasklets.TaskPool.constructor | kern/pmap.c:892-937 | all tasklets free, in order |
| Tasklets.TaskPool.TaskAdd | kern/pmap.c:591-615 | appends at the tail and ends although the loop passes through the new node |
| Tasklets.TaskPool.TaskGetFree | kern/pmap.c:620-632 | takes the head of the free list for preparation, keeping the partition |
| Tasklets.TaskPool.TaskAddAlloc | kern/pmap.c:667-671 | queues the prepared tasklet last, keeping the partition |
| Tasklets.TaskPool.TaskFree | kern/pmap.c:637-661 | removes exactly the named tasklet from the work list and appends it to the free list |
| SwapKernel.Kernel.FindSwapSpot | kern/mm_pres.c:182-193 | the loop over the byte bitmap finds the specified spot |
| SwapKernel.Kernel.PageOutOnce | kern/mm_pres.c:198-301 | one call is the page-out step of the protocol |
| SwapKernel.Kernel.PageInOnce | kern/mm_pres.c:82-174 | one call is the page-in step of the protocol |
| SwapKernel.Kernel.Ktask | kern/env.c:704-773 | with every queued tasklet ready, a round is the protocol's ktask step and leaves every queued tasklet ready |
| SwapKernel.Kernel.ReclaimPage | kern/mm_pres.c:373-395 | queues the eviction of the page a frame is mapped at, or fails without a free tasklet |
| SwapKernel.Kernel.SwapIn | kern/trap.c:628-726 | marks the entry, allocates the frame, puts the environment to sleep and queues the page-in |
| CowSafety.StoreRefines | kern/pmap.c:1470-1524 | a store through a writable entry changes one environment's page only |
| CowSafety.DemandRefines | kern/trap.c:559-586 | a demand fault adds a zero frame and changes no visible byte |
| CowSafety.DedupRefines | kern/pmap.c:1470-1524 | a write fault copies or reuses the frame, keeps counts exact and changes no visible byte |
| CowSafety.ForkCount | kern/env.c:344-378 | fork adds as many mappers to each frame as the parent has |
| CowSafety.ForkRefines | kern/env.c:344-378 | lazy sharing at fork shows the same memory with the same permissions as copying all of it |
| CowSafety.ExitRefines | kern/env.c:844-912 | exit removes one environment's memory and keeps all counts exact |
| CowSafety.ExitFrees | kern/env.c:844-912 | a frame is freed if and only if only this environment mapped it |
| CowSafety.UnmapRefines | kern/pmap.c:1570-1604 | unmapping keeps counts exact and changes one page |
| CowSafety.StepRefines | kern/trap.c:792-812 | every step refines the eager machine and keeps: a writable entry is the only mapping of its frame |
| CowSafety.CowRefinesEager | kern/env.c:344-378 | over every run copy-on-write is indistinguishable from eager copying, in bytes and in what each page may be used for |
| CowSafety.StoreGranted | kern/trap.c:792-812 | after the faults it raises, a store to a page succeeds if and only if the page's area permits writing, shared or not |
| CowSafety.ProtectExact | kern/vma.c:532-573 | changing a present page's permissions keeps the invariant if and only if it does not make a shared page writable, and changes what a user sees in that page's permissions only |
| CowSafety.ProtectBreaksIsolation | kern/vma.c:532-573 | otherwise a store is seen through another page |
| CowSafety.DedupNoMemoryExact | kern/pmap.c:1493-1507 | a failing copy keeps the counts exact if and only if the page was not shared |
| PageWalk.FlatUnique | inc/mmu.h:32-44 | the tables determine the flat map |
| PageWalk.SetLeaf | kern/pmap.c:1422-1463 | writing one table entry changes the translation of one virtual page only |
| PageWalk.AccessExact | kern/pmap.c:1315-1325 | the processor grants a user access through both levels if and only if the flat entry grants it: no page table restricts its pages |
| PageWalk.AddTable | kern/pmap.c:1275-1333 | a new page table adds no translation |
| PageWalk.DropTable | kern/env.c:873-893 | dropping an empty table removes no translation |
| PageWalk.AddRoot | kern/env.c:189-236 | a new directory adds no translation |
| FrameUse.InsertedSound | kern/pmap.c:1422-1463 | insertion keeps every count, the free list and the tables sound and is the flat insertion |
| FrameUse.RemovedSound | kern/pmap.c:1570-1604 | removal likewise, freeing the frame exactly at count zero |
| ForkExit.ForkAbs | kern/env.c:344-378 | sound machines before and after fork differ by exactly the flat fork |
| ForkExit.ExitAbs | kern/env.c:844-912 | sound machines before and after exit differ by exactly the flat exit |
| ForkExit.ExitFree | kern/env.c:866-912 | once an environment is gone the free list is what it was and exactly the frames only it used |
| ForkShare.PartInv | kern/env.c:353-376 | with any part of the parent's pages shared, a writable entry is still the only mapping of its frame |
| ForkShare.Advance | kern/env.c:356-372 | one page more: its entry, the tables needed so far, the free list and the count of frame 0 |
| PageTables.Memory.constructor | kern/pmap.c:1009-1020 | exactly the frames of the scanned range that are not taken are on the free list, the last one first; all others stay reserved; nothing is mapped |
| PageTables.Memory.PageAlloc | kern/pmap.c:1074-1154 | the head of the free list; no visible state changes |
| PageTables.Memory.PgdirWalk | kern/pmap.c:1275-1333 | returns the table, created on request, adds no translation, and fails exactly when it may not or cannot create one |
| PageTables.Memory.PageInsert | kern/pmap.c:1422-1463 | the flat insertion, for a new, a different or the same frame: afterwards the page has exactly the new entry and no other page has changed; fails exactly without memory for a table |
| PageTables.Memory.PageRemove | kern/pmap.c:1570-1604 | the flat removal: exactly that page's entry goes |
| PageTables.Memory.DemandFault | kern/trap.c:559-598 | the flat demand step; a panic exactly without a free frame; the environment killed, with the frame leaked, exactly when none is left for the page table |
| PageTables.Memory.PageDedup | kern/pmap.c:1470-1524 | the flat copy step, or the documented failure when memory is short |
| PageTables.Memory.EnvSetupVm | kern/env.c:189-236 | a counted directory: nothing below UTOP, the kernel's entries above it, and the directory itself at UVPT, readable by users |
| PageTables.Memory.EnvCpyPgdirCow | kern/env.c:344-378 | succeeds exactly if the free list suffices for the tables the child lacks; then the entries are shared and read-only in both and the count of frame 0 has grown by the number of absent entries met; on failure a part of the pages is shared |
| PageTables.Memory.ForkEnv | kern/env.c:387-430 | succeeds exactly if the free list holds a directory and one table per directory entry met; then it is the flat fork; each page of the parent's areas is there for the child with the same permissions, the child has no others, and no other area changes; on failure counts are exact, writable pages unshared and every visible byte unchanged |
| PageTables.Memory.EnvFree | kern/env.c:844-912 | the flat exit; the free list gains exactly the directory, the tables and the pages that only this environment mapped |
| PageAllocator.Pool.RemoveHead | kern/pmap.c:360-377 | takes the head, count follows |
| PageAllocator.Pool.RemoveElement | kern/pmap.c:383-409 | takes exactly one page off the list, or nothing if it is not listed |
| PageAllocator.Pool.AddHead | kern/pmap.c:446-455 | adds a cleared page at the head |
| PageAllocator.Pool.FindHugePage | kern/pmap.c:1028-1053 | the lowest aligned block without an allocated page, or -1 when there is none |
| PageAllocator.Pool.PageAlloc | kern/pmap.c:1074-1154 | 4 KB: the head; 4 MB: the lowest free block, exactly its pages leave the list; count minus length is constant; poisoned 4 MB requests never succeed |
| PageAllocator.Pool.PageFree | kern/pmap.c:1165-1226 | panics exactly on misuse, otherwise adds exactly the page or the 1024 pages, cleared |
| PageAllocator.FreeableExact | kern/pmap.c:1165-1226 | page_free accepts a page if and only if it is allocated, unreferenced and off the list, and for 4 MB all of its 1024 pages are |
| PageAllocator.Pool.AllocThenFreePage | kern/pmap.c:1165-1226 | a 4 KB allocation succeeds whenever the list is not empty, and freeing it restores list and count |
| PageAllocator.Pool.AllocThenFree | kern/pmap.c:1165-1226 | allocating and freeing 4 MB restores the free set if and only if the whole block was on the list |
| PageAllocator.UnlinkSound | kern/pmap.c:383-409 | unlinking keeps the chain and removes one element |
| VmaAreas.MergedPerm | kern/vma.c:578-590 | merging two areas keeps the permission map |
| VmaAreas.MergedSorted | kern/vma.c:578-590 | merging keeps the list sorted and disjoint |
| VmaAreas.EditPerm | kern/vma.c:430-468 | shrinking or re-permissioning one area changes the map only inside it |
| VmaAreas.InsertPerm | kern/vma.c:174-232 | a new area adds exactly its own addresses |
| VmaAreas.RemovePerm | kern/vma.c:307-363 | removing an area removes exactly its addresses |
| VmaSpace.RoundUpExact | kern/env.c:655-661 | the least page multiple that is not less, or 0 where it does not fit 32 bits |
| VmaSpace.Space.constructor | kern/vma.c:21-47 | 105 free slots in order, no area |
| VmaSpace.Space.VmaLookup | kern/vma.c:239-253 | the first area that covers the address, or none does |
| VmaSpace.Space.VmaInsert | kern/vma.c:123-161 | links the element behind every area that starts at or before it |
| VmaSpace.Space.VmaNew | kern/vma.c:174-232 | refused, out of slots, or exactly one new area in order from the head of the free list |
| VmaSpace.Space.VmaRemoveAlloced | kern/vma.c:307-363 | removes the first area with the given start and length and frees its slot, blank |
| VmaSpace.Space.VmaMerge | kern/vma.c:578-590 | merges neighbours; on two free slots changes nothing and returns -1 |
| VmaSpace.Space.VmaListMerge | kern/vma.c:597-634 | ends, merges exactly the first mergeable pair, keeps the permission map, and returns -1 exactly after a merge with a non-empty free list |
| VmaSpace.Space.VmaSplitLookup | kern/vma.c:387-473 | which of its results comes when; keeping: the same map with the range as one area; removing: exactly the range is gone |
| VmaSpace.Space.VmaChangePerm | kern/vma.c:532-540 | one area's permission |
| VmaSpace.Space.SysVmaProtect | kern/syscall.c:352-393 | the permission map is updated on exactly the range, whatever the merge returns; the result and the crashes exactly |
| VmaSpace.Space.SysVmaDestroy | kern/syscall.c:253-297 | exactly the range leaves the permission map; failures and crashes exactly |
| VmaSpace.CutSound | kern/vma.c:430-468 | cutting an area in two keeps the map and the order |
| VmaSpace.ReleaseLinks | kern/vma.c:324-352 | one slot moves from the ordered list to the head of the free list |
| VmaCopy.EnvCpyVmas | kern/env.c:295-316 | the child's areas and permission map equal the parent's; the slots always suffice |
| EnvIds.IdClosed | kern/env.c:455-459 | the n-th id of a slot in closed form, through 32-bit overflow |
| EnvIds.IdNamesSlot | inc/env.h:12-32 | ids are positive and name their slot if and only if the slot is a proper one |
| EnvIds.IdsRepeat | kern/env.c:455-459 | two allocations of a slot get the same id if and only if they are a multiple of 524287 apart |
| EnvIds.IdsUnique | kern/env.c:455-459 | different slots never share an id |
| EnvModel.BootInv | kern/env.c:136-153 | the table after env_init satisfies the invariant |
| EnvModel.AllocKeeps | kern/env.c:440-523 | allocation keeps ids, the free list as exactly the free entries with its fresh suffix, and waits |
| EnvModel.AllocStarts | kern/env.c:440-523 | the new environment was free and is ready, under an id that no environment in use has; nobody else changes |
| EnvModel.ReleaseWakes | kern/env.c:856-863 | release frees one entry and makes ready exactly the sleepers on its id, except one in the extra entry; nobody else changes |
| EnvModel.LookupSelf | kern/env.c:93-97 | id 0 names the caller, and so does its own id unless it is in the extra entry |
| EnvModel.ReleaseKeeps | kern/env.c:856-863 | release keeps them and ends the waits for the released id |
| EnvModel.WaitKeeps | kern/syscall.c:312-333 | sys_wait keeps them |
| EnvModel.RunKeeps | kern/env.c:844-912 | the invariant over every interleaving of critical sections |
| EnvModel.NoLostWakeup | kern/syscall.c:312-333 | after any run whoever still sleeps in sys_wait(w) waits for an environment in use under id w, in the incarnation it asked for |
| EnvWaits.WaitSleeps | kern/syscall.c:328-329 | with the id of an environment in use the caller sleeps on it, its wait is recorded, and nothing else changes |
| EnvWaits.WaitLasts | kern/syscall.c:312-333 | over any run that releases neither of the two and does not set the caller's status, it still sleeps on the same incarnation |
| EnvWaits.WaitEnds | kern/env.c:856-863 | over such a run the caller sleeps, and the release of that incarnation makes it ready |
| EnvModel.LookupExact | kern/env.c:88-127 | an id is found if and only if its slot is in use and a multiple of 524287 allocations passed |
| EnvModel.StaleRefused | kern/env.c:88-127 | after any run a stale id is refused until 524287 allocations later |
| EnvModel.TailNotFound | kern/env.c:143-152 | an environment in the extra entry is not found under its id |
| EnvModel.IdsApart | kern/env.c:455-459 | ids of two slots are equal if and only if both were never allocated, and those slots form a suffix |
| EnvModel.OnlyParentFinds | kern/env.c:119-123 | with the permission check a new environment is found by itself and its parent and by nobody else |
| SchedSearch.Approaches | kern/sched.c:54-85 | passing over a runnable environment brings the search nearer to it |
| SchedSearch.Fair | kern/sched.c:215-269 | a runnable environment is chosen within fewer than NENV - NKTHREADS consecutive user-to-user switches |
| EnvTable.Table.constructor | kern/env.c:136-153 | the loop builds the boot table |
| EnvTable.Table.Envid2Env | kern/env.c:88-127 | the specified lookup |
| EnvTable.Table.EnvAlloc | kern/env.c:440-523 | the allocation step, or nothing without an entry or memory |
| EnvTable.Table.EnvFree | kern/env.c:856-863 | the release step with its wake-up loop |
| EnvTable.Table.SysWait | kern/syscall.c:312-333 | the wait step, or -1 for an unknown id |
| EnvTable.Table.RunnableEnvLookup | kern/sched.c:54-85 | ends; the first runnable user environment in circular order; otherwise none is runnable and the result is the slot before the start if it runs here, else -1 |
| EnvTable.Table.SearchStart | kern/sched.c:215-255 | the start slot that sched_yield uses satisfies what the search needs |
| EnvTable.NoneReady | kern/sched.c:74-81 | where the search stops it has seen every runnable user environment |
| Spinlock.StepKeeps | kern/spinlock.c:94-112 | every single load, store and exchange keeps the invariant |
| Spinlock.MutualExclusion | kern/spinlock.c:94-154 | under every interleaving at most one CPU owns the lock, and the lock word is set if and only if one does |
| Spinlock.AcquireIff | kern/spinlock.c:104-105 | after any interleaving, an exchange takes the lock if and only if nobody owns it; otherwise it changes nothing |
| Spinlock.LockAlone | kern/spinlock.c:94-112 | when nobody owns the lock, a CPU that runs alone has it after at most six steps, under its name |
| Spinlock.UnlockAlone | kern/spinlock.c:117-154 | the owner that runs alone has given it up after at most eight steps: nobody owns it, the word and the name are clear |
| Spinlock.BadUnlockPanics | kern/spinlock.c:119-141 | a release by a CPU that does not own the lock panics, whatever the others do |
| Spinlock.HoldingExact | kern/spinlock.c:65-68 | a CPU's own holding test is exact, and the panics come exactly for misuse |
| Spinlock.RelockPanics | kern/spinlock.c:94-99 | a second acquisition panics, and no other CPU can change what its test reads |
| Stabs.StabBinsearch | kern/kdebug.c:59-102 | the loops compute the specified search |
| Stabs.LoopKeeps | kern/kdebug.c:64-90 | what the search has excluded on both sides, through every turn |
| Stabs.AgreesIff | kern/kdebug.c:59-102 | with an entry at or below the address, both bounds equal those of a linear scan if and only if the search met an equal address at most once |
| Stabs.AgreesExactly | kern/kdebug.c:59-102 | the same by the table alone: the bounds differ if and only if a plain search for the address hits an entry with an entry at the next address to its right in the interval of that moment |
| Stabs.Agrees | kern/kdebug.c:22-58 | in particular when the table does not hold both the address and the next one |
| Stabs.NeighboursDisagree | kern/kdebug.c:83-89 | a table on which the search returns the wrong entry |
| Stabs.NoEntries | kern/kdebug.c:92-93 | without an entry of the type the bounds cross |
| Stabs.AllLater | kern/kdebug.c:94-101 | the exact bounds when every entry lies above the address |
| NumberText.Output.PrintNum | lib/printfmt.c:39-53 | emits the padded digits |
| NumberText.PrintedExact | lib/printfmt.c:39-53 | what is printed is the padding up to the width and then the only numeral of the number in lower-case digits without a leading zero |
| NumberText.Strtol | lib/string.c:227-271 | the loops compute the specified parse, overflow wrapping |
| NumberText.EvalDigits | lib/printfmt.c:39-53 | the digits stand for the number |
| NumberText.ParseRun | lib/string.c:250-266 | the digit loop on a run of digits whose number fits |
| NumberText.ParsedSigned | lib/string.c:227-271 | blanks, sign, prefix and digits: the number of the digits in the base that the prefix or the argument gives, negated behind a minus |
| NumberText.RoundTrip | lib/string.c:227-271 | strtol undoes printnum and stops behind the digits if and only if what follows does not continue the number |

## Left out

- Boot code, descriptor tables, trap entry, interrupt controllers, the console, user programs and scripts.
- Huge pages in page tables, fork and `env_free`; demand loading of binaries; the early boot allocator with PREMAPPED_FLAG set, which forgets to lower the count.
- Swapping of shared pages, where the model halts, and kernel-mode faults on swapped pages; LRU order (which page is reclaimed is a parameter), `oom_kill` and the direct-reclaim sleep map.
- `find_pte_all`, which scans all page tables, is the lookup of the one entry that maps an unshared frame.
- `vma_find_spot` and the other area system calls; page-table changes of `vma_change_perm` and `vma_remove_pages` over ranges.
- That one environment never runs on two CPUs, which the locking does not promise by itself; store buffers of the CPUs (the lock's stores are ordered by locked exchanges).
- Bytes of pages in the 4 MB allocator, and poisoning of contents.
- 16-bit overflow of `pp_ref`: counts are unbounded numbers.
- PageTables.Memory.PageRemove: not stated for an absent or swapped entry in an existing table, where the code takes frame 0 or a sector number for the mapped frame.
- PageTables.Memory.PageInsert: takes a frame that is mapped already or was just allocated, and no huge permission; the kernel panics on a permission with PTE_P.
- PageTables.Memory.PageDedup: the count is lowered after the allocation instead of before it; nothing can observe the order.
- CowSafety.ProtectExact: one page; the loop of `vma_change_perm` over an area stops at the first missing page table.
- VmaSpace.Space.VmaRemoveAlloced: does not model `destroy_pages`, the unmapping of the area's pages.
- PageTables.Memory.EnvFree: does not model the decrement of the frame that holds the field `env_vmas`.
- PageTables.Memory.ForkEnv: no entry of the parent is swapped out; the page list of the parent's areas is an argument.
- SwapKernel.Kernel.Ktask: a round runs under its locks without interruption.
- VmaSpace.Space.SysVmaProtect: page-aligned, nonempty ranges without wraparound; the state after a crash is not stated.
- VmaSpace.Space.SysVmaDestroy: as for protect.
- VmaSpace.Space.VmaSplitLookup: as for protect.
- VmaCopy.EnvCpyVmas: the parent's areas are as `vma_new` makes them, and the child has no area yet.
- EnvTable.Table.EnvFree: the release of memory is in PageTables.
- Stabs.StabBinsearch: entries of the searched type lie below the last 32-bit address, so that the bumped address does not wrap.
