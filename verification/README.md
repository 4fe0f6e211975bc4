# Verified model of the SABOS kernel's memory, storage and handle subsystems

SABOS is an x86_64 kernel whose subsystems are small state machines over tables that are changed
in place. This project models nine of them in Dafny and proves what their tables keep over every
run. Each component has a value-level theory (predicates, functions and lemmas) and, where the
kernel changes state, a class whose methods follow the kernel's code and are proved against that
theory.

| component | files |
|---|---|
| buddy frame allocator | `Dyadic`, `BuddyTheory`, `BuddyTables`, `BuddyRegion`, `BuddyFrames` |
| per-process page tables | `PageTables`, `PagingSteps`, `PagingHooks`, `PagingMap`, `PagingRange`, `PagingDescent`, `PagingLife`, `PagingDestroy`, `PagingUser`, `PagingElf`, `PagingUnmap`, `PagingRuns`, `PagingFrames`, `AddressSpaces`, `PagingProgram`, `PagingExamples` |
| large-object heap | `HeapModel`, `LargeHeap` |
| FAT16 | `FatNames`, `FatSpelling`, `FatChains`, `FatData`, `FatModel`, `FatFiles`, `FatPaths`, `FatRounds`, `FatLoops`, `FatWalks`, `FatVolume` |
| frame buffer | `Bresenham`, `DisplayModel`, `Display` |
| handles and pipes | `HandleModel`, `Handles`, `HandleRuns` |
| scheduler | `Scheduler` |
| virtual memory areas | `VmaAreas` |
| initial user stack | `ArgStack` |
| shared | `Options` |

`dafny verify dfyconfig.toml` checks everything.

## How to read the model

- Machine integers are unbounded naturals. Where a width matters it is written out: 64-bit bitmap
  words, 64-bit handle tokens, the 16-bit cluster and 32-bit size fields of a directory slot,
  64-bit pointers on the user stack.
- A kernel panic is a result (`None`, `false`, `Panic`), and the contract says what has been
  changed by then.
- Locks are taken as given: every operation is one atomic step. Calls into hardware (TLB and CR3
  writes, memory-mapped frame buffer, block device) keep only their effect on the modelled tables.
- **Buddy.** The free lists are sequences of frame addresses, the bitmap a sequence of 64-bit
  words. The central notion is `BuddyTheory.Canonical`: a family of blocks is exactly the set of maximal free
  blocks of the bitmap. `RegionBuddyAllocator.Valid` says the free lists are canonical, so every
  method that keeps `Valid` keeps the lists equal, as sets, to what a rebuild would compute.
  `Init` accepts any regions and leaves a valid allocator exactly for nonempty, page-aligned,
  non-overlapping ones. Sorting and `partition_point` of the standard library are modelled by
  functions with their documented meaning.
- **Page tables.** Physical memory maps a frame to 512 entries. `PageTables.Inv` is the sharing
  invariant: each table a process reaches is its own, or exactly the kernel's table at the same
  path. It assumes of the kernel's tables that used entries are present and that no L4 entry is
  huge. `Walk` is the hardware's walk and is the independent meaning every operation is proved
  against; a `Leaf` holds the physical address, the leaf's flags, whether USER and whether WRITABLE
  is set on all entries above it, and the depth at which it was found. The frame allocator appears as its
  free set with the contract proved for `BuddyFrameAllocator.AllocateFrame`. `PagingProgram.Run` executes any list of operations on any
  processes with the methods of `PagingState`; its ledger is what a caller knows: the live
  processes and the frames behind the pages they mapped. Isolation needs nothing of the kernel's
  flags. What user code reaches is accounted for from a process's creation on if no kernel leaf
  carries USER. Frames are counted exactly if the kernel maps no 1 GiB page (`NoGiant`); with one,
  the code can take a table of a process for the kernel's and lose it.
- **Heap.** Headers are a map from address to size and next pointer; `HeapModel.Heap` is the
  list of free blocks, the live blocks and the bump pointer it represents.
- **FAT16.** Table copies are sequences of 16-bit entries, slots are 32 bytes, the data area is a
  sequence of 512-byte sectors. `WellFormed` is: equal copies, nothing after the end slot, distinct
  names, disjoint chains that are on the device and long enough, free clusters on the device.
  Directories below the root are `Tree`s: the chains of the directory's files and subdirectories.
  `ReadPath` is the meaning of a path, part by part. Deleting and listing follow the code's own
  two ways of reading a slot's name. `FatSpelling` says, without the code's own functions, which
  spellings of a path mean the same.
- **Frame buffer.** A pixel groups its four bytes; buffers are flat with a stride.
- **Handles and pipes.** `Past` records serial numbers, the rights each chain of duplicates began
  with, closed handles, and the bytes written to and read from each pipe. `Guarded` holds in every
  state of every run; `Valid` adds that each pipe counts its ends, which uncounted copies end. The
  log of a run lists what went through which handle, and the streams are what it replays to.

Where the code does not meet what it is for, the exact condition is proved and, where it helps, an
input that fails is given.

- Allocating from a free block with an alignment above 8 moves the block's header up without
  shrinking its size. The blocks stay disjoint exactly when the bytes behind the block are unused
  (`HeapModel.TakePaddedOkIff`, `LargeHeap.AllocationOkIff`). `LargeHeap.Crowd` reaches a bad heap
  from the empty one.
- Destroying an address space gives back every table exactly when the kernel has a table above
  each of them and none is taken for the kernel's (`PagingDestroy.DestroyFreesAllIff`).
  `PagingProgram.LeakExample` maps one page where the kernel has nothing and loses two tables.
- Unmapping does not fork. It leaves the kernel's tables alone exactly when the page's L1 table
  belongs to the process or the page is not mapped (`PagingUnmap.ClearSparesKernelIff`).
  `PagingExamples.UnmapsKernel` removes a mapping of the kernel.
- Mapping a noted page again loses its frame, and destroying a process leaves the frames of pages
  not unmapped before to the caller's own list. Apart from these, from the tables above and from
  loaded segments, no operation loses a frame if the kernel maps no 1 GiB page
  (`PagingProgram.Execute`, `PagingFrames.MapConserves`, `PagingFrames.DestroyConserves`).
- A FAT16 file is written under the slot name but read by its path. It reads back exactly when the
  path is the slot name alone (`FatPaths.ReadsBackIff`). For names without a slash that is: nonempty
  and within 8.3 (`FatPaths.PathIsShown`). `A/B` is lost (`FatPaths.SlashLost`); a slash behind eight
  letters is not (`FatPaths.SlashCutOff`). Deleting by the name undoes the create exactly when the
  name fits and no earlier slot is taken for it (`FatRounds.CreateDeleteIff`).
- A copied read end of a pipe, and a pipe end with fewer rights, is not counted by its pipe, and
  the counts are wrong from then on (`HandleModel.UncountedBreaks`). `HandleRuns.StaleReader` is a
  copied read end that reads another pipe. Capabilities do not suffer (`HandleRuns.Run`).
- An empty area is accepted by the list of memory areas, and a range that ends before it starts
  cuts overlapping pieces out of the areas it touches (`VmaAreas.InsertSorted`,
  `VmaAreas.TrimmedSortedIff`).
- Arguments that need more than the stack are cut off: the arrays lead to the strings exactly when
  everything fits (`ArgStack.SetupUserStackArgs`). An argument with a zero byte comes back cut off
  (`ArgStack.RoundTrip`).

## Model

| member | source | states |
|---|---|---|
| `BuddyTheory.CanonicalFromCover` | kernel/src/memory.rs:118-147 | any family of maximal free blocks that covers all free frames is the canonical one |
| `BuddyTheory.Partition` | kernel/src/memory.rs:64-99 | canonical blocks are in range, aligned, pairwise disjoint, and cover exactly the frames whose bit is 0 |
| `BuddyTheory.FitsIffListed` | kernel/src/memory.rs:291-324 | an aligned free run of 2^k frames exists exactly when a listed block has order k or more |
| `BuddyTheory.AllocateKeepsCanonical` | kernel/src/memory.rs:291-324 | splitting a listed block and marking its lowest part leaves the lists canonical |
| `BuddyTheory.CoalesceMerge` | kernel/src/memory.rs:352-391 | merging a freed block with its listed buddy keeps the coalescing invariant one order up |
| `BuddyTheory.BuddyMissing` | kernel/src/memory.rs:352-391 | when the buddy is not listed as a whole block, the parent is not free |
| `BuddyTheory.NoneAbove` | kernel/src/memory.rs:352-391 | when the parent is not free, adding the block in hand makes the lists canonical |
| `BuddyTheory.AllocateDeallocateRestores` | kernel/src/memory.rs:291-391 | allocate followed by deallocate restores bitmap and lists |
| `BuddyTheory.CountMarked` | kernel/src/memory.rs:264-275 | marking n free frames changes the number of set bits by exactly n |
| `Dyadic.BuddyShape` | kernel/src/memory.rs:356-362 | the XOR buddy of an aligned block is the other aligned half of the same parent |
| `Dyadic.Laminar` | kernel/src/memory.rs:158-184 | an aligned block that meets a larger aligned block lies inside it |
| `BuddyRegion.RegionBuddyAllocator.constructor` | kernel/src/memory.rs:86-99 | a new region has all frames free and canonical lists |
| `BuddyRegion.RegionBuddyAllocator.BuildFreeLists` | kernel/src/memory.rs:118-147 | the rebuilt lists are canonical for the current bitmap, in descending order |
| `BuddyRegion.RegionBuddyAllocator.MaxFreeOrderAt` | kernel/src/memory.rs:158-184 | the largest order at which the offset is aligned and its run is free and in range |
| `BuddyRegion.RegionBuddyAllocator.IsRangeFree` | kernel/src/memory.rs:231-261 | the word-at-a-time scan decides exactly whether all frames of the range are free |
| `BuddyRegion.RegionBuddyAllocator.MarkRangeAllocated` | kernel/src/memory.rs:264-268 | sets exactly the bits of the range |
| `BuddyRegion.RegionBuddyAllocator.MarkRangeFree` | kernel/src/memory.rs:271-275 | clears exactly the bits of the range |
| `BuddyRegion.RegionBuddyAllocator.Allocate` | kernel/src/memory.rs:291-324 | fails exactly when no aligned free run fits; otherwise exactly that run becomes used; lists stay canonical |
| `BuddyRegion.RegionBuddyAllocator.Deallocate` | kernel/src/memory.rs:335-391 | given an aligned, fully used block, frees exactly it and leaves the lists canonical |
| `BuddyFrames.PartitionPoint` | kernel/src/memory.rs:504-520 | the binary search finds the number of regions that start at or before the address |
| `BuddyFrames.FindRegion` | kernel/src/memory.rs:504-520 | finds the unique region that owns an address, or none exactly when none does |
| `BuddyFrames.SortSorts` | kernel/src/memory.rs:434-453 | sorting by start address orders the regions |
| `BuddyFrames.SortKeeps` | kernel/src/memory.rs:434-453 | sorting loses and adds no region |
| `BuddyFrames.SortedRegionsOrdered` | kernel/src/memory.rs:434-453 | the sorted regions are in strict order exactly when the given regions are nonempty, aligned and apart |
| `BuddyFrames.BuddyFrameAllocator.Init` | kernel/src/memory.rs:434-453 | accepts any regions: they are sorted and set up with every frame free, and the allocator is valid exactly when they are whole and apart |
| `BuddyFrames.BuddyFrameAllocator.AllocateOrder` | kernel/src/memory.rs:489-497 | None exactly when no region fits; otherwise one block of one region becomes used and the count grows by 2^k |
| `BuddyFrames.BuddyFrameAllocator.DeallocateOrder` | kernel/src/memory.rs:504-530 | frees the block in its owning region and lowers the count; refuses unowned or free frames without change |
| `BuddyFrames.BuddyFrameAllocator.AllocateFrame` | kernel/src/memory.rs:597-599 | takes one frame out of the free set, or fails exactly when it is empty |
| `BuddyFrames.BuddyFrameAllocator.DeallocateFrame` | kernel/src/memory.rs:537-539 | puts exactly the frame back into the free set |
| `BuddyFrames.BuddyFrameAllocator.ReserveRange` | kernel/src/memory.rs:546-585 | exactly the frames with a byte in the range become used, the count follows, all lists are canonical again |
| `PagingProgram.Run` | kernel/src/paging.rs:746-1916 | any list of create, map, load, mark, unmap and destroy on any processes, whatever the kernel maps, keeps the sharing invariant, every entry of every kernel table, and every translation of every process not named; if nothing panics, each process whose account is kept reaches exactly the pages that the log says, and no frame is accounted for that was not before |
| `PagingProgram.Execute` | kernel/src/paging.rs:746-1916 | one operation does that; it is skipped only when there is no free frame, the process is dead or a page is not mapped; without 1 GiB pages, free frames, tables and noted frames together stay the same exactly when it is not one of the losing operations |
| `PagingProgram.CreateBalanced` | kernel/src/paging.rs:746-776 | a new process is not one of the live ones, and reaches nothing if no kernel leaf carries USER |
| `PagingProgram.MapBalanced` | kernel/src/paging.rs:1677-1822 | after mapping, the pages and frames of the range are on the account and every other process and page is as noted |
| `PagingProgram.LoadBalanced` | kernel/src/paging.rs:1387-1585 | loading a segment adds its pages to what the process reaches and takes them off the list of pages that may be unmapped |
| `PagingProgram.UnmapBalanced` | kernel/src/paging.rs:1833-1916 | unmapping noted pages takes exactly them off the account |
| `PagingProgram.DestroyBalanced` | kernel/src/paging.rs:1101-1227 | destroying a process leaves the accounts of all others right |
| `PagingProgram.MapThenUnmap` | kernel/src/paging.rs:1677-1916 | mapping a range and unmapping it returns its frames, leaves the range unmapped and every other page as before |
| `PagingFrames.CreateConserves` | kernel/src/paging.rs:746-776 | creating a process moves one frame from the free frames to the tables |
| `PagingFrames.MapConserves` | kernel/src/paging.rs:1677-1822 | mapping moves frames from the free ones to tables and noted pages, and loses one exactly when a page was noted already or the range wraps onto itself |
| `PagingFrames.MarkConserves` | kernel/src/paging.rs:786-1006 | marking only moves frames from the free ones to tables |
| `PagingFrames.UnmapConserves` | kernel/src/paging.rs:1833-1916 | unmapping moves exactly the frames of the noted pages back to the free ones |
| `PagingFrames.LoadBounded` | kernel/src/paging.rs:1387-1585 | loading brings no frame into the account that was not there |
| `PagingFrames.DestroyConserves` | kernel/src/paging.rs:1101-1227 | destroying loses no frame exactly when all tables come back and no page of the process is noted |
| `PagingRuns.CreateReach` | kernel/src/paging.rs:746-776 | if no kernel leaf carries USER, a new process reaches no page |
| `PagingRuns.MapReach` | kernel/src/paging.rs:1677-1822 | mapping adds exactly the range to the pages a process reaches, after any number of earlier operations |
| `PagingRuns.LoadReach` | kernel/src/paging.rs:1387-1585 | loading adds exactly the range |
| `PagingRuns.UnmapReach` | kernel/src/paging.rs:1833-1916 | unmapping takes exactly the range away |
| `PagingRuns.MapData` | kernel/src/paging.rs:1677-1822 | the frames behind all noted pages of all processes stay distinct and outside every page table |
| `PagingRuns.UnmapData` | kernel/src/paging.rs:1833-1916 | returning the frames of a range leaves every other noted page backed by its frame |
| `PagingRuns.ConfinedSafe` | kernel/src/paging.rs:746-1822 | an operation confined to one process changes no kernel table and no translation of another process |
| `PagingHooks.ConfinedOthers` | kernel/src/paging.rs:1677-1822 | an operation on one process changes no translation of any other |
| `PagingHooks.ForkServesPage` | kernel/src/paging.rs:1607-1625 | replacing a link by a link to a copy of its table serves every page as before |
| `PagingHooks.SplitServesPage` | kernel/src/paging.rs:1013-1093 | splitting a 1 GiB or 2 MiB page serves every page as before |
| `PagingHooks.HookInv` | kernel/src/paging.rs:1588-1625 | hooking a filled free frame into an owned table keeps the sharing invariant |
| `PagingMap.PageOfPeriod` | kernel/src/paging.rs:1724-1728 | two addresses have the same four indices exactly when their page numbers agree modulo 2^36 |
| `PagingMap.PageOfDigits` | kernel/src/paging.rs:1724-1728 | the four indices and the offset are the base-512 digits and the rest of the low 48 bits of the address |
| `PagingMap.OwnedWalk` | kernel/src/paging.rs:1234-1272 | a page whose L1 table is owned is served by that table's entry, below the USER and WRITABLE bits of the entries above |
| `PagingMap.MapStep` | kernel/src/paging.rs:1790-1812 | writing a fresh zeroed frame into the L1 entry maps that page and no other |
| `PagingRange.RangeGrow` | kernel/src/paging.rs:1722-1812 | one more page of a range: earlier pages, frames and the outside stay as promised |
| `PagingRange.ReachAfterMap` | kernel/src/paging.rs:1677-1822 | exactly the mapped pages become user-reachable |
| `PagingRange.RangeDistinct` | kernel/src/paging.rs:1722-1728 | up to 2^36 pages a range does not wrap onto itself |
| `PagingDescent.SubtableIsTable` | kernel/src/paging.rs:1631-1664 | where the kernel has a table, the comparison address is that table |
| `PagingDescent.NotKernel` | kernel/src/paging.rs:1740-1748 | an entry that differs from the comparison address leads to a table of the process |
| `PagingDescent.NotOwned` | kernel/src/paging.rs:1740-1748 | without 1 GiB pages, an entry at the compared address is never a table of the process, so a fork loses none |
| `PagingDescent.HugeIsKernel` | kernel/src/paging.rs:1455-1483 | a 1 GiB entry of a process is always at the compared address, so segment loading panics there and never skips a page |
| `AddressSpaces.PagingState.AllocZeroedFrame` | kernel/src/paging.rs:1588-1601 | takes a free frame and zeroes it, or fails exactly when none is free |
| `AddressSpaces.PagingState.ForkPageTable` | kernel/src/paging.rs:1607-1625 | takes a free frame and copies the table into it |
| `AddressSpaces.PagingState.AllocPieces` | kernel/src/paging.rs:1013-1093 | takes a free frame and fills it with the 512 pieces of a huge page |
| `AddressSpaces.PagingState.Descend` | kernel/src/paging.rs:1730-1787 | new table, split, fork or flags: the entry leads to an owned table with the intermediate flags, all translations stay |
| `AddressSpaces.PagingState.MapAnonymousPages` | kernel/src/paging.rs:1677-1822 | page i translates to the i-th fresh zeroed frame; every page of the range is present, reachable by user code, never executable, and writable on all levels exactly if asked for; all other addresses as before, also when frames run out; at most seven frames per page are taken |
| `AddressSpaces.PagingState.CreateProcessPageTable` | kernel/src/paging.rs:746-776 | the new L4 holds the kernel's entries; the invariant is kept |
| `PagingLife.CreatedSeesKernel` | kernel/src/paging.rs:746-776 | a new process sees exactly what the kernel's tables map |
| `PagingLife.CreatedOthers` | kernel/src/paging.rs:746-776 | creating a process changes no other process's translations |
| `AddressSpaces.PagingState.SetUserAccessible` | kernel/src/paging.rs:786-1006 | addresses stay and leaf flags only grow, every mapped page of the range becomes user-reachable, only leaves that serve a page of the range change, other processes and the kernel are untouched |
| `PagingUser.MarkReach` | kernel/src/paging.rs:786-1006 | a page that user code reaches only after marking is served by the same leaf as a page of the range |
| `PagingUser.MarkStepOnly` | kernel/src/paging.rs:832-975 | marking an entry changes the leaf flags of the pages that share the marked page's leaf, and of no other |
| `PagingDescent.LooseGuards` | kernel/src/paging.rs:832-975 | the comparison addresses of the USER pass are the kernel's tables wherever it has them |
| `AddressSpaces.PagingState.MapUserPages` | kernel/src/paging.rs:1345-1585 | confined to the process; the pages from the one that holds the start to the one that holds the last byte are user-reachable at their returned frames, writable if bit 1 and executable if bit 0 of the flags is set; a page keeps its frame exactly if it was USER and one of the known frames, and then also its old permissions, else it gets a free frame and exactly the permissions of the bits; the outside is as before, also on a panic |
| `PagingElf.Merge` | kernel/src/paging.rs:1372-1386 | merged flags permit what either segment permits |
| `PagingElf.ReuseStep` | kernel/src/paging.rs:1521-1558 | keeping a known USER frame changes only that page's flags |
| `PagingElf.SegmentRange` | kernel/src/paging.rs:1345-1585 | the permissions of every page of a loaded range in the bits of the segment flags, also where the range meets a page twice |
| `PagingElf.LeavesGrow` | kernel/src/paging.rs:1490-1585 | one more page: a page met for the first time gets its frame and flags, one met again keeps both |
| `AddressSpaces.PagingState.TranslateInProcess` | kernel/src/paging.rs:1234-1272 | finds an address exactly when the hardware's walk does: the address of its leaf plus the offset in the page |
| `AddressSpaces.PagingState.UnmapPages` | kernel/src/paging.rs:1833-1916 | for every range: the entries that serve it are cleared in order, whoever owns the tables, and their frames are given back, or the allocator panics exactly when one cannot be; a range in L1 tables of the process is unmapped, its frames come back once each, all other pages as before |
| `PagingUnmap.DescentIsWalk` | kernel/src/paging.rs:1850-1897 | the code's descent ends at a used L1 entry exactly when the hardware's walk does, and it is the same entry, in any memory |
| `PagingUnmap.ClearSparesKernelIff` | kernel/src/paging.rs:1833-1908 | clearing a page leaves every kernel table as it is exactly when the page's L1 table is the process's own or the entry is unused |
| `PagingExamples.UnmapsKernel` | kernel/src/paging.rs:746-1916 | a new process unmaps a page it shares: the kernel's own mapping is gone and its frame is free |
| `PagingUnmap.MappedThenUnmapped` | kernel/src/paging.rs:1677-1916 | unmapping a mapped range returns exactly its frames and restores all other pages |
| `AddressSpaces.PagingState.DestroyProcessPageTable` | kernel/src/paging.rs:1101-1227 | gives back exactly the tables under kernel tables whose address differs, none twice and none of the kernel's |
| `AddressSpaces.PagingState.ReclaimEntry` | kernel/src/paging.rs:1109-1218 | one entry of the scan frees exactly the tables it should |
| `PagingDestroy.DestroyedOk` | kernel/src/paging.rs:1101-1227 | no kernel frame and no free frame is given back, and the invariant holds afterwards |
| `PagingDestroy.DestroyFreesAllIff` | kernel/src/paging.rs:1101-1227 | every table of the process is given back exactly when the kernel has a table at each position with a table below it, and no table is at address 0 or at the address of the kernel's 1 GiB page |
| `PagingDestroy.LeaksBelowUnused` | kernel/src/paging.rs:1101-1227 | a page mapped under an unused L4 entry of the kernel leaks its L2 and L1 tables |
| `PagingProgram.LostTables` | kernel/src/paging.rs:1101-1227 | after destroying the only process with such a page, two frames are neither free nor in any page table |
| `PagingProgram.LeakExample` | kernel/src/paging.rs:746-1822 | create, map one page, destroy: no process is left and two frames are lost |
| `HeapModel.TakeFreeOk` | kernel/src/slab_allocator.rs:226-260 | taking a free block where it lies keeps all blocks disjoint and the list separated |
| `HeapModel.TakeFreeAvail` | kernel/src/slab_allocator.rs:226-260 | exactly the block's bytes stop being available |
| `HeapModel.TakeBumpOk` | kernel/src/slab_allocator.rs:262-281 | cutting a block off at the bump pointer keeps the invariant |
| `HeapModel.TakeBumpAvail` | kernel/src/slab_allocator.rs:262-281 | exactly the bytes up to the new bump pointer stop being available |
| `HeapModel.MergedSeparated` | kernel/src/slab_allocator.rs:290-330 | inserting with two-sided merging leaves no two free blocks touching |
| `HeapModel.MergedBytes` | kernel/src/slab_allocator.rs:290-330 | merging neither loses nor gains a byte |
| `HeapModel.DeallocOk` | kernel/src/slab_allocator.rs:282-338 | deallocation keeps the whole invariant and removes exactly the block |
| `HeapModel.DeallocBytes` | kernel/src/slab_allocator.rs:282-338 | exactly the block's bytes become available again |
| `HeapModel.OnlyLastTouches` | kernel/src/slab_allocator.rs:340-363 | only the last free block can touch the bump pointer, and a second pass finds nothing |
| `HeapModel.FreeRoundTrip` | kernel/src/slab_allocator.rs:206-338 | taking a free block and giving it back restores the heap |
| `HeapModel.BumpRoundTrip` | kernel/src/slab_allocator.rs:206-338 | a block cut off at the bump pointer and given back leaves only the alignment gap behind |
| `HeapModel.GrowOk` | kernel/src/slab_allocator.rs:378-402 | growing the last block in place keeps the invariant |
| `HeapModel.TakePaddedOkIff` | kernel/src/slab_allocator.rs:226-260 | a block taken with padding keeps the invariant exactly when as many bytes behind it are unused |
| `LargeHeap.LargeAllocator.constructor` | kernel/src/slab_allocator.rs:189-196 | an empty heap |
| `LargeHeap.LargeAllocator.Alloc` | kernel/src/slab_allocator.rs:206-281 | for every alignment: the first fitting free block, else a block at the bump pointer; null exactly when no free block and no bytes behind the bump pointer hold a header and an aligned payload; the address is a multiple of 8 and of the alignment; header and payload were available before, the block is live after and no other changed; the heap stays valid exactly when no padding is needed or it goes into unused bytes |
| `LargeHeap.AllocationOkIff` | kernel/src/slab_allocator.rs:206-281 | the same condition, on values |
| `LargeHeap.AllocationAligned` | kernel/src/slab_allocator.rs:206-281 | what is handed out is a multiple of 8, and of the alignment if that is 1, 2, 4, 8 or a larger multiple of 8 |
| `LargeHeap.AllocationFailsIff` | kernel/src/slab_allocator.rs:206-281 | an allocation fails exactly when no aligned payload fits behind a header in any free block or behind the bump pointer |
| `LargeHeap.PayloadFirst` | kernel/src/slab_allocator.rs:226-265 | the payload address the code computes is the lowest aligned one, so it fits whenever any does |
| `LargeHeap.AllocationHandsOut` | kernel/src/slab_allocator.rs:206-281 | what is handed out was available, header and payload, and becomes the only new live block |
| `LargeHeap.SmallAlignSafe` | kernel/src/slab_allocator.rs:206-281 | alignments up to 8 always meet the condition |
| `LargeHeap.Crowd` | kernel/src/slab_allocator.rs:189-338 | for every multiple of 16, allocations from the empty heap that end in overlapping blocks |
| `LargeHeap.LargeAllocator.Dealloc` | kernel/src/slab_allocator.rs:282-338 | the block is inserted in address order, merged on both sides, and swallowed by the bump pointer if it touches it; it is no longer live and exactly its bytes become available |
| `LargeHeap.LargeAllocator.TryShrinkBump` | kernel/src/slab_allocator.rs:340-363 | removes a last free block that touches the bump pointer |
| `LargeHeap.LargeAllocator.TryGrowInPlace` | kernel/src/slab_allocator.rs:378-402 | succeeds exactly when the block ends at the bump pointer and fits; then the block has the new size and ends at the new bump pointer, and nothing else changed |
| `FatNames.NameRoundTrip` | kernel/src/fat16.rs:645-719 | a name written to a slot reads back exactly when it fits 8.3 |
| `FatNames.SlotRoundTrip` | kernel/src/fat16.rs:660-700 | a file slot reads back the name it shows, its cluster, and its size modulo 2^32 |
| `FatNames.FileSlotName` | kernel/src/fat16.rs:664-685 | the name bytes of a slot, one by one: 8 and 3, cut or filled with spaces, split at the last dot |
| `FatNames.FileSlotNumbers` | kernel/src/fat16.rs:687-702 | the other bytes of a slot: 15 zeroes, the cluster and the size, low byte first |
| `FatNames.SlotKinds` | kernel/src/fat16.rs:255-278 | which first bytes and attribute values make a slot a file, a directory or one that listings skip |
| `FatSpelling.NormalizeAlike` | kernel/src/fat16.rs:338-430 | texts that differ only in the case of ASCII letters are the same name or path |
| `FatSpelling.NormalizeTells` | kernel/src/fat16.rs:392-430 | nothing else is forgotten: texts without outer white space and leading slashes are the same exactly when only the case of letters differs |
| `FatSpelling.NormalizeIgnores` | kernel/src/fat16.rs:392-430 | white space around a text and slashes in front of it make no difference |
| `FatSpelling.NormalizePlain` | kernel/src/fat16.rs:726-734 | a text without these keeps its length and letters, in capitals |
| `FatSpelling.NormalizeFixes` | kernel/src/fat16.rs:726-734 | a text without these and without small letters stays as it is |
| `FatSpelling.NormalizeNoSmallLetter` | kernel/src/fat16.rs:726-734 | no small letter is left |
| `FatChains.ChainUnique` | kernel/src/fat16.rs:463-499 | a table has one chain from each cluster |
| `FatChains.ChainNoRepeat` | kernel/src/fat16.rs:463-499 | a chain visits no cluster twice |
| `FatChains.NewChainKeeps` | kernel/src/fat16.rs:607-629 | existing chains do not meet a new chain and survive it |
| `FatChains.AllocateFreeRestores` | kernel/src/fat16.rs:607-640 | allocating a chain and freeing it restores the table |
| `FatChains.ZeroedFree` | kernel/src/fat16.rs:632-640 | freeing a chain frees exactly its clusters |
| `FatData.OtherChain` | kernel/src/fat16.rs:755-781 | writing along one chain keeps the bytes of every disjoint chain |
| `FatData.ChainByteAt` | kernel/src/fat16.rs:463-499 | where each byte along a chain lies: cluster 2 is the first of the data area, and clusters are runs of sectors |
| `FatData.ClusterCountLeast` | kernel/src/fat16.rs:742-748 | no smaller number of clusters, at least one, holds the bytes |
| `FatModel.LookupOnly` | kernel/src/fat16.rs:247-311 | with distinct names the search finds the one slot of that name |
| `FatFiles.NamedOk` | kernel/src/fat16.rs:645-707 | naming a stored chain keeps the volume well formed |
| `FatFiles.NamedOthers` | kernel/src/fat16.rs:645-707 | every other name reads as before |
| `FatFiles.StoredHarmless` | kernel/src/fat16.rs:726-799 | a create that fails after storing changes no file |
| `FatFiles.DeletedOk` | kernel/src/fat16.rs:805-876 | deleting keeps the volume well formed |
| `FatFiles.DeletedReads` | kernel/src/fat16.rs:805-876 | the name is gone and every other name reads as before |
| `FatPaths.FindIsLookup` | kernel/src/fat16.rs:186-311 | searching the listing of the root finds the first shown slot of that name |
| `FatPaths.PartsSingle` | kernel/src/fat16.rs:392-433 | a path has itself as its only part exactly when it is not empty and has no slash |
| `FatPaths.PartsSplit` | kernel/src/fat16.rs:392-402 | every slash separates the parts before it from the parts after it |
| `FatPaths.TreeKeptReads` | kernel/src/fat16.rs:392-499 | what keeps the table and the clusters of a directory tree keeps every path into it |
| `FatPaths.AddedPath` | kernel/src/fat16.rs:392-433 | a new root file changes no path of several parts |
| `FatPaths.RemovedPath` | kernel/src/fat16.rs:392-433 | deleting a root entry changes exactly the paths that start with it |
| `FatPaths.ReadsBackIff` | kernel/src/fat16.rs:392-799 | given that a file has been added (`FatRounds.StoredSlotAdded`, `FatVolume.Fat16.CreateFile`), a path that read nothing before reads its bytes exactly when the path is the name shown |
| `FatRounds.StoredSlotAdded` | kernel/src/fat16.rs:726-799 | storing the bytes along a new chain and naming it in the first vacant slot adds exactly that file: its name reads the bytes modulo the size field, every other path reads as before |
| `FatPaths.PathIsShown` | kernel/src/fat16.rs:392-719 | for ASCII names without slash that is: nonempty and within 8.3 |
| `FatPaths.SlashLost` | kernel/src/fat16.rs:392-799 | the name A/B fits its slot and is not found again |
| `FatPaths.SlashCutOff` | kernel/src/fat16.rs:392-799 | eight letters and a slash do not fit 8.3 and are found again all the same |
| `FatRounds.CreateDeleteIff` | kernel/src/fat16.rs:726-876 | creating a file and deleting by its name restores the table exactly when the name fits 8.3 and no earlier slot is taken for it, and then the directory, all chains and all paths are as before |
| `FatVolume.Fat16.WriteFatEntry` | kernel/src/fat16.rs:541-567 | writes the entry in every copy and nothing else |
| `FatVolume.Fat16.FindFreeCluster` | kernel/src/fat16.rs:573-602 | the lowest free cluster, or none exactly when none is free |
| `FatVolume.Fat16.AllocateClusters` | kernel/src/fat16.rs:607-629 | a chain of that many formerly free clusters; fails exactly when there are too few or none are asked for, and too few leaves no cluster free |
| `FatVolume.Fat16.FreeClusterChain` | kernel/src/fat16.rs:632-640 | ends on every table, only zeroes entries, and zeroes exactly a well-formed chain |
| `FatVolume.Fat16.WriteChain` | kernel/src/fat16.rs:755-781 | the bytes lie along the chain and all other clusters are unchanged |
| `FatVolume.Fat16.ReadFileData` | kernel/src/fat16.rs:463-499 | for any links, broken or cyclic: the bytes met until the size is reached or the links end, and an error exactly where a sector is off the device or a cluster has no entry |
| `FatLoops.GatherFrom` | kernel/src/fat16.rs:463-499 | along a well-formed chain that is the first size bytes of the chain, or all of a shorter chain |
| `FatVolume.Fat16.ReadFile` | kernel/src/fat16.rs:446-460 | the content of the file that the path leads to through any number of directories, in upper or lower case; none for an empty path, a missing part, a file in the middle or a directory at the end |
| `FatVolume.Fat16.FindEntry` | kernel/src/fat16.rs:392-433 | exactly the entry that the path leads to, part by part, a directory included; none for an empty path, a missing part or a file in the middle |
| `FatVolume.SpellingsAlike` | kernel/src/fat16.rs:392-876 | names and paths that differ only in the case of letters find, read, clash and delete alike |
| `FatVolume.Fat16.ListSubdir` | kernel/src/fat16.rs:212-240 | the shown slots of the directory's chain up to the first end slot |
| `FatVolume.Fat16.ParseDirEntries` | kernel/src/fat16.rs:247-311 | appends the shown slots and stops exactly at an end slot |
| `FatVolume.Fat16.AddRootDirEntry` | kernel/src/fat16.rs:645-707 | fills the first vacant slot, or fails exactly when there is none |
| `FatVolume.Fat16.CreateFile` | kernel/src/fat16.rs:726-799 | succeeds exactly on a fresh name with room; the new slot and chain are exact, the file is added under the name shown, all other paths are kept; a failure changes no file and loses exactly the chain, or all free clusters |
| `FatVolume.Fat16.DeleteFile` | kernel/src/fat16.rs:805-876 | the entry named is the one the code's own comparison picks; exactly its chain is freed, the paths through it are gone, all others are kept; a missing name changes nothing |
| `FatVolume.Fat16.CreateThenRead` | kernel/src/fat16.rs:446-799 | the two operations run in turn, with names that may differ in case: the data reads back exactly when the path is the name shown |
| `FatVolume.Fat16.CreateThenDelete` | kernel/src/fat16.rs:726-876 | the two operations run in turn, with names that may differ in case: the table, the chains and all paths are restored exactly under the stated condition |
| `Bresenham.Line` | kernel/src/framebuffer.rs:207-240 | ends at the end point after max(dx, dy) steps, stays in the box and within half a pixel of the ideal line |
| `Bresenham.StepLong` | kernel/src/framebuffer.rs:221-238 | one step keeps the point within half a pixel |
| `Bresenham.EndReached` | kernel/src/framebuffer.rs:224-226 | the end point is reached exactly when the longer side is used up |
| `DisplayModel.MarkedCoherent` | kernel/src/framebuffer.rs:496-512 | a change that is then marked dirty keeps the display coherent |
| `DisplayModel.SpliceLines` | kernel/src/framebuffer.rs:588-600 | one contiguous copy of gapless lines changes exactly the pixels of those lines |
| `DisplayModel.SpliceRow` | kernel/src/framebuffer.rs:603-618 | a copied run changes exactly its pixels |
| `Display.FramebufferWriter.FlushRect` | kernel/src/framebuffer.rs:583-619 | both paths copy exactly the rectangle to the display |
| `Display.FramebufferWriter.FlushDirty` | kernel/src/framebuffer.rs:519-528 | afterwards the display shows the back buffer everywhere |
| `Display.FramebufferWriter.constructor` | kernel/src/framebuffer.rs:31-36 | a new writer's display shows its back buffer, all background, with the default colours and the cursor at the origin |
| `Display.FramebufferWriter.Clear` | kernel/src/framebuffer.rs:534-543 | the screen is all background; coherence is kept |
| `Display.FramebufferWriter.PutPixel` | kernel/src/framebuffer.rs:548-577 | changes exactly the pixel, at its place in memory and with the bytes in the order of the format, or nothing off the screen |
| `Display.FramebufferWriter.DrawRect` | kernel/src/framebuffer.rs:139-186 | succeeds exactly for a nonempty rectangle on the screen; then exactly the rectangle has the colour and is shown |
| `Display.FramebufferWriter.DrawBlit` | kernel/src/framebuffer.rs:252-299 | succeeds exactly for a nonempty rectangle on the screen with enough source pixels; then source pixel i of line j is at x + i, y + j, and nothing else changed |
| `Display.FramebufferWriter.DrawLine` | kernel/src/framebuffer.rs:189-245 | exactly the line's pixels have the colour, and the display shows the back buffer |
| `Display.FramebufferWriter.DrawChar` | kernel/src/framebuffer.rs:626-646 | exactly the character cell shows the glyph, the lowest bit of each row at its left end; coherence is kept |
| `Display.FramebufferWriter.ScrollUp` | kernel/src/framebuffer.rs:663-682 | the picture moves up by one text line; coherence is kept |
| `Display.FramebufferWriter.EnsureCursorVisible` | kernel/src/framebuffer.rs:686-691 | scrolls until the cursor's text line is on the screen, moving picture and cursor alike |
| `Display.FramebufferWriter.WriteChar` | kernel/src/framebuffer.rs:706-740 | line feed, carriage return, backspace (nothing in the first column) and printing move the cursor, scroll and draw exactly as they say and keep coherence |
| `HandleModel.TokenInjective` | kernel/src/handle.rs:739-743 | different counter values below 2^64 give different tokens |
| `HandleModel.DeadRejected` | kernel/src/handle.rs:664-691 | a closed handle names nothing, whatever lives in its slot now |
| `HandleModel.IssueOk` | kernel/src/handle.rs:198-220 | a new handle keeps tokens unique, rights within their origin, and closed handles dead |
| `HandleModel.CloseEndOk` | kernel/src/pipe.rs:153-188 | closing an end keeps the counts equal to the live ends, and a pipe goes with its last end |
| `HandleModel.UncountedBreaks` | kernel/src/handle.rs:234-262 | a copy of a live pipe end that the pipe does not count makes the counts wrong |
| `HandleModel.OpenOk` | kernel/src/handle.rs:704-736 | a new pipe starts balanced |
| `Handles.Tables.CreateHandle` | kernel/src/handle.rs:157-220 | in every state: the entry is stored in the first empty slot and every other slot is as before; it starts a chain of rights |
| `Handles.Tables.CreatePipeHandles` | kernel/src/handle.rs:704-736 | in every state: two new ends of a new pipe with an empty stream in the first empty slots, with the right to read and the right to write, everything else as before |
| `Handles.Tables.DuplicateHandle` | kernel/src/handle.rs:234-262 | in every state: the copy has the same rights and origin, all other slots stay, a copied write end is counted if its pipe is there; right pipe counts stay right exactly when the handle is not a read end |
| `Handles.Tables.RestrictRights` | kernel/src/handle.rs:444-471 | in every state: succeeds exactly for a subset of the rights, and the new handle has exactly those; right pipe counts stay right exactly when it is not a pipe end |
| `Handles.Tables.ReadPipe` | kernel/src/handle.rs:280-310 | in every state: only a live read end with bit 0 of its rights reads; a dead handle is invalid, a live one without bit 0 is denied, another end or a directory is not supported; the bytes are the front of the buffer, as many as wanted or all, and the next of the stream, always a prefix of what was written; with right counts it would block exactly when all was delivered and a writer is left, and an empty read means that no writer is left |
| `Handles.Tables.WritePipe` | kernel/src/handle.rs:335-355 | in every state: only a live write end with bit 1 of its rights writes, with the same refusals; it appends to the stream; with right counts the pipe is broken exactly when no reader is left |
| `Handles.Tables.Close` | kernel/src/handle.rs:381-433 | in every state: the handle is rejected from now on, the pipe loses the end if it is there, streams, rights and all other handles are kept; right pipe counts stay right |
| `HandleRuns.Run` | kernel/src/handle.rs:157-471 | any list of operations on any handles, uncounted copies included: closed handles stay rejected, every live handle, at the end of any chain of copies, has a subset of the rights its chain began with, and all bytes read and written in the run went through handles whose chain began with the right to read, or to write |
| `HandleRuns.Do` | kernel/src/handle.rs:157-471 | one operation, with the transfer it made; right pipe counts stay right exactly when it does not copy a pipe end without counting it |
| `HandleRuns.LogGrows` | kernel/src/handle.rs:280-355 | the streams are what the log replays to, and each of its transfers was permitted |
| `HandleRuns.CloseThenRun` | kernel/src/handle.rs:381-433 | a closed handle is rejected after any further run |
| `HandleRuns.StaleReader` | kernel/src/pipe.rs:62-188 | open, copy the read end, close both ends, open again, write: the copy reads the bytes of the second pipe |
| `Scheduler.Run` | kernel/src/scheduler.rs:460-650 | over any list of yields, ticks, spawns, sleeps and wake-ups, a ready task runs within as many switches as there are tasks, plus one for every task spawned meanwhile |
| `Scheduler.Do` | kernel/src/scheduler.rs:460-743 | one operation: a ready task runs now or stays ready, a switch brings it closer, a spawn puts it at most one place farther |
| `Scheduler.SelectCloser` | kernel/src/scheduler.rs:468-479 | selecting another task brings a ready task strictly closer |
| `Scheduler.TaskTable.SelectNext` | kernel/src/scheduler.rs:468-479 | the first ready task after the current one, or none exactly when none is ready |
| `Scheduler.TaskTable.YieldNow` | kernel/src/scheduler.rs:463-490 | switches to the selected task; only the current task can be running |
| `Scheduler.TaskTable.Preempt` | kernel/src/scheduler.rs:603-650 | a sleeper becomes ready exactly when its time has come, then switches as yielding does |
| `Scheduler.TaskTable.WakeTask` | kernel/src/scheduler.rs:736-743 | a sleeping task of that id becomes ready, nothing else changes |
| `Scheduler.TaskTable.KillTask` | kernel/src/scheduler.rs:1327-1365 | ends another unfinished task, or refuses without change |
| `Scheduler.TaskTable.KillAllThreadsOfLeader` | kernel/src/scheduler.rs:1300-1312 | ends exactly the unfinished threads of the process |
| `Scheduler.TaskTable.AbortCurrent` | kernel/src/scheduler.rs:1375-1441 | the current task ends with -1 and the next ready task in turn runs, or task 0 if none is ready and it is not the one that ended |
| `Scheduler.TaskTable.ExitCurrent` | kernel/src/scheduler.rs:1527-1579 | the current task ends with the code it set; if it leads a user process, exactly its unfinished threads end with -1, else no other task changes; the next ready task in turn runs |
| `Scheduler.TaskTable.SetExitCode` | kernel/src/scheduler.rs:1316-1320 | changes the code of the current task and nothing else |
| `Scheduler.TaskTable.TryWaitChild` | kernel/src/scheduler.rs:1077-1245 | hands out a finished child's exit code, each at most once; pending only while an uncollected child remains, failed only when none does, and not-a-child exactly for another's task |
| `Scheduler.TaskTable.TryWaitThread` | kernel/src/scheduler.rs:1241-1294 | hands out a thread's exit code, at most once; not-a-child exactly for a task that is no thread of the caller's process, pending exactly while the thread has not finished |
| `VmaAreas.InsertMap` | kernel/src/vma.rs:129-143 | an inserted area covers its addresses and no others change |
| `VmaAreas.AtSome` | kernel/src/vma.rs:129-143 | in a sorted list each area decides the attributes of its addresses |
| `VmaAreas.InsertSorted` | kernel/src/vma.rs:129-143 | the list stays sorted exactly when the inserted area is not empty |
| `VmaAreas.TrimmedMap` | kernel/src/vma.rs:196-254 | exactly the addresses of the range leave the address-to-attribute map |
| `VmaAreas.TrimmedSorted` | kernel/src/vma.rs:196-254 | the trimmed list is sorted, disjoint and nonempty |
| `VmaAreas.TrimmedSortedIff` | kernel/src/vma.rs:196-254 | the trimmed list is sorted exactly when the range does not end before it starts or touches no area |
| `VmaAreas.VmaList.Insert` | kernel/src/vma.rs:129-143 | succeeds exactly when nothing overlaps; exactly the area's addresses change; the list stays sorted exactly when the area is not empty |
| `VmaAreas.VmaList.FindFreeRegion` | kernel/src/vma.rs:157-187 | a fitting address; for a nonempty size the lowest one, or none exactly when none fits |
| `VmaAreas.VmaList.RemoveRange` | kernel/src/vma.rs:196-254 | removes exactly the range from the map and returns exactly the areas with an address in it; the list stays sorted exactly under the stated condition |
| `ArgStack.LeRoundTrip` | kernel/src/usermode.rs:616-632 | a pointer written in eight little-endian bytes reads back |
| `ArgStack.WordDigits` | kernel/src/usermode.rs:616-632 | eight bytes read as a number with the lowest byte first |
| `ArgStack.SetupUserStackArgs` | kernel/src/usermode.rs:563-642 | both pointer arrays lead to the strings and end in null exactly when everything fits; sp is 16-aligned and within 16 bytes below argv |
| `ArgStack.PushStrings` | kernel/src/usermode.rs:592-612 | the strings lie at the recorded addresses and nothing above the cursor changes |
| `ArgStack.Args` | rust-std-sabos/sys_args_sabos.rs:20-41 | reads each argument of the list laid out on the stack, up to its first zero byte |
| `ArgStack.RoundTrip` | rust-std-sabos/sys_args_sabos.rs:20-41 | building the stack and reading it back gives the arguments exactly when none contains a zero byte, and else cuts them off there |

## Left out

- Hardware effects: context-switch assembly, TLB, CR3 and CR0 writes, TSS, interrupts.
- Device drivers, the network stack, system-call dispatch, the shell and `fat32.rs`.
- ipc.rs and futex.rs: message queues and blocking on a word are not modelled.
- The fixed-size slabs, which are stacks of equal slots, and `SlabAllocator::realloc`'s copy path, which is an allocation followed by a deallocation.
- PagingProgram.Run: after marking a range the account no longer lists what that process reaches, because marking a huge page reaches all of it; `PagingUser.MarkReach` bounds it. When an operation panics the frames are not accounted for.
- AddressSpaces.PagingState.DestroyProcessPageTable: frees no frames of mapped data; the kernel does that from the process's own list.
- Packing of 16-bit entries and 32-byte slots into 512-byte sectors, and reads past the end of the table when a corrupted entry leads outside it (modelled as an I/O error).
- Writing into FAT16 subdirectories, device I/O errors, and names that are not ASCII.
- FatVolume.Fat16.FindEntry: a slot name that is UTF-8 outside ASCII reads as question marks, as an invalid one does; the code decodes it.
- FatVolume.Fat16.FreeClusterChain: an entry that leads outside the table is an error, where the code reads the sector behind the table.
- FatVolume.Fat16.CreateFile: when the name does not fit 8.3 and the cut name already exists, the slot and the chain are exact but two slots then show one name, and nothing is promised of the paths.
- File contents behind file handles, seeking and write-back on close.
- Handles.Tables.ReadPipe: on a file handle with the right the code reads the file's bytes; the model stops there (`FileAccess`).
- Handles.Tables.WritePipe: on a file handle with the right the code writes the file's bytes; the model stops there (`FileAccess`).
- Blocking: `TryWaitChild` and `TryWaitThread` are one pass of the waiting loops under the lock; timeouts are left out.
- Stack contents, saved registers and resource clean-up in the scheduler.
- `draw_pixel_global` and `draw_text_global`, which are compositions of modelled operations.
