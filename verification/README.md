# Atom kernel: a verified model of its stateful core

The Atom kernel is a small x86-64 microkernel written in Rust. This project models
the parts of it whose correctness depends on several functions at once, and proves
what those parts keep in every run.

- **Memory.** A bitmap hands out page frames (`Pmm`). The frames hold 4-level page
  tables, in the layout of section 4.5 of the Intel SDM, Volume 3A (`Vm`, over the
  theory in `PageTables` and `Regions`). `Demand` computes how many frames a run of pages
  takes for its tables, and so how much of it can be mapped; `Bytes` reads frames as bytes.
  Address spaces (`AddrSpace`), shared regions
  (`SharedMem`) and the ATXF executable loader (`Atxf`, `Loader`) use the tables, and
  `Memory` puts the three on one virtual memory manager. `Remap` says which remaps leave
  other spaces alone.
  Physical memory is a sequence of 512-word frames. A ghost map `lvl` says which frames
  are tables and at which level; every proof that a write changed one translation and
  nothing else goes through it.
- **Capabilities** (`Caps`). A global derivation forest and one table per thread, with
  derivation, transfer and recursive revocation.
- **Message passing** (`Ipc`, `IpcTrace`, `WaitGraph`). Ports with bounded queues,
  blocked receivers, timeouts, the deadlock detector and the trace ring.
- **Scheduler** (`Sched`). Rotating priority queues and the one Running thread.
- **Service start-up** (`Services`). A depth-first topological sort.
- **Glob matching** (`Glob`). A one-pass matcher that goes back only to the last star.

Objects the kernel updates in place are classes with the kernel's fields. Each class
has a `Valid()` predicate; constructors establish it and methods keep it, so it holds in
every reachable state. Where a call can break it the method says exactly when
(`Sched.Scheduler.AddThread`, `SetState` and `Init`, `Vm.Vm.CloneKernelMappings`,
`Memory.MemorySystem.RemapSpace`). The managers that share page tables change state the
others rely on; `Memory.MemorySystem` holds all their invariants at once and records every
step, so the theorems about runs apply to what the managers really do. Loops of the kernel
are loops here. The theorems about runs and meanings are lemmas over the values the methods
are specified with.

## Reading the model

- A lock-protected method is one atomic step on one core. Time, the memory map, the
  sizes of live shared regions and thread priorities are inputs. A call that reads the
  clock once per message is given one reading per message.
- Identifiers come from counters that only grow; the counters do not wrap.
- `usize` arithmetic wraps as in a release build wherever the kernel does not use a
  checked or saturating operation. Counters kept for statistics are unbounded.
- A page-table word is a record of its bits: present, writable, user, the frame number,
  no-execute, and the remaining low and high bits. A permission word is the set of its
  one bits.
- Pages are numbered by the 36 address bits that `split_indices` reads. Every virtual
  address passed in is accepted; results about a page hold for every address of it.

Where the code does less than its comments say, the model follows the code:

- `send` never wakes a blocked receiver. Only `send_batch` and timeouts do.
- `pop_next` leaves the chosen thread in its queue, so a level that ever had an entry
  shuts out every lower level for good (`Sched.Starvation`), and a thread that is Blocked,
  Exited or gone is chosen when its entry comes up (`Sched.UnfitTurn`, `Sched.ExitedRuns`).
  `schedule`, called any number of times, chooses only threads that are Ready or already
  running if and only if every thread queued at the highest level in use is one of these
  to begin with (`Sched.PicksReady`).
- A thread switched away from becomes Ready even when it was Blocked or Exited.
- Revocation leaves the dead handle in its parent's child list.
- `unmap_region` lowers the mapping count by the size of the region even for pages that
  were not mapped. The count stays right if and only if the whole region was mapped or
  everything mapped lies inside it. `map_region` counts pages it maps without the present
  flag, and a remap that stops half-way keeps the count. `AddrSpace.Careful` says for each
  call, from the state before it, when an exact count stays exact (`AddrSpace.ExactStep`).
- `remap_region` does not check that the old range lies in the lower half, and accepts new
  ranges just above it. A completed remap leaves other spaces and the upper half alone if
  and only if both ranges lie in the lower half or name the same pages; `Remap.RemapExact`
  has the exact condition for remaps that stop half-way too. `Remap.MoveKernelPage` gives an
  accepted request that does not leave them alone, from what holds before the call.
- `parse_image` adds section ends as `u32`. A first section that reaches 4 GiB wraps, and
  an image with overlapping sections is accepted (`Atxf.OverlapMissed`). Below that size it
  also refuses an empty data section placed inside the text, which shares no byte with it.
  `Atxf.ParseMeaning` states exactly which images are accepted, for every length.
- `vm::init` takes the lowest free frame for the root. If that is frame 0, the root's
  address is the value that stands for "no root", and every later call finds the kernel
  not initialized (`Vm.Vm.InitRoot`).
- A receive that meets a message whose shared region is gone fails and loses that
  message, and for a batch all messages taken before it (`Ipc.DeliverMeaning`).
- `derive_capability` and the creation of a capability notice a missing thread only
  after the capability is registered; a transfer to a missing thread drops the entry.
- `glob_match` takes a star that faces a star byte of the text for that one byte. It
  therefore agrees with the meaning of all globs exactly on texts without a star byte
  (`Glob.TextExact`), and a glob agrees with its meaning on all texts exactly when it
  has no star (`Glob.PatternExact`).
- `free_page` counts a page between the tracked total and `MAX_PAGES` as free without
  freeing it, and `init` counts a page once per descriptor that covers it. The exact
  conditions are in `Pmm.Pmm.FreePage`, `Pmm.Pmm.FreePages` and `Pmm.Pmm.Init`.

## Model

| member | source | states |
|---|---|---|
| Words.SetWordMeaning | kernel/src/mm/vm.rs:170-176 | setting an entry keeps present, writable, user, no-execute and all other flag bits; the frame bits are those of the address or-ed with those the flags carry, so plain flags store exactly the frame and a queried word is reproduced |
| Words.PageOfInjective | kernel/src/mm/vm.rs:833-839 | two canonical page addresses with the same table indices are the same address |
| Words.AlignUpMeaning | kernel/src/mm/pmm.rs:299-301 | rounding up gives the least page multiple not below its argument, and zero where that would not fit |
| PageTables.IdxDigits | kernel/src/mm/vm.rs:833-839 | the four table indices are the base-512 digits of the page number |
| PageTables.IdxInjective | kernel/src/mm/vm.rs:833-839 | different pages differ in some table index |
| PageTables.TabInjective | kernel/src/mm/vm.rs:703-718 | in a well-formed forest two walks meet in a table only if they agree on every index above it and on the root, except through shared upper-half tables |
| PageTables.LowerHalfPrivate | kernel/src/mm/vm.rs:466-490 | no two roots share a table of the lower half |
| PageTables.SharedLookup | kernel/src/mm/vm.rs:485-488 | roots that share an upper-half table translate the pages below it alike |
| PageTables.LeafWrite | kernel/src/mm/vm.rs:647-674 | writing a leaf entry changes the translation of that page under that root and the roots sharing its table, and no other translation |
| PageTables.LeafWriteAt | kernel/src/mm/vm.rs:703-718 | the leaf slots of two pages coincide exactly when the pages do |
| PageTables.Promote | kernel/src/mm/vm.rs:742-774 | adding the user bit to an interior entry changes no translation and closes no path |
| PageTables.GrowLookup | kernel/src/mm/vm.rs:742-774 | linking a blank table under an empty entry changes no translation |
| PageTables.GrowStep | kernel/src/mm/vm.rs:742-774 | linking a fresh table keeps the forest well formed, keeps every walk and every user-mode path |
| PageTables.CloneRoot | kernel/src/mm/vm.rs:466-490 | a cloned root translates the upper half as its source does and nothing else, and the roots that were there see no difference |
| PageTables.DropRoot | kernel/src/mm/addrspace.rs:146-156 | forgetting a root keeps the rest of the forest well formed |
| PageTables.MapUnmap | kernel/src/mm/vm.rs:510-527 | unmapping undoes mapping: every translation of every root is back |
| PageTables.AccessIsLeaf | kernel/src/mm/vm.rs:742-774 | the processor admits a user, write or execute access to a page exactly when its leaf entry does: no table above takes anything away |
| PageTables.DataWrite | kernel/src/executable.rs:384-412 | writes outside the tables are invisible to every translation |
| Pmm.FreeSetMember | kernel/src/mm/pmm.rs:181-190 | the bitmap stands for the set of tracked pages whose bit is clear |
| Pmm.TakeBit | kernel/src/mm/pmm.rs:203-212 | setting one bit removes one page from the free set |
| Pmm.FreeBit | kernel/src/mm/pmm.rs:192-201 | clearing one bit adds one page to the free set |
| Pmm.RunFits | kernel/src/mm/pmm.rs:220-237 | a run longer than the number of free pages, or reaching past the tracked total, cannot be free, so the early exits lose nothing |
| Pmm.NoOverlapStep | kernel/src/mm/pmm.rs:89-107 | one more descriptor keeps the memory map free of overlap exactly when its pages are all new |
| Pmm.UsablePages | kernel/src/mm/pmm.rs:87-107 | the pages set free are exactly those that some conventional descriptor covers |
| Pmm.Pmm.constructor | kernel/src/mm/pmm.rs:50-54 | the static bitmap starts with nothing free |
| Pmm.Pmm.IsPageFree | kernel/src/mm/pmm.rs:181-190 | a page tests free exactly when it is in the free set |
| Pmm.Pmm.SetPageFree | kernel/src/mm/pmm.rs:192-201 | the free set gains exactly that page, if it is tracked |
| Pmm.Pmm.SetPageAllocated | kernel/src/mm/pmm.rs:203-212 | the free set loses exactly that page |
| Pmm.Pmm.AllocPage | kernel/src/mm/pmm.rs:142-161 | takes the lowest free page, fails exactly when none is free, and keeps the count exact |
| Pmm.Pmm.LowestFree | kernel/src/mm/pmm.rs:151-159 | finds the lowest free page, or nothing is free |
| Pmm.Pmm.FreePage | kernel/src/mm/pmm.rs:163-179 | frees exactly that page if tracked; the count stays exact if and only if the page is not between the tracked total and the limit |
| Pmm.Pmm.AllocPages | kernel/src/mm/pmm.rs:220-256 | takes the lowest free run of the requested length and no other page; with an exact count it fails exactly when there is no such run or the length is zero |
| Pmm.Pmm.FindRun | kernel/src/mm/pmm.rs:238-244 | finds the first start all of whose pages are free, or there is none |
| Pmm.Pmm.TakeRun | kernel/src/mm/pmm.rs:245-252 | removes exactly the run from the free set |
| Pmm.Pmm.FreePages | kernel/src/mm/pmm.rs:258-262 | the free set gains exactly the run; an exact count stays exact if and only if no page of the run lies between the tracked total and the limit |
| Pmm.Pmm.AllocPageZeroed | kernel/src/mm/pmm.rs:264-274 | as the plain allocation, and the frame is zero while every other frame keeps its contents |
| Pmm.Pmm.AllocPagesZeroed | kernel/src/mm/pmm.rs:276-289 | takes the lowest free run of at least one page, zeroed, and nothing else; with an exact count it fails exactly when there is none |
| Pmm.Pmm.Init | kernel/src/mm/pmm.rs:61-135 | a page is free afterwards if and only if it is tracked and a conventional descriptor covers it; the tracked total is the highest described page, capped; the count is exact if and only if no page is described twice; the reported run is the longest |
| Pmm.Pmm.TrackedPages | kernel/src/mm/pmm.rs:70-82 | the tracked total is the least bound of all descriptors, capped at the limit |
| Pmm.Pmm.FreeAll | kernel/src/mm/pmm.rs:87-107 | the second loop frees the usable pages of all descriptors, and its count equals their number exactly when they do not overlap |
| Pmm.Pmm.FreeUsable | kernel/src/mm/pmm.rs:94-106 | one descriptor frees exactly its usable pages and counts them all |
| Pmm.Pmm.Fill | kernel/src/mm/pmm.rs:64-68 | filling the bitmap leaves nothing free |
| Pmm.Pmm.MeasureRuns | kernel/src/mm/pmm.rs:111-123 | the closing scan finds the length of the longest free run |
| Vm.Vm.constructor | kernel/src/mm/vm.rs:89 | before initialisation there is no table and the invariant holds |
| Vm.Vm.EnsureTableUser | kernel/src/mm/vm.rs:742-774 | returns the table below an entry, existing or new; no translation changes, new tables are exactly the frames spent, and user-mode paths stay open |
| Vm.Vm.AddTable | kernel/src/mm/vm.rs:757-773 | links a zeroed table taken from a free frame, or fails exactly when no frame is free and nothing changes |
| Vm.Vm.Descend | kernel/src/mm/vm.rs:703-718 | one level of the walk, with the number of missing tables falling by the frames spent |
| Vm.Vm.Walk | kernel/src/mm/vm.rs:703-718 | a creating walk fails exactly when more tables are missing than frames are free, also half-way down; it never changes a translation; a plain walk changes nothing |
| Vm.Vm.MapPageInPml4 | kernel/src/mm/vm.rs:454-464 | fails for exactly the stated reason with every translation of every root as it was, or makes exactly the given page translate to the given frame with exactly the given flags, at the price of the tables missing on its walk; the forest stays well formed and housed in allocated frames |
| Vm.Vm.MapPage | kernel/src/mm/vm.rs:441-452 | the same under the active root |
| Vm.Vm.UnmapPageInPml4 | kernel/src/mm/vm.rs:510-527 | clears the translation of exactly the given page, or reports that it has none and changes nothing |
| Vm.Vm.UnmapPage | kernel/src/mm/vm.rs:492-508 | the same under the active root |
| Vm.Vm.QueryMappingInPml4 | kernel/src/mm/vm.rs:602-621 | returns the frame address and the whole leaf word of a mapped page, changing nothing |
| Vm.Vm.Translate | kernel/src/mm/vm.rs:638-645 | gives the translation of an address of the active root, aligned or not |
| Vm.Vm.CloneKernelMappings | kernel/src/mm/vm.rs:466-490 | the destination frame, whatever it was, becomes the active root's upper half over an empty lower half; in a tracked frame that is neither free nor a table that makes a new root and keeps the forest well formed |
| Vm.Vm.CopyUpper | kernel/src/mm/vm.rs:480-488 | the two loops clear the lower half and copy the upper half entry by entry, touching no other frame |
| Vm.Vm.InitRoot | kernel/src/mm/vm.rs:205-210 | an empty root becomes the active one; the kernel then counts as initialized if and only if frame 0 was not free |
| Regions.PrivateSet | kernel/src/mm/vm.rs:647-674 | a lower-half page write is seen under its own root only |
| Regions.PagesAdded | kernel/src/mm/addrspace.rs:322-368 | filling an empty run adds its pages, and only those, to the mapped user pages |
| Regions.PagesRemoved | kernel/src/mm/addrspace.rs:459-471 | emptying a run removes exactly its mapped pages; their number falls by the run length exactly when the whole run was mapped |
| Regions.PageNoInjective | kernel/src/shared_mem.rs:265-267 | the pages of one run are distinct, also when the address wraps at the top |
| Regions.OverlayThen | kernel/src/mm/addrspace.rs:545-570 | two sets of page writes in a row, seen by all roots that share the pages, are one in which the later wins |
| Regions.EmptiedPatch | kernel/src/mm/addrspace.rs:459-471 | a lower-half run that is unmapped changes its own root only |
| Demand.NewTables | kernel/src/mm/vm.rs:703-774 | mapping one page for as many frames as its walk lacks tables adds the tables of that walk and no others, for any page that goes through them |
| Demand.PavedMissing | kernel/src/mm/vm.rs:703-774 | once the pages before it are mapped, the next page of a run lacks exactly the tables it is the first to need |
| Demand.PaveStep | kernel/src/mm/vm.rs:703-774 | so a run of pages is paid for with exactly the number of tables computed from the memory before it |
| Demand.NeededSame | kernel/src/mm/addrspace.rs:545-556 | unmapping pages does not change what a run needs |
| Demand.NextFits | kernel/src/mm/addrspace.rs:322-366 | mapping the next page fails exactly when the run no longer fits, for lack of frames or because the page is mapped |
| Demand.ReachIs | kernel/src/mm/addrspace.rs:322-366 | the pages mapped before the first failure are the longest part of the run that fits, and all of it exactly when all of it fits |
| Demand.FullBound | kernel/src/mm/addrspace.rs:525-543 | a range that is mapped throughout is no longer than there are leaf entries in memory |
| AddrSpace.RegionInUserHalf | kernel/src/mm/addrspace.rs:228-320 | an accepted region lies in the lower half, rounded up to whole pages |
| AddrSpace.MapRefusalMeaning | kernel/src/mm/addrspace.rs:228-320 | a map request is accepted if and only if both addresses are aligned, the size is at most 256 MiB, the region ends in the lower half and the caller owns the space; and exactly which error every other request gets |
| AddrSpace.UnmapRefusalMeaning | kernel/src/mm/addrspace.rs:378-457 | the same for unmap requests |
| AddrSpace.RemapRefusalMeaning | kernel/src/mm/addrspace.rs:485-523 | the same for remap requests, whose new range may end at the kernel's base and whose old range may lie anywhere |
| AddrSpace.PageCountMeaning | kernel/src/mm/addrspace.rs:310 | a size takes as many pages as hold it and no more |
| AddrSpace.AddressSpaceManager.constructor | kernel/src/mm/addrspace.rs:176-181 | no space is registered at the start, and the invariant holds |
| AddrSpace.AddressSpaceManager.New | kernel/src/mm/addrspace.rs:90-119 | a new root with an empty lower half and the kernel's upper half, or no effect |
| AddrSpace.AddressSpaceManager.Create | kernel/src/mm/addrspace.rs:183-192 | a fresh id with an exact count of zero; a failure leaves translations, spaces and free frames alone |
| AddrSpace.AddressSpaceManager.Destroy | kernel/src/mm/addrspace.rs:194-226 | succeeds exactly for the owner of a space with no counted mapping, and frees exactly its root; a stranger is refused for that reason and nothing changes |
| AddrSpace.AddressSpaceManager.MapSome | kernel/src/mm/addrspace.rs:322-366 | maps as many pages of the run as are empty and as the free frames allow, a number fixed by the state before; nothing else changes, and a complete run takes exactly the frames it needs |
| AddrSpace.AddressSpaceManager.MapRun | kernel/src/mm/addrspace.rs:322-366 | succeeds if and only if all pages are empty and the free frames suffice for the tables they need; otherwise every translation is as before, and the pages left over are exactly those that were set without the present flag |
| AddrSpace.AddressSpaceManager.MapRegion | kernel/src/mm/addrspace.rs:228-376 | only the owner's request can succeed, and a stranger's changes nothing; an accepted one succeeds if and only if the whole region is empty and the free frames suffice for its tables, and then each page translates to its frame with the given flags and the count rises by the pages; if not, the old translations are back, and with present flags the old count |
| AddrSpace.AddressSpaceManager.UnmapRun | kernel/src/mm/addrspace.rs:459-471 | every page of the run, anywhere in the address space, ends up unmapped for all roots that share it, and nothing else changes |
| AddrSpace.AddressSpaceManager.UnmapRegion | kernel/src/mm/addrspace.rs:378-483 | only the owner's request can succeed, and a stranger's changes nothing; no page of the region is mapped afterwards and the count falls by its size; an exact count stays exact if and only if the whole region was mapped or everything mapped lies inside it |
| AddrSpace.AddressSpaceManager.QueryRun | kernel/src/mm/addrspace.rs:525-543 | collects the words of the old range exactly when all of it is mapped, changing nothing |
| AddrSpace.AddressSpaceManager.MapList | kernel/src/mm/addrspace.rs:557-570 | maps the collected words in order, as far as the pages are empty and the free frames suffice, a number fixed by the state before |
| AddrSpace.AddressSpaceManager.RemapRegion | kernel/src/mm/addrspace.rs:485-575 | only the owner's request can succeed, and a stranger's changes nothing; for ranges anywhere: refused exactly when the old range is not wholly mapped; it succeeds if and only if no new page is held by a page that stays and the free frames suffice for the tables; then each new page holds the exact entry of its old page, old pages outside the new range are unmapped and nothing else moves, also for overlapping ranges; otherwise the longest prefix that has room has moved; inside the lower half it is a step of one space |
| AddrSpace.RelocateRun | kernel/src/mm/addrspace.rs:525-570 | query, unmap and map in sequence amount to one simultaneous relocation, for ranges anywhere |
| AddrSpace.RoomyRun | kernel/src/mm/addrspace.rs:545-570 | once the old range is unmapped, as many pages are mapped as have room, judged from the memory before the remap |
| AddrSpace.MoveRun | kernel/src/mm/addrspace.rs:525-570 | in the lower half the relocation is a move of pages of one root, overlap included |
| AddrSpace.MovedCount | kernel/src/mm/addrspace.rs:525-570 | a move of k of n pages lowers the number of mapped user pages by n minus k, so only a complete one keeps it |
| AddrSpace.MappedCount | kernel/src/mm/addrspace.rs:137-139 | mapping a region adds its page count to the mapped user pages |
| AddrSpace.UnmappedCount | kernel/src/mm/addrspace.rs:141-143 | the lowered count is the new number of mapped pages if and only if the whole region was mapped or everything mapped lies inside it |
| AddrSpace.StepIsLower | kernel/src/mm/addrspace.rs:228-575 | a step about one space changes only lower-half translations of its root |
| AddrSpace.StepIsolates | kernel/src/mm/addrspace.rs:183-575 | one step leaves alone the lower half of every space it is not about; steps that are not the kernel's own also leave every upper half and the kernel's root alone |
| AddrSpace.Isolation | kernel/src/mm/addrspace.rs:183-575 | in every run of create, destroy, map, unmap, lower-half remap and kernel mappings a space no step is about keeps its lower half; without kernel mappings it keeps all translations, so does the kernel, and every space mirrors the kernel's upper half |
| AddrSpace.ValidIsSound | kernel/src/mm/addrspace.rs:172-181 | every state of the manager with the kernel up is a state of such runs |
| AddrSpace.ExactElsewhere | kernel/src/mm/addrspace.rs:137-143 | counts of spaces a step is not about stay exact |
| AddrSpace.DestroyedWasEmpty | kernel/src/mm/addrspace.rs:194-226 | with an exact count, a space that may be destroyed maps no user page |
| AddrSpace.ExactStep | kernel/src/mm/addrspace.rs:137-143 | the exact count of the space a step is about stays exact if and only if, judged from the state before: an unmap hits only mapped pages or all that are mapped; a remap meets no page that stays and has the frames for its tables; a map without the present flag cannot map its first page; a space whose root is frame 0 has nothing to uncount; a failed load did not exhaust the count |
| AddrSpace.AllExactStep | kernel/src/mm/addrspace.rs:137-143 | all counts stay exact over a step if and only if the step is careful in that sense |
| AddrSpace.ExactRun | kernel/src/mm/addrspace.rs:183-575 | in a run that starts with exact counts, all counts are exact throughout if and only if every step meets those conditions in the state before it; then every space destroyed maps no user page |
| Remap.RunsAgree | kernel/src/mm/addrspace.rs:485-510 | two ranges, no longer than a mapped one can be, that start apart and yet contain the same upper-half pages are a range that leaves the lower half and its tail; also around the top of the address space |
| Remap.KeepsUpper | kernel/src/mm/addrspace.rs:485-575 | a remap spares other spaces and the upper half if and only if every upper-half page it touches ends with the entry it had |
| Remap.RemapExact | kernel/src/mm/addrspace.rs:485-575 | a remap that moved any number of its pages changes only lower-half pages of its own space if and only if it touches only such pages, or moves pages onto themselves and leaves out only such pages, or slides them to the end of the old range with the same entries in the upper half; a completed one if and only if both ranges lie in the lower half or name the same pages |
| Remap.KernelPageMoves | kernel/src/mm/addrspace.rs:493-503 | an owner's request to move the first kernel page is not refused and breaks isolation; a new range just above the lower half is not refused either |
| Remap.MoveKernelPage | kernel/src/mm/addrspace.rs:485-575 | with the first kernel page mapped, page 0x400 empty and three frames free, the owner's request to move it succeeds and changes more than lower-half pages of that space |
| Remap.SamePlace | kernel/src/mm/addrspace.rs:485-575 | a completed remap onto the same pages changes nothing |
| SharedMem.SharedMemManager.constructor | kernel/src/shared_mem.rs:345-350 | no region at the start, and the invariant holds |
| SharedMem.SharedMemManager.TakeFrame | kernel/src/shared_mem.rs:223-225 | a free frame that is no table, now blank; no other frame and no translation differs |
| SharedMem.SharedMemManager.AllocFrames | kernel/src/shared_mem.rs:223-236 | distinct blank frames covering the size, or the free set exactly as it was; frames in use keep their contents |
| SharedMem.SharedMemManager.FreeFrames | kernel/src/shared_mem.rs:331-338 | the free set gains exactly the listed frames |
| SharedMem.SharedMemManager.MapFrames | kernel/src/shared_mem.rs:265-280 | maps as many pages as are vacant and as the free frames allow, a number and a failure fixed by the state before |
| SharedMem.SharedMemManager.UnmapFrames | kernel/src/shared_mem.rs:309-312 | exactly the pages of the mapping end up empty |
| SharedMem.SharedMemManager.CreateRegion | kernel/src/shared_mem.rs:352-367 | a live region whose frames cover its size, are blank and belong to nobody else; a failure restores the free set; frames in use keep their contents |
| SharedMem.SharedMemManager.MapRegion | kernel/src/shared_mem.rs:253-299 | the result is fixed by the state before: at most one mapping per thread, success exactly when all pages are vacant and the free frames suffice, out of memory or already mapped by which comes first; a failure restores every translation; a success makes page i translate to frame i for user mode, writable and executable as asked, and adds exactly this mapping and one reference |
| SharedMem.SharedMemManager.UnmapRegion | kernel/src/shared_mem.rs:301-325 | the thread's mapping goes, exactly its pages are emptied, one reference fewer; nothing else of any region changes |
| SharedMem.SharedMemManager.DestroyRegion | kernel/src/shared_mem.rs:389-409 | only its owner, only when nothing maps it; frees exactly its frames |
| SharedMem.RolledBack | kernel/src/shared_mem.rs:269-272 | unmapping the pages a failed mapping had set restores every translation |
| SharedMem.BackedRelease | kernel/src/shared_mem.rs:301-325 | pages held by other mappings still translate to their frames after an unmapping |
| SharedMem.SharedPage | kernel/src/shared_mem.rs:253-299 | in every reachable state each page of each mapping translates to the region's frame at that place with the permissions asked for, so threads that map a region share its frames |
| SharedMem.StableElsewhere | kernel/src/shared_mem.rs:204-211 | what another subsystem must respect for the regions' frames and pages to stay theirs |
| Atxf.HeaderRoundTrip | kernel/src/executable.rs:85-96 | decoding undoes encoding of every header, whatever follows it |
| Atxf.ParseMeaning | kernel/src/executable.rs:169-247 | for images of every length acceptance is exactly: the stated layout, and sections that share no byte with no empty data inside the text, or a wrapped first section the test misses; the sections of an accepted image share no byte if and only if the first does not reach 4 GiB or the data is empty |
| Atxf.OverlapMeaning | kernel/src/executable.rs:224-228 | without wrapping the test refuses exactly sections that share a byte and empty data inside the text; with a first section that reaches 4 GiB the sections share a byte unless the data is empty |
| Atxf.OverlapMissed | kernel/src/executable.rs:224-228 | an accepted image of 4 GiB whose data lies inside its text |
| Atxf.EmptyDataAccepted | kernel/src/executable.rs:224-228 | the same image with empty data is accepted as well, and its sections share no byte |
| Atxf.ParsedSizes | kernel/src/executable.rs:169-247 | accepted sections have 32-bit sizes and an entry inside the text |
| Atxf.HeaderBytes | kernel/src/executable.rs:85-96 | which bytes of the image, in which order, make up each header field |
| Atxf.ParsedSections | kernel/src/executable.rs:238-247 | the text and data handed over are, byte for byte, the stretches of the image the header names |
| Atxf.ParseErrors | kernel/src/executable.rs:169-247 | exactly which error each image gets that is turned down |
| Atxf.BuildImage | kernel/src/executable.rs:258-281 | the built image has the length its layout says |
| Atxf.ImageRoundTrip | kernel/src/executable.rs:258-281 | parsing undoes building for every executable that fits the format |
| Atxf.EmbeddedImageValid | kernel/src/executable.rs:249-281 | the kernel's fallback image is accepted by its own parser |
| Bytes.BlankBytes | kernel/src/mm/pmm.rs:264-289 | a zeroed frame reads as zero bytes |
| Loader.CopiedBytes | kernel/src/executable.rs:399-401 | bytes copied into frames are read back from them, and zeros after them |
| Loader.ExecLoader.TakeFrames | kernel/src/executable.rs:384-402 | byte o of the frames is byte o of the data, and zero after its end; no translation and no other used frame changes |
| Loader.ExecLoader.ReturnFrames | kernel/src/executable.rs:407-410 | exactly the segment's frames become free again |
| Loader.ExecLoader.Place | kernel/src/executable.rs:384-438 | frames are taken, filled and mapped, or everything but new tables is as before |
| Loader.ExecLoader.MapSegment | kernel/src/executable.rs:384-412 | an empty segment does nothing; otherwise the segment is in place and its bytes are those of the data, zero-filled, or nothing but tables remains |
| Loader.ExecLoader.MapZeroedSegment | kernel/src/executable.rs:414-438 | the same with zeroed frames |
| Loader.ExecLoader.Undo | kernel/src/executable.rs:448-452 | undoing the latest segment gives back translations, frames and the contents of frames in use, up to new tables, and the count up to what saturated |
| Loader.ExecLoader.Rollback | kernel/src/executable.rs:440-454 | undoing all tracked segments gives back the state before the load, contents of frames in use included, up to new tables and a count that saturated |
| Loader.ExecLoader.AddData | kernel/src/executable.rs:337-345 | the data segment joins the load as planned, or everything is rolled back |
| Loader.ExecLoader.AddBss | kernel/src/executable.rs:347-357 | the bss segment joins the load as planned, or everything is rolled back |
| Loader.ExecLoader.DoLoad | kernel/src/executable.rs:302-382 | a failed load leaves translations, spaces, every frame but new page tables and the contents of all frames in use as before, and the count unless the pages counted meanwhile saturated it; after a successful one, done only for the owner, user mode reads the text, the data and a zeroed bss byte for byte at their addresses, may execute them, and may write data and bss but not the text; the count rises by their pages, and nothing else changes |
| Loader.ExecLoader.LoadIntoAddressSpace | kernel/src/executable.rs:283-290 | a rejected image changes nothing; an accepted one is loaded, with the program seeing the sections of the image, or undone as above |
| Loader.UndoneSettled | kernel/src/executable.rs:440-454 | counts that do not saturate during the load come back exactly |
| Loader.ChainLoads | kernel/src/executable.rs:302-382 | segments placed one after the other give the combined translations, count and frames of all of them and keep the contents of frames in use |
| Loader.PartsKept | kernel/src/executable.rs:302-382 | later segments leave the contents of earlier ones alone |
| Loader.PartSeen | kernel/src/executable.rs:384-438 | a segment in place is read, through the page tables, with its own bytes and permissions |
| Loader.ProgramSeen | kernel/src/executable.rs:302-382 | a loaded program sees its text read-only, its data and its zeroed bss where the layout puts them |
| Loader.LayoutMeaning | kernel/src/executable.rs:302-330 | where text, data and bss come to lie, in order and without wrapping |
| Loader.PlanIsSane | kernel/src/executable.rs:302-330 | the planned segments are page-aligned, large enough, pairwise disjoint and inside the user range, with the entry point in the text |
| Memory.MemorySystem.constructor | kernel/src/mm/addrspace.rs:601-605 | managers on one set of page tables start from a common state |
| Memory.MemorySystem.CreateSpace | kernel/src/mm/addrspace.rs:183-192 | keeps the invariants of spaces and shared regions alike, is one step of the run, and succeeds exactly when a frame is free |
| Memory.MemorySystem.DestroySpace | kernel/src/mm/addrspace.rs:194-226 | the same, with the stated result; the root it frees belongs to no region |
| Memory.MemorySystem.MapSpace | kernel/src/mm/addrspace.rs:228-376 | the same, and succeeds exactly when an accepted region fits; the tables it takes come from free frames only |
| Memory.MemorySystem.UnmapSpace | kernel/src/mm/addrspace.rs:378-483 | the same, with the stated result; no page held for a shared region is touched |
| Memory.MemorySystem.RemapSpace | kernel/src/mm/addrspace.rs:485-575 | the same when it is turned down, when both ranges lie in the lower half, or when it completes onto the same pages; in all other cases, complete or not, the shared regions keep their pages if and only if every page they hold that is touched gets its entry back, and only lower-half pages of its own space change if and only if the remap is harmless |
| Memory.MemorySystem.Load | kernel/src/executable.rs:283-290 | the same; a failed load is no step for the spaces unless a count saturates, and a successful one fills its segments one by one |
| Memory.MemorySystem.CreateRegion | kernel/src/shared_mem.rs:352-367 | the stated result and region; every address space stays registered and no translation changes |
| Memory.MemorySystem.MapShared | kernel/src/shared_mem.rs:369-380 | the stated result and mapping; every lower half stays as it is although it maps into page tables the spaces share, and a refused call changes no translation |
| Memory.MemorySystem.UnmapShared | kernel/src/shared_mem.rs:382-387 | the same for the mapping that goes |
| Memory.MemorySystem.DestroyRegion | kernel/src/shared_mem.rs:389-409 | the stated result; the frames it frees belong to no table and no translation changes |
| Memory.RegionsSurvive | kernel/src/mm/addrspace.rs:183-575 | every step of the address spaces keeps the frames and pages of every shared region |
| Memory.SparedIs | kernel/src/mm/addrspace.rs:485-575 | after a remap the pages of all shared regions still translate to their frames if and only if the held pages it touches get their entries back |
| Memory.OverlaySpares | kernel/src/shared_mem.rs:253-325 | mapping or unmapping under the kernel's root spares the lower half of every space |
| Memory.LoadRun | kernel/src/executable.rs:302-382 | a successful load is a run that fills one empty range after the other |
| Memory.LoadSurvives | kernel/src/executable.rs:302-382 | a successful load keeps the frames and pages of every shared region |
| Memory.MemorySystem.SpacesIsolated | kernel/src/mm/addrspace.rs:183-575 | in the whole system, a space that no step since some state was about translates its lower half as it did then |
| Memory.MemorySystem.OnlyOwnersAct | kernel/src/mm/addrspace.rs:129-131 | in every run of the whole system, each step about a space was asked for by its owner |
| Memory.MemorySystem.StrangersHarmless | kernel/src/mm/addrspace.rs:183-575 | while a space exists and its owner does nothing, its lower half stays as it is, whatever all other threads do |
| Memory.OwnerStays | kernel/src/mm/addrspace.rs:183-575 | the owner of a space never changes |
| Memory.MemorySystem.CountsExact | kernel/src/mm/addrspace.rs:137-143 | in the whole system, counts that were exact at the start are exact in every state if and only if every step was careful, judged from the state before it |
| Caps.ContainsIsSubset | kernel/src/cap.rs:104-122 | both permission tests are inclusion of the permission bits |
| Caps.NoAmplification | kernel/src/cap.rs:228-249 | along any chain of derivations every permission bit of a descendant is one of its ancestor's, and the resource is the same |
| Caps.VisitExact | kernel/src/cap.rs:390-416 | the pre-order visit reaches exactly the live descendants |
| Caps.VisitNoDup | kernel/src/cap.rs:390-416 | the visit repeats nothing |
| Caps.VisitStable | kernel/src/cap.rs:408-412 | removing capabilities outside a subtree does not change the visit of it, so revoking child by child equals the whole visit |
| Caps.SiblingsApart | kernel/src/cap.rs:408-412 | subtrees of different children never meet |
| Caps.OneTable | kernel/src/thread.rs:469-492 | in every reachable state a handle is in at most one thread's table |
| Caps.RevokedForest | kernel/src/cap.rs:390-416 | after a revocation every live derived capability still has a live parent with at least its permissions |
| Caps.RevokedTables | kernel/src/thread.rs:483-492 | after a revocation tables and registry agree and no table holds a revoked handle |
| Caps.CapabilityManager.constructor | kernel/src/cap.rs:346-351 | an empty registry and log |
| Caps.CapabilityManager.LogAudit | kernel/src/cap.rs:353-361 | the log is the latest thousand of all entries ever written |
| Caps.CapabilityManager.GetAuditLog | kernel/src/cap.rs:363-367 | up to the given number of entries, newest first |
| Caps.CapabilityManager.RevokeRec | kernel/src/cap.rs:390-416 | terminates, and removes and returns the pre-order of the subtree, logging each handle |
| Caps.CapabilityManager.RevokeKids | kernel/src/cap.rs:408-412 | the loop over the children removes and returns their subtrees in order, skipping dead handles |
| Caps.CapabilityManager.RevokeCapability | kernel/src/cap.rs:516-518 | exactly the capability and its live descendants leave the registry and every table, returned once each in pre-order |
| Caps.CapabilityManager.Create | kernel/src/cap.rs:506-514 | a fresh root capability is registered and logged, and put into the owner's table exactly when the owner exists |
| Caps.CapabilityManager.Derive | kernel/src/cap.rs:575-611 | succeeds only for a caller that holds and owns the parent, with the grant bit, and for a subset of its permission bits; denied exactly when one of the last two fails; refused without effect for the other stated reasons; otherwise a child with the parent's resource is registered under it and tables and registry stay in agreement |
| Caps.CapabilityManager.TransferCapability | kernel/src/cap.rs:536-573 | moves the entry and the registered owner together; every refusal and what it leaves behind |
| Caps.CapabilityManager.AddThread | kernel/src/cap.rs:502-504 | a new thread starts with an empty table |
| Caps.CapabilityManager.ValidateCapability | kernel/src/thread.rs:453-467 | passes exactly when the thread's table holds the handle and every required bit is among its permissions; then it is live and registered to that thread |
| WaitGraph.SubAcyclic | kernel/src/ipc.rs:452-465 | dropping waits never makes a cycle |
| WaitGraph.AddEdge | kernel/src/ipc.rs:644-690 | a new wait makes no cycle when the waiter cannot be reached from the thread it waits for |
| WaitGraph.EdgeExact | kernel/src/ipc.rs:659-667 | and only then: the detector refuses exactly the waits that would close a cycle |
| WaitGraph.Shortest | kernel/src/ipc.rs:706-709 | whatever is reachable is reachable in as many steps as there are waits |
| WaitGraph.ChainEnds | kernel/src/ipc.rs:699-725 | without cycles every chain of waits ends at a thread that waits for nobody |
| IpcTrace.TraceBuffer.constructor | kernel/src/ipc.rs:247-253 | an empty ring |
| IpcTrace.TraceBuffer.Push | kernel/src/ipc.rs:255-261 | the ring keeps representing the latest thousand of all events |
| IpcTrace.TraceBuffer.CellAt | kernel/src/ipc.rs:274-278 | which cell holds the i-th oldest retained event, before and after the ring is full |
| IpcTrace.TraceBuffer.Snapshot | kernel/src/ipc.rs:263-286 | exactly the oldest of the retained events, in order |
| Ipc.CountersMeaning | kernel/src/ipc.rs:319-349 | what the counters, byte sums, latency sum and two times of a port say about everything it sent and handed over |
| Ipc.LatenciesMeaning | kernel/src/ipc.rs:334-342 | the two latencies kept are the least and the greatest of all receives |
| Ipc.AverageBetween | kernel/src/ipc.rs:351-356 | unless the sum saturated, the reported average lies between the least and the greatest latency |
| Ipc.SizeMeaning | kernel/src/ipc.rs:467-491 | which messages pass, with what size, and exactly which error each other message gets |
| Ipc.StampMeaning | kernel/src/ipc.rs:504-511 | stamping fills in a missing time and changes no other field |
| Ipc.HandedOver | kernel/src/ipc.rs:582-642 | the messages next in a queue have the sender, kind, payload and region of the messages sent next to that port, in order |
| Ipc.PortMetrics | kernel/src/ipc.rs:288-349 | in every reachable state a live port's sends are its popped and queued messages, and its first time is that of its first send |
| Ipc.SendsMeaning | kernel/src/ipc.rs:493-523 | single sends, each with its own clock reading, all succeed exactly when every message is valid and all fit; the queue then grows by the stamped messages in order |
| Ipc.BatchIsSends | kernel/src/ipc.rs:525-568 | a batch is accepted exactly when sending its messages one by one would be |
| Ipc.FitsError | kernel/src/ipc.rs:467-491 | a queued message can only fail to resolve because its region is gone |
| Ipc.DeliverFrame | kernel/src/ipc.rs:582-642 | what a receive takes off the queue followed by what stays is the old queue |
| Ipc.DeliverMeaning | kernel/src/ipc.rs:582-614 | a receive returns the front of the queue in order, or fails at the first message whose region is gone, losing it and those before it |
| Ipc.OneWaiter | kernel/src/ipc.rs:669-690 | in every reachable state a live port has at most one waiting thread |
| Ipc.SomeoneRuns | kernel/src/ipc.rs:644-725 | in every reachable state a chain of blocked threads ends, within as many steps as there are waiters, at a thread no live port holds up |
| Ipc.SoundCreate | kernel/src/ipc.rs:440-446 | a new port revives no stale wait and keeps the wait-for graph acyclic |
| Ipc.SoundClose | kernel/src/ipc.rs:452-465 | closing a port keeps all invariants although waiters stay registered |
| Ipc.SoundWake | kernel/src/ipc.rs:570-577 | waking the receiver keeps all invariants even when that thread waits on another port by now |
| Ipc.SoundBlock | kernel/src/ipc.rs:669-690 | blocking keeps all invariants if and only if the caller cannot be reached from the port's owner |
| Ipc.SoundReleased | kernel/src/ipc.rs:745-762 | releasing any set of waiters keeps all invariants |
| Ipc.SearchOver | kernel/src/ipc.rs:706-725 | neither running out of edges nor the step cut-off hides a reachable thread |
| Ipc.IpcManager.constructor | kernel/src/ipc.rs:432-438 | no ports and no waiters at the start |
| Ipc.IpcManager.CreatePort | kernel/src/ipc.rs:440-446 | an empty port under an id never used before |
| Ipc.IpcManager.ClosePort | kernel/src/ipc.rs:452-465 | only the owner; exactly that port goes |
| Ipc.IpcManager.Send | kernel/src/ipc.rs:493-523 | accepted exactly for a live port with room and a valid message; then the last message queued has the sender, kind, payload and region sent and its time or the current one, and one event is traced; refused for exactly the stated reason without effect; no waiter changes |
| Ipc.IpcManager.Accept | kernel/src/ipc.rs:507-520 | one message joins queue, metrics, trace and accepted history; the queue bound holds |
| Ipc.IpcManager.Prepare | kernel/src/ipc.rs:537-546 | validates and stamps every message, or gives the first error |
| Ipc.IpcManager.Apply | kernel/src/ipc.rs:552-568 | leaves port, metrics and trace exactly as that many single sends |
| Ipc.IpcManager.SendBatch | kernel/src/ipc.rs:525-580 | changes nothing, or queues every message with its own sender, kind, payload, region and time in order, equals that many single sends and wakes exactly the blocked receiver |
| Ipc.IpcManager.WakeReceiver | kernel/src/ipc.rs:570-577 | the port has no receiver any more and that thread no longer waits |
| Ipc.IpcManager.PopFront | kernel/src/ipc.rs:590-608 | the front message leaves the queue whether or not its size resolves |
| Ipc.IpcManager.TryRecv | kernel/src/ipc.rs:616-642 | one receive: the front of the queue, which is the next message sent to that port, field by field; accepted history stays popped history followed by the queue |
| Ipc.IpcManager.RecvBatch | kernel/src/ipc.rs:582-614 | the same as up to 32 single receives, each with its own clock reading; what is handed over are the next messages sent, field by field and in order |
| Ipc.IpcManager.DetectDeadlock | kernel/src/ipc.rs:699-725 | true if and only if the caller is reachable along the wait chain from the port's owner, in any state |
| Ipc.IpcManager.BlockRecv | kernel/src/ipc.rs:644-690 | refused for a missing port, exactly when the wait would close a cycle, or for a busy port; otherwise the caller is the port's only waiter and the graph stays acyclic |
| Ipc.IpcManager.PortStats | kernel/src/ipc.rs:805-809 | the statistics of a live port are those of its real history: counts, byte sums, extremes, average and rate |
| Ipc.IpcManager.Expired | kernel/src/ipc.rs:730-739 | the waiters whose deadline has passed, in thread order |
| Ipc.IpcManager.HandleTimeouts | kernel/src/ipc.rs:727-769 | exactly the waiters whose deadline has passed stop waiting and are woken in thread order; only their own ports are released |
| Sched.EntriesKept | kernel/src/sched.rs:71-86 | over every run each level holds exactly its old entries and the ones pushed to it |
| Sched.RoundRobin | kernel/src/sched.rs:78-86 | while nothing is pushed above the highest level in use, the entry at position p is chosen by exactly the (p+1)-th rotation |
| Sched.Starvation | kernel/src/sched.rs:78-86 | once a level has an entry nothing below it is ever chosen again |
| Sched.PicksReady | kernel/src/sched.rs:148-224 | `schedule`, called any number of times, chooses only threads that are Ready or already running if and only if every thread queued at the highest level in use is one of these to begin with |
| Sched.UnfitTurn | kernel/src/sched.rs:148-224 | a queued thread that is neither Ready nor running makes one of the next calls, up to its turn, choose such a thread |
| Sched.FitForever | kernel/src/sched.rs:148-224 | if every queued thread is Ready or running, every sequence of `schedule` calls and timer ticks keeps it so and chooses only such threads |
| Sched.ExitedRuns | kernel/src/sched.rs:204-224 | a queue and states in which a thread that has exited is chosen and set Running |
| Sched.Scheduler.constructor | kernel/src/sched.rs:102-114 | nothing queued, nothing running |
| Sched.Scheduler.SetState | kernel/src/thread.rs:390-398 | changes one existing thread; the current thread stays the only Running one if and only if no other thread of the list is set to Running |
| Sched.Scheduler.RemoveThread | kernel/src/thread.rs:362-369 | removes one thread; queues may still name it |
| Sched.Scheduler.PushReady | kernel/src/sched.rs:71-76 | the entry joins the back of its level, if the level exists |
| Sched.Scheduler.PopNext | kernel/src/sched.rs:78-86 | picks the front of the highest non-empty level and rotates that level |
| Sched.Scheduler.Init | kernel/src/sched.rs:116-130 | the idle thread is current and Running; it is the only Running one if and only if none was before, as on the first call |
| Sched.Scheduler.AddThread | kernel/src/sched.rs:132-146 | the current thread stays the only Running one if and only if the new thread is not added as Running |
| Sched.Scheduler.Schedule | kernel/src/sched.rs:148-159 | chooses the rotation's pick, or stays; afterwards the chosen thread is Running, the one left is Ready and no other state differs; queues, states and current thread change as in the run theorems |
| Sched.Scheduler.OnTimerTick | kernel/src/sched.rs:161-197 | requeues the running thread before rotating, unless nothing is queued; afterwards the chosen thread is Running, the one left is Ready and no other state differs; queues, states and current thread change as in the run theorems |
| Sched.Scheduler.ApplySwitch | kernel/src/sched.rs:204-224 | the thread left becomes Ready, the chosen one Running and current, and no other state differs |
| Sched.Scheduler.MarkReady | kernel/src/sched.rs:263-267 | queued at its effective priority and set Ready |
| Sched.Scheduler.BoostPriority | kernel/src/sched.rs:246-256 | raises the effective priority or does nothing; no other thread's priority changes |
| Sched.Scheduler.RestorePriority | kernel/src/sched.rs:258-261 | undoes every boost; effective never falls below base |
| Services.ChainFalls | kernel/src/service_manager.rs:85-97 | along a chain of dependencies the position in a start-up order strictly falls |
| Services.OrderMeansAcyclic | kernel/src/service_manager.rs:85-97 | a manifest with a start-up order names only services and has no cycle |
| Services.CycleFound | kernel/src/service_manager.rs:106-108 | meeting a name on the current path shows a cycle through it |
| Services.Sorter.constructor | kernel/src/service_manager.rs:86-88 | nothing visited |
| Services.Sorter.Visit | kernel/src/service_manager.rs:99-133 | appends the name after everything it depends on, or reports a true error |
| Services.Sorter.VisitDeps | kernel/src/service_manager.rs:116-126 | every dependency is placed, or a true error is reported |
| Services.StartupOrder | kernel/src/service_manager.rs:85-97 | succeeds if and only if every named dependency is a service and the graph is acyclic; lists each service once, after its dependencies; an error names a dependency that is missing or a service that lies on a cycle |
| Glob.Overtake | userspace/drivers/terminal/src/parser.rs:192-196 | restarting the stretch since the last star later never gets ahead of where it stands |
| Glob.LastStar | userspace/drivers/terminal/src/parser.rs:187-191 | once a later star is met, earlier stars need not be tried again |
| Glob.GlobMatch | userspace/drivers/terminal/src/parser.rs:173-208 | terminates and decides the literal-star reading for every pattern and text |
| Glob.LiteralMeans | userspace/drivers/terminal/src/parser.rs:183-186 | nothing is accepted that the glob does not stand for |
| Glob.MeansLiteral | userspace/drivers/terminal/src/parser.rs:173-208 | for a text without a star byte everything the glob stands for is accepted |
| Glob.StarMissesStar | userspace/drivers/terminal/src/parser.rs:183-186 | the glob `*` is not matched against the text `*a`, although it stands for it |
| Glob.TextExact | userspace/drivers/terminal/src/parser.rs:173-208 | for every text, the loop agrees with the meaning of all globs if and only if the text has no star byte |
| Glob.PatternExact | userspace/drivers/terminal/src/parser.rs:173-208 | for every glob, the loop agrees with its meaning on all texts if and only if it has no star |

## Left out

- Boot, UEFI calls, assembly, descriptor tables, interrupt control, context switching, TLB invalidation and CR3 loads: hardware effects.
- The identity-mapping and framebuffer loops of `vm::init`, `remap_page`, `remap_page_user`, `remap_page_flags` and the page counters of `vm`: they would only repeat map and query.
- System-call dispatch, copies from user memory, logging and the drivers.
- The allocator hint `NEXT_FREE_HINT`, which no search reads, and the allocation trace.
- Manifest text parsing and the parsing of command lines.
- The raw encodings of region flags; the model starts from the decoded flags.
- Capabilities carried inside messages: the receive path hands them over without granting or moving anything.
- Priority inheritance on the system-call side: the scheduler's boost and restore are modelled, not who calls them.
- The statistics calls other than those of a port.
- Interleavings inside a method that drops and retakes a lock, more than one core, and wrap-around of id counters.
- Sched.RoundRobin: speaks of queue entries; a thread queued twice has two entries.
- Services.StartupOrder: takes the service names in any order, of which the sorted order of the kernel's map is one.
- Memory.MemorySystem.RemapSpace: a remap that touches upper-half pages is a step of the recorded run only when it completes onto the same pages; otherwise the contract says what it keeps, and the run ends there.
- Sched.FitForever: for timer ticks only this direction holds; a tick can put a new level above threads that are not Ready.
- Vm.Vm.CloneKernelMappings: the destination is assumed to be a frame of the modelled memory.
- Sched.Scheduler.Init: thread ids are unique, as the kernel's counter gives them, so a new thread is not in the list yet.
