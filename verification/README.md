# doccrOS kernel, modelled and proved in Dafny

doccrOS is a small x86-64 kernel. This project models the parts of it whose correctness is hardest to see and
proves what they are for:

- **User memory.** The frame allocator (`PhysMem`), the four-level page tables (`PageTable`), and the address
  spaces of `vmm.c` on top of them (`AddressSpaces.Vmm`): creation, allocation, copy-on-write cloning, write
  faults, freeing, destruction. Each operation works step by step on tables, bitmap and counts and is proved
  against an operation on a flat mapping from `(space, page)` to frames (`CopyOnWrite`, views in `MemoryView` and
  `SpaceSharing`). On that flat level `CowInvariant` proves what every operation keeps, and `EagerCopy` proves that
  copy-on-write memory cannot be told from memory that is copied eagerly. `FrameBudget` counts the frames each
  operation takes, `Footprint` proves that allocation and freeing are inverse and that destroying a space gives
  everything back, and `MemoryRuns` states the refinement of the tables themselves, over whole runs. `AccessRights`
  proves what programs may do with their pages, by the tables and with the help of faults. `CowLimits` proves where
  the promise ends.
- **Kernel memory.** The region allocator of `vmm.c` as a doubly linked list (`KernelVmm`, specified in
  `KernelRegions`), the kernel heap with its bytes (`KernelHeap`) and the user heap (`UserHeap`), the latter two on a
  common theory of block lists (`HeapBlocks`).
- **Threads and processes.** The ring buffer (`ReadyQueue`), the scheduler and the thread and process calls as they
  update their lists (`Scheduler`), a state machine of the same calls (`Lifecycle`), its invariant
  (`LifecycleInvariant`), what each call does to whom and when the dead are freed (`CallEffects`), and theorems about
  whole runs (`SafeBurial`).
- **Single algorithms.** The write-back cache and undo log of the Limine installer (`BlockCache`, `UndoLog`), the
  ELF loader (`ElfLoader`, over `AddressSpaces`) with a writer of executables (`ElfImages`), the `newc` archive reader on the file tree (`Archive`, `Extraction`,
  `Paths`, `FileTree`, `Vfs`), the address search of `mmap` (`AddressSearch`), and the line stepper (`Line`).

Conventions. Page and frame addresses are page and frame numbers; a page-table word is the datatype `Layout.Entry`.
64-bit sums, 32-bit counts and their wrap-around are written out where the code can reach them. `Vmm.View` is the flat
state behind the tables, `Vmm.Snap` the tables, roles, counts and free set themselves. A panic is an outcome after
which nothing is promised, unless the contract says so.

## Model

| member | source | states |
|---|---|---|
| PhysMem.FrameAllocator.MarkUsed | doccr/kernel/mem/phys/physmem.c:80-98 | the packed bitmap loses exactly the frames of the range from the free set, their counts become 1, no other count changes; nothing happens if the 64-bit end wraps |
| PhysMem.FrameAllocator.MarkFree | doccr/kernel/mem/phys/physmem.c:100-118 | exactly the managed frames of the range become free with count 0, all others stay; nothing happens if the end wraps |
| PhysMem.FrameAllocator.FindRun | doccr/kernel/mem/phys/physmem.c:244-274 | the scan finds the lowest run of that many free frames, and finds none only if there is none anywhere |
| PhysMem.FrameAllocator.AllocTo | doccr/kernel/mem/phys/physmem.c:244-274 | takes exactly the lowest run, count 1 each, and lowers the number of free frames by exactly that many; with frame 0 reserved it answers 0 if and only if no run exists, and then nothing changed |
| PhysMem.FrameAllocator.FreeTo | doccr/kernel/mem/phys/physmem.c:282-287 | exactly the managed frames behind the address become free, with count 0 |
| PhysMem.FrameAllocator.FreeGet | doccr/kernel/mem/phys/physmem.c:292-300 | counts the free frames |
| PhysMem.FrameAllocator.RcInc | doccr/kernel/mem/phys/physmem.c:302-306 | one count goes up, wrapping at 32 bits; an unmanaged frame is ignored |
| PhysMem.FrameAllocator.RcDecAndGet | doccr/kernel/mem/phys/physmem.c:308-314 | one count goes down but not below 0, and is returned |
| PageTable.IndexBits | doccr/kernel/mem/paging/paging.c:198-201 | the index at each level is the nine bits of the address from bit 39, 30, 21 and 12 up |
| PageTable.OnlyThrough | doccr/kernel/mem/vmm/vmm.c:429-450 | in a well-shaped tree the walk for a page reads a given table entry only if the page is translated through it |
| PageTable.GraftLookup | doccr/kernel/mem/paging/paging.c:196-253 | hanging a fresh empty table into an absent entry changes the translation of no page of any space |
| PageTable.LeafLookup | doccr/kernel/mem/paging/paging.c:240-253 | the write of a last-level entry is seen at exactly one page of one space; every other page of every space translates as before |
| PageTable.PruneLookup | doccr/kernel/mem/vmm/vmm.c:362-398 | cutting off one empty table, at any level, changes the translation of no page of any space |
| PageTable.TightServes | doccr/kernel/mem/vmm/vmm.c:362-398 | where no table was left empty, every table below a root serves a mapped page |
| PageTable.RootLookup | doccr/kernel/mem/vmm/vmm.c:199-227 | a new root translates nothing in the user half and leaves all other spaces as they were |
| PageTable.RetireTight | doccr/kernel/mem/vmm/vmm.c:229-245 | in a tree without empty tables a space that maps nothing consists of its root alone, and removing it leaves no empty table |
| AddressSpaces.Vmm.constructor | doccr/kernel/mem/vmm/vmm.c:199-227 | with frame 0 reserved and no space yet the tables show the empty flat state, the invariant holds, and no frame is in use |
| AddressSpaces.Vmm.GetOrCreate | doccr/kernel/mem/paging/paging.c:196-253 | one level of the walk: an existing table is followed and nothing changes, an absent one is created empty, for exactly one frame, without changing any translation; it panics exactly if the table is absent and no frame was free, and then nothing changed |
| AddressSpaces.Vmm.MapPageIn | doccr/kernel/mem/paging/paging.c:196-253 | with up to three new tables, exactly the one page of the one space is translated to the new entry and all others as before; it succeeds if and only if the free frames cover the tables the walk lacks, and takes exactly those |
| AddressSpaces.Vmm.UnmapPageIn | doccr/kernel/mem/paging/paging.c:255-278 | exactly that page of that space translates to nothing, all others as before |
| AddressSpaces.Vmm.SpaceCreate | doccr/kernel/mem/vmm/vmm.c:199-227 | a space that was not there, without pages or regions, for one frame; fails if and only if no frame was free, changing nothing |
| AddressSpaces.Vmm.SpaceAlloc | doccr/kernel/mem/vmm/vmm.c:261-315 | maps fresh frames over the range and links the region in order, keeping the invariant; on those pages user code has exactly the rights the flags ask for, by the processor's walk and in the flat state, and no right changes elsewhere; succeeds if and only if there is a page and at least one free frame for each page and each missing table; fails, without panic, exactly if the frames run out at a page boundary, and then mappings and regions are as before and exactly the frames of the pages before that one are neither free nor in use |
| AddressSpaces.Vmm.CutUp | doccr/kernel/mem/vmm/vmm.c:362-398 | the nested checks give back every table of the page that became empty and no other; no translation changes, and if only the page's table was empty no empty table is left |
| AddressSpaces.Vmm.ReclaimPage | doccr/kernel/mem/vmm/vmm.c:337-399 | one page is unmapped, its frame counted down and freed at 0, empty tables are given back; every frame is still either free or in use |
| AddressSpaces.Vmm.SpaceFree | doccr/kernel/mem/vmm/vmm.c:317-414 | does to tables, bitmap and counts what freeing the region does to the flat state; base 0 or an unknown base changes nothing |
| AddressSpaces.Vmm.SpaceDestroy | doccr/kernel/mem/vmm/vmm.c:229-245 | ends when all bases are non-zero, with the state in which every region was freed and the space is gone; no frame is lost if no table was empty |
| AddressSpaces.Vmm.FindRegion | doccr/kernel/mem/vmm/vmm.c:416-427 | finds the region that covers the page if and only if there is one |
| AddressSpaces.Vmm.CloneSpace | doccr/kernel/mem/vmm/vmm.c:452-517 | source and copy map the same frames read-only under copy-on-write regions; succeeds if and only if there are free frames for the root and for each table the source's pages need, fails if and only if none was free; the result satisfies the invariant if and only if the counts of the source's frames allowed sharing |
| AddressSpaces.Vmm.CowBreak | doccr/kernel/mem/vmm/vmm.c:519-579 | the last counted sharer keeps its frame, any other gets a private copy; nothing changes unless the page is mapped in a copy-on-write region; panics if and only if the page is shared and no frame was free |
| AddressSpaces.Vmm.WriteByte | doccr/kernel/mem/vmm/vmm.c:581-603 | a write stores, or faults, breaks and stores; it fails if and only if the page is neither writable nor breakable, changing nothing; it panics if and only if the break needs a frame and none was free |
| AddressSpaces.Vmm.ReadByte | doccr/kernel/mem/vmm/vmm.c:429-450 | a read through the tables returns the byte that the flat memory holds at the page, if it is mapped |
| AccessRights.HardwareAgrees | doccr/kernel/mem/paging/paging.c:196-253 | the processor, which asks every entry of the walk, lets user code read, write or execute a page exactly as the last-level entry says: the tables above it restrict nothing |
| AddressSpaces.HardwareShows | doccr/kernel/mem/paging/paging.c:196-253 | hence exactly as the entry of the flat mapping says |
| AccessRights.AllocNew | doccr/kernel/mem/vmm/vmm.c:252-315 | a fresh page can be written if and only if the flags ask for writing, and then by its entry alone, not by way of a fault; its user and no-execute bits are what the flags ask for |
| AccessRights.AllocGrants | doccr/kernel/mem/vmm/vmm.c:252-315 | for every page of every space and every kind of access: after an allocation it succeeds if and only if it was asked for, on the new pages, or succeeded before, elsewhere |
| AccessRights.CloneGrants | doccr/kernel/mem/vmm/vmm.c:452-517 | a copy can do what the source could; every page either can read both can also write afterwards |
| AccessRights.CloneSafeIff | doccr/kernel/mem/vmm/vmm.c:452-579 | a clone gives no more rights than the source had if and only if the source could write every page it could read |
| AccessRights.CloneGainsWriting | doccr/kernel/mem/vmm/vmm.c:452-579 | a run of create, allocate read-only and clone, after which both spaces can write the page |
| AccessRights.BreakGrants | doccr/kernel/mem/vmm/vmm.c:519-579 | a break keeps every right but the writing of the other pages of its region |
| AccessRights.FreeGrants | doccr/kernel/mem/vmm/vmm.c:317-414 | freeing takes all rights on the region's pages and none on any other |
| AccessRights.RightsAreAsAsked | doccr/kernel/mem/vmm/vmm.c:199-603 | over every run from boot a program can read and execute exactly the pages it asked for as such, or the space it was cloned from did; without clones, write as well |
| FrameBudget.WalkServed | doccr/kernel/mem/paging/paging.c:196-253 | a walk reaches a level exactly if the space has the table for it, so the missing tables are those that no walk reaches |
| FrameBudget.NeedBounds | doccr/kernel/mem/vmm/vmm.c:261-315 | an allocation of n pages needs at least n and at most 4 n frames |
| MemoryRuns.Sharable | doccr/kernel/mem/vmm/vmm.c:452-517 | decides from tables and counts whether a clone of the space would be guarded |
| MemoryRuns.Serve | doccr/kernel/mem/vmm/vmm.c:199-603 | a request is served exactly if the flat state allows it and there are frames for it, as the steps it stands for; refused, it leaves the flat state as it was |
| MemoryRuns.RunThenRead | doccr/kernel/mem/vmm/vmm.c:199-603 | on the tables, from boot: after any requests in any order, as long as none panics, every walk reads the byte that eager copying would have left there |
| CowInvariant.AllocKeeps | doccr/kernel/mem/vmm/vmm.c:261-315 | allocation keeps exact counts, exclusive writable pages, one page per frame, regions that tile the mapped pages, and entries that allow user access and execution exactly, and writing at most, as the region says |
| CowInvariant.CloneExactIff | doccr/kernel/mem/vmm/vmm.c:486-492 | counts stay exact over a clone if and only if each source frame's count is at least 1 and one more fits 32 bits |
| CowInvariant.BreakKeeps | doccr/kernel/mem/vmm/vmm.c:519-579 | both branches of a break keep that invariant |
| CowInvariant.FreeKeeps | doccr/kernel/mem/vmm/vmm.c:317-414 | so does freeing a region |
| EagerCopy.BreakInvisible | doccr/kernel/mem/vmm/vmm.c:519-579 | breaking the sharing of a page changes no byte that any space reads |
| EagerCopy.SimFault | doccr/kernel/mem/vmm/vmm.c:519-603 | a write that faults, breaks and is retried changes exactly one byte of one space |
| EagerCopy.CowRefinesEagerCopy | doccr/kernel/mem/vmm/vmm.c:199-603 | over every run from boot of creations, allocations, guarded clones, successful writes, frees and retirements, each space holds exactly the bytes it would hold if every clone had copied its pages, and the invariant holds |
| CowLimits.CloneAgreesIff | doccr/kernel/mem/vmm/vmm.c:452-517 | after a clone every next write agrees with eager copying if and only if the clone was guarded; otherwise some write of a changed byte makes the contents differ |
| CowLimits.GuardIff | doccr/kernel/mem/vmm/vmm.c:486-492 | a clone leaves a page shared by two spaces but counted as unshared if and only if it is unguarded |
| CowLimits.UnguardedClone | doccr/kernel/mem/vmm/vmm.c:486-492 | each single page whose count is 0 or about to wrap becomes such a page |
| CowLimits.AliasedWrite | doccr/kernel/mem/vmm/vmm.c:549-562 | the next write to such a page by one space shows up in the other |
| CowLimits.TakeoverUnguards | doccr/kernel/mem/vmm/vmm.c:551-562 | every in-place takeover makes its space unfit for the next clone |
| CowLimits.UnguardedReachable | doccr/kernel/mem/vmm/vmm.c:452-603 | a run of create, allocate, clone and one write by each side, all regular, after which a clone is unguarded |
| CowLimits.SecondFaultStuck | doccr/kernel/mem/vmm/vmm.c:573-575 | after one break no other page of that region can be written |
| CowLimits.WritableAfterBreak | doccr/kernel/mem/vmm/vmm.c:519-603 | exactly which pages can be written after a break: the broken one, and those that could be before except the other pages of its region |
| CowLimits.StuckReachable | doccr/kernel/mem/vmm/vmm.c:519-603 | a run of create, allocate two pages, clone and one write, after which the other page, writable before, is not |
| CowLimits.CloneBreakable | doccr/kernel/mem/vmm/vmm.c:452-517 | a clone makes every page of source and copy writable again by a break |
| Footprint.SameFootprint | doccr/kernel/mem/vmm/vmm.c:362-398 | two states without empty tables that show the same mapping inside one larger tree use the same frames in the same roles |
| Footprint.AllocThenFree | doccr/kernel/mem/vmm/vmm.c:261-414 | allocation followed by freeing restores mappings, counts, region lists, the role of every frame and the free set exactly; the allocation succeeds if and only if the free frames cover its pages and the missing tables |
| Footprint.LosesAFrame | doccr/kernel/mem/vmm/vmm.c:276-285 | on a machine with five frames an allocation of two pages in a new space fails, and one of the five is then neither free nor in use |
| Footprint.DestroyMeans | doccr/kernel/mem/vmm/vmm.c:229-245 | destroying a space removes its mappings and nothing else, keeping the invariant |
| Footprint.Destroy | doccr/kernel/mem/vmm/vmm.c:229-245 | the free set grows by exactly the tables of the space and the pages nobody else maps |
| Footprint.DestroyTurn | doccr/kernel/mem/vmm/vmm.c:229-245 | with a region at page 0 a turn of the destroy loop changes nothing and leaves regions, so the loop never ends |
| Footprint.AllFree | doccr/kernel/mem/vmm/vmm.c:229-245 | with every space gone every frame that spaces may use is free |
| KernelRegions.AllocKeepsSane | doccr/kernel/mem/vmm/vmm.c:105-147 | allocation keeps tiling, canonical form and all five statistics; it adds one aligned block apart from all others, at the lowest address where one fits and less than a page larger than asked for, or fails changing nothing, and fails only for size 0, without a node, or if nothing fits; without a node no block is split |
| KernelRegions.AllocSaneIff | doccr/kernel/mem/vmm/vmm.c:109 | a request leaves the list well formed if and only if rounding it does not wrap or nothing is free |
| KernelRegions.FreeKeepsSane | doccr/kernel/mem/vmm/vmm.c:149-171 | freeing keeps all that and removes exactly the allocation at that base |
| KernelRegions.AllocThenFree | doccr/kernel/mem/vmm/vmm.c:105-171 | allocating and freeing restores list and statistics exactly |
| KernelRegions.FreeEverything | doccr/kernel/mem/vmm/vmm.c:149-171 | freeing every allocation, in any order and with repetitions, gives back the one initial region |
| KernelRegions.AlwaysSane | doccr/kernel/mem/vmm/vmm.c:66-193 | after any calls from boot the regions tile the range, no two neighbours are free, the statistics match |
| KernelVmm.KernelVmm.constructor | doccr/kernel/mem/vmm/vmm.c:66-103 | a linked list of one node, in the boot state |
| KernelVmm.KernelVmm.MergeWithNext | doccr/kernel/mem/vmm/vmm.c:51-64 | relinking the nodes merges two free neighbours in the list they stand for, and does nothing otherwise |
| KernelVmm.KernelVmm.Alloc | doccr/kernel/mem/vmm/vmm.c:105-147 | the linked nodes, both directions, and the statistics become what the specified allocation says, and so does the address |
| KernelVmm.KernelVmm.Free | doccr/kernel/mem/vmm/vmm.c:149-171 | likewise for freeing with both merges |
| HeapBlocks.Conserved | doccr/kernel/mem/kheap/kheap.c:63-76 | used bytes, free bytes and one header per block make up the heap |
| HeapBlocks.Determined | doccr/kernel/mem/kheap/kheap.c:36-61 | two canonical heaps with the same blocks in use are equal |
| HeapBlocks.SweepIsRelease | user/libc/src/stdlib.c:91-109 | the user heap's sweep over the whole list does what the kernel heap's local merging does |
| HeapBlocks.TakeThenRelease | doccr/kernel/mem/kheap/kheap.c:78-146 | taking a block and releasing it is the identity on a canonical heap |
| KernelHeap.MallocSane | doccr/kernel/mem/kheap/kheap.c:78-123 | a successful call adds one block, apart from all others, at least as large as asked for and not more than rounding and an unusable rest larger, with nothing that fits at a lower address; it fails, changing nothing, only for size 0 or if nothing fits; tiling, canonical form and statistics are kept |
| KernelHeap.MallocSaneIff | doccr/kernel/mem/kheap/kheap.c:81 | a request keeps the heap well formed if and only if rounding it does not wrap, nothing is free, or the first free block is too small to split |
| KernelHeap.FreeSane | doccr/kernel/mem/kheap/kheap.c:125-146 | freeing takes exactly that block out of use and keeps the rest |
| KernelHeap.AlwaysSane | doccr/kernel/mem/kheap/kheap.c:36-146 | after any calls from boot used, free and header bytes add up to the heap size, the free statistic is right, and with nothing in use the heap is as at boot |
| KernelHeap.KernelHeap.KMalloc | doccr/kernel/mem/kheap/kheap.c:78-123 | headers and links in memory become what the specification says; no byte in use changes |
| KernelHeap.KernelHeap.MergeFree | doccr/kernel/mem/kheap/kheap.c:36-61 | the block is merged with a free predecessor and successor, with the statistics; no byte in use changes |
| KernelHeap.KernelHeap.KFree | doccr/kernel/mem/kheap/kheap.c:125-146 | exactly the named block is released; null does nothing; no byte still in use changes |
| KernelHeap.KernelHeap.KRealloc | doccr/kernel/mem/kheap/kheap.c:176-193 | null allocates, size 0 frees, else all the block's bytes are kept, in place or in a large enough new block, and every other block with its bytes stays; on failure the blocks are as before |
| UserHeap.Arena.Malloc | user/libc/src/stdlib.c:67-89 | first fit with split: the lowest block that fits is taken, apart from all others and not more than rounding and an unusable rest larger than asked for; fails only for size 0 or if nothing fits |
| UserHeap.MallocSaneIff | user/libc/src/stdlib.c:34-89 | a request that finds a block keeps the arena well formed if and only if rounding it does not wrap or the block is too small to split |
| UserHeap.Arena.Free | user/libc/src/stdlib.c:91-109 | exactly the named block leaves, and every run of free blocks becomes one; null does nothing |
| UserHeap.Arena.Coalesce | user/libc/src/stdlib.c:97-108 | the merging walk over the singly linked list computes the sweep |
| ReadyQueue.Ring.Push | doccr/kernel/proc/scheduler.c:51-58 | appends to the queue the ring stands for, across the wrap; a full queue drops the thread |
| ReadyQueue.Ring.Pop | doccr/kernel/proc/scheduler.c:60-70 | takes the head of the queue, or nothing from an empty one |
| ReadyQueue.Ring.Remove | doccr/kernel/proc/scheduler.c:128-150 | shifting the slots removes the first occurrence and keeps the order of the others |
| ReadyQueue.RemovedMeans | doccr/kernel/proc/scheduler.c:128-150 | without duplicates exactly that thread leaves the queue |
| Scheduler.Unlink | doccr/kernel/proc/process.c:106-129 | the walk removes the first occurrence of an object from a list |
| LifecycleInvariant.NewProcKeeps | doccr/kernel/proc/process.c:38-104 | a new process has an id that was not in use; a user process has a space that exists, is not the kernel's and was not in use, any other process the kernel's and no space is made; lists, counts, ids and spaces stay consistent |
| CallEffects.NewProcSpawns | doccr/kernel/proc/process.c:38-104 | the new process is alive, without threads, at the head of the list, with a space never destroyed before if it is a user process; nothing else changes |
| Scheduler.Cpu.NewProc | doccr/kernel/proc/process.c:38-104 | the lists in place become what that says |
| Scheduler.Cpu.CreateThread | doccr/kernel/proc/thread.c:41-164 | one new thread, ready, last in the queue, in its owner's list and counts; every other thread and process is as before |
| Scheduler.Cpu.Fork | doccr/kernel/proc/process.c:241-358 | the child is one new process, alive, with a space that is new, not the kernel's and no other process's, and with exactly one thread, which is new, ready and last in the queue; everyone else is as before |
| CallEffects.ForkMakesChild | doccr/kernel/proc/process.c:241-358 | the same of the state machine's fork |
| Scheduler.Cpu.Fail | doccr/kernel/proc/process.c:249-299 | when space, thread or stack cannot be allocated the process is unlinked again: ids are used up, a space that was made is destroyed, nothing else changes |
| CallEffects.FailLeavesNothing | doccr/kernel/proc/process.c:249-299 | threads, processes, lists and spaces are as before, one fresh space is destroyed if one was made |
| Scheduler.Cpu.SetIdle | doccr/kernel/proc/scheduler.c:96-102 | the thread leaves the queue and is idle from then on |
| Scheduler.Cpu.Start | doccr/kernel/proc/scheduler.c:104-109 | the bootstrap context blocks and the first thread runs; the invariant holds |
| Scheduler.Cpu.DestroyThread | doccr/kernel/proc/thread.c:166-190 | the thread leaves the queue and its owner's list and count |
| Scheduler.Cpu.ReapZombies | doccr/kernel/proc/scheduler.c:153-161 | every thread on the zombie list is destroyed, in order, keeping the invariant |
| Scheduler.Cpu.ReapZombieProcs | doccr/kernel/proc/process.c:131-161 | a process goes if and only if it is dead and has no thread left; exactly the spaces of those go, each destroyed once |
| Scheduler.Cpu.Tick | doccr/kernel/proc/scheduler.c:163-173 | counts, and yields exactly when the counter reaches a multiple of ten; the invariant is kept |
| Scheduler.Cpu.Yield | doccr/kernel/proc/scheduler.c:178-258 | the longest waiting thread runs, or the same one if nobody waits, or idle, in the address space of its process; the one before is last in the queue or, dead, to be buried; a process goes, with its space, if and only if it is dead with all its threads waiting for burial; the invariant holds after it |
| Scheduler.Cpu.ExitProcess | doccr/kernel/proc/process.c:106-129 | the process moves once from the live to the zombie list |
| Scheduler.Cpu.ExitThread | doccr/kernel/proc/thread.c:192-212 | the thread dies, the last one takes its process along, and someone else runs; the invariant is kept |
| CallEffects.SetIdleMeans | doccr/kernel/proc/scheduler.c:96-102 | only the queue and the idle thread change: the thread is out of the one and is the other |
| CallEffects.StartMeans | doccr/kernel/proc/scheduler.c:104-109 | the bootstrap context is blocked, and then what a yield does happens |
| CallEffects.TickYieldsIff | doccr/kernel/proc/scheduler.c:163-173 | a tick that reaches a multiple of ten does what a yield does, any other tick changes the counter and nothing else |
| CallEffects.TicksYieldExactly | doccr/kernel/proc/scheduler.c:163-173 | n ticks from count c yield (c % 10 + n) / 10 times, as long as the 64-bit counter does not wrap |
| CallEffects.YieldSwitches | doccr/kernel/proc/scheduler.c:178-258 | who runs after a yield, in which address space, who waits, in which order, and who is to be buried |
| CallEffects.YieldFrees | doccr/kernel/proc/scheduler.c:178-182 | a yield frees a process if and only if it is dead and all its threads wait for burial; exactly the spaces of those go, each destroyed once |
| CallEffects.ExitMeans | doccr/kernel/proc/thread.c:192-212 | the thread is dead, its process is dead and on the zombie list if and only if no other thread of it lives, and then what a yield does happens |
| CallEffects.ExitKillsIff | doccr/kernel/proc/thread.c:192-212 | after the call the process still exists, dead if and only if that was its last living thread |
| CallEffects.BuriedByNextYield | doccr/kernel/proc/process.c:131-161 | in every run a dead process is gone for good after the next yield, its space destroyed, whatever calls come before and after |
| CallEffects.LastThreadOut | doccr/kernel/proc/thread.c:192-212 | a process whose last thread exits is gone, with its space, after the yield of the exit and one more |
| CallEffects.LastThreadOutByTicks | doccr/kernel/proc/scheduler.c:163-182 | that is, within ten timer ticks |
| LifecycleInvariant.CreateIff | doccr/kernel/proc/scheduler.c:53 | a new thread keeps the invariant if and only if fewer than 64 threads want to run |
| SafeBurial.StepKeeps | doccr/kernel/proc/scheduler.c:96-258 | every call, made as the kernel makes it, keeps the invariant |
| SafeBurial.SafeBurialStep | doccr/kernel/proc/scheduler.c:178-258 | a yield frees exactly the threads on the zombie list, dead, neither current nor queued nor freed before, and only processes all of whose threads are among them and whose space is not active; a dying current thread waits for the next yield |
| SafeBurial.BurialAlwaysSafe | doccr/kernel/proc/scheduler.c:153-258 | the same at every yield of every run from boot |
| SafeBurial.Conservation | doccr/kernel/proc/scheduler.c:51-258 | over every run from boot each existing thread is in exactly one place, the queue has no duplicates, no thread and no space is freed twice |
| SafeBurial.OverfullLoses | doccr/kernel/proc/scheduler.c:53 | with 64 threads waiting, a running one that yields ends up ready and nowhere |
| SafeBurial.OverfullReachable | doccr/kernel/proc/scheduler.c:53 | a run of ordinary calls from boot to 64 threads; one more thread, and the next yield loses the running one |
| SafeBurial.BoundedWaiting | doccr/kernel/proc/scheduler.c:178-214 | a ready thread at position k runs no later than the (k+1)-th yield, whatever else happens |
| SafeBurial.TicksYield | doccr/kernel/proc/scheduler.c:163-173 | any ten ticks contain a yield, also where the tick counter wraps; CallEffects.TicksYieldExactly gives the exact number where it does not |
| SafeBurial.BoundedTicks | doccr/kernel/proc/scheduler.c:163-214 | it runs within 10 * (k + 1) timer ticks |
| UndoLog.ReplayReversed | include/limine/limine.c:328-334 | replayed newest first, each logged byte ends with the value its oldest entry saved, the others stay |
| UndoLog.UndoRestores | include/limine/limine.c:524-574 | a log that covers every changed byte restores the disk from whatever has reached it |
| BlockCache.Device.Flush | include/limine/limine.c:266-285 | the disk becomes the flat contents, which do not change |
| BlockCache.Device.CacheBlock | include/limine/limine.c:287-312 | another block is cached without changing the flat contents; fails exactly past the end |
| BlockCache.Device.Read | include/limine/limine.c:445-465 | returns what a flat array would, across blocks, and changes none of it; fails exactly off the device |
| BlockCache.Device.Write | include/limine/limine.c:467-522 | the flat contents change as a flat array would, the old bytes are logged first; fails exactly off the device or at a full log of 256, changing nothing; the disk holds old or cached bytes elsewhere |
| BlockCache.Device.ReverseLog | include/limine/limine.c:328-334 | the log is reversed and nothing else changes |
| BlockCache.Device.Uninstall | include/limine/limine.c:524-574 | the cached block is dropped, dirty or not, and the disk itself becomes the replay of the log |
| BlockCache.Device.InstallAndUndo | include/limine/limine.c:266-574 | after any reads and writes, reversing the log and uninstalling leaves the disk byte for byte as it was |
| ElfLoader.CheckIff | doccr/kernel/packages/elf/elf.c:33-83 | a header table that passes `elf_check` is in the file if and only if the 64-bit sum of its end did not wrap |
| ElfLoader.WrappedTable | doccr/kernel/packages/elf/elf.c:33-83 | a 64-byte file that passes `elf_check` although its header table is not in it |
| ElfLoader.InFileIff | doccr/kernel/packages/elf/elf.c:137-148 | a segment that passes the loader's bounds is in the file if and only if `offset + fileSize` did not wrap |
| ElfLoader.WrappedSegment | doccr/kernel/packages/elf/elf.c:137-148 | a segment that can be laid out and passes the bounds although its first page lies outside the file |
| ElfLoader.CopySegment | doccr/kernel/packages/elf/elf.c:180-219 | the copy loop ends, puts every byte of the segment in place across page offsets and frames, and changes no other page |
| ElfLoader.LoadSegment | doccr/kernel/packages/elf/elf.c:119-222 | one turn of the header loop with the code's bounds; other pages keep their bytes and rights and one region is added, with the rights of the header; it succeeds if and only if the segment passes the bounds, has a page, does not start in page 0, and the free frames cover its pages and the tables they lack |
| ElfLoader.ElfLoad | doccr/kernel/packages/elf/elf.c:89-241 | for page-disjoint segments below the stack: succeeds if and only if the header passes, every loadable segment can be loaded, and there are frames for the root, all pages and all their tables; then in the new space byte `vaddr + k` of each loadable segment whose end does not wrap is file byte `offset + k` for `k < fileSize` and 0 up to `memSize`; user code can read every such byte, write it if and only if PF_W is set and execute it if and only if PF_X is; the sixteen stack pages can be read and written but not executed; no other page is mapped; all other spaces keep their bytes and rights |
| ElfImages.FieldRead | doccr/kernel/packages/elf/elf.h:29-63 | any field of a record written little-endian reads back at its place, whatever stands around the record |
| ElfImages.CheckedIff | doccr/kernel/packages/elf/elf.c:33-83 | a header with any fields, in front of anything, passes `elf_check` if and only if magic, class, byte order, type, machine and entry size are right and the 64-bit sum of the table's end is within the file |
| ElfImages.WrittenRead | doccr/kernel/packages/elf/elf.c:33-135 | a file written with consistent fields, any physical addresses, alignments, padding and contents passes, and its program headers read back as they were written |
| ElfImages.LoadWritten | doccr/kernel/packages/elf/elf.c:89-241 | loading it puts exactly the segments that were written in memory, with their bytes and rights, if and only if it is executable, its segments can be loaded, and there are frames |
| AddressSearch.IsVaddrRangeFree | doccr/kernel/arch/x86_64/user/sys_mem.c:29-50 | the loop decides the test as the code computes it, with its 64-bit sums |
| AddressSearch.RangeFreeIff | doccr/kernel/arch/x86_64/user/sys_mem.c:29-50 | a range that passes is clear and within the limit if and only if its end does not wrap |
| AddressSearch.WrappedRange | doccr/kernel/arch/x86_64/user/sys_mem.c:29-50 | a range that passes although it covers a region and ends beyond the address space |
| AddressSearch.FindFreeVaddr | doccr/kernel/arch/x86_64/user/sys_mem.c:51-79 | the answer is the least address from 0x50000000 up whose range meets no region, or 0 if that is past the limit, if and only if the size added to the highest candidate does not wrap |
| AddressSearch.WrappedSearch | doccr/kernel/arch/x86_64/user/sys_mem.c:51-79 | a size for which the search answers with an address although nothing that large can be free |
| AddressSearch.PagesForIff | doccr/kernel/arch/x86_64/user/sys_mem.c:110-112 | the pages of a mapping hold its length, and one page less would not, if and only if the rounding does not wrap; if it does there are none |
| AddressSearch.Mmap | doccr/kernel/arch/x86_64/user/sys_mem.c:82-156 | without MAP_FIXED the hint, rounded down to a page, is taken if it is free, else the least free address; succeeds if and only if there is such an address and there are frames for its pages and the missing tables; the pages hold the length and no page more; on them user code can read, and write and execute exactly as asked; the region list stays sorted and disjoint, and on no other page anything changes |
| Line.DrawLine | doccr/kernel/screen/draw.c:44-75 | exactly max(abs dx, abs dy) + 1 pixels, from one end point to the other, each one step along the longer axis and within half a pixel of the ideal line |
| Line.NearestUnique | doccr/kernel/screen/draw.c:44-75 | the pixel the stepper takes in each column, or row, is the only one that near |
| Vfs.CreateWalk | doccr/kernel/fs/vfs/vfs.c:54-85 | creating a node adds the one path that ends in it and changes no other lookup |
| Vfs.WalkGrown | doccr/kernel/fs/vfs/vfs.c:101-130 | growing the tree keeps every path leading where it led |
| Vfs.CreateAny | doccr/kernel/fs/vfs/vfs.c:54-85 | whatever is asked for, the tree stays well formed, with at most 64 children in a directory, none below a file and data in files only; there is no answer, and no change, if and only if the parent is no directory, the name is empty, or the directory is full without such a child |
| Vfs.MkdirMeans | doccr/kernel/fs/vfs/vfs.c:132-169 | making directories ends in a directory at the end of the path, or where a file is in the way, a name is empty or a directory is full; nothing that was there changes |
| Paths.ParseJoin | doccr/kernel/fs/vfs/vfs.c:101-130 | cutting a joined path into names gives the names back |
| Paths.LongNameCut | doccr/kernel/fs/vfs/vfs.c:101-130 | a name of more than 63 characters is cut after the 63rd, as if a slash stood there |
| Paths.SplitJoin | doccr/kernel/fs/vfs/vfs.c:171-195 | splitting a joined path gives its directory and its last name |
| FileTree.Files.FindPath | doccr/kernel/fs/vfs/vfs.c:101-130 | the character loop finds the node at the end of the parsed path |
| FileTree.Files.NewNode | doccr/kernel/fs/vfs/vfs.c:54-85 | returns the existing child, refuses a full or missing directory or an empty name, else adds one node |
| FileTree.Files.MkdirPath | doccr/kernel/fs/vfs/vfs.c:132-169 | the character loop makes the missing directories of the parsed path |
| FileTree.Files.MakeFilePath | doccr/kernel/fs/vfs/vfs.c:197-212 | the directory part is found or made, then the file is |
| Vfs.DataWalk | doccr/kernel/fs/vfs/vfs.c:311-323 | setting the data of a node changes where no path leads |
| Archive.HexVal | doccr/kernel/packages/cpio/cpio.c:43-57 | the digit loop computes the 32-bit value of the digits, read as Archive.SpelledRead and Archive.OtherCharacters say |
| Archive.SpelledRead | doccr/kernel/packages/cpio/cpio.c:43-57 | a string of at most 8 hexadecimal digits, each in upper or lower case, reads as the number it spells |
| Archive.OtherCharacters | doccr/kernel/packages/cpio/cpio.c:43-57 | a character that is no hexadecimal digit reads like 0 |
| Archive.Extract | doccr/kernel/packages/cpio/cpio.c:74-155 | the loop over an arbitrary archive does entry by entry what the specified extraction does |
| Archive.NextOff | doccr/kernel/packages/cpio/cpio.c:74-155 | offsets grow by at least a header from entry to entry |
| Archive.ExtractSlices | doccr/kernel/packages/cpio/cpio.c:74-155 | whatever the archive, every slice a file borrows lies inside it |
| Archive.HeaderRound | doccr/kernel/packages/cpio/cpio.c:43-67 | mode, size and name length of a written header read back, under either version number, in any case, with anything in the other fields |
| Archive.SkipsOther | doccr/kernel/packages/cpio/cpio.c:119-149 | an entry that is neither directory nor file, or that names the root, is passed over |
| Archive.CutShort | doccr/kernel/packages/cpio/cpio.c:104-117 | an archive that ends inside an entry leaves the tree without that entry |
| Extraction.AllPlaced | doccr/kernel/fs/vfs/vfs.c:54-212 | from an empty tree, each entry of a list with distinct, compatible paths and at most 64 children per directory ends up at its path with its kind and bytes |
| Archive.RoundTrip | doccr/kernel/packages/cpio/cpio.c:74-155 | extracting the `newc` encoding (cpio(5), "New ASCII Format") of such a list, with digits in any case, either version number, and anything in the fields that are not read and behind the trailer, makes `vfs_find` of each path yield a node of its kind with exactly its bytes |

## Findings

Where the code does not do what one would expect of it, the input and the exact condition are proved.

- An in-place takeover leaves a mapped frame with count 0 (doccr/kernel/mem/vmm/vmm.c:549-561). Cloning its space
  later records one mapping where there are two, and the next write shows up in both spaces. This happens if and only
  if a source frame's count is 0 or one below 2^32: `CowInvariant.CloneExactIff` for the counts, `CowLimits.GuardIff`
  and `CowLimits.CloneAgreesIff` for the contents, `CowLimits.UnguardedReachable` for a run that gets there.
- One break clears the copy-on-write flag of the whole region (doccr/kernel/mem/vmm/vmm.c:573-575); a write to any
  other page of it then faults without a remedy, until the space is cloned again. `CowLimits.WritableAfterBreak` says
  exactly which pages can still be written, `CowLimits.StuckReachable` gives a run, and `CowLimits.CloneBreakable` says
  what a further clone does.
- A clone makes every page that can be read writable, also one that was asked for read-only, because the break sets the
  write flag whatever the region's flags were (doccr/kernel/mem/vmm/vmm.c:549-576). It changes no right if and only if
  every readable page was writable: `AccessRights.CloneSafeIff`, with a run: `AccessRights.CloneGainsWriting`.
- `vmm_space_alloc` that runs out of frames at a page boundary unmaps what it mapped and loses those frames
  (doccr/kernel/mem/vmm/vmm.c:276-285). It does so if and only if the number of free frames is exactly what some
  shorter, possibly empty, part of the range needs: `AddressSpaces.Vmm.SpaceAlloc`, with a machine on which it happens:
  `Footprint.LosesAFrame`.
- `vmm_space_destroy` of a space with a region at page 0 does not end (doccr/kernel/mem/vmm/vmm.c:229-245):
  `Footprint.DestroyTurn`.
- A kernel region request within a page of 2^64 rounds to 0 and leaves a used block of size 0
  (doccr/kernel/mem/vmm/vmm.c:109), exactly if anything is free: `KernelRegions.AllocSaneIff`.
- The same for `kmalloc` (doccr/kernel/mem/kheap/kheap.c:81), exactly if the first free block is large enough to be
  split: `KernelHeap.MallocSaneIff`; and for user `malloc` (user/libc/src/stdlib.c:34-89): `UserHeap.MallocSaneIff`.
- `q_push` drops a thread at 64 entries (doccr/kernel/proc/scheduler.c:53). Adding a thread is harmless if and only if
  fewer than 64 want to run: `LifecycleInvariant.CreateIff`, `SafeBurial.OverfullLoses`, and `SafeBurial.OverfullReachable`
  for a run that gets there.
- The end of the ELF header table is a 64-bit sum that may wrap (doccr/kernel/packages/elf/elf.c:33-83); the table is in
  the file if and only if it did not: `ElfLoader.TableIff`, `ElfLoader.CheckIff`, with a file that passes and is not:
  `ElfLoader.WrappedTable`.
- So is the end of a segment's file part (doccr/kernel/packages/elf/elf.c:137); a segment that passes is in the file if
  and only if it did not wrap: `ElfLoader.InFileIff`, with a segment that passes and is not: `ElfLoader.WrappedSegment`.
- The address tests of `mmap` wrap (doccr/kernel/arch/x86_64/user/sys_mem.c:29-79): right if and only if they did not,
  `AddressSearch.RangeFreeIff` and `AddressSearch.FindFreeVaddr`, with inputs on which they are not:
  `AddressSearch.WrappedRange` and `AddressSearch.WrappedSearch`. A length within a page of 2^64 rounds to no page
  (doccr/kernel/arch/x86_64/user/sys_mem.c:110-112), exactly if the rounding wraps: `AddressSearch.PagesForIff`.
- A name of more than 63 characters in a path is cut into several (doccr/kernel/fs/vfs/vfs.c:101-130):
  `Paths.LongNameCut`.
- Marking a range of frames whose end wraps does nothing (doccr/kernel/mem/phys/physmem.c:80-118):
  `PhysMem.FrameAllocator.MarkUsed`, `PhysMem.FrameAllocator.MarkFree`.

## Left out

- EagerCopy.CowRefinesEagerCopy: clones in a run are guarded, since CowLimits.CloneAgreesIff shows the claim false otherwise.
- AddressSpaces.Vmm.SpaceAlloc: the range must be unmapped and in the user half, which the code does not test; MMIO flags are excluded.
- AddressSpaces.Vmm.SpaceDestroy: no region may start at page 0, because the code's loop then never ends (Footprint.DestroyTurn).
- AddressSpaces.Vmm.WriteByte: asks for the writable bit, as for kernel code; user code needs the user bit too, which AccessRights.May adds.
- AddressSpaces.Vmm.CloneSpace: the allocation of region nodes does not fail; so in SpaceAlloc.
- AddressSearch.Mmap: the sums with hint and length must not wrap; what happens then is in the two lemmas under "Findings".
- ElfLoader.ElfLoad: program headers must be in the file (CheckIff says when) and segments page-disjoint and below the stack; nothing is promised about the bytes of a segment whose end wraps that lie outside the file, nor about the space left behind by a failed load.
- KernelRegions.AllocKeepsSane: sizes whose rounding wraps are excluded, since KernelRegions.AllocSaneIff shows the claim false for them.
- KernelRegions.AllocThenFree: likewise.
- KernelRegions.AlwaysSane: likewise, for every call of the run.
- KernelHeap.MallocSane: sizes whose rounding wraps are excluded, since KernelHeap.MallocSaneIff shows the claim false for them.
- KernelHeap.AlwaysSane: likewise, for every call of the run.
- KernelHeap.KernelHeap.KMalloc: sizes that round to 0 are excluded; KernelHeap.MallocSaneIff says what they do.
- KernelHeap.KernelHeap.KFree: takes null or an address that was handed out, so the test of the header's magic number always succeeds.
- KernelHeap.KernelHeap.KRealloc: takes null or the address of a block in use, and sizes that do not round to 0.
- UserHeap.Arena.Malloc: sizes whose rounding wraps are excluded; UserHeap.MallocSaneIff says what they do. The arena is there: a failing `mmap` is not modelled.
- UserHeap.Arena.Free: takes null or an address that was handed out.
- BlockCache.Device.InstallAndUndo: the device itself does not fail, so the retries and messages of `uninstall` are not there; block numbers stay below the "no block" mark.
- Archive.Extract: last names of 64 bytes or more overflow buffers in the code; here they are kept whole. Archives of 2^63 bytes or more are excluded.
- SafeBurial.BurialAlwaysSafe: the idle thread never exits and the bootstrap context never runs again; SafeBurial.Enabled lists when each call is made.
- User region lists are sequences and address spaces values in a map, where the code links `vmm_region_t` nodes; aliasing between nodes is modelled for the kernel's list only.
- Thread, process and zombie lists are sequences of ids in the fields of `Cpu`, where the code links objects.
- Frame flags, which are written and never read; TLB invalidation, CR3 loads, context switches, and interrupts in the middle of a call.
- MMIO regions (`vmm_map_phys`) inside clone and break.
- `physmem_init` probing of the memory map, and a second call of `vmm_init`.
- `process_waitpid` and `process_destroy`, which free a process outside the burial protocol.
- Scheduler.Cpu.CreateThread: the owner is a process and the entry point is there; a thread or stack that cannot be allocated leaves everything as it was and is no step of the model.
- Scheduler.Cpu.Fork: the successful path; Scheduler.Cpu.Fail is the failing ones.
- Thread names, stacks, registers and file descriptors.
- `sys_brk`, the MAP_FIXED branch of `sys_mmap` and `sys_munmap`.
- `kcalloc`, and `calloc` and `realloc` of the user heap.
- The alignment of user `malloc` results.
- `vfs_read`, `vfs_write`, `vfs_remove`, devices, and a failed allocation of a node.
- The entry point and first thread that `elf_load` starts, and its clean-up after a failure.
- Framebuffer, console, drivers, libc strings and the rest of the Limine installer.
