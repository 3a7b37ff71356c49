# A model of the kernel's memory, processes, messages and ramdisk

This project models the parts of a small x86_64 kernel that keep state, and proves what they
promise to each other. All of it is Dafny; `dafny verify dfyconfig.toml` checks it.

Every component comes twice. A module on values (functions and lemmas) says what each C
function does to an abstract state and holds the theorems; a class with the C globals as its
fields does the same thing in place, with the loops of the source, and each of its methods is
proved equal to the function of the first module. Machine words are natural numbers with the
operators of C defined bit by bit in `bits.dfy`; where 64- or 32-bit wrap-around can happen
it is written out. A C panic ends the model (`None`, or a method that returns `false`).

| file | component |
|---|---|
| `bits.dfy` | words, masks and shifts, sizes of sets |
| `pmm.dfy` | page frames: a set with a cursor, and the bitmap that stands for it |
| `entries.dfy`, `page_tables.dfy`, `vmm.dfy` | page-table entries, the four-level tables as values, and in place |
| `address_spaces.dfy`, `vmm_runs.dfy`, `vmm_theorems.dfy` | one call, whole runs, and what callers rely on |
| `table_economy.dfy`, `directories.dfy`, `boot.dfy` | number of tables, creating and releasing directories, `vmm_init` |
| `permissions.dfy`, `supply.dfy` | who may reach a page, and when `vmm_map` and `vmm_init` have enough memory |
| `dirty_tables.dfy`, `dirty_upper.dfy` | tables that do not come blank: the last level, and the levels above it |
| `lifetimes.dfy` | the whole life of directories, tables and data frames |
| `heap.dfy` | `kmalloc` and `kfree` |
| `sched.dfy`, `proc.dfy` | the scheduler, process creation over the heap, the process table in place |
| `context.dfy` | `switch_context` under the scheduler |
| `ipc.dfy`, `ipc_runs.dfy`, `ipc_liveness.dfy`, `mailboxes.dfy` | messages: one operation, all interleavings, waiting bounds, linked lists in place |
| `initrd.dfy` | the cpio walker |

## How the pieces fit

*Page tables.* `Shape` says that the tables form a forest: a map gives every table its
position, every present upper-level entry leads to the table at the position below it (or,
in the kernel half of a root, to the kernel's table), and no table is still available to the
page allocator. All results about page tables start from `Shape` and give it back. Tables
from the static pool come zeroed, tables from the page allocator do not (the zeroing in
`pmm_alloc` is commented out), so runs assume `Clean`: the pool lasts, or no free frame holds
a present entry. `dirty_tables.dfy` and `dirty_upper.dfy` show what happens otherwise. `Lifetimes` puts everything
together: directories are made and released, and frames change between tables and data.

*Messages.* `MessageRuns.Step` is one atomic section: `msg_alloc` with the private filling of
the node, the enqueue section, the dequeue section, `proc_sleep`, or any scheduler operation.
A timer tick may come between any two sections, in particular between the empty check of
`ipc_recv` and its sleep.

*Waiting.* Bounds are counted in calls of `schedule` and in ticks, not in time.

## What the proofs found

- `pmm_init` rounds the base up but does not reduce the size: all pages lie inside the region
  exactly when the rounding fits into what is left after the last whole page
  (`Pmm.PagesInsideRegion`; a region where it does not: `Pmm.PageOutsideRegion`).
- A page-table page from the page allocator brings its old contents along. A last-level table
  leaves the other answers alone exactly when those contents hold no present entry besides the
  one that is overwritten (`DirtyTables.DirtyTable`). A page directory does so exactly when, in
  addition, each of its present entries names a blank page that the call does not write to
  (`DirtyUpperTables.DirtyPd`), and a pointer table exactly when each of its entries names a page
  from which two more steps find nothing (`DirtyUpperTables.DirtyPdp`); both are conditions on
  memory before the call. An old entry on the path itself makes `vmm_map` use, and write into,
  the page it names (`DirtyTables.StrayWrite`, `DirtyTables.StrayDirectory`).
  `DirtyTables.OldEntryShows`: after 64 calls of `vmm_new_pagedir`, a page that was never mapped
  resolves.
- `vmm_map` does not open tables that exist: a page mapped for user mode is closed to it exactly
  when some table already on its path is closed (`Permissions.UserMapExact`), as all are that hang
  below the boot tables (`Permissions.BootTablesClosed`).
- `vmm_init` needs 1024 free frames and a page for each new table, no more and no less
  (`TableSupply.InitExact`). With up to 128 MB behind the first 2 MB all its tables come from the
  pool, and the kernel boots exactly on 4 MB or more (`TableSupply.RegionBoots`).
- Address bits in the `flags` of `vmm_map` are joined into the frame address
  (`VmmTheorems.FlagsMustLeaveAddress`).
- `vmm_free_pagedir` leaves tables behind exactly when an entry of the directory's kernel half
  is present and not the kernel's (`Directories.FreesAllExact`), which `vmm_map` brings about
  where the kernel's entry is missing (`Directories.KernelHalfLost`).
- `kmalloc` grants wrongly exactly when one of its sums leaves 64 bits and its guards do not
  refuse the request (`HeapBlocks.KmallocExact`, with an instance in
  `HeapBlocks.LargestRequest`); payloads are 16-byte aligned only for every second block,
  because headers take 24 bytes (`HeapBlocks.PayloadAlignment`).
- `proc_sleep` loses ticks for more than 2^64 / 100 milliseconds (`Scheduler.SleepTicksExact`).
- A process that exited becomes alive again exactly when it is still the current one and sleeps
  (`Scheduler.ZombieRevives`); without a process that is always ready this happens
  (`Scheduler.AloneZombieSleeps`). The last `if` of
  `schedule` can never be taken (`Processes.ProcTable.Schedule` proves its guard false).
- The search of `ipc_send` accepts any process that is not unused, so messages to an exited
  process are accepted (`Messages.ExitedAccepts`) and stay in its queue for good
  (`MessageLiveness.ZombieMail`), until no send succeeds any more (`MessageLiveness.PoolLost`).
- A send with a length but no buffer delivers what the node held before, and this is the only
  case in which a message depends on that (`Messages.LetterExact`).
- `initrd_read` copies past the file exactly when the offset lies inside it and offset and length
  together leave 64 bits
  (`Cpio.ReadExact`); a file named `TRAILER!!!` hides all files after it (`Cpio.RoundTrip`).
- `proc_create` stores the entry point in the top word of the new stack but sets the saved
  stack pointer one word higher, so that `switch_context` writes the first return address just
  behind the stack: over the size in the header of the next stack's block, if there is one
  (`KernelStacks.FirstDispatch`). The call in `proc_entrypoint` then keeps its return address in
  that word, and the next `proc_create` puts a block header over it
  (`KernelStacks.ReturnOverwritten`).

## Model

| member | source | states |
|---|---|---|
| `Pmm.PageAllocator.Init` | kernel/mm/pmm.c:24-41 | after initialisation the bitmap represents the first `total` pages as free, all bits from `total` on are set, and the cached count is the size of that set |
| `Pmm.PageAllocator.Search` | kernel/mm/pmm.c:47-49 | the loop finds what the cyclic search over the free set finds |
| `Pmm.PageAllocator.Alloc` | kernel/mm/pmm.c:43-61 | bitmap, count and cursor change as taking the found page out of the free set; count stays equal to the size of the set |
| `Pmm.PageAllocator.Free` | kernel/mm/pmm.c:63-72 | NULL, foreign and already free pages are ignored; otherwise the page joins the free set and the count follows |
| `Pmm.SetTakes` | kernel/mm/pmm.c:14-16 | setting one bit removes exactly that page from the represented set, in or out of the same word |
| `Pmm.ClearReleases` | kernel/mm/pmm.c:17-19 | clearing one bit adds exactly that page |
| `Pmm.PagesInsideRegion` | kernel/mm/pmm.c:24-28 | all pages handed out lie inside the original region if and only if there are none or the rounding of the base fits into the remainder of the size |
| `Pmm.PageOutsideRegion` | kernel/mm/pmm.c:24-28 | a concrete region whose only page sticks out |
| `Pmm.InitialIs` | kernel/mm/pmm.c:24-37 | the base is the first page boundary of the region, the total is all whole pages the size has room for, at most 131072, and exactly these pages are free |
| `Pmm.FreshAllocations` | kernel/mm/pmm.c:24-61 | after initialisation the i-th allocation returns the i-th page from the base |
| `PageFrames.ScanIsNearest` | kernel/mm/pmm.c:47-49 | the search fails exactly when nothing at that distance or more is free, and otherwise gives the free page nearest to the cursor in cyclic order |
| `PageFrames.AllocFacts` | kernel/mm/pmm.c:43-61 | NULL if and only if no page is free; never address 0 otherwise |
| `PageFrames.AllocThenFree` | kernel/mm/pmm.c:43-72 | releasing what was just allocated restores the free set |
| `PageFrames.FreeIdempotent` | kernel/mm/pmm.c:63-72 | a double free changes nothing, whatever the pointer |
| `PageFrames.FreeExact` | kernel/mm/pmm.c:63-72 | a pointer anywhere in a page of the region releases that page and no other; every other pointer releases nothing; the cursor stays |
| `PageFrames.NextFit` | kernel/mm/pmm.c:47-53 | a page released right after its allocation is the next one handed out if and only if no other page is free |
| `PageFrames.ExhaustInOrder` | kernel/mm/pmm.c:43-61 | from k free pages exactly k allocations succeed, with k different pages in cyclic order from the cursor |
| `Entries.LinkFacts` | kernel/mm/vmm.c:69-73 | an entry made for a table is present and leads back to exactly that table, whatever the flags |
| `Entries.LeafFacts` | kernel/mm/vmm.c:90 | a leaf entry is present and its address is the frame's joined with the address bits of the flags |
| `Entries.LeafBits` | kernel/mm/vmm.c:90 | around the address, bit k of a leaf entry is set if and only if it is set in the flags or is the present bit; in the address field, if and only if frame or flags have it |
| `Entries.LinkBits` | kernel/mm/vmm.c:70 | around the address, an entry made for a table has exactly the present and the writable bit, and the user bit if and only if the flags have it |
| `Entries.PageNumberDigits` | kernel/mm/vmm.c:7-10 | the four indices are the nine-bit digits of bits 47 to 12, the top-level index first |
| `Entries.SamePath` | kernel/mm/vmm.c:7-10 | two addresses have the same four indices exactly when bits 47 to 12 agree |
| `VirtualMemory.Vmm.AllocTable` | kernel/mm/vmm.c:28-45 | a zeroed page of the pool while it lasts, then a frame as it is, else panic |
| `VirtualMemory.Vmm.Map` | kernel/mm/vmm.c:61-93 | memory after the in-place walk is the one of the specification, with tables made level by level |
| `VirtualMemory.Vmm.Unmap` | kernel/mm/vmm.c:95-110 | clears the leaf entry if the walk gets there, else nothing |
| `VirtualMemory.Vmm.Resolve` | kernel/mm/vmm.c:112-127 | the address the walk leads to, or 0 |
| `VirtualMemory.Vmm.NewDir` | kernel/mm/vmm.c:134-143 | a new table with the kernel's entries 256 to 511 |
| `VirtualMemory.Vmm.FreeDir` | kernel/mm/vmm.c:146-163 | the three nested loops release the pointers of the specified list, in order |
| `VirtualMemory.Vmm.Init` | kernel/mm/vmm.c:223-251 | both loops, ending in the specified state or a panic |
| `AddressSpaces.MapStep` | kernel/mm/vmm.c:61-93 | the tables stay a forest, no table moves, and of all entries seen from all roots only that of the mapped page changes, for exactly the roots that share its top-level entry |
| `AddressSpaces.UnmapStep` | kernel/mm/vmm.c:95-110 | the same for unmapping |
| `AddressSpaceRuns.RunEvolves` | kernel/mm/vmm.c:61-110 | over any run of map and unmap on any roots the forest is kept and roots share exactly what they shared before |
| `AddressSpaceRuns.RunRefines` | kernel/mm/vmm.c:61-127 | after any run on any roots, every root maps exactly the pages that replaying the run on a plain map gives, to the same frames and with the rights of their last mapping, bit for bit |
| `VmmTheorems.ResolveIsLookup` | kernel/mm/vmm.c:112-127 | `vmm_resolve` after any run on a root is lookup in a map keyed by bits 47 to 12 that went through the same run, for every address |
| `VmmTheorems.FreshRootIsLookup` | kernel/mm/vmm.c:112-127 | the same from a root without entries, with the calls alone |
| `VmmTheorems.FlagsMustLeaveAddress` | kernel/mm/vmm.c:90 | a mapped page resolves to the requested frame if and only if the stray address bits of the flags are already in the frame address |
| `VmmTheorems.MapThenUnmap` | kernel/mm/vmm.c:61-110 | unmapping a newly mapped page restores every answer of every root |
| `VmmTheorems.LowerHalfPrivate` | kernel/mm/vmm.c:134-143 | no two roots share a table below entry 256 |
| `VmmTheorems.Isolation` | kernel/mm/vmm.c:61-110 | a run in the lower half of other roots leaves every answer of a root, the kernel's included, unchanged |
| `VmmTheorems.KernelHalfShared` | kernel/mm/vmm.c:134-143 | an entry taken over from the kernel stays the kernel's through every run, so both see the same answers below it |
| `DirtyTables.DirtyTable` | kernel/mm/vmm.c:41-44 | with an unzeroed last-level table, mapping leaves all other pages alone if and only if the page holds no other present entry |
| `DirtyTables.DirtyPath` | kernel/mm/vmm.c:41-90 | the frame of such a call: whichever tables are missing and dirty, answers can change only on walks through the entry that was missing, provided the new pages hold no entry on the path itself |
| `DirtyUpperTables.DirtyPd` | kernel/mm/vmm.c:41-90 | with a missing page directory: all other answers of all roots stay if and only if the new last-level table holds no other present entry and each other present entry of the new directory names a blank page that the call does not write to |
| `DirtyUpperTables.DirtyPdp` | kernel/mm/vmm.c:41-90 | with a missing pointer table: if and only if, in addition, each other present entry of that table names a page whose entries do the same, where the last new page counts with the mapping itself |
| `DirtyTables.StrayWrite` | kernel/mm/vmm.c:82-90 | when a new directory table does hold an entry on the path, the mapping is written into the page that entry names |
| `DirtyTables.StrayDirectory` | kernel/mm/vmm.c:75-90 | when a new pointer table does, the page its entry names is used as the directory and gets the table, or leads the mapping on |
| `DirtyTables.OldEntryShows` | kernel/mm/vmm.c:41-44 | after 64 new directories from boot, mapping one page makes its neighbour resolve to an old address |
| `TableEconomy.MapEconomy` | kernel/mm/vmm.c:68-87 | a map adds exactly the three prefixes of its address and takes one page for each new one |
| `TableEconomy.RunEconomy` | kernel/mm/vmm.c:68-110 | over any run the tables below a root are those of the distinct 9-, 18- and 27-bit prefixes ever mapped, each paid for with one page |
| `TableEconomy.RunKeepsLinks` | kernel/mm/vmm.c:68-110 | over any run no present entry above the last level changes |
| `Permissions.MapUpper` | kernel/mm/vmm.c:68-87 | of the entries above the page, those that were present stay as they are, rights included; a missing one on the path becomes present with the link rights of this call's flags; all others stay missing |
| `Permissions.RunUpper` | kernel/mm/vmm.c:68-87 | over any run on a root an upper entry keeps the rights it had, or has those of the first mapping that passed through it |
| `Permissions.RunUserMay` | kernel/mm/vmm.c:61-110 | after any run on a root, user mode may reach a page if and only if its last mapping is for user mode and each table above it was open before or was made by a mapping for user mode |
| `Permissions.UserMapExact` | kernel/mm/vmm.c:61-93 | a page mapped for user mode is open to it if and only if no table that was on its path is closed |
| `Permissions.BootTablesClosed` | kernel/mm/vmm.c:69-73 | below the boot tables no mapping, whatever its flags, opens a page to user mode |
| `TableSupply.AllocTableExact` | kernel/mm/vmm.c:28-45 | a table is to be had if and only if the pool has a page or a frame is free |
| `TableSupply.MapExact` | kernel/mm/vmm.c:61-93 | a mapping succeeds if and only if the pages left cover the tables its path lacks, and takes exactly as many |
| `TableSupply.HeapStepSome` | kernel/mm/vmm.c:236-242 | with four free frames the next heap page is mapped, whichever frame it gets |
| `TableSupply.InitExact` | kernel/mm/vmm.c:223-243 | initialisation succeeds if and only if 1024 frames are free and the pages left cover the tables of both ranges besides these 1024 |
| `TableSupply.BootExact` | kernel/mm/vmm.c:223-243 | with up to 128 MB behind the first 2 MB, whatever memory holds: success if and only if 1024 frames are free |
| `TableSupply.RegionBoots` | kernel/main.c:161-162 | the two initialisations in a row succeed on such a region if and only if it is at least 4 MB large |
| `Directories.NewDirStep` | kernel/mm/vmm.c:134-143 | a new directory sees the kernel's upper half and nothing else, shares exactly the present kernel entries, and changes no other root |
| `Directories.NewDirHalves` | kernel/mm/vmm.c:134-143 | whatever the new page held: entries 256 to 511 are the kernel's if there is a kernel root; elsewhere the page is zero if it is the pool's, and keeps its old contents if it is a frame |
| `Directories.FreeOrderIs` | kernel/mm/vmm.c:146-163 | the released pointers are the root and its user-half tables, each once |
| `Directories.FreeDirStep` | kernel/mm/vmm.c:146-163 | teardown adds exactly the page-allocator frames of the directory's own tables to the free set, none of which was free; pool tables are ignored, other directories stay a forest |
| `Directories.FreesAllExact` | kernel/mm/vmm.c:146-163 | no table of the directory is left behind if and only if every present entry of its kernel half is the kernel's |
| `Directories.KernelHalfLost` | kernel/mm/vmm.c:146-163 | mapping below a missing kernel-half entry makes a table that teardown neither releases nor leaves to anyone |
| `Directories.FreedClean` | kernel/mm/vmm.c:146-163 | released tables keep their entries: the free frames can serve as tables afterwards exactly when they could before and the released frames hold no present entry |
| `BootMapping.BootAgrees` | boot/boot.asm:113-138 | the boot tables map the first 2 MB to themselves and nothing else |
| `BootMapping.InitMaps` | kernel/mm/vmm.c:223-251 | from the boot tables and any other memory contents: every frame address outside the heap window and the first 2 MB resolve to themselves, the 1024 heap pages resolve to different page frames that were free and now are held, all with exactly the present and writable bits; no table lies on any of them, and the supply of tables is still clean; the frames of the heap may be dirty |
| `BootMapping.InitFrom` | kernel/mm/vmm.c:223-251 | the same from any forest that maps the first 2 MB to itself with these rights |
| `BootMapping.TablesReached` | kernel/mm/vmm.c:230-242 | of the pages that are or can become tables, exactly those outside the heap window resolve to themselves |
| `Lifetimes.PageKept` | kernel/mm/vmm.c:61-163 | over any life, a lower-half page keeps its answer unless its own directory maps or unmaps it or is released |
| `Lifetimes.TableStaysReached` | kernel/mm/vmm.c:230-242 | so pages of the kernel image and frames outside the heap window go on resolving to themselves in the kernel's directory while nobody maps or unmaps them there |
| `Lifetimes.InitLives` | kernel/mm/vmm.c:223-251 | after `vmm_init` such a life can begin, with the heap frames as data |
| `Lifetimes.LifeKept` | kernel/mm/vmm.c:61-163 | over any life of directories made and released, pages mapped and unmapped, and frames taken, written and given back, the tables stay a forest that never meets the data |
| `Lifetimes.LowerHalfIsOwn` | kernel/mm/vmm.c:61-163 | over any such life, what a directory maps in its lower half is what its own calls make of a plain map, whatever everybody else does |
| `Lifetimes.LowerAnswer` | kernel/mm/vmm.c:112-127 | the same as an answer of `vmm_resolve` |
| `Lifetimes.EntryFollows` | kernel/mm/vmm.c:134-143 | a present top-level entry that equals the kernel's stays the kernel's over any such life |
| `Lifetimes.NewDirLives` | kernel/mm/vmm.c:134-143 | from its creation through any such life, a new directory answers in its lower half by its own calls and below the kernel's entries as the kernel does |
| `KernelHeap.KHeap.Kmalloc` | kernel/mm/vmm.c:182-208 | the walk along the list of headers and the bump do what first fit on the block sequence does |
| `KernelHeap.KHeap.Kfree` | kernel/mm/vmm.c:210-214 | only the flag of the one block changes |
| `HeapBlocks.KmallocGrants` | kernel/mm/vmm.c:182-208 | within 64 bits: the blocks go on tiling the region, NULL if and only if the size is 0 or nothing fits and the bump would pass the end, the granted block was not in use and is large enough, all others stay |
| `HeapBlocks.RefusedExact` | kernel/mm/vmm.c:183-199 | for all 64-bit sizes: NULL if and only if the guards refuse, with their sums in 64 bits |
| `HeapBlocks.KmallocExact` | kernel/mm/vmm.c:184-199 | for all sizes: the promise is kept if and only if nothing wraps or the guards refuse |
| `HeapBlocks.KmallocReuses` | kernel/mm/vmm.c:187-207 | the first free block in list order that is large enough is taken whole, without moving the bump pointer; only when none fits is a block of the rounded size cut at the bump pointer |
| `HeapBlocks.FreedIsReused` | kernel/mm/vmm.c:182-214 | a request that fits a block just given back never grows the heap, and restores the heap when nothing else fits |
| `HeapBlocks.LargestRequest` | kernel/mm/vmm.c:184-207 | the largest size is granted with a block of no bytes |
| `HeapBlocks.KfreeFrees` | kernel/mm/vmm.c:210-214 | exactly the block behind the pointer becomes free, and freeing again changes nothing |
| `HeapBlocks.RunBacked` | kernel/mm/vmm.c:182-214 | over any legal sequence of requests and releases live payloads are disjoint, inside the heap and at least as large as requested |
| `HeapBlocks.HistoryBacked` | kernel/mm/vmm.c:182-214 | the same for every legal history from the empty heap |
| `HeapBlocks.PayloadAlignment` | kernel/mm/vmm.c:184-207 | a payload is 16-byte aligned if and only if the number of older blocks is odd |
| `Processes.ProcTable.Schedule` | kernel/proc/proc.c:257-289 | the search loop and the hand-over, with the closing branch proved dead |
| `Processes.ProcTable.SchedTick` | kernel/proc/proc.c:243-254 | every sleeper counts down, and every tenth tick schedules |
| `Processes.ProcTable.Sleep` | kernel/proc/proc.c:227-233 | tick count in 64 bits, then schedule |
| `Processes.ProcTable.Wakeup` | kernel/proc/proc.c:235-239 | only a sleeper becomes ready |
| `Processes.ProcTable.Exit` | kernel/proc/proc.c:215-221 | the zombie keeps its code, another process goes on |
| `Processes.ProcTable.Find` | kernel/proc/proc.c:208-213 | the first used slot with the pid |
| `Processes.ProcTable.AllocProcSlot` | kernel/proc/proc.c:22-31 | the first unused slot, cleared and ready |
| `Processes.ProcTable.CreateElf` | kernel/proc/proc.c:69-76 | the slot and pid that `proc_create_elf` takes, and its fields in the table |
| `Processes.ProcTable.Create` | kernel/proc/proc.c:130-207 | slot, stack, pid and initial fields, or nothing changed but the heap |
| `Scheduler.NextReadyIs` | kernel/proc/proc.c:268-271 | the search finds the ready slot nearest in cyclic order, and fails exactly when there is none |
| `Scheduler.ScheduleIs` | kernel/proc/proc.c:257-289 | the runnable slot nearest in cyclic order becomes running, and started if it is a user's, with no other change to it; the current one counts as farthest and becomes ready if it ran; all other slots stay; without a runnable slot nothing changes |
| `Scheduler.ScheduleRunsExact` | kernel/proc/proc.c:257-289 | the current process is running afterwards if and only if something was runnable |
| `Scheduler.RunSafe` | kernel/proc/proc.c:215-289 | in every reachable state at most one slot is running, it is the current one, and every sleeper has a tick left |
| `Scheduler.RunIdling` | kernel/proc/proc.c:215-289 | if one process never sleeps or exits, the current process is running after every operation and zombies stay as they are |
| `Scheduler.ZombieRevives` | kernel/proc/proc.c:215-289 | a zombie stops being one if and only if it is still the current process and sleeps |
| `Scheduler.AloneZombieSleeps` | kernel/proc/proc.c:215-233 | a state without such a process from which both promises fail |
| `Scheduler.SleepTicksExact` | kernel/proc/proc.c:229-230 | a tenth of the milliseconds, at least one, if and only if the product stays within 64 bits |
| `Scheduler.SleepIs` | kernel/proc/proc.c:227-233 | the process that called is asleep with its full tick count, even when schedule finds nobody else |
| `Scheduler.ExitIs` | kernel/proc/proc.c:215-221 | the process that called is a zombie with its exit code, all else in its slot kept |
| `Scheduler.TickIs` | kernel/proc/proc.c:243-254 | a tick takes one from each sleeper with more than one to go, makes the others ready with none to go, and touches no other process; schedule follows exactly at the end of a slice |
| `Scheduler.SleepsExactly` | kernel/proc/proc.c:235-254 | over any run without a wakeup of it, a sleeper with t ticks to go is asleep if and only if fewer than t ticks have come, with the difference to go |
| `Scheduler.SleepLasts` | kernel/proc/proc.c:227-254 | the same from the call of `proc_sleep` on |
| `Scheduler.ScheduleCloser` | kernel/proc/proc.c:268-273 | each call brings a waiting slot closer or runs it |
| `Scheduler.BoundedWaiting` | kernel/proc/proc.c:257-289 | a slot that stays ready runs within as many calls as it is steps away, at most 63, or 64 for the current slot |
| `ProcCreation.RunFilled` | kernel/proc/proc.c:69-207 | over any history of both kinds of creation and of the scheduler, the processes fill a prefix of the table as long as the number of creations, slot i holds pid i + 1, and the heap holds exactly the stacks of those made by `proc_create`, even when sizes in the headers are overwritten |
| `ProcCreation.HistoryFilled` | kernel/proc/proc.c:45-207 | the same from `proc_init` and the empty heap |
| `ProcCreation.CreateIs` | kernel/proc/proc.c:130-207 | the first unused slot gets the next pid, the parent's pid, state ready, no exit code or ticks and the top of a new stack; no other slot changes; failure exactly on a full table or a full heap |
| `ProcCreation.CreateElfIs` | kernel/proc/proc.c:69-76 | the first unused slot is cleared and gets the next pid, state ready, and the marks of a user process not yet started; no other slot changes |
| `ProcCreation.LaunchIdles` | kernel/main.c:243-245 | the hand-over leaves the first process running, a state from which the current process is always running |
| `ProcCreation.CreateFailsExact` | kernel/proc/proc.c:133-144 | creation fails if and only if all 64 slots are taken |
| `ProcCreation.FindExact` | kernel/proc/proc.c:208-213 | pid k is found in slot k - 1, and no other pid is found |
| `ProcCreation.StacksDisjoint` | kernel/proc/proc.c:140-146 | kernel stacks are disjoint and inside the heap |
| `ContextSwitch.Core.SwitchContext` | kernel/arch/x86_64/context.asm:17-48 | the instructions save and load the register record and the stack top as specified |
| `Contexts.SelfSwitch` | kernel/arch/x86_64/context.asm:17-48 | switching to oneself is an ordinary return and leaves memory alone |
| `Contexts.Resumption` | kernel/arch/x86_64/context.asm:17-48 | over any run of the scheduler the k-th time a process is resumed it has the r12 to r15, rbx, rbp, stack pointer and return address of its k-th own call |
| `Contexts.StackPreserved` | kernel/arch/x86_64/context.asm:17-48 | and its whole stack is as it left it, if the others leave it alone |
| `KernelStacks.StackOwners` | kernel/proc/proc.c:146-157 | each word of the created stacks belongs to exactly one slot, and the first stack pointer of a process points into no stack |
| `KernelStacks.KernelStackPreserved` | kernel/arch/x86_64/context.asm:17-48 | the preserved stacks are those of `proc_create`: every word of the 16 KB is as the process left it |
| `KernelStacks.NextHeader` | kernel/proc/proc.c:146-157 | that pointer is the address of a block if and only if a later process has its stack on the heap, and until then it is the bump pointer |
| `KernelStacks.FirstDispatch` | kernel/arch/x86_64/context.asm:34-48 | the first dispatch goes to the trampoline with the entry point in r12, stores the trampoline's address at that pointer, and leaves the stack pointer one word above |
| `KernelStacks.ReturnOverwritten` | kernel/proc/proc.c:140-157 | creating a process after the last stack's owner has been dispatched puts the new block's header on that word |
| `Mailboxes.Ipc.MsgAlloc` | kernel/ipc/ipc.c:8-17 | the first free node becomes used with a NULL link |
| `Mailboxes.Ipc.MsgFree` | kernel/ipc/ipc.c:19-24 | marks the node free if it belongs to the pool |
| `Mailboxes.Ipc.SendBegin` | kernel/ipc/ipc.c:27-43 | the checks, the node and the copy loop; no list changes |
| `Mailboxes.Ipc.SendEnd` | kernel/ipc/ipc.c:45-62 | appending at the tail of the linked list is appending to the queue; the lists stay well-formed, a sleeping target wakes |
| `Mailboxes.Ipc.Send` | kernel/ipc/ipc.c:27-64 | both parts together, with the status the caller sees |
| `Mailboxes.Ipc.Take` | kernel/ipc/ipc.c:73-91 | unlinking the head is removing the first element; the letter in the caller's buffer is the first of the queue's letters, and the others are those that remain |
| `Mailboxes.Ipc.RecvCheck` | kernel/ipc/ipc.c:67-91 | which of the three outcomes of one round occurs; with status 0 the caller's buffer holds the first of the queue's letters |
| `Mailboxes.Ipc.RecvRound` | kernel/ipc/ipc.c:67-97 | one undisturbed round, with the sleep when the queue is empty, and else the first letter in the caller's buffer |
| `Messages.SendBeginErrors` | kernel/ipc/ipc.c:28-34 | a send succeeds if and only if the process exists, the length is allowed and a node is free, and otherwise reports the first of these that fails |
| `Messages.SendBeginQueued` | kernel/ipc/ipc.c:27-43 | the node is the first unused one and was in nobody's queue, no other node changes, and it holds the current process's pid, type, length and the first bytes of the data, or without a buffer the bytes it held before; the bytes beyond the length stay |
| `Messages.DeliverLetter` | kernel/ipc/ipc.c:81-88 | the receiver's buffer says what the message says, sender, type, length and bytes, and its own bytes beyond the length stay |
| `Messages.SendEndWakes` | kernel/ipc/ipc.c:58-60 | the enqueue section makes a sleeping target ready, with nothing else changed in the process table, and leaves any other target alone |
| `Messages.LetterExact` | kernel/ipc/ipc.c:36-43 | a message does not depend on what its node held before if and only if it has no length or a buffer |
| `Messages.ExitedAccepts` | kernel/ipc/ipc.c:28-62 | a message to an exited process is accepted and joins its queue |
| `MessageRuns.EmptyInv` | kernel/ipc/ipc.c:3-6 | an empty pool with empty queues satisfies the ownership invariant |
| `MessageRuns.StepInv` | kernel/ipc/ipc.c:27-98 | every section, and every scheduler step in between, keeps the ownership invariant |
| `MessageRuns.PoolConserved` | kernel/ipc/ipc.c:8-24 | each used node is in exactly one queue, once, or with one sender; queue lengths and sends under way add up to the used nodes, at most 128 |
| `MessageRuns.Fifo` | kernel/ipc/ipc.c:27-98 | over every run and for every process, letters queued at the start and sent since are exactly those found in the receiver's buffers followed by those still queued, in order |
| `Scheduler.SlotsKept` | kernel/proc/proc.c:215-289 | the scheduler neither creates nor removes processes |
| `MessageLiveness.ScheduleTurns` | kernel/proc/proc.c:257-289 | a call of schedule uses up one turn of a waiting process and costs a running one at most 63 |
| `MessageLiveness.PendingStep` | kernel/ipc/ipc.c:58-97 | while a message waits, each step uses up the budget of turns, ticks and sleeps it spends |
| `MessageLiveness.SendWakes` | kernel/ipc/ipc.c:58-97 | from the enqueue on, a process in the loop of `ipc_recv` is never asleep before it has received: no tick and no further sleep pass, and at most 64 calls of schedule while it is ready (63 more per lost time slice) |
| `MessageLiveness.RunPunctual` | kernel/ipc/ipc.c:70-97 | with an idle process, a process inside `ipc_recv` is awake in the gap and sleeps one tick at most otherwise |
| `MessageLiveness.StartPunctual` | kernel/main.c:243-245 | an empty pool and a running idle process are a state from which these bounds hold |
| `MessageLiveness.NoLostWakeup` | kernel/ipc/ipc.c:58-97 | a message for a process inside `ipc_recv`, even one that came between check and sleep, is delivered before the process waits through more than 128 calls of schedule (63 more per lost time slice), more than one tick, or more than one sleep |
| `MessageLiveness.ZombieMail` | kernel/ipc/ipc.c:28-62 | with an idle process, an exited process never receives: what is in its queue stays there, nodes and all, and what is sent joins it |
| `MessageLiveness.PoolLost` | kernel/ipc/ipc.c:8-34 | once the whole pool is in the queue of an exited process, every later send fails |
| `InitialRamdisk.Initrd.Hex8` | kernel/initrd.c:61-73 | eight digits as a number, with shifts in 32 bits |
| `InitialRamdisk.Initrd.Memcmp` | kernel/initrd.c:45-52 | zero if and only if the bytes agree, else the difference at the first byte that does not |
| `InitialRamdisk.Initrd.Strcmp` | kernel/initrd.c:54-59 | zero if and only if the memory holds the string and its NUL, else the difference at the first byte that differs |
| `InitialRamdisk.Initrd.Init` | kernel/initrd.c:84-139 | on any bytes the loop ends, and the table holds the first 128 entries of the walk |
| `InitialRamdisk.Initrd.Find` | kernel/initrd.c:144-150 | the first table entry with the name |
| `InitialRamdisk.Initrd.Read` | kernel/initrd.c:152-161 | the bytes written and the count, with the 64-bit sum; the rest of the buffer stays |
| `Cpio.WalkBounds` | kernel/initrd.c:92-136 | on arbitrary bytes every entry takes at least 110 bytes, its name and data lie between start and end, and entries do not overlap |
| `Cpio.HexInverse32` | kernel/initrd.c:61-73 | reading back eight hexadecimal digits of either case gives the number |
| `Cpio.DigitExact` | kernel/initrd.c:64-70 | a character counts as the digit it denotes, and as zero if it denotes none |
| `Cpio.DamagedArchive` | kernel/initrd.c:92-128 | where a header's magic number is wrong in any character, or a file reaches past the end, the walk gives exactly the files in front of it |
| `Cpio.RoundTrip` | kernel/initrd.c:92-136 | the walk on an archive gives exactly the files before the first one named like the trailer, in order, with name, size and contents; all files if and only if none is named so |
| `Cpio.LookupInArchive` | kernel/initrd.c:84-150 | from archive to lookup: the first 128 files, and the first of them with an equal name |
| `Cpio.ReadExact` | kernel/initrd.c:152-161 | the wanted part of the file, if and only if the offset is past the end or the sum stays within 64 bits |
| `Cpio.ChunksConcatenate` | kernel/initrd.c:152-161 | reading in chunks of any positive sizes gives the file in order |

## Left out

- Serial, VGA, interrupt controllers, timer programming, port I/O, `kprintf`, descriptor tables, model-specific registers and TLB flushes: device plumbing without state that the properties above need.
- `kernel/elf_loader.c`, user-mode entry and the trampolines: the loader's call of `vmm_map` has an argument too few, so there is no mapping to state anything about. Of `proc_create_elf` only the slot, the pid and the table fields appear, not its page directory.
- Multiboot parsing, system calls, keyboard and file descriptors; of `kernel_main` only the hand-over to the first process and the lower bound of 2 MB for the page frames appear.
- Preemption inside `schedule`, `proc_sleep`, `msg_alloc` and the enqueue and dequeue sections; they are atomic steps.
- The kernel accesses page tables through their physical addresses, which needs them to be identity-mapped; the model reads and writes physical memory directly, and treats the pool as part of it. After `vmm_init` this holds for the tables outside [4 MB, 8 MB) and for no others (`BootMapping.TablesReached`): page frames in that range are hidden by the heap window.
- Processes.ProcTable.Create: leaves out the name, the entry word on the stack, the saved context, which is `KernelStacks.FirstContext`, and the reset of the message queue, which is empty for unused slots by `MessageRuns.EmptySlot`.
- KernelStacks.StackOwners: `kernel_rsp` stands for the saved stack pointer, to which `proc_create` gives the same value.
- KernelHeap.KHeap.Kmalloc: requires that no sum leaves 64 bits, because a wrapped bump pointer would write its header over memory the list does not own; `HeapBlocks.KmallocExact` covers all sizes on values.
- KernelHeap.KHeap.Kfree: requires NULL or a pointer that `kmalloc` handed out; the source writes a flag in front of any other pointer.
- InitialRamdisk.Initrd.Init: requires the image to end well below 2^64, so that no pointer of the walk wraps around.
- InitialRamdisk.Initrd.Strcmp: the second string is given by its characters; memory is total, so reading an unterminated name is defined.
- Mailboxes.Ipc.RecvRound: one round of the loop, for `ipc_recv` itself need not return; its waiting is the subject of `MessageLiveness.NoLostWakeup`.
- MessageRuns.Fifo: for a send with a length but without a buffer the letter consists of the bytes the node held before.
- Contexts.StackPreserved: memory consists of aligned 64-bit words, and saved contexts lie outside the stacks.
- TableSupply.InitExact: assumes, like `TableSupply.MapExact`, that pages taken as tables hold no present entry (`Clean`); `TableSupply.BootExact` and `TableSupply.HeapStepSome` assume nothing about them.
- Permissions.RunUserMay: states the user bit at the four levels; the writable bit needs no such condition, since `vmm_map` sets it in every table entry it makes (`Entries.LinkBits`), and what the processor makes of the no-execute bit is not modelled.
- AddressSpaceRuns.RunRefines: assumes that pages taken as tables hold no present entry (`Clean`) and that no call panics; `dirty_tables.dfy` says what one call does otherwise.
- Lifetimes.LowerHalfIsOwn: assumes the same of every act that takes a table; `Directories.FreedClean` says when a release ends it.
- DirtyTables.DirtyPath: says which answers can change, not whether they do; that is in `DirtyTables.DirtyTable`, `DirtyUpperTables.DirtyPd` and `DirtyUpperTables.DirtyPdp`.
- DirtyUpperTables.DirtyPdp: like `DirtyUpperTables.DirtyPd`, for new pages without an entry on the path itself; otherwise only the writes are stated (`DirtyTables.StrayWrite`, `DirtyTables.StrayDirectory`).
