# A Dafny model of the Pintos kernel

This project models the parts of a Pintos kernel in which something can go subtly wrong, and proves
what they promise: demand paging with eviction and swap, the priority and feedback-queue scheduler
with semaphores, locks and condition variables, the exit handshake, the page and block allocators,
files and directories on disk, the linked list and its merge sort, the hash table, bitmaps, 64-bit
division, heap sort, loading ELF segments, passing arguments, and ustar headers.

Two styles are used, as the code calls for.

* Code that changes memory step by step is a class or a method on arrays, with loops and invariants:
  `List`, `ListSort`, `Malloc`, `Palloc`, `Bitmap`, `Inode`, `FileSystem`, `Hash`, `HeapSort`,
  `Arithmetic`, `Loader`, `PushArgument`, `Octal`, `Ustar`.
* Code whose difficulty is interleaving is a transition system. A state is a value, a step is one
  action that no other thread can interrupt, and a theorem speaks of every run. `Paging` (with
  `PagingInvariant`, `PagingSteps`, `PagingTheorems`, `PagingService`) runs any number of processes
  through page faults, evictions and the single sector transfers of swapping and of loading from
  files. `Scheduler` (with `SchedulerInvariant`, `SchedulerSteps`, `SchedulerTheorems`,
  `SchedulerEffects`) runs threads, timer interrupts, semaphores and locks. `Monitor` runs condition
  variables. `ExitHandshake` (with `ExitHandshakeRuns`) runs parents in `process_wait` against
  children in `process_exit`.

`Common`, `Seqs`, `Bytes`, `Ordered` and `FixedPoint` hold what several of them share: options,
lists without repetition, byte buffers, what a stable sort is, and the scheduler's arithmetic.

Integers are unbounded in Dafny, so every wrap-around of the C code is written out: as a remainder
where C defines it, and as `None` where a signed overflow would be undefined. Input and output,
memory allocation and the clock enter as parameters: whether an allocation succeeds, which page the
page allocator hands out, which frame is evicted.

Where code and comments disagree the code is followed. A page that comes back from swap is mapped
writable whatever the segment said (`src/vm/page.c:167-177`). A file whose directory entry cannot be
added keeps its data sectors allocated (`src/filesys/filesys.c:50-55`), so the sectors of live files
are among the allocated ones and not all of them. The list of sleeping threads is ordered by a field
of the wrong structure (`src/threads/thread.c:692`, `src/threads/thread.c:725`), so a sleeper enters
it anywhere. A directory read may come out short for lack of memory
(`src/filesys/directory.c:163-165` says otherwise), so a scan may overlook entries. `umod64` and
`smod64` return 32 bits (`src/lib/arithmetic.c:131-154`). Stripping a name's prefixes does not keep
it below the directory (`src/lib/ustar.c:56-61`).

`dafny verify dfyconfig.toml` checks the whole project.

## Model

| member | source | states |
|---|---|---|
| PagingTheorems.ReadReturnsLastWrite | src/vm/page.c:154-215 | in every run and interleaving of faults, writes, evictions, swap transfers, sector reads of files and writes to those files by any number of processes, a byte read from a user page is the last one its owner wrote there; failing that, zero or the byte of the file as it was when the sector with that byte was read, found by looking back along the run |
| PagingTheorems.RunRefinesMemory | src/vm/frame.c:102-142 | every state of a run is plain per-process memory in disguise: replaying the visible events on plain memory is allowed at each step, and the bytes of each page, wherever they are (file, frame, swap slot, in transfer), are those of that memory |
| PagingTheorems.ReplayIsExpected | src/vm/page.c:79-127 | replayed memory and looking back along the events for the last write or first contents give the same bytes, also of a page that is still being read from its file |
| PagingTheorems.FramesAndSlotsHaveOneOwner | src/vm/frame.c:156-178 | outside a fault in progress each frame belongs to exactly one page that names it and is not free, no two pages name one frame, every unavailable slot is named by a swapped-out page, and no two pages name one slot |
| PagingTheorems.SecondPallocSucceeds | src/vm/frame.c:105-124 | after an eviction the second palloc_get_page always finds a frame |
| PagingTheorems.RemapNeverFails | src/userprog/pagedir.c:68-117 | mapping a loaded page meets pagedir_set_page's assertion, and for a page from swap it cannot fail, because its page table survived the eviction |
| PagingTheorems.HandlerNeverStuck | src/vm/page.c:154-203 | a process inside a fault can always take its next step, with two exceptions: it is about to acquire the frame lock that another process holds, and then that one can go on; or the holder finds no frame to evict or no free slot |
| PagingService.FaultIsTakenUp | src/userprog/exception.c:155-174 | in every run, a fault on a page that has an entry, or that grows the stack, sends the process to wait for a frame with its entry unchanged or one for a zero page, or lets it try again if the page is just being evicted; any other fault, and a write to a page that is not writable, kills it |
| PagingService.FaultIsServed | src/vm/page.c:154-203 | when that process next runs, the page is present on the frame that its entry names, with the access of the segment for a page from its file and writable otherwise; it dies if and only if one of its own steps in between failed to enter the frame, read the file, or map or record the page |
| PagingService.StackIsSetUp | src/userprog/process.c:529-558 | setting up the stack ends with a writable page there, or the process dies, under exactly the same condition |
| PagingService.FileFailsAtEndOrBounce | src/vm/page.c:205-210 | reading a page from its file fails only at the end of the file or where a sector is read in part through a bounce buffer not yet allocated |
| PagingService.FaultIsShort | src/vm/page.c:154-203 | a fault is over after at most 5030 steps of its own process, evictions and sector transfers included, whatever the other processes do in between |
| PagingService.InstalledStays | src/userprog/process.c:514-516 | a page that load_segment enters is to come from its file, and in every later state its entry has the same file, offset, byte count and access |
| PagingService.NewProcessMayLoad | src/userprog/process.c:255-280 | a new process can enter any user page from any file, and set up its stack |
| PagingSteps.StepKeepsInv | src/vm/swap.c:65-94 | every step of every process keeps the invariant on pins, frames, entries, mappings, slots and bytes in transfer |
| FixedPoint.LoadAvgStays | src/threads/thread.c:777-786 | with at most r threads, load_avg stays within 0 and r times 2^14 and nothing overflows |
| FixedPoint.DecayBound | src/threads/thread.c:788-797 | the decay factor is at most 2r / (2r + 1), in fixed point, without overflow |
| FixedPoint.RecentCpuStays | src/threads/thread.c:788-801 | a second's worth of ticks later, recent_cpu is recomputed without overflow back into its range |
| FixedPoint.AgedStays | src/threads/thread.c:718-721 | one tick raises recent_cpu by one at most and does not overflow |
| FixedPoint.PriorityStays | src/threads/thread.c:803-824 | priorities are computed without overflow and lie between 0 and 63 |
| FixedPoint.LoadAvgIsClose | src/threads/thread.c:777-786 | load_avg becomes 59/60 of itself plus 1/60 of the ready threads, rounded down |
| FixedPoint.RecentCpuIsClose | src/threads/thread.c:788-801 | for either sign of recent_cpu, the two roundings of the decay lose at most 1 + (its magnitude) / 2^14 units of 2 load / (2 load + 1) times recent_cpu, to which nice is added exactly |
| FixedPoint.PriorityIsClose | src/threads/thread.c:814-823 | the priority is 63 - recent_cpu / 4 - 2 nice up to rounding, cut off at 0 and 63 |
| FixedPoint.GetLoadAvgIsSafe | src/threads/thread.c:429-434 | with at most 545 threads the getter does not overflow and reports 100 times load_avg rounded down |
| FixedPoint.GetRecentCpuIsSafe | src/threads/thread.c:436-441 | the getter reports 100 times recent_cpu rounded toward zero if and only if recent_cpu is within 21474836; beyond that it overflows |
| FixedPoint.GetRecentCpuOverflows | src/threads/thread.c:436-441 | it does: with 40 threads ready and nice 20, recent_cpu is beyond that bound 2780 seconds after boot |
| Ordered.InsertSplits | src/lib/kernel/list.c:446-459 | ordered insertion puts an element after everything that is not greater and before everything that is |
| Ordered.InsertPlace | src/lib/kernel/list.c:446-459 | also in a sequence that is not sorted, the element goes before the first one that it must precede |
| Ordered.SortCharacterised | src/lib/kernel/list.c:401-440 | a sequence is the sort of another exactly when it is sorted and keeps the order of elements that are alike |
| SchedulerSteps.StepKeepsInv | src/threads/thread.c:139-174 | every step of threads and timer keeps the invariant on the ready list, waiters, sleepers and locks, and only the arithmetic of a tick or of set_nice could stop one |
| SchedulerTheorems.ReadyListIsExact | src/threads/thread.c:269-283 | in every reachable state the ready list holds exactly the READY threads other than the idle thread, once each, in non-increasing priority, also after all priorities were recomputed |
| SchedulerTheorems.SwitchPicksMostUrgent | src/threads/thread.c:566-647 | every thread switch finds a thread, none that is READY has a higher priority than the one picked, and the idle thread runs only when no other is READY |
| SchedulerTheorems.ArrivalGoesBehindEquals | src/threads/thread.c:341-358 | a thread made ready goes behind every thread of at least its priority and before the others |
| SchedulerTheorems.WakeIsExact | src/threads/thread.c:698-717 | block_check leaves asleep exactly the sleepers whose time has not come, makes the others ready, and touches no other thread |
| SchedulerTheorems.MutualExclusion | src/threads/synch.c:199-243 | in every interleaving at most one thread is between the return of lock_acquire and its lock_release; it is the lock's holder, and the lock's semaphore is 0 |
| SchedulerTheorems.NoWakeupIsLost | src/threads/synch.c:60-128 | whenever a semaphore has waiters, the threads woken from it that have not run again number at least its value, each of them ready or running; the waiters are exactly the threads blocked on it |
| SchedulerEffects.TickMeans | src/threads/thread.c:151-172 | every tick of every run under the feedback scheduler adds one to the running thread's recent_cpu; a tick that is a multiple of 100 first makes load_avg 59/60 of itself plus 1/60 of the threads ready or running other than the idle one, rounded down, then decays every recent_cpu by 2 load / (2 load + 1) and adds nice; a multiple of 4 makes every priority 63 - recent_cpu / 4 - 2 nice up to rounding, within 0 and 63; otherwise none of these changes, and without the feedback scheduler never |
| SchedulerEffects.ReadyAndRunning | src/threads/thread.c:777-783 | what calculate_load_avg counts is the number of threads ready or running, the idle thread excepted |
| SchedulerEffects.TickWakes | src/threads/thread.c:698-717 | every tick of every run leaves asleep exactly the sleepers whose time has not come, makes the others ready, and changes the state of no other thread |
| SchedulerEffects.TickKeepsTurns | src/threads/thread.c:821-823 | when no sleeper is due, a tick leaves threads of equal priority in their order in the ready list, also when all priorities were recomputed |
| SchedulerEffects.ThreadStepMeans | src/threads/thread.c:199-425 | in every run, creating, starting, yielding, exiting, sleeping, setting priority or nice, and the idle thread's steps change status, place, priority and figures of exactly the threads they should: whoever leaves the CPU is ready, blocked or gone, its successor was ready or is the idle thread, and set_nice gives the priority of the formula |
| SchedulerEffects.SynchStepMeans | src/threads/synch.c:60-243 | in every run, sema_down takes a semaphore that is up and otherwise blocks the thread behind the waiters of at least its priority; sema_up raises it and makes the first waiter ready; trying fails without effect exactly when it is down; acquiring ends with the thread as holder and releasing with none; no other semaphore, lock or thread changes |
| SchedulerEffects.ValuesAreConserved | src/threads/synch.c:60-128 | between any two states of a run a semaphore's value is what it was plus the times it was raised minus the times it was taken |
| SchedulerEffects.AcquireReturnsHolding | src/threads/synch.c:199-211 | lock_acquire returns only with the caller as the lock's holder |
| SchedulerEffects.LoadIsPositive | src/threads/thread.c:785 | load_avg is never negative in any run |
| Monitor.StepKeepsInv | src/threads/synch.c:295-345 | every step of waiting, signalling, acquiring and releasing keeps lists, semaphores and histories in agreement with where each thread is |
| Monitor.SignalRaisesOldest | src/threads/synch.c:318-329 | a cond_signal made while threads wait is given to exactly one, the one that has waited longest, which has released the lock, is still in cond_wait with its semaphore on its stack, and can now go on; no other semaphore changes |
| Monitor.HolderMaySignal | src/threads/synch.c:318-329 | the lock holder can always signal |
| Monitor.SignalsGoInOrder | src/threads/synch.c:306-307 | the waits begun on a condition are, in order and each once, those signalled and then those on its list |
| Monitor.NoSignalIsLost | src/threads/synch.c:295-310 | a thread that has released the lock can pass sema_down if and only if its wait was signalled, also when the signal came before its sema_down, and none passes without |
| Monitor.OneInside | src/threads/synch.c:274-293 | at most one thread is between acquiring and releasing the lock, waits included |
| Monitor.BroadcastRaisesAll | src/threads/synch.c:331-345 | whatever other threads do between the signals of a broadcast, its thread keeps the lock, so no wait begins meanwhile; the list is empty exactly when it has signalled as often as there were waits, and then every wait begun before has got a signal, in order |
| Monitor.OthersStayOut | src/threads/synch.c:295-309 | while a thread has the lock, no step of another one begins a wait, signals, or takes the lock |
| Monitor.SignalsReachInOrder | src/threads/synch.c:318-329 | after n signals by the lock holder, in any interleaving, exactly the first n waits of the list have been signalled, in order |
| Monitor.WaitReturnsHolding | src/threads/synch.c:295-309 | in every run cond_wait returns holding the lock, after exactly three further steps of its thread, and only if its wait was signalled since it was called |
| Monitor.StepMoves | src/threads/synch.c:295-345 | every step moves its thread along and no other; acquiring takes a free lock and releasing frees it; lists change by waits and signals on their condition only, and a signal to nobody changes nothing |
| Monitor.BegunInOrder | src/threads/synch.c:306 | the recorded waits on a condition are its cond_wait calls, in order |
| SchedulerTheorems.NeverOverflows | src/threads/thread.c:548-549 | with at most 545 threads at a time and nice in -20..20, no step of any run overflows, load_avg is at most r times 2^14 and recent_cpu within 120 (2r + 1) 2^14, values inherited by new threads included; thread_get_load_avg never overflows, and thread_get_recent_cpu exactly when recent_cpu is beyond 21474836 |
| Arithmetic.Nlz | src/lib/arithmetic.c:41-73 | shifting by the result brings the top bit of a nonzero word into place |
| Arithmetic.EstimateIsClose | src/lib/arithmetic.c:115-124 | dividing by the 32 leading bits of the divisor, scaled back, gives the true quotient or one more |
| Arithmetic.DivideByWord | src/lib/arithmetic.c:80-112 | the two-digit division by a 32-bit divisor is exact, and DIVL does not trap |
| Arithmetic.DivideByLong | src/lib/arithmetic.c:121-124 | the division by a longer divisor is exact, and DIVL does not trap |
| Arithmetic.UDiv64 | src/lib/arithmetic.c:77-127 | the result is the floor of n / d for every 64-bit n and nonzero d |
| Arithmetic.SDiv64 | src/lib/arithmetic.c:139-146 | the result is the quotient truncated toward zero exactly when INT64_MIN is not divided by 1 or -1; divided by 1 the last negation overflows |
| Arithmetic.UMod64 | src/lib/arithmetic.c:131-135 | the result is the remainder exactly when the remainder fits 32 bits |
| Arithmetic.SMod64 | src/lib/arithmetic.c:150-154 | the arithmetic overflows exactly for those two pairs; otherwise the result is the remainder that goes with the truncated quotient exactly when it fits 32 signed bits |
| List.Insert | src/lib/kernel/list.c:168-178 | the four pointer writes turn a well-formed list into the list with the element before the given one |
| List.Remove | src/lib/kernel/list.c:248-255 | the list is well formed without the element, and the next element is returned |
| List.Splice | src/lib/kernel/list.c:183-204 | a range of a list moves to any other place of the list, and all links agree again |
| List.SpliceFrom | src/lib/kernel/list.c:183-204 | a range of one list moves into another, and the links of both agree again |
| List.LinkedList.PushBack | src/lib/kernel/list.c:216-220 | the contents gain the value at the end |
| List.LinkedList.PopFront | src/lib/kernel/list.c:259-266 | the contents lose their first value, which is returned |
| List.LinkedList.InsertOrdered | src/lib/kernel/list.c:445-459 | the contents become those of ordered insertion after equals |
| ListSort.FindEndOfRun | src/lib/kernel/list.c:357-372 | the result ends a maximal run |
| ListSort.InplaceMerge | src/lib/kernel/list.c:379-399 | the relinked list is the step-by-step merge of the two parts, with all links in order |
| ListSort.MergeSorts | src/lib/kernel/list.c:374-378 | that merge of two sorted parts is sorted |
| ListSort.MergeIsStable | src/lib/kernel/list.c:391-398 | that merge keeps the order of elements that are alike |
| ListSort.Pass | src/lib/kernel/list.c:420-435 | one pass keeps elements and order of equals, counts half as many runs as there were, rounded up, and leaves no more than it counts |
| ListSort.SortList | src/lib/kernel/list.c:404-440 | for every strict weak order the list ends well linked, with the same elements, in the one stable sorted order; it terminates because passes leave fewer runs |
| Malloc.BlockInPage | src/threads/malloc.c:284-294 | every block of an arena lies inside its page past the header, and rounding its address down gives the arena |
| Malloc.DescsFillPage | src/threads/malloc.c:76-84 | block sizes start at 16 and double up to a quarter page, and an arena has as many blocks as fit behind its header, and no fewer |
| Malloc.PageCountIsEnough | src/threads/malloc.c:107-119 | the pages of a big block hold it and its header exactly when the 32-bit computation of their number does not wrap |
| Malloc.GrantedIsAll | src/threads/malloc.c:107-112 | of all sizes, no pages are asked for exactly from 0xffffeff5 to 0xfffffff4, and the block is too small exactly from 0xfffffff5 up |
| Malloc.TooSmall | src/threads/malloc.c:107-112 | one page is handed out for 0xfffffff5 bytes |
| Malloc.InitDescs | src/threads/malloc.c:71-85 | the descriptors get the sizes 16 to 1024 and the blocks that fit a page after the header |
| Malloc.Heap.FindDesc | src/threads/malloc.c:100-105 | the smallest sufficient descriptor is found, or none exists |
| Malloc.Heap.AddArena | src/threads/malloc.c:129-146 | a new page becomes an arena whose blocks are all on the free list, and everything else stays sound |
| Malloc.Heap.Malloc | src/threads/malloc.c:89-154 | for every 32-bit size, a block that was not outstanding is handed out and the heap stays sound; it has room for the size asked exactly when that is at most 0xfffffff4; the result is null exactly for size 0 or when pages are needed and there are none, and then nothing changes |
| Malloc.Heap.Free | src/threads/malloc.c:218-264 | the block is no longer outstanding, the heap stays sound, and pages go back to the page allocator exactly when none of their blocks is outstanding any more |
| Malloc.InUse | src/threads/malloc.c:241-253 | an arena's free count reaches its number of blocks exactly when no block of it is outstanding |
| Malloc.OutstandingHasRoom | src/threads/malloc.c:87-88 | an outstanding block lies past the header of pages of its own and has room for the size asked |
| Malloc.OutstandingAreDisjoint | src/threads/malloc.c:148-153 | two outstanding blocks never overlap |
| Palloc.PageAllocator.GetMultiple | src/threads/palloc.c:70-101 | the first free group of pages of the pool that the flags choose is handed out, apart from every group handed out before, zeroed if so asked, with no other byte changed; null exactly when there is none or none was asked for, and a panic exactly when there is none, some were asked for and PAL_ASSERT is set |
| Palloc.PageAllocator.FreeMultiple | src/threads/palloc.c:117-142 | a group that was handed out goes back to its own pool and is overwritten, nothing else changes, NOT_REACHED is not reached and the assertion that all its pages are in use holds |
| Palloc.PoolIsFound | src/threads/palloc.c:174-182 | page_from_pool holds of a group in the pool that handed it out and in no other |
| Palloc.BitmapFits | src/threads/palloc.c:159-168 | a pool has room for its bitmap exactly when it has a page, and the pages set aside for the bitmap are just enough |
| Palloc.InitPool | src/threads/palloc.c:153-170 | the pool gets all pages after its bitmap, unused; a panic exactly for a pool of no pages |
| Palloc.Init | src/threads/palloc.c:45-62 | the user pool gets half of the pages, or as many as its limit allows, and the kernel pool all others, each with its bitmap in front; the two pools and their bitmaps are disjoint and fill the free memory; a panic exactly for fewer than two pages or a limit of none |
| Palloc.FreshIsUnused | src/threads/palloc.c:80-86 | pages handed out overlap no arena of the heap, which is what malloc takes for granted |
| Palloc.Alloc | src/threads/malloc.c:107-136 | malloc with its pages from the page allocator keeps heap and pools sound; null exactly for size 0 or when pages are needed and there are not enough in a row; if pages are needed the kernel pool hands out exactly those asked for, which hold the block, and otherwise none |
| Palloc.Free | src/threads/malloc.c:243-263 | the group of pages that holds the block goes back to the kernel pool exactly when no other block of it is outstanding, and nothing else does; the page allocator's assertions hold |
| Bitmap.Bitmap.Mark | src/lib/kernel/bitmap.c:156-166 | exactly the given bit of the word-packed map becomes true |
| Bitmap.Bitmap.Reset | src/lib/kernel/bitmap.c:169-179 | exactly the given bit becomes false |
| Bitmap.MaskWeight | src/lib/kernel/bitmap.c:43-47 | setting or clearing a bit of a word adds or takes the weight of its mask, so words keep their width |
| Bitmap.Bitmap.SetMultiple | src/lib/kernel/bitmap.c:217-228 | exactly the given range takes the value |
| Bitmap.Bitmap.Contains | src/lib/kernel/bitmap.c:250-263 | true exactly when some bit of the range has the value |
| Bitmap.Bitmap.Scan | src/lib/kernel/bitmap.c:295-310 | the result is the first group of that many bits with the value at or after the start, or none exists |
| Bitmap.Bitmap.ScanAndFlip | src/lib/kernel/bitmap.c:319-326 | that group, and only that group, is flipped |
| Inode.ByteToSector | src/filesys/inode.c:46-54 | -1 exactly for a byte past the end; else the sector of the extent that holds the byte |
| Inode.SectorsSuffice | src/filesys/inode.c:25-29 | the sector count is the only one whose sectors hold the bytes while one fewer would not |
| Inode.ContentsIsJoined | src/filesys/inode.c:42-54 | the bytes of a file are its sectors one after the other, cut off at its length |
| Inode.CountIsUnique | src/filesys/inode.c:212-222 | the number of bytes that a transfer is to move is determined by request, file and memory |
| Inode.ZerosRead | src/filesys/inode.c:95-100 | a file whose sectors were all written with zeros reads as zeros |
| Inode.Device.ReadAt | src/filesys/inode.c:200-250 | for every offset, size and alignment the number read is the largest that both the request and the rest of the file have, or, without memory for a bounce buffer, the largest such multiple of 512, and none from an offset inside a sector; the buffer gets exactly those bytes of the file and nothing else changes |
| Inode.Device.WriteAt | src/filesys/inode.c:257-318 | the number written is 0 while writes are denied and otherwise as for reading, and the device changes in exactly those bytes |
| Inode.WriteIsSplice | src/filesys/inode.c:252-256 | such a write replaces exactly that slice of the file seen as an array of bytes |
| Inode.OtherFilesStay | src/filesys/inode.c:284-308 | such a write changes no byte of a file with a disjoint extent |
| FileSystem.FileSystem.TakeSectors | src/filesys/free-map.c:27-41 | succeeds exactly when that many sectors in a row are free and the map's file can be written; then the first such group is marked used, and otherwise nothing changes |
| FileSystem.FileSystem.ReleaseInode | src/filesys/inode.c:176-182 | all sectors of an inode are given back, and the assertion that they were allocated holds for each |
| FileSystem.FileSystem.InodeCreate | src/filesys/inode.c:72-106 | succeeds exactly when the length is not negative and plus a sector does not overflow, there is memory, the free map can be written, and as many sectors in a row are free as the length needs; then the first such sectors, and no others, are taken, apart from those of every inode in use, the file reads as zeros and no other sector or inode changes; on failure nothing changes; undefined exactly when the length is negative, which an assertion forbids, or, with memory for the inode, when the length plus a sector overflows |
| FileSystem.UndefinedLengths | src/filesys/inode.c:78 | lengths -1 and 0x7ffffe00 are undefined, 0x7ffffdff is not |
| FileSystem.FileSystem.InodeOpen | src/filesys/inode.c:111-151 | an inode in memory gains an opener, or is read in with one; the two fixed inodes included |
| FileSystem.FileSystem.InodeClose | src/filesys/inode.c:163-186 | an opener goes; the last one forgets the inode, and if it was removed gives its sectors back, and at no other time |
| FileSystem.FileSystem.Lookup | src/filesys/directory.c:91-112 | the first entry in use with that name, among those before a short read |
| FileSystem.FileSystem.DirAdd | src/filesys/directory.c:141-179 | succeeds exactly for a valid name not found before the first short read when the second scan ends inside the directory; inodes in use stay allocated and disjoint whatever was overlooked; names stay unique and every other entry stays exactly when no entry past the first short read has the name and the second scan did not stop at an entry in use |
| FileSystem.AddIsHarmless | src/filesys/directory.c:155-175 | a new entry leaves names unique and every other entry in place if and only if no entry past the first short read has the name, and the second scan stopped at a free entry or the end |
| FileSystem.NameTwice | src/filesys/directory.c:101-111 | a short read in the first scan lets in a second file of the same name |
| FileSystem.EntryLost | src/filesys/directory.c:166-175 | a short read in the second scan overwrites an entry in use |
| FileSystem.FileSystem.Create | src/filesys/filesys.c:45-59 | succeeds exactly when the root directory can be opened, a sector is free and can be taken, with that one taken InodeCreate succeeds, and DirAdd succeeds; then the file has its name and a zero-filled inode of the given length in the first free sector; otherwise no entry changes and the free map is as before, or, when the inode was made and only the name failed, has the data sectors of that inode taken in addition, which the code leaks; inodes in use stay allocated and disjoint in every case; names stay unique and no entry is lost under exactly the condition of DirAdd; undefined exactly when a sector was allocated and InodeCreate is |
| FileSystem.FileSystem.Open | src/filesys/filesys.c:66-77 | the handle is for the first entry of that name before a short read, exactly when the allocations succeed; the free map does not change, the file system stays sound, and unique names stay unique |
| FileSystem.FileSystem.Close | src/filesys/inode.c:160-186 | the sectors of a removed file are given back exactly when its last handle goes, all of them while still allocated; as long as no entry was overlooked, removed means nameless |
| FileSystem.FileSystem.Remove | src/filesys/directory.c:184-216 | exactly the first entry of that name before a short read goes; the sectors are given back at once exactly when the file is not open; where names are unique the name is gone |
| Hash.BucketsFor | src/lib/kernel/hash.c:364-372 | turning off low bits ends at a power of two of at least 4, with fewer than 4 elements a bucket, and 2 or more unless it is 4 |
| Hash.IndexIsBucket | src/lib/kernel/hash.c:305-310 | masking a hash with the bucket count less one is the remainder, so it names a bucket |
| Hash.Table.FindElem | src/lib/kernel/hash.c:314-326 | an element alike is found in its bucket, or the table has none |
| Hash.Table.Rehash | src/lib/kernel/hash.c:351-413 | the table holds the same set in the right buckets, with or without memory; with memory it ends with fewer than 4 elements a bucket, and 2 or more unless there are 4 buckets |
| Hash.Table.Insert | src/lib/kernel/hash.c:98-110 | the set gains the element exactly when it has none alike, which is returned otherwise |
| Hash.Table.Replace | src/lib/kernel/hash.c:114-127 | the element takes the place of one alike, which is returned |
| Hash.Table.Find | src/lib/kernel/hash.c:131-135 | an element alike is returned exactly when the set has one |
| Hash.Table.Delete | src/lib/kernel/hash.c:144-154 | the element alike leaves the set and is returned, or there is none |
| Loader.NothingWraps | src/userprog/process.c:363-382 | for a segment that validates, none of the 32-bit computations of its pages and byte counts wraps, and its file offset fits off_t |
| Loader.ValidateMeans | src/userprog/process.c:417-458 | a segment validates exactly when, without any wrap-around, it starts inside the file at the page offset of its address, is not empty nor shorter in memory than in the file, and lies in user memory above page 0 |
| Loader.ValidSegmentFits | src/userprog/process.c:417-458 | such a segment is made of whole user pages from page 1 up that cover its memory |
| Loader.LoadLazy | src/userprog/process.c:474-525 | each page of the segment gets the entry with its file offset and byte counts, which never underflow; undefined where the off_t overflows |
| Loader.LoadEager | 20171705/src/userprog/process.c:466-509 | the pages hold the segment's bytes and then zeros; it fails exactly when the file is too short |
| Loader.ImageIsFile | src/userprog/process.c:460-472 | every address of a segment that validates gets the byte at its place in the file, or zero past the segment's bytes in the file; the file is long enough exactly when it holds those bytes |
| Loader.LazyIsEager | src/vm/page.c:205-215 | for a segment that validates and a long enough file, the lazy loader covers the same pages with the same access as the eager one, and the first fault on each brings in the same bytes, if and only if p_offset + p_memsz is at most 2^31 - 4096 |
| Loader.OffsetOverflows | src/userprog/process.c:519-522 | two pages of zeros at offset 0x7ffff000 validate and are installed by the eager loader, while the lazy one overflows its offset |
| Loader.FaultIsFilePage | src/vm/page.c:205-215 | while nobody writes to the file, the chunks that the paging machine reads add up to the first fault of the loader: all bytes of the same entries, those of no bytes past the end included, and the same page |
| Loader.BothFail | src/vm/page.c:208-210 | when the file is too short, so that the eager loader fails, the first fault on the last page with file bytes fails too, and that page has an entry |
| ExitHandshake.StepKeepsInv | src/userprog/process.c:113-169 | every step of parents and children keeps both semaphores, the child lists and the count of reads in agreement with how far both sides are |
| ExitHandshake.ChildIsThere | src/userprog/process.c:121-127 | whenever process_wait touches a child its thread page has not been freed, and when it reads the exit number the child has entered process_exit |
| ExitHandshake.FreedAfterOneRead | src/threads/thread.c:596-624 | a thread page is freed only after exactly one process_wait has read its exit number |
| ExitHandshake.SecondWaitFails | src/userprog/process.c:128-129 | after that, process_wait for the same child returns -1 at once and changes nothing |
| ExitHandshake.ParentIsNotStuck | src/userprog/process.c:123-124 | a parent waiting for a child that has come to its handshake can go on |
| ExitHandshake.ChildIsNotStuck | src/userprog/process.c:152-153 | a child whose number has been read can go on |
| ExitHandshake.ReturnsFinalNumber | src/userprog/process.c:125-127 | the number returned is the one the child left, and its exit number has that value in every later state of the run |
| ExitHandshakeRuns.WaitFailsExactly | src/userprog/process.c:120-129 | in every run process_wait returns -1 at once, changing nothing, exactly when the caller did not start that process or a process_wait has read its number already; otherwise the caller goes to wait for it |
| ExitHandshakeRuns.WaitReturns | src/userprog/process.c:121-127 | a process waiting for a child runs again only by the step that returns the number the child stored last in the whole run, or 0; by then the child is in process_exit, and its number, not read before, has been read once |
| ExitHandshakeRuns.NumberIsLast | src/userprog/process.c:125 | a process's exit number is always the one it stored last, and 0 before |
| ExitHandshakeRuns.ParentIsStarter | src/userprog/process.c:120-121 | a process is a child of exactly the process that started it |
| ExitHandshakeRuns.StepMoves | src/userprog/process.c:113-169 | every step moves its process along process_wait or process_exit and no other process; a new process, with a number not used before, runs |
| ExitHandshakeRuns.SemaphoresCount | src/userprog/process.c:152-153 | the value of each of the two semaphores of a process is the number of its ups less the number of its downs |
| Octal.Format | src/lib/stdio.c:469-547 | an octal conversion padded with zeros puts out exactly the fixed-width digits |
| Octal.ParseField | src/lib/ustar.c:129-162 | for every field, the result is v exactly when the field starts with at least one octal digit, the digits stand for v, v fits 32 bits, and a space or null follows |
| Octal.ParseUndoesPrint | src/lib/ustar.c:120-128 | parsing a printed and terminated field gives back every number that fits |
| Ustar.StripPrefixes | src/lib/ustar.c:65-73 | the result is a suffix of the name or ".", has no dangerous prefix, is not empty or "..", and is the name itself if that is so already |
| Ustar.StripTwice | src/lib/ustar.c:56-64 | stripping is idempotent and leaves no dangerous prefix |
| Ustar.StripDropsLead | src/lib/ustar.c:68-72 | stripping drops exactly the components before the first one that is not empty, "." or "..", and gives "." if there is none |
| Ustar.StripEscapes | src/lib/ustar.c:56-64 | a stripped name leads above the directory if and only if the given name, after its first ordinary component, at some point leads above where it was before that component |
| Ustar.StrippedMayEscape | src/lib/ustar.c:66-73 | "a/../../b", like every name with an ordinary component and then two "..", is left as it is and leads out |
| Ustar.CalculateChksum | src/lib/ustar.c:36-54 | the result is the sum of the bytes before and after the checksum field plus eight spaces |
| Ustar.SumIsTotal | src/lib/ustar.c:46-51 | so is the sum that the parser compares with |
| Ustar.SumIgnoresField | src/lib/ustar.c:46-51 | the sum does not depend on the checksum field |
| Ustar.OneByteIsCaught | src/lib/ustar.c:204-207 | no header that differs from an accepted one in a single byte outside the checksum field is accepted |
| Ustar.MakeHeader | src/lib/ustar.c:82-118 | succeeds exactly when the stripped name has at most 99 characters, and then all 512 bytes are what they should be: name, mode, owner, size, time, checksum, type, magic, version, owner names, and null bytes elsewhere |
| Ustar.ParseHeader | src/lib/ustar.c:181-227 | whatever the 512 bytes, the result is an entry exactly when magic, version, checksum, name length, type and size are all acceptable, and it then has a name of at most 99 characters without a prefix "/", "./" or "../", not empty and not "..", a known type and a size that fits int; end of archive means exactly all zeros |
| Ustar.ParsesExactly | src/lib/ustar.c:199-227 | an entry is read exactly from headers with the right magic, version and checksum, a terminated name without prefix, a known type and, for a file, a size that fits int; its name is the stripped name field, its type that of the header, its size the one the field denotes, or 0 for a directory |
| Ustar.ParsedIsBounded | src/lib/ustar.c:181-227 | so does every entry parsed from any 512 bytes; its name is a suffix of the name field or ".", and leads out of the directory exactly when the name field wanders; the checksum field denotes the sum |
| Ustar.MadeHeaderParses | src/lib/ustar.c:199-227 | a made header parses to the stripped name and type, with the size of a regular file, size 0 for a directory, and an error for a negative size |
| Ustar.RoundTrip | src/lib/ustar.c:75-81 | a header gives back name, type and size exactly for sizes of at least 0 of a regular file and size 0 of a directory |
| Ustar.ParseMakeParse | src/lib/ustar.c:175-180 | an entry parsed from any header, made into a header and parsed again is the same |
| HeapSort.Heapify | src/lib/stdlib.c:96-123 | a heap with one element out of place becomes a heap, with the same elements and everything past it untouched |
| HeapSort.BuildHeap | src/lib/stdlib.c:142-144 | the array becomes a heap with the same elements |
| HeapSort.Sort | src/lib/stdlib.c:131-152 | the array ends as a sorted permutation of itself for every total order |
| HeapSort.BinarySearch | src/lib/stdlib.c:184-207 | a match is found in a sorted array exactly when there is one |
| PushArgument.PushStrings | src/userprog/process.c:595-602 | the strings end up terminated, one below the other from the top of the page, with their addresses recorded and all below zero |
| PushArgument.NextString | src/userprog/process.c:595-602 | each string ends where the next one begins, and the last at the top of the page |
| PushArgument.PushPointers | src/userprog/process.c:607-611 | the pointers to the strings end up in order below them, with the null slot above still zero |
| PushArgument.PushArguments | src/userprog/process.c:588-621 | argc and argv end up below the pointers, which nothing overwrites, and the stack pointer below those |
| PushArgument.StackIsAligned | src/userprog/process.c:604-605 | the final stack pointer is a multiple of 4 for every argument vector |
| PushArgument.ArgumentsComeBack | src/userprog/process.c:612-619 | reading argc, argv, the pointers and the strings from the final stack gives back exactly the arguments, with argv[argc] null |

## Left out

- Update in place of `page.c`, `frame.c`, `swap.c`, `pagedir.c`, `thread.c` and `synch.c`: they are modelled as steps on values, because what is proved is about interleavings; aliasing of their structures is not captured.
- Victim selection by the clock hand: any unpinned frame may be evicted.
- Process exit in the paging runs: `process_exit` does not release frames, entries or slots.
- Writability of pages across eviction: the code does not preserve it; a page from swap comes back writable, as PagingService.FaultIsServed says.
- Re-sorting of semaphore waiters when priorities change, which the code does not do.
- In Monitor, lock_acquire and sema_down are single steps; SchedulerTheorems says what they keep. Every condition belongs to the one lock, as cond_wait asks.
- Lack of memory for entries of the supplemental page table: `src/vm/page.c:61`, `src/vm/page.c:81` and `src/vm/page.c:109` use what malloc returns without looking, and the paging runs take it to be there.
- Palloc.PageAllocator.FreeMultiple: only groups as they were handed out; parts of one are not given back anywhere in the kernel.
- Time slices: a running thread may be preempted at any time, which includes every slice.
- Malloc.Heap.Malloc: the per-descriptor locks are not modelled, and each call is one step.
- Offsets of file pages in the paging runs are not negative; Loader.LazyIsEager says exactly for which segments the loader's offsets are.
- A thread inherits nice and recent_cpu in one step when it is created; in the code a timer tick may come between the two copies (`src/threads/thread.c:548-549`).
- The contents of the free map's own file, and opening and closing the root directory around each call.
- ExitHandshake.ReturnsFinalNumber: which number a killed process leaves is not modelled, since `kill` does not store one.
- Loader.LoadEager: every page and bounce buffer gets memory; running out of it is not modelled in the loaders, only in Inode and, for bounce buffers, frames and page tables, in the paging runs.
- HeapSort.Sort: elements are values, so the byte-wise exchange of `do_swap` is one assignment.
- `calloc`, `realloc`, `list_reverse`, `list_unique`, `list_max`, `list_min`, hash iteration, the other conversions of `printf`: they would only add easy members.
- Devices, interrupts, system call dispatch, user programs and the older copy of the kernel apart from its `load_segment`.
