# A small x86 kernel: memory, threads, disk and files

The project models the parts of the kernel that keep shared structures in agreement, and proves what they
keep. `dafny verify dfyconfig.toml` checks all of it.

| part of the kernel | modules |
|---|---|
| scheduler and time slices (`kernel/thread.c`, `kernel/device/timer.c`) | `Scheduler` |
| the reentrant lock (`kernel/sync.c`) | `Locks`, `LockRuns` |
| the disk completion handshake, together with the locks (`kernel/device/ide.c`) | `DiskChannel` |
| bit maps and the first-fit scan (`kernel/bitmap.c`) | `Bitmaps` |
| linked lists (`lib/list.c`) | `IntrusiveList` |
| paging through the self-referring slot, loader tables (`kernel/memory.c`, `mbr/loader.s`) | `Paging`, `KernelHalf` |
| page pools (`kernel/memory.c`) | `PagePools`, `PageTables`, `PageCalls`, `PageManager` |
| the arena allocator over them (`kernel/memory.c`) | `Arena`, `KernelHeap` |
| layout and formatting of a partition (`fs/fs.c`) | `FsLayout`, `FsFormat` |
| inode table and open inodes (`fs/inode.c`) | `InodeTable`, `InodeCache` |
| file storage (`fs/file.c`, `fs/inode.c`) | `FileBlocks`, `FileContent`, `BlockMap`, `FileStates`, `FileStore`, `FileAsWritten` |
| path resolution (`fs/fs.c`, `fs/dir.c`) | `PathSearch` |
| bytes, words, lists and the disk | `Words`, `Common`, `DiskModel` |

How the parts fit: `Scheduler` is a state machine of task statuses and the ready queue, with a class whose
methods update the same fields in place and are tied to the state functions. `Locks` runs on top of it, one
program counter per task and one step per memory access, so that the timer, and the interrupt of the disk, can
come between any two of them; `DiskChannel` adds what ties the disk's semaphore, flag and commands to the
locks, and has the theorems about every run of the whole; `LockRuns` counts the calls that have come back in such
a run, and says from these counts alone who is inside a lock, and who is woken before whom. What lies on the disk is
stated in bytes as well: records, directory entries, super block, block map. `Paging` works on physical memory word by
word.
`PagePools` has the bit maps and the pages mapped as values, `PageTables` says when they agree with the page
tables in memory. `PageCalls` gives what the calls do as functions - which bits are set, which words written - and
proves that agreement is kept and when a call succeeds; `PageManager` is the class that does the same in place.
`Arena` has arenas and free lists as values; in `KernelHeap` the allocator takes its pages from the page manager and
gives them back. Its steps are those functions, with no condition on their results, and one invariant, proved of
every run, covers bit maps, page tables, arenas and free lists. `FileStore` is a class over the disk, the block
map and the inodes in memory; its methods are proved against predicates on whole states (`FileStates`), which
rest on lemmas about a single file (`FileBlocks`, `FileContent`); `FsFormat` has the state it starts from.

## Where the code and its intent differ

The models follow the evident intent in the places below. For each of them the code as it is written is
modelled too: a lemma says exactly when the two agree (first column of lemmas), and one gives a case in which
they do not (second).

| place | as written | exactly right when | a case where it is not |
|---|---|---|---|
| `kernel/bitmap.c:70` | the scan may run into the byte behind the map | `Bitmaps.ScanAsWrittenAgreesIff` | `Bitmaps.ScanAsWrittenOverruns` |
| `kernel/thread.c:226` | Thread_UnBlock turns interrupts on inside Lock_V | `Locks.WindowOpensIff` | `Locks.LostWakeUp`, `Locks.LostWakeUpExists` |
| `kernel/memory.c:131` | the reservation marks the kernel's map | `PagePools.ReservationIsRightIff` | `PagePools.SamePagesTwice` |
| `kernel/memory.c:407` | the pool of a frame is told by comparing with a size | `PagePools.PoolChoiceIsRightIff` | `PagePools.LastKernelFrameIsMistaken` |
| `kernel/memory.c:205` | the frame of a new page table is not checked | `Paging.AddAsWrittenIsRightIff`, `PageManager.AddAsWrittenIsRightIff` | `Paging.FrameZeroExample` |
| `fs/fs.c:124` | format clears one bit too many (kept as written) | `FsLayout.OfferedBlocksInsideIff`, `FsFormat.FormattedIsHealthyIff` | `FsLayout.StrayBlockExample`, `FsFormat.UnhealthyStart` |
| `fs/fs.c:107` | the buffer for the map is taken to come cleared; sys_malloc does not clear (kept as written) | `FsLayout.MapIsRightIff`, `FsLayout.MapIsRightWith` | `FsLayout.StaleByteExample` |
| `fs/fs.c:216` | the block map gets the length of the inode map: only the first 4096 blocks are looked at, the rest of the disk is lost to allocation | `FsFormat.MountedScanIff` | `FsFormat.FullTooSoon` |
| `fs/fs.c:314` | directories are opened with the root directory for a partition | `PathSearch.DirOpenIsRightIff` | any path through a directory |
| `fs/file.c:388`, `fs/file.c:423` | 13 sectors where 140 are meant; the full size passes the guard and fails the assertion | `FileAsWritten.LimitIsRightIff`, `FileAsWritten.GuardDisagreesIff` | `FileAsWritten.LimitExample` |
| `fs/file.c:388` | the guard is on a sum of 32 bits, and the count comes unchecked from the system call | `FileAsWritten.WrappedGuardIsRightIff` | `FileAsWritten.WrappedGuardExample` |
| `fs/file.c:412`, `fs/file.c:517` | the list of addresses is not cleared, and a new table gets what is left in it | `FileAsWritten.NewTableIsRightIff`, `FileAsWritten.NewTableIsRightWith` | `FileAsWritten.StaleWordExample` |
| `fs/file.c:406` | a buffer of one sector for Inode_Write | `FileAsWritten.OneSectorBufferIff` | `FileAsWritten.InodeSixOverruns` |
| `fs/file.c:489`, `fs/file.c:517` | a new indirect table goes to sector 0 | `FileAsWritten.TableIsRightIff` | `FileAsWritten.TableLost` |
| `fs/file.c:479-489` | the table's bit is not written through | `BlockMap.TableBitReachesDiskIff` | `BlockMap.TableBitLost` |
| `fs/file.c:579` | bytes left become 0 after the first sector | `FileAsWritten.LoopEndsIff` | `FileAsWritten.LoopExample` |
| `fs/file.c:370` | a read copies from the wrong offset | `FileAsWritten.ReadOffsetRightIff` | `FileAsWritten.ReadOffsetExample` |
| `fs/file.c:294` | 32-bit overflow of position and count (kept as written) | `FileStore.ReadNeedIsRightIff` | `FileStore.ReadNeedExample` |
| `fs/inode.c:56` | the inode number is cut to 8 bits | `InodeTable.TruncatedWriteIsLocalIff` | `InodeTable.RootOverwritten` |
| `fs/inode.c:131` | a release stops at the direct blocks | `FileAsWritten.ReleaseIsCompleteIff` | `FileAsWritten.ReleaseExample` |
| `fs/inode.c:166` | `=` for `==` | `InodeCache.OpenAsWrittenIsRightIff` | `InodeCache.TwoFilesOneInode` |
| `fs/dir.c:74` | the list of addresses is not cleared, and without a table the search goes through what is left in it | `PathSearch.SearchIsRightIff` | `PathSearch.StaleEntryExample` |
| `lib/string.c:80-92` | strcat overwrites | `PathSearch.DepthTestAsWrittenIff` | `PathSearch.DepthTestExample` |

Two places are wrong in the design rather than in the text, and are kept:

- A write that fails half-way leaves the blocks it has taken in the slots of the inode. The next write that
  grows the file then meets an assertion (`fs/file.c:465`, 488, 505) and halts the kernel:
  `FileStates.WriteSafeIff`, `FileStates.RetryHaltsIff`, with a run in `FileStates.FailThenHalt`.
- If the block taken was for the indirect table, its sector has never been written, and a release frees
  whatever addresses it happens to hold, or stops the kernel: `FileContent.ReleaseIsExactIff`,
  `FileContent.StrayBlockExample`, `FileStore.FileSystem.Release`.

More that the proofs brought up. Page directory slots 0 and 768 share a table after boot, so a page mapped into
the first 4 MByte of the kernel heap is visible at the bottom of the address space (`Paging.BootTableIsShared`).
The loader does not clear the page tables it lays out, so the empty heap is unmapped only if their memory was
blank (`PageTables.BootAgreesIff`). A wait for the disk can return on a stray interrupt, and then every later one
may be ended by the answer to an earlier command (`DiskChannel.StrayInterrupt`). The frame count is kept in 16
bits, so memory from 258 MByte on is not counted right (`PagePools.PoolsInsideMemory`). In `fs/fs.c:159-165` a
comment that is not closed swallows the entry "." of the root directory.

## Model

| member | source | states |
|---|---|---|
| Scheduler.RunIsSafe | kernel/thread.c:122-238 | From a state in which they agree, as after boot (`Scheduler.BootSatisfiesInv`), in every state of every run no event that can follow fails an assertion on the ready queue; exactly one task is RUNNING and on no queue, a task is READY exactly if it is on the ready queue, once; ticks never exceed the priority |
| Scheduler.StepIsSafe | kernel/thread.c:161-238 | One event (tick, yield, block with another task ready, unblock, creation) keeps all that and fails no assertion |
| Scheduler.BlockKeepsInvIff | kernel/thread.c:161-220 | Blocking keeps the queue and status agreement exactly if another task is ready |
| Scheduler.TickLowersPotential | kernel/device/timer.c:41-57 | A timer interrupt lowers a waiting task's distance to the processor by exactly one |
| Scheduler.StepMovesPotential | kernel/thread.c:122-238 | No event but a wake-up raises the distance; a wake-up by at most 256 |
| Scheduler.WakeRaisesPotential | kernel/thread.c:223-238 | A wake-up raises the distance of the others by its own slice, at most 256 |
| Scheduler.BoundedWaiting | kernel/device/timer.c:41-57 | Along every run a ready task is dispatched before more ticks pass than its distance plus 256 for each wake-up |
| Scheduler.SliceEnds | kernel/thread.c:161-192 | A tick at the end of a slice: the task has a full slice again, is READY and last on the queue and the first of the queue runs, or it runs on if nobody is ready; nobody else's priority, slice or time changes |
| Scheduler.SliceRunsDown | kernel/device/timer.c:41-57 | Any other tick takes one from the running task's slice, adds one to its time, and leaves all else |
| Scheduler.YieldKeepsSlice | kernel/thread.c:195-206 | A task that yields keeps the rest of its slice, at the end of the queue |
| Scheduler.BlockKeepsSlice | kernel/thread.c:209-220 | A task that goes to sleep keeps it, on no queue |
| Scheduler.WakeKeepsSlice | kernel/thread.c:223-238 | A task that is woken keeps it, at the front of the queue |
| Scheduler.SpawnIsFresh | kernel/thread.c:60-137 | A new task has ticks and priority alike, the priority cut to 8 bits, has not run, and is last on both lists |
| Scheduler.SliceLasts | kernel/device/timer.c:41-57 | Along every run a task that starts with a full slice and neither yields nor sleeps stays current for as many ticks as its priority says |
| Scheduler.SliceIsOver | kernel/thread.c:161-192 | And leaves on the one after, to the end of the queue with a full slice, if another is ready then |
| Scheduler.TicksAreCharged | kernel/device/timer.c:41-57 | Along every run a task's elapsed time grows by the ticks that came while it was current, modulo 2^32 |
| Scheduler.Kernel.Schedule | kernel/thread.c:161-192 | In place, Thread_Schedule is the state function, and reports a failed List_Find assertion; what that function does to slices and queue is `Scheduler.SliceEnds` |
| Scheduler.Kernel.Yield | kernel/thread.c:195-206 | In place, Thread_Yield is the state function |
| Scheduler.Kernel.Block | kernel/thread.c:209-220 | In place, Thread_Block is the state function |
| Scheduler.Kernel.UnBlock | kernel/thread.c:223-238 | In place, Thread_UnBlock is the state function: the woken task goes to the front |
| Scheduler.Kernel.TimerInterrupt | kernel/device/timer.c:41-57 | In place, the countdown is the state function; at zero it schedules |
| Scheduler.Kernel.CreateThread | kernel/thread.c:122-137 | In place, creation is the state function |
| DiskChannel.EveryRun | kernel/sync.c:15-92 | In every state of every run from boot, under any preemption and any disk interrupts: values are 0 or 1, a free lock or raised semaphore with sleepers has a woken task due to look again, a task is BLOCKED exactly if it is on one waiters queue, once, and no step that can follow fails an assertion; by the recorded depth one owner per lock at most, whose holderRepeatNum at rest is that depth (`LockRuns.OneInside` says the same of the calls made) |
| DiskChannel.EveryChannel | kernel/device/ide.c:117-124 | In every such state expectingIntr + diskDone.value is the number of outstanding commands, at most 1, and the one task with a command under way is inside the channel's lock |
| DiskChannel.RunIsSafe | kernel/device/ide.c:177-281 | The invariant of locks, queues and channels holds in every state of such a run, and no step that can follow fails an assertion of lock, scheduler or interrupt handler |
| DiskChannel.StepIsSafe | kernel/device/ide.c:412-427 | Each single memory access, call, timer tick or disk interrupt, wanted or stray, keeps it |
| DiskChannel.SleeperIsUser | kernel/device/ide.c:208-273 | The only task that can sleep on a channel's semaphore is the one with the command under way |
| DiskChannel.WaitReturns | kernel/device/ide.c:412-427 | A wait returns only after an interrupt has been taken for its own command since that was announced |
| DiskChannel.OwnInterruptsIff | kernel/device/ide.c:412-427 | After every run, all waits were ended by their own commands' interrupts exactly if no stray one came while one was expected |
| DiskChannel.NobodyWaitsInVain | kernel/device/ide.c:117-124 | Without such strays the drive still owes the interrupt a sleeper waits for, and wherever that can come it wakes the sleeper |
| DiskChannel.StrayInterrupt | kernel/device/ide.c:412-427 | Six steps in which one stray interrupt lets a later wait end before its command is sent |
| DiskChannel.AloneIsFine | kernel/device/ide.c:177-281 | A state within the invariant in which they can be taken |
| Locks.HolderTestIsExact | kernel/sync.c:59-74 | The unprotected test of holder says whether the running task owns the lock |
| LockRuns.OneInside | kernel/sync.c:59-90 | In every state of every run: a task at rest has had Lock_Lock come back to it more often than Lock_UnLock exactly if it is owner and holder of the lock with holderRepeatNum the difference; one task at most has a positive difference, and none a negative one |
| LockRuns.LockIsTaken | kernel/sync.c:59-74 | Whenever a call of Lock_Lock comes back, its caller is owner and holder, value is 0, and holderRepeatNum is its count, one more than before |
| LockRuns.LockIsGivenUp | kernel/sync.c:77-92 | Whenever a call of Lock_UnLock comes back the count is one less; if that is 0, value is 1 and nobody is owner or holder, else the lock is held as before |
| LockRuns.CountsUpTo | kernel/sync.c:59-92 | In every state of every run the calls come back make up the depth recorded, for each task and lock, and the call a task is in is the one it has made |
| LockRuns.FirstComeFirstServed | kernel/sync.c:16-56 | In every state of every run those who have gone to sleep on a lock or semaphore, in order, are those woken from it, in order, followed by its queue |
| LockRuns.TakenAfterBoot | kernel/sync.c:59-74 | A run from boot: Lock_Lock on a free lock ends with the lock owned at depth 1 |
| LockRuns.TakesFreeLock | kernel/sync.c:59-74 | Undisturbed, Lock_Lock on a free lock takes it, six steps, and changes nothing else |
| LockRuns.TakesOwnLock | kernel/sync.c:59-74 | On a lock that is one's own it adds one to holderRepeatNum and changes nothing else |
| LockRuns.WaitsForLock | kernel/sync.c:16-34 | On a lock that is taken it puts the caller to sleep behind those that wait already |
| LockRuns.LeavesInnerLock | kernel/sync.c:77-86 | Undisturbed, Lock_UnLock of a lock held more than once takes one from holderRepeatNum and changes nothing else |
| LockRuns.LeavesLock | kernel/sync.c:77-92 | Of a lock held once it gives the lock up and wakes the first that waits, and changes nothing else |
| Locks.SleepingAloneHalts | kernel/sync.c:19-25 | With no other task ready, sleeping in Lock_P runs into its List_Find assertion |
| Locks.WindowOpensIff | kernel/thread.c:223-238 | As written, interrupts come on inside Lock_V exactly if there is a waiter |
| Locks.LostWakeUp | kernel/sync.c:37-56 | As written, from every state of a family five steps lead to a free lock with a sleeper and nobody woken |
| Locks.LostWakeUpExists | kernel/sync.c:37-56 | Such a state satisfies the invariant |
| Bitmaps.ScanUpTo | kernel/bitmap.c:67-84 | The scan returns the lowest start of n free bits, -1 exactly if there is none, looks at each bit once at most, and at none behind the limit unless no bits are asked for |
| Bitmaps.Scan | kernel/bitmap.c:67-84 | First fit within the bits the map has |
| Bitmaps.ScanAsWrittenAgreesIff | kernel/bitmap.c:70 | The bound of the text gives the same answer exactly if the map has room or no run ends within seven bits behind it |
| Bitmaps.ScanAsWrittenOverruns | kernel/bitmap.c:70 | A full map for which the text returns a bit behind its end |
| Bitmaps.Set | kernel/bitmap.c:34-50 | Setting or clearing changes that bit and no other |
| Bitmaps.Get | kernel/bitmap.c:23-31 | The bit is returned as 0 or 1 |
| Bitmaps.BitsWith | kernel/bitmap.c:34-50 | Changing a bit of a packed byte changes one bit of the map |
| Bitmaps.MaskIsShift | kernel/bitmap.c:43-46 | The mask of a bit is 1 shifted by its place |
| Bitmaps.UsedIsDigit | kernel/bitmap.c:54-65 | A bit of the map is bit i % 8 of byte i / 8, counted from the low end |
| IntrusiveList.List.constructor | lib/list.c:13-21 | An initialised list is well-linked and empty |
| IntrusiveList.List.Push | lib/list.c:24-43 | prev and next stay inverses, and the list is the node in front of the old one |
| IntrusiveList.List.Append | lib/list.c:46-65 | The same at the end |
| IntrusiveList.Remove | lib/list.c:68-80 | Given the node only, exactly that node leaves its list |
| IntrusiveList.List.IsEmpty | lib/list.c:83-92 | True exactly for the empty sequence |
| IntrusiveList.List.Pop | lib/list.c:95-110 | The first node is returned and the rest remains |
| IntrusiveList.List.Find | lib/list.c:113-127 | Ends, and says whether the node is on the list |
| IntrusiveList.List.Traversal | lib/list.c:130-139 | Ends, and visits the nodes in order |
| IntrusiveList.MoveToFront | kernel/sync.c:41-47 | Popping from one list and pushing to another keeps both and any third well-linked and disjoint |
| IntrusiveList.PushListed | lib/list.c:24-43 | Pushing a node that is listed closes a circle without the tail, which the callers' List_Find assertions rule out |
| Paging.PointersReachEntries | kernel/memory.c:154-171 | A hardware walk of the two pointers arrives at the address's own directory and page table entries |
| Paging.EntryBits | kernel/memory.h:18-22 | An entry has the frame in its upper 20 bits and the bits present, writable and user set, no others |
| Paging.TranslateExample | kernel/memory.c:154-171 | Address 0x402003 goes through slot 1 of the directory and slot 2 of the table; its two pointers as numbers |
| Paging.Mmu.AddPageTable | kernel/memory.c:188-218 | Through the pointers exactly the entry, and if needed a cleared table, is written |
| Paging.Mmu.ClearTable | kernel/memory.c:210 | The memset through the window clears the new table and nothing else |
| Paging.Mmu.PageTableRemove | kernel/memory.c:365-373 | Exactly the present bit of the address's entry is cleared |
| Paging.Mmu.V2P | kernel/memory.c:331-336 | Gives the hardware's translation wherever there is one |
| Paging.EntryTranslations | kernel/memory.c:197-201 | With a table in place the translations that change are exactly those of addresses sharing the entry |
| Paging.TableTranslations | kernel/memory.c:202-215 | With a fresh table only the page and the window page of the table change |
| Paging.OnlyThisPageIff | kernel/memory.c:188-218 | No other page is affected exactly if no second directory slot leads to the same table |
| Paging.MappedPage | kernel/memory.c:188-218 | Afterwards every address of the page translates into the frame |
| Paging.RemoveUndoesAdd | kernel/memory.c:365-373 | Removing a mapping restores every translation, but for the window page of a table the mapping had to make |
| Paging.SetupPage | mbr/loader.s:236-286 | What the loader leaves: slots 0 and 768 with one table that maps the first MByte onto itself, slots 769 to 1022 with a table each, the last slot with the directory |
| Paging.BootTableIsShared | mbr/loader.s:245-257 | On these tables a page of the first 4 MByte of the kernel half shows up at the bottom too |
| Paging.AddAsWrittenIsRightIff | kernel/memory.c:202-215 | Mem_AddPageTable as written spares frame 0, whatever it holds, exactly if the slot has a table or there is a frame for one |
| Paging.FrameZeroExample | kernel/memory.c:202-215 | With no free frame the first mapping makes frame 0, with the loader's notes, a page table |
| KernelHalf.PageDir | kernel/process.c:53-72 | The new directory has an empty user half, the current kernel half, and itself in its last slot |
| KernelHalf.NewDirectory | kernel/process.c:53-72 | A new directory translates no address of the user half, those of slots 768 to 1022 as the current one, and its last page to itself |
| KernelHalf.StepKeepsInv | kernel/memory.c:188-218 | Creation, mapping and removal keep slots 768 to 1022 present and the same in all directories |
| KernelHalf.KernelHalfAgrees | kernel/process.c:53-72 | After every run from the loader's directory all directories translate every kernel-half address alike |
| KernelHalf.StartSatisfiesInv | mbr/loader.s:236-286 | The loader's directory has the kernel half in order |
| KernelHalf.KernelTablesStay | kernel/memory.c:188-218 | After every run every directory leads to the tables the loader laid out, so that mapping in the kernel half never makes a table |
| PageManager.Manager.Palloc | kernel/memory.c:174-185 | The lowest free frame, or -1 exactly if the pool is full |
| PageManager.Manager.Reserve | kernel/memory.c:120-135 | The first run of n free pages, marked; nothing if there is none |
| PageCalls.MapPageKeeps | kernel/memory.c:188-249 | Setting the lowest free bits and writing the entry, and a cleared table where it is missing, keeps conservation and the agreement of maps and page tables |
| PageCalls.MapPageTakesLowest | kernel/memory.c:174-215 | The page gets the lowest free frame of its pool; then, only where there is none, a table is made in the lowest free frame of the kernel's |
| PageCalls.MallocPagesKeeps | kernel/memory.c:221-252 | So does the whole of Mem_MallocPages wherever it ends: all n pages mapped, or nothing, or the part that stays after frames ran out |
| PageCalls.MallocPagesIff | kernel/memory.c:221-252 | It succeeds exactly if there are n pages in a row and frames last for pages and page tables, and stops the kernel exactly if some page gets a frame and the page table it needs none |
| PageCalls.NeverHalts | kernel/memory.c:202-205 | Where all page tables have been there since boot it never stops the kernel, and succeeds exactly if there are n pages in a row and n frames |
| PageCalls.FreePagesKeeps | kernel/memory.c:365-437 | Clearing the bits of the frames that the page tables name, those of the pages, and the entries gives back exactly these pages, and keeps conservation and agreement |
| PageManager.Manager.MallocPages | kernel/memory.c:221-252 | In place, the state after it is that of the function, and so it ends as that does; only tables of managed slots have changed |
| PageManager.Manager.Free | kernel/memory.c:425-437 | In place, the state after it is that of the function: frames (found through the page tables), mappings and reservations of exactly these pages are gone; conservation and agreement with the page tables are kept |
| PageManager.Manager.MapPage | kernel/memory.c:239-249 | In place, with loads and stores through the two pointers, one page is mapped as the function says, or not for want of a frame for it or for its page table |
| PageManager.AddAsWrittenIsRightIff | kernel/memory.c:202-215 | As written, mapping a page spares frame 0 exactly if it has a page table or the kernel pool is not full |
| PageTables.EntryAgrees | kernel/memory.c:197-201 | Writing a page's entry changes the translation of that page of the map and of no other |
| PageTables.TableAgrees | kernel/memory.c:202-211 | Giving a slot a cleared table from the pools changes no translation of the map |
| PageTables.ElsewhereKept | kernel/memory.c:188-218 | Addresses outside the managed slots translate as before unless their slot leads to a managed table |
| PageTables.EmptyPoolsInv | kernel/memory.c:54-118 | The pools as laid out satisfy conservation |
| PageTables.BootAgreesIff | kernel/memory.c:54-118 | They agree with the loader's page tables exactly if the words for the heap, which the loader does not write, are blank |
| PagePools.MapKeepsInv | kernel/memory.c:221-252 | Mapping a frame just taken keeps: no frame mapped twice, pool bits exactly the frames held, mapped pages reserved |
| PagePools.TableKeepsInv | kernel/memory.c:202-215 | Making a page table from the kernel pool keeps the same |
| PagePools.FreedKeepsInv | kernel/memory.c:425-437 | Giving pages back keeps the same |
| PagePools.FreeUndoesMalloc | kernel/memory.c:221-252 | Mem_Free undoes a successful Mem_MallocPages except for page tables that were made |
| PagePools.ReservationIsRightIff | kernel/memory.c:120-135 | The reservation as written is right exactly for kernel threads |
| PagePools.SamePagesTwice | kernel/memory.c:120-135 | As written, a process asking twice is given the same pages |
| PagePools.PoolsInsideMemory | kernel/memory.c:54-118 | The pools start at 2 MByte and lie side by side inside the memory, of equal size up to a page; their sizes add up to the pages there are modulo 2^16, and so take in all of it exactly below 258 MByte |
| PagePools.PoolChoiceIsRightIff | kernel/memory.c:403-413 | The pool is told right exactly for user frames and for addresses below the user pool's size |
| PagePools.LastKernelFrameIsMistaken | kernel/memory.c:403-413 | The last kernel frame is always told wrong |
| KernelHeap.EveryRun | kernel/memory.c:440-617 | After every sequence of mallocs, frees and whole pages taken and given back: every page of an arena is reserved and translated by the hardware to a frame whose bit is set and which no other page has, and the set bits of both pools are exactly the frames behind arenas, behind whole pages, and of page tables |
| KernelHeap.EveryHeap | kernel/memory.c:440-617 | At the same time blocks in use are disjoint and large enough inside their arenas, counts are the blocks on the free list and never all, no arena is left when all is freed |
| KernelHeap.EveryByte | kernel/memory.c:440-617 | After every sequence of calls every byte of every block in use is translated by the hardware, and no two bytes of blocks in use to the same physical address |
| KernelHeap.AsksOnlyWhenFull | kernel/memory.c:484-514 | After every sequence of calls each place of a small arena that ends inside its page is a block, free or in use, and a page is asked for only when all places of all arenas of the class are in use |
| KernelHeap.NothingIsLost | kernel/memory.c:572-617 | When all is freed and given back no page is mapped, and every frame of both pools is free again |
| KernelHeap.StepKeepsWorld | kernel/memory.c:440-617 | One call, whose effect on each structure is given by a function, keeps bit maps, page tables, arenas and free lists in agreement |
| KernelHeap.NeverStopped | kernel/memory.c:440-526 | After every sequence of calls the next one is not stopped, and hands out a block exactly if the size is less than the pool's and, where pages are needed, there are that many in a row and as many frames |
| Arena.LiveBlocksApart | kernel/memory.c:353-362 | Two blocks in use never overlap |
| Arena.BlockInPage | kernel/memory.c:353-362 | Masking a block's address gives its arena, and the block ends inside the page |
| Arena.NothingLeaks | kernel/memory.c:599-612 | With nothing in use there is no arena and no free block |
| Arena.PerArena | kernel/memory.c:345 | As many blocks as fit behind the header, and not one more would |
| Arena.SizesDouble | kernel/memory.c:339-350 | The classes are 16 bytes, and each twice the one before, up to 1024 |
| Arena.EveryPlaceIsABlock | kernel/memory.c:353-356 | In every small arena each place that ends inside the page is on the free list of its class or in use, and not both |
| Arena.EmptyListMeansFull | kernel/memory.c:490-514 | With an empty free list every place of every arena of the class is in use |
| Arena.TakenFromFront | kernel/memory.c:517-523 | A small block is the first on the list of the smallest class that is large enough; its arena counts one less; nothing else changes |
| Arena.TakenFromNewPage | kernel/memory.c:490-523 | If there is none it is the first of a page cut up for it, and the others go to the list in the order of their addresses |
| Arena.GivenToBack | kernel/memory.c:597-611 | A small block goes to the end of the list, or with it, if it was the last in use, all blocks of its arena leave the list and the arena goes |
| Arena.ThreeFromOnePage | kernel/memory.c:440-526 | With no free block of 1024 bytes, three of them come from one page |
| Arena.CarvedKeepsInv | kernel/memory.c:491-513 | Cutting up a fresh page keeps the heap in order |
| Arena.HandedKeepsInv | kernel/memory.c:517-523 | Handing out the head of a list keeps it in order |
| Arena.ReturnedKeepsInv | kernel/memory.c:597-602 | Taking a block back keeps it in order but for a possibly empty arena |
| Arena.DroppedKeepsInv | kernel/memory.c:603-611 | Giving up an arena whose blocks are all free keeps it in order |
| Arena.LargeKeepsInv | kernel/memory.c:465-481 | A block of whole pages keeps it in order |
| KernelHeap.Allocator.Malloc | kernel/memory.c:440-526 | A block exactly if the size is less than the pool's and, where pages are needed, these are to be had; it was not in use, and comes from the smallest class or from new pages; state and outcome are those of the function |
| KernelHeap.Allocator.Free | kernel/memory.c:572-617 | Exactly that block is given back; with its last block the arena goes, and its frames, mappings and reservations with it |
| KernelHeap.Allocator.Carve | kernel/memory.c:500-513 | The loop lists every block of the page once, in order: by `Arena.PerArena` and `Arena.EveryPlaceIsABlock` every place that ends inside the page |
| KernelHeap.Allocator.RemoveBlocks | kernel/memory.c:603-608 | The loop finds every block of the arena on the list and takes it off |
| KernelHeap.Allocator.GetPages | kernel/memory.c:314-328 | Whole pages that nobody had, exactly if they are to be had; a part left behind if frames run out |
| FsLayout.LayoutFits | fs/fs.c:25-55 | The areas follow each other without gap or overlap, the inode table holds 4096 records to the byte, the block map has no sector too many, and the data area ends inside the partition |
| FsLayout.FormatBlockMap | fs/fs.c:113-126 | Which bits the formatted map has set, for every content of the buffer |
| FsLayout.MapIsRightWith | fs/fs.c:107-126 | With given bytes in the buffer they are those meant exactly if the bytes mark no block |
| FsLayout.MapIsRightIff | fs/fs.c:107-126 | Whatever it held, exactly if there are fewer than eight blocks |
| FsLayout.StaleByteExample | fs/fs.c:107-126 | A byte 0xFF loses blocks 1 to 7 |
| FsLayout.OfferedBlocksInsideIff | fs/fs.c:113-126 | Every block the map offers lies inside the partition exactly if the blocks fill the last sector of the map, or the second estimate saves a sector |
| FsLayout.StrayBlockExample | fs/fs.c:113-126 | A partition for which a block behind its end is offered |
| FsFormat.Format | fs/fs.c:22-185 | Super block, block map, inode map, inode table (the root directory's record and zeros) and the root directory's block on the disk, nothing else written; read back, the map has the bits written, and it is as meant exactly if the buffer marked no block |
| FsFormat.ReadSuper | fs/fs.c:191-205 | Mounting reads back the super block that was written |
| FsFormat.SuperLayout | fs/inode.h:22-41 | Where each field of the super block stands in its sector, low byte first, and zeros behind them |
| FsFormat.RootRecord | fs/fs.c:141-149 | The bytes of the root directory's record: number 0, size 48, the first block of the data area |
| FsFormat.ReadMap | fs/fs.c:204-210 | Mounting reads as the block map the bits that are on the disk, with those behind them taken |
| FsFormat.DigitsOfByte | kernel/bitmap.c:43-46 | The value of a byte is the sum of its bits, bit k for 2 to the k |
| FsFormat.FormattedIsHealthyIff | fs/fs.c:113-185 | A freshly formatted partition is a sound start for some map exactly if it has at least 8 blocks and the stray block is not on the map or lies inside the partition |
| FsFormat.MountedScanIff | fs/fs.c:216 | With the length of the inode map a scan comes to the same exactly if one of the first 4096 blocks is free or none behind them |
| DiskModel.Disk.Read | kernel/device/ide.c:177-229 | The loop over 256 sectors reads exactly the sectors asked for |
| DiskModel.Disk.Write | kernel/device/ide.c:232-281 | The loop stores exactly the sectors given |
| DiskModel.ReadAfterStore | kernel/device/ide.c:177-281 | What was stored is read back |
| DiskModel.ReadModifyWrite | fs/inode.c:76-78 | Reading sectors, patching and storing them patches the run of bytes in that place only |
| InodeTable.Locate | fs/inode.c:27-50 | The position lies inside the table and takes in the whole record, also across two sectors |
| InodeTable.Write | fs/inode.c:53-81 | The number leads to the persistent part of the inode, every other number where it led, nothing outside the table changes |
| InodeTable.Delete | fs/inode.c:84-104 | The record is zero, all others stay |
| InodeTable.Read | fs/inode.c:174-200 | The inode stored under the number |
| InodeTable.DecodeAfterEncode | fs/inode.h:46-58 | Nineteen words to bytes and back |
| InodeTable.RecordLayout | fs/inode.h:44-57 | Where each field stands in the 76 bytes of a record, low byte first |
| InodeTable.SavedRecord | fs/inode.c:61-74 | What is saved: number, size and addresses; count, deny flag and links are zero |
| Words.LittleEndian | fs/inode.h:22-57 | Words stand in a buffer one after the other, low byte first |
| InodeTable.PatchIsLocal | fs/inode.c:53-104 | Patching one record leaves every other one |
| InodeTable.WriteAsWritten | fs/inode.c:53-81 | The text's write goes to the slot of the number cut to 8 bits |
| InodeTable.TruncatedWriteIsLocalIff | fs/inode.c:56 | That leaves other inodes alone exactly below 256, or if the record was there already |
| InodeTable.RootOverwritten | fs/inode.c:56 | Saving inode 256 overwrites the root directory's record |
| InodeCache.OpenInodes.Open | fs/inode.c:160-208 | The shared copy if there is one, else the record on the disk; the count is opens minus closes |
| InodeCache.OpenInodes.Close | fs/inode.c:211-228 | The count goes down by one in its place on the list; inode and copy go with the last close and not before |
| InodeCache.OpenKeepsCounted | fs/inode.c:160-208 | One copy for a number, listed exactly while opens exceed closes |
| InodeCache.CloseKeepsCounted | fs/inode.c:211-228 | The same for closing |
| InodeCache.OpenKeepsOrder | fs/inode.c:160-208 | An inode not yet listed goes to the front with count 1; else only its own count changes, and the order never |
| InodeCache.CloseKeepsOrder | fs/inode.c:211-228 | A close takes one from the count, or takes the inode off the list, the others in their order |
| InodeCache.OpenAsWrittenIsRightIff | fs/inode.c:166 | The text's open does what is meant exactly when nothing is listed, or the number is not 0 and first |
| InodeCache.TwoFilesOneInode | fs/inode.c:166 | As written, two files opened share an inode |
| FileStore.FileSystem.AllocBlock | fs/file.c:48-57 | The lowest free block of the data area is taken, in memory and on the disk: read back from there, the map has exactly the bits it has in memory; no other sector changes |
| FileStore.FileSystem.BitmapSync | fs/file.c:592-613 | Writing one sector through leaves the map on the disk equal to the one in memory: its sectors, read as bytes, have bit i set exactly if block i is taken or there is none; no other sector changes |
| FileStore.FileSystem.Write | fs/file.c:385-590 | For every file: refused exactly for size, memory or blocks, halted exactly if a slot that is to be filled is not empty when its turn comes; on success content is old content ++ buffer, the inode is on the disk, no sector but those of the block map, the inode table and the file's own blocks has changed, and no other file; when refused size and content stay, the slots are those filled so far, and the blocks taken and kept are all there were, or the first of the file where memory is short |
| FileStore.FileSystem.MakeRoom | fs/file.c:436-545 | The four cases: the addresses of a grown file, or a full map and a sound file, or an assertion that fails |
| FileStore.FileSystem.WriteData | fs/file.c:547-582 | The loop appends the buffer to what the addresses show and writes no other block |
| FileStore.FileSystem.FirstBlock | fs/file.c:395-404 | A first write takes the first block and changes no content |
| FileStore.FileSystem.SaveInode | fs/file.c:585 | Saving an inode leaves all files and all other records |
| FileStore.FileSystem.Read | fs/file.c:291-382 | Exactly the bytes from the position on, at most to the end; -1 if there are none |
| FileStore.FileSystem.WriteThenRead | fs/file.c:291-590 | A read after a write returns that slice of old content ++ buffer, and the buffer itself from the old end on |
| FileStates.WriteSafeIff | fs/file.c:465-505 | A write cannot run into the assertions, however many blocks are free, exactly if the slots it fills are empty; inside the last sector it fills none |
| FileStates.NeededIs | fs/file.c:395-434 | The blocks a write needs: one for every 512 bytes begun anew, one for the table when byte 6144 is reached, one for a file that has none |
| FileStates.RetryHaltsIff | fs/file.c:455-505 | A write that failed half-way, tried again, halts exactly if it had put blocks into slots and one has come free |
| FileStates.FailThenHalt | fs/file.c:465 | A full disk, a failing write, another file released, the same write again |
| FileStore.ReadNeedIsRightIff | fs/file.c:294 | The 32-bit computation of the length is right exactly for positions inside the file and sums that do not overflow |
| FileStore.ReadNeedExample | fs/file.c:294 | A position behind the end, and a read of everything |
| FileStore.FileSystem.Release | fs/inode.c:107-157 | The kernel is stopped exactly if block 0 or an address outside the map is listed; a bit behind the blocks is cleared exactly if one is listed and that is not so; else all blocks listed are free again, and these are exactly the blocks the inode owned, and every other file is as it was, if and only if no stray address in an unwritten table is in use; the record is zero, and no sector outside the block map and the inode table has changed |
| FileContent.ReleaseIsExactIff | fs/inode.c:113-141 | Clearing the bits of all listed blocks frees exactly the owned ones if and only if none of the addresses in the sector of a table not in use is taken |
| FileContent.ReleasedWhole | fs/inode.c:113-141 | So it is for every file with no table, or with one in use |
| FileContent.StrayBlockExample | fs/inode.c:119-127 | A failed write's table, and a block of another file that goes with it |
| FileBlocks.GrowKeepsSound | fs/file.c:448-544 | A grown file has its blocks and its table, all different and taken, and nothing more |
| FileBlocks.GrowOwns | fs/file.c:448-544 | It owns what it owned and the blocks taken for it |
| FileBlocks.FileFrame | fs/file.c:385-590 | A file whose sectors are not written and whose bits are not cleared is the same file |
| FileBlocks.ByteOfFile | fs/inode.h:44-57 | Byte j of a file is byte j % 512 of its block j / 512, whose number is in the slot of the inode, from block 12 on in the table, four bytes each |
| FileBlocks.ShortOfBlocks | fs/file.c:448-512 | After a failure half-way the file is sound with its old blocks |
| FileBlocks.AssertionsHoldIff | fs/file.c:465-505 | The assertions on empty slots hold for any number of free blocks exactly if the slots to be filled are empty |
| FileContent.Appended | fs/file.c:547-582 | The content of a successful write, from addresses and sectors |
| FileContent.OthersKept | fs/file.c:385-590 | A step on one file keeps content and ownership of all others |
| FileContent.ListedSet | fs/inode.c:113-141 | The blocks a release goes through are the ones the file owns and the stray ones |
| FileContent.OthersAfterRelease | fs/inode.c:107-157 | A release keeps content and ownership of all others |
| FileStates.ReleasedIf | fs/inode.c:107-157 | From blocks given back to the states before and after |
| BlockMap.SyncKeepsMap | fs/file.c:592-613 | One sector written through is enough for one bit |
| BlockMap.MapReadsAs | fs/file.c:592-613 | The sectors of the map, read as bytes: bit i % 8 of byte i / 8 is set exactly if block i is taken or there is none |
| BlockMap.ReadBackIsSame | fs/fs.c:204-210 | Read back into memory they are the map that was there, the rest taken |
| BlockMap.TableBitReachesDiskIff | fs/file.c:479-515 | The table's bit reaches the disk as written exactly if the next block's bit shares its sector |
| BlockMap.TableBitLost | fs/file.c:479-515 | Bits 4095 and 4096: it does not |
| FileAsWritten.GuardDisagreesIff | fs/file.c:388-423 | Guard and assertion disagree exactly at the full size |
| FileAsWritten.WrappedGuardIsRightIff | fs/file.c:388-423 | The guard on a sum of 32 bits answers as on the true one exactly if size + count < 2^32 |
| FileAsWritten.WrappedGuardExample | fs/file.c:388-423 | 4294967295 bytes onto 100 pass as 99 |
| FileAsWritten.LimitIsRightIff | fs/file.c:388-423 | The limit as written is right exactly outside 13 to 140 sectors |
| FileAsWritten.LimitExample | fs/file.c:388-423 | 6657 bytes are refused, 6656 halt the kernel |
| FileAsWritten.LoopEndsIff | fs/file.c:555-582 | The loop as written ends exactly if the data fits into the sector the content ends in |
| FileAsWritten.LoopExample | fs/file.c:555-582 | 513 bytes into an empty file |
| FileAsWritten.TableIsRightIff | fs/file.c:489-517 | Whatever the sectors held, the table as written is right exactly if it was in use before the write |
| FileAsWritten.TableLost | fs/file.c:489-517 | Over a sector of zeros block 12 reads as 0, and sector 0 of the disk holds the list |
| FileAsWritten.NewTableIsRightWith | fs/file.c:412-517 | With given words in the list a new table is right exactly if those behind the last block are 0 |
| FileAsWritten.NewTableIsRightIff | fs/file.c:412-517 | Whatever it held, exactly if all 128 entries are in use |
| FileAsWritten.StaleWordExample | fs/file.c:412-517 | A file of 13 blocks whose table lists another file's block, which a release gives back |
| FileAsWritten.ReadOffsetRightIff | fs/file.c:358-370 | The offset as written is right for all content exactly in the middle of a sector |
| FileAsWritten.ReadOffsetExample | fs/file.c:358-370 | Byte 412 for byte 100 |
| FileAsWritten.ReleaseIsCompleteIff | fs/inode.c:113-141 | The release as written is complete exactly without data behind the table |
| FileAsWritten.ReleaseExample | fs/inode.c:113-141 | A file of 13 blocks of which the last stays taken |
| FileAsWritten.OneSectorBufferIff | fs/file.c:406 | The access of Inode_Write stays inside a buffer of one sector exactly if the record lies in one sector |
| FileAsWritten.InodeSixOverruns | fs/file.c:406 | Inode 6 does not |
| PathSearch.PathParse | fs/fs.c:231-251 | The first non-empty component, and where the rest starts |
| PathSearch.PathDepth | fs/fs.c:254-271 | The number of non-empty components, whatever the slashes |
| PathSearch.SearchSector | fs/dir.c:113-127 | The first entry of that name in a sector |
| PathSearch.SearchDirEntry | fs/dir.c:69-134 | The first entry of that name in the directory as its blocks on the disk have it, direct ones and those in the table |
| PathSearch.EntryRead | fs/dir.h:26-33 | The 24 bytes of an entry - name padded with zeros to 16, inode number, type with 1 for a file and 2 for a directory, low byte first - are read as the entry |
| PathSearch.EntriesRead | fs/dir.c:113-127 | A sector of 21 such records and 8 bytes is read as these entries, in order |
| PathSearch.LookupInBytes | fs/dir.c:69-134 | In a directory of one such sector, filled up with zero records, a name is found exactly as among its entries |
| PathSearch.SearchFile | fs/fs.c:274-338 | Whatever regular files hold, over the directories that can be reached from the root: what is recorded is the canonical path of the names visited; all but the last of them are directories by the tree walk, and the last is looked up in the directory recorded |
| PathSearch.NamesOfCanonical | fs/fs.c:299-300 | The components of the recorded path are the names visited |
| PathSearch.DepthTestIff | fs/file.c:228-237 | Depths agree exactly if every name before the last leads to a directory; then the last was looked up in the right one |
| PathSearch.OpenTarget | fs/file.c:200-252 | The search and the comparison of depths come to what the tree walk says: refuse, open the file that is there, or create it in that directory; from the bytes of directories on the disk in `PathSearch.OpenFromBytes` |
| PathSearch.OpenFromBytes | fs/fs.h:34-41 | A root directory and a directory below it, as bytes on the disk: the regular files are found, the directory walked through and not opened, a path through a file refused, missing names created where they belong |
| PathSearch.OpenRoot | fs/fs.c:278-287 | The root directory is not opened as a file, however it is named |
| PathSearch.OnlyDirectoriesMatter | fs/file.c:200-252 | What a path leads to depends on the directories that can be reached from the root and on nothing else on the disk |
| PathSearch.SearchIsRightIff | fs/dir.c:74-118 | Whatever the list and a sector outside the directory held, the search as written is right exactly if the directory has a table or the name is in its direct blocks |
| PathSearch.StaleEntryExample | fs/dir.c:74-118 | An entry found in a directory without blocks |
| PathSearch.DepthTestAsWrittenIff | lib/string.c:80-92 | With strcat as written the test passes exactly for names in the root directory |
| PathSearch.DepthTestExample | lib/string.c:80-92 | "/a/b" has a record of one component |
| PathSearch.DirOpenIsRightIff | fs/fs.c:314 | With the partition as written the search visits the right directories exactly if it opens none |

## Left out

- FileStore.FileSystem.Read: positions behind the end and sums beyond 32 bits are excluded, because the length computed there is wrong (`FileStore.ReadNeedIsRightIff`) and addresses are read that nobody has filled in.
- FileStore.FileSystem.Write: after an assertion has failed nothing is said about the state, for the kernel has stopped. A buffer has less than 2^32 bytes, and the sum with the size is the true one (`FileAsWritten.WrappedGuardIsRightIff`).
- FileStore.FileSystem.Release: the inode bit map is not part of this model; the file is taken to be open nowhere else, so that its Inode_Close takes it out of memory. After a failed assertion, or once a bit behind the blocks is cleared, nothing is said about the state.
- FileStore.FileSystem.WriteData: console output is not modelled.
- FsFormat.Format: what the entries of the root directory are is a parameter.
- PageCalls.MallocPagesKeeps: after the assertion on the frame of a page table has failed nothing is kept, for the kernel has stopped.
- InodeCache.OpenInodes.Open: the inodes in memory are values by number, not objects; that an inode lives in kernel memory is not modelled.
- PathSearch.SearchDirEntry: directories are read as the disk has them; a copy of an inode in memory is taken to agree with its record.
- PathSearch.PathParse: components of 16 and more characters overflow the name buffer; their bytes are not modelled.
- Paging.Mmu.AddPageTable: the translation look-aside buffer and access rights are not modelled; every page is mapped with the same flags.
- PageManager.Manager.MallocPages: what programs store in the pages mapped is not modelled, nor are the frames other address spaces take and give back meanwhile (`others` is fixed).
- KernelHeap.Allocator.Malloc: the pool lock is held by the caller; the runs are those of the kernel's heap, with the allocator itself stated for either pool.
- KernelHalf.StepKeepsInv: the copying of user pages in a fork is not part of the runs.
- Scheduler.RunIsSafe: registers, stacks and address spaces are not switched; a switch is a change of the running task.
- DiskChannel.StepIsSafe: the busy wait for the drive's status is a place where the task may sleep, its outcome is not modelled; a run in which a task goes to sleep with nobody ready ends in a failed assertion (`Locks.SleepingAloneHalts`) and is excluded.
- Creating, opening and closing files (fs/file.c:60-287): descriptor tables are bookkeeping; inode numbers come from the block map (line 72) and the inode number is handed out as a descriptor (line 133).
- Directories as a whole: making, removing and listing them (fs/dir.c:137-423, fs/fs.c:467-824); the rule for reclaiming a block is unclear.
- Mounting and partition tables, boot code, descriptor tables, console output and fork: input and output or hardware set-up.
- Process_VAddrBitmap (kernel/process.c:75-87): its constant 0xc00000000 has one digit too many.
