# FOS kernel: verified model of the scheduler, locks, memory and page file

FOS is a small teaching kernel. This project models, in Dafny, the parts of it whose
correctness spans several functions: the priority round-robin scheduler with ageing, the
sleep/wakeup channels with the sleep lock and the kernel semaphore on top of them, the
kernel heap (page allocator and block allocator), frames with their reference counts and
the physical-to-virtual index, shared objects, the freeing of user memory, the page file,
the intrusive lists under all of these, and two self-contained pieces: quickselect against
quicksort, and printing numbers against parsing them.

Where the kernel changes things step by step, the model is a class (or an in-place
method) whose methods are proved against a specification function; the theorems are
lemmas about that function. Protocols are state machines with a program counter per
process, and the theorems quantify over every interleaving.

| file | what it holds |
|---|---|
| `SeqUtil.dfy` | lists as sequences without repetition |
| `IntrusiveList.dfy` | the linked lists themselves: nodes, links, the walk that relinks |
| `SchedState.dfy`, `Ageing.dfy`, `BoundedWaiting.dfy`, `Scheduler.dfy` | process queues, ageing, bounded waiting, the scheduler's loops |
| `Channel.dfy`, `SleepLock.dfy`, `Semaphore.dfy` | channels, sleep lock, semaphore as interleaved steps |
| `Tiles.dfy`, `PageHeap.dfy`, `PageHeapHistory.dfy`, `KernelHeap.dfy` | kernel heap, page allocator |
| `BlockHeap.dfy`, `DynamicAllocator.dfy` | block allocator |
| `Frames.dfy`, `FrameRuns.dfy`, `FrameIndex.dfy`, `MemoryManager.dfy` | frames, page-table entries, runs from boot, the index |
| `RangeMap.dfy`, `SharedMemory.dfy` | mapping a range page by page, shared objects |
| `UserMemory.dfy`, `UserSpace.dfy` | free_user_mem and the working sets |
| `DiskFrames.dfy`, `PageFile.dfy` | page file |
| `Sorting.dfy`, `QuickSelect.dfy` | quicksort and quickselect |
| `Numerals.dfy`, `Printing.dfy` | strtol, ltostr, printnum |

## Findings

Properties that fail of the code as written. Each has a lemma with the exact condition
and one with a concrete input at which it fails.

- The waiting counter is 32 bits wide, so a starvation threshold of 2^32-1 never promotes
  anybody: the scheduler is starvation-free exactly for smaller thresholds
  (`BoundedWaiting.StarvationFreeIff`; `BoundedWaiting.LargestThresholdStarves`).
- With the guard free, the channel sleepers number max(0, -count) exactly when no process
  is between releasing the guard and entering the queue (`Semaphore.GuardFreeAccounts`);
  a run reaches that gap (`Semaphore.GapExists`).
- Completed waits stay within initial + signals exactly when the initial value is not
  negative (`Semaphore.SupplyBoundIff`, whose proof gives the run); `init_ksemaphore`
  accepts negative values.
- `kmalloc` rounds its size up in 32 bits: above 2^32-4096 the sum wraps to 0 and the call
  succeeds with an empty bulk, whatever the heap (`PageHeapHistory.KmallocKeepsInvIff`).
- `map_frame` over an entry that holds a frame with PRESENT cleared does not release that
  frame, and the 16-bit reference count wraps (`Frames.MapKeepsCountsIff`;
  `Frames.LostReferenceExists`, `Frames.WrappedCountExists`).
- A second mapping of a kernel-heap frame overwrites the index. `map_frame` keeps the index
  exactly when it does nothing or the frame is new to the heap
  (`FrameIndex.MapKeepsIndexIff`; `FrameIndex.SecondMappingExists`).
- `free_user_mem` unmaps each page twice. The second unmap does nothing exactly when the
  entry is not buffered; a buffered one makes it release frame 0
  (`UserMemory.SecondUnmapIff`; `UserMemory.BufferedExists`).
- `pf_free_env` stops at PDX(USER_TOP) although pages up to KERNEL_BASE can be added: a run
  loses disk frames exactly when it frees a process that stores such a page
  (`DiskFrames.RunConservesIff`; `DiskFrames.LossExists`).
- `ltostr` of the smallest long writes characters that are no digits, which `strtol` reads
  as 0 (`Printing.LtostrRoundTripIff`; `Printing.LeastReadsZero`).

Other things the code does that a caller might not expect: `create_shared_object` with size
0 answers E_NO_SHARE; `allocate_frame` panics when no frame is free, as its comment says, so
the tests for E_NO_MEM in its callers (kern/mem/kheap.c:90, kern/mem/kheap.c:232) never
succeed; `sched_exit_env` of a process in the NEW queue unlinks it and then fails an
assertion (`SchedulerQueues.Scheduler.ExitEnv`); and `kfree` of an address between the two
heap regions returns with the heap lock held (`KernelHeap.KHeap.Kfree`).

## Model

| member | source | states |
|---|---|---|
| IntrusiveList.List.InsertHead | inc/queue.h:246-255 | forward and backward links, both ends and the size agree with the new node in front of the old sequence |
| IntrusiveList.List.InsertTail | inc/queue.h:261-270 | the same with the new node behind the old sequence |
| IntrusiveList.List.InsertAfter | inc/queue.h:208-219 | the same with the new node after position k |
| IntrusiveList.List.InsertBefore | inc/queue.h:226-240 | the same with the new node before position k |
| IntrusiveList.List.Remove | inc/queue.h:276-289 | the list is linked without the node, whose own links are cleared |
| IntrusiveList.MoveMarked | inc/queue.h:189-193 | a safe walk that unlinks marked nodes and puts each at the head of another list meets every node once: the list keeps the unmarked ones in order, the other gains the marked ones reversed, and both stay linked |
| SchedState.LinkedAtMostOnce | kern/cpu/sched_helpers.c:147-304 | a process is in at most one queue, once, and its status, priority and channel name that queue |
| SchedState.ReadyIsLinked | kern/cpu/sched_helpers.c:147-160 | a ready process is in the queue of its own priority |
| SchedState.DispatchMoves | kern/cpu/sched.c:341-380 | the oldest process of the first non-empty queue, and only it, leaves the queues for the CPU with its counter cleared; no process moves if all are empty (NothingToDispatch) |
| SchedState.BlockMoves | kern/conc/channel.c:45-47 | the running process, and only it, goes to the head of the queue of channel c and its channel field names c |
| SchedState.WakeOneMoves | kern/conc/channel.c:71-97 | the oldest sleeper of channel c, and only it, goes to the head of the ready queue of its priority and its channel field is cleared |
| SchedState.SetPriorityMoves | kern/cpu/sched_helpers.c:692-732 | the priority becomes k; a ready process moves to the head of ready queue k with its counter cleared, for any other nothing else changes |
| SchedState.ExitRunningMoves | kern/cpu/sched_helpers.c:309-384 | the running process, and only it, goes to the head of the EXIT queue |
| SchedState.ExitReadyMoves | kern/cpu/sched_helpers.c:309-384 | a ready process, and only it, goes from its ready queue to the head of the EXIT queue |
| SchedState.RunEnvMoves | kern/cpu/sched_helpers.c:276-304 | a new process, and only it, goes to the head of the ready queue of its priority |
| SchedState.KillMoves | kern/cpu/sched_helpers.c:391-478 | the killed process leaves its queue, no other process moves, and its descriptor is free |
| SchedState.DispatchKeepsInv | kern/cpu/sched.c:341-380 | choosing the tail of the first non-empty queue keeps the one-place invariant |
| SchedState.SetPriorityKeepsInv | kern/cpu/sched_helpers.c:692-732 | changing a priority relinks a ready process and keeps the invariant |
| SchedState.KillKeepsInv | kern/cpu/sched_helpers.c:391-478 | killing a process in the NEW, a READY or the EXIT queue unlinks it there, frees its descriptor and keeps the invariant |
| SchedState.NewEnvKeepsInv | kern/cpu/sched_helpers.c:258-271 | a new process is linked in the NEW queue only |
| Ageing.PartialStep | kern/cpu/sched.c:397-421 | one turn of the ageing loop, which relinks a node of the list it walks, advances the closed form by one node |
| Ageing.PartialEnd | kern/cpu/sched.c:397-421 | the whole pass is the closed form: every ready process aged once, queue j gets those promoted out of queue j+1 reversed, then its own non-promoted members in order |
| Ageing.AgedKeepsInv | kern/cpu/sched.c:397-421 | the pass keeps the one-place invariant |
| Ageing.NoPromotionAtLargestThreshold | kern/cpu/sched.c:397-421 | with threshold 2^32-1 the counter wraps before it can exceed it and nobody is promoted |
| Ageing.PromotedExactly | kern/cpu/sched.c:397-421 | a process that waits from counter 0 goes one level up at the tick number thresh + 1, with its counter cleared, and not before |
| BoundedWaiting.StepProgress | kern/cpu/sched.c:341-449 | every operation that does not set or end the waiting process dispatches it or spends the budget only on running ticks |
| BoundedWaiting.BoundedWaiting | kern/cpu/sched.c:341-449 | a process made ready at priority p with counter 0 is on the CPU within p*(T+1)+N running ticks of any run, whatever the others do |
| BoundedWaiting.StarvationFreeIff | kern/cpu/sched.c:397-421 | that bound holds for every run exactly when the threshold is below 2^32-1 |
| BoundedWaiting.RunKeepsInv | kern/cpu/sched_helpers.c:147-304 | in every reachable state a process is linked in at most one queue, the one its fields name |
| BoundedWaiting.SleepEffect | kern/conc/channel.c:29-62 | the caller is blocked, newest on channel c and on no other queue, and not on the CPU; the other channels, the NEW and the EXIT queue and the priorities are as before |
| BoundedWaiting.YieldEffect | kern/cpu/sched.c:84-133 | the caller runs again or is the newest of the ready queue of its priority; the other kinds of queue are as before |
| BoundedWaiting.LeaveEffect | kern/cpu/sched_helpers.c:309-384 | the caller is the newest of the EXIT queue and off the CPU |
| SchedulerQueues.FindInQueue | kern/cpu/sched_helpers.c:89-102 | the search finds a process exactly when it is in the queue |
| SchedulerQueues.Scheduler.RemoveReady | kern/cpu/sched_helpers.c:165-185 | the search over all queues unlinks the process where it is |
| SchedulerQueues.Scheduler.SetPriority | kern/cpu/sched_helpers.c:692-732 | out-of-range priorities panic without an effect; otherwise the specified move, invariant kept |
| SchedulerQueues.Scheduler.Age | kern/cpu/sched.c:397-421 | the nested loops leave the closed form of the ageing pass |
| SchedulerQueues.Scheduler.Tick | kern/cpu/sched.c:387-451 | a clock tick ages and, with a process on the CPU, yields it |
| SchedulerQueues.Scheduler.RunNext | kern/cpu/sched.c:341-380 | the loop over the queues dispatches the oldest process of the best non-empty queue |
| SchedulerQueues.Scheduler.Reschedule | kern/cpu/sched.c:54-155 | one turn of the scheduler loop requeues a still-ready process and dispatches the next |
| SchedulerQueues.Scheduler.Yield | kern/cpu/sched.c:84-133 | the running process goes behind its queue and the next one runs; invariant kept |
| SchedulerQueues.Scheduler.Sleep | kern/conc/channel.c:29-62 | the caller is blocked at the head of the queue of exactly channel c, its channel field names c, the NEW and EXIT queues and the priorities are unchanged, and the next process runs; invariant kept |
| SchedulerQueues.Scheduler.WakeupOne | kern/conc/channel.c:71-97 | the oldest sleeper of channel c leaves it and becomes ready; invariant kept |
| SchedulerQueues.WokenInTurn | kern/conc/channel.c:71-97 | the sleeper at position i from the tail is ready after n wakeups exactly when n > i: oldest first |
| SchedulerQueues.SleeperWakes | kern/conc/channel.c:29-97 | a process that goes to sleep on c is woken by as many wakeups of c as it had sleepers, plus one, and by no fewer |
| SchedulerQueues.Scheduler.WakeupAll | kern/conc/channel.c:107-131 | the dequeue loop wakes every sleeper; invariant kept |
| SchedulerQueues.WakeAllOrder | kern/conc/channel.c:107-131 | waking all empties the channel and keeps arrival order inside each priority |
| SchedulerQueues.Scheduler.RunAll | kern/cpu/sched_helpers.c:534-555 | the loop starts every new process; invariant kept |
| SchedulerQueues.RunAllOrder | kern/cpu/sched_helpers.c:534-555 | new processes become ready in creation order inside each priority |
| SchedulerQueues.Scheduler.RunEnv | kern/cpu/sched_helpers.c:276-304 | only a process of the NEW queue is run; otherwise nothing changes |
| SchedulerQueues.Scheduler.ExitEnv | kern/cpu/sched_helpers.c:309-384 | a new process is unlinked and the call then panics, a ready one goes to the EXIT queue, a running one leaves the CPU to the next, any other changes nothing; invariant kept |
| SleepLock.NextKeepsInv | kern/conc/sleeplock.c:27-77 | every single step of any process, or of the scheduler holding the queue lock, keeps the protocol invariant |
| SleepLock.MutualExclusion | kern/conc/sleeplock.c:27-77 | in every run at most one process is between acquire and release, and the lock names it |
| SleepLock.NoLostWakeup | kern/conc/channel.c:29-131 | guard free and lock free: the channel is empty, nobody is blocked and nobody is in the gap before the queue |
| SleepLock.SleeperHasWaker | kern/conc/sleeplock.c:54-77 | every sleeper has an owner of the lock or a releaser at work that will wake it |
| SleepLock.NoDeadlock | kern/conc/channel.c:29-131 | whenever a process is inside the protocol some productive step is enabled |
| SleepLock.AcquireCompletes | kern/conc/sleeplock.c:37-48 | in every run, the guard's holder at the test of a free lock is three enabled steps of its own from being inside with the lock taken in its name and the guard free |
| SleepLock.AcquireSleeps | kern/conc/sleeplock.c:37-41 | at the test of a held lock, five steps end asleep, newest on the channel, with the guard free and the queue lock handed to the scheduler |
| SleepLock.WokenTestsAgain | kern/conc/sleeplock.c:37-41 | a woken sleeper that gets the guard back is at the test again |
| SleepLock.CriticalReached | kern/conc/sleeplock.c:27-52 | a run from the initial state in which a process is inside and owns the lock |
| SleepLock.ReleaseCompletes | kern/conc/sleeplock.c:54-77 | a release by a process inside, run to its end: the lock is free and names nobody, every sleeper is ready, nobody else's standing changed, and both spin locks are free |
| SleepLock.ReleaseLeavesFree | kern/conc/sleeplock.c:54-77 | in every run, when a release frees the guard the lock is free, names nobody and the channel is empty |
| SleepLock.QueueStep | kern/conc/channel.c:29-131 | a step changes the channel queue only by a sleeper entering at the head or by the tail, its oldest, leaving and becoming ready |
| Semaphore.NextKeepsInv | kern/conc/ksemaphore.c:23-76 | every single step keeps lock ownership, the balance of sleepers and the history account |
| Semaphore.GuardFreeAccounts | kern/conc/ksemaphore.c:23-76 | guard free: count = initial + signals - waits, sleepers plus the process in the gap = max(0, -count), and the exact condition for equality |
| Semaphore.GapExists | kern/conc/channel.c:29-62 | a run that reaches the gap with the guard free |
| Semaphore.SignalFindsSleeper | kern/conc/ksemaphore.c:53-76 | a signal that owes a wakeup always finds a sleeper in the queue |
| Semaphore.CompletedNeverExceedsSupply | kern/conc/ksemaphore.c:23-51 | completed waits never exceed initial + signals although wait tests once |
| Semaphore.SupplyBoundIff | kern/conc/ksemaphore.c:15-21 | that bound holds for all runs exactly when the initial value is not negative |
| Semaphore.WaitSucceeds | kern/conc/ksemaphore.c:23-51 | with a positive count, wait takes one unit and returns, and nothing else has changed |
| Semaphore.WaitSleeps | kern/conc/ksemaphore.c:23-51 | otherwise wait counts down and ends asleep, newest on the channel, with the guard free |
| Semaphore.SignalCounts | kern/conc/ksemaphore.c:53-76 | with a count that is not negative, signal counts up and returns, and nothing else has changed |
| Semaphore.SignalHandsOver | kern/conc/ksemaphore.c:53-76 | in every run, a signal that finds the count negative and both spin locks free makes the oldest of exactly -count sleepers ready and returns |
| Semaphore.WaiterCompletes | kern/conc/ksemaphore.c:37-45 | that waiter, once switched to, returns without looking at the count |
| Semaphore.QueueStep | kern/conc/channel.c:29-97 | a step changes the channel queue only by a sleeper entering at the head or by its oldest leaving and becoming ready |
| PageHeap.ExactFit | kern/mem/kheap.c:156-179 | a hole of exactly the requested size is used if there is one |
| PageHeap.WorstFit | kern/mem/kheap.c:182-214 | else the prefix of a largest, strictly larger hole is used and the rest stays listed in order: testing the head alone is sound |
| PageHeap.GrowBreak | kern/mem/kheap.c:217-252 | else the break grows, or the call fails without an effect |
| PageHeap.CustomFitKeepsInv | kern/mem/kheap.c:155-252 | allocation keeps the tiling of [start, break) by disjoint page-aligned bulks, no two free ones adjacent, the descending order and mapped-iff-allocated |
| PageHeap.LoweredKeepsInv | kern/mem/kheap.c:396-422 | lowering the break keeps all that, and lowering twice is lowering once |
| PageHeap.KfreeKeepsInv | kern/mem/kheap.c:339-429 | freeing with two-sided coalescing keeps all that and removes exactly that allocation |
| PageHeapHistory.BreakIsTop | kern/mem/kheap.c:396-422 | the break is the end of the highest live allocation, or the region start |
| PageHeapHistory.FreeListIsGaps | kern/mem/kheap.c:257-306 | a bulk is free exactly when it is a maximal gap between live allocations |
| PageHeapHistory.HistoryIndependent | kern/mem/kheap.c:257-306 | two heaps with the same live allocations have the same break, holes and mapped pages |
| PageHeapHistory.KfreeUndoesKmalloc | kern/mem/kheap.c:339-429 | freeing what was just allocated restores break, holes and mapped pages |
| PageHeapHistory.KmallocKeepsInvIff | kern/mem/kheap.c:308-334 | kmalloc keeps the invariant exactly for sizes up to 2^32-4096; larger ones succeed wrongly |
| PageHeapHistory.EveryRun | kern/mem/kheap.c:308-429 | every run of kmalloc and kfree from the empty heap keeps the invariant |
| PageHeapHistory.RunsAgree | kern/mem/kheap.c:308-429 | two runs that end with the same live allocations end with the same heap |
| KernelHeap.KHeap.InsertBulkDesc | kern/mem/kheap.c:110-134 | the search loop inserts before the first smaller bulk |
| KernelHeap.KHeap.MapFrameRange | kern/mem/kheap.c:83-102 | the loop maps exactly the pages of the range |
| KernelHeap.KHeap.FindExact | kern/mem/kheap.c:156-179 | the exact-fit search, skipped when the head is too small |
| KernelHeap.KHeap.SplitHead | kern/mem/kheap.c:182-214 | the head is split and its rest reinserted in order |
| KernelHeap.KHeap.PageAllocCustomFit | kern/mem/kheap.c:155-252 | the method is the custom-fit specification |
| KernelHeap.KHeap.Kmalloc | kern/mem/kheap.c:308-334 | zero, small and page-sized requests, with the 32-bit rounding, and when the invariant survives |
| KernelHeap.KHeap.FindNeighbours | kern/mem/kheap.c:258-265 | one pass finds the free bulks that touch on the left and on the right |
| KernelHeap.KHeap.MergeBulks | kern/mem/kheap.c:257-306 | the freed bulk and its neighbours become one listed bulk |
| KernelHeap.KHeap.LowerBreak | kern/mem/kheap.c:396-422 | the loop terminates, lowers at most once and leaves the lowered heap |
| KernelHeap.KHeap.FindAllocated | kern/mem/kheap.c:371-379 | the search answers the bulk at that address, or that there is none |
| KernelHeap.KHeap.Kfree | kern/mem/kheap.c:339-429 | each kind of address exactly: NULL, out of bounds, block region, guard page (lock kept), no live bulk (panic), and the release of the live bulk there; no effect in all but the last |
| BlockHeap.LiveBlockPlace | lib/dynamic_allocator.c:129-204 | a live block lies inside its page and is aligned to its size |
| BlockHeap.LiveBlocksDisjoint | lib/dynamic_allocator.c:129-256 | distinct live blocks do not overlap |
| BlockHeap.AllocSpec | lib/dynamic_allocator.c:129-204 | fails exactly when no free page and no large enough free block exists; otherwise one new live block at least as large as asked, the others untouched, free counts kept exact and below capacity |
| BlockHeap.AllocListed | lib/dynamic_allocator.c:145-161 | if a block of the least class that fits is listed, the first of them is taken and no page is cut |
| BlockHeap.AllocCarved | lib/dynamic_allocator.c:163-185 | else, with a free page, the first one is cut into blocks of that class, the first is taken and the others are listed in order |
| BlockHeap.AllocLarger | lib/dynamic_allocator.c:187-195 | else the first block of the smallest larger class that has one is taken |
| BlockHeap.AllocSizes | lib/dynamic_allocator.c:129-204 | the block is of the least of 8, 16, .., 2048 bytes that fits, unless none is listed and no page is free: then of the least listed size that fits; a page is used up exactly when none is listed and one is free |
| BlockHeap.FreeSpec | lib/dynamic_allocator.c:209-256 | exactly that block stops being live, and a page that became empty returns to the free pages |
| BlockHeap.FreeListed | lib/dynamic_allocator.c:222-233 | a block whose page keeps live blocks becomes the first of its list |
| BlockHeap.FreeLast | lib/dynamic_allocator.c:235-253 | the last live block of a page takes the blocks of the page off the list, the others keep their order, and the page goes behind the free pages |
| BlockHeap.PageReturnedIff | lib/dynamic_allocator.c:235-253 | the page of a freed block is given back exactly when that was its only live block |
| BlockHeap.NothingLiveAllFree | lib/dynamic_allocator.c:209-256 | when nothing is live every page is in the free-page list |
| BlockHeap.EveryRun | lib/dynamic_allocator.c:46-256 | after every run from initialisation the live blocks are those asked for and not given back, each aligned and at least as large as asked, pairwise disjoint, and freeing everything returns every page |
| DynamicAllocator.Allocator.FindClass | lib/dynamic_allocator.c:145-153 | the doubling loop finds the smallest class that fits |
| DynamicAllocator.Allocator.Carve | lib/dynamic_allocator.c:163-176 | the loop cuts a free page into all its blocks |
| DynamicAllocator.Allocator.AllocBlock | lib/dynamic_allocator.c:129-204 | oversize panics, zero answers NULL, otherwise the specification; invariant kept |
| DynamicAllocator.Allocator.FreeBlock | lib/dynamic_allocator.c:209-256 | the method is the specification; invariant kept |
| DynamicAllocator.GetBlockSizeOfLive | lib/dynamic_allocator.c:104-124 | any address inside a live block yields that block's size |
| Frames.AllocateKeepsAccounts | kern/mem/memory_manager.c:148-187 | the allocated frame had no user and is now in flight, the accounts hold |
| Frames.UnmapKeepsAccounts | kern/mem/memory_manager.c:474-495 | unmapping keeps reference count = number of entries naming the frame |
| Frames.UnmapEffect | kern/mem/memory_manager.c:474-495 | the named frame loses one reference, is freed exactly when that was the last, and nothing else changes |
| Frames.UnmapLeaves | kern/mem/memory_manager.c:474-495 | only the available bits of the entry stay, the frame loses one reference and its heap page, and the last reference puts it at the head of the free list |
| Frames.MapKeepsAccounts | kern/mem/memory_manager.c:356-429 | mapping over an empty or present entry keeps the accounts, installs the frame and changes no other entry |
| Frames.MapLeaves | kern/mem/memory_manager.c:419-425 | at a page without a present frame: the entry holds the frame with exactly the given write and user permissions and keeps its available bits, the frame gains one reference and its va is the page |
| Frames.MapOver | kern/mem/memory_manager.c:408-425 | over another frame: the same, and the other frame loses one reference, freed with the last |
| Frames.FreeThenAllocate | kern/mem/memory_manager.c:148-217 | the frame freed last is given out next, cleared, and the free list is as before |
| Frames.FrameHasOneRole | kern/mem/memory_manager.c:148-223 | every frame is exactly one of free, mapped, in flight, reserved |
| Frames.FramesConserved | kern/mem/memory_manager.c:148-223 | free + mapped + in flight + reserved = number of frames |
| Frames.MapKeepsCountsIff | kern/mem/memory_manager.c:356-429 | the exact condition on entry and count under which mapping keeps counts = users |
| FrameIndex.VirtualOfPhysical | kern/mem/kheap.c:434-530 | kheap_virtual_address inverts kheap_physical_address on every mapped heap address |
| FrameIndex.PhysicalOfVirtual | kern/mem/kheap.c:434-530 | and the reverse on every physical address it accepts |
| FrameIndex.PhysicalIffMapped | kern/mem/kheap.c:481-530 | an address has a physical address exactly when it is a present heap page |
| Frames.LostReferenceExists | kern/mem/memory_manager.c:408-425 | a state where map_frame leaves a frame with a reference no entry accounts for |
| Frames.WrappedCountExists | kern/mem/memory_manager.c:419-420 | a state with 65535 mappings where one more makes the count 0 |
| Frames.CreateTableForOk | kern/mem/memory_manager.c:287-325 | making a missing table keeps the accounts |
| Frames.CreateTableForEffect | kern/mem/memory_manager.c:287-325 | it costs the first free frame, which the heap page then maps writable and for the kernel alone; exactly the pages of the table get entries, all empty, and no other entry changes |
| FrameRuns.BootAccounts | kern/mem/memory_manager.c:56-122 | the state of initialize_paging: every frame is pinned or free and no entry names one |
| FrameRuns.PinnedAddresses | kern/mem/memory_manager.c:56-122 | pinned are the first three frames, 640 KB to 1 MB, and from there to the end of the kernel |
| FrameRuns.NextOk | kern/mem/memory_manager.c:148-495 | every allocation, release, mapping, unmapping, present-bit change and new table keeps the accounts, with frames in flight |
| FrameRuns.EveryRun | kern/mem/memory_manager.c:56-495 | after every run from boot: references = naming entries (plus the boot pin), a free frame has none, and free + mapped + in-flight + pinned frames = number of frames |
| FrameIndex.UnmapKeepsIndex | kern/mem/memory_manager.c:474-495 | unmapping any page keeps the index |
| FrameIndex.MapKeepsIndexIff | kern/mem/memory_manager.c:408-425 | map_frame keeps the index exactly when it does nothing, or, at a heap page, nobody else uses the frame, or, elsewhere, no present heap page maps it |
| FrameIndex.SecondMappingBreaksIndex | kern/mem/memory_manager.c:419-425 | after a second mapping of a heap frame at another page kheap_virtual_address no longer answers the heap page |
| FrameIndex.SecondMappingExists | kern/mem/memory_manager.c:419-425 | a state and a mapping where that happens |
| FrameIndex.GetFindsCreated | kern/mem/memory_manager.c:234-325 | get_page_table answers exactly the table create_page_table installed for that region |
| FrameIndex.EveryRun | kern/mem/memory_manager.c:234-495 | after every run from boot the two conversions invert each other in both directions, tables are found and frames are conserved, in-flight ones included |
| MemoryManager.FrameTable.constructor | kern/mem/memory_manager.c:56-122 | the loops of initialize_paging leave the boot state: pinned counts and the free list in order |
| MemoryManager.FrameTable.AllocateFrame | kern/mem/memory_manager.c:148-187 | takes the first free frame; without one the kernel panics |
| MemoryManager.FrameTable.DecrementReferences | kern/mem/memory_manager.c:219-223 | one reference fewer, freed at zero, in 16 bits |
| MemoryManager.FrameTable.CreatePageTable | kern/mem/memory_manager.c:287-325 | a frame is mapped at the heap page and the table's entries exist, cleared; without a frame the kernel panics |
| MemoryManager.FrameTable.MapFrame | kern/mem/memory_manager.c:356-429 | a missing table is created first; then the mapping specification, and the accounts are kept |
| MemoryManager.FrameTable.InstallFrame | kern/mem/memory_manager.c:404-428 | the part after the table is found is the mapping specification |
| MemoryManager.FrameTable.UnmapFrame | kern/mem/memory_manager.c:474-495 | the method is the unmapping specification, nothing without a page table |
| RangeMap.StepOk | kern/mem/memory_manager.c:356-429 | map_frame at a process page, with or without its table: which entries change, and which counts and free frames |
| RangeMap.SameTable | kern/mem/memory_manager.c:234-282 | two pages share a table exactly when they are of one process and have the same directory index |
| RangeMap.NeedCounts | kern/mem/memory_manager.c:356-391 | mapping a range makes exactly the tables that some page of it lacks, each once |
| RangeMap.OnlyRangeNext | kern/mem/shared_memory_manager.c:177-190 | mapping one page more still changes only the range, the heap pages that became tables, and new empty entries |
| SharedMemory.SharersSeeSameFrames | kern/mem/shared_memory_manager.c:147-261 | page i of every sharer maps frame i of the object, getters write iff it is writable, references = 1 + gets, (owner, name) is unique |
| SharedMemory.SharersSeeSameBytes | kern/mem/shared_memory_manager.c:147-261 | every byte of an object, for every sharer, lies in a page mapped to the frame of that byte with the sharer's permission, and no frame of the object is without a byte |
| SharedMemory.CreateKeepsInv | kern/mem/shared_memory_manager.c:147-201 | recording a created object keeps that invariant for all objects |
| SharedMemory.GetKeepsInv | kern/mem/shared_memory_manager.c:207-261 | recording one more sharer keeps it |
| SharedMemory.ShareManager.FindShare | kern/mem/shared_memory_manager.c:42-72 | answers an object with that owner and name, or that there is none |
| SharedMemory.ShareManager.CreatePages | kern/mem/shared_memory_manager.c:177-190 | the loop maps distinct frames that nobody mapped before over the range, making missing page tables, and touches nothing else |
| SharedMemory.ShareManager.CreateSharedObject | kern/mem/shared_memory_manager.c:147-201 | existing name, zero size, too few frames for pages and missing tables (exactly then a halt) and success, each with its effect and the id answered; invariant kept |
| SharedMemory.ShareManager.MapPages | kern/mem/shared_memory_manager.c:249-257 | the loop maps the object's frames page by page with the view's permission, making missing page tables |
| SharedMemory.ShareManager.GetSharedObject | kern/mem/shared_memory_manager.c:207-261 | unknown name changes nothing, too few frames for missing tables halts, otherwise one more reference and one more sharer; invariant kept |
| UserMemory.FreePageOk | kern/mem/chunk_operations.c:191-213 | one page leaves the heap mark, the page table, the working set and the page file; every other entry of every process is unchanged, but for the present bit of a page moved from Second to Active; active pages are present and those of Second are not; the cursor moves to the next page left, or is NULL past the last |
| UserMemory.InvalidateOk | kern/mem/working_set_manager.c:33-99 | both list disciplines drop exactly that page; Active keeps its length while Second lasts; no other entry changes but the one refilled from Second to Active |
| UserMemory.RefillExactly | kern/mem/working_set_manager.c:46-60 | dropping an active page moves exactly the head of Second to the tail of Active and makes it present; with Second empty, Active gets one shorter |
| UserMemory.FreedStep | kern/mem/chunk_operations.c:191-213 | one page more extends all that to a longer range: the border between Active and Second, the cursor and the entries included |
| UserMemory.FreedCounts | kern/mem/chunk_operations.c:191-213 | each frame loses exactly one reference per freed entry that named it, despite the double unmap |
| UserMemory.SecondUnmapIff | kern/mem/memory_manager.c:474-495 | the second unmap of a page does nothing exactly when its entry is not buffered |
| UserMemory.BufferedFreesFrameZero | kern/mem/memory_manager.c:474-495 | on a buffered entry it releases frame 0 |
| UserMemory.BufferedExists | kern/mem/memory_manager.c:474-495 | a state where it does |
| UserSpace.Process.InvalidateInLists | kern/mem/working_set_manager.c:33-99 | the Active/Second branch is the specification |
| UserSpace.Process.InvalidateInWs | kern/mem/working_set_manager.c:33-99 | the single-list branch is the specification, cursor included |
| UserSpace.Process.FreeOne | kern/mem/chunk_operations.c:191-213 | the loop body frees one page from all four structures |
| UserSpace.Process.FreeUserMem | kern/mem/chunk_operations.c:191-213 | frees exactly the pages of the range, with the frame outside it and the reference counts as above, or halts exactly when one of them has no page table |
| DiskFrames.Refines | kern/disk/pagefile_manager.c:209-543 | every operation on disk frames is the operation on a plain map from (process, page) to contents with fixed room, same answer included |
| DiskFrames.AddStores | kern/disk/pagefile_manager.c:239-268 | adding panics exactly from KERNEL_BASE on and fails exactly when the page has no frame and none is free; else that page reads as the data, and every other page as before |
| DiskFrames.AddEmptyStores | kern/disk/pagefile_manager.c:209-237 | the same for an empty page: 4096 zeros if asked for, else a stored page keeps its contents |
| DiskFrames.RemoveStores | kern/disk/pagefile_manager.c:446-463 | the page does not exist any more, the others read as before, and its frame is given out next |
| DiskFrames.FreeEnvStores | kern/disk/pagefile_manager.c:465-543 | no page of the process exists any more, and the others read as before |
| DiskFrames.EveryRun | kern/disk/pagefile_manager.c:209-543 | every run answers as the plain map does, and no frame ever serves two pages |
| DiskFrames.ReadsLastAdded | kern/disk/pagefile_manager.c:416-444 | a read yields the contents last added for that process and page |
| DiskFrames.FramesConserved | kern/disk/pagefile_manager.c:75-147 | in one state, free + stored frames total PAGES_PER_FILE-1 exactly when every frame is one of them |
| DiskFrames.RunConservesIff | kern/disk/pagefile_manager.c:209-543 | after every run free + stored + lost frames total PAGES_PER_FILE-1, and none is lost exactly when no process was freed while it stored a page at USER_TOP or above |
| DiskFrames.LowRunConserves | kern/disk/pagefile_manager.c:209-543 | a run that only adds pages below USER_TOP loses none |
| DiskFrames.LossExists | kern/disk/pagefile_manager.c:465-543 | a run of one add and one free that loses a frame |
| DiskFrames.FreedFrames | kern/disk/pagefile_manager.c:465-543 | the frames given back are exactly those of the process's pages walked |
| DiskFrames.FreeEnvCompleteIff | kern/disk/pagefile_manager.c:465-543 | freeing a process loses frames exactly when it stored a page at USER_TOP or above |
| PageFile.PageFile.constructor | kern/disk/pagefile_manager.c:75-90 | all frames but frame 0 are free and nothing is stored |
| PageFile.PageFile.AllocateDiskFrame | kern/disk/pagefile_manager.c:112-133 | the first free frame, or no space |
| PageFile.PageFile.CreateTable | kern/disk/pagefile_manager.c:149-207 | a missing directory or table is created without changing what is stored |
| PageFile.PageFile.AddEnvPage | kern/disk/pagefile_manager.c:239-268 | adding through the two-level tables is adding to the frame map; invariant kept |
| PageFile.PageFile.AddEmptyEnvPage | kern/disk/pagefile_manager.c:209-237 | the same for an empty page, zeroed or not |
| PageFile.PageFile.ReadEnvPage | kern/disk/pagefile_manager.c:416-444 | the contents stored, or that the page does not exist |
| PageFile.PageFile.RemoveEnvPage | kern/disk/pagefile_manager.c:446-463 | removing through the tables is removing from the frame map; invariant kept |
| PageFile.PageFile.FreeEnvPages | kern/disk/pagefile_manager.c:465-543 | the nested loops free the process's pages below USER_TOP in order and drop its directory |
| PageFile.PageFile.CalculateAllocatedPages | kern/disk/pagefile_manager.c:583-619 | the nested loops count exactly the stored pages below USER_TOP |
| PageFile.PageFile.CalculateFreeFrames | kern/disk/pagefile_manager.c:623-638 | the answer and the stored pages total PAGES_PER_FILE-1 exactly when no frame is lost |
| Sorting.RankIsPlace | user/arrayOperations_stats.c:115-149 | an element with nothing larger before and nothing smaller after it is where sorting puts it |
| QuickSelect.PartitionBand | user/arrayOperations_quicksort.c:90-106 | for every pivot choice the loops end with smaller elements, a band equal to the pivot, larger elements |
| QuickSelect.QuickSort | user/arrayOperations_quicksort.c:81-113 | terminates and leaves the sorted arrangement of the input |
| QuickSelect.PartitionStrict | user/arrayOperations_stats.c:125-141 | for every pivot choice the pivot ends at j with nothing larger before and nothing smaller after it |
| QuickSelect.KthElement | user/arrayOperations_stats.c:115-149 | terminates, permutes the array and answers what sorting puts at index k-1, equal keys included |
| Numerals.LongestRun | lib/string.c:241-257 | the digits read are the longest run valid in the base |
| Numerals.Strtol | lib/string.c:217-262 | value and end pointer: blanks, sign, prefix, then the wrapped value the digits denote |
| Numerals.ParseReads | lib/string.c:217-262 | a string of blanks, an optional sign, an optional prefix and a longest run of digits yields their signed value, wrapped, and the place behind them; "0x" makes base 0 or 16 hexadecimal, "0" makes base 0 octal |
| Numerals.PartsExist | lib/string.c:217-262 | every string has such parts |
| Numerals.DigitIff | lib/string.c:241-250 | digit d below 36 is written with the d-th of 0..9a..z or of 0..9A..Z, and with no other character |
| Printing.Ltostr | lib/string.c:264-304 | the two loops leave the specified text and a NUL |
| Printing.LtostrRoundTripIff | lib/string.c:217-304 | strtol undoes ltostr exactly on the 32-bit values other than the minimum |
| Printing.Console.PrintNum | lib/printfmt.c:38-53 | the recursion writes the numeral filled on the left to the width |
| Printing.NumeralValue | lib/printfmt.c:38-53 | the numeral denotes the number |
| Printing.NumeralShape | lib/printfmt.c:38-53 | only lower-case digits, and no leading zero but for 0 itself |
| Printing.PrintedShape | lib/printfmt.c:38-53 | in front of the numeral stands the fill character alone |
| Printing.PrintedLength | lib/printfmt.c:38-53 | output length is max(width, digits) |
| Printing.PrintedReadsBack | lib/printfmt.c:38-53 | strtol reads back the number modulo 2^32, with blank or zero filling, in every base 2..16 |
| Printing.PrintRoundTripIff | lib/printfmt.c:38-53 | it reads back the number itself exactly below 2^31 |

## Left out

- SchedulerQueues.Scheduler.SetPriority: takes the process itself; envid2env, whose body is not part of this model, is the lookup before it.
- SchedulerQueues.Scheduler.Sleep: is one step here; its interleaving with other processes is in SleepLock and Semaphore.
- KernelHeap.KHeap.Kmalloc: does not model the kheap lock, and the Bulk records come from an unlimited supply; the exact-fit path of the source also leaks its record.
- KernelHeap.KHeap.Kfree: hands an address of the block region to the block allocator, which is a model of its own.
- DynamicAllocator.Allocator.FreeBlock: takes a live block; an address that is no live block corrupts the source's lists.
- MemoryManager.FrameTable.MapFrame: takes the heap page that kmalloc answers for a missing table as a parameter, and needs an entry that is empty or present and a frame below 65535 references; the other cases are Frames.MapKeepsCountsIff.
- FrameRuns.BootAccounts: the static window of the kernel onto physical memory, which boot_map_range fills without counting references, is not among the entries.
- SchedState.KillKeepsInv: does not model killing the running process, which depends on env_free, whose body is not part of this model.
- SharedMemory.ShareManager.CreateSharedObject: needs a range without mappings, as its callers arrange, and takes the heap pages that kmalloc answers for missing tables as a parameter; the memory of the Share record itself is not counted.
- SharedMemory.ShareManager.GetSharedObject: the same, and fewer than 65535 mappings of a frame.
- UserSpace.Process.FreeUserMem: does not model the time stamps of working-set elements or the freeing of their records.
- PageFile.PageFile.FreeEnvPages: needs the directory to exist, as the source dereferences it; the table file that pf_free_env also drops is not part of this model.
- PageFile.PageFile.CreateTable: does not model running out of kernel memory for tables, whose error code the callers ignore, nor the address arithmetic that finds a table: the source goes through kheap_virtual_address below USER_TOP and through STATIC_KERNEL_VIRTUAL_ADDRESS, another address of the same memory, from there on.
- Printing.Console.PrintNum: the width is an unbounded integer and does not wrap.
- Interrupt flags, holding checks and the spinning of spin locks: a lock is one atomic step, taken only when free.
- Round robin, MLFQ and BSD scheduling, and re-initialising the scheduler with processes queued: easier than, or only panicking next to, the priority scheduler.
- Page replacement, page buffering, pf_update_env_page and the table file: partly missing or disabled in the source.
- The user heap: lowering its break leaves free bulks above it, so its holes do not partition the region; the kernel twin is modelled.
- allocate_user_mem, krealloc, realloc_block, sfree and delete_shared_object: only mark pages, or only panic.
- LIST_CONCAT: unused, and it clears the size it is about to add.
- TLB, CR registers, page contents in memory, context-switch code, drivers, boot code and the command prompt: hardware and plumbing.
