# Toyix in Dafny

A Dafny model of the core of the Toyix kernel (32-bit x86, one processor, written in C) with proofs of what that core
keeps. `dafny verify dfyconfig.toml` checks the whole project.

The model has five parts.

**Threads and synchronisation.** `SchedulerSpec` describes the scheduler's globals as a value with one function for each
operation of `kernel/thread.c`. `Threads` is the same scheduler as the source has it: queues linked through the thread
objects, head and tail cells, counters, all changed in place; every method is proved to do what the function of that name
does. `Protocol` is the whole system as a state machine: each step is one section that runs with interrupts off, and a
timer or keyboard interrupt may strike between any two of them, so a tick can land between a thread's going to sleep or
exiting and its yield. Mutexes, semaphores and the keyboard ring share one waiting protocol. `ProtocolInvariant` proves
what every step keeps, `Wakeups` the safety theorems over all runs, `Timing` the theorems about sleep and time slices,
`LongSleeps` what sleeps beyond half a turn of the tick counter do, `Slices` when a tick reaches the scheduler and that a
thread gets its slice, and `Operations` what complete calls do when nothing
interrupts them. `Simulation` joins the two halves: it carries out every step of `Protocol` on the linked queues of
`Threads` and proves that in every run all queues stay well linked and hold what the protocol says.

**Heap.** `HeapSpec` is the heap as a sequence of blocks, `Heap` the allocator over block headers in memory.

**Frames and page tables.** `Frames` is arithmetic of frames, address ranges and the boot memory map; `BootMap` is
that map word by word; `Pmm` the bitmap allocator. `Paging` describes two-level tables in physical memory together with an owner for every frame in use;
`PagingSteps` proves what each write to a table keeps; `Access` says what the processor lets user code do; `AddressSpaces` has the operations of `kernel/address_space.c` and
`arch/x86/vmm.c`; `Boot` builds the tables they start from.

**Programs in memory.** `UserMemory` is memory as a process sees it, byte by byte through its tables. `Elf` and `ElfLoader`
accept and load executables, `ElfEncoding` ties them to the headers as linkers write them, `Arguments` lays down the initial stack and reads it back as the program entry does, and
`Usercopy` has the checked copies between kernel and user.

**Processes.** `Processes` is the life cycle as a state machine with the parent and waits-for relations, `ProcessTable` the
linked table, and `Waitpid` the end of SYS_WAITPID over that table and the caller's memory.

Seven properties one would expect turn out not to hold of the code for all inputs. Each has an exact condition, proved in
both directions, and an input at which it fails:

- Every sleeper is readied at exactly the tick it asked for, in all runs whose sleeps are at most N ticks, if and only if N
  is at most 2^31 (`LongSleeps.SleepsExactIff`). SYS_SLEEP passes on any 32-bit count. From 2^31 + 2 ticks on a sleep ends
  at the first tick (`LongSleeps.WakesEarly`). A sleep of 2^31 + 1 ticks harms others: a thread that asks for one tick is
  queued behind it and is still asleep after that tick, waiting for a head that is due 2^31 ticks later
  (`LongSleeps.StarvesAnother`).
- `kmalloc` can fail after growing the heap, if and only if the rounded request is so large that the page count wraps in
  32 bits and growth then succeeds with one page (`Heap.FailsAfterGrowthIff`, `Heap.FailsAfterGrowthExample`).
- Freeing an available region of the boot memory map frees exactly the frames inside it if and only if its bounds are
  representable (`Frames.FreedExact`): a region that ends exactly at 4 GiB is dropped (`Frames.DroppedExample`), one that
  crosses 4 GiB loses its last frame (`Frames.CrossingExample`), and one that begins in the last page below 4 GiB frees
  other memory (`Frames.LastPageExample`).
- Reserving a range reserves every frame it touches if and only if it does not end in the last page below 4 GiB
  (`Frames.ReservedExact`, `Frames.UnreservedExample`).
- When mapping a region into a process succeeds, the whole region is mapped if and only if it ends at or below 0xFFFFF000.
  A region that ends in the last page below 4 GiB is reported as mapped although nothing is
  (`UserMemory.ProcessMemory.MapUserRegion`, `UserMemory.ProcessMemory.MapLastPage`).
- A page mapped with the user flag is the user's to reach if and only if its table is new or was itself made for the user
  (`AddressSpaces.MappedAccess`); behind a table made for a page without that flag it is not
  (`AddressSpaces.PrivateTableHides`). The kernel maps user pages with both flags only, and then every directory entry
  stays open (`AddressSpaces.MapResultOpen`).
- SYS_WAITPID does not always remove the child it waited for: the child is gone if and only if the status pointer is null or
  accessible. Otherwise the wait is over and the exited child stays, to be waited for again (`Waitpid.FinishWait`,
  `Processes.WaitCollects`, `Processes.RetryCollects`).

Loadable segments are always mapped writable, whatever their flags say (`kernel/elf_loader.c:143-153`); the model does the
same.

What is assumed of the surroundings:

- A section with interrupts off is one step. Calls of `kmalloc` and `kfree`, process creation and exit are single steps.
- A frame passed to `address_space_map_page` was taken from the frame allocator and given to no one else.
- Mapping heap pages either succeeds as a whole or fails (a parameter), and never maps 2^20 pages, which is all of memory.
- `vmm_map_page` is called only when the table exists or a frame for it is left, since the code does not check.
- The kernel gives the user bit to none of its own pages; `copy_to_user` relies on it.
- Physical memory used for tables and memory used for data are kept apart in the model; frame ownership makes them disjoint.
- Payload bytes are not part of the heap model: a user of the heap does not write the magic number into its own memory. A
  header left behind by a merge keeps its magic number and its free mark.
- `semaphore_signal` increments a 32-bit signed count without a check. The state `CountOverflow` of `Protocol` stands for
  that overflow, which the C language leaves undefined; the source has no such panic.
- One collector per process, no wrap of process ids, and no wrap of the cursor that walks the boot memory map.

## Model

| member | source | states |
|---|---|---|
| `Wakeups.NoThreadLostOrQueuedTwice` | kernel/thread.c:114-247 | in every run every thread but idle and the current one is in exactly one place (one position of one queue, unstarted, held by one waker or reaper, or the boot thread after its exit, which is on no queue and never reaped), none is anywhere twice, and idle is on no queue |
| `Wakeups.LinkedThreadsAreFree` | kernel/thread.c:477-573 | in every run a RUNNING current thread, a thread held by its waker or reaper, and a new thread is on no queue, which is what the queue operations need of their callers |
| `Wakeups.NoLostWakeup` | kernel/wait_queue.c:70-128 | in every run, when threads wait for a mutex, semaphore or the ring, what is available never exceeds the threads that still owe a wake-up or a re-test; a free mutex with waiters always has such a thread |
| `Wakeups.PendingCanRun` | kernel/wait_queue.c:98-128 | in every run a thread that owes a wake-up or a re-test waits for nothing but the processor, or is held by a waker that does |
| `Wakeups.MutualExclusion` | kernel/sync.c:30-98 | in every run at most one thread is between lock and unlock, it is the recorded owner, and locked holds iff there is an owner |
| `Wakeups.CountConserved` | kernel/sync.c:112-173 | in every run a count equals its initial value plus completed gives less completed takes and is never negative |
| `Wakeups.UnreachablePanics` | kernel/thread.c:477-573 | no run reaches the panic of thread_exit returning or of blocking a thread that is not RUNNING |
| `Wakeups.RunInv` | kernel/thread.c:597-657 | the structural, resource and wake-up invariants hold after any sequence of steps from a state that has them |
| `Wakeups.InitInv` | kernel/thread.c:371-422 | the state after threading_init has the invariants |
| `Wakeups.StepCovers` | kernel/sync.c:30-173 | every step keeps the bound of available units by pending wakers, the core of no lost wake-up |
| `Wakeups.StepKeepsResources` | kernel/sync.c:19-173 | every step keeps owner, lock flag and counts consistent with the history of takes and gives |
| `Operations.AcquireCall` | kernel/sync.c:30-145 | a whole mutex_lock, semaphore_wait or keyboard read: what is available is taken and nothing else changes; else the caller ends BLOCKED at the end of the wait queue with another thread running and the resource as it was; recursive locking, and waiting on the idle thread, panic |
| `Operations.ReleaseCall` | kernel/sync.c:74-173 | a whole unlock by the owner, signal or key: one more unit is available and the first waiter, and no other thread, has moved from the wait queue to the end of the ready queue |
| `Operations.UnlockMisused` | kernel/sync.c:74-98 | unlocking a free mutex, or another's, panics |
| `Operations.TakeGiveBack` | kernel/sync.c:30-173 | taking and giving back with nobody waiting restores the whole system but for the history counters |
| `Operations.Handover` | kernel/sync.c:30-98 | a thread that finds the mutex locked waits; once the owner has unlocked and yielded it runs again as the owner, the queue empty and the former owner ready |
| `Operations.TryAcquireCall` | kernel/sync.c:55-72 | takes what is available, or changes nothing |
| `Operations.KeyArrives` | drivers/input/keyboard.c:157-189 | a key that finds room is stored and wakes the first waiter at once; one that does not is dropped |
| `Operations.WakesFirst` | kernel/wait_queue.c:98-110 | the first waiter, and no other, moves to the end of the ready queue |
| `Operations.WakesAll` | kernel/wait_queue.c:112-128 | every waiter, in the order they came, moves to the end of the ready queue |
| `Operations.WakeAllCall` | kernel/wait_queue.c:112-128 | the same from the call to the return |
| `Operations.WokenWaitsAgain` | kernel/wait_queue.c:70-96 | a woken thread that finds the resource gone again rejoins the end of the queue and gives up the processor |
| `Operations.ReapsAll` | kernel/thread.c:712-740 | exactly the threads on the zombie queue are freed |
| `Operations.ReapCall` | kernel/thread.c:712-740 | the same from the call to the return |
| `Operations.ScheduleChooses` | kernel/thread.c:597-657 | the first ready thread runs next, else the current one if it still can, else idle; a preempted thread goes to the end of the ready queue, and a fresh slice starts |
| `Operations.YieldCall` | kernel/thread.c:473-475 | a yield, and a sleep of no ticks, call the scheduler and do nothing else |
| `Operations.StartCall` | kernel/thread.c:440-457 | a new thread goes to the end of the ready queue, any other panics, idle is never queued |
| `Operations.CreateAdds` | kernel/thread.c:314-369 | a fresh thread, new or at the end of the ready queue, and no other |
| `Operations.ExitLeaves` | kernel/thread.c:551-573 | the thread ends a zombie on the zombie queue, off the ready queue, with another running |
| `ProtocolInvariant.StepKeeps` | kernel/thread.c:440-740 | every step keeps: queues duplicate-free, disjoint and matching thread states, each blocked or dead thread queued or held by exactly one thread |
| `ProtocolInvariant.ContinueKeeps` | kernel/wait_queue.c:70-128 | the section a thread runs next in a wait, wake, sleep, exit or reap keeps the structure, and the only panic it can raise is the idle thread blocking |
| `ProtocolInvariant.TimerKeeps` | arch/x86/interrupts.c:131-158 | a timer interrupt at any point keeps the structure |
| `ProtocolInvariant.WakeHeldKeeps` | kernel/thread.c:499-514 | thread_wake always finds the popped thread BLOCKED, so the wake is never dropped, and the structure is kept |
| `ProtocolInvariant.ParkKeeps` | kernel/wait_queue.c:70-96 | joining a wait queue, blocking and switching away keeps the structure |
| `ProtocolInvariant.PopWaiterKeeps` | kernel/wait_queue.c:25-48 | taking the first waiter off its queue moves it to its waker's hands and keeps the structure |
| `ProtocolInvariant.FreeZombieKeeps` | kernel/thread.c:712-740 | freeing a reaped thread leaves no reference to it and keeps the structure |
| `ProtocolInvariant.KeyIrqKeeps` | drivers/input/keyboard.c:181-189 | a key arriving at any point keeps the structure |
| `Timing.TickReachedExact` | kernel/thread.c:186-188 | for ticks less than a turn apart the wrapped comparison is right iff they are within half a turn |
| `Timing.LoneSleeperExact` | kernel/thread.c:186-188 | arithmetic of the comparison alone: of the n ticks after the call the last is reached and no earlier one, iff n is at most 2^31 + 1 |
| `Timing.SleepExact` | kernel/thread.c:516-549 | in every run from the start in which nobody sleeps more than 2^31 ticks, a thread that sleeps n ticks is asleep until exactly the n-th following tick and readied by it, over any number of counter wraps |
| `Timing.SleepQueueSorted` | kernel/thread.c:190-229 | in every such run the sleep queue is sorted by true wake time and every wake tick lies ahead |
| `Timing.RunKeepsTime` | kernel/thread.c:186-247 | the timing invariant holds after any sequence of steps from a state that has it |
| `LongSleeps.WakesEarly` | kernel/thread.c:516-549 | from every initial state a lone sleep of 2^31 + 2 ticks or more ends at the first tick |
| `LongSleeps.StarvesAnother` | kernel/thread.c:190-247 | from every initial state, with a sleeper of 2^31 + 1 ticks at the head of the queue, a thread that asked for one tick is still asleep after it |
| `LongSleeps.LongSleepBreaks` | kernel/syscall.c:518-521 | for every count above 2^31 there is a run with a sleep of that count in which some sleeper is not readied at exactly its tick |
| `LongSleeps.SleepsExactIff` | kernel/thread.c:186-247 | all runs whose sleeps are at most N ticks ready every sleeper at exactly its tick, iff N is at most 2^31 |
| `Timing.WakeDueExact` | kernel/thread.c:231-247 | a tick moves exactly the sleepers due at it, in order, to the back of the ready queue |
| `Timing.SleepPosExact` | kernel/thread.c:190-229 | the insertion point is before the first sleeper due no earlier, in unbounded time |
| `Timing.BoundedWaiting` | kernel/thread.c:597-687 | in every run from the start, once preemption is on, the thread at index k of the ready queue is dispatched by exactly the (k+1)-th scheduler call that follows and within k+1 slices of ticks, whatever is created, woken or blocked meanwhile |
| `Timing.StepMovesUp` | kernel/thread.c:663-687 | one step dispatches the thread at index k, moves it up by one, or leaves it, and every tick is paid out of the slice |
| `Timing.StepKeepsSlice` | kernel/thread.c:597-687 | every step, whether or not anybody is ready, leaves the slice not used up, and none turns preemption off |
| `Timing.PreemptionStarts` | kernel/thread.c:693-710 | in every run turning preemption on starts a fresh slice of at least one tick, and from then on preemption stays on and a slice is always running |
| `Slices.TickReachesIff` | kernel/thread.c:663-687 | a tick reaches the scheduler iff a switch was asked for already, a sleeper is due, or preemption is on, somebody is ready and the slice is used up |
| `Slices.QuietTick` | kernel/thread.c:663-687 | a tick that does not reach it leaves the thread running and uses one tick of its slice if others wait |
| `Slices.FreshSlice` | kernel/thread.c:597-657 | whatever calls the scheduler starts a slice at 0 with no switch asked for |
| `Slices.SliceGuaranteed` | kernel/thread.c:597-687 | in every run a thread just chosen keeps the processor while fewer ticks than a slice pass, unless a sleeper comes due, somebody is woken or it calls the scheduler itself |
| `Slices.WakeAsks` | kernel/thread.c:499-573 | a wake-up by a key or a thread, going to sleep, and exiting ask for a switch |
| `Slices.AskStays` | kernel/thread.c:663-687 | the request stands until the scheduler is called |
| `Slices.WakeIsServed` | kernel/thread.c:499-687 | in every run the scheduler is called between such a step and the end of the next timer interrupt |
| `Threads.PushKeepsLinks` | kernel/thread.c:114-131 | the writes of queue_push append to that queue's chain and leave all other chains intact |
| `Threads.PopKeepsLinks` | kernel/thread.c:133-155 | the writes of queue_pop remove the head of that chain and leave all other chains intact |
| `Threads.InsertKeepsLinks` | kernel/thread.c:190-229 | linking between two neighbours inserts at that position and leaves all other chains intact |
| `Threads.AddKeepsLinks` | kernel/thread.c:314-369 | a new thread object leaves every chain intact |
| `Threads.FreeKeepsLinks` | kernel/thread.c:712-740 | freeing a thread object that is on no queue leaves every chain intact |
| `Threads.Scheduler.constructor` | kernel/thread.c:371-422 | two threads, empty queues, boot running |
| `Threads.Scheduler.Push` | kernel/thread.c:114-131 | the queue gains the thread at its end, all others unchanged |
| `Threads.Scheduler.Pop` | kernel/thread.c:133-155 | the queue loses its first thread, or null and no change when empty |
| `Threads.Scheduler.SleepInsert` | kernel/thread.c:190-229 | the thread joins the sleep queue before the first sleeper whose tick has reached its own |
| `Threads.Scheduler.ReadyPush` | kernel/thread.c:157-164 | refines ready_push; idle is never queued |
| `Threads.Scheduler.ZombiePush` | kernel/thread.c:170-176 | refines zombie_push; idle and the boot thread are never queued |
| `Threads.Scheduler.WakeDueSleepers` | kernel/thread.c:231-247 | the loop refines moving every due sleeper at the front to the ready queue |
| `Threads.Scheduler.Schedule` | kernel/thread.c:597-657 | refines the choice of the next thread, with idle as the fallback and a preempted thread requeued |
| `Threads.Scheduler.TimerTick` | kernel/thread.c:663-687 | refines counting the tick, waking sleepers and using up the slice |
| `Threads.Scheduler.WaitPush` | kernel/wait_queue.c:8-23 | the current thread joins the end of the wait queue |
| `Threads.Scheduler.WaitPop` | kernel/wait_queue.c:25-48 | the first waiter, off every queue, or null |
| `Threads.Scheduler.TimerIrq` | arch/x86/interrupts.c:131-158 | refines the timer interrupt: the tick and the switch it asks for |
| `Threads.Scheduler.Block` | kernel/thread.c:477-497 | refines thread_block_current with its two panics |
| `Threads.Scheduler.Wake` | kernel/thread.c:499-514 | refines thread_wake: only a BLOCKED thread becomes ready |
| `Threads.Scheduler.SleepTicks` | kernel/thread.c:516-549 | refines the locked section of thread_sleep_ticks for a positive count |
| `Threads.Scheduler.ExitCurrent` | kernel/thread.c:551-573 | refines the locked section of thread_exit |
| `Threads.Scheduler.NewThread` | kernel/thread.c:314-369 | refines the making of a thread object, NEW and on no queue |
| `Threads.Scheduler.Create` | kernel/thread.c:314-369 | refines thread creation, queued or not |
| `Threads.Scheduler.Start` | kernel/thread.c:440-457 | refines thread_start with its panic |
| `Threads.Scheduler.ZombiePop` | kernel/thread.c:178-180 | refines zombie_pop |
| `Threads.Scheduler.FreeThread` | kernel/thread.c:712-740 | refines the freeing of a reaped thread |
| `Threads.Scheduler.StartPreemption` | kernel/thread.c:693-710 | refines thread_preemption_init |
| `Simulation.Perform` | kernel/thread.c:477-740 | every step of the protocol is carried out on linked queues: from a well-linked memory whose queues are those of the protocol, the writes lead to a well-linked memory whose queues are those of the next state |
| `Simulation.Run` | kernel/thread.c:371-740 | in every run from the start all queues stay well linked over the shared links, no thread is on two, and they hold exactly what the protocol says |
| `HeapSpec.FindFree` | kernel/heap.c:243-253 | the first free block large enough, or none exists |
| `HeapSpec.AllocKeeps` | kernel/heap.c:383-426 | allocating keeps the blocks tiling the heap, aligned and coalesced |
| `HeapSpec.FreeKeeps` | kernel/heap.c:444-470 | freeing keeps the blocks tiling the heap, aligned and coalesced |
| `HeapSpec.CoalesceAroundKeeps` | kernel/heap.c:164-208 | coalescing around a free block repairs the only two pairs of neighbours that can both be free |
| `HeapSpec.AddRegionKeeps` | kernel/heap.c:296-329 | growth keeps tiling and coalescing over the larger region and uses up no block |
| `HeapSpec.Conservation` | kernel/heap.c:86-116 | free payload plus used payload plus 24 bytes per block is the size of the region |
| `HeapSpec.UsedCountAlloc` | kernel/heap.c:383-426 | allocation adds exactly one used block |
| `HeapSpec.UsedCountFree` | kernel/heap.c:444-470 | freeing removes exactly one used block |
| `HeapSpec.AllocFreeRoundTrip` | kernel/heap.c:383-470 | freeing what was just allocated restores the exact block list |
| `HeapSpec.FreeAllAnyOrder` | kernel/heap.c:444-470 | freeing every live allocation once, in any order, leaves one free block covering the heap |
| `HeapSpec.FreeRemovesUsed` | kernel/heap.c:444-470 | freeing a block takes exactly that block out of the live ones; the others keep their place and size |
| `HeapSpec.AllocGood` | kernel/heap.c:383-426 | the block handed out is big enough, split off exactly when 40 bytes or more would be left over, aligned, inside the heap and disjoint from every other block; the blocks live before keep their place and size |
| `HeapSpec.GrowthFits` | kernel/heap.c:331-348 | after growth by enough pages first fit succeeds |
| `Heap.MallocGood` | kernel/heap.c:383-426 | a pointer from kmalloc, with or without growth, is 8-aligned, inside the heap as it then is, at least as long as the request and less than 40 bytes longer, new, and disjoint, header included, from all other blocks; every block live before is still there, as long as it was |
| `Heap.MallocFreeRoundTrip` | kernel/heap.c:383-470 | freeing the pointer kmalloc returned finds its block and restores the exact block list, with the new pages added if the heap grew |
| `Heap.MallocSucceedsIff` | kernel/heap.c:331-426 | a pointer is returned iff the request and its header fit in 32 bits when rounded to pages and a free block is large enough or the new pages can be mapped and end by 0xD2000000; the heap then grows by exactly the whole pages of request and header |
| `Heap.ThreadStackExample` | kernel/thread.c:330 | a thread's stack on the heap as it starts: five new pages |
| `Heap.FailsAfterGrowthIff` | kernel/heap.c:331-416 | kmalloc fails after growth iff growth succeeds and the page count wrapped |
| `Heap.FailsAfterGrowthExample` | kernel/heap.c:331-416 | a request that makes a one-page heap grow and then fail |
| `Heap.GrowPages` | kernel/heap.c:331-348 | the 32-bit page count covers request and header unless it wraps, and then it is 1 |
| `Heap.KernelHeap.constructor` | kernel/heap.c:359-372 | an empty heap at its base address |
| `Heap.KernelHeap.Init` | kernel/heap.c:350-381 | one free block over the first region, or the panic iff the region does not fit or cannot be mapped |
| `Heap.KernelHeap.FindFreeBlock` | kernel/heap.c:243-253 | the walk returns the first fit's header, or null iff there is none |
| `Heap.KernelHeap.SplitBlock` | kernel/heap.c:210-241 | the header writes split the block list as specified and keep it linked |
| `Heap.KernelHeap.CoalesceWithNext` | kernel/heap.c:164-191 | the header writes merge a free block with a free neighbour or change nothing |
| `Heap.KernelHeap.CoalesceAroundBlock` | kernel/heap.c:193-208 | merging with both neighbours as specified |
| `Heap.KernelHeap.InsertBlockSorted` | kernel/heap.c:118-162 | the list gains the block at its place in address order, whichever of the four cases applies |
| `Heap.KernelHeap.AddRegionPages` | kernel/heap.c:296-329 | grows iff the pages fit below the limit and could be mapped; then the list is the specified one, else unchanged |
| `Heap.KernelHeap.Grow` | kernel/heap.c:331-348 | when growth succeeds and what the list then is |
| `Heap.KernelHeap.Kmalloc` | kernel/heap.c:383-426 | result and block list for every request size: null, the three panics, or the first fit before or after growth; when there is a pointer and how far the heap grew, in numbers |
| `Heap.KernelHeap.Kfree` | kernel/heap.c:444-470 | for every pointer: null, outside, no header and double free, a header left behind by a merge included, are told apart and change nothing; else the block is freed and merged |
| `Heap.KernelHeap.ComputeStats` | kernel/heap.c:86-116 | the walk's counts are the true ones and account for every mapped byte |
| `Frames.FirstFree` | kernel/pmm.c:225-256 | the lowest free frame in a range, or none exists |
| `Frames.FreedExact` | kernel/pmm.c:106-162 | the frames freed for a map entry are those wholly inside it iff its bounds are representable |
| `Frames.DroppedExample` | kernel/pmm.c:106-162 | a region ending exactly at 4 GiB is dropped whole |
| `Frames.ReservedExact` | kernel/pmm.c:80-87 | the frames reserved for a range are those it touches iff it does not end in the last page below 4 GiB |
| `Frames.CrossingExample` | kernel/pmm.c:106-162 | a region that crosses 4 GiB loses the last frame below it |
| `Frames.LastPageExample` | kernel/pmm.c:106-162 | 256 bytes in the last page below 4 GiB hold no frame and free nearly all memory |
| `Frames.UnreservedExample` | kernel/pmm.c:80-87 | a two-page range that ends in the last page is not reserved at all |
| `Frames.FreeAtBootExact` | kernel/pmm.c:106-223 | after initialisation a frame is free iff it lies wholly inside an available entry and touches none of the four reserved ranges |
| `Frames.BootKeepsLow` | kernel/pmm.c:164-196 | whatever the map says, no frame below 1 MiB is free |
| `BootMap.MapReadsBack` | kernel/pmm.c:106-162 | the walk over a map laid out in memory, six words an entry, visits exactly its entries in order |
| `BootMap.BootFrees` | kernel/pmm.c:106-223 | after boot with such a map a frame is free iff it lies wholly inside an available entry and touches none of the four reserved ranges |
| `Pmm.UsedKeeps` | kernel/pmm.c:45-48 | setting a frame's bit takes exactly that frame out of the set the bitmap stands for |
| `Pmm.FreeKeeps` | kernel/pmm.c:50-53 | clearing a frame's bit adds exactly that frame |
| `Pmm.ExtendScan` | kernel/pmm.c:260-299 | one step of the run scan: no run ends before the cursor and the run behind it cannot start lower |
| `Pmm.FrameAllocator.MarkUsed` | kernel/pmm.c:55-67 | exactly that frame leaves the free set and the counter stays its size |
| `Pmm.FrameAllocator.MarkFree` | kernel/pmm.c:69-78 | exactly that frame joins the free set and the counter stays its size |
| `Pmm.FrameAllocator.AllocPage` | kernel/pmm.c:225-238 | the lowest free frame from 1 MiB up; after initialisation it fails iff the counter is 0 |
| `Pmm.FrameAllocator.AllocPageBelow` | kernel/pmm.c:241-256 | the lowest free frame whose page ends below the limit, or none exists |
| `Pmm.FrameAllocator.AllocContiguousBelow` | kernel/pmm.c:260-299 | claims exactly n frames of the lowest free run below the limit, and fails iff there is none |
| `Pmm.FrameAllocator.FreePage` | kernel/pmm.c:303-313 | the two panics, or exactly that frame becomes free |
| `Pmm.FrameAllocator.ReserveRange` | kernel/pmm.c:80-87 | the loop takes exactly the reserved frames out of the free set |
| `Pmm.FrameAllocator.FreeRange` | kernel/pmm.c:89-96 | the loop frees exactly the frames between the rounded bounds |
| `Pmm.FrameAllocator.MarkAllUsed` | kernel/pmm.c:98-104 | no frame is free |
| `Pmm.FrameAllocator.Discover` | kernel/pmm.c:106-162 | the walk frees what its entries stand for and nothing else |
| `Pmm.FrameAllocator.Init` | kernel/pmm.c:198-223 | the panics, or exactly the boot-time free set, with nothing below 1 MiB |
| `Paging.Isolation` | kernel/address_space.c:252-345 | a step local to one space changes no user translation of any other |
| `Paging.LocalKeeps` | kernel/address_space.c:219-423 | a step local to one space keeps the invariant of the whole machine once its own space is in order |
| `Paging.Entry` | kernel/address_space.c:33-59 | frame and flags written into an entry are read back from it |
| `Access.TableEntryDecides` | kernel/usercopy.c:8-38 | while every directory entry is open to the user, the table entry alone decides what user code may do |
| `Access.LocalDirsOpen` | kernel/address_space.c:219-423 | a step local to one space closes no other space's directory |
| `PagingSteps.PageFrame` | kernel/address_space.c:252-297 | the frame behind a mapped page is owned by that page alone and is not free |
| `PagingSteps.TableIsEmpty` | kernel/address_space.c:347-381 | with an empty mapping list every entry of every user table is absent |
| `PagingSteps.KernelStepKeeps` | arch/x86/vmm.c:62-175 | a change to the kernel's own tables changes no user translation in any space |
| `AddressSpaces.MappedKeeps` | kernel/address_space.c:252-297 | mapping adds exactly one translation to the space and none to any other, and keeps list, count and tables in agreement |
| `AddressSpaces.MappedAccess` | kernel/address_space.c:219-297 | user code may read, or write, a page just mapped iff the flags say so and its directory entry, if there was one, does |
| `AddressSpaces.PrivateTableHides` | kernel/address_space.c:219-250 | a page mapped for the user behind a table made for a page without the user flag cannot be reached |
| `AddressSpaces.MapResultOpen` | kernel/process.c:341-363 | mapping for the user keeps every directory entry open |
| `AddressSpaces.MapWord` | kernel/address_space.c:33-59 | the word written for each combination of flags |
| `AddressSpaces.UnmappedKeeps` | kernel/address_space.c:299-345 | unmapping removes exactly that translation and frees exactly its frame, not free before |
| `AddressSpaces.UnmapAfterMap` | kernel/address_space.c:252-345 | unmapping undoes mapping for every translation of every space and for the mapping list |
| `AddressSpaces.SharedAgree` | kernel/address_space.c:89-105 | once synced, space and kernel translate alike every page below 16 MiB and from 3 GiB up |
| `AddressSpaces.AddressSpaceTable.GetPhysical` | kernel/address_space.c:425-449 | lookup in the partial map the tables stand for, 0 when absent |
| `AddressSpaces.AddressSpaceTable.GetFlags` | kernel/address_space.c:451-474 | the flags of the page's entry, 0 when absent |
| `AddressSpaces.AddressSpaceTable.GetOrCreateTable` | kernel/address_space.c:219-250 | whether a table is to be had, and the machine with it; what its directory entry lets user code do is `MappedAccess` |
| `AddressSpaces.AddressSpaceTable.MapPage` | kernel/address_space.c:252-297 | succeeds iff addresses are aligned and in user memory, a table is to be had and the page is unmapped; then one translation and one list node are added, else nothing changes |
| `AddressSpaces.AddressSpaceTable.UnmapPage` | kernel/address_space.c:299-345 | succeeds iff the page is mapped; then translation, node and frame go, else nothing changes |
| `AddressSpaces.AddressSpaceTable.RemoveMapping` | kernel/address_space.c:126-150 | the list without its first node for the address |
| `AddressSpaces.AddressSpaceTable.SyncKernelMappings` | kernel/address_space.c:89-105 | all shared slots equal the kernel's and no user translation of any space changed |
| `AddressSpaces.AddressSpaceTable.Switch` | kernel/address_space.c:204-217 | after a switch to a process's space all its shared slots equal the kernel's and no user translation changed; switching to the kernel's writes nothing |
| `AddressSpaces.AddressSpaceTable.Create` | kernel/address_space.c:173-202 | a new space with no user page, all shared slots the kernel's, other spaces untouched; panics iff no frame below 16 MiB is free |
| `AddressSpaces.AddressSpaceTable.Destroy` | kernel/address_space.c:383-423 | never reaches either panic, gives back every frame of the space, each once and none twice, and nothing another owner has |
| `AddressSpaces.AddressSpaceTable.FreeUserPageTables` | kernel/address_space.c:347-381 | every user table goes back exactly once and none is found non-empty |
| `AddressSpaces.AddressSpaceTable.KernelMapPage` | arch/x86/vmm.c:62-144 | error cases, or exactly one kernel translation is added, with the word in numbers, a new table is entered writable, no user translation changes and no frame is lost |
| `AddressSpaces.AddressSpaceTable.KernelUnmapPage` | arch/x86/vmm.c:147-175 | error cases, or exactly one kernel translation is removed and no user translation changes |
| `Boot.BuildIdentityTables` | arch/x86/paging.c:36-62 | the loops leave a directory with four tables whose every entry is the identity |
| `Boot.Identity` | arch/x86/paging.c:44-62 | those tables translate every page below 16 MiB to itself and no other page |
| `Boot.BootInv` | arch/x86/paging.c:122-144 | every frame they use has one owner: the invariant of the machine holds at boot |
| `Boot.Start` | arch/x86/paging.c:122-144 | the table of address spaces made over them is valid |
| `UserMemory.PaInjective` | kernel/address_space.c:425-449 | different user addresses, in one space or two, never share a physical byte |
| `UserMemory.StoredKeeps` | kernel/process.c:422-474 | writing into pages that were unmapped before changes no byte that was mapped before |
| `UserMemory.ProcessMemory.Store` | kernel/process.c:422-445 | exactly the bytes of the range become the data; no other user byte of any space changes |
| `UserMemory.ProcessMemory.Clear` | kernel/process.c:457-474 | exactly the bytes of the range become zero |
| `UserMemory.ProcessMemory.MapUserPage` | kernel/process.c:341-363 | succeeds iff the page is user memory, unmapped, a frame is free and its table is there or a second frame below 16 MiB is; then the user may read and write it; else nothing changes, the frame given back; no frame is lost |
| `UserMemory.CanOpenIff` | kernel/process.c:341-363 | that condition is the one the allocator and the tables decide |
| `UserMemory.ProcessMemory.MapUserRegion` | kernel/process.c:365-392 | on success the pages up to the rounded end were unmapped and the user may now read and write them; on failure the pages before the first that cannot be opened are; the whole range is mapped after success iff it ends at or below 0xFFFFF000; past that the call succeeds and changes nothing; other translations of all spaces are unchanged |
| `UserMemory.RegionMappedIff` | kernel/process.c:365-392 | after the pages up to the rounded end are mapped, the range is mapped iff its end does not round up past 4 GiB |
| `UserMemory.ProcessMemory.MapLastPage` | kernel/process.c:365-392 | a one-byte region in the last page: success, nothing mapped |
| `Elf.HeaderOkIff` | kernel/elf_loader.c:26-92 | accepts exactly the well-formed headers whose program headers lie inside the image, no case by wrap-around; reports as unsupported exactly the ELF files of another kind |
| `Elf.SegmentOkIff` | kernel/elf_loader.c:94-141 | accepts exactly the segments inside image, user memory and 1 MiB that start on a page; tells the unaligned and the too large ones apart |
| `ElfEncoding.PhdrReadsBack` | include/kernel/elf32.h:74-83 | every program header, written as its eight words at its place in the table of any image, is what the loader reads |
| `ElfEncoding.HeaderReadsBack` | include/kernel/elf32.h:51-72 | every file header, written as its 52 bytes at the start of any image, is what the loader reads |
| `ElfEncoding.AcceptsIff` | kernel/elf_loader.c:199-237 | for every image that holds such headers: it is accepted iff it is an executable for this machine with a segment to load all of whose segments can be |
| `ElfLoader.SegmentFilled` | kernel/elf_loader.c:155-197 | mapping, copying and clearing leave the image's bytes followed by zeros and no mapped byte changed |
| `ElfLoader.UnmappedIsOffStack` | kernel/elf_loader.c:231-264 | a segment that could be mapped lies clear of the stack page |
| `ElfLoader.Process.ValidateImage` | kernel/elf_loader.c:199-237 | accepts exactly the images with a good header, good segments and at least one loadable segment |
| `ElfLoader.SegmentClaimed` | kernel/elf_loader.c:252-264 | a segment that was mapped clashed with nothing, and took exactly its pages |
| `ElfLoader.SegmentRefused` | kernel/elf_loader.c:252-264 | a segment that was not has a page already taken, or there is no memory left |
| `ElfLoader.Process.LoadSegment` | kernel/elf_loader.c:155-197 | on success the segment reads back as its file bytes and zeros; else it stopped at a page that cannot be opened; no byte mapped before changes and no frame is lost |
| `ElfLoader.Process.LoadSegments` | kernel/elf_loader.c:252-264 | on success all loadable segments read back at once and the stack page is still zero |
| `ElfLoader.Process.MapStack` | kernel/elf_loader.c:239-250 | on success the stack page is mapped and zero |
| `ElfLoader.Process.Load` | kernel/elf_loader.c:199-275 | a refused image changes nothing; one whose pages clash with each other, the stack or what is mapped fails; any other succeeds iff its entry point is in user memory, unless memory runs out, which two free frames below 16 MiB a page rule out; on success every loadable segment reads back through the page tables, the stack page is zero, the user may read and write them all, entry and stack are set; whatever it returns no byte mapped before in any process changed and no frame is lost |
| `Arguments.ElfStackFits` | include/kernel/elf_loader.h:14-15 | up to 16 strings of under 128 bytes always fit the 4096-byte stack with room for the entry's pushes |
| `Arguments.EspIs` | kernel/process.c:545-580 | where the stack pointer starts, in numbers |
| `Arguments.TableWritten` | user/crt0.S:6-12 | with strings and table in place the program entry sees argc, each argument string, the terminating null and the null environment |
| `Arguments.EntrySeesOne` | user/crt0.S:6-12 | what the entry sees determines the argument list |
| `Arguments.PlacedCons` | kernel/process.c:545-575 | one more string below the others leaves them all in place |
| `Arguments.Measure` | kernel/process.c:552-559 | the length of a string under the limit, or refusal |
| `Arguments.SetupArguments` | kernel/process.c:522-606 | succeeds iff the arguments are within the limits and fit the stack; then the entry reads the same list back from a 4-aligned stack pointer; only the process's own stack changes |
| `Arguments.Prepare` | kernel/elf_loader.c:277-313 | an acceptable image that clashes with nothing is loaded when memory suffices; once loaded every argument list within the limits is accepted, and the process holds its segments, entry point and readable arguments together |
| `Usercopy.RangeAccessible` | kernel/usercopy.c:8-38 | ends on all inputs and accepts exactly the ranges that are empty, or end below 4 GiB with the user bit on every page they touch |
| `Usercopy.OpenIsReadable` | kernel/usercopy.c:8-38 | what the check accepts is what the processor would let the process read |
| `Usercopy.CopyFromUser` | kernel/usercopy.c:40-51 | the bytes the process would read iff the range is accessible |
| `Usercopy.CopyToUser` | kernel/usercopy.c:53-64 | iff the range is accessible exactly its bytes change, on pages the process may reach; else nothing |
| `Usercopy.UserStringLength` | kernel/usercopy.c:66-89 | the length up to the first zero, a fault at the first unreadable byte before it, or too long |
| `Usercopy.CopyUserString` | kernel/syscall.c:19-53 | on success exactly the user's string through its first zero; succeeds whenever a readable string that fits starts there |
| `Processes.RunInv` | kernel/process.c:75-157 | in every run each parent id is 0 or names an older process still in the table, and each waiter waits for a live-tabled child of its own |
| `Processes.DestroyKeeps` | kernel/process.c:799-822 | destroying an exited process keeps this |
| `Processes.WaitKeeps` | kernel/syscall.c:340-379 | starting to wait for a child keeps this |
| `Processes.CreateKeeps` | kernel/program.c:131-135 | creating a process under a live parent keeps this |
| `Processes.WaitsForAcyclic` | kernel/syscall.c:340-379 | following waits-for edges leads to ever younger processes |
| `Processes.NobodyWaitsForItself` | kernel/syscall.c:340-379 | in every run no process waits, directly or through others, for itself |
| `Processes.ParentsFormForest` | kernel/process.c:151-157 | from every process in the table parent links lead to a root over ever smaller ids |
| `Processes.WaiterHasChild` | kernel/syscall.c:340-379 | in every run a waiting process is alive and its child is in the table |
| `Processes.CreatedProcess` | kernel/process.c:114-149 | a new process is running, has an id nobody has and the given parent; the rest of the table is as before |
| `Processes.WaitCollects` | kernel/syscall.c:340-379 | a wait ends only once the child has exited; then no other wait is affected and the child is gone iff its status was delivered: if so exactly it is gone and its children are orphans, else the table is as it was |
| `Processes.WaitRefused` | kernel/syscall.c:340-362 | a wait is refused iff there is no such process, it is the caller, or it is not the caller's child |
| `Processes.KernelCollects` | kernel/process.c:799-822 | the kernel collects an exited process nobody waits for, and no other |
| `Processes.RetryCollects` | kernel/syscall.c:340-379 | an exited child whose status was not delivered can be waited for again, and is then collected |
| `Processes.CollectGone` | kernel/syscall.c:366-378 | the end of a wait, delivered or not, for any waiter and any exited child |
| `Waitpid.FinishWait` | kernel/syscall.c:366-378 | the child leaves the table, and the call returns 0, iff the status pointer is null or accessible, and then the caller reads the exit code there; else the call fails and table and memory are as they were |
| `Waitpid.WaitTarget` | kernel/syscall.c:340-362 | the child to wait for in the linked table, or null in exactly those three cases |
| `ProcessTable.InsertLinked` | kernel/process.c:75-89 | the writes append the process to the linked table |
| `ProcessTable.RemoveLinked` | kernel/process.c:91-112 | the writes remove it, wherever it stands, and leave the rest linked |
| `ProcessTable.Table.constructor` | kernel/process.c:31-40 | an empty table |
| `ProcessTable.Table.FindProcess` | kernel/process.c:647-662 | the first process with the id, or null |
| `ProcessTable.Table.Create` | kernel/process.c:114-157 | the table gains a process with the next id and the given parent |
| `ProcessTable.Table.Insert` | kernel/process.c:75-89 | the table gains the process at its end |
| `ProcessTable.Table.SetParent` | kernel/process.c:151-157 | exactly that process's parent changes |
| `ProcessTable.Table.Destroy` | kernel/process.c:799-822 | panics on a running process, else its children are orphaned and it leaves the table |

## Left out

- The interior of calls that the source does not protect from interrupts on every path: `kmalloc`, `kfree`, process-id
  allocation and process exit are single steps.
- Processor work: context switch frames, loading of page directories, TLB invalidation, descriptor tables, interrupt
  controller and timer programming.
- The temporary switch to a process's address space around a copy; copies go through that space's tables directly, and
  `AddressSpaces.AddressSpaceTable.Switch` shows that switching leaves user translations alone.
- Reuse of the address of a freed thread, address-space, or process object.
- The characters in the keyboard ring, scancode translation and modifiers; the ring is its count and capacity.
- Console, serial and terminal output, logging and statistics other than the heap's, and the counters of usable frames and
  of the highest address.
- `kcalloc`, the file table and the virtual file system, program lookup, kill requests, the monitor and the user programs:
  they would add only easy members.
- The nodes of the mapping lists come from the heap; the heap's own frames are not part of the frame accounting of
  `AddressSpaces`.
- Threads.Scheduler.WaitPush: the idle thread is excluded. The source links it and panics in the same section, so that the
  linked state is never seen.
- Simulation.Run: thread objects are not at address 0 and wait queues are numbered apart from the three queues of the
  scheduler; a new thread object takes the next number as its address.
- Heap.KernelHeap.constructor: the guards against a second `heap_init` and against use before the first are left out.
- Heap.KernelHeap.AddRegionPages: a first region of 2^20 pages or more, whose byte count wraps, is excluded when it could be
  mapped, since that is all of memory.
- AddressSpaces.AddressSpaceTable.MapPage: the frame must be one its caller took from the frame allocator and gave to no one
  else; the source does not check.
- AddressSpaces.AddressSpaceTable.KernelMapPage: called only when the table exists or a frame for it is left, since the
  source would use a null table.
- Usercopy.CopyToUser: no page of the kernel carries the user bit; the source never gives it to one.
- Pmm.FrameAllocator.Discover: the cursor of the memory-map walk must not wrap, because the source would then read memory
  outside the map.
- Processes.RunInv: kernel threads that wait for a process are not in the waits-for relation, since they have no process id.
- Pmm.FrameAllocator.Init: as for `Discover`.
