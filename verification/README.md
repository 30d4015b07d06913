# Verified model of the RT-Thread 4.0.2 kernel core

A Dafny model of the single-processor kernel of RT-Thread: the heap allocators, the scheduler and
thread states, the IPC objects, the timers, and the bounded formatter. `dafny verify dfyconfig.toml`
checks everything.

Functions that update a C structure in place are methods of a class with the same fields. Each is
proved against the new state it promises; what holds over all runs is the class's `Valid()`, which
every method keeps, together with lemmas about it. A region with interrupts disabled is one method,
so any sequence of calls is an interleaving of any number of threads.

| part | files | main results |
|---|---|---|
| memory heap (memheap.c) | Tiling, MemHeapWords, MemHeapSteps, MemHeapOps, MemHeapMerge, MemHeap, SystemHeap | allocation, freeing and reallocation over raw words keep ring, free list and accounting, and refine a set of disjoint live blocks whose contents nobody else touches; several heaps; the live blocks alone determine the heap |
| timers (timer.c, clock.c) | TimerRows, TimerBook, Timer | the skip list of any height stays nested and sorted under wrapping ticks; over any run every timer that is left alone fires exactly when it is due, a periodic one at every period, equal deadlines in the order of their starts; what timeout functions start and stop is started and stopped |
| scheduler (scheduler.c, thread.c, clock.c) | Bitmap, ReadyQueues, RoundRobin, Scheduler | READY is the same as being linked once in the right queue; the two-level bitmap refines a linear search; the best thread runs; round robin is fair |
| mutex (ipc.c) | MutexRules, Mutex | ownership, counting and priority inheritance on top of the scheduler |
| other IPC (ipc.c, mempool.c) | WaitLists, Semaphore, Event, Mailbox, MessageNodes, MessageQueue, MemPool | no lost wake-ups over all interleavings, refinement of queues, conservation of units, nodes and blocks |
| slab (slab.c) | SlabPages, SlabSizes, SlabChunks, SlabState, Slab | a canonical page list, exact zone lists, page descriptors that lead every live pointer home, no overlap |
| small memory (mem.c) | SmallMemWords, SmallMemBlocks, SmallMem | first fit from the lowest free block, and exactly when that block is lost |
| services (kservice.c, rtservice.h) | Lists, Arithmetic, FormatText, Format, Conversions, Memory | bounded output is a prefix of the unbounded one, what every conversion character prints, overlapping moves |

## How the source is represented

- memheap: memory is an array of at most 2^30 4-byte words (the configured alignment), an address is
  an index, and every size is in words, so a header is 6 words and the least allocation 3. Requests are
  in bytes, below 2^32, and are aligned modulo 2^32. A pool has room for two headers and the least
  allocation. `b` and `nb` name the blocks a pointer stands for. The heaps other than the default one
  are tried in the order of the object list.
- timers: absolute time is a ghost number, the tick word is that number modulo 2^32. What a timeout
  function does to the timer list is a list of starts and stops that depends on the timer and on how
  many have fired in this check, and it may be another one at every tick, so every callback of that
  kind is covered. `slack` bounds for how many ticks beyond the deadline a caller of rt_timer_start may
  be held up inside; it is any number that leaves room for the lengths in half the tick range. A mask
  of 1 or 3 is the fan-out 2 or 4.
- bitmap: words and bytes are natural numbers with bit operations defined digit by digit; one word for
  up to 32 priorities, a group word over 32 bytes for up to 256.
- lists: an intrusive list is the sequence of the objects linked in it, except in memheap, in the
  message queue and in the memory pool, where the link words themselves are modelled.
- IPC: the waiting time left is a parameter, negative for ever; a thread that was resumed calls the
  same method again. Thread priorities come in as a function where the scheduler is not part of the
  model. Which node or block a caller holds is given by the ghost sets of the object.
- events: a 32-bit word is the set of its one bits.
- message queue: a message is a sequence of numbers; copying into and out of nodes is a step of its
  own, between two regions with interrupts disabled, as in the source.
- slab: addresses count from the start of the heap, so that a page is 4096 of them; a null pointer is
  -1. The contents of the descriptor table before its first use are arbitrary.
- small memory: header words are three arrays indexed by address; heap_end's own prev word is not kept.
- formatter: a variadic argument is a word and a string, and the conversion decides which is taken; a
  missing one reads as zero. RT_PRINTF_PRECISION is on, RT_PRINTF_LONGLONG and RT_PRINTF_SPECIAL are
  off, as in the source.

## Where the code does less than it says

- memheap.c aligns sizes modulo 2^32. A request of more than 0xFFFFFFFC bytes is served with 12
  (`MemHeapOps.SizesWrap`; `MemHeap.Heap.RoomEnough` says that these are all that get too little), and
  rt_memheap_realloc cuts a block down to 12. For 0xFFFFFFF1 to 0xFFFFFFFC bytes the size test of
  rt_memheap_realloc wraps as well (`MemHeapOps.TestWraps`): if the block behind is free, however small,
  the block seems to grow and its first word is overwritten (`MemHeap.Heap.Overrun`). In all other cases,
  `!Overruns`, Realloc does what its contract says.
- mem.c wraps in the same way (`SmallMem.Aligned`, `SmallMem.SizeWraps`): a request of more than
  0xFFFFFFFC bytes is served with 12, and rt_realloc to such a size frees the block. On a heap of fewer
  than 12 bytes the search of rt_malloc never ends (`SmallMem.SearchEnds`).
- slab.c promises at its head that every power-of-two allocation is aligned to its size and that
  `malloc(0)` is not null. `rt_malloc(0)` is null. Zones and large runs are page-aligned at least, so the
  promise holds up to the page size; beyond, a pointer is aligned exactly if its zone or run is
  (`Slab.Slab.Alignment`), and `Slab.UnalignedPower` is an input for which it is not.
- `lfree` in mem.c is not always the lowest free block after `rt_realloc` has shrunk one:
  `SmallMem.LowestLost` is an input, and `SmallMemBlocks.ShrunkLowest` the exact condition. The search of
  `rt_malloc` misses an exact fit at the very end, and nothing else (`SmallMem.OnlyLastExactFitMissed`).
- Octal conversions print hexadecimal digits, because `divide` knows base 10 and everything else: they
  are right exactly for numbers below 8 (`FormatText.OctalIff`). A precision of 0 suppresses the digits of
  any number.
- `rt_timer_start` reads the tick between two regions. A caller held up in between for fewer ticks than
  the timer's length links a timer that fires on time; one held up for as long or longer links one that fires
  at the next tick (`TimerList.Timers.StartThenRun` says both).
- `rt_mutex_release` without waiters gives the owner its own priority back without calling the scheduler
  (`Mutex.Mutex.Release`: the current thread stays the same), so a ready thread that is better than that
  priority has to wait for the next call.
- `rt_sem_release` does not guard its 16-bit value, which wraps at 65535 exactly if nobody waits
  (`Semaphore.Semaphore.Release`), and the time slice of a thread created with 0 ticks wraps
  (`Scheduler.Scheduler.Slice`).

## Model

| member | source | states |
|---|---|---|
| `MemHeap.Heap.constructor` | rt-thread/src/memheap.c:50-121 | rt_memheap_init makes one free block and the tailer; available, maximum and both lists are in order, and no word outside the pool and the list header changes |
| `MemHeap.Heap.Alloc` | rt-thread/src/memheap.c:138-281 | for any 32-bit size: fails exactly if the size, aligned modulo 2^32, is not below the available room or no listed block has room for it; otherwise hands out the first fit of the free list, split exactly when a header and the least room are left over, so that it is never larger than that, as a block nobody had; the rest, if any, is put at the front of the free list; every other block keeps its words; keeps the whole heap invariant |
| `MemHeap.Heap.RoomEnough` | rt-thread/src/memheap.c:147-150 | a block given for a request has room for it exactly if the size is at most 0xFFFFFFFC, above which aligning it wraps to 0 |
| `MemHeapOps.SizesWrap` | rt-thread/src/memheap.c:300-303 | two inputs: 0xFFFFFFFF is served with the least block, and for 0xFFFFFFF4 the sum in the size test of a growing rt_memheap_realloc is 0 |
| `MemHeapOps.TestWraps` | rt-thread/src/memheap.c:350-350 | that sum wraps exactly for the sizes from 0xFFFFFFF1 to 0xFFFFFFFC |
| `MemHeap.Heap.Free` | rt-thread/src/memheap.c:495-595 | exactly the given block leaves the live set and its free neighbours are merged on both sides; the free list loses the block behind and gets the freed block at its front, unless it went to a listed block before it; what every other block holds stays; keeps the invariant (ring, free list, no neighbouring free blocks) |
| `MemHeap.Heap.Realloc` | rt-thread/src/memheap.c:284-492 | for any 32-bit size but those of Overrun: says exactly when it fails, and then nothing has changed; the pointer stays exactly if the block is large enough or can grow in place, and the block then has exactly the new size unless too little is left over to be split off; otherwise the first fit is given; never more than a header and the least room too much; the first min(old, new) words are preserved, all other live blocks keep their words; the running maximum counts the moment when both blocks were in use |
| `MemHeap.Heap.TryGrow` | rt-thread/src/memheap.c:315-403 | where its size test does not wrap: grows in place exactly if the block behind is free and large enough; the block takes it over and gives back the rest |
| `MemHeap.Heap.Overrun` | rt-thread/src/memheap.c:350-401 | where the size test wraps and the block behind is free: the pointer comes back as if the block had grown, its first word has been overwritten by a link of a header made inside the block's own, and the available room is wrong |
| `MemHeap.Heap.Shrink` | rt-thread/src/memheap.c:432-491 | splits the end off a used block, merges it with a free block behind it and lists it; the block keeps its words |
| `MemHeap.Heap.Move` | rt-thread/src/memheap.c:405-417 | allocates, copies and frees; fails exactly if allocation does, and leaves all as it was |
| `MemHeap.Heap.FindFree` | rt-thread/src/memheap.c:166-180 | the walk over the free list stops at the first block with room, or says there is none |
| `MemHeap.Heap.Coalesce` | rt-thread/src/memheap.c:537-590 | merging left, then right, then listing restores the invariant from any state with one block freed; available grows by the headers saved |
| `MemHeap.Heap.CopyWords` | rt-thread/src/kservice.c:210-280 | rt_memcpy on word-aligned buffers, unrolled by four, copies the words and touches no others |
| `MemHeapOps.AllocWholePath` | rt-thread/src/memheap.c:237-257 | taking a block whole keeps both lists and removes just its room from the free sum |
| `MemHeapOps.CarvedShape` | rt-thread/src/memheap.c:187-235 | splitting a block keeps the tiling, the least sizes and the absence of neighbouring free blocks |
| `MemHeapSteps.UnlinkStep` | rt-thread/src/memheap.c:212-216 | the two link writes of an unlink take just that node out of the free ring, keep the block ring and all rooms |
| `MemHeapSteps.PushStep` | rt-thread/src/memheap.c:579-585 | the four link writes of an insertion put the block at the head of the free ring and keep everything else |
| `MemHeapSteps.SplitStep` | rt-thread/src/memheap.c:200-210 | writing the new header and two links replaces one block of the ring by two |
| `MemHeapSteps.JoinStep` | rt-thread/src/memheap.c:549-551 | two link writes replace two blocks of the ring by one |
| `MemHeapMerge.MergeLeftShape` | rt-thread/src/memheap.c:540-556 | giving a freed block to the free block before it keeps the tiling and adds one header to the free sum |
| `MemHeapMerge.MergeRightShape` | rt-thread/src/memheap.c:559-577 | the same for the free block behind it, which leaves the free list |
| `Tiling.Canonical` | rt-thread/src/memheap.c:537-590 | coalescing is complete: two tilings without neighbouring free blocks that have the same used blocks are the same, so the live blocks alone determine the heap |
| `SystemHeap.Boot` | rt-thread/src/memheap.c:601-608 | any number of heaps set up side by side in one memory start out valid and empty, later ones leaving earlier ones alone |
| `SystemHeap.Heaps.constructor` | rt-thread/src/memheap.c:601-608 | valid heaps in one memory that own disjoint words make a valid system heap |
| `SystemHeap.Heaps.Malloc` | rt-thread/src/memheap.c:610-647 | for any 32-bit size: the first heap in order that can serve the aligned size does; it fails exactly if none can, and then nothing has changed |
| `SystemHeap.Heaps.Free` | rt-thread/src/memheap.c:650-653 | the block goes back to the heap its own header names, all other blocks of all heaps keep their bytes |
| `SystemHeap.Heaps.Realloc` | rt-thread/src/memheap.c:656-695 | for any 32-bit size but those of MemHeap.Heap.Overrun: the pointer stays exactly if its own heap can keep the block in place; another heap is taken exactly if its own has nothing, and then the first in order that has; fails exactly if none can serve it, leaving everything as it was; preserves the first min(old, new) words also across heaps, gives at most a header and the least room too much, and leaves all other heaps alone |
| `SystemHeap.HeapOkElsewhere` | rt-thread/src/memheap.c:610-647 | a heap is not affected by writes to words that another heap owns |
| `TimerList.Timers.Init` | rt-thread/src/timer.c:80-105 | a new timer is inactive and in no row |
| `TimerList.Timers.Start` | rt-thread/src/timer.c:296-393 | the timer leaves every row and is put into the last rows, as many as its start number says, in each right behind the timers that are due no later; the history gets one new start |
| `TimerList.Timers.Link` | rt-thread/src/timer.c:326-393 | the second region of rt_timer_start, with a timeout read earlier, be its deadline to come, there already, or over by no more than the slack: the timer goes behind all that are due no later, and the history gets the start |
| `TimerList.Timers.Stop` | rt-thread/src/timer.c:422-447 | refuses exactly an inactive timer, otherwise takes it out of every row and cancels its start |
| `TimerList.Timers.Search` | rt-thread/src/timer.c:342-370 | the row-by-row search finds in every row the place a linear scan would |
| `TimerList.Timers.Insert` | rt-thread/src/timer.c:376-391 | the timer goes into the bottom rows, one more for each zero digit of the start number |
| `TimerList.Timers.Check` | rt-thread/src/timer.c:494-553 | ends; the timers that fire are different ones, were due, and are recorded in this order; a timer that none of the functions that ran touched fired exactly if it was due, is then out or, if periodic, waits for its next period, and is untouched otherwise; a timer that some function started or stopped waits from this tick on, or is out with its start cancelled, as the last command about it said, the timer's own function included |
| `TimerList.Timers.TickIncrease` | rt-thread/src/clock.c:72-100 | one tick with its check, of which it says the same |
| `TimerList.Timers.Run` | rt-thread/src/timer.c:494-553 | over any run of ticks, starts and stops, with other timeout functions at every tick: every start of a timer that nobody touches meanwhile fires exactly when it is due, a periodic timer that waits for tick d fires at d and at every period after it, a timer whose last start is in the run fires its length after that, and one that is stopped last is out |
| `TimerList.Timers.TickThenRun` | rt-thread/src/timer.c:523-527 | a timer that a timeout function starts, and that is left alone from then on, fires exactly its length later, over any run |
| `TimerList.Timers.Perform` | rt-thread/src/timer.c:523-524 | a timeout function takes effect command by command: the last one about a timer decides whether it waits, from this tick on and activated, or is out |
| `TimerList.Timers.StartThenRun` | rt-thread/src/timer.c:296-393 | what becomes of a timer that is started and then left alone, across any number of tick wraps and with its starter held up between the two regions of rt_timer_start: it fires its length after the start exactly if its starter was held up for fewer ticks than that, and otherwise at the first tick after it was linked; a periodic one fires at every period from then on |
| `TimerList.Timers.FiresOnTime` | rt-thread/src/timer.c:506-523 | at any moment between ticks a start that was linked before its deadline and not cancelled has fired exactly if its deadline has come, and it fired at the deadline |
| `TimerList.Timers.FiresWhenDue` | rt-thread/src/timer.c:506-523 | the same for every start, when its starter was held up too: late ones fire at the first tick after they were linked |
| `TimerList.BeatOn` | rt-thread/src/timer.c:532-541 | one step at which nobody else starts or stops a periodic timer keeps: it has fired at the first k ticks of its beat and waits for the next |
| `TimerList.Timers.RowsNest` | rt-thread/src/timer.c:376-391 | every row is a subsequence of the row below, for any number of levels |
| `TimerList.Timers.NextTimeout` | rt-thread/src/timer.c:108-119 | the deadline of a pending timer that is due no later than any other, or RT_TICK_MAX |
| `TimerList.UnlinkedRows` | rt-thread/src/timer.c:121-129 | _rt_timer_remove keeps all rows sorted and nested |
| `TimerList.InsertedRows` | rt-thread/src/timer.c:376-391 | inserting at the places found keeps all rows sorted by deadline |
| `TimerBook.OnTime` | rt-thread/src/timer.c:494-553 | the history invariant implies that every start that is not cancelled fires when it is due, neither early nor late |
| `TimerBook.InOrder` | rt-thread/src/timer.c:354-366 | timers that were linked no later than their deadline fire in the order of their deadlines, those due at the same tick in the order of their starts; no start fires twice |
| `TimerBook.BegunOk` | rt-thread/src/timer.c:296-393 | a start keeps the history invariant |
| `TimerBook.FiringOk` | rt-thread/src/timer.c:512-523 | firing the head timer of a check keeps it |
| `TimerBook.TickOk` | rt-thread/src/clock.c:72-100 | so does the tick |
| `TimerRows.SinceIs` | rt-thread/src/timer.c:359-366 | the wrapping 32-bit comparison agrees with real time while the ticks are less than half the range apart |
| `TimerRows.PlaceIsUnique` | rt-thread/src/timer.c:342-370 | there is one place only behind all timers due no later, so any correct search finds the same |
| `TimerRows.SortedBelow` | rt-thread/src/timer.c:376-391 | two rows sorted by deadline, one contained in the other: the smaller is a subsequence |
| `TimerRows.HeightIs` | rt-thread/src/timer.c:376-391 | a timer reaches j rows above the last exactly if its start number is divisible by the j-th power of the fan-out |
| `Bitmap.FfsIs` | rt-thread/src/kservice.c:1286-1330 | the table-driven search finds the lowest set bit of any 32-bit word, counted from 1, and 0 for none |
| `Bitmap.LowestIs` | rt-thread/src/kservice.c:1286-1304 | each entry of the table is the lowest set bit of its byte |
| `Bitmap.MarkIs` | rt-thread/src/scheduler.c:733-737 | marking a priority marks it and no other, in the one-word and in the two-level form |
| `Bitmap.ClearIs` | rt-thread/src/scheduler.c:818-831 | clearing it clears it and no other, and the group bit goes exactly when the byte is empty |
| `Bitmap.HighestIs` | rt-thread/src/scheduler.c:162-183 | the two-level lookup finds the smallest marked priority of up to 256 |
| `ReadyQueues.ReadyMeansQueued` | rt-thread/src/scheduler.c:708-742 | a thread is READY exactly when it is linked, once, in the queue of its current priority, and in no other queue |
| `ReadyQueues.LookupIs` | rt-thread/src/scheduler.c:162-183 | the lookup finds a nonempty queue as good as any ready thread's, and nothing only if no thread is ready |
| `ReadyQueues.EnqueuedOk` | rt-thread/src/scheduler.c:708-742 | linking a thread in flux keeps queues, bitmap and states consistent |
| `ReadyQueues.RemovedOk` | rt-thread/src/scheduler.c:805-835 | unlinking it does |
| `Scheduler.Scheduler.constructor` | rt-thread/src/scheduler.c:191-240 | empty queues and bitmap are consistent, for 1 to 256 priorities |
| `Scheduler.Scheduler.Create` | rt-thread/src/thread.c:117-209 | a new thread is in no queue |
| `Scheduler.Scheduler.Begin` | rt-thread/src/scheduler.c:246-276 | the first thread of the queue of the best priority comes out of it and runs |
| `Scheduler.Scheduler.InsertThread` | rt-thread/src/scheduler.c:708-742 | the current thread only becomes running again; any other is appended to the queue of its priority and marked |
| `Scheduler.Scheduler.RemoveThread` | rt-thread/src/scheduler.c:805-835 | the thread leaves its queue, and the mark goes when that is empty |
| `Scheduler.Scheduler.Schedule` | rt-thread/src/scheduler.c:418-538 | unless the scheduler is locked, nobody is ready or the running thread may stay, the first thread of the best ready priority comes out of its queue and runs, and a thread that was still running becomes the last of its queue; nobody else and no other queue is affected; afterwards no ready thread is better |
| `Scheduler.SwitchedGivesWay` | rt-thread/src/scheduler.c:460-538 | the switch makes what was the queue, with the thread that gave way behind it, into the thread that runs now with the queue behind it |
| `Scheduler.Scheduler.Startup` | rt-thread/src/thread.c:289-321 | the thread is suspended with its initial priority, goes to the end of its queue, and the scheduler is called if it runs |
| `Scheduler.Scheduler.Suspend` | rt-thread/src/thread.c:715-754 | succeeds exactly for a ready or running thread, which is then in no queue |
| `Scheduler.Scheduler.Resume` | rt-thread/src/thread.c:764-798 | succeeds exactly for a suspended thread, which becomes ready as the last of the queue of its priority, all other queues unchanged; the current thread goes on running |
| `Scheduler.Scheduler.Timeout` | rt-thread/src/thread.c:807-829 | the thread gets a timeout error, becomes ready as the last of its queue, and the scheduler is called |
| `Scheduler.Scheduler.ChangePriority` | rt-thread/src/thread.c:630-671 | a ready thread leaves its queue and becomes the last of its new one; any other keeps its place; nobody else is affected |
| `Scheduler.Scheduler.Close` | rt-thread/src/thread.c:332-369 | the thread leaves every queue, is closed, and waits for the idle thread if it is not a system object; nobody else is affected |
| `Scheduler.Scheduler.Exit` | rt-thread/src/thread.c:80-115 | the running thread closes itself and the best ready thread runs |
| `Scheduler.Scheduler.EnterCritical` | rt-thread/src/scheduler.c:878-893 | counts the nesting |
| `Scheduler.Scheduler.ExitCritical` | rt-thread/src/scheduler.c:940-965 | schedules exactly when the outermost section is left, so that the best thread runs again |
| `Scheduler.Scheduler.Slice` | rt-thread/src/clock.c:79-96 | one tick less is left of the slice, 0 wrapping; at its end there is a fresh one, the thread is to yield and the scheduler is called, whether locked or not and whatever the others' slices; with fresh slices this is the simple turn-taking rule |
| `Scheduler.Scheduler.SliceTimes` | rt-thread/src/clock.c:79-96 | so do any number of ticks in a row |
| `Scheduler.Scheduler.TakeTurns` | rt-thread/src/clock.c:79-96 | on the scheduler itself: after the slices of the first k threads and i ticks more, the next thread runs and has the rest of its slice left |
| `RoundRobin.Fair` | rt-thread/src/clock.c:79-96 | in one cycle every thread runs once, for exactly its slice |
| `RoundRobin.Cycle` | rt-thread/src/clock.c:79-96 | after one cycle everything is as it was |
| `Mutex.Mutex.constructor` | rt-thread/src/ipc.c:530-550 | a new mutex is free |
| `Mutex.Mutex.Take` | rt-thread/src/ipc.c:654-779 | granted at once exactly if it is free or already held by the caller; times out at once exactly if it is taken and the caller will not wait; otherwise the caller sleeps in order of priority, the owner has the better priority of the two, nobody else's priority or sleep changes, and the best ready thread runs |
| `Mutex.Mutex.Return` | rt-thread/src/ipc.c:755-778 | a thread that waited has the mutex exactly if it reports no error |
| `Mutex.Mutex.Expire` | rt-thread/src/ipc.c:654-779 | a waiter whose time is over leaves the list and wakes with a timeout error; nobody else's sleep and nobody's priority changes; the best thread runs |
| `Mutex.Mutex.Release` | rt-thread/src/ipc.c:790-881 | refuses exactly a thread that is not the owner, whose error it sets; the last release restores the owner's priority and hands the mutex to the best waiter, the first to come among equals, which wakes, and then the best thread runs; without waiters nobody else does |
| `Mutex.Mutex.SuspendElsewhere` | rt-thread/src/thread.c:715-755 | suspending any thread for another reason keeps the mutex invariant |
| `Mutex.Mutex.ResumeElsewhere` | rt-thread/src/thread.c:764-800 | so does resuming a thread that does not wait for the mutex |
| `Mutex.Mutex.NoInversion` | rt-thread/src/ipc.c:721-729 | while the owner is ready or runs, no thread with a worse priority than a waiter runs |
| `MutexRules.NoWaiterIsBetter` | rt-thread/src/ipc.c:721-729 | in every reachable state the owner's priority is at least as good as every waiter's |
| `MutexRules.FreeMeansUnheld` | rt-thread/src/ipc.c:530-550 | value 1, no owner and hold 0 are the same; hold is the number of the owner's unmatched takes, and nobody else has any |
| `MutexRules.SuspendedFine` | rt-thread/src/ipc.c:715-753 | waiting with inheritance keeps the invariant |
| `MutexRules.ExpiredFine` | rt-thread/src/ipc.c:654-779 | so does a timeout |
| `MutexRules.HandedOverFine` | rt-thread/src/ipc.c:833-861 | so does the hand-over |
| `MutexRules.FreedFine` | rt-thread/src/ipc.c:862-871 | so does the last release when nobody waits |
| `MutexRules.ElsewhereFine` | rt-thread/src/thread.c:715-798 | so does whatever threads do that are not in the mutex |
| `Semaphore.Semaphore.Take` | rt-thread/src/ipc.c:324-408 | takes a unit exactly if there is one; otherwise times out or waits at the place its flag says |
| `Semaphore.Semaphore.Return` | rt-thread/src/ipc.c:398-404 | a thread that waited has a unit exactly if it reports no error |
| `Semaphore.Semaphore.Release` | rt-thread/src/ipc.c:433-471 | a unit goes to the first waiter, or else to the value; it is lost, with all others, exactly if nobody waits and the 16-bit value is 65535 |
| `WaitLists.GiveUpOrSleep` | rt-thread/src/ipc.c:80-123 | a thread that cannot be served gives up exactly if no time is left, and otherwise is put in its list at the place the flag says; no wake-up is lost by it |
| `Semaphore.Semaphore.Reset` | rt-thread/src/ipc.c:483-515 | all waiters fail; a unit already handed to a thread stays with it |
| `Semaphore.Semaphore.UnitsConserved` | rt-thread/src/ipc.c:324-471 | units are neither made nor lost, and while a thread waits none lies idle |
| `Event.Event.Send` | rt-thread/src/ipc.c:1029-1111 | the suspended threads have their turns in the order of the list: with the flags that are set at that moment each is served exactly if they are all, or some, of those it waits for, gets those, and clears what it waited for exactly if it says so; the others keep their order and their wishes, and none of them waits for what is left |
| `Event.Event.Receive` | rt-thread/src/ipc.c:1127-1237 | receives at once exactly if all, or some, of the flags are set; gets just those; afterwards the flags it asked for are cleared exactly if it says so; otherwise refused, timed out or waiting at its place, with no flag changed |
| `Event.Event.Reset` | rt-thread/src/ipc.c:1249-1277 | no flags and no waiters |
| `Event.ServedRight` | rt-thread/src/ipc.c:1046-1099 | after the walk no waiter's condition is satisfied by what is left, everyone served got what he asked for, and what was received with the clear option is no longer set |
| `Event.ServedInTurn` | rt-thread/src/ipc.c:1046-1099 | the flags at every thread's turn: it is served exactly if there is enough for it, they lose what it cleared and nothing else, and those who are not served stay in order |
| `Event.ClearedByServed` | rt-thread/src/ipc.c:1064-1099 | a flag disappears only by being received with the clear option |
| `Mailbox.Mailbox.Send` | rt-thread/src/ipc.c:1442-1561 | sends exactly if there is room: the mail is appended and one receiver resumed; keeps the absence of lost wake-ups for both lists |
| `Mailbox.Mailbox.Receive` | rt-thread/src/ipc.c:1590-1714 | receives exactly if there is a mail, the oldest one, and resumes one sender |
| `Mailbox.Mailbox.NobodySleepsInVain` | rt-thread/src/ipc.c:1442-1714 | once all resumed threads have looked again, a suspended receiver means an empty mailbox and a suspended sender a full one |
| `Mailbox.RingPut` | rt-thread/src/ipc.c:1535-1542 | writing at the in-offset appends to the queue that the ring stands for |
| `Mailbox.RingGet` | rt-thread/src/ipc.c:1684-1691 | reading at the out-offset takes the first of it |
| `Mailbox.SlotIsModulo` | rt-thread/src/ipc.c:1535-1542 | the in-offset is the out-offset plus the entries, modulo the size |
| `WaitLists.TookOk` | rt-thread/src/ipc.c:1442-1714 | taking one keeps: while threads are suspended, no more is available than threads are on their way to it |
| `WaitLists.ResumedOk` | rt-thread/src/ipc.c:134-152 | so does adding one and resuming the first thread |
| `WaitLists.SleptOk` | rt-thread/src/ipc.c:80-123 | so does being suspended at the place of the list's order |
| `MessageQueue.MessageQueue.constructor` | rt-thread/src/ipc.c:1781-1831 | all nodes are free, in one chain |
| `MessageQueue.MessageQueue.SendBegin` | rt-thread/src/ipc.c:1975-2083 | takes a free node exactly if there is one and the message is not too long |
| `MessageQueue.MessageQueue.SendCopy` | rt-thread/src/ipc.c:2085-2088 | copying into a taken node is seen by nobody else |
| `MessageQueue.MessageQueue.SendLink` | rt-thread/src/ipc.c:2090-2125 | the message is appended at this moment, and one receiver resumed |
| `MessageQueue.MessageQueue.UrgentLink` | rt-thread/src/ipc.c:2194-2225 | an urgent message is put in front |
| `MessageQueue.MessageQueue.ReceiveBegin` | rt-thread/src/ipc.c:2240-2352 | takes the first message exactly if there is one |
| `MessageQueue.MessageQueue.ReceiveEnd` | rt-thread/src/ipc.c:2357-2384 | its node is free again, and one sender resumed |
| `MessageQueue.MessageQueue.Reset` | rt-thread/src/ipc.c:2397-2445 | all queued nodes become free; copies under way are not disturbed |
| `MessageQueue.MessageQueue.NobodySleepsInVain` | rt-thread/src/ipc.c:1975-2384 | once all resumed threads have looked again, a suspended receiver means an empty queue and a suspended sender that no node is free |
| `MessageQueue.MessageQueue.NodesConserved` | rt-thread/src/ipc.c:1815-1822 | queue, free list and copies under way add up to all nodes; entry is the queue length, head is null exactly if tail is |
| `MessageNodes.Conserved` | rt-thread/src/ipc.c:1815-1822 | a partition of the nodes counts each once |
| `MemPool.MemPool.constructor` | rt-thread/src/mempool.c:77-124 | all blocks are threaded, in order |
| `MemPool.MemPool.Alloc` | rt-thread/src/mempool.c:303-391 | the first block of the free list, which nobody has, exactly if one is free; otherwise times out, or waits in front of all others |
| `MemPool.MemPool.Free` | rt-thread/src/mempool.c:399-449 | the block is the first of the free list again and the first waiter is resumed |
| `MemPool.MemPool.Accounted` | rt-thread/src/mempool.c:303-449 | every block is free or handed out, once; once all resumed threads have looked again, a waiter means that no block is free |
| `SlabPages.PagesDetermine` | rt-thread/src/slab.c:236-322 | the page list is canonical: the set of free pages determines it |
| `SlabPages.TakenIs` | rt-thread/src/slab.c:236-270 | the first run that is long enough gives its first pages; exactly these are no longer free |
| `SlabPages.FreedIs` | rt-thread/src/slab.c:272-322 | exactly the given pages become free; runs that touch are merged on the left, on the right or on both sides |
| `SlabPages.PageHeap.constructor` | rt-thread/src/slab.c:327-334 | the whole heap is one run of free pages |
| `SlabPages.PageHeap.PageAlloc` | rt-thread/src/slab.c:236-270 | fails exactly if no run is long enough |
| `SlabPages.PageHeap.PageFree` | rt-thread/src/slab.c:272-322 | the loop does what FreedIs states |
| `SlabPages.FreedRestores` | rt-thread/src/slab.c:236-322 | freeing what was just allocated restores the identical list |
| `SlabSizes.ZoneIndexIs` | rt-thread/src/slab.c:401-459 | zoneindex picks the smallest chunk size that fits and wastes at most seven bytes or an eighth |
| `SlabSizes.SizesGrow` | rt-thread/src/slab.c:401-459 | chunk sizes grow with the index, so index and chunk size determine each other |
| `SlabSizes.ZoneIndexTwice` | rt-thread/src/slab.c:712-728 | rounding a rounded size changes nothing, as rt_realloc relies on |
| `SlabSizes.ZoneHolds` | rt-thread/src/slab.c:628-646 | every zone has room for at least three chunks behind its header |
| `SlabSizes.AlignedIff` | rt-thread/src/slab.c:628-648 | a power-of-two chunk is aligned to its size exactly if its zone is, which a zone always is up to the page size |
| `Slab.Slab.Alignment` | rt-thread/src/slab.c:152-153 | every pointer that is held for a power-of-two request, small or large, is aligned to it exactly if the first address of its zone or run is, and always up to the page size |
| `SlabState.AlignedIffHome` | rt-thread/src/slab.c:628-648 | the same for the descriptors, zones and runs as values |
| `Slab.UnalignedPower` | rt-thread/src/slab.c:495-500 | an input on which the promise fails: on a new heap of 64 pages the pointer given for 8192 bytes is at 4096, and the heap holds just that |
| `SlabChunks.HeldCount` | rt-thread/src/slab.c:836-856 | z_nfree counts the chunks nobody holds, and a zone is wholly free exactly if it equals z_nmax |
| `SlabChunks.HandOut` | rt-thread/src/slab.c:539-568 | the chunk handed out was held by nobody; it is a new one as long as there is one |
| `SlabChunks.TakeBack` | rt-thread/src/slab.c:826-846 | exactly the given chunk is held no more |
| `Slab.Slab.constructor` | rt-thread/src/slab.c:344-395 | the page descriptors take the first pages, all others are free |
| `Slab.ZoneSizeFor` | rt-thread/src/slab.c:374-377 | the zone size doubles until it is the largest or reaches a share of the heap |
| `Slab.Slab.Malloc` | rt-thread/src/slab.c:478-667 | fails exactly if no zone has a chunk, no zone is spare and no run of pages is long enough (or, for a large request, the last); otherwise gives a pointer nobody holds, with the room of its size class or of its pages: of the first zone listed for its index, or else of the first spare zone, or else of a new one with the first pages that do; keeps the invariant that a zone is listed for its index exactly if it is active and has a chunk to give |
| `Slab.Slab.WrappedIsRefused` | rt-thread/src/slab.c:495-500 | a size that wraps when it is rounded up to pages is refused, as the contract of Malloc says without wrapping |
| `Slab.Slab.Free` | rt-thread/src/slab.c:771-904 | exactly the given pointer is no longer held; its descriptor leads to its own zone or pages; a zone of which nobody holds a chunk any more, unless it is alone in its list, becomes spare, or gives back its pages when there are two spare ones; all other zones stay as they are |
| `Slab.Slab.FreeChunk` | rt-thread/src/slab.c:823-900 | the zone case of this |
| `Slab.Slab.FreeLarge` | rt-thread/src/slab.c:797-820 | exactly its pages are free again, and its descriptor says 0 pages |
| `Slab.Slab.Realloc` | rt-thread/src/slab.c:678-735 | stays exactly if the size class is the same; otherwise moves to a block of the new size class, copies the smaller of the two sizes, and frees the old one; on failure nothing has changed |
| `SlabState.LeadsHome` | rt-thread/src/slab.c:795-828 | the page descriptor of any live pointer leads rt_free to its own zone, of which it is a held chunk, or tells the exact pages of its own run |
| `SlabState.NoOverlap` | rt-thread/src/slab.c:478-667 | no byte belongs to two live pointers |
| `SlabState.ClaimZone` | rt-thread/src/slab.c:601-622 | new pages with their descriptors make a zone of which nobody holds a chunk |
| `SlabState.ReleaseZone` | rt-thread/src/slab.c:876-900 | an empty zone gives back its pages |
| `SlabState.ListsStep` | rt-thread/src/slab.c:838-874 | what one operation does to the zone lists keeps them exact |
| `SmallMem.SmallHeap.constructor` | rt-thread/src/mem.c:204-257 | one free block between the two ends |
| `SmallMem.SmallHeap.Malloc` | rt-thread/src/mem.c:272-410 | for any 32-bit size: fails exactly if it is 0, larger than the heap once aligned modulo 2^32, or no block passes the search; otherwise hands out the first that does, split exactly when enough is left over; keeps the tiling, no neighbouring free blocks, used_mem as the total extent of used blocks, and lfree as the lowest free block |
| `SmallMem.SmallHeap.Free` | rt-thread/src/mem.c:546-609 | exactly the block is freed and joined with both neighbours; keeps the same, lfree included |
| `SmallMem.SmallHeap.Realloc` | rt-thread/src/mem.c:421-510 | for any 32-bit size: says exactly when it fails, and then nothing has changed; frees the block exactly if the aligned size is 0, which it also is above 0xFFFFFFFC; stays exactly if the size is the same or enough is left over to be split off, with exactly the new size, and otherwise moves to the block that rt_malloc would give; says what used_mem and its maximum are, and exactly when lfree stays the lowest free block |
| `SmallMem.Aligned` | rt-thread/src/mem.c:289-297 | RT_ALIGN on 32 bits: the result is at least the size exactly for sizes up to 0xFFFFFFFC, and 0 above |
| `SmallMem.SizeWraps` | rt-thread/src/mem.c:289-297 | an input: 0xFFFFFFFF is aligned to 0 and served with 12 bytes |
| `SmallMem.SearchEnds` | rt-thread/src/mem.c:305-306 | the bound of the search lies beyond the end of the heap exactly if the heap is smaller than the request, which the least request can only meet on heaps below 12 bytes |
| `SmallMem.SmallHeap.PlugHoles` | rt-thread/src/mem.c:156-194 | joins a free block with both neighbours and moves lfree with them |
| `SmallMem.OnlyLastExactFitMissed` | rt-thread/src/mem.c:305-314 | the search passes over a free block that is large enough exactly if it is an exact fit at the very end of the heap |
| `SmallMem.LowestLost` | rt-thread/src/mem.c:471-498 | an input on which shrinking loses the lowest free block |
| `SmallMemBlocks.ShrunkLowest` | rt-thread/src/mem.c:471-498 | shrinking keeps lfree the lowest free block exactly if a free block lay below or right behind |
| `Format.VsnPrintf` | rt-thread/src/kservice.c:777-1040 | stores exactly the first min(length, size - 1) characters of the whole output and a terminator, and returns the length, which does not depend on the size; the rows of Conversions say what the whole output is |
| `Format.Sink.PrintNumber` | rt-thread/src/kservice.c:606-775 | the loops print the number's text, however much of it fits |
| `Format.Collect` | rt-thread/src/kservice.c:675-683 | repeated division gives the digits in reverse |
| `Format.ReadSpec` | rt-thread/src/kservice.c:819-884 | flags, width, precision and qualifier are read as the pure parser says |
| `FormatText.DigitsReadBack` | rt-thread/src/kservice.c:568-585 | the digits that repeated `divide` yields read back to the number, in base 10 and base 16 |
| `FormatText.OctalIff` | rt-thread/src/kservice.c:568-585 | the digits printed for an octal conversion are octal and read back in base 8 exactly for numbers below 8 |
| `FormatText.NumberReadsBack` | rt-thread/src/kservice.c:606-775 | whatever sign, width, precision and flags, the text of a decimal or hexadecimal conversion is blanks, zeros and a sign, then digits that read back to the argument, then blanks; digits are missing exactly if the precision is 0, and a minus sign is there exactly for a signed negative number |
| `Conversions.NumberConversion` | rt-thread/src/kservice.c:944-1030 | what each of d, i, u, x, X, p and o prints: the digits, without leading zeros and in upper case for X alone, of the argument's absolute value, of its low half after h, as two's complement for d and i; sign, blanks and zeros where flags, width and precision want them, and the exact length |
| `Conversions.NumeralUnique` | rt-thread/src/kservice.c:674-683 | there is only one such text of digits |
| `Conversions.CharConversion` | rt-thread/src/kservice.c:890-911 | c prints the low byte of its argument, padded to the width |
| `Conversions.StringConversion` | rt-thread/src/kservice.c:913-942 | s prints as much of its string as a precision above 0 allows, padded to the width |
| `Conversions.OtherConversion` | rt-thread/src/kservice.c:962-995 | two percent signs print one, and any other character is printed behind a percent sign; no argument is used |
| `Conversions.SpecIs` | rt-thread/src/kservice.c:819-884 | every flags, width, precision and qualifier are read as what they mean: a flag is on exactly if its character is there, numbers are those that are spelled or those of the arguments that asterisks take, a negative width goes to the left and a negative precision is 0 |
| `Conversions.OneConversion` | rt-thread/src/kservice.c:807-1030 | the whole output is plain text as it is, the text of the conversion, and the output of what follows it |
| `Conversions.MinusFive` | rt-thread/src/kservice.c:978-1020 | an input: the word 0xFFFFFFFB is printed as -5 by a signed decimal conversion |
| `Memory.MemMove` | rt-thread/src/kservice.c:293-312 | the destination gets the old contents of the source, however the two overlap, and nothing else changes |
| `Memory.AlignedInside` | rt-thread/src/kservice.c:1229-1281 | the aligned address is a multiple of the alignment, the block has room for the size behind it and for the pointer before it |

## Left out

- MemHeap.Heap.Overrun: the calls of rt_memheap_realloc whose size test wraps; it says which word of the block is lost, and leaves the heap after it unspecified. Realloc leaves just these calls to it.
- MemHeap.Heap.Realloc: one step, although the source gives the heap's semaphore back before it allocates, copies and frees; the same holds for Alloc, which reads the available size before it takes the semaphore.
- MemHeap.Heap.constructor: takes the pool and the place of the list header as given; registering the heap as a kernel object is not modelled. Pools below 60 bytes are left out: below 48 the sizes that rt_memheap_init computes wrap, and above the only block is smaller than the least one.
- MemHeap.Heap.CopyWords: buffers that are not aligned and lengths that are not whole words, for which the source copies byte by byte.
- MemHeapMerge.MergeRightShape: the source unlinks the merged block from the ring first and from the free list second, `Heap.MergeRight` does it the other way round; the two pairs of link words are independent.
- Slab.Slab.Malloc: one step, although the source lets go of the semaphore while it gets pages for a zone; used_mem and max_mem are not modelled. Rounding up does not wrap in it; `Slab.Slab.WrappedIsRefused` shows that nothing depends on that.
- Slab.Slab.Free: used_mem is not modelled.
- Slab.Slab.Realloc: how many bytes are copied, and that both blocks have room for them, but not the bytes.
- SmallMem.SmallHeap.Realloc: one step, although the source gives the semaphore back before it allocates and frees; the contents of blocks are not modelled.
- TimerList.Timers.Start: one step; Link, StartHeldUp and StartThenRun cover a caller that is held up between the two regions, for at most `slack` ticks beyond the deadline. Soft timers are not modelled.
- TimerList.Timers.StartThenRun: a caller held up for more than `slack` ticks beyond the deadline, where slack and length together come to half the tick range; the comparison of ticks then tells nothing.
- TimerList.Timers.Check: timeout functions start and stop timers and start no zero-length ones; rt_timer_control from inside them and periodic timers of zero length are not modelled. Activated and linked are the same as long as no one-shot timer's function starts that timer again.
- TimerList.Timers.NextTimeout: RT_TICK_MAX as the answer for an empty list is also a possible deadline, as in the source.
- Soft timers and their thread.
- Scheduler.Scheduler.Schedule: the context switch itself, stack checks, rt_current_priority, and the case that no thread is ready and the current one sleeps, which the idle thread excludes.
- Scheduler.Scheduler.Create: the stack and the thread's timer.
- Scheduler.Scheduler.Suspend: stopping the thread's timer.
- Scheduler.Scheduler.Resume: the thread's place in a suspend list and its timer belong to the callers' models.
- Scheduler.Scheduler.Timeout: the thread's place in a suspend list, as for Resume.
- Scheduler.Scheduler.Exit: stopping the thread's timer.
- Scheduler.Scheduler.Close: the thread's timer, the gap between the two regions of rt_thread_detach and rt_thread_delete, and freeing the stack.
- rt_thread_yield, which only schedules and never sets the yield flag, and rt_thread_delay_until, whose difference is not the remaining time.
- Mutex.Mutex.Take: one mutex with the priority flag, fixed base priorities, fewer than 255 nested takes by the owner; interruption by signals is not modelled.
- Mutex.Mutex.Expire: the owner may keep a priority it inherited from a waiter that has given up, as in the source; the invariant bounds it by those who asked since it got the mutex.
- Event.Event.Reset: the loop over the waiters and the error codes they return with.
- MessageQueue.MessageQueue.Reset: the error codes the waiters return with.
- MessageQueue.MessageQueue.constructor: how many nodes there are and where they lie in the pool of bytes is taken as given.
- Semaphore.Semaphore.Reset: detaching and deleting IPC objects with waiting threads is not modelled, for any of them.
- MemPool.MemPool.constructor: with no room for a block the source writes before the pool, so there has to be room for one.
- MessageQueue.MessageQueue.SendBegin: a message that is too long never gets as far as waiting, so such a caller is not on its way from a suspend list.
- Format.VsnPrintf: overflow of the int in skip_atoi, and what va_arg does with missing arguments.
- Memory.MemMove: bytes in one array; rt_memset and the byte loop of rt_memcpy are not modelled.
- SmallMem.SmallHeap.constructor: heaps of fewer than 12 bytes, on which no request can be served, and sizes near the end of the address space; see `SmallMem.SearchEnds`.
- Memory.AlignedInside: the alignment masks are remainders, which they are for powers of two; the sums do not wrap, and storing the pointer before the aligned address is not modelled.
- Symmetric multiprocessing, signals, hooks, devices, object names and reference counts.
