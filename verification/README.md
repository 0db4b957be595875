# RT-Thread kernel and finsh shell: a verified model

This project models the parts of the RT-Thread 4.0.1 kernel and of its finsh shell that keep
structures consistent across calls, and proves what those parts are for. The configuration is that
of `bsp/stm32f10x/rtconfig.h`: one processor, no signals, alignment to 4 bytes, 32-bit words. A
section with interrupts disabled, or under the heap semaphore, is one atomic step.

Objects that the C code updates in place are classes over the same fields: block, page and message
links by address, bit groups, ring offsets, header fields, counters. Timer rows, ready lists, suspend
lists, zone lists and a zone's free chunks are sequence fields. Each class method is proved against a
function on values, and the properties over whole runs are proved about those functions.

| component | files | main results |
|---|---|---|
| timers | `Ticks`, `TimerModel`, `TimerCheck`, `TimerRuns`, `TimerPeriods`, `TimerList` | the skip list is a stable sorted list in spite of 32-bit wrap; every timer fires on its tick, in order, and a periodic one every period, whatever the timeout functions start, stop and set |
| finsh compiler and machine | `FinshTree`, `FinshCompiler`, `FinshVm`, `FinshShell` | compiled code has the effect and the value of direct evaluation |
| memory heaps | `HeapBlocks`, `MemHeap*` | blocks tile the pool, free list and byte count are exact, payloads survive |
| system heap | `SmallMem*` | the same for `src/mem.c`, and exactly when `lfree` is lowest and when a request fails |
| pages and slab zones | `PageModel`, `PageList`, `SlabModel`, `SlabZones`, `SlabPages`, `SlabCalls`, `Slab` | the page list is the canonical form of the free pages; free pages, zones and large allocations share out the heap; exactly what was given and not freed is allocated |
| finsh heap | `FinshHeapModel`, `FinshHeap` | two sorted lists tile the heap; the collector frees exactly the unreferenced blocks |
| scheduler | `ReadyBits`, `SchedulerModel`, `Scheduler` | bitmap, ready lists and thread states agree with each other and with the calls made; the most urgent thread runs; turns are fair |
| mutex | `MutexModel`, `MutexHistory`, `Mutex` | priority inheritance leaves no inversion, and exactly when it would; owner, hold count, waiters and priorities are those the calls made add up to |
| mailbox, message queue, event | `MailboxModel`, `Mailbox`, `MessageQueueModel`, `MessageQueueWaits`, `MessageQueue`, `EventModel`, `Event`, `IpcQueue` | no lost wake-up; nodes are partitioned; what is received is what was sent, in order; nobody waits for flags that are there |
| lists and arithmetic | `Sequences`, `IntrusiveList`, `Arithmetic` | the doubly linked list operations are sequence operations and leave other lists alone |

## Where the code and its description part

Each of these has a lemma that says exactly when the promise holds, and one at an input where it does
not.

- The later-test of timers agrees with real time exactly for deadlines inside one half of the tick
  range, and `rt_timer_start` asserts that delays are shorter: `Ticks.LaterTestExact`;
  `Ticks.HalfRangeDelay`.
- The loop of `rt_timer_check` ends, for all timeout functions that start timers with at least one
  tick, exactly if no due timer is periodic with period 0: `TimerCheck.CheckLoopEndsIff`;
  `TimerCheck.ZeroPeriodLoops`. With starts for 0 ticks it need not end: `TimerCheck.ZeroStartsLoop`.
- `rt_timer_start` reads the clock outside its critical sections. The timer fires on its deadline
  exactly if fewer ticks than its delay come before the link, and otherwise at the first check after
  it: `TimerRuns.LinkFiresIff`; `TimerRuns.LateLink`.
- `rt_timer_stop` stops an active timer exactly if the timer is marked as activated. A round of
  `rt_timer_check` leaves exactly the active timers marked, unless the timeout function restarts its
  own timer as a one-shot timer, which then cannot be stopped: `TimerCheck.StopWorksIff`,
  `TimerCheck.RoundKeepsFlagsIff`; `TimerCheck.SelfRestartCannotStop`.
- Sizes above 2^32 - 4 wrap when they are rounded, and `rt_memheap_alloc` and `rt_malloc` then grant a
  smallest block: `MemHeapModel.RoundedCovers`, `SmallMemAlloc.AlignCovers`;
  `MemHeapRuns.HugeRequestGranted`, `SmallMemRuns.HugeRequestGranted`.
- `rt_memheap_alloc` refuses a request for exactly all available bytes although a block has them:
  `MemHeapRuns.RefusesFitIff`; `MemHeapRuns.WholeHeapRefused`.
- `rt_memheap_realloc` destroys the heap when the block after is free and the size is within 12 of
  2^32, because its growth test wraps: `MemHeapRuns.ReallocateKeepsInvIff`; `MemHeapRuns.GrowWraps`.
- `rt_realloc` of `src/mem.c` aligns the size before it tests it for 0. A failed resize to a non-zero
  size leaves the block intact exactly for sizes up to 2^32 - 4; above, the block is freed:
  `SmallMemRuns.FailsCleanlyIff`; `SmallMemRuns.HugeResizeFrees`.
- `rt_memheap_realloc` rounds sizes above 2^32 - 4 to 12. A granted resize keeps the first bytes up to
  the old size and the size asked for exactly for sizes up to 2^32 - 4 or blocks of up to 48 bytes, and
  covers the request exactly for sizes up to 2^32 - 4: `MemHeapRuns.KeepsFirstIff`;
  `MemHeapRuns.HugeResizeCuts`.
- `rt_malloc` of `src/mem.c` refuses an exact fit at the very end of the heap:
  `SmallMemAlloc.RefusedIffNoFit`; `SmallMemRuns.WholeHeapRefused`.
- `lfree` of `src/mem.c` stops being the lowest free block after a shrink in place below every free
  block: `SmallMemRuns.RunLowestIff`; `SmallMemRuns.ShrinkLosesLowest`.
- Priority inheritance on a first-come mutex is free of inversion exactly if at most two threads use
  it or all have the same priority: `MutexModel.FirstComeUrgentIff`; `MutexModel.FirstComeInversion`.
- A 256th nested take wraps a mutex's hold count: `MutexModel.RunKeepsInvIff`; `MutexModel.HoldWraps`.
- The comment in `src/slab.c` (lines 152-154) promises that all power-of-two allocations are aligned to
  their size. That holds exactly up to a page: `SlabModel.AlignedIff`; `SlabModel.MisalignedChunk`,
  `SlabPages.MisalignedPages`. It also promises memory for a request of 0 bytes, where the code returns
  null: `SlabPages.RefusedIff`.

## Model

| member | source | states |
|---|---|---|
| `IntrusiveList.ListMemory.Init` | include/rtservice.h:47-50 | the node is a list of its own; lists it was not in are as before |
| `IntrusiveList.ListMemory.InsertAfter` | include/rtservice.h:58-65 | the list is the old one with the node spliced in after the given one; every disjoint list is unchanged |
| `IntrusiveList.ListMemory.InsertBefore` | include/rtservice.h:73-80 | the same before the given node; before the head is at the end |
| `IntrusiveList.ListMemory.Remove` | include/rtservice.h:86-92 | the node leaves its list, is a list of its own and can be removed again; every disjoint list is unchanged |
| `IntrusiveList.ListMemory.IsEmpty` | include/rtservice.h:98-101 | true exactly if the list has only its head |
| `IntrusiveList.ListMemory.Length` | include/rtservice.h:107-118 | the walk ends and counts the nodes other than the head |
| `Ticks.LaterTestExact` | src/timer.c:359-366 | for instants less than one wrap apart, the unsigned test agrees with the unbounded order if and only if their distance lies in the stated half-range window |
| `Ticks.DueTestExact` | src/timer.c:512-516 | the same for the test that a deadline is reached |
| `Ticks.HalfRangeDelay` | src/timer.c:319-324 | an instant half the range ahead does not test as later |
| `TimerModel.InsertSorted` | src/timer.c:342-370 | stable insertion keeps the list sorted by deadline, then by order of start |
| `TimerModel.TallNests` | src/timer.c:376-391 | each upper row is a selection, in order, from every row below it |
| `TimerModel.TallInsert` | src/timer.c:376-391 | every row sees a stable insertion into the bottom row as its own stable insertion, or not at all |
| `TimerModel.TallDrop` | src/timer.c:121-129 | every row sees a removal as its own removal |
| `TimerModel.HeightIff` | src/timer.c:372-391 | a timer is in row k above the bottom if and only if the lowest k pairs of bits of the start counter are zero |
| `TimerModel.StartKeepsInv` | src/timer.c:296-412 | starting a timer keeps the rows sorted, nested, free of duplicates and in the half-range window |
| `TimerModel.StopKeepsInv` | src/timer.c:422-447 | so does stopping one |
| `TimerCheck.FiresFirst` | src/timer.c:516-544 | whatever its timeout function starts, stops and sets, the timer that fires comes before everything the round leaves active |
| `TimerCheck.FireRank` | src/timer.c:516-544 | a round leaves fewer due timers than it found, unless something is started for at once or the timer has period 0 |
| `TimerCheck.CheckFires` | src/timer.c:494-553 | whatever the timeout functions start, stop and set, their own timer included, each firing of a check is at its own time, in deadline and then start order, and nothing due is left |
| `TimerCheck.CheckFiresUntouched` | src/timer.c:494-553 | a timer that no timeout function of the check starts or stops fires in it exactly if it is due, and is kept otherwise |
| `TimerCheck.CheckFiresDuePrefix` | src/timer.c:494-553 | if the timeout functions touch no timer, exactly the due timers fire, by deadline and then order of start |
| `TimerCheck.CheckLoopEndsIff` | src/timer.c:507-547 | the loop ends within a fixed number of rounds, for all timeout functions that start timers with at least one tick, if and only if no due and marked timer is periodic with a zero period |
| `TimerCheck.ZeroPeriodLoops` | src/timer.c:507-547 | a periodic timer with period 0, started on an empty list, keeps the next check from ending |
| `TimerCheck.ZeroStartFires` | src/timer.c:296-553 | a timer that a timeout function starts with a delay of 0 fires in the same check, if no timeout function touches it again |
| `TimerCheck.ZeroStartsLoop` | src/timer.c:507-547 | two one-shot timers of delay 0 whose timeout functions start each other keep the check from ending |
| `TimerCheck.StopWorksIff` | src/timer.c:422-447 | stopping an active timer makes it inactive if and only if it is marked as activated |
| `TimerCheck.RoundKeepsFlagsIff` | src/timer.c:516-544 | a round leaves exactly the active timers marked if and only if its timeout function does not leave its own timer started and one-shot |
| `TimerCheck.SelfRestartCannotStop` | src/timer.c:530-543 | a one-shot timer that restarts itself from its timeout function stays active and rt_timer_stop does nothing to it |
| `TimerRuns.StepKeepsInv` | src/timer.c:296-553 | every call, part of an interrupted start, and tick keeps the invariant; only active timers need a sane period |
| `TimerRuns.RunFiresOnTimeInOrder` | src/clock.c:74-100 | in every run, across any number of wraps and whatever the timeout functions do, every firing is on the timer's own tick, in deadline and then start order |
| `TimerRuns.UntouchedTimerFires` | src/timer.c:494-553 | a timer touched by no call and no timeout function is still active before its tick and has fired on it afterwards: none is missed |
| `TimerRuns.LinkFiresIff` | src/timer.c:309-396 | a timer linked some ticks after its clock reading fires on its deadline if and only if those ticks are fewer than its delay, and otherwise at the first check after the link |
| `TimerRuns.LateLink` | src/timer.c:309-396 | from a fresh state, a timer of one tick linked one tick after its reading fires one tick after its deadline |
| `TimerRuns.InterruptedStartFires` | src/timer.c:309-396 | in every run with any steps between reading and link that do not start the timer, it fires at that instant |
| `TimerRuns.RunCanStop` | src/timer.c:422-553 | in every run in which no timeout function leaves its own timer started and one-shot, rt_timer_stop stops any timer |
| `TimerPeriods.RoundOwn` | src/timer.c:516-544 | whatever its timeout function does to other timers, a marked periodic timer is active again after its round, due one period later, and any other timer is inactive and unmarked |
| `TimerPeriods.PeriodicFires` | src/timer.c:494-553 | in every run that does not name it, a marked periodic timer fires at its own time and then exactly once every period, to the end of the run |
| `TimerPeriods.PeriodicFiresAgain` | src/timer.c:494-553 | its k-th later firing, for every k that the run is long enough for and no other, is k periods after the first |
| `TimerPeriods.OneShotFiresOnce` | src/timer.c:494-553 | in every run that does not name it, a one-shot timer fires exactly once, at its own time, and is inactive afterwards |
| `TimerPeriods.SetAndStarted` | src/timer.c:296-553 | a timer set by rt_timer_control and started fires, in every run that does not name it after that, exactly at the instants its delay and mode promise |
| `TimerPeriods.StoppedNeverFires` | src/timer.c:422-447 | a timer that is stopped, and not named after that, never fires |
| `TimerList.RowAfterInsert` | src/timer.c:376-391 | splicing the timer in at the places found, in as many rows as its height, is the stable insertion as seen by each row |
| `TimerList.SameTimerBelow` | src/timer.c:342-370 | the node reached in one row is in the row below, not beyond the place sought there, so the descent skips nothing |
| `TimerList.HardTimers.constructor` | src/timer.c:679-687 | an empty list of the given number of rows |
| `TimerList.HardTimers.Init` | src/timer.c:80-105 | a new timer with its period and mode; no other timer changes |
| `TimerList.HardTimers.Unlink` | src/timer.c:121-129 | the timer is in no row, and the rows are again those of the remaining timers |
| `TimerList.HardTimers.ScanRow` | src/timer.c:345-367 | one row of the search stops where a linear stable insertion into that row would go |
| `TimerList.HardTimers.Search` | src/timer.c:342-370 | the skip search finds, in every row, the place of a linear stable insertion, comparing wrapped ticks only |
| `TimerList.HardTimers.LinkRows` | src/timer.c:376-391 | the timer is linked at those places, in one more row for each pair of zero bits of the start counter |
| `TimerList.HardTimers.Begin` | src/timer.c:309-315 | the first critical section: the timer is in no row and not marked |
| `TimerList.HardTimers.Arm` | src/timer.c:319-324 | the timeout is the deadline of the clock reading, wrapped to 32 bits |
| `TimerList.HardTimers.Finish` | src/timer.c:326-396 | the second critical section, up to `late` ticks after the deadline: the skip list is that of the stable insertion into the sorted list of active timers |
| `TimerList.HardTimers.Start` | src/timer.c:296-412 | without a tick in between, the three together are the start of the model: old activation gone, new one at its place in every row |
| `TimerList.HardTimers.Stop` | src/timer.c:422-447 | an unmarked timer is an error and nothing changes; a marked one leaves every row |
| `TimerList.HardTimers.NextTimeout` | src/timer.c:108-119 | the wrapped deadline of a timer that no other precedes, or the largest tick if there is none |
| `TimerList.HardTimers.RunTimeout` | src/timer.c:523-524 | the calls of a timeout function act on rows and fields as on the sorted list |
| `TimerList.HardTimers.FireFirst` | src/timer.c:516-544 | one round on the rows: the first timer is removed, its timeout function makes any calls, and the timer is restarted exactly if it is then periodic and still marked; `TimerPeriods.RoundOwn` says when it fires next |
| `TimerList.HardTimers.Check` | src/timer.c:494-553 | with any timeout functions the loop fires the timers, in the order, that the sorted list says, and ends |
| `TimerList.HardTimers.TickIncrease` | src/clock.c:74-100 | the tick advances with wrap-around and what is due at the new instant has fired |
| `FinshCompiler.TypedIsDword` | components/finsh/finsh_compiler.c:740-882 | type checking gives every expression of the fragment data type DWORD |
| `FinshCompiler.CodeOfWithSibling` | components/finsh/finsh_compiler.c:24-738 | a node's code does not depend on its siblings, whose code follows it |
| `FinshCompiler.EmitBin` | components/finsh/finsh_compiler.c:198-264 | the operands' code in order, then the one operator for words |
| `FinshCompiler.EmitAssign` | components/finsh/finsh_compiler.c:292-353 | the target's address, the value, the store, and the reload of what was stored |
| `FinshCompiler.EmitDeref` | components/finsh/finsh_compiler.c:699-722 | a load through the pointer, or as a target the pointer's value alone |
| `FinshCompiler.EmitStep` | components/finsh/finsh_compiler.c:354-694 | the code of increments and decrements in both positions |
| `FinshCompiler.EmitCall` | components/finsh/finsh_compiler.c:266-291 | the function, its arguments in order and the call with their number |
| `FinshCompiler.ProgramCons` | components/finsh/finsh_compiler.c:884-918 | a program is its statements' code with a pop after each but the last |
| `FinshVm.Get4OfBytes4` | components/finsh/finsh.h:30-47 | reading four code bytes back gives the word that was written |
| `FinshCorrectness.RunExpr` | components/finsh/finsh_compiler.c:24-738 | for every expression of the fragment, stack and memory: its code pushes exactly its value, leaves the memory of direct evaluation and no slot below changed |
| `FinshCorrectness.RunAddress` | components/finsh/finsh_compiler.c:24-738 | the code of an assignment target pushes the address that direct evaluation gives it |
| `FinshCorrectness.RunArgs` | components/finsh/finsh_ops.c:425-550 | the code of a list of arguments pushes their values in order, each evaluated in the memory the previous one left |
| `FinshCorrectness.RunStatements` | components/finsh/finsh_compiler.c:884-918 | statements run in order from an empty stack, which holds only the last value at the end |
| `FinshCorrectness.CompileAndRunIsEval` | components/finsh/finsh_vm.c:28-53 | for every statement list of the fragment that fits text and stack, running the compiled text ends in the memory of direct evaluation with the last value alone on the stack |
| `FinshShell.Shell.Compile` | components/finsh/finsh_compiler.c:24-738 | writes exactly the tree's code at the compile position |
| `FinshShell.Shell.CompilerRun` | components/finsh/finsh_compiler.c:884-918 | the segment holds the program's code followed by zeros only |
| `FinshShell.Shell.OpArith` | components/finsh/finsh_ops.c:23-26 | the two top values, in order, are replaced by the operator's result |
| `FinshShell.Shell.OpStore` | components/finsh/finsh_ops.c:409-415 | the top value is stored at the address below it, which stays |
| `FinshShell.Shell.OpCall` | components/finsh/finsh_ops.c:425-550 | function and arguments, however many, are replaced by the result of the call on the arguments in order |
| `FinshShell.Shell.Turn` | components/finsh/finsh_vm.c:44-52 | fetching and executing one operation is one step of the abstract machine |
| `FinshShell.Shell.VmRun` | components/finsh/finsh_vm.c:28-53 | the loop ends in the state the abstract machine ends in |
| `FinshShell.Shell.RunLine` | components/finsh/finsh_init.c:32-35 | compiling and running a line has the effect and returns the value of evaluating it directly |
| `HeapBytes.PayloadsSafe` | src/memheap.c:495-595 | writing headers at old and new blocks changes no byte of a kept block |
| `HeapBytes.MoveKeeps` | src/memheap.c:408-416 | allocate, copy and free carries the copied bytes over and changes no byte of any other live block |
| `MemHeapModel.RoundedCovers` | src/memheap.c:147-150 | the rounded size covers the request if and only if rounding does not wrap |
| `MemHeapModel.FreedKeepsInv` | src/memheap.c:495-595 | freeing any used block keeps tiling, merging, the free list and the byte count, whichever neighbours are free |
| `MemHeapAlloc.FreedKeepsOthers` | src/memheap.c:495-595 | freeing moves and resizes no other used block |
| `MemHeapAlloc.AllocateKeepsInv` | src/memheap.c:138-281 | a granted block was unused, is at least as large as asked and less than a smallest block larger; nothing else moves and the invariant holds |
| `MemHeapRuns.GrowTestExact` | src/memheap.c:341-350 | the 32-bit growth test means that the two blocks together are large enough if and only if the added constant does not wrap |
| `MemHeapRuns.ReallocateKeepsInv` | src/memheap.c:284-492 | without wrap-around, a successful resize gives a live block of at least the size; every other live block keeps place and size and the invariant holds |
| `MemHeapRuns.ReallocateOutcome` | src/memheap.c:284-492 | without wrap-around, a resize is refused if and only if the size is larger, the block and an unused block after it together do not exceed it by a smallest allocation, and no free block fits; otherwise the block stays if and only if the size is no larger or it can grow, and its new size is exact |
| `MemHeapRuns.ReallocateKeepsInvIff` | src/memheap.c:328-417 | for every live block and 32-bit size, the resize keeps the invariant if and only if the block after is used or the size plus the smallest block stays below 2^32 |
| `MemHeapRuns.GrowWraps` | src/memheap.c:350-401 | a fresh heap, a block of 12 bytes, its resize to 0xFFFFFFF4: granted, and the blocks no longer tile the pool |
| `MemHeapRuns.KeepsFirstIff` | src/memheap.c:300-491 | without wrap-around in the growth test, a granted block is large enough for the first min(old, asked) bytes if and only if the size asked for is at most 2^32 - 4 or the old one at most 48, and for the size asked for if and only if that is at most 2^32 - 4 |
| `MemHeapRuns.HugeResizeCuts` | src/memheap.c:300-303 | a fresh heap, a block of 100 bytes, its resize to 0xFFFFFFFF: granted, with 12 bytes |
| `MemHeapRuns.RefusedIff` | src/memheap.c:155-183 | refused if and only if no free block is large enough or all available bytes are asked for |
| `MemHeapRuns.RefusesFitIff` | src/memheap.c:155-183 | with a large enough block, refused if and only if the request is for exactly all available bytes |
| `MemHeapRuns.GrantsFirstFit` | src/memheap.c:166-183 | a granted request gets the first block of the free list that is large enough |
| `MemHeapRuns.WholeHeapRefused` | src/memheap.c:155-183 | on every fresh heap the request for all its bytes is refused |
| `MemHeapRuns.HugeRequestGranted` | src/memheap.c:147-150 | on every fresh heap with room the request for 0xFFFFFFFF bytes is granted 12 |
| `MemHeapRuns.ApplyKeepsInvIff` | src/memheap.c:50-595 | a call with 32-bit sizes keeps the invariant if and only if it is not a resize that wraps |
| `MemHeapRuns.RunKeepsInv` | src/memheap.c:50-595 | through any run of allocations, frees and resizes that do not wrap: tiling in address order, free list exactly the unused blocks once each, no two unused neighbours, available bytes exact |
| `MemHeapRuns.RunThenAllFree` | src/memheap.c:50-121 | any run that ends with nothing live ends in the initial heap |
| `MemHeapRuns.FreeUndoesAllocate` | src/memheap.c:495-595 | freeing what was just allocated restores blocks, marks and available bytes, and the free list up to order |
| `MemHeap.LiveApart` | src/memheap.c:138-281 | two live blocks do not overlap |
| `MemHeap.Heap.constructor` | src/memheap.c:50-121 | the pool, rounded down, is one free block and the tail |
| `MemHeap.Heap.Search` | src/memheap.c:169-180 | the walk along the links finds the first listed block that is large enough, and ends |
| `MemHeap.Heap.Alloc` | src/memheap.c:138-281 | the links realise the abstract allocation; no payload byte of a live block changes; a refusal changes nothing |
| `MemHeap.Heap.Free` | src/memheap.c:495-595 | the links realise the abstract free; no payload byte of another live block changes; null is ignored |
| `MemHeap.Heap.Grow` | src/memheap.c:328-402 | growth in place moves the boundary to the free neighbour and keeps the payload |
| `MemHeap.Heap.ShrinkBlock` | src/memheap.c:419-491 | the rest is cut off and merged with a free neighbour; the kept part of the payload is unchanged |
| `MemHeap.Heap.Move` | src/memheap.c:408-416 | on success the old payload is at the new block and the old block is freed; on failure the old block is live and intact |
| `MemHeap.Heap.Realloc` | src/memheap.c:284-492 | for every size but those that wrap in the growth test: null if and only if there is no room to grow and nothing fits, and then nothing changes; the block returned has the first min(old, asked) bytes if and only if the size asked for is at most 2^32 - 4 or the old one at most 48, and covers the request if and only if it is at most 2^32 - 4; no other live byte changes; size 0 frees, null allocates |
| `SmallMemModel.PlugInv` | src/mem.c:156-194 | merging around one block that was just freed restores the invariant in every case and keeps `lfree` lowest |
| `SmallMemModel.FreedKeepsInv` | src/mem.c:546-609 | freeing keeps tiling, merging and the count of used bytes, and keeps `lfree` lowest |
| `SmallMemAlloc.AlignCovers` | src/mem.c:288-289 | the aligned size covers the request if and only if it does not wrap; otherwise it is 0 |
| `SmallMemAlloc.ScanExact` | src/mem.c:305-311 | the scan finds the first fitting block below its limit if there is one |
| `SmallMemAlloc.MallocKeepsInv` | src/mem.c:272-410 | a granted block was unused, has the size and less than a smallest block more; no other live block moves, the invariant holds and `lfree` stays lowest |
| `SmallMemAlloc.RefusedIff` | src/mem.c:305-409 | refused if and only if every fitting block from `lfree` on is the exact fit at the heap's end |
| `SmallMemAlloc.RefusedIffNoFit` | src/mem.c:305-409 | with `lfree` lowest, refused if and only if no block fits but for the exact fit at the heap's end |
| `SmallMemRuns.ShrunkKeepsInv` | src/mem.c:471-498 | shrinking in place keeps the invariant and every other live block |
| `SmallMemRuns.ShrunkLowestIff` | src/mem.c:471-498 | `lfree` stays lowest if and only if it was below the block, or at the free block after it |
| `SmallMemRuns.ReallocKeepsInv` | src/mem.c:421-510 | a successful resize gives a live block of the size, keeps every other live block and the invariant |
| `SmallMemRuns.ResizeOutcomeIs` | src/mem.c:421-510 | null if and only if the aligned size is 0 or more than the heap, or the block has to move and nothing fits; otherwise the block stays if and only if it has the size or is cut to it, and its new size is exact |
| `SmallMemRuns.FailsCleanlyIff` | src/mem.c:430-442 | for every live block and non-zero 32-bit size, a null result leaves the heap as it was if and only if the size is at most 2^32 - 4; above, the block is freed |
| `SmallMemRuns.ResizeCovers` | src/mem.c:421-510 | a block that is returned has at least the size asked for |
| `SmallMemRuns.HugeResizeFrees` | src/mem.c:430-442 | a fresh heap, a block of 100 bytes, its resize to 0xFFFFFFFF: null, with the block freed |
| `SmallMemRuns.RunKeepsInv` | src/mem.c:272-609 | through any run: tiling, no two free neighbours, used bytes exact, `lfree` at a free block or the end |
| `SmallMemRuns.ApplyLowestIff` | src/mem.c:272-609 | a call keeps `lfree` lowest if and only if it is not a shrink in place below every free block |
| `SmallMemRuns.RunLowestIff` | src/mem.c:272-609 | `lfree` is lowest throughout a run if and only if no call of it is such a shrink |
| `SmallMemRuns.ShrinkLosesLowest` | src/mem.c:471-498 | two allocations on a fresh heap and a shrink of the first lose it |
| `SmallMemRuns.WholeHeapRefused` | src/mem.c:305-311 | on every fresh heap the request for all its bytes fits and is refused |
| `SmallMemRuns.HugeRequestGranted` | src/mem.c:288-300 | on every fresh heap with room the request for 0xFFFFFFFF bytes is granted a smallest block |
| `SmallMemRuns.AllFreeIsFresh` | src/mem.c:204-257 | with nothing live and `lfree` lowest the heap is the initial one |
| `SmallMemRuns.FreeUndoesMalloc` | src/mem.c:546-609 | with `lfree` lowest, freeing what was just allocated restores the heap exactly |
| `SmallMem.Heap.constructor` | src/mem.c:204-257 | one free block over the aligned area and the end header |
| `SmallMem.Heap.PlugHoles` | src/mem.c:156-194 | the header links realise the abstract merging and only headers are written |
| `SmallMem.Heap.Search` | src/mem.c:305-311 | the loop finds the block of the abstract scan, and ends because offsets increase |
| `SmallMem.Heap.Malloc` | src/mem.c:272-410 | the headers realise the abstract allocation; no live payload byte changes; a refusal changes nothing |
| `SmallMem.Heap.Free` | src/mem.c:546-609 | the headers realise the abstract free; no other live payload byte changes |
| `SmallMem.Heap.Shrink` | src/mem.c:471-498 | the headers realise the abstract cut; the kept part of the payload is unchanged |
| `SmallMem.Heap.Move` | src/mem.c:501-509 | on success the payload is carried over and the old block freed; on failure the old block is live and intact |
| `SmallMem.Heap.ResizeAligned` | src/mem.c:448-509 | the headers realise the abstract resize to an aligned size, with the first min(old, new) bytes kept and nothing changed on failure |
| `SmallMem.Heap.Realloc` | src/mem.c:421-510 | null if and only if the aligned size is 0 or more than the heap, or the block has to move and nothing fits; a block returned has the first min(old, asked) bytes; no other live byte changes; a null result for a non-zero size leaves layout and bytes as they were if and only if the size is at most 2^32 - 4; size 0 frees, null allocates |
| `PageModel.CanonicalIsUnique` | src/slab.c:272-322 | two sorted, disjoint, fully merged lists of the same free pages are the same list |
| `PageModel.TakenPages` | src/slab.c:236-270 | taking pages keeps the list canonical and takes exactly those pages |
| `PageModel.NoFitIff` | src/slab.c:246-269 | no run is found if and only if there are not that many free pages in a row |
| `PageModel.FreedCanonical` | src/slab.c:272-322 | the list stays canonical in each of the four ways pages go back |
| `PageModel.FreedPage` | src/slab.c:272-322 | freeing adds exactly the freed pages |
| `PageModel.FreeUndoesAlloc` | src/slab.c:236-322 | freeing an allocation restores the list exactly |
| `PageRuns.AllocKeepsShared` | src/slab.c:236-270 | free list and outstanding runs share out the pool, disjointly and with a constant total |
| `PageRuns.FreeKeepsShared` | src/slab.c:272-322 | so after freeing any outstanding run |
| `PageRuns.RunKeepsShared` | src/slab.c:236-334 | through any run the list is canonical and the totals constant, and with nothing outstanding it is the initial list |
| `PageList.PageAllocator.constructor` | src/slab.c:324-334 | all pages are one run |
| `PageList.PageAllocator.Alloc` | src/slab.c:236-270 | the links realise the first fit; the address is its first page, or null if and only if none fits or none is asked for |
| `PageList.PageAllocator.Free` | src/slab.c:272-322 | the links realise the abstract free |
| `SlabModel.ZoneIndexFits` | src/slab.c:401-459 | the class of a request is the least one whose chunks hold it, and the size written back is that class's |
| `SlabModel.WasteBounded` | src/slab.c:401-459 | from 128 bytes on, less than an eighth of the request is wasted |
| `SlabModel.TakeChunkOk` | src/slab.c:544-568 | the chunk taken was not live; each chunk stays one of live, listed and never used, and the free count exact |
| `SlabModel.PutChunkOk` | src/slab.c:830-842 | the same for a chunk put back |
| `SlabModel.WholeIff` | src/slab.c:854-855 | the free count equals the chunk count if and only if no chunk is live |
| `SlabModel.ThreeChunks` | src/slab.c:631-643 | a zone has at least three chunks of any class used with its size, so a new zone on its list has some free |
| `SlabModel.ChunkInside` | src/slab.c:631-648 | every byte of every chunk lies behind the zone's header and inside the zone |
| `SlabModel.AlignedIff` | src/slab.c:493-518 | every address a power-of-two request can get, in a zone or as pages, is a multiple of it if and only if the request is for at most a page |
| `SlabModel.ChunksAlignedIff` | src/slab.c:631-648 | the chunks of all zones are aligned to their power-of-two size if and only if that is at most a page |
| `SlabModel.PagesAlignedIff` | src/slab.c:493-497 | the same for page addresses |
| `SlabModel.MisalignedChunk` | src/slab.c:631-648 | the first chunk of 8192 bytes in a zone at page 1 is not aligned to 8192 |
| `SlabZones.TakeKeepsInv` | src/slab.c:534-576 | taking from the first zone of a class keeps all lists right; the zone leaves its list exactly when it is full |
| `SlabZones.MallocKeepsInv` | src/slab.c:534-659 | exactly one chunk that was not live becomes live, given pages that are in no zone; failure only if no zone of the class has room, none is free and no pages are given |
| `SlabZones.MallocClasses` | src/slab.c:534-659 | the chunk comes from a zone of the class asked for, and no zone changes its class |
| `SlabZones.RetiredKeepsInv` | src/slab.c:854-901 | only a zone without live chunks is retired, and all lists and the page table stay right |
| `SlabZones.FreeKeepsInv` | src/slab.c:795-901 | exactly the freed chunk stops being live; the invariant holds |
| `SlabZones.FreeRetiresIff` | src/slab.c:854-901 | a zone leaves its class if and only if the chunk freed was its last live one and another zone of the class has free chunks; it is kept if fewer than two wholly free zones are, and otherwise gives its pages up |
| `SlabZones.LookupFindsZone` | src/slab.c:795-828 | any byte of any live chunk leads through the page table to the chunk's own zone |
| `SlabZones.LiveApart` | src/slab.c:478-667 | bytes of different live chunks are at different addresses |
| `SlabPages.SpareIsApart` | src/slab.c:589-605 | the pages the page allocator gives for a zone lie outside every zone, and it gives none if and only if there are not that many free pages in a row |
| `SlabPages.MallocSmallKeepsInv` | src/slab.c:534-659 | free pages, zones, large allocations and the page table still share out the heap; pages are taken exactly if no zone will do |
| `SlabPages.MallocLargeKeepsInv` | src/slab.c:493-518 | the same for a large request, refused if and only if there are not that many free pages in a row |
| `SlabPages.FreeSmallKeepsInv` | src/slab.c:822-904 | the same; a zone that is given up frees exactly its own pages |
| `SlabPages.FreeLargeKeepsInv` | src/slab.c:796-820 | the same for a large allocation |
| `SlabPages.RefusedIff` | src/slab.c:478-667 | null is returned if and only if 0 bytes are asked for, rounding to pages wraps, or there is no chunk, no free zone and no pages, or not enough pages in a row |
| `SlabPages.ChunkOutsideLarge` | src/slab.c:478-667 | no byte of a live chunk is in a large allocation |
| `SlabPages.LargesApart` | src/slab.c:493-518 | different large allocations do not overlap |
| `SlabPages.EntryTells` | src/slab.c:795-828 | the entry of an address's page tells a large allocation from a chunk and leads to the chunk's zone |
| `SlabPages.InitialInv` | src/slab.c:344-395 | after initialisation all pages but the table's are free |
| `SlabPages.RunKeepsInv` | src/slab.c:236-904 | through every run of small and large requests and frees: pages shared out with a constant total, chunks partitioned, a zone on its class's list exactly if it has free chunks, pages leading to their zone |
| `SlabPages.MisalignedPages` | src/slab.c:493-518 | on a heap that starts at page 2, the first request for 8192 bytes gets page 3 |
| `SlabCalls.MallocGives` | src/slab.c:478-667 | rt_malloc returns null and changes nothing, or the address of a block that was not allocated and holds the size asked for; every other block keeps place and size |
| `SlabCalls.FreeTakes` | src/slab.c:795-904 | rt_free makes exactly the block it is given free; every other block keeps place and size |
| `SlabCalls.RunHolds` | src/slab.c:478-904 | in every state of every run exactly those blocks are allocated that were given and have not been freed since |
| `Slab.ZoneSize` | src/slab.c:374-377 | 32 KiB, or the power of two up to 128 KiB at which doubling stops |
| `Slab.SlabAllocator.constructor` | src/slab.c:344-395 | over a new page allocator: zones of 32, 64 or 128 KiB, the matching limit, and the page table allocated |
| `Slab.SlabAllocator.Malloc` | src/slab.c:478-667 | for every 32-bit size, over the page allocator's links: the address and the state of the abstract request, small or large |
| `Slab.SlabAllocator.MallocSmall` | src/slab.c:534-659 | below the zone limit, with pages taken from the page allocator only if no zone will do |
| `Slab.SlabAllocator.MallocLarge` | src/slab.c:493-522 | at or above it, with the size in pages rounded on 32-bit words |
| `Slab.SlabAllocator.Retire` | src/slab.c:854-901 | the zone goes to the free zones, or beyond two of them its entries are cleared and its pages are to be released |
| `Slab.SlabAllocator.Free` | src/slab.c:771-904 | from the address alone the kind of allocation, the zone and the chunk are found, and the state of zones and pages is that of the abstract free |
| `FinshHeapModel.TakenKeepsInv` | components/finsh/finsh_heap.c:54-91 | an allocation of exactly the size keeps the tiling, the merging and the free block at the end of the heap |
| `FinshHeapModel.FreedKeepsInv` | components/finsh/finsh_heap.c:96-109 | freeing keeps them and every other allocated block |
| `FinshHeapModel.CollectedFreesGarbage` | components/finsh/finsh_heap.c:114-142 | the collector frees exactly the allocated blocks that no variable points to |
| `FinshHeap.Heap.constructor` | components/finsh/finsh_heap.c:36-49 | one free block |
| `FinshHeap.Heap.BlockInsert` | components/finsh/finsh_heap.c:147-181 | the header goes to its place in the sorted list, given a null link where the code writes none |
| `FinshHeap.Heap.BlockRemove` | components/finsh/finsh_heap.c:186-208 | the list without the header, whose own link may be left stale |
| `FinshHeap.Heap.SplitBlock` | components/finsh/finsh_heap.c:213-227 | two blocks with lengths that tile the old one |
| `FinshHeap.Heap.BlockMerge` | components/finsh/finsh_heap.c:229-279 | the block is joined with each neighbour that is free, in lists, lengths and layout |
| `FinshHeap.Heap.Free` | components/finsh/finsh_heap.c:96-109 | both lists stay sorted and the layout is that of the abstract free |
| `FinshHeap.Heap.CollectGarbage` | components/finsh/finsh_heap.c:114-142 | walking the list while blocks leave it frees the blocks the abstract collector frees |
| `FinshHeap.Heap.Allocate` | components/finsh/finsh_heap.c:54-91 | the first fit, or after a collection the first fit then, gets exactly the aligned size; null only if both fail |
| `FinshHeap.IsReferenced` | components/finsh/finsh_heap.c:124-131 | true exactly if some known variable points to the block |
| `ReadyBits.EntryIsFirstSet` | src/kservice.c:1247-1265 | the table entry of every byte but 0 is the index of its lowest set bit |
| `ReadyBits.Ffs` | src/kservice.c:1277-1291 | one more than the index of the lowest set bit of the word, 0 for a zero word |
| `SchedulerModel.SuspendKeepsInv` | src/thread.c:656-695 | a thread stays ready exactly if linked once in the list of its priority, and at most the current one runs |
| `SchedulerModel.ResumeKeepsInv` | src/thread.c:705-739 | the same |
| `SchedulerModel.StartupKeepsInv` | src/thread.c:286-318 | the same |
| `SchedulerModel.ChangePriorityKeepsInv` | src/thread.c:571-612 | the same, the thread being in the list of its new priority |
| `SchedulerModel.ScheduleRunsMostUrgent` | src/scheduler.c:399-499 | with a thread ready, the running thread is unique, in no ready list, and no ready thread is strictly more urgent |
| `SchedulerModel.ScheduleTakesFirst` | src/scheduler.c:399-499 | unless the current thread runs and is strictly more urgent, the first thread of the most urgent list runs, and a current thread that still ran is last in its list; nothing else changes |
| `SchedulerModel.RoundRobin` | src/scheduler.c:399-499 | after k calls the threads that share the top priority have had k turns in order |
| `SchedulerModel.RoundRobinRestores` | src/scheduler.c:399-499 | as many calls as sharers give each one turn and restore the original state |
| `SchedulerModel.RunKeepsInv` | src/scheduler.c:399-779 | in every state of every run the lists and thread states agree, and after every scheduling call with a thread ready the most urgent one runs |
| `SchedulerModel.RunOnThread` | src/thread.c:286-739 | in every state of every run the calls made so far tell of each thread whether it is not started, suspended, or ready or running, and its priority |
| `Scheduler.GroupFirst` | src/scheduler.c:170-192 | the lowest set bit of the group is the priority a linear scan of the ready lists finds |
| `Scheduler.TableFirst` | src/scheduler.c:170-192 | so are group and table together, for more than 32 priorities |
| `Scheduler.SetGroup` | src/scheduler.c:652-779 | setting or clearing a bit with its list keeps the bitmap exact |
| `Scheduler.SetTable` | src/scheduler.c:652-779 | the same for both levels |
| `Scheduler.SchedulerObject.constructor` | src/scheduler.c:199-247 | empty lists and bitmap, one thread running |
| `Scheduler.SchedulerObject.InsertThread` | src/scheduler.c:652-686 | the thread is last in its list, ready, with its bits set; the current thread just runs |
| `Scheduler.SchedulerObject.RemoveThread` | src/scheduler.c:749-779 | the thread is in no list and the bits are cleared exactly if its list became empty |
| `Scheduler.SchedulerObject.HighestPriorityThread` | src/scheduler.c:170-192 | the first thread of the list that a linear scan would find |
| `Scheduler.SchedulerObject.Schedule` | src/scheduler.c:399-499 | the abstract switch when unlocked, nothing when locked; bitmap and lists agree |
| `Scheduler.SchedulerObject.SuspendThread` | src/thread.c:656-695 | an error exactly for a thread neither ready nor running; otherwise it is suspended and in no list, and every other thread and list is as before |
| `Scheduler.SchedulerObject.ResumeThread` | src/thread.c:705-739 | an error exactly for a thread that is not suspended, and then nothing changes; otherwise it is ready and last in the list of its priority, or running if it is the current one, and nothing else changes |
| `Scheduler.SchedulerObject.MakeReady` | src/thread.c:286-312 | the thread is ready at its initial priority and last in that list; nothing else changes |
| `Scheduler.SchedulerObject.StartupThread` | src/thread.c:286-318 | a scheduling call on the lists and states in which the thread is ready, last in the list of its initial priority |
| `Scheduler.SchedulerObject.ChangeThreadPriority` | src/thread.c:571-612 | the thread has the priority; a ready one is last in the list of that priority and in no other; nothing else changes |
| `Scheduler.SchedulerObject.ExitCritical` | src/scheduler.c:868-890 | one level less, and the outermost exit schedules |
| `IpcQueue.QueuedSorted` | src/ipc.c:92-117 | a thread queued by priority stands behind everyone at least as urgent and before everyone less urgent, and the list stays sorted |
| `IpcQueue.ListSuspend` | src/ipc.c:79-122 | the loop finds that place, or appends for a first-come queue |
| `MutexModel.TakeKeepsInvIff` | src/ipc.c:651-776 | a take keeps the invariant if and only if it is not the owner's take that wraps the hold count |
| `MutexModel.LastReleaseKeepsInv` | src/ipc.c:825-868 | the owner returns to base priority and the mutex goes to a waiter at least as urgent as all others |
| `MutexModel.ReleaseKeepsInv` | src/ipc.c:787-878 | every release keeps the invariant, a stranger's changes nothing |
| `MutexModel.TimeoutKeepsInv` | src/thread.c:748-770 | a waiter that gives up leaves the invariant |
| `MutexModel.FirstComeUrgentIff` | src/ipc.c:651-878 | on a first-come mutex every run, with the hold count in range, keeps the owner at least as urgent as every waiter if and only if at most two threads use it or all have the same priority |
| `MutexModel.FirstComeInversion` | src/ipc.c:838-858 | for any three threads, two of them of different priorities, a run ends with the less urgent as owner and the more urgent waiting |
| `MutexModel.RunKeepsInv` | src/ipc.c:651-878 | in every reachable state before the hold count wraps the owner is at least as urgent as every waiter, everyone else is at base priority, and value, owner and hold agree |
| `MutexModel.RunKeepsInvIff` | src/ipc.c:651-878 | a run keeps this throughout if and only if no take wraps the hold count |
| `MutexModel.HoldWraps` | src/ipc.c:678-682 | up to 255 nested takes are counted; the 256th leaves an owner with hold count 0 |
| `MutexHistory.BalanceIsHold` | src/ipc.c:651-878 | on every run of either discipline, takes that found the mutex free or their own and hand-offs, less releases by the owner, counted from the calls, are the hold count for the owner and 0 for all others |
| `MutexHistory.NestedReleasesFree` | src/ipc.c:651-878 | n takes and n releases by one thread, n up to 255, leave the mutex free with value 1, and it owns it in between |
| `MutexHistory.SuspendedIffWaiting` | src/ipc.c:695-770 | a thread is on the suspend list if and only if its last take found the mutex taken, it was willing to wait, and it was neither handed the mutex nor timed out since |
| `MutexHistory.RunsAtInherited` | src/ipc.c:651-878 | the owner runs at exactly the most urgent base priority of itself and of those who came to wait since it became the owner, everyone else at its own |
| `Mutex.MutexObject.constructor` | src/ipc.c:527-547 | a free mutex |
| `Mutex.MutexObject.Take` | src/ipc.c:651-776 | granted exactly if free or the caller's own; otherwise refused without waiting time, or queued with the owner raised |
| `Mutex.MutexObject.Release` | src/ipc.c:787-878 | an error exactly for a caller that is not the owner; otherwise one hold less and, with the last, the mutex passed on: the abstract release, of which `MutexHistory` tells owner and hold from the calls |
| `MailboxModel.StepKeepsInv` | src/ipc.c:1439-1711 | every pass of a sender or receiver, first or resumed, and every timeout and reset keeps the invariant |
| `MailboxModel.RunKeepsInv` | src/ipc.c:1439-1711 | under any interleaving, waiting receivers imply no more messages than resumed receivers, waiting senders no more free slots than resumed senders |
| `MailboxModel.RunIsFifo` | src/ipc.c:1439-1755 | in every run the values given to sends that found room since the last reset are those that receivers got, in order, followed by those in the mailbox |
| `MailboxModel.SuspendedIffWaiting` | src/ipc.c:1439-1755 | a thread is on a suspend list if and only if its last pass found no room or no message, it was willing to wait, and it was neither resumed nor timed out nor reset since |
| `MailboxModel.QuietMeansServed` | src/ipc.c:1439-1711 | once every resumed thread has run, nobody waits for a message that is there or a slot that is free |
| `Mailbox.SlotIsModulo` | src/ipc.c:1534-1537 | the offset with its reset at the end is the sum modulo the size |
| `Mailbox.PutMessage` | src/ipc.c:1532-1539 | writing at the in-offset appends to the messages of the ring |
| `Mailbox.GetMessage` | src/ipc.c:1680-1688 | advancing the out-offset takes the oldest message off |
| `Mailbox.MailboxObject.constructor` | src/ipc.c:1291-1319 | an empty mailbox of the size modulo 2^16 |
| `Mailbox.MailboxObject.Send` | src/ipc.c:1439-1558 | with room, the messages in the ring are the old ones followed by the value, and the first waiting receiver leaves its list; without, full or waiting by the time given |
| `Mailbox.MailboxObject.Receive` | src/ipc.c:1587-1711 | with a message, the old messages are the value returned followed by those in the ring, and the first waiting sender leaves its list; without, empty or waiting by the time given |
| `Mailbox.MailboxObject.Reset` | src/ipc.c:1723-1755 | empty, with every waiter resumed |
| `MessageQueueModel.RunKeepsInv` | src/ipc.c:1961-2323 | in every state of every run each node is in exactly one of the free list, the queue and one thread's hands, and buffers are as their holder left or found them |
| `MessageQueueModel.StepOnContents` | src/ipc.c:1961-2323 | a send appends the sender's message, an urgent send puts it first, a receive takes the first, and copying changes no queued message |
| `MessageQueueModel.RunIsFifo` | src/ipc.c:1961-2264 | without urgent sends and resets, what was there and was appended is what was received, in order, and then what is there |
| `MessageQueueModel.ReceivesWhatWasSent` | src/ipc.c:1961-2264 | without urgent sends and resets the k-th buffer received starts with the k-th message that a sender was given and linked |
| `MessageQueueWaits.StepKeepsInv` | src/ipc.c:1961-2323 | every half of a send or receive, first or later pass of a receiver, timeout and reset keeps the invariant |
| `MessageQueueWaits.RunKeepsInv` | src/ipc.c:1961-2323 | under any interleaving, waiting receivers imply no more queued messages than resumed receivers, with the nodes partitioned |
| `MessageQueueWaits.QuietMeansServed` | src/ipc.c:2136-2264 | once every resumed receiver has run, nobody waits for a message that is there |
| `MessageQueueWaits.StepOnNodes` | src/ipc.c:1961-2323 | every step moves the nodes as the queue alone does |
| `MessageQueueWaits.SuspendedIffWaiting` | src/ipc.c:2136-2323 | a thread is on the suspend list if and only if its last pass found no message, it was willing to wait, and it was neither resumed nor timed out nor reset since |
| `MessageQueue.Queue.HeadTailNull` | src/ipc.c:1961-2264 | head is null exactly if tail is and exactly if the count is 0; free, queued and held nodes add up to all nodes |
| `MessageQueue.Queue.constructor` | src/ipc.c:1778-1825 | the pool is cut into as many nodes as fit, modulo 2^16, all free; their size is the aligned one modulo 2^16 |
| `MessageQueue.Queue.Grab` | src/ipc.c:1978-1995 | a free node goes to the sender, or null if there is none |
| `MessageQueue.Queue.Fill` | src/ipc.c:1997-2000 | the message is in the sender's node and nowhere else |
| `MessageQueue.Queue.Append` | src/ipc.c:2002-2036 | the node is last in the linked queue and the first waiting receiver is resumed |
| `MessageQueue.Queue.Prepend` | src/ipc.c:2090-2120 | the node is first in the linked queue and the first waiting receiver is resumed |
| `MessageQueue.Queue.Receive` | src/ipc.c:2158-2248 | the first node is the receiver's if there is one; otherwise it times out at once or waits at its place in the queue |
| `MessageQueue.Queue.CopyOut` | src/ipc.c:2250-2251 | the receiver gets the message it took, cut to its own buffer |
| `MessageQueue.Queue.GiveBack` | src/ipc.c:2253-2259 | the node is free again |
| `MessageQueue.Queue.Reset` | src/ipc.c:2277-2323 | waiters are resumed and all queued nodes are free; nodes in threads' hands stay there |
| `EventModel.DeliverLeavesNone` | src/ipc.c:1055-1097 | after a send only unsatisfied threads wait, and flags were only taken |
| `EventModel.SatisfiedIff` | src/ipc.c:1156-1170 | an all-wait is satisfied if and only if every flag of its interest is up, an any-wait if and only if some flag of it is |
| `EventModel.FlagIff` | src/ipc.c:1172-1181 | what is received is the interest that is up; what is left is what was up less the interest, if it is cleared |
| `EventModel.DeliverIsFair` | src/ipc.c:1055-1097 | a send resumes only threads that got enough of what they asked for; the others wait on in their order; a flag goes down if and only if a thread that was resumed clears it |
| `EventModel.SendIsFair` | src/ipc.c:1026-1108 | the same of the whole call, and no flags change nothing |
| `EventModel.ReceiveEffect` | src/ipc.c:1124-1234 | a thread that is satisfied takes away exactly what it clears; another waits at its place if it has time |
| `EventModel.TimeoutTakesOff` | src/thread.c:748-770 | a thread whose time is up is off the list, and the others keep their order |
| `EventModel.RunKeepsInv` | src/ipc.c:1026-1274 | in no reachable state does a thread wait for flags that are there |
| `Event.EventObject.Offer` | src/ipc.c:1057-1096 | a waiter is woken exactly if an immediate receive would succeed, with the same value and the same flags left |
| `Event.EventObject.Send` | src/ipc.c:1026-1108 | the same flags, wake-ups and received values as an immediate receive for each waiter in queue order; only threads that got enough are resumed, and flags go down exactly as they clear them; an empty set is an error |
| `Event.EventObject.Receive` | src/ipc.c:1124-1234 | received at once if and only if every flag of the interest is up, or some flag for an any-wait; the value is the interest that was up; flags go down exactly if cleared; otherwise timed out or queued at its place by the time given; an empty interest is an error |
| `Event.EventObject.Reset` | src/ipc.c:1246-1274 | no flags and no waiters |

## Left out

- TimerList.HardTimers.Finish: asks that nobody else has started the timer since its clock reading, where the code would link it twice.
- TimerList.HardTimers.Start: asks that delay plus `late`, the bound on links after the deadline, is below RT_TICK_MAX / 2; with `late` 0 that is the code's assertion.
- TimerRuns.RunFiresOnTimeInOrder: leaves out the start of a periodic timer with period 0, after which the next check does not end (`TimerCheck.ZeroPeriodLoops`).
- TimerList.HardTimers.TickIncrease: the time slice of the running thread is not counted down.
- TimerList.HardTimers.Check: asks that no active timer is periodic with period 0, without which the loop does not end (`TimerCheck.CheckLoopEndsIff`), and takes a finite number of timeout functions that make calls, without which it need not (`TimerCheck.ZeroStartsLoop`).
- TimerCheck.ZeroStartFires: speaks of timers other than the one that fires.
- MemHeap.Heap.constructor: asks for a pool that holds one smallest block, where the code asserts nothing.
- MemHeap.Heap.Realloc: asks that the resize does not wrap, exactly the condition of `MemHeapRuns.ReallocateKeepsInvIff`; beyond it the new header overlaps the block's own and links by address mean nothing.
- MemHeapRuns.ReallocateKeepsInv: asks that the resize does not wrap; `MemHeapRuns.ReallocateKeepsInvIff` does not.
- MemHeapRuns.RunThenAllFree: speaks of runs without resizes that wrap.
- MemHeapRuns.RunKeepsInv: leaves out resizes that wrap, for which it fails (`MemHeapRuns.ApplyKeepsInvIff`).
- MutexHistory.BalanceIsHold: speaks, like the other members of `MutexHistory`, of runs up to a wrapped hold count.
- MutexModel.RunKeepsInv: leaves out what follows a wrapped hold count, for which it fails (`MutexModel.RunKeepsInvIff`).
- SmallMem.Heap.constructor: asks for an area that holds one smallest block.
- FinshHeap.Heap.Allocate: asks that the aligned size plus a header stays below 2^32, and does not model the clearing of the block's bytes; the shell asks for the length of a string plus one.
- FinshShell.Shell.Compile: nodes are annotated values, the type check's writes into nodes being a function from tree to tree; nodes of system variables, strings and null are absent.
- FinshShell.Shell.Turn: operations on bytes and half-words, which the fragment never emits, are not executed, and variables' memory is kept apart from stack and code.
- Scheduler.SchedulerObject.constructor: starts with one thread running, where the code starts with none until the first switch.
- Slab.SlabAllocator.MallocSmall: the code lets go of the heap semaphore while it asks for pages; the model's request is one step.
- SlabZones.MallocKeepsInv: speaks of zones alone, with the pages a parameter; `SlabPages` supplies them.
- Event.EventObject.Receive: a thread's timeout takes it off the queue in the model's runs only.
- Soft timers and the timer thread, and detachment of timers.
- Deletion and detachment of IPC objects and threads.
- Semaphores, and memory pools: an easy counter and an easy free list.
- Several mutexes held at once, and user priority changes of waiting threads, for which inheritance does not hold.
- Link fields of timer rows, ready lists, suspend lists, zone lists and free chunks: these are sequences, for which `IntrusiveList` proves the doubly linked operations on their own.
- Yielding and delays.
- Multi-processor variants and signals.
- The finsh lexer and parser, strings, system variables and mixed-width arithmetic.
- `rt_calloc`, aligned allocation, hooks, statistics output and debug logging.
- Devices, drivers, the object container, formatted printing, and all other components.
