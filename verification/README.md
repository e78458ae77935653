# Kernel resource managers: a verified model

This project models the resource managers of a small teaching kernel and proves what they are meant
to guarantee: two heap allocators, the process table with its recursive kill, the scheduler, the wait
queues, semaphores and pipes. It also covers two userland programs that lean on them (the dining
philosophers and the synchronisation test) and the number printing and parsing of the userland C
library.

`dafny verify dfyconfig.toml` checks everything.

## How it is laid out

Code that changes state in place is a class with the same fields and the same loops, proved against a
specification on values; the properties are then lemmas about the specification.

| subject | specification and lemmas | the code, changed in place |
|---|---|---|
| buddy allocator | `BuddyTree`, `BuddySummaries`, `BuddySearch` | `BuddyAllocator` |
| free-list allocator | `FreeListSpec` | `FreeListAllocator` |
| scheduler | `SchedulerSpec`, `SchedulerRuns`, `SchedulerLaws` | `Scheduler`; with the process table, `Starvation` |
| wait queues | `WaitQueueSpec` | `Queue` (linked nodes) |
| process table | `ProcessSpec` | `ProcessTable` |
| semaphores | `SemaphoreSpec`, `SemaphoreSlots`; with the scheduler, `SemaphoreRuns` | `Semaphores` |
| pipes | `PipeSpec`, `Bits`; with the scheduler, `PipeRuns` | `Pipe` |
| philosophers, sync test | `Philosophers`, `SyncWorkers` (step protocols); on the semaphore table, `SyncOnTable` | |
| numbers as text | `Numerals`, `Parsing` | the methods in the same files |

`Powers`, `Words`, `Sums` and `Memory` hold the arithmetic and the memcpy the others share.

Concurrency. System calls enter through an interrupt gate (`Kernel/idt/idtLoader.c:38-57`), so kernel
code between two yields cannot be interrupted. A blocking call is therefore one atomic step up to its
first yield, and one step each time the process is resumed. The class methods (`Wait` and `Resume`,
`Post`, `ReadCallback`, `WriteCallback`) are these steps; the protocols range over all interleavings
of them.

Conventions. The buddy tree's depth is a parameter `top` (15 in the kernel). Memory that may or may
not be had is a parameter `granted`, or one whose name ends so. Stack pointers are numbers, 0 for NULL.

## What the proofs brought out

* `mm_free` of the buddy allocator accepts the address just past the heap (its range test says `>`,
  not `>=`) and then searches from the wrong level. That address is the only accepted one for which the
  search goes wrong (`BuddySearch.SearchCorrectIff`): it releases the block that starts the heap and
  takes twice its size off `used_mem`, or, when the whole heap is one block, frees half of it while
  the counters say that all is free (`BuddyAllocator.Buddy.Free`).
* `get_level` subtracts one before the loop and compares with 256 inside it, so 257 bytes get a block
  of 256. Exactly which sizes are affected: `BuddyAllocator.BlockCoversIff`.
* `get_max_level` divides by `2^L` where a block has `256 * 2^L` bytes. It only makes the search start
  higher up; `BuddySearch.InitialIndexCovers` and `SearchReaches` show it still arrives.
* A ready process is dispatched within `40 * MAX_PROCESSES` switches as long as nobody is forced ahead
  of it and the running process is not killed, because a kill restarts the scan at slot 0.
  `SchedulerRuns.WaitBoundedIff` makes that exact: its wait is bounded if and only if such events are.
  `SchedulerRuns.KillsCanStarve` is a run in which a process that keeps starting a child and waiting
  for its death starves another one for good, and `Starvation.StarveFor` has the kernel's own calls go
  through it from a fresh start, for as many rounds as one likes.
* The one-byte value of a semaphore is the number of units on offer if and only if no post was made at
  255, and 256 less for each one that was (`SemaphoreSpec.UnitsConserved`, `ExactIffNoPostAtTop`).
* A semaphore wait or a blocking pipe pass does not look whether it got a node in the wait queue. Without
  one its process blocks and is never woken again; a run leaves nobody behind in this way if and only
  if every such node was granted (`SemaphoreSpec.NoneStrandedIff`, `PipeSpec.NoneStrandedIff`), and
  only those processes ever miss a wake-up (`SemaphoreSpec.NoWakeupLostOnAnyRun`).
* Sleepers on a semaphore are woken first come, first woken (`SemaphoreSpec.FirstComeFirstWoken`), but a
  woken one can find its unit taken and go to the back of the queue again, any number of times
  (`SemaphoreSpec.BargingStarves`).
* A named semaphore is in the table exactly while somebody holds it, as long as no open finds 255 links
  (`SemaphoreSlots.KeptWhileHeld`); with 257 holders one close frees it under the other 256
  (`SemaphoreSlots.FreedUnderHolders`).
* A process keeps the processor for exactly `19 - priority` ticks (`SchedulerLaws.SliceIsPriority`). The
  mark that forces a process outlives its death, so a process of any priority created in its slot is
  forced (`SchedulerLaws.CreatedUrgent`).
* Philosophers who are neighbours never hold their forks together, but the display can show both as
  EATING, since a philosopher posts his forks before his state is changed:
  `Philosophers.DisplayCanShowBoth` gives the run for every size of table, and `ShownNeighbours`
  says exactly when it does.
* `str_to_int` undoes `int_to_str` exactly for the numbers that fit 32 bits, `hex_to_uint` undoes
  printing in base 16 exactly below `2^32`; beyond that they give the low 32 bits. Spaces, signs, what
  follows the number, letter case, prefixes and bad characters: `Parsing.ParseInContext`,
  `ParsePrefixedHex`, `HexRejects`.

## Model

| member | source | states |
|---|---|---|
| BuddyTree.DisjointIffUnrelated | Kernel/drivers/buddyMemoryManager.c:79-84 | the address ranges of two nodes are disjoint if and only if neither is an ancestor of the other |
| BuddyTree.StartClosedForm | Kernel/drivers/buddyMemoryManager.c:79-84 | the address arithmetic of get_ptr is where halving the heap from the root puts the node |
| BuddyTree.InsideHeap | Kernel/drivers/buddyMemoryManager.c:79-84 | every node's block lies inside the heap |
| BuddySummaries.AntichainDisjoint | Kernel/drivers/buddyMemoryManager.c:98-119 | blocks handed out at the same time never overlap |
| BuddySummaries.VacantIffSummaryZero | Kernel/drivers/buddyMemoryManager.c:70-72 | the two fields tested by get_first_free_index are both zero exactly when the node's range meets no allocated block |
| BuddySummaries.AgreesAfterAdd | Kernel/drivers/buddyMemoryManager.c:197-198 | after update_parents and set_used, every node's two summaries again say what the larger allocated set implies |
| BuddySummaries.AgreesAfterRemove | Kernel/drivers/buddyMemoryManager.c:219-220 | the same for a release: clearing a whole subtree's flags loses no other block's flag |
| BuddySummaries.UnitsAfterAdd | Kernel/drivers/buddyMemoryManager.c:200-200 | the memory in use under any node grows by exactly the block's size, or not at all |
| BuddySummaries.UnitsFit | Kernel/drivers/buddyMemoryManager.c:200-200 | blocks in use under a node never add up to more than the node |
| BuddySearch.StartAligned | Kernel/drivers/buddyMemoryManager.c:143-156 | the offset of a block is a multiple of the power that get_max_level tests for its level |
| BuddySearch.MaxLevelIsMax | Kernel/drivers/buddyMemoryManager.c:143-156 | the level found is the highest whose power divides the offset |
| BuddySearch.InitialIndexCovers | Kernel/drivers/buddyMemoryManager.c:136-141 | the node the search starts from is on the level asked for and its block contains the address |
| BuddySearch.SearchReaches | Kernel/drivers/buddyMemoryManager.c:121-134 | from any node above a live block the descent ends at that block, with its level |
| BuddySearch.SearchFindsOnlyLive | Kernel/drivers/buddyMemoryManager.c:121-134 | whatever the descent finds is an allocated node that starts at the address, never a descendant of one |
| BuddySearch.SearchCorrectInside | Kernel/drivers/buddyMemoryManager.c:204-217 | for every address inside the heap the search finds the block that starts there, and finds nothing when there is none |
| BuddySearch.EndSearchMisses | Kernel/drivers/buddyMemoryManager.c:207-213 | for the address just past the heap the search finds the block that starts the heap, one level too high; node 1 when the whole heap is one block; and leaves the tree when no block starts the heap |
| BuddySearch.SearchCorrectIff | Kernel/drivers/buddyMemoryManager.c:204-217 | among the addresses the range test accepts, the search is right if and only if the address is not the one just past the heap |
| BuddyAllocator.Buddy.constructor | Kernel/drivers/buddyMemoryManager.c:158-181 | the initial tree agrees with no block allocated |
| BuddyAllocator.Buddy.GetLevel | Kernel/drivers/buddyMemoryManager.c:86-96 | size <= 257 * 2^level, and no lower level satisfies that |
| BuddyAllocator.Buddy.GetFirstFreeIndex | Kernel/drivers/buddyMemoryManager.c:65-77 | the leftmost node of the level that meets no allocated block; -1 exactly when the level has none |
| BuddyAllocator.Buddy.UpdateParents | Kernel/drivers/buddyMemoryManager.c:98-106 | the counts of the node and of all its ancestors, and of nobody else, change by delta |
| BuddyAllocator.Buddy.SetUsed | Kernel/drivers/buddyMemoryManager.c:108-119 | the flags of the node and all its descendants, and of nobody else, take the new state |
| BuddyAllocator.Buddy.Alloc | Kernel/drivers/buddyMemoryManager.c:183-202 | the leftmost vacant block of the least fitting level is added to the allocated set and its address returned; NULL only for a bad size or a full level, and then nothing changes; summaries and counters stay right |
| BuddyAllocator.Buddy.GetMaxLevel | Kernel/drivers/buddyMemoryManager.c:143-156 | the highest level whose bare power of two divides the offset |
| BuddyAllocator.Buddy.Free | Kernel/drivers/buddyMemoryManager.c:204-226 | exactly the live block that starts at the address is released, and any other address inside or outside the heap changes nothing; the address just past the heap releases the block that starts the heap, with the tree still consistent but twice its size taken off used_mem; when that block is the whole heap, both counters drop to 0, while the root and all of the right half still count as used |
| BuddyAllocator.Buddy.Release | Kernel/drivers/buddyMemoryManager.c:219-223 | for a live node the tree agrees with the remaining blocks afterwards, and used_mem drops by the size of the level it was told |
| BuddyAllocator.Buddy.UsedMemFits | Kernel/drivers/buddyMemoryManager.c:200-223 | used_mem is never negative and never above the heap size |
| BuddyAllocator.AllocThenFree | Kernel/drivers/buddyMemoryManager.c:183-226 | an allocation freed again restores both summaries of every node and both counters |
| BuddyAllocator.OneStartPerBlock | Kernel/drivers/buddyMemoryManager.c:204-226 | an address is the start of at most one live block |
| BuddyAllocator.LevelIsLeast | Kernel/drivers/buddyMemoryManager.c:86-96 | any level that satisfies the test is at least the one answered |
| BuddyAllocator.BlockCoversIff | Kernel/drivers/buddyMemoryManager.c:86-96 | the block given covers the request if and only if the size is in none of the gaps (256 * 2^k, 257 * 2^k] |
| BuddyAllocator.Size257IsNotCovered | Kernel/drivers/buddyMemoryManager.c:86-96 | the smallest such request |
| BuddyAllocator.LevelInRange | Kernel/drivers/buddyMemoryManager.c:187-188 | every size from 1 to the heap size gets a level of the tree |
| BuddyAllocator.ReleasedIsConsistent | Kernel/drivers/buddyMemoryManager.c:219-223 | after a release the tree agrees with the remaining blocks, still pairwise unrelated, and the sum drops by the block's size |
| FreeListSpec.HeadersApart | Kernel/drivers/freeListMemoryManager.c:13-17 | every block holds its own header, so headers never overlap one another or the end marker |
| FreeListSpec.CutWhenWorth | Kernel/drivers/freeListMemoryManager.c:64-69 | a block is cut if and only if more than 32 bytes would be left over; then exactly the request is handed out, otherwise the whole block |
| FreeListSpec.JoinKeepsPartition | Kernel/drivers/freeListMemoryManager.c:144-154 | replacing two touching blocks by their union keeps every byte of the heap in exactly one block |
| FreeListSpec.SplitKeepsPartition | Kernel/drivers/freeListMemoryManager.c:64-69 | so does cutting a block in two |
| FreeListSpec.InsertForm | Kernel/drivers/freeListMemoryManager.c:136-165 | coalescing on both sides replaces exactly the one, two or no neighbours that touch the block |
| FreeListSpec.InsertOk | Kernel/drivers/freeListMemoryManager.c:136-165 | giving back a live block keeps the exact partition, the strict address order, the gaps between free blocks and the alignment |
| FreeListSpec.InsertSize | Kernel/drivers/freeListMemoryManager.c:136-165 | the free memory grows by exactly the block's size |
| FreeListSpec.CarveOk | Kernel/drivers/freeListMemoryManager.c:60-74 | handing out the front of a free block keeps all of that, and the new block is disjoint from every live one |
| FreeListSpec.CarveSize | Kernel/drivers/freeListMemoryManager.c:60-71 | the free memory shrinks by exactly the size handed out |
| FreeListSpec.LiveSizeWithout | Kernel/drivers/freeListMemoryManager.c:94-94 | the live memory shrinks by exactly the block given back |
| FreeListSpec.InsertRest | Kernel/drivers/freeListMemoryManager.c:64-69 | putting the rest of a split block back through insert_block never coalesces |
| FreeListSpec.CarveThenInsert | Kernel/drivers/freeListMemoryManager.c:52-98 | taking a block and giving it back returns the identical list |
| FreeListSpec.AllFreeIsOneBlock | Kernel/drivers/freeListMemoryManager.c:136-165 | coalescing is complete: with nothing handed out there is a single free block, the whole heap |
| FreeListSpec.ReleaseAllInAnyOrder | Kernel/drivers/freeListMemoryManager.c:81-165 | releasing the live blocks in any order ends in that single block |
| FreeListAllocator.FreeList.constructor | Kernel/drivers/freeListMemoryManager.c:102-134 | the heap starts as one aligned free block between base and end marker, using all of the region but alignment and the marker |
| FreeListAllocator.FreeList.Alloc | Kernel/drivers/freeListMemoryManager.c:30-79 | NULL if and only if the size is 0, has the top bit, or fits no free block once rounded; otherwise the lowest-address fitting block, at most 32 bytes too large; partition, order, counters kept |
| FreeListAllocator.FreeList.RoundRequest | Kernel/drivers/freeListMemoryManager.c:36-49 | below the reserved bit the wrap tests never fire and the request becomes header plus size, rounded up to 8 |
| FreeListAllocator.FreeList.FindFit | Kernel/drivers/freeListMemoryManager.c:52-58 | stops at the first block large enough, or at the end marker, with its predecessor |
| FreeListAllocator.FreeList.TakeFirstFit | Kernel/drivers/freeListMemoryManager.c:51-76 | fails only when no free block is large enough, otherwise hands out the first |
| FreeListAllocator.FreeList.Cut | Kernel/drivers/freeListMemoryManager.c:61-69 | the headers left in memory link exactly the list without the part taken |
| FreeListAllocator.FreeList.PutRest | Kernel/drivers/freeListMemoryManager.c:64-69 | the rest of a split block is linked in the place of the whole one |
| FreeListAllocator.FreeList.Free | Kernel/drivers/freeListMemoryManager.c:81-100 | a live block goes back on the list, coalesced; NULL, or a block already freed, whether or not it has been coalesced since, changes nothing |
| FreeListAllocator.FreeList.GiveBack | Kernel/drivers/freeListMemoryManager.c:92-97 | the header is unmarked, the counters drop by exactly the block, and only live blocks stay marked |
| FreeListAllocator.FreeList.FindPlace | Kernel/drivers/freeListMemoryManager.c:142-142 | the last element of the chain below the block |
| FreeListAllocator.FreeList.InsertBlock | Kernel/drivers/freeListMemoryManager.c:136-165 | afterwards the headers link exactly the coalesced list, and no other header was touched |
| FreeListAllocator.FreeList.LinkIn | Kernel/drivers/freeListMemoryManager.c:150-164 | the merge to the right and the relinking, for a block that may already have been merged to the left |
| FreeListAllocator.FreeList.AbsorbNext | Kernel/drivers/freeListMemoryManager.c:150-160 | the header absorbs its successor if it touches it, but never the end marker |
| FreeListAllocator.NothingAboveTheSum | Kernel/drivers/freeListMemoryManager.c:51-51 | a request larger than all free memory together fits no block, so the gate never rejects a satisfiable one |
| FreeListAllocator.AllocThenFree | Kernel/drivers/freeListMemoryManager.c:30-100 | an allocation freed again leaves list, live blocks and counters as they were |
| FreeListAllocator.FreeAll | Kernel/drivers/freeListMemoryManager.c:81-165 | freeing every live block, in any order and with repetitions, leaves one free block of total_mem and used_mem and mem_chunks at zero |
| SchedulerSpec.ScanFinds | Kernel/processes/scheduler.c:241-254 | the cyclic scan answers the ready process nearest after the cursor, and the kernel only when none is ready |
| SchedulerSpec.SwitchInv | Kernel/processes/scheduler.c:108-138 | a switch keeps quantums in 0..39, a live current process and nobody else RUNNING |
| SchedulerSpec.NextInv | Kernel/processes/scheduler.c:38-147 | every entry point keeps that |
| SchedulerSpec.Initial | Kernel/processes/scheduler.c:30-36 | the state after sch_init satisfies it |
| SchedulerRuns.OneRunning | Kernel/processes/scheduler.c:108-138 | after a switch exactly the dispatched process is RUNNING, and none when the kernel is resumed |
| SchedulerRuns.KernelIffIdle | Kernel/processes/scheduler.c:119-129 | the kernel context is resumed if and only if no process is ready |
| SchedulerRuns.ContextsKept | Kernel/processes/scheduler.c:108-138 | over every run the stack pointer stored for a live process or the kernel is the last one saved for it |
| SchedulerRuns.SwitchResumes | Kernel/processes/scheduler.c:126-137 | what a switch returns is the context last saved for the one it resumes, or its creation context |
| SchedulerRuns.KillRemoves | Kernel/processes/scheduler.c:58-76 | a kill leaves the process inactive and not current, and touches no other slot |
| SchedulerRuns.DeadStaysDead | Kernel/processes/scheduler.c:58-138 | over every run a killed slot is not dispatched until a process is created in it |
| SchedulerRuns.SwitchBringsCloser | Kernel/processes/scheduler.c:108-138 | a switch that passes p over and forces no other makes (distance from the cursor, quantums left) smaller |
| SchedulerRuns.OthersDoNotDelay | Kernel/processes/scheduler.c:38-106 | no other event makes it larger, except the kill of the running process |
| SchedulerRuns.WaitIsPaid | Kernel/processes/scheduler.c:108-254 | over any run in which p stays ready, the switches it sits through are at most its patience plus 1280 for every event that puts it back: a kill of the running process, or a switch to another forced one |
| SchedulerRuns.PutBacksNeedSwitches | Kernel/processes/scheduler.c:72-138 | in the other direction, such events are at most twice the switches, and one |
| SchedulerRuns.WaitBoundedIff | Kernel/processes/scheduler.c:108-254 | over any collection of runs in which p stays ready, its waits are bounded if and only if the events that put it back are |
| SchedulerRuns.BoundedWaiting | Kernel/processes/scheduler.c:108-254 | a process that stays ready and is not put back is dispatched before 1280 switches |
| SchedulerRuns.QuietRun | Kernel/processes/scheduler.c:38-106 | a run of switches, blocks and unblocks puts nobody back while no process has real-time priority |
| SchedulerRuns.KillsCanStarve | Kernel/processes/scheduler.c:72-73 | n rounds are, for every n, a run of 2n switches, none of them forced and every creation in the lowest free slot, in which slot 3 is ready throughout and put back n times: a process starts a child, waits for it and is woken by its death, and each such kill restarts the scan at slot 0 |
| SchedulerRuns.ChurnReached | Kernel/processes/process.c:45-47 | the state those runs start from is reached from sch_init, with every creation in the lowest free slot and no forced switch |
| SchedulerLaws.SliceIsPriority | Kernel/processes/scheduler.c:119-138 | a process that a switch has picked, forced or by the scan, runs on through k ticks if and only if k is at most 19 - priority, or nobody else is ready |
| SchedulerLaws.UrgentRunLonger | Kernel/processes/scheduler.c:235-239 | so of two processes the more urgent one never gets the shorter slice |
| SchedulerLaws.SliceOnAnyRun | Kernel/processes/scheduler.c:235-239 | on every run from the start the slice is fixed by the last priority a creation or a request gave |
| SchedulerLaws.BlockEndsTurn | Kernel/processes/scheduler.c:86-87 | whoever blocks while running gives up the rest of its slice, even if it is awake again before the switch |
| SchedulerLaws.NiceSets | Kernel/processes/scheduler.c:197-209 | an accepted request sets the slot's priority to the one asked for and nothing else; any other changes nothing |
| SchedulerLaws.PrioritiesKept | Kernel/processes/scheduler.c:46-52 | over every run the priority of a slot is the last one given to it: by a creation, 0 for an invalid one, or by a valid request while it was live |
| SchedulerLaws.ExitStatusKept | Kernel/processes/scheduler.c:58-70 | over every run a slot's exit status is that of the last process killed in it |
| SchedulerLaws.CreatedUrgent | Kernel/processes/scheduler.c:46-54 | while the running process has slice left and nobody is forced, the next tick goes to the process just created if and only if its priority is -20 to -5 or its slot was still marked as the one to force |
| SchedulerLaws.UrgentRunsNext | Kernel/processes/scheduler.c:49-50 | a process created at -20 to -5 is dispatched by the next switch, whatever happens before it that neither forces another nor stops this one |
| Starvation.KernelRound | Kernel/processes/process.c:117-171 | process creation, waiting, the kill with its wake-up, and the two switches take the scheduler through exactly the events of one such round, and leave the process table as it was |
| Starvation.SetUp | Kernel/processes/process.c:39-159 | from a fresh kernel, creations, a kill and a block by the shell lead to the state in which those rounds start |
| Starvation.StarveFor | Kernel/processes/process.c:39-171 | so for every n the kernel's own calls, from a fresh kernel, go through n such rounds with slot 3 ready throughout |
| Scheduler.SchedulerState.constructor | Kernel/processes/scheduler.c:30-36 | the initial state |
| Scheduler.SchedulerState.OnProcessCreate | Kernel/processes/scheduler.c:38-56 | the whole state after a creation; an invalid priority becomes the default, a real-time one forces the process |
| Scheduler.SchedulerState.OnProcessKilled | Kernel/processes/scheduler.c:58-76 | the whole state after a kill, and -1 exactly for a process that is not active |
| Scheduler.SchedulerState.BlockPid | Kernel/processes/scheduler.c:78-89 | the whole state after a block |
| Scheduler.SchedulerState.UnblockPid | Kernel/processes/scheduler.c:91-106 | the whole state after an unblock |
| Scheduler.SchedulerState.UnblockQueue | Kernel/libc/queue.c:116-136 | waking a queue's members from the last to the first |
| Scheduler.SchedulerState.ChangePriority | Kernel/processes/scheduler.c:197-209 | the slot holds the priority asked for if the request is accepted; otherwise -1 and no change |
| Scheduler.SchedulerState.GetNextReadyPid | Kernel/processes/scheduler.c:241-254 | the do-while loop answers what the cyclic scan answers, and ends |
| Scheduler.SchedulerState.SwitchContext | Kernel/processes/scheduler.c:108-138 | the loop-free switch, changed in place, does what Switch does and returns the stack pointer of whoever it resumes; the laws about Switch are the rows of SchedulerRuns and SchedulerLaws |
| Scheduler.SchedulerState.YieldContext | Kernel/processes/scheduler.c:140-147 | a yield is a switch with no quantums left |
| WaitQueueSpec.RemoveFirstOccurrence | Kernel/libc/queue.c:138-150 | exactly the first occurrence goes, and the rest keeps its order |
| WaitQueueSpec.RemoveMembers | Kernel/libc/queue.c:89-96 | a duplicate-free queue loses exactly that member |
| WaitQueueSpec.UnblockAllWakes | Kernel/libc/queue.c:116-136 | exactly the blocked live members become ready; nothing else of the scheduler's slots changes |
| WaitQueueSpec.UnblockAllForces | Kernel/libc/queue.c:128-136 | the forced-next slot ends on the frontmost real-time sleeper of the queue, or stays as it was |
| WaitQueueSpec.FrontmostUrgentRunsNext | Kernel/processes/scheduler.c:119-122 | the next switch dispatches that process |
| Queue.PidQueue.constructor | Kernel/libc/queue.c:21-33 | an empty chain |
| Queue.PidQueue.Add | Kernel/libc/queue.c:43-68 | the element is last in the chain; without memory, -1 and no change |
| Queue.PidQueue.Pop | Kernel/libc/queue.c:70-87 | the head's element, or -1; the chain loses its head |
| Queue.PidQueue.RemoveElem | Kernel/libc/queue.c:89-96 | the chain after the recursive relinking is the queue without the first occurrence |
| Queue.RemoveRec | Kernel/libc/queue.c:138-150 | the recursion relinks in place what remains |
| Queue.PidQueue.UnblockFirst | Kernel/libc/queue.c:98-114 | the head leaves the queue and is woken |
| Queue.PidQueue.UnblockEvery | Kernel/libc/queue.c:116-126 | the queue is empty and its members were woken from the tail on |
| Queue.FreeRec | Kernel/libc/queue.c:128-136 | the recursion wakes the tail before the head |
| ProcessSpec.DescendsComparable | Kernel/processes/process.c:128-130 | two ancestors of a process are ancestors of one another |
| ProcessSpec.SiblingsApart | Kernel/processes/process.c:128-130 | the subtrees of two children are disjoint and neither contains the parent |
| ProcessSpec.ChildOnPath | Kernel/processes/process.c:128-130 | whatever descends from p descends from something in p's child queue |
| ProcessSpec.KillMore | Kernel/processes/process.c:129-130 | the scheduler effects of killing child after child add up to those of killing their union |
| ProcessSpec.WakeLast | Kernel/processes/process.c:137-138 | waking p's own waiters completes the effect for the whole subtree |
| ProcessSpec.KillTreeSame | Kernel/processes/process.c:129-138 | the scheduler calls of a kill depend on nothing but the contexts of the subtree, so they are the same in the half-emptied table |
| ProcessSpec.UrgentWaiterForced | Kernel/processes/process.c:137-138 | the frontmost waiter of p that sleeps with real-time priority, survives, and waits for nobody else who dies is the one the next switch is forced to take |
| ProcessTable.MidTreeOk | Kernel/processes/process.c:128-130 | between two recursive kills the half-emptied tree is still one in which the next child can be killed |
| ProcessTable.MidAdvances | Kernel/processes/process.c:128-130 | a recursive kill removes the next child's subtree and leaves the rest as it was |
| ProcessTable.WholeSubtree | Kernel/processes/process.c:128-156 | p and the subtrees of its children are together p's subtree |
| ProcessTable.TreeAfterKill | Kernel/processes/process.c:117-159 | parent links and child queues agree and are acyclic after a kill |
| ProcessTable.TreeAfterCreate | Kernel/processes/process.c:99-112 | and after a creation |
| ProcessTable.TreeBeforeLink | Kernel/processes/process.c:99-107 | before it is linked, the new process is already one that can be killed |
| ProcessTable.CreationUndone | Kernel/processes/process.c:104-111 | killing the process that could not be linked leaves the table exactly as it was |
| ProcessTable.CreationInScheduler | Kernel/processes/process.c:92-112 | in the scheduler, a process that could not be linked leaves its slot inactive with exit status 255 and no other slot changed; one that could is ready; an urgent one is marked either way |
| ProcessTable.OrderAfterCreate | Kernel/processes/process.c:108-108 | every child queue lists the children in the order they were created, after a creation |
| ProcessTable.OrderAfterKill | Kernel/processes/process.c:128-135 | and after a kill; so children are killed oldest first |
| ProcessTable.StillInStep | Kernel/processes/process.c:117-159 | a slot of the table is in use exactly when the scheduler's is, after a kill |
| ProcessTable.MidCalls | Kernel/processes/process.c:128-130 | the next child's calls continue those of p's kill as if the whole tree were still there |
| ProcessTable.Table.constructor | Kernel/processes/process.c:34-34 | the empty table is consistent |
| ProcessTable.Table.Create | Kernel/processes/process.c:39-115 | the lowest free slot is taken and linked both ways to the current process; refused, full or out of memory, -1 and no change; without memory to link it, -1 and the table as before, the scheduler having created and killed it; a caller already killed is switched away for good |
| ProcessTable.Table.CreateNow | Kernel/processes/process.c:45-115 | the same for a living caller |
| ProcessTable.Table.KillUnlinked | Kernel/processes/process.c:104-111 | the table is as before the creation, consistent, and the scheduler has created and killed the process |
| ProcessTable.Table.ProcKill | Kernel/processes/process.c:117-159 | the recursion ends, and kills exactly p and its descendants: their slots are cleared, p leaves its parent's queue, every blocked live waiter of a killed process is ready, all other contexts and slots are unchanged; the scheduler, forced-next slot included, is as after killing p, then each child's subtree in queue order, then waking p's waiters, so that the frontmost real-time waiter is the one forced |
| ProcessTable.Table.Kill | Kernel/processes/process.c:117-159 | the same for a kill from outside, with the consistency of tree and scheduler, and the order of the child queues, kept |
| ProcessTable.Table.UnblockOnKilled | Kernel/processes/process.c:161-171 | the waiter is last in the queue of a live process; -1 for any other, or without memory for the queue; without memory for the node, 0 and no change |
| SemaphoreSpec.QueuedIsCovered | Kernel/ipc/semaphore.c:81-123 | while a process is queued on a semaphore that has units, another has been woken for them |
| SemaphoreSpec.NoLostWakeup | Kernel/ipc/semaphore.c:81-123 | so is it for every sleeper while all sleepers are queued |
| SemaphoreSpec.NextStranded | Kernel/ipc/semaphore.c:93-98 | a step leaves its caller asleep outside the queue exactly when it blocks it without a queue node, and no step ends that for anyone |
| SemaphoreSpec.NextInv | Kernel/ipc/semaphore.c:81-123 | any other step keeps: the queue holds exactly the sleepers, each once, and with sleepers the units are at most the woken |
| SemaphoreSpec.RunQueuesOk | Kernel/ipc/semaphore.c:81-123 | every run, nodes granted or not, keeps: the queue holds only sleepers, each once, and while it holds any, the units are at most the woken |
| SemaphoreSpec.StrandedForever | Kernel/ipc/semaphore.c:93-98 | no continuation of a run wakes a process that sleeps outside the queue |
| SemaphoreSpec.NoneStrandedIff | Kernel/ipc/semaphore.c:81-123 | a run ends with every sleeper queued if and only if every wait that blocked during it got its queue node |
| SemaphoreSpec.NoWakeupLostOnAnyRun | Kernel/ipc/semaphore.c:81-123 | from a start with nobody waiting, under any interleaving, the only process that can sleep on beside units nobody was woken for is one that got no queue node; none can when every node was granted |
| SemaphoreSpec.StrandedLosesPost | Kernel/ipc/semaphore.c:107-123 | and it does so: with nobody queued or woken, the next post leaves it asleep beside the unit |
| SemaphoreSpec.UnitsConserved | Kernel/ipc/semaphore.c:81-123 | over every run value = initial + posts - completed waits - 256 for each post made at 255 |
| SemaphoreSpec.UnitsModulo | Kernel/ipc/semaphore.c:118-118 | so it is always right modulo 256 |
| SemaphoreSpec.ExactIffNoPostAtTop | Kernel/ipc/semaphore.c:118-118 | over every run the value is exactly initial + posts - completed waits if and only if no post was made at 255 |
| SemaphoreSpec.PostWakesHead | Kernel/ipc/semaphore.c:120-120 | a post wakes the head of its semaphore's queue and nobody else |
| SemaphoreSpec.FirstComeFirstWoken | Kernel/ipc/semaphore.c:92-120 | on every run, the queue at the start followed by those that blocked with a node is those woken by posts followed by the queue at the end, in the same order |
| SemaphoreSpec.WokenInTurn | Kernel/ipc/semaphore.c:92-120 | so a sleeper with i processes queued before it is the one woken by the post after the first i |
| SemaphoreSpec.BargingStarves | Kernel/ipc/semaphore.c:93-100 | for every n, a run in which a sleeper is woken n times by n posts and still sleeps, because each unit goes to another first |
| SemaphoreSlots.OpenJoinsOrMakes | Kernel/ipc/semaphore.c:32-57 | an open answers a slot of that name, one link more and value and queue kept if it was there, otherwise new with the value asked for and one link; no other slot changes; it fails only when it cannot make one, and changes nothing |
| SemaphoreSlots.FreedByLastClose | Kernel/ipc/semaphore.c:59-79 | a slot is freed exactly by the close that finds one link, and filled only by an open; no call but a wait or post changes its value and queue |
| SemaphoreSlots.LinksConserved | Kernel/ipc/semaphore.c:32-79 | over every sequence of opens, closes, waits and posts the links of a name are what they were plus its successful opens minus its closes, minus 256 for each time the byte wrapped up |
| SemaphoreSlots.LinksModulo | Kernel/ipc/semaphore.c:37-76 | so they are right modulo 256, and exact if and only if the byte wrapped as often up as down |
| SemaphoreSlots.KeptWhileHeld | Kernel/ipc/semaphore.c:70-77 | as long as no open finds 255 links, the name is in the table if and only if somebody holds it |
| SemaphoreSlots.FreedUnderHolders | Kernel/ipc/semaphore.c:37-74 | with 257 holders, one close frees the slot |
| Semaphores.SemaphoreTable.constructor | Kernel/ipc/semaphore.c:19-20 | all slots empty, all locks free |
| Semaphores.SemaphoreTable.Wait | Kernel/ipc/semaphore.c:81-105 | up to its first yield sem_wait takes a unit, or blocks the caller, queued last if there is memory for the node; it ends with every lock free and touches no other semaphore; -1 for an invalid one |
| Semaphores.SemaphoreTable.Resume | Kernel/ipc/semaphore.c:92-101 | the same when the sleeper is dispatched again |
| Semaphores.SemaphoreTable.WaitPass | Kernel/ipc/semaphore.c:91-103 | one turn of the loop, with the lock held: a caller that blocks goes to the back of the queue if there is memory for the node |
| Semaphores.SemaphoreTable.Post | Kernel/ipc/semaphore.c:107-123 | one unit more, the head of the queue woken, every lock free afterwards |
| Semaphores.SemaphoreTable.SearchSemaphore | Kernel/ipc/semaphore.c:125-133 | the first slot with that name, or -1 when no slot has it |
| Semaphores.SemaphoreTable.SearchNext | Kernel/ipc/semaphore.c:135-143 | the first empty slot, or -1 when there is none |
| Semaphores.SemaphoreTable.CreateSlot | Kernel/ipc/semaphore.c:145-164 | a new semaphore with one link in the slot; without memory, nothing changes |
| Semaphores.SemaphoreTable.Open | Kernel/ipc/semaphore.c:32-57 | joins the semaphore of that name with one link more, or makes one with one link in the first free slot; all others are as they were and every lock is free |
| Semaphores.SemaphoreTable.Close | Kernel/ipc/semaphore.c:59-79 | one link fewer, or with the last link the slot is freed and whoever waits is woken |
| Semaphores.SemaphoreTable.FreeSlot | Kernel/ipc/semaphore.c:166-173 | everyone still queued is woken and the slot is empty |
| Semaphores.SemaphoreTable.OneSlot | Kernel/ipc/semaphore.c:81-123 | work on one semaphore changes its slot of the table and no other |
| SemaphoreRuns.StepMatches | Kernel/ipc/semaphore.c:92-98 | through every step the sleepers of the protocol are exactly the scheduler's blocked processes |
| SemaphoreRuns.TraceRuns | Kernel/ipc/semaphore.c:81-123 | every run of semaphore calls by the running process, ticks and yields is a run of the scheduler |
| SemaphoreRuns.WokenIsDispatchable | Kernel/ipc/semaphore.c:81-123 | after every such run a woken process is ready or running, so no wake-up is lost on its way through the scheduler either |
| SemaphoreRuns.WokenIsServed | Kernel/ipc/semaphore.c:92-101 | a woken process is dispatched before its patience is used up, plus 1280 switches for each forced dispatch of another |
| SemaphoreRuns.WokenIsServedInTime | Kernel/ipc/semaphore.c:92-101 | hence before 1280 switches where no process has real-time priority |
| Bits.SmearStep | Kernel/ipc/pipe.c:247-251 | one shift-and-or doubles the number of bits over which a set bit is smeared |
| Bits.SmearedFull | Kernel/ipc/pipe.c:246-251 | thirty-two smeared bits of a number below 2^32 are all ones from its top bit down |
| Bits.RoundUpBufferSize | Kernel/ipc/pipe.c:243-254 | the least power of two that is at least n, for n from 1 to 2^32 |
| Memory.Memcpy | Kernel/libc/libc.c:16-46 | the destination holds the source bytes in place and is otherwise unchanged |
| Pipe.RingDrop | Kernel/ipc/pipe.c:332-343 | advancing the read index modulo the size drops exactly the oldest bytes |
| Pipe.RingAppend | Kernel/ipc/pipe.c:381-398 | storing behind the bytes held, in one part or two, appends to them |
| Pipe.GrownSize | Kernel/ipc/pipe.c:359-360 | the new size holds what is required, up to 4096, and is the least such power of two |
| Pipe.PipeObject.constructor | Kernel/ipc/pipe.c:61-89 | an empty pipe without a buffer |
| Pipe.PipeObject.CopyOut | Kernel/ipc/pipe.c:334-340 | the oldest bytes reach the caller in order, wherever the buffer wraps |
| Pipe.PipeObject.ReadBuffer | Kernel/ipc/pipe.c:325-349 | exactly min(count, held) of the oldest bytes are delivered and removed, and then all writers are woken |
| Pipe.PipeObject.Grow | Kernel/ipc/pipe.c:356-377 | the larger buffer holds the same bytes in the same order |
| Pipe.PipeObject.CopyIn | Kernel/ipc/pipe.c:381-398 | the data stands behind the bytes held, wherever the buffer wraps |
| Pipe.PipeObject.WriteBuffer | Kernel/ipc/pipe.c:351-405 | exactly min(count, 4096 - held) bytes are accepted, whatever the current buffer size, and then all readers are woken; without memory, -1 and no change |
| Pipe.PipeObject.ReadCallback | Kernel/ipc/pipe.c:407-423 | up to its first yield a read delivers, or blocks the caller while there may be writers, queued last if there is memory for the node |
| Pipe.PipeObject.WriteCallback | Kernel/ipc/pipe.c:425-448 | up to its first yield a write is accepted as far as the pipe has room, and blocks the caller exactly when something is left, queued last if there is memory for the node; no bytes are written at once; a first attempt without memory ends with -1 and no change |
| PipeSpec.NextInv | Kernel/ipc/pipe.c:407-448 | every pass keeps: written = read ++ held, readers queued only on an empty pipe, writers only on a full one; it strands its caller exactly when it blocks it without a queue node, and ends that for nobody |
| PipeSpec.FirstInFirstOut | Kernel/ipc/pipe.c:325-448 | on every run of blocking readers and writers the bytes come out in the order they went in, none lost, at most 4096 held |
| PipeSpec.ReadsLongestPrefix | Kernel/ipc/pipe.c:328-348 | a read is answered with the longest prefix it asks for, short only if it leaves the pipe empty |
| PipeSpec.ReadSplits | Kernel/ipc/pipe.c:332-343 | two reads in a row deliver the bytes of one read of as many and leave the same pipe |
| PipeSpec.WritesLongestPrefix | Kernel/ipc/pipe.c:386-404 | a write takes the longest prefix that fits, short only if it leaves 4096 bytes held |
| PipeSpec.WriteSplits | Kernel/ipc/pipe.c:386-404 | two writes in a row store what one write of both would and leave the same pipe |
| PipeSpec.EveryReadInFull | Kernel/ipc/pipe.c:407-423 | on every run a read that returns got its full count or left the pipe empty, never nothing, and the answers one after the other are exactly what was read |
| PipeSpec.EveryWriteInOrder | Kernel/ipc/pipe.c:425-448 | on every run the bytes a process has written are those it asked to write, in order, none lost and none twice, up to what it is still waiting to write |
| PipeSpec.QueuesInOrder | Kernel/ipc/pipe.c:417-439 | on every run whoever queued up to read or to write leaves the queue in the order he came |
| PipeSpec.StrandedForever | Kernel/ipc/pipe.c:407-448 | no continuation of a run wakes a process that sleeps outside the queues |
| PipeSpec.NoneStrandedIff | Kernel/ipc/pipe.c:407-448 | a run ends with every sleeper queued if and only if every pass that blocked during it got its queue node |
| PipeSpec.NeverBothAsleep | Kernel/ipc/pipe.c:407-448 | a queued reader means an empty pipe and a queued writer a full one, so with every node granted a reader and a writer never sleep together |
| PipeSpec.NobodyReadyIffStuck | Kernel/ipc/pipe.c:407-448 | nobody is ready for a pass if and only if no call is unfinished, or the unfinished ones are all reads of an empty pipe, or all writes to a full one |
| PipeSpec.EveryRunProgresses | Kernel/ipc/pipe.c:407-448 | on every run of n processes the passes made after a wake-up are at most n + 1 for each read and each byte to be written; and with every node granted a run is stuck only as above |
| PipeRuns.PassMatches | Kernel/ipc/pipe.c:415-420 | through every pass the sleepers of the pipe are exactly the scheduler's blocked processes |
| PipeRuns.TraceRuns | Kernel/ipc/pipe.c:407-448 | every run of passes by the running process, ticks and yields is a run of the scheduler |
| PipeRuns.WokenIsDispatchable | Kernel/ipc/pipe.c:407-448 | after every such run a reader or writer that has been woken is ready or running |
| PipeRuns.WokenIsServed | Kernel/ipc/pipe.c:415-441 | it is dispatched before its patience is used up, plus 1280 switches for each forced dispatch of another |
| PipeRuns.WokenIsServedInTime | Kernel/ipc/pipe.c:415-441 | hence before 1280 switches where no process has real-time priority |
| Philosophers.StepKeepsInv | Userland/SampleCodeModule/programs/philosophers.c:107-143 | every step keeps: each fork and the gate has its one unit on offer or with exactly one philosopher |
| Philosophers.InitialInv | Userland/SampleCodeModule/programs/philosophers.c:171-188 | that holds when all semaphores have just been opened with one unit |
| Philosophers.NeighboursExclude | Userland/SampleCodeModule/programs/philosophers.c:131-142 | neighbours never both hold their two forks |
| Philosophers.NeighboursNeverEatTogether | Userland/SampleCodeModule/programs/philosophers.c:131-142 | so on every run, for every N >= 2, neighbours never eat together |
| Philosophers.NoDeadlock | Userland/SampleCodeModule/programs/philosophers.c:132-135 | in every reachable state with someone unfinished, someone can step |
| Philosophers.StepDecreases | Userland/SampleCodeModule/programs/philosophers.c:107-143 | every step, even a failed wait, brings the end nearer |
| Philosophers.EveryRunFeedsAll | Userland/SampleCodeModule/programs/philosophers.c:107-143 | for every N >= 2 a run has at most 32 N steps, and one that cannot go on has fed everyone and freed all semaphores |
| Philosophers.ShownNeighbours | Userland/SampleCodeModule/programs/philosophers.c:137-142 | two neighbours are shown as eating at once if and only if both are between setting that state and changing it again and one of them has already posted the fork between them |
| Philosophers.DisplayCanShowBoth | Userland/SampleCodeModule/programs/philosophers.c:110-113 | for every N >= 2 a run after which two neighbours are shown as eating |
| SyncWorkers.StepKeepsInv | Userland/SampleCodeModule/tests/test_sync.c:43-62 | every step keeps: links count the workers between open and close, and the slot's unit is on offer or with the one worker between wait and post |
| SyncWorkers.OneInside | Userland/SampleCodeModule/tests/test_sync.c:52-59 | at most one worker is between its wait and its post |
| SyncWorkers.NeverTwoInside | Userland/SampleCodeModule/tests/test_sync.c:52-59 | so on every run |
| SyncWorkers.FreedWithoutWaiters | Kernel/ipc/semaphore.c:70-74 | the close that frees the slot finds its queue empty and nobody on the way back from it |
| SyncWorkers.QuietInv | Userland/SampleCodeModule/tests/test_sync.c:43-50 | all of that holds when nobody has opened the semaphore yet |
| SyncWorkers.StepConserves | Userland/SampleCodeModule/tests/test_sync.c:16-23 | no increment is lost to the yield between read and write: counter plus what is still owed stays the same, modulo the 32 bits of the local copy |
| SyncWorkers.CounterAtEnd | Userland/SampleCodeModule/tests/test_sync.c:43-64 | workers that could not open have added nothing, all others everything |
| SyncWorkers.NoDeadlock | Userland/SampleCodeModule/tests/test_sync.c:43-62 | while someone has not finished, someone can step |
| SyncWorkers.EveryRunAddsUp | Userland/SampleCodeModule/tests/test_sync.c:25-64 | every run is bounded, and at its end the slot is free and the counter holds start plus all increments of the workers whose open succeeded, as a 32-bit int, which is the sum itself if and only if it fits or nobody's open did |
| SyncWorkers.PairsCancel | Userland/SampleCodeModule/tests/test_sync.c:74-83 | the increments of the test's three pairs sum to zero |
| SyncOnTable.OpenOnTable | Kernel/ipc/semaphore.c:32-57 | a worker's open is sem_open on the table, and it is refused exactly when that answers -1 |
| SyncOnTable.CloseOnTable | Kernel/ipc/semaphore.c:59-79 | a worker's close is sem_close on the table |
| SyncOnTable.StepOnTable | Userland/SampleCodeModule/tests/test_sync.c:43-62 | every step of a worker is its call on the table: no other semaphore changes, and the handle stays good while the slot is in use |
| Numerals.DigitCountIsMinimal | Userland/SampleCodeModule/libc/stdlib.c:78-106 | the count of digits k is the least with v < base^k |
| Numerals.DigitsMean | Userland/SampleCodeModule/libc/stdlib.c:86-90 | in every base from 2 to 36 the digits read back as the number, each below the base and the first not 0 unless it is the only one |
| Numerals.WriteDigits | Userland/SampleCodeModule/libc/stdlib.c:86-90 | the loop leaves the digits in reverse, at least one |
| Numerals.Reverse | Userland/SampleCodeModule/libc/stdlib.c:95-104 | the two-pointer loop reverses in place |
| Numerals.UintToBase | Userland/SampleCodeModule/libc/stdlib.c:78-107 | the buffer holds the digits, most significant first and without leading zeros, and a NUL; the rest is untouched |
| Numerals.IntToStr | Userland/SampleCodeModule/libc/stdlib.c:109-125 | the same with a sign, for every 64-bit number; the work buffer is large enough |
| Parsing.StrToInt | Userland/SampleCodeModule/libc/stdlib.c:172-195 | what the string up to its NUL means: spaces, a sign, then digits, in 32 bits |
| Parsing.ParsePrinted | Userland/SampleCodeModule/libc/stdlib.c:109-195 | parsing a printed number gives its low 32 bits, hence the number exactly when it fits |
| Parsing.ParseInContext | Userland/SampleCodeModule/libc/stdlib.c:179-194 | leading spaces are skipped, either sign is taken, and the first character that is no digit ends the number |
| Parsing.ParseNoNumber | Userland/SampleCodeModule/libc/stdlib.c:182-194 | anything that does not start with a number is 0 |
| Parsing.HexToUint | Userland/SampleCodeModule/libc/stdlib.c:143-170 | what the string means in base 16 with an optional prefix; any other character gives 0 |
| Parsing.OrIsSum | Userland/SampleCodeModule/libc/stdlib.c:166-166 | shifting by four and or-ing a digit in is multiplying by sixteen and adding, modulo 2^32 |
| Parsing.ParsePrintedHex | Userland/SampleCodeModule/libc/stdlib.c:78-170 | parsing a number printed in base 16 gives it back exactly below 2^32 |
| Parsing.HexIgnoresCase | Userland/SampleCodeModule/libc/stdlib.c:157-162 | the digits a to f may be in either case |
| Parsing.ParsePrefixedHex | Userland/SampleCodeModule/libc/stdlib.c:148-151 | a printed number in either case, plain, behind # or behind 0x, gives its low 32 bits |
| Parsing.HexRejects | Userland/SampleCodeModule/libc/stdlib.c:163-164 | one character that is no hexadecimal digit makes the answer 0 |
| Parsing.PrintThenParse | Userland/SampleCodeModule/libc/stdlib.c:109-195 | the same through one buffer |

## Left out

- BuddyAllocator.Buddy.Free: for the address just past the heap, promises nothing when no block starts the heap, or when the tree is a single node in use: the code then reads past the tree.
- FreeListAllocator.FreeList.Free: asks for NULL or an address with a header before it that was written once; for any other address the code reads whatever bytes lie there. It also takes such a header to be intact, which it need not be once the memory has been handed out again.
- ProcessTable.Table.ProcKill: null kill callback and no open descriptors, whose callbacks are arbitrary code.
- Semaphores.SemaphoreTable.Resume: asks that the slot is still in use; the code does not look again, and `SyncWorkers.FreedWithoutWaiters` shows when it need not.
- Philosophers.EveryRunFeedsAll: the wait queue's node is taken to be granted; `SemaphoreSpec.NoneStrandedIff` says what happens otherwise.
- SyncWorkers.EveryRunAddsUp: the same, though opening may fail.
- Pipe.PipeObject.WriteBuffer: asks for at least one byte or an existing buffer; the code divides by the buffer size otherwise.
- Semaphores.SemaphoreTable.Open: asks for a name shorter than 32 characters; the code copies longer ones past the end of their field.
- Bits.RoundUpBufferSize: for 1 to 2^32; the code has no shift by 32, and no caller passes more than 4096.
- Numerals.IntToStr: negation of the most negative number is taken to wrap, as it does in two's complement, and to be read back as unsigned.
- Parsing.StrToInt: signed overflow, undefined in C, is taken to wrap.
- The process table and the semaphores hold their queues as sequences; the linked queue is proved separately to behave like one. The queue's `last` and `count` fields are not modelled, since removal does not maintain them.
- Kernel memory of the allocators: only block headers and the tree; what users write into their blocks is not modelled. `mm_realloc` copies the new size from the old block and has no clean contract.
- Closing, unlinking and duplicating pipe ends, the descriptor tables, and end of file beyond the `open` flag of a read.
- Killing a process that waits on a semaphore or pipe, and the manual block and unblock calls, in the runs of semaphores and pipes: a stale queue entry then uses up a wake-up.
- Setting up the philosophers (they start before the gate is opened), their sleeping times and their printing.
- Names and arguments of processes, exit codes read by others.
- Interrupt setup, drivers, video, sound, keyboard, the shell, the bootloader and its file system: hardware, user interface or file I/O.
