# RT-Thread kernel models

Dafny models of the RT-Thread 3.1.4 kernel as this repository vendors it under `rt-thread/`, with
proofs about them. The allocators, the timer list, the scheduler and the IPC objects are covered; each is
written in the form the C code has, as classes whose fields and arrays change in place, and proved against
a specification that stands beside it.

`dafny verify dfyconfig.toml` checks everything.

| files | what they model |
|---|---|
| `HeapModel`, `HeapLaws`, `SmallMem` | the boundary-tag heap of `mem.c`: block list, its laws, and the word array that holds headers and payloads |
| `SkipRows`, `Timer`, `TimerSteps` | the timer list of `timer.c` under 32-bit tick wrap-around, with any number of skip-list rows; and its calls as a step system |
| `MqModel`, `MqHistory`, `MessageQueue` | message queues of `ipc.c`, as a step system over critical regions, with what receivers get traced back to the senders' calls, and as linked nodes |
| `MailboxModel`, `Mailbox` | mailboxes of `ipc.c`, as a step system and as a ring buffer |
| `Mutex`, `EventFlags` | the mutex with priority inheritance, and event sets, of `ipc.c` |
| `Bits`, `ReadyBits`, `Scheduler`, `RoundRobin` | `__rt_ffs`, the ready marks for up to 256 priorities, `scheduler.c` and `thread.c`, time slices of `clock.c` |
| `ThreadLists`, `ThreadSteps`, `ThreadCalls`, `WaitOrder` | the thread calls of `thread.c` as a step system over their locked regions, what may come in between, and the order of wait lists |
| `PageModel`, `PageHeap` | the page allocator of `slab.c` |
| `Zones`, `SlabModel`, `Slab`, `SlabSteps` | zones, chunks, page map, and `rt_malloc`/`rt_free` of `slab.c`, as whole calls and as a step system over its locked regions |
| `Rings`, `MemHeapModel`, `MemHeapLaws`, `MemHeap` | the two interlocked circular lists of `memheap.c`, in one word array with the payloads |
| `MemPoolModel`, `MemPool` | the fixed-block pool of `mempool.c`, as a step system and as linked words |
| `RtList` | the intrusive list of `rtservice.h` |
| `RtDef`, `Sequences`, `Numbers` | the machine word and error codes of `rtdef.h`, lists of distinct elements and a few facts about numbers, used throughout |

Sizes: `RT_ALIGN_SIZE` is 4, pointers and `rt_size_t` have 32 bits, a tick is an unsigned 32-bit counter.
Heap and pool addresses count words or bytes from the start of the memory they manage. Hooks, debug output and
statistics printing have no counterpart.

What is atomic: in the step systems (`MqModel`, `MailboxModel`, `MemPoolModel`, `SlabSteps`, `ThreadSteps`,
`TimerSteps`) a step is one interrupt-disabled region, one region guarded by the heap semaphore, or one read or
write outside of any, and any caller may take any step it has come to, in any order. In `Mutex` and `EventFlags`
each call is one region in the code too. The methods of `Scheduler` and `TimerSystem` are whole calls with nothing
in between, as from an interrupt handler or with interrupts off, and the regions they are made of; `ThreadCalls` and
`TimerSteps` say what else may come in between. The calls of `mem.c` are one region each, but for a moving
`rt_realloc`, which is an allocation, a copy and a release.

## Where the code does less than it says

The models follow the code. These are stated as theorems: the exact condition, and mostly a run that fails.

- `mem.c:118` calls `lfree` the lowest free block. A shrinking `rt_realloc` does not lower it;
  `HeapLaws.ShrinkKeepsLowestIff` says exactly when the comment stays true, `HeapLaws.HintLost` shows it fail.
- The search bound at `mem.c:293` is strict, so a last block of exactly the requested size is never found
  (`HeapLaws.FitsOrLast`, `HeapLaws.MallocIsFirstFit`, `HeapLaws.WholeHeapTurnedDown`).
- On a heap of fewer than 12 usable bytes the bound of that search wraps, and a request that reaches the search
  goes round `heap_end` for ever (`SmallMem.SearchHasNoEndIff`).
- `memheap.c:155` is strict as well: a request for all the free bytes is turned down though one block may hold
  them (`MemHeapModel.TurnedDownIff`, `MemHeapModel.WholePoolTurnedDown`).
- `RT_ALIGN` rounds up only while the sum stays below 2^32 (`RtDef.AlignIsRoundUpIff`).
- A wait on a mutex that times out does not lower the owner's priority again (`Mutex.TimeoutKeepsBoostIff`,
  `Mutex.BoostLeftBehind`).
- `rt_thread_resume`, `rt_thread_startup`, `rt_thread_delete` and `rt_thread_detach` let go of the interrupt lock
  between their test, their unlinking and their insertion. A tick, a waker or a second call in between can leave a
  thread on two lists or a ready bit without a thread (`ThreadCalls.CallIsSafeIff`, `ThreadSteps.RunKeepsIff`,
  `ThreadCalls.DeleteRace`, `ThreadCalls.ResumeRace`).
- `rt_timer_start` reads the tick, and `rt_timer_stop` clears the flag, outside their regions
  (`TimerSteps.RunKeepsIff`, `TimerSteps.LinkInTimeIff`, `TimerSteps.StartedTwice`, `TimerSteps.LinkedTooLate`,
  `TimerSteps.StopUndone`).
- A wait list in priority mode is not sorted again when a waiting thread's priority changes
  (`WaitOrder.RunSortedIff`, `WaitOrder.PassedOver`).
- A one-shot timer that starts itself in its own callback ends up listed but flagged inactive
  (`Timer.TimerSystem.Fire`, `Timer.TimerSystem.OneShotRestarted`).
- A wait on a memory pool that times out stays counted, and a later release may then resume a waiter that is
  not there (`MemPoolModel.NeverTrapsIff`, `MemPoolModel.TimeoutLeavesTrap`).

## Model

| member | source | states |
|---|---|---|
| HeapLaws.RunKeeps | rt-thread/src/mem.c:143-596 | after every run of malloc, free, and shrinking, moving or failing realloc from the initial heap: blocks tile the heap in rising order, no two neighbours are free, used_mem is the sum of the used extents, max_mem is exactly the largest used_mem so far, the hint is a free block or heap_end, and it is the lowest free block if no realloc shrank in place |
| HeapLaws.StepKeeps | rt-thread/src/mem.c:143-596 | the same for one operation, from any well-formed heap |
| HeapLaws.InitKeeps | rt-thread/src/mem.c:191-240 | the heap rt_system_heap_init builds is well formed, its hint is lowest, nothing is handed out |
| HeapLaws.UsedPlusFree | rt-thread/src/mem.c:336-356 | used extents and free extents add up to the offset of heap_end, for any blocks |
| HeapLaws.PayloadsApart | rt-thread/src/mem.c:298-390 | the payload of a used block meets no header and no other payload, and stays below heap_end |
| HeapLaws.MallocAddsRegion | rt-thread/src/mem.c:259-397 | rt_malloc hands out exactly one region, not handed out before: the first words of one free block, as many as asked for when the rest of the block has room for a header and 12 bytes - the rest is then a free block of its own - and else all the block has; used_mem goes up by that and a header; or it fails and changes nothing |
| HeapLaws.MallocKeeps | rt-thread/src/mem.c:298-390 | rt_malloc keeps the heap well formed, through split and near fit |
| HeapLaws.FitsOrLast | rt-thread/src/mem.c:292-298 | the strict loop bound loses exactly one fitting block: the last one, when its size is just the request |
| HeapLaws.WholeHeapTurnedDown | rt-thread/src/mem.c:292-298 | a fresh heap turns down a request for all its usable words, whatever its size |
| HeapLaws.MallocIsFirstFit | rt-thread/src/mem.c:292-374 | with the hint at the lowest free block rt_malloc returns the lowest block that suits, and fails only if none does but a last block of exactly the requested size |
| HeapLaws.MallocKeepsLowest | rt-thread/src/mem.c:367-374 | rt_malloc leaves the hint at the lowest free block |
| HeapLaws.HintIsLowest | rt-thread/src/mem.c:118 | for a hint that names a free block or the end, being lowest is the same as having no free block below |
| HeapLaws.FreeKeeps | rt-thread/src/mem.c:533-596 | rt_free keeps the heap well formed, takes back exactly the region it was given, whatever coalescing follows, and takes its extent off used_mem |
| HeapLaws.LiveDeterminesBlocks | rt-thread/src/mem.c:143-596 | in well-formed heaps of one size the regions handed out determine the whole block list, and used_mem with it: what a sequence of calls leaves depends on nothing else |
| HeapLaws.MallocThenFree | rt-thread/src/mem.c:259-596 | rt_free of what rt_malloc has just returned restores block list and used_mem, split and merge included |
| HeapLaws.FreesCommute | rt-thread/src/mem.c:533-596 | two blocks can be given back in either order: the block list is the same |
| HeapLaws.FreeKeepsLowest | rt-thread/src/mem.c:583-594 | rt_free, with plug_holes, leaves the hint at the lowest free block |
| HeapLaws.PlugForwardKeeps | rt-thread/src/mem.c:152-167 | merging with the next block moves no handed-out region and leaves only the left side to settle |
| HeapLaws.PlugBackwardKeeps | rt-thread/src/mem.c:169-180 | merging with the previous block moves no handed-out region and leaves no two free neighbours |
| HeapLaws.ShrinkKeeps | rt-thread/src/mem.c:458-484 | an in-place shrink exchanges the region for its first n words and touches no other |
| HeapLaws.ShrinkKeepsLowestIff | rt-thread/src/mem.c:458-484 | a shrink leaves the hint on the lowest free block iff the hint lay below the shrunk block or the block behind it was free |
| HeapLaws.HintLost | rt-thread/src/mem.c:458-484 | two allocations and one shrink after which a free block lies below the hint |
| HeapLaws.ReallocExchanges | rt-thread/src/mem.c:408-497 | rt_realloc of a live block exchanges its region for one of the words asked for, or up to a header and a smallest block more when it moves; it stays in place, with exactly those words, when it has them already or is cut to them; it keeps all other regions and moves used_mem by the difference; or it returns nothing, which it does only when it would have had to move, and leaves everything as it was |
| HeapLaws.MoveTarget | rt-thread/src/mem.c:488-496 | when rt_realloc moves, the new region was not handed out, the old one is still intact and found at the old address when it is freed |
| RtDef.AlignIsRoundUpIff | rt-thread/include/rtdef.h:281 | RT_ALIGN gives a multiple of 4, and the next one at or above its argument iff the sum does not leave 32 bits |
| SmallMem.SearchHasNoEndIff | rt-thread/src/mem.c:292-294 | for the loop of rt_malloc on any well-formed heap in its words: the offset reached after every number of passes is below the wrapped bound and its block, used or too short, sends the search on, iff the heap has less than 12 usable bytes; the offset stays inside the heap throughout |
| SmallMem.LiveOutsideHeaders | rt-thread/src/mem.c:298-390 | with headers in the same words as payloads, no word of a handed-out region belongs to any header |
| SmallMem.LiveApart | rt-thread/src/mem.c:298-390 | two handed-out regions share no word |
| SmallMem.SplitStored | rt-thread/src/mem.c:316-335 | the header words written by a split spell out the split block list: next by offset, prev inverse to it except at heap_end, tags |
| SmallMem.DropStored | rt-thread/src/mem.c:165-179 | the two words plug_holes writes spell out the list without the merged header |
| SmallMem.RetagStored | rt-thread/src/mem.c:576-578 | rewriting one tag spells out the list with that block used or free |
| SmallMem.SplitFrame | rt-thread/src/mem.c:465-478 | splitting writes into no region but its own, and there only behind the words kept |
| SmallMem.DropFrame | rt-thread/src/mem.c:165-179 | merging writes into no handed-out region |
| SmallMem.Allocator.constructor | rt-thread/src/mem.c:191-240 | the words and globals stand for the initial heap of the size computed from the two addresses |
| SmallMem.Allocator.SystemHeapInit | rt-thread/src/mem.c:191-240 | no heap iff two headers do not fit between the aligned addresses; otherwise one whose bytes end within 4 of the end address, nothing handed out, the hint lowest |
| SmallMem.Allocator.PlugHoles | rt-thread/src/mem.c:143-181 | the words become those of the block list merged forwards, then backwards; no handed-out word changes |
| SmallMem.Allocator.Search | rt-thread/src/mem.c:292-298 | the loop over next offsets from lfree stops at the first block that fits, or fails when none does |
| SmallMem.Allocator.AdvanceHint | rt-thread/src/mem.c:367-374 | the inner loop moves lfree to the next free block of the list, or to heap_end |
| SmallMem.Allocator.Malloc | rt-thread/src/mem.c:259-397 | on the array: the result and the new heap are those of the block-list rt_malloc, and the region is the one HeapLaws.MallocAddsRegion describes, bounded from above as well; no word of any live region changes, and a failing call changes no word at all |
| SmallMem.Allocator.Free | rt-thread/src/mem.c:533-596 | on the array: the new heap is that of the block-list rt_free, exactly the region given back is handed out no more, and no word of any remaining region changes |
| SmallMem.Allocator.Realloc | rt-thread/src/mem.c:408-497 | all ways out of rt_realloc, in the order of its branches: too large, zero size, null pointer, outside the heap, and resizing, which exchanges one region as HeapLaws.ReallocExchanges says |
| SmallMem.Allocator.Resize | rt-thread/src/mem.c:446-496 | a resized block keeps the first min(old, new) words of its payload, every other region keeps all its words, and failure leaves everything |
| SmallMem.Allocator.ShrinkAt | rt-thread/src/mem.c:458-484 | an in-place shrink keeps the words it promises and no other region changes |
| SmallMem.Allocator.Move | rt-thread/src/mem.c:488-496 | allocate, copy, free: the copied words equal the old ones, all other regions are untouched |
| SmallMem.Allocator.CopyWords | rt-thread/src/kservice.c:210-281 | copying between two regions that do not overlap transfers every word and writes nowhere else |
| Timer.AfterIsExactIff | rt-thread/src/timer.c:359-366 | the insertion comparison of two wrapped ticks orders the true deadlines iff they differ by less than 0x7fffffff one way and at most 0x80000001 the other |
| Timer.ExpiredIsExactIff | rt-thread/src/timer.c:512-516 | the wrapped expiry test selects exactly the deadlines at or before now, under the same condition |
| SkipRows.SplitOfSublist | rt-thread/src/timer.c:342-370 | the insertion point in a sublist is the image of the insertion point in the full row |
| SkipRows.InsertFromKeeps | rt-thread/src/timer.c:342-391 | for any number of rows and any height drawn: rows stay sorted, repetition-free sublists of the row below, and the bottom row is the old one with the timer behind everything not later than it |
| SkipRows.RemoveAllKeeps | rt-thread/src/timer.c:121-129 | removal takes the timer out of every row and keeps the skip list |
| Timer.TimerSystem.SearchRow | rt-thread/src/timer.c:345-367 | one row of the search ends at the split between not later and later true deadlines |
| Timer.TimerSystem.SearchAll | rt-thread/src/timer.c:342-370 | all rows end at their splits, each entered below the place found above |
| Timer.TimerSystem.Link | rt-thread/src/timer.c:376-391 | linking with heights from the counter's bits leaves a skip list whose bottom row has the timer at its split |
| Timer.TimerSystem.Unlist | rt-thread/src/timer.c:121-129 | the timer leaves every row; the others stay in order |
| Timer.TimerSystem.Unstart | rt-thread/src/timer.c:309-315 | the first region of rt_timer_start: off every row, flag cleared |
| Timer.TimerSystem.SetDeadline | rt-thread/src/timer.c:323-324 | the tick is read and timeout_tick written while the timer is off the list, and the list stays in order |
| Timer.TimerSystem.LinkIn | rt-thread/src/timer.c:326-396 | the second region, whatever came in between: an unlisted timer whose deadline is ahead, or at most lag behind with span + lag below RT_TICK_MAX / 2, gets its place by true deadline |
| Timer.TimerSystem.Start | rt-thread/src/timer.c:296-412 | with nothing in between, whatever the 32-bit tick: the timer is off its old place, active, due at now + init_tick, and sits in the bottom row exactly where a stable insertion by true deadline puts it |
| Timer.TimerSystem.Stop | rt-thread/src/timer.c:422-447 | with nothing in between: an active timer leaves all rows and is inactive; for any other nothing changes |
| Timer.TimerSystem.FirstIsEarliest | rt-thread/src/timer.c:507-516 | the first timer of the bottom row has the earliest true deadline; if it is not due, none is |
| Timer.TimerSystem.Fire | rt-thread/src/timer.c:516-543 | a due timer fires and is due no more; if it is periodic and its callback did not leave it stopped it is started again, listed, active and due init_tick ticks from now, and otherwise it is inactive and listed only if its callback started it; timers its callback acted on are as the last of those actions wants them; all others stand as before; listing and ACTIVATED flag agree afterwards iff it is periodic or its callback did not leave it started |
| Timer.TimerSystem.OneShotRestarted | rt-thread/src/timer.c:516-543 | a run in which a one-shot timer restarts itself: listed, flagged inactive, and rt_timer_stop refuses to stop it |
| Timer.TimerSystem.RunCallback | rt-thread/src/timer.c:523-527 | a callback that starts and stops timers, none already due: every timer it acts on last with a start is listed and due init_tick ticks from now, with a stop is inactive; no other timer is moved, none becomes due |
| Timer.TimerSystem.Check | rt-thread/src/timer.c:494-553 | the firing loop ends with nothing due; it fires due timers once each in deadline order and misses one only if a callback started or stopped it; every timer stands as the last firing left it that was its own or acted on it, so a fired periodic timer no later callback touches is listed, active and due init_tick ticks from now; timers neither fired nor touched stand as before; flags and list agree if no one-shot left itself started; the fired timers are a part of the bottom row as it was, in its order, so those with equal deadlines fire in the order they were started |
| Timer.TimerSystem.Tick | rt-thread/src/clock.c:67-89 | one more tick and one check later every listed deadline lies ahead again, across any number of 32-bit wraps; the timers now due fired once each in deadline order and stand as Check leaves them, and flags and list still agree if no one-shot left itself started |
| Timer.TimerSystem.Ticks | rt-thread/src/timer.c:494-553 | over any number of ticks, whatever other timers and their callbacks do: a listed periodic timer no callback touches fires at its deadline and then every init_tick ticks, at no other tick, and a listed one-shot timer at its deadline only |
| Timer.NextOn | rt-thread/src/timer.c:494-553 | one tick of that, for one timer: it fires iff this is its time, and is then listed for the next one, or off the list if it is one-shot |
| Timer.RenewSettles | rt-thread/src/timer.c:532-545 | the end of a round, for every sequence of actions the callback may have taken: a periodic timer whose flag is still set is started again, any other loses its flag |
| TimerSteps.RunKeepsIff | rt-thread/src/timer.c:296-447 | over every run of the regions and single writes of rt_timer_start and rt_timer_stop, of ticks, of firings with callbacks and of calls made with interrupts off, with span + lag below RT_TICK_MAX / 2: the rows are a skip list sorted by true deadline, and flag and list of every timer that no call has in hand agree - after every step exactly when every step was sound: a start links a timer that is not listed and at most lag late, a stop clears the flag of a timer that is not listed, the check is at most lag late, and no one-shot is left started by its own callback |
| TimerSteps.StepKeepsIff | rt-thread/src/timer.c:296-447 | the same for one step |
| TimerSteps.RunKeeps | rt-thread/src/timer.c:296-447 | as long as nobody else starts or stops a timer that a call has in hand, and none is linked more than lag late, every step is sound |
| TimerSteps.LinkInTimeIff | rt-thread/src/timer.c:324-396 | with any steps in between that do not touch the timer, its second region links it in order exactly when at most init_tick + lag ticks have gone by since the tick was read |
| TimerSteps.SearchIsRightIff | rt-thread/src/timer.c:345-367 | the wrapped search finds the place by true deadline in every row exactly when span + late is below RT_TICK_MAX / 2 and span + lag at most 2^31 + 1, for deadlines linked up to late ticks behind |
| TimerSteps.StartedTwice | rt-thread/src/timer.c:310-396 | a timeout function starts the timer a thread is starting: it is linked twice |
| TimerSteps.LinkedTooLate | rt-thread/src/timer.c:324-396 | a timer of no ticks delayed by one tick, with a window one too wide: it is linked behind the one due last |
| TimerSteps.StopUndone | rt-thread/src/timer.c:430-444 | a timeout function starts the timer between the region of rt_timer_stop and its write of the flag: listed, and flagged inactive |
| MqModel.RunKeeps | rt-thread/src/ipc.c:1962-2320 | over every interleaving of the critical regions and copies of any threads, with urgent messages, timeouts and resets: free list, queue and nodes in flight partition the pool; every queued or carried node has the bytes its sender copied; nothing is lost or made up; the queue always holds urgent messages before regular ones, the newest urgent and the oldest regular one first; since the last reset the regular messages linked are those taken followed by those queued, in order; the suspend list is the waiting threads, none of whom sleeps past a message nobody was woken for |
| MqModel.DeliveredOnce | rt-thread/src/ipc.c:2134-2263 | after any run no message was delivered twice, and none that was delivered is still queued or was dropped by a reset |
| MqModel.RegularInOrder | rt-thread/src/ipc.c:1962-2320 | after any run, of two regular messages taken since the last reset the one linked first was taken first |
| MqModel.UrgentFirst | rt-thread/src/ipc.c:2159-2249 | after any run rt_mq_recv takes a regular message only when no urgent one is queued, and of the queued urgent ones the one linked last |
| MqModel.StepKeeps | rt-thread/src/ipc.c:1962-2320 | the same for one step, from any state that satisfies it |
| MqModel.InitKeeps | rt-thread/src/ipc.c:1779-1826 | the initial queue satisfies it |
| MqModel.ReserveKeeps | rt-thread/src/ipc.c:1979-1996 | taking a node off the free list |
| MqModel.FillKeeps | rt-thread/src/ipc.c:1998-2001 | filling a node outside the critical regions disturbs no other node |
| MqModel.LinkKeeps | rt-thread/src/ipc.c:2003-2037 | linking at the tail, or at the head if urgent, and waking one receiver keep all of that |
| MqModel.TryTakeKeeps | rt-thread/src/ipc.c:2159-2249 | unlinking the head, or suspending, or giving up |
| MqModel.CopyOutKeeps | rt-thread/src/ipc.c:2251-2252 | the bytes copied out agree with those sent, up to the shorter length |
| MqModel.GiveBackKeeps | rt-thread/src/ipc.c:2254-2260 | giving the node back |
| MqModel.TimeoutKeeps | rt-thread/src/ipc.c:2189-2220 | a wait that times out |
| MqModel.ResetKeeps | rt-thread/src/ipc.c:2287-2320 | reset: every waiter is released and every queued node freed, nodes in flight stay in flight, and the order of regular messages starts anew |
| MqHistory.DeliveredAsSent | rt-thread/src/ipc.c:1962-2263 | over any run, from the buffer given to rt_mq_send or rt_mq_urgent to the bytes in the buffer of rt_mq_recv: the receiver's last pass found some message first in the queue, one earlier step linked it, and the bytes delivered are those its sender had passed in, as many as the receiver's size and the queue's message size allow |
| MqHistory.LinkedAsReserved | rt-thread/src/ipc.c:1962-2121 | every message ever linked was linked by one step, with the bytes and the kind its sender's last first region was given |
| MqHistory.TakesTheFirst | rt-thread/src/ipc.c:2222-2249 | what a receiver carries is the message that was first in the queue at its last pass that took one |
| MqHistory.LinkQueuesAndWakes | rt-thread/src/ipc.c:2003-2037 | a linked message is queued, in front if urgent and else at the end; the thread that waits first is woken, and no other; nothing is discarded |
| MqHistory.DropsNothing | rt-thread/src/ipc.c:1962-2263 | messages are discarded by a reset only |
| MqHistory.ResetEmpties | rt-thread/src/ipc.c:2287-2320 | after a reset nothing is queued and nobody waits, every queued node is free, and all other threads are where they were |
| MessageQueue.MessageQueue.constructor | rt-thread/src/ipc.c:1779-1826 | the message size is the requested one rounded up to a multiple of 4, as many nodes as fit the pool with their links are there, and the linked nodes spell out the initial free list over the pool's bytes |
| MessageQueue.MessageQueue.Reserve | rt-thread/src/ipc.c:1973-1996 | the linked form takes the step of the model; too long, full, or a node as the code decides |
| MessageQueue.MessageQueue.Fill | rt-thread/src/ipc.c:1998-2001 | copying into the node refines the fill step |
| MessageQueue.MessageQueue.LinkTail | rt-thread/src/ipc.c:2003-2037 | entry, head, tail and link fields follow the model's append: tail is the last queued node, head is NULL iff the queue is empty |
| MessageQueue.MessageQueue.LinkHead | rt-thread/src/ipc.c:2091-2121 | the same for urgent messages at the head |
| MessageQueue.MessageQueue.TryTake | rt-thread/src/ipc.c:2159-2249 | the first region of rt_mq_recv refines the model's step and hands the oldest queued message's node to the caller |
| MessageQueue.MessageQueue.CopyOut | rt-thread/src/ipc.c:2251-2252 | the buffer agrees with what the sender copied, with the length cut to the caller's |
| MessageQueue.MessageQueue.GiveBack | rt-thread/src/ipc.c:2254-2260 | the node returns to the linked free list |
| MessageQueue.MessageQueue.Timeout | rt-thread/src/ipc.c:2189-2220 | the thread leaves the suspend list and nothing else changes |
| MessageQueue.MessageQueue.Reset | rt-thread/src/ipc.c:2287-2320 | the reset loop moves every queued node to the free list, in the order the code leaves it |
| MailboxModel.RunKeeps | rt-thread/src/ipc.c:1440-1711 | over any interleaving of blocking and non-blocking senders and receivers, timeouts and resets: accepted mails are the delivered ones followed by those in the box, each once and in order, never more than size; waiters are listed, and no one sleeps past a mail or a slot nobody was woken for |
| MailboxModel.SendKeeps | rt-thread/src/ipc.c:1462-1558 | one pass of a sender, including one that was woken and lost the slot |
| MailboxModel.RecvKeeps | rt-thread/src/ipc.c:1608-1711 | one pass of a receiver, including one that was woken and lost the mail |
| MailboxModel.TimeoutKeeps | rt-thread/src/ipc.c:1485-1518 | a wait that times out |
| MailboxModel.FirstInFirstOut | rt-thread/src/ipc.c:1440-1711 | over any run the mails received since the last reset followed by those in the box are exactly the values of the sends that found room, in that order |
| MailboxModel.SendWakesFirst | rt-thread/src/ipc.c:1541-1550 | a send that finds room wakes the receiver that waits first, and no other thread |
| MailboxModel.RecvWakesFirst | rt-thread/src/ipc.c:1691-1700 | a receive that finds a mail wakes the sender that waits first, and no other thread |
| MailboxModel.ResetEmpties | rt-thread/src/ipc.c:1732-1752 | after a reset the box is empty and nobody waits; threads that did not wait are as before |
| Mailbox.HoldsAfterPut | rt-thread/src/ipc.c:1533-1540 | storing at in_offset appends to the ring's contents |
| Mailbox.HoldsAfterGet | rt-thread/src/ipc.c:1681-1689 | reading at out_offset gives the oldest mail and drops it |
| Mailbox.Mailbox.InOffsetIsModulo | rt-thread/src/ipc.c:1533-1540 | in_offset is (out_offset + entry) mod size, always |
| Mailbox.Mailbox.constructor | rt-thread/src/ipc.c:1292-1319 | the empty ring stands for the empty box |
| Mailbox.Mailbox.TrySend | rt-thread/src/ipc.c:1462-1558 | on the ring: with room the mail goes to the back and the first waiting receiver is off its list; when full the sender waits at its place or is refused, exactly if it may not block, and nothing else changes |
| Mailbox.Mailbox.TryRecv | rt-thread/src/ipc.c:1608-1711 | on the ring: with a mail there the oldest is returned and gone, and the first waiting sender is off its list; when empty the receiver waits at its place or is refused, exactly if it may not block, and nothing else changes |
| Mailbox.Mailbox.Timeout | rt-thread/src/ipc.c:1485-1518 | the waiter leaves its list, the ring is untouched |
| Mailbox.Mailbox.Reset | rt-thread/src/ipc.c:1732-1752 | reset empties the ring and releases every waiter |
| Mutex.RunKeeps | rt-thread/src/ipc.c:652-879 | over any run of takes, nested takes, releases and timeouts: value is 1 iff there is no owner iff hold is 0; waiters only while owned, sorted by priority; the owner is never worse than any waiter or its own priority; and whenever the mutex is free every thread has exactly the priority it started with |
| Mutex.StepKeeps | rt-thread/src/ipc.c:652-879 | the same for one operation |
| Mutex.HoldIsBalance | rt-thread/src/ipc.c:652-879 | over any run, while a thread owns the mutex hold is the number of its takes less the number of its releases since it became the owner, the take or the hand-over that made it so counting as one |
| Mutex.OwnedUntilBalanced | rt-thread/src/ipc.c:827-879 | and its ownership ends exactly with the release that balances that first take: no sooner, no later, by no other operation |
| Mutex.StepHold | rt-thread/src/ipc.c:652-879 | one operation, from any well-formed state: a new owner holds once, each further take of the owner adds one, each release takes one off, and the owner goes exactly with the last one |
| Mutex.WaitKeeps | rt-thread/src/ipc.c:719-731 | blocking raises the owner if need be and queues by priority |
| Mutex.LetGoKeeps | rt-thread/src/ipc.c:829-868 | the last release restores the thread's own priority exactly and hands over to the best waiter |
| Mutex.BoostStaysExact | rt-thread/src/ipc.c:652-879 | takes and releases keep the owner's priority at the better of its own and the best waiter's |
| Mutex.TimeoutKeepsBoostIff | rt-thread/src/ipc.c:733-759 | if the boost was exact, a timeout keeps it so iff the owner was not raised, or the thread was not first in the queue, or the second in the queue has the same priority: the code does not lower the owner |
| Mutex.RunBoostIsExact | rt-thread/src/ipc.c:652-879 | over any run of takes, nested takes and releases the owner's priority is exactly the better of its own and the best waiter's |
| Mutex.BoostLeftBehind | rt-thread/src/ipc.c:733-759 | a take, a wait at better priority and its timeout, after which the owner keeps a priority nobody accounts for |
| Mutex.MutexObject.Suspend | rt-thread/src/ipc.c:93-117 | the search loop inserts behind every waiter that is not worse |
| Mutex.MutexObject.Take | rt-thread/src/ipc.c:652-777 | a take by the owner adds one to hold and changes nothing else; on a free mutex the caller becomes owner with hold 1 and its own priority noted; on one held by another it is refused, exactly if it may not block, with nothing changed, or suspended behind every waiter at least as urgent and before the others, the owner raised to its priority if that is better |
| Mutex.MutexObject.Release | rt-thread/src/ipc.c:788-879 | by anybody but the owner: refused, nothing changed; of a nested take: one off hold and nothing else; the last one: the caller's own priority is back, and the first waiter is owner with hold 1, or nobody is and the mutex is free |
| EventFlags.NoWaiterLeftMet | rt-thread/src/ipc.c:1027-1280 | after any run of sends, receives, timeouts and resets no waiting thread's AND or OR request is met by the set |
| EventFlags.WaitersLack | rt-thread/src/ipc.c:1027-1280 | the same flag by flag: after any such run every thread waiting with AND lacks a flag it wants, and of the flags a thread waiting with OR wants not one is in the set |
| EventFlags.MetIsSatisfied | rt-thread/src/ipc.c:1062-1079 | the tests of the code, on all 32 bits: an AND request is met iff every flag wanted is in the set, an OR request iff one is; AND counts when both are given |
| EventFlags.StepKeeps | rt-thread/src/ipc.c:1027-1280 | the same for one operation |
| EventFlags.MetIsMonotone | rt-thread/src/ipc.c:1062-1079 | a request met by a set is met by any larger one |
| EventFlags.SweepLeavesNoneMet | rt-thread/src/ipc.c:1047-1099 | the set only shrinks during the wake loop, so a thread passed over is not met by what is left |
| EventFlags.SweepSplits | rt-thread/src/ipc.c:1047-1099 | every waiter either stays or is woken |
| EventFlags.ConsumedOnce | rt-thread/src/ipc.c:1085-1093 | bits delivered were sent; a bit consumed with CLEAR reaches no later waiter and is not left in the set |
| EventFlags.SweepWakesFirst | rt-thread/src/ipc.c:1055-1099 | the first waiter whose request the flags there satisfy is woken first, with all flags it wants or those of them that are there, as its option says; those before it stay; and the loop goes on behind it with what it leaves |
| EventFlags.SweepLosesNothing | rt-thread/src/ipc.c:1085-1093 | a flag goes out of the set only when a waiter that clears receives it |
| EventFlags.WithIsUnion | rt-thread/src/ipc.c:1045 | sending adds its flags to the set and takes none out |
| EventFlags.BlockedAndImmediateAgree | rt-thread/src/ipc.c:1062-1181 | a woken receiver and an immediate one get the same bits and leave the same set |
| EventFlags.EventObject.WakeAll | rt-thread/src/ipc.c:1055-1099 | the loop over the suspend list computes the sweep |
| EventFlags.EventObject.Send | rt-thread/src/ipc.c:1027-1110 | refused exactly for an empty set, with nothing changed; otherwise, of the old and new flags together: the first satisfied waiter is woken first, with exactly its share, those before it stay, nobody is left whom the set satisfies, and every flag is still in the set or was taken by one clearing waiter and by no later one |
| EventFlags.EventObject.Test | rt-thread/src/ipc.c:1156-1171 | true iff every flag wanted is in the set for AND, iff one of them is for OR |
| EventFlags.EventObject.Recv | rt-thread/src/ipc.c:1125-1230 | satisfied, flag by flag as for Test: it returns the wanted flags that are there and takes all wanted ones out of the set if it clears; otherwise the set stays, and it is refused, exactly if it may not block, or waits at its place; refused for an empty request, with nothing changed |
| Bits.TableIsLowest | rt-thread/src/kservice.c:1281-1300 | each table entry but the first is the index of its lowest set bit |
| Bits.ByteHasLowest | rt-thread/src/kservice.c:1311-1325 | the first byte that is not zero, looked up in the table, gives the lowest set bit of the word |
| Bits.Ffs | rt-thread/src/kservice.c:1311-1325 | __rt_ffs is 0 iff the word is 0, and otherwise one more than the index of the lowest set bit |
| ReadyBits.SetMarkKeeps | rt-thread/src/scheduler.c:316-319 | for 1 to 256 priorities, flat and two-level: after a queue got a thread a bit is set iff its queue is not empty, and a summary bit iff its byte is not zero |
| ReadyBits.ClearMarkKeeps | rt-thread/src/scheduler.c:357-368 | the same after a queue became empty |
| ReadyBits.HighestIsSmallest | rt-thread/src/scheduler.c:203-210 | the priority computed from the marks is the smallest whose queue is not empty |
| Scheduler.Thread.constructor | rt-thread/src/thread.c:118-197 | a new thread is in the initial state, on no list, with no bit numbers yet |
| Scheduler.Scheduler.constructor | rt-thread/src/scheduler.c:118-146 | empty queues, no bit set, no thread |
| Scheduler.Scheduler.Adopt | rt-thread/src/thread.c:220-246 | a new thread joins the system without touching any list or mark |
| Scheduler.Scheduler.InsertThread | rt-thread/src/scheduler.c:286-325 | the thread is READY at the end of its queue and the marks stay exact |
| Scheduler.Scheduler.RemoveThread | rt-thread/src/scheduler.c:332-372 | the thread leaves whatever list it hangs on and the marks stay exact, also for a thread that was never started |
| Scheduler.Scheduler.PickTop | rt-thread/src/scheduler.c:203-215 | the head of the queue named by the marks is first in the queue of the best priority any ready thread has |
| Scheduler.Scheduler.Schedule | rt-thread/src/scheduler.c:189-277 | with the lock open the current thread becomes that one; with the lock held nothing changes |
| Scheduler.Scheduler.EnterCritical | rt-thread/src/scheduler.c:377-391 | one more lock level |
| Scheduler.Scheduler.ExitCritical | rt-thread/src/scheduler.c:398-427 | one level less, never below zero; leaving the last one dispatches |
| Scheduler.Scheduler.Startup | rt-thread/src/thread.c:265-297 | with nothing in between: the thread is READY at the end of the queue of its initial priority, its bit numbers match, and the dispatcher ran if the system was running |
| Scheduler.Scheduler.Suspend | rt-thread/src/thread.c:645-677 | with nothing in between: exactly a READY thread is suspended: off its queue, timer stopped; any other is refused unchanged |
| Scheduler.Scheduler.Resume | rt-thread/src/thread.c:688-722 | with nothing in between: exactly a suspended thread moves from its wait list to the end of its queue; any other is refused unchanged |
| Scheduler.Scheduler.Timeout | rt-thread/src/thread.c:731-756 | the assertion that the thread is suspended holds whenever its timer fires; it moves to the end of its queue with the timeout error |
| Scheduler.Scheduler.Sleep | rt-thread/src/thread.c:493-516 | the caller is suspended with its timer running and another thread runs |
| Scheduler.Scheduler.EndSleep | rt-thread/src/thread.c:516-520 | after waking, the timeout error is cleared and any other error kept |
| Scheduler.Scheduler.ChangePriority | rt-thread/src/thread.c:566-618 | a READY thread moves to the end of the queue of its new priority, any other stays where it is; marks and bit numbers follow |
| Scheduler.Scheduler.Close | rt-thread/src/thread.c:308-341 | with nothing in between: a closed thread is off every list, its timer stopped, and on the defunct list iff it was created dynamically or has a cleanup function |
| Scheduler.Scheduler.Detach | rt-thread/src/thread.c:308-341 | with nothing in between: the same for static threads: on the defunct list iff there is a cleanup function |
| Scheduler.Scheduler.Delete | rt-thread/src/thread.c:407-441 | with nothing in between: the same for created threads: always on the defunct list |
| Scheduler.Scheduler.Exit | rt-thread/src/thread.c:81-116 | the same for the running thread, and another thread runs |
| Scheduler.Scheduler.Yield | rt-thread/src/thread.c:449-483 | a READY thread that shares its priority goes to the end of its queue; any other keeps running |
| Scheduler.Scheduler.WaitPlace | rt-thread/src/ipc.c:87-117 | last, or in priority mode before the first worse waiter |
| Scheduler.Scheduler.SuspendOn | rt-thread/src/ipc.c:78-121 | the thread is suspended and at that place of the wait list |
| Scheduler.Scheduler.Wait | rt-thread/src/ipc.c:364-395 | the blocking branch: the caller is at its place of the wait list with no error, its timer runs iff there is a time to wait, and another thread runs |
| Scheduler.Scheduler.WakeFirst | rt-thread/src/ipc.c:132-144 | the first waiter is at the end of its ready queue |
| Scheduler.Scheduler.WakeAll | rt-thread/src/ipc.c:155-181 | every waiter is READY with an error, each ready queue gets its waiters in waiting order, the wait list is empty |
| Scheduler.Scheduler.Tick | rt-thread/src/clock.c:67-86 | the running thread pays one tick, with the counter's 32-bit wrap; a used-up slice is renewed and the thread yields |
| RoundRobin.TurnOf | rt-thread/src/clock.c:76-84 | the first thread pays all of its slice before it goes last, and nobody else pays meanwhile |
| RoundRobin.RoundEnds | rt-thread/src/clock.c:67-89 | from any point of their slices, after the ticks left in them all the queue is in its old order with every slice new |
| RoundRobin.RoundRobinIsExact | rt-thread/src/clock.c:67-89 | with full slices, after the sum of the slices in ticks queue and slices are as before and each thread has paid for exactly its own slice |
| Scheduler.Scheduler.QuietTick | rt-thread/src/clock.c:67-86 | one tick on the scheduler's own queue and threads is one tick of the round-robin queue, and the head keeps running |
| Scheduler.Scheduler.QuietTicks | rt-thread/src/clock.c:67-86 | so are any number of ticks with no other event |
| Scheduler.Scheduler.QuietRound | rt-thread/src/clock.c:67-86 | after a full round the ready queue, the slices and the running thread are as before |
| ThreadSteps.RunKeepsIff | rt-thread/src/thread.c:81-756 | over every run of the interrupt-disabled regions of rt_thread_startup, suspend, resume, delete, detach, exit, sleep and yield, of waits, wake-ups, priority changes, timeouts and the idle thread, for any number of callers: every node hangs on the one list it says, marks are exact, READY threads that no call has in hand are on the queue of their priority, only suspended threads have a running timer - after every step exactly when every step found its thread as Sound says |
| ThreadSteps.StepKeepsIff | rt-thread/src/thread.c:81-756 | the same for one step: it leaves all in order iff, of the calls that let go of the lock, resume does not unlink the last thread of a ready queue, inserting finds the node alone and the timer off, startup finds the thread on no ready queue, delete finds it off every list with its timer off when it writes CLOSED and when it buries it |
| ThreadSteps.TimerWaits | rt-thread/src/thread.c:738-739 | the assertion of rt_thread_timeout holds between any two steps |
| ThreadCalls.RunKeeps | rt-thread/src/thread.c:81-756 | as long as no step meddles with a thread a call has in hand - no second call on it, no timeout or waker between the test and the region of resume, no timeout before delete has detached the timer, no new priority for a thread deleted while READY - every step is sound and all stays in order, for every interleaving |
| ThreadCalls.TameKeeps | rt-thread/src/thread.c:81-756 | the same for one step |
| ThreadCalls.CallIsSafeIff | rt-thread/src/thread.c:265-435 | a call that alone has its thread in hand finds it as it needs it to the end, whatever ticks, wakers, other threads and calls on other threads come in between, exactly when it suspends the thread, or the thread's timer is off and it hangs on no ready queue and no wait list; for delete after its first region that is: the timer is not running; startup of a new thread always is |
| ThreadCalls.DeleteRace | rt-thread/src/thread.c:407-435 | rt_thread_delete of a thread in a timed wait with a tick after the first region: the thread ends CLOSED, on its ready queue and on the defunct list at once |
| ThreadCalls.ResumeRace | rt-thread/src/thread.c:688-718 | rt_thread_resume of such a thread with a tick after the test: READY on no queue, the bit of its priority set with nobody there |
| ThreadCalls.SecondResumeFails | rt-thread/src/thread.c:688-718 | a second resume of the thread begun while the first is under way can break it, from any state |
| ThreadCalls.SecondDeleteFails | rt-thread/src/thread.c:407-435 | so does a second delete begun before the first has buried the thread |
| ThreadCalls.CallsAreRegions | rt-thread/src/thread.c:308-435 | nothing in between, the regions of resume and delete make the list changes class Scheduler states for the whole calls |
| ThreadCalls.DispatchIsSound | rt-thread/src/scheduler.c:189-277 | between any two steps the lowest marked priority has a READY thread first on its queue, and no queued READY thread has a better one; a READY thread off its queue is in the hands of a call |
| WaitOrder.RunSortedIff | rt-thread/src/ipc.c:78-121 | over any run: a wait list in priority mode stays sorted throughout exactly when no thread on it is ever given a priority past a neighbour's, as rt_thread_control does not move waiting threads |
| WaitOrder.StepSortedIff | rt-thread/src/thread.c:573-618 | the same for one step |
| WaitOrder.WakesTheBest | rt-thread/src/ipc.c:132-144 | the first waiter of a sorted list, which is woken first, is the best |
| WaitOrder.PassedOver | rt-thread/src/thread.c:602-618 | a run in which the last waiter is given the best priority and stays last |
| PageModel.CanonicalIsUnique | rt-thread/src/slab.c:222-232 | an address-sorted list of non-touching runs is determined by the set of free pages |
| PageModel.CountIsSize | rt-thread/src/slab.c:222-232 | the listed page counts add up to the number of free pages |
| PageModel.AllocTakes | rt-thread/src/slab.c:236-270 | allocation takes n pages from the start of the first run that has them and keeps the list canonical; it fails, changing nothing, iff every run is shorter |
| PageModel.FreeGives | rt-thread/src/slab.c:272-322 | freeing adds exactly the named pages and keeps the list canonical, joined before, behind, on both sides or on neither |
| PageModel.AllocThenFree | rt-thread/src/slab.c:236-322 | an allocation followed by its release restores the identical list |
| PageModel.FreesCommute | rt-thread/src/slab.c:272-322 | two releases give the same list in either order |
| PageHeap.PageHeap.constructor | rt-thread/src/slab.c:327-334 | one run of all the pages |
| PageHeap.PageHeap.Alloc | rt-thread/src/slab.c:236-270 | the linked headers inside the free pages follow the run list; no word of an allocated page is written |
| PageHeap.PageHeap.Free | rt-thread/src/slab.c:272-322 | the same for release, with the assertion at line 289 proved; only free pages and the pages released are written |
| PageHeap.SpliceSpells | rt-thread/src/slab.c:246-317 | writing one link and one header replaces a stretch of runs by at most one run |
| Zones.ZoneIndexFits | rt-thread/src/slab.c:401-464 | every request below 16384 gets one of 72 lists and a chunk size that holds it, a multiple of 8, wasting less than an eighth and 8 bytes; the list determines the chunk size |
| Zones.ChunkSizesGrow | rt-thread/src/slab.c:401-464 | a later list has bigger chunks, so no two lists share a size |
| Zones.PowerOfTwo | rt-thread/src/slab.c:635 | a size that passes the code's test is a power of two |
| Zones.FirstOffsetIs | rt-thread/src/slab.c:628-638 | chunks start behind the header, at their own size for powers of two from 64, else at 40 or at most 64 |
| Zones.FreshZoneHasThree | rt-thread/src/slab.c:628-643 | every fresh zone has at least three chunks, all inside it, so the assertion at line 541 holds for it |
| Zones.TakeKeeps | rt-thread/src/slab.c:543-568 | the chunk handed out was not in use and nothing else changes hands; nfree stays the never-used chunks plus the free list |
| Zones.GiveKeeps | rt-thread/src/slab.c:830-842 | the chunk returned is free and nothing else changes |
| Zones.TakeOrder | rt-thread/src/slab.c:553-576 | a zone gives chunks never used before as long as it has any; after that the one given back last comes first |
| Zones.FreshKeeps | rt-thread/src/slab.c:640-648 | a fresh zone has its first chunk in use and at least two more to give |
| Zones.LivePlusFree | rt-thread/src/slab.c:543-648 | chunks in use and nfree add up to nmax |
| Zones.LiveChunksApart | rt-thread/src/slab.c:556-568 | chunks in use neither overlap nor touch the header nor leave the zone |
| Zones.FreeChunkApart | rt-thread/src/slab.c:830-832 | a chunk on the free list lies inside its zone and meets no chunk in use |
| SlabModel.OwnerIsUnique | rt-thread/src/slab.c:213-220 | an address in use belongs to one zone or large block only |
| SlabModel.LiveApart | rt-thread/src/slab.c:478-667 | two blocks of memory in use do not overlap, in the same zone or not |
| SlabModel.MapLeadsHome | rt-thread/src/slab.c:795-828 | the page map leads any address in use to its zone's first page, or tells the length of its large block |
| SlabModel.TakeChunkKeeps | rt-thread/src/slab.c:539-576 | taking a chunk keeps zones, lists, map and pages consistent and hands out memory not in use |
| SlabModel.ReuseSpareKeeps | rt-thread/src/slab.c:590-652 | laying out a spare zone does too |
| SlabModel.AddSpareKeeps | rt-thread/src/slab.c:601-622 | cutting a zone from free pages maps all its pages to it and changes nothing in use |
| SlabModel.GiveChunkKeeps | rt-thread/src/slab.c:830-846 | returning a chunk ends exactly its use; a zone is on its list iff in use with a free chunk |
| SlabModel.RetireKeeps | rt-thread/src/slab.c:854-874 | a zone with nothing in use becomes spare without touching anything in use |
| SlabModel.DropSpareKeeps | rt-thread/src/slab.c:876-897 | a third spare zone goes back to the page list and out of the map |
| SlabModel.LastChunkRetires | rt-thread/src/slab.c:830-903 | a zone that gets its last chunk in use back becomes spare unless no other zone of its size has a chunk to give; with two spare zones there already its pages are free again; any other zone stays on its list, or goes first on it if it had no chunk to give |
| SlabModel.SmallRequestSource | rt-thread/src/slab.c:523-640 | a small request takes from the first zone on its list, which leaves it with its last chunk, else from the newest spare zone, and takes pages only when there is neither |
| SlabModel.AddLargeKeeps | rt-thread/src/slab.c:493-504 | a large request hands out whole pages that were free |
| SlabModel.DropLargeKeeps | rt-thread/src/slab.c:797-819 | and gives exactly those back |
| SlabModel.StartKeeps | rt-thread/src/slab.c:344-391 | the state after rt_system_heap_init satisfies the invariant |
| SlabSteps.RunKeeps | rt-thread/src/slab.c:478-903 | over every interleaving of the locked regions of rt_malloc, rt_free, rt_page_alloc and rt_page_free of any number of threads: runs, page map, zones and lists stay consistent, every page is free or in exactly one zone, large block or thread's hands, and the page map keeps its own pages |
| SlabSteps.StepKeeps | rt-thread/src/slab.c:478-903 | one region: it stays inside its arrays, finds the chunk nfree promised, and hands out memory not in use, ends exactly one use, or changes no use |
| SlabSteps.UsedClearOfPages | rt-thread/src/slab.c:225-322 | memory in use meets no free page, no page of the page map and no page on its way between threads and the page allocator |
| SlabSteps.UsedClearOfZones | rt-thread/src/slab.c:830-832 | memory in use meets no zone header and no free chunk, where the links z_next and c_next are written |
| SlabSteps.CallsAreRegions | rt-thread/src/slab.c:493-622 | the whole-call steps of large blocks and zones are these regions taken one after the other |
| Slab.SlabHeap.constructor | rt-thread/src/slab.c:344-391 | the page map has the first pages, exactly the pages behind it are free, nothing is in use, no zone exists |
| Slab.SlabHeap.ZoneSizeFor | rt-thread/src/slab.c:374-377 | the loop gives 32, 64 or 128 KiB: the largest reached while twice the size stays below a 1024th of the heap |
| Slab.SlabHeap.Malloc | rt-thread/src/slab.c:478-667 | hands out memory not in use before, of at least the size and at most an eighth and 8 bytes more, or whole pages for a large size, leaving the state written out in the model; fails, changing nothing, exactly for size 0, for a size that rounds up to pages beyond 32 bits, or when neither a list, a spare zone nor the page allocator can serve |
| Slab.SlabHeap.Free | rt-thread/src/slab.c:771-903 | ends exactly the use of its address, leaving the state written out in the model; never more than two spare zones |
| Slab.SlabHeap.FreeChunk | rt-thread/src/slab.c:822-903 | the zone is retired iff it has nothing in use and is not alone on its list |
| Slab.SlabHeap.Unlink | rt-thread/src/slab.c:862-865 | the walk along the links takes out exactly that zone |
| MemHeapModel.PoolIsSpent | rt-thread/src/memheap.c:43-66 | free words, words in use and headers make up the whole pool |
| MemHeapModel.BlocksApart | rt-thread/src/memheap.c:50-121 | each block ends at or before the start of any later one, so payloads and headers never overlap |
| MemHeapModel.SplitOk | rt-thread/src/memheap.c:188-235 | cutting a free block: one more block in use, the rest free, free words down by size and header, no two free neighbours |
| MemHeapModel.WholeOk | rt-thread/src/memheap.c:237-258 | using a free block whole |
| MemHeapModel.FreeOk | rt-thread/src/memheap.c:535-538 | marking a block free ends exactly its use and leaves only its right side to settle, or its left |
| MemHeapModel.JoinOk | rt-thread/src/memheap.c:540-577 | joining two free blocks gains one header of free words and touches no block in use |
| MemHeapModel.GrowOk | rt-thread/src/memheap.c:350-393 | growing in place takes the missing words from the free neighbour, whose rest is a free block again |
| MemHeapModel.CutOk | rt-thread/src/memheap.c:432-452 | shrinking gives the tail back as a free block, its right side still to settle |
| MemHeapModel.UsedDeterminesBlocks | rt-thread/src/memheap.c:50-591 | the blocks in use determine the whole block list of a pool without two free neighbours, and available_size with it |
| MemHeapModel.FreedWords | rt-thread/src/memheap.c:529-577 | freeing a block gives back its payload and a header for each free neighbour |
| MemHeapModel.CutWords | rt-thread/src/memheap.c:420-487 | cutting a block gives back the words cut off, less a header unless a free block stands behind it |
| MemHeapModel.GrownWords | rt-thread/src/memheap.c:350-393 | growing a block takes exactly the words it grows by |
| MemHeapModel.TurnedDownIff | rt-thread/src/memheap.c:155 | when available_size is as it was when tested, rt_memheap_alloc refuses a request that some listed free block could serve iff it asks for all the free words there are |
| MemHeapModel.WholePoolTurnedDown | rt-thread/src/memheap.c:155 | a pool of one free block refuses a request for just that block |
| Rings.InsertKeepsRing | rt-thread/src/memheap.c:209-225 | four link writes put a node behind another in a circular list, for any ring |
| Rings.RemoveKeepsRing | rt-thread/src/memheap.c:215-217 | two link writes take a node out, wherever the ring is entered |
| Rings.InsertLinkedBreaks | rt-thread/include/rtservice.h:58-65 | rt_list_insert_after of a node that still hangs in the same ring, behind another node of it, leaves no ring |
| Rings.InsertLinkedTwice | rt-thread/include/rtservice.h:58-65 | and behind a node of another ring it breaks the ring the node came from |
| MemHeapLaws.Rounded | rt-thread/src/memheap.c:147-150 | the rounded request is at least 12 bytes and at least the request, unless the sum leaves 32 bits |
| MemHeapLaws.AllocCosts | rt-thread/src/memheap.c:182-258 | an allocation takes out of available_size the words it grants, and a header when the rest of the free block stands alone |
| MemHeapLaws.PayloadClear | rt-thread/src/memheap.c:50-121 | with headers in the same words as payloads, no word of a payload belongs to any header |
| MemHeapLaws.PayloadsKept | rt-thread/src/memheap.c:138-591 | a step that writes header words only leaves every payload word of the blocks that stay in use |
| MemHeapLaws.PartKept | rt-thread/src/memheap.c:350-491 | and the common part of a payload that is resized in place |
| MemHeapLaws.MovedWords | rt-thread/src/memheap.c:408-416 | allocate, copy, free: the new payload starts with the old one's words, all other payloads are untouched |
| MemHeap.MemHeap.constructor | rt-thread/src/memheap.c:50-121 | one free block, the used tailer, both rings, their header words and the account |
| MemHeap.MemHeap.CarveBlock | rt-thread/src/memheap.c:192-213 | the header words of the rest, linked into the block ring, spell out the block cut in two |
| MemHeap.MemHeap.JoinNext | rt-thread/src/memheap.c:366-367 | two link writes take the next header out of the block ring; its space goes to the block before |
| MemHeap.MemHeap.Unlist | rt-thread/src/memheap.c:364-365 | two link writes take an entry out of the free ring |
| MemHeap.MemHeap.Push | rt-thread/src/memheap.c:221-225 | four link writes put an entry first in the free ring |
| MemHeap.MemHeap.Find | rt-thread/src/memheap.c:169-180 | the search loop stops at the first entry of the free list with enough words, or at the list head when there is none |
| MemHeap.MemHeap.Take | rt-thread/src/memheap.c:161-274 | the locked region, on the array: both rings, tiling and account are kept; the first free block in list order that fits is in use, with the words asked for when its rest can stand alone and else whole; the rest goes first on the free list, whose order is otherwise kept; no other block changed, no payload word of any block in use was written; fails, changing nothing, iff nothing fits; max_used_size is the running maximum |
| MemHeap.MemHeap.AllocSeen | rt-thread/src/memheap.c:138-281 | with whatever available_size was when it was read before the lock: fails, changing nothing, iff the request was not below that or nothing fits now |
| MemHeap.MemHeap.Alloc | rt-thread/src/memheap.c:138-281 | with nothing in between: fails, changing nothing, iff the request is not below available_size or nothing fits; otherwise as Take |
| MemHeap.MemHeap.Free | rt-thread/src/memheap.c:495-591 | on the array: exactly the given block is no longer in use, both rings, tiling and account are kept, no two free neighbours are left, the payloads of all other blocks are untouched; available_size goes up by the payload and a header for each free neighbour; the block goes first on the free list unless it is joined to the left, its right neighbour off it |
| MemHeap.MemHeap.Swallow | rt-thread/src/memheap.c:364-367 | the free neighbour leaves both rings and its space goes to the block before |
| MemHeap.MemHeap.Grow | rt-thread/src/memheap.c:350-401 | in-place growth exchanges the block for one of the new size, keeps all its old words, and touches no other payload; available_size goes down by the difference, and the rest of the neighbour is first on the free list |
| MemHeap.MemHeap.Shrink | rt-thread/src/memheap.c:423-491 | in-place shrinking to exactly the new size keeps the words it promises, the tail merged with a free neighbour and first on the free list, no other payload touched; available_size goes up by what was cut off, less a header if the tail stands alone |
| MemHeap.MemHeap.CopyWords | rt-thread/src/kservice.c:210-281 | copying one payload to the start of another transfers every word and disturbs no header |
| MemHeap.MemHeap.Realloc | rt-thread/src/memheap.c:284-491 | the block is exchanged for one of the rounded size, with at most a header and 12 bytes on top; it stays in place iff it already was long enough or the free block behind it leaves a rest worth keeping, and then it has exactly the rounded size after growth and after a cut, and is kept whole iff a cut would leave no more than a header and 12 bytes, with available_size and free list to match; refused iff neither holds and the allocation elsewhere is refused, with the first min(old, new) words kept; on failure lists and account are unchanged; max_used_size becomes exactly the running maximum, after a move with both copies in use at once; size 0 frees; other payloads are untouched throughout |
| MemPoolModel.RunKeeps | rt-thread/src/mempool.c:304-448 | over any run of allocation passes, waits, timeouts and releases of any threads: the free list holds blocks of the pool once each, suspend_thread_count is exactly the waiting threads plus the waits that ever timed out, and while threads wait every free block has a thread woken for it |
| MemPoolModel.StepKeeps | rt-thread/src/mempool.c:304-448 | one step: only a timeout moves the count away from the number of waiting threads |
| MemPoolModel.NewestIsServedFirst | rt-thread/src/mempool.c:328-435 | a thread that finds no block goes in front of all others that wait, and the next release is for it |
| MemPoolModel.LastFreedIsFirst | rt-thread/src/mempool.c:370-419 | the block freed last is handed out first, and the free list is then as before |
| MemPoolModel.NeverTrapsIff | rt-thread/src/mempool.c:421-435 | after any run of a pool with blocks: every release to come, if no further wait times out, finds the waiter it resumes, iff no wait on this pool has timed out so far |
| MemPoolModel.Drain | rt-thread/src/mempool.c:421-435 | with a count above the number of waiters, there are releases and allocations that lead to a release which resumes a waiter that does not exist |
| MemPoolModel.TimeoutLeavesTrap | rt-thread/src/mempool.c:357-435 | one block, one waiter, one timeout: the count is positive, nobody waits, and the block can be released |
| MemPoolModel.Conserved | rt-thread/src/mempool.c:370-419 | free blocks and blocks in use make up the pool |
| MemPool.Threaded | rt-thread/src/mempool.c:108-119 | link words written block by block thread all blocks in order, ended by NULL |
| MemPool.MemPool.constructor | rt-thread/src/mempool.c:77-122 | every block is on the free list, in address order, nobody waits |
| MemPool.MemPool.Alloc | rt-thread/src/mempool.c:317-389 | one pass: the first free block, exactly when there is one, with only its link word written; otherwise the thread waits in front of the others, or is turned down, and no word changes |
| MemPool.MemPool.Timeout | rt-thread/src/mempool.c:357-358 | a wait that times out leaves the list but not the count |
| MemPool.MemPool.Free | rt-thread/src/mempool.c:398-447 | follows the model: the block is first on the free list, only its link word is written, and the first waiter is resumed if there is one |
| RtList.Node.constructor | rt-thread/include/rtservice.h:47-50 | a node alone is a ring |
| RtList.InsertAfter | rt-thread/include/rtservice.h:58-65 | the new node stands behind the given one; forwards and backwards walks agree |
| RtList.InsertBefore | rt-thread/include/rtservice.h:73-80 | in front of the given one; before the head means at the end |
| RtList.Remove | rt-thread/include/rtservice.h:86-92 | the node is alone, the others close up in both directions |
| RtList.InsertThenRemove | rt-thread/include/rtservice.h:58-92 | removing a node undoes its insertion |
| RtList.IsEmpty | rt-thread/include/rtservice.h:98-101 | true iff nothing hangs on the head |
| RtList.Len | rt-thread/include/rtservice.h:107-118 | the number of nodes besides the head |

## Left out

- SmallMem.Allocator.Malloc: heaps shorter than the smallest block, on which `SmallMem.SearchHasNoEndIff` shows the search to have no end, are excluded by its precondition for requests that reach the search.
- SmallMem.Allocator.Realloc: the same heaps are excluded for the requests it passes on to the search.
- SmallMem.Allocator.constructor: is for address pairs with room for two headers; `SmallMem.Allocator.SystemHeapInit` covers the others.
- MemHeap.MemHeap.constructor: pools shorter than two headers, on which the code lets `available_size` go below zero and writes the tailer before the pool, are excluded by its precondition.
- MemPool.MemPool.constructor: pools without room for one block, on which the code writes the final NULL before the pool (`mempool.c:116-117`), are excluded by its precondition.
- MemPool.MemPool.Free: with a count left too high by timed-out waits and nobody waiting, the code resumes whatever the list head points to; that call is excluded by its precondition, and `MemPoolModel.NeverTrapsIff` says exactly when it cannot occur.
- MemHeap.MemHeap.Realloc: is one step here; between its own region and the allocation, copy and release of a move other calls may come, which are not accounted for in its high-water mark and its refusals.
- SmallMem.Allocator.Move: is one step here; `HeapLaws.RunKeeps` covers operations in between, with the move as an allocation and a release.
- Scheduler.Scheduler.Close: is the whole call of detach or delete; what may come between its regions is in `ThreadCalls`.
- ThreadSteps speaks of lists, marks, states and timers; a control block freed while a call has its thread in hand, and a thread that goes on running after its node was taken off the ready queue, have no counterpart.
- HeapModel counts in words; payload bytes inside a word are not told apart, and `rt_memcpy` copies whole words.
- `rt_calloc`, `rt_malloc_align`, memory tracing and the used-bytes statistics of `slab.c`.
- `rt_realloc` of `slab.c`, and the alignment of chunks beyond a page.
- The steps of `SlabSteps` do not say which thread takes them: pages one thread grabbed may be put to use by another, which allows more runs than the code has.
- Links through the chunks of a zone and through the headers of the zones on a list are sequences, not words in memory; `SlabSteps.UsedClearOfZones` shows that the places where the code writes them are not in use.
- Several `memheap.c` heaps sharing one `rt_memheap_free`, and the system-heap wrappers that walk all of them.
- Soft timers, which run the same list in a thread, and the timer's object bookkeeping.
- A timeout function is a sequence of timer starts and stops; other effects of callbacks do not touch the list.
- Timers and message-queue nodes are numbers, not pointers.
- In `MqModel`, `MailboxModel` and `EventFlags` the place a thread takes in a suspend list is a parameter, so that FIFO and priority order are both covered; the search for it is in `Mutex` and `Scheduler`.
- The remaining time of an interrupted wait is not tracked: a woken thread may always wait again or give up.
- Mutexes in FIFO mode, nested mutexes, transitive inheritance, and priority changes from outside while a mutex is held.
- Semaphores: a counter and a suspend list; they would add only easy members.
- Deleting or detaching IPC objects while threads wait, beyond waking all waiters.
- Signals (`-RT_EINTR`), thread stacks, context-switch assembly, and the idle thread's clean-up of closed threads; the precondition that some thread is ready stands for the idle thread.
- `rt_interrupt_nest`, and counters leaving their field widths (`rt_scheduler_lock_nest`, mutex `hold`, mailbox and queue `entry`).
- The object registry, devices, console, formatting, `rt_tick_from_millisecond`, board support and application code.
