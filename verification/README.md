# Verified models of HermitCore

HermitCore is a small unikernel. This project models its state machines and allocators in Dafny and
proves what they promise together: over every run, every interleaving or every input.

| part | modules |
|---|---|
| per-core scheduler with intrusive lists, priority bitmap and timer queue | Scheduler, SchedulerInvariant, SchedulerRuns, SchedulerEffects, TaskLists, KernelTasks, KernelRuns |
| ticket locks, counting semaphore, mailbox | TicketLock, SpinLock, Semaphore, SemaphoreProtocol, Mailbox, MailboxCalls |
| iRCCE barriers, receive, on-chip memory allocator, sorting and ranks | TnsBarrier, TnsProgress, LinearBarrier, BarrierProgress, Receive, ReceiveRequest, ReceiveQueue, ReceiveCalls, MpbAlloc, MpbHeap, Quicksort, Ranks |
| kernel memory | Buddy, BuddyHeap, Vma, VmaList, VmaRuns |
| shared-memory packet ring | PacketRing, PacketCalls, PacketBuffer |
| incremental checkpoints of uhyve | Checkpoint, CheckpointRuns, CheckpointScan |
| number printing and parsing | Numerals, Print, Parse, PrintParse |
| shared definitions | Counting, Distinct, Circular, Powers, Options, Rcce |

Code that updates state in place is a class or a method with loops, proved equal to a function on
values; the laws are lemmas about those functions. A protocol is a state machine whose steps are
single accesses to shared data, and a law about it is a lemma about every run of any length. Objects
linked by pointers live in a table or an arena and are named by their index.

These results say where the code departs from what one might expect of it, each with its exact
condition:

- A ticket lock whose counters have m values excludes in all runs exactly when at most m tasks use it
  (`TicketLock.ExclusionExactly`, with the run `TicketLock.TooManyTasks`).
- A finished resumable receive has performed the actions of the blocking one exactly when the message
  has bytes: for an empty message the blocking one leaves the sent flag set
  (`ReceiveRequest.Request.LikeBlocking`, `ReceiveRequest.ReceiveAgain`).
- vma_alloc returns the lowest gap that fits exactly when a gap that fits lies below every gap whose end
  wraps around (`Vma.AllocLowest`, `Vma.AllocKeeps`). Two large requests after boot suffice to break it
  (`Vma.AllocWraps`); moderate sizes below the upper bound never do (`Vma.NeverWraps`).
  Rounding to pages gives room for the size asked for exactly up to 2^63 - 0x1000 (`Vma.PageCeilExact`).
- vma_free leaves the prev links consistent exactly when it does not split an area that has a
  successor, and takes out a whole area as it should exactly when the prev link of that area serves; a
  stale one drops other areas with it (`VmaList.Space.FreeRange`, with the calls
  `VmaList.SplitLeavesStale` and `VmaList.FreeDropsHalf`).
- So the list of used addresses is what the calls granted, added and freed as long as every vma_free met
  a prev link that serves, which is so while none has split an area that had a successor
  (`VmaRuns.Recorded.Safe`). After a split vma_alloc can grant memory that is still held
  (`VmaRuns.GrantsHeld`).
- A printed number is read back exactly unless it is left adjusted and padded with zeros, and then only
  0 and the limits are (`PrintParse.SignedRoundTrip`, `PrintParse.UnsignedRoundTrip`, with the example
  `PrintParse.OneReadAsTen`).
- A checkpoint restores a word exactly when nothing has written it since it was last saved, or the last
  write stored the saved value again; a word never saved counts as saved with zero
  (`CheckpointRuns.RestoreExact`). What is missed was written by the host, which marks no page, or through
  a mapping replaced before the checkpoint (`CheckpointRuns.MissedWrites`, with the run
  `CheckpointRuns.HostWriteLost`). Without such writes a word is restored exactly when it was zero at the
  start or some step made it to be saved (`CheckpointRuns.RestoreReached`).

## Model

| member | source | states |
|---|---|---|
| Scheduler.Position | kernel/tasks.c:127-130 | the place timer_queue_push inserts at: everything before it is due no later, the task there strictly later |
| Scheduler.HighestIsMax | kernel/tasks.c:833-835 | msb of a bitmap is its largest set bit, and a value above MAX_PRIO when no bit is set |
| SchedulerInvariant.BootKeeps | kernel/tasks.c:293-320 | making a task the idle task of a core keeps the scheduler invariant |
| SchedulerInvariant.CreateKeeps | kernel/tasks.c:540-636 | create_task keeps the invariant: the new task is ready, queued once and counted |
| SchedulerInvariant.WakeupKeeps | kernel/tasks.c:657-702 | wakeup_task keeps the invariant, also for a task that is still current |
| SchedulerInvariant.BlockKeeps | kernel/tasks.c:705-739 | block_task keeps the invariant |
| SchedulerInvariant.SetTimerKeeps | kernel/tasks.c:748-777 | set_timer keeps the invariant: the blocked task is flagged and in the timer queue |
| SchedulerInvariant.InsertSorted | kernel/tasks.c:111-159 | insertion at Position keeps the timer queue sorted by deadline, and the new task comes behind exactly the tasks that are due no later |
| SchedulerInvariant.ScheduleKeeps | kernel/tasks.c:807-890 | scheduler() keeps the invariant in all its branches |
| SchedulerInvariant.FinishKeeps | kernel/tasks.c:322-364 | finish_task_switch keeps the invariant: the old task is requeued or its slot becomes invalid |
| SchedulerInvariant.ExitKeeps | kernel/tasks.c:367-399 | do_exit keeps the invariant |
| SchedulerRuns.CheckTimersExact | kernel/tasks.c:780-804 | check_timers wakes exactly the tasks whose deadline has passed, in deadline order within each priority queue, and leaves the rest of the timer queue as it is |
| SchedulerRuns.CheckTimersKeeps | kernel/tasks.c:780-804 | check_timers keeps the invariant |
| SchedulerRuns.TimerWakesOnTime | kernel/tasks.c:748-804 | a running task that calls set_timer is ready after a later check_timers iff its deadline is not after the tick of that call, and otherwise stays blocked with its timer armed |
| SchedulerRuns.RunKeepsInv | kernel/tasks.c:293-890 | the invariant holds in every state of every run of boot, create, wake, block, set_timer, check_timers, schedule, finish and exit on any number of cores |
| SchedulerRuns.ListsExact | kernel/tasks.c:162-184 | in every run a task is in ready queue p of a core iff it is ready there with that priority and not the pending old task; in the timer queue iff it is blocked with a timer; bit p is set iff queue p-1 has a task; nr_tasks is the number of ready and running tasks |
| SchedulerRuns.PopFindsTask | kernel/tasks.c:833-864 | in every run the queue scheduler() pops from is not empty and its first task is ready, on this core and of the priority looked for |
| SchedulerRuns.ScheduleChoosesHighest | kernel/tasks.c:807-890 | after scheduler() no runnable task of the core has a higher priority than the current one |
| SchedulerRuns.RoundRotates | kernel/tasks.c:322-364 | one schedule and finish round rotates the ring of the tasks at the top priority by one |
| SchedulerRuns.RoundRobinFair | kernel/tasks.c:807-890 | with k other tasks at the top priority, each of the k+1 tasks runs exactly once in k+1 rounds, and then the first one runs again |
| SchedulerEffects.BootEffect | kernel/tasks.c:293-320 | the first free slot becomes the idle and current task of the core, everything else stays; without a free slot nothing changes |
| SchedulerEffects.CreateEffect | kernel/tasks.c:540-636 | exactly for a legal priority, a booted core and a free slot, the first free slot is ready with that priority on that core, last in its queue and counted, and everything else stays; otherwise nothing changes |
| SchedulerEffects.WakeupEffect | kernel/tasks.c:657-702 | every blocked task, with or without a timer, becomes ready without one, last in its queue and counted; the timer queue loses just it, everything else stays; for any other task nothing changes |
| SchedulerEffects.BlockEffect | kernel/tasks.c:705-739 | exactly a running task becomes blocked without a timer and is no longer counted; the lists and everything else stay |
| SchedulerEffects.SetTimerEffect | kernel/tasks.c:748-777 | a running task becomes blocked with the deadline, behind exactly the tasks due no later; everything else stays |
| SchedulerEffects.FinishEffect | kernel/tasks.c:322-364 | the slot of a finished old task becomes invalid, a preempted one is last in its queue, none is pending, and everything else stays |
| SchedulerEffects.ExitEffect | kernel/tasks.c:367-399 | the running task is finished and no longer counted, everything else stays |
| SchedulerEffects.ScheduleEffect | kernel/tasks.c:807-890 | exactly when the highest queue with a task is not below a running current task, its first task runs and the current one is pending if it ran or has finished; otherwise a running task goes on and the idle task takes over from any other |
| SchedulerEffects.FinishedStays | kernel/tasks.c:322-399 | no step of any kind changes a finished task but the end of the switch away from it |
| SchedulerEffects.ExitFreesSlot | kernel/tasks.c:322-399 | after do_exit, the switch and its end the slot is free for the next task; a wakeup in between changes nothing |
| TaskLists.LinkTable.PushBack | include/hermit/tasks_types.h:158-173 | the doubly linked list gains the task at its end; tasks outside the list keep their links |
| TaskLists.LinkTable.PopFront | include/hermit/tasks_types.h:176-199 | the list loses its first task, which ends up with null links |
| TaskLists.LinkTable.Remove | include/hermit/tasks_types.h:142-155 | the list loses the task at any place, the others keep their order |
| TaskLists.LinkTable.RemoveAny | include/hermit/tasks_types.h:142-155 | what the removal does to all links as written, so that a task with null links changes nothing |
| TaskLists.LinkTable.InsertBefore | kernel/tasks.c:119-156 | the list gains the task before a given one or at its end |
| KernelTasks.Kernel.constructor | kernel/tasks.c:56-67 | the static tables after multitasking_init: slot 0 is the idle task of the boot core, everything else is empty; this is the first step of a run and satisfies the invariant |
| KernelTasks.Kernel.PushReady | kernel/tasks.c:162-171 | on the linked lists: the task joins its priority queue, the bit is set, every other list stays linked |
| KernelTasks.Kernel.BootCore | kernel/tasks.c:293-320 | set_idle_task takes the first free slot and equals the model operation |
| KernelTasks.Kernel.CreateTask | kernel/tasks.c:540-636 | create_task on the linked lists equals the model operation, with its error results |
| KernelTasks.Kernel.NextCore | kernel/tasks.c:415-436 | get_next_core_id returns a booted core, the next one in turn after the last answer |
| KernelTasks.Kernel.CloneTask | kernel/tasks.c:439-537 | clone_task creates a ready task of the given priority on the next core, or fails and leaves tables and lists as they are |
| KernelTasks.Kernel.WakeupTask | kernel/tasks.c:657-702 | wakeup_task on the linked lists equals the model operation; a task that is not blocked gives an error |
| KernelTasks.Kernel.BlockTask | kernel/tasks.c:705-739 | block_task on the linked lists equals the model operation: removing a running task from its queue finds nothing to unlink |
| KernelTasks.Kernel.FindLater | kernel/tasks.c:127-130 | the search loop stops at Position |
| KernelTasks.Kernel.PushTimer | kernel/tasks.c:111-159 | the timer queue gains the task at Position, every other list stays linked |
| KernelTasks.Kernel.PopTimer | kernel/tasks.c:91-108 | the timer queue loses the task, every other list stays linked |
| KernelTasks.Kernel.SetTimer | kernel/tasks.c:748-777 | set_timer on the linked lists equals the model operation |
| KernelTasks.Kernel.CheckTimers | kernel/tasks.c:780-804 | the loop of check_timers terminates and equals the model operation |
| KernelTasks.Kernel.FindMsb | kernel/tasks.c:833 | the search for the highest set bit equals msb |
| KernelTasks.Kernel.PopReady | kernel/tasks.c:853-870 | the queue loses its first task and its bit is cleared exactly when it becomes empty |
| KernelTasks.Kernel.Schedule | kernel/tasks.c:807-890 | scheduler() on the linked lists equals the model operation |
| KernelTasks.Kernel.FinishTaskSwitch | kernel/tasks.c:322-364 | finish_task_switch on the linked lists equals the model operation |
| KernelTasks.Kernel.Exit | kernel/tasks.c:367-399 | do_exit on the linked lists equals the model operation |
| KernelRuns.Machine.constructor | kernel/tasks.c:262-279 | multitasking_init on the boot core is the first step of a run |
| KernelRuns.Machine.Wakeup | kernel/tasks.c:657-702 | on the links: after any calls a blocked task is linked last in its ready queue behind the tasks that were there, and any other task gives EINVAL and changes nothing |
| KernelRuns.Machine.ListsExactly | kernel/tasks.c:162-184 | after any sequence of the operations the links of a ready queue join exactly the tasks ready there with its priority but for a pending old task, those of the timer queue exactly the tasks blocked with a timer; the bitmap tells which queues have a first task, and nr_tasks is the number of ready and running tasks |
| KernelRuns.Machine.PopFinds | kernel/tasks.c:833-864 | after any sequence of the operations the first task of the queue scheduler() pops from is ready, on this core and of the priority looked for |
| TicketLock.HeadEnters | include/hermit/islelock.h:59-70 | only the task at the head of the ticket line can read its own ticket from dequeue |
| TicketLock.StepKeeps | include/hermit/islelock.h:59-76 | every atomic step keeps the line of tickets consistent with the two counters, across their wrap-around |
| TicketLock.TakeJoins | include/hermit/islelock.h:59-76 | who takes a ticket is last in the line, and alone there may enter; nobody else is affected |
| TicketLock.LeaveAdmits | include/hermit/islelock.h:59-76 | who leaves was first in the line and is out, and the next in the line may enter; nobody else is affected |
| TicketLock.HeadMoves | include/hermit/islelock.h:59-76 | as long as there is a line, its first task can enter or leave |
| TicketLock.RunIsFifo | include/hermit/islelock.h:59-76 | in every run tasks enter in the order in which they took tickets, and the line is exactly those still waiting |
| TicketLock.InvExclusive | include/hermit/islelock.h:59-76 | at most one task is inside |
| TicketLock.TooManyTasks | include/hermit/islelock.h:59-76 | with more tasks than counter values there is a run in which two tasks are inside |
| TicketLock.ExclusionExactly | include/hermit/islelock.h:46-76 | the lock excludes in all runs if and only if no more tasks than counter values use it |
| SpinLock.StepKeeps | include/hermit/spinlock.h:91-127 | every access to queue, dequeue, owner and counter keeps: owner is t exactly while t owns the field, counter is the holder's depth |
| SpinLock.RunKeeps | include/hermit/spinlock.h:91-127 | the invariant holds after every run, whose ticket accesses form a run of the ticket lock |
| SpinLock.SpinLockSafe | include/hermit/spinlock.h:91-127 | after every run at most one task holds the lock, owner and recursion counter are right, and tasks got it in ticket order |
| SpinLock.Balanced | include/hermit/spinlock.h:91-127 | after every run the locks of a task minus its unlocks are its depth, the counter while that is positive, and nobody else is or gets inside then; the owner is cleared and the ticket passed on only at zero |
| SpinLock.LockAlone | include/hermit/spinlock.h:91-127 | a lock of the free lock ends with the caller as owner at depth 1 |
| SpinLock.LockAgain | include/hermit/spinlock.h:91-127 | a nested lock changes nothing but depth and counter, up by one |
| SpinLock.UnlockInner | include/hermit/spinlock.h:91-127 | an unlock counts down by one, and goes on to clear the owner exactly at zero |
| SpinLock.UnlockAlone | include/hermit/spinlock.h:91-127 | an unlock at depth 1 ends with the lock without owner, the caller idle and the next in the line able to enter |
| Semaphore.SemT.constructor | include/hermit/semaphore.h:59-73 | sem_init: the given value and an empty wait queue |
| Semaphore.SemT.TryWaitOnce | include/hermit/semaphore.h:99-114 | sem_trywait takes a resource iff there is one |
| Semaphore.SemT.WaitOnce | include/hermit/semaphore.h:125-145 | one pass of sem_wait takes a resource or appends the caller to the circular wait queue |
| Semaphore.SemT.PostOnce | include/hermit/semaphore.h:193-210 | sem_post adds a resource and takes the longest sleeper out of the queue |
| Semaphore.WindowPush | include/hermit/semaphore.h:132-145 | the occupied slots stay one circular window when a task is written at wpos |
| Semaphore.WindowPop | include/hermit/semaphore.h:193-210 | the slot at rpos is the oldest sleeper's, and the window shrinks by it |
| SemaphoreProtocol.SemaphoreSafe | include/hermit/semaphore.h:99-210 | after every run, with posts from tasks or interrupt handlers: value plus successful waits is the initial value plus posts; the queue holds each task at most once and never more than there are tasks; while a task sleeps, value is at most the number of woken tasks that have not retried |
| SemaphoreProtocol.WaiterFits | include/hermit/semaphore.h:125-145 | a task about to sleep is not in the queue, and a slot is free for it |
| SemaphoreProtocol.WaitSleeps | include/hermit/semaphore.h:125-145 | without a resource the caller sleeps last in the queue and can do nothing until it is woken |
| SemaphoreProtocol.WaitTakes | include/hermit/semaphore.h:99-145 | with a resource both kinds of wait take it; without one sem_trywait changes nothing |
| SemaphoreProtocol.PostServesOldest | include/hermit/semaphore.h:125-210 | a post wakes the task that has slept longest, and its retry then takes the resource unless another is quicker |
| Mailbox.StepConserved | include/hermit/mailbox.h:68-127 | every step keeps the count of slots: free, promised, unread or being given back |
| Mailbox.WritesFreeSlot | include/hermit/mailbox.h:68-95 | a producer about to write stands at a slot that holds no unread mail |
| Mailbox.ReadsOldest | include/hermit/mailbox.h:97-127 | a consumer about to read stands at the oldest unread mail |
| Mailbox.MailboxFifo | include/hermit/mailbox.h:42-127 | in every run of any number of producers and consumers the fetched mails are a prefix of the posted ones, the unread mails are all in the buffer, no write hits one of them and every read returns the oldest |
| MailboxCalls.CallersMails | include/hermit/mailbox.h:68-127 | in every run the k-th mail written is the one given to the call that wrote it, and a consumer that has read hands its caller the mail whose number is that of its read |
| MailboxCalls.PostAlone | include/hermit/mailbox.h:68-95 | a post with a free box ends with the mail in the next slot, announced, and the producer idle |
| MailboxCalls.FetchAlone | include/hermit/mailbox.h:97-127 | a fetch with a mail hands over the oldest unread mail, and then gives back its slot |
| TnsBarrier.StepKeeps | usr/ircce/RCCE_admin.c:374-404 | every test-and-set or reset of a register keeps the invariant, for any number of UEs |
| TnsBarrier.BarrierSafe | usr/ircce/RCCE_admin.c:374-404 | in every run no UE returns from its k-th call before all have entered theirs, and no register beyond the N of the communicator is touched |
| TnsBarrier.EarlyNeverSteals | usr/ircce/RCCE_admin.c:374-404 | in every run a UE that re-enters early takes only the next register of the prefix held by early UEs, never one an old waiter still needs |
| TnsProgress.EverybodyReturns | usr/ircce/RCCE_admin.c:374-404 | from every reachable state there are steps after which all UEs are out and have returned from the call that follows the current episode |
| LinearBarrier.PollExact | usr/ircce/RCCE_synch.c:402-447 | the root sees its own phase in a gather flag exactly when that member has put it for this episode |
| LinearBarrier.ReleaseExact | usr/ircce/RCCE_synch.c:402-447 | a member sees its phase in its release flag exactly when the root has released it from this episode |
| LinearBarrier.BarrierSafe | usr/ircce/RCCE_synch.c:402-447 | in every run no member leaves episode k before all entered it, and one-bit flags are never confused with those of episode k-2 or k+2 |
| BarrierProgress.GatheredEnds | usr/ircce/RCCE_synch.c:402-447 | once every gather flag is put, one round of polls counts them all, and with the releases everybody leaves, with as many returns as calls |
| BarrierProgress.EpisodeCompletes | usr/ircce/RCCE_synch.c:402-447 | from every reachable state with nobody inside, one call of every member can be completed |
| MpbAlloc.Initial | usr/ircce/RCCE_malloc.c:58-64 | one free block that covers the managed space |
| MpbAlloc.FirstFit | usr/ircce/RCCE_malloc.c:145-150 | the block the search stops at is large enough and all before it are too small |
| MpbAlloc.LiveDisjoint | usr/ircce/RCCE_malloc.c:124-163 | regions handed out lie inside the managed space and do not overlap |
| MpbAlloc.MallocKeeps | usr/ircce/RCCE_malloc.c:124-163 | RCCE_malloc adds exactly one region of the asked size and keeps the tiling without free neighbours; it fails exactly for a refused size or when every block is too small |
| MpbAlloc.FreeKeeps | usr/ircce/RCCE_malloc.c:186-233 | RCCE_free gives back exactly the live region that starts at the pointer, merges it with free neighbours, and changes nothing for any other pointer |
| MpbAlloc.RoundTrip | usr/ircce/RCCE_malloc.c:124-233 | freeing what RCCE_malloc returned restores the block list exactly |
| MpbAlloc.FreeEverything | usr/ircce/RCCE_malloc.c:58-233 | after any calls, freeing every live region in any order leaves the initial block |
| MpbHeap.Heap.constructor | usr/ircce/RCCE_malloc.c:58-64 | one struct linked to itself |
| MpbHeap.Heap.Search | usr/ircce/RCCE_malloc.c:144-150 | the walk around the circle finds the first block that fits, or comes full circle |
| MpbHeap.Heap.Malloc | usr/ircce/RCCE_malloc.c:124-163 | on the circular linked list the call equals the allocator on values |
| MpbHeap.Heap.Free | usr/ircce/RCCE_malloc.c:186-233 | on the circular linked list the call equals the allocator on values |
| Quicksort.Med3 | usr/ircce/RCCE_qsort.c:75-79 | one of the three places, with at most one element below and at most one above it |
| Quicksort.ChoosePivot | usr/ircce/RCCE_qsort.c:95-106 | the partition element lies in the range |
| Quicksort.InsertionSort | usr/ircce/RCCE_qsort.c:89-94 | ranges below seven elements become sorted permutations |
| Quicksort.Partition | usr/ircce/RCCE_qsort.c:107-123 | the range becomes equal, below, above and equal parts around the value, by permutation, whether the value is copied or kept at the first place |
| Quicksort.VecSwap | usr/ircce/RCCE_qsort.c:71 | two disjoint blocks of equal length are exchanged |
| Quicksort.PivotExcluded | usr/ircce/RCCE_qsort.c:125-128 | an element equal to the value is in an outer part, so both recursive calls are on fewer elements |
| Quicksort.SplitAround | usr/ircce/RCCE_qsort.c:95-126 | the range becomes below, equal and above parts, and below and above together are smaller than it |
| Quicksort.Sort | usr/ircce/RCCE_qsort.c:81-129 | the range becomes a sorted permutation of itself and the rest is untouched, for every length and every total preorder |
| Ranks.IdCompare | usr/ircce/RCCE_qsort.c:30-37 | negative for less, positive for greater |
| Ranks.SameTable | usr/ircce/RCCE_admin.c:929-941 | two UEs given the same distinct core ids in any order sort them to the same table |
| Ranks.RanksDistinct | usr/ircce/RCCE_admin.c:929-941 | ranks are distinct, ordered like the ids, and below the number of UEs |
| Ranks.Init | usr/ircce/RCCE_admin.c:929-941 | the table is the sorted list, and the caller's rank is the number of smaller ids |
| Receive.PiecesTile | usr/ircce/RCCE_recv.c:159-196 | the pieces of a message lie one behind the other and cover it exactly once |
| Receive.FilledIsMessage | usr/ircce/RCCE_recv.c:306-448 | receiving the pieces of a message in order puts the message into the buffer |
| Receive.TraceFills | usr/ircce/RCCE_recv.c:306-448 | against a sender that overwrites a piece once ready is set and sets the sent flag after it, the actions never meet an unset flag and fill the buffer with all pieces |
| ReceiveRequest.RecvGeneral | usr/ircce/RCCE_recv.c:96-448 | the blocking receive performs the actions of every piece in order and fills the buffer; for an empty message it only sets ready |
| ReceiveRequest.Request.LikeBlocking | usr/ircce/RCCE_recv.c:452-712 | a finished request has performed the ordered flag writes and gets of the blocking receive iff the message has bytes, and its buffer holds what the blocking one would have put there |
| ReceiveRequest.Request.FinishedExactly | usr/ircce/RCCE_recv.c:452-712 | a request is finished exactly when every piece of its message is in |
| ReceiveRequest.ReceiveAgain | usr/ircce/RCCE_recv.c:96-448 | the code of the blocking receive, given the pieces a finished request took, ends with the same buffer, and with the same actions iff there are bytes |
| ReceiveRequest.Request.constructor | usr/ircce/RCCE_recv.c:714-753 | a new request has taken no piece |
| ReceiveRequest.Request.Settle | usr/ircce/RCCE_recv.c:515-648 | between two tests the code sets up the next piece of the plan, or finds the message complete |
| ReceiveRequest.Request.Take | usr/ircce/RCCE_recv.c:495-712 | at each of the four labels a set flag leads to the actions of the next piece |
| ReceiveRequest.Request.Push | usr/ircce/RCCE_recv.c:452-712 | whatever the tests of the flag find, the pieces taken are those found until the flag is unset or the message complete, the actions so far are those of the first pieces of the plan, the buffer holds their contents, and the request is finished exactly when all pieces are in |
| ReceiveQueue.PushKeeps | usr/ircce/RCCE_recv.c:1205-1274 | a push changes the oldest request that is not complete and no other, which leaves the queue exactly when complete; every request has got the pieces sent for it |
| ReceiveQueue.PostedInOrder | usr/ircce/RCCE_recv.c:1133-1197 | in every run the requests completed and those queued are together those posted, in posting order |
| ReceiveQueue.InOrder | usr/ircce/RCCE_recv.c:1133-1274 | in every run the j-th request from one source that completes is the j-th posted, and it holds the j-th message sent |
| ReceiveCalls.RecvQueue.Irecv | usr/ircce/RCCE_recv.c:1133-1197 | RCCE_irecv on the linked queue: on an empty queue the request is pushed and queued only if it is not complete, else it goes behind the last one unpushed; the queue follows the run on values |
| ReceiveCalls.RecvQueue.FindLast | usr/ircce/RCCE_recv.c:1177-1194 | the walk along the next links ends at the request posted last |
| ReceiveCalls.RecvQueue.IrecvTest | usr/ircce/RCCE_recv.c:1205-1237 | RCCE_irecv_test: a request that is not the head is not pushed; the answer is whether the request is complete, and a completed head leaves the queue |
| ReceiveCalls.RecvQueue.IrecvPush | usr/ircce/RCCE_recv.c:1246-1274 | RCCE_irecv_push: the head, if there is one, takes the pieces found and leaves the queue when complete |
| ReceiveCalls.RecvQueue.Delivered | usr/ircce/RCCE_recv.c:1133-1274 | after any calls a completed request has the message sent for it in its buffer, and all requests posted before it have completed |
| Buddy.BuddyExp | mm/malloc.c:54-65 | the smallest exponent of at least BUDDY_MIN whose block holds the bytes |
| Buddy.PallocExactly | mm/malloc.c:68-99 | palloc is called exactly when every list from the exponent up to BUDDY_MAX-1 is empty, once, for at least 2^BUDDY_ALLOC bytes; the recursion ends inside the list array |
| Buddy.GetConserves | mm/malloc.c:68-99 | anything that splits with a block is conserved by buddy_get, failures included |
| Buddy.KmallocGives | mm/malloc.c:228-252 | a result lies in a new live block that holds the prefix and the asked bytes; a failure changes nothing |
| Buddy.KfreeKeeps | mm/malloc.c:254-268 | giving a live block back keeps the invariant |
| Buddy.KfreeExact | mm/malloc.c:254-268 | exactly the block goes from the live to the free ones, as the first of its list; nothing is obtained from palloc |
| Buddy.FreedIsReused | mm/malloc.c:228-268 | the next kmalloc that needs its exponent gets the block again and leaves the free lists as they were |
| Buddy.GetSplitsSmallest | mm/malloc.c:68-99 | the first block of the smallest non-empty list that is large enough is split down, and each list below it gains exactly the upper half split off there |
| Buddy.BuddySafe | mm/malloc.c:45-268 | in every run of kmalloc and kfree the free and live blocks do not overlap, cover exactly the bytes obtained from palloc, and their sizes add up to it |
| BuddyHeap.Heap.LargeAvailable | mm/malloc.c:45-51 | the loop says whether a larger block is free |
| BuddyHeap.Heap.SizeExponent | mm/malloc.c:54-65 | the loop computes BuddyExp |
| BuddyHeap.Heap.GetBuddy | mm/malloc.c:68-99 | on free lists threaded through the blocks the recursion equals the model operation and touches no prefix of a live block |
| BuddyHeap.Heap.PutBuddy | mm/malloc.c:105-112 | the block becomes the head of the list of the exponent found in its prefix |
| BuddyHeap.Heap.KmallocAt | mm/malloc.c:228-252 | kmalloc on the threaded lists equals the model operation, and every live block has its prefix |
| BuddyHeap.Heap.KfreeAt | mm/malloc.c:254-268 | kfree on the threaded lists equals the model operation, with the block as the head of its list; NULL changes nothing |
| Vma.PageCeilExact | arch/x86_64/include/asm/page.h:105 | rounding gives the smallest number of whole pages that hold the size, and this exactly up to 2^63 - 0x1000, since the mask clears the top bit |
| Vma.AllocLowest | mm/vma.c:98-110 | the address returned is that of the lowest gap that fits, or 0 without one, iff a gap that fits lies below every gap whose end wraps around to a small address |
| Vma.AllocWraps | mm/vma.c:105 | after boot the second of two requests of 2^63 - 0x1000 bytes is granted where its end wraps, and leaves an area that ends below its start |
| Vma.NeverWraps | mm/vma.c:105 | below the upper bound no request of at most 2^64 - VMA_MAX - 0x1000 bytes meets a gap that wraps |
| Vma.AllocKeeps | mm/vma.c:80-145 | a granted range was free, lies strictly within the bounds and is added to the used addresses of a sorted, disjoint list iff a gap that fits lies below every gap that wraps; a failure changes nothing |
| Vma.UsedIsHeld | mm/vma.c:48-271 | on values: in every run after boot of allocations of moderate size, frees and additions below the upper bound, the list covers exactly the addresses granted or added and not freed since |
| Vma.AllocSafe | mm/vma.c:80-145 | on values: in every such run an allocation gets the lowest gap that fits, at least as large as asked for, within the bounds and held by nobody |
| Vma.FreeKeeps | mm/vma.c:147-207 | exactly the range is removed from the used addresses; EINVAL iff it is empty or no single area holds it; the list stays sorted and disjoint |
| Vma.AddKeeps | mm/vma.c:209-271 | exactly the range is added; EINVAL iff it is empty or overlaps an area; the list stays sorted and disjoint |
| VmaList.Space.constructor | mm/vma.c:48-49 | one empty area at the lower bound |
| VmaList.Space.FindGap | mm/vma.c:98-110 | the loop over pred and succ stops at the first gap that passes the test |
| VmaList.Space.AllocRange | mm/vma.c:80-145 | on the doubly linked list the call equals the operation on values, whatever the prev links are, and keeps consistent ones so |
| VmaList.Space.FreeRange | mm/vma.c:147-207 | on the doubly linked list the call equals the operation on values iff it takes out no whole area or one whose prev link serves; a prev link that skips areas drops these as well; consistent prev links stay so iff no area with a successor was split |
| VmaList.SplitLeavesStale | mm/vma.c:186-202 | a list of calls after which the prev link behind a split area is stale |
| VmaList.FreeDropsHalf | mm/vma.c:173-180 | freeing the next area then drops the second half of the split one from the list |
| VmaList.Space.AddRange | mm/vma.c:209-271 | on the doubly linked list the call equals the operation on values, whatever the prev links are, and keeps consistent ones so |
| VmaRuns.Recorded.Allocate | mm/vma.c:80-145 | vma_alloc on the linked list as a step of a run |
| VmaRuns.Recorded.Insert | mm/vma.c:209-271 | vma_add on the linked list as a step of a run |
| VmaRuns.Recorded.Release | mm/vma.c:147-207 | vma_free on the linked list as a step of a run: the run on values goes on iff the prev link serves, and else the links make up no list of the right areas |
| VmaRuns.Recorded.Safe | mm/vma.c:48-271 | after every run on the linked list within the bounds in which no vma_free split an area that had a successor, or every one met a prev link that serves, the list covers exactly the addresses held, and every allocation got the lowest gap that fits, at least as large as asked for, within the bounds and held by nobody |
| VmaRuns.GrantsHeld | mm/vma.c:147-207 | five calls within the bounds after which vma_alloc grants memory that was added and never freed |
| PacketRing.LaidDisjoint | drivers/net/mmnif.c:327-393 | no byte belongs to two live packets, wrapped or not |
| PacketRing.HeadIsOldest | drivers/net/mmnif.c:169-188 | head is where the oldest live packet starts, and equals tail exactly when there is none |
| PacketRing.AllocKeeps | drivers/net/mmnif.c:327-393 | an accepted packet is behind all others inside the heap and touches none; a refusal changes nothing, and an empty ring accepts |
| PacketRing.AllocRefuses | drivers/net/mmnif.c:341-389 | a request is refused exactly when no descriptor is free or neither place the ring would use has a gap larger than the packet |
| PacketRing.FreeKeeps | drivers/net/mmnif.c:436-453 | freeing the oldest packet moves head to the next one, over the hole at the end if need be |
| PacketRing.RingSafe | drivers/net/mmnif.c:327-820 | in every run of an in-order sender and a receiver live packets are disjoint and inside the heap, head is the oldest one, and what was received is a prefix of what was sent, byte for byte |
| PacketRing.DrainedDelivers | drivers/net/mmnif.c:487-505 | when the ring is empty everything sent has been received and the next request is granted |
| PacketCalls.CommitSendsStored | drivers/net/mmnif.c:399-416 | in every run a commit sends one packet, with every byte as it was last stored in it |
| PacketCalls.SendAlone | drivers/net/mmnif.c:484-505 | a message for which there is room is sent as it is and waits ready behind all others |
| PacketCalls.ReceiveAlone | drivers/net/mmnif.c:736-820 | a ready packet at the head is received as the oldest one sent and not yet received, and its place is free |
| PacketBuffer.RxBuffer.constructor | drivers/net/mmnif.c:658-664 | all descriptors are free |
| PacketBuffer.RxBuffer.Request | drivers/net/mmnif.c:327-393 | on the descriptor table the call equals the operation on values; free and live descriptors stay MMNIF_MAX_DESCRIPTORS together |
| PacketBuffer.RxBuffer.CommitPacket | drivers/net/mmnif.c:399-416 | the search marks the pending packet with this address ready, and fails iff there is none |
| PacketBuffer.RxBuffer.TakeReady | drivers/net/mmnif.c:736-762 | the search takes the oldest packet iff it is ready |
| PacketBuffer.RxBuffer.MarkProcessed | drivers/net/mmnif.c:811-815 | the packet in hand becomes processed |
| PacketBuffer.RxBuffer.FreeProcessed | drivers/net/mmnif.c:421-459 | the loop frees the oldest packet iff it has been processed, and nothing else |
| Checkpoint.ParseEncode | tools/uhyve-x86_64.c:689-693 | a stream of records is read back as the records it was written from |
| Checkpoint.EncodeParse | tools/uhyve-x86_64.c:930-942 | a stream that can be read is the stream of the records read |
| Checkpoint.LoadFile | tools/uhyve-x86_64.c:930-942 | the loop replays the records in order; it fails exactly for a truncated stream |
| CheckpointRuns.RecordsExact | tools/uhyve-x86_64.c:627-668 | a scan saves exactly the pages whose bit is set, with their current contents, to the place load_checkpoint derives from the header |
| CheckpointRuns.ReplaySnapshots | tools/uhyve-x86_64.c:930-942 | replaying pages of a memory gives every covered word its contents and leaves the others |
| CheckpointRuns.LeafDueExact | tools/uhyve-x86_64.c:627-668 | in every run a mapping has the bit the next scan looks for iff it was marked at the start or by an access or by page_map, after the last incremental checkpoint, and has not been replaced since |
| CheckpointRuns.DueExact | tools/uhyve-x86_64.c:627-668 | a scan finds a word's page marked iff the steps before make it due |
| CheckpointRuns.ImageIsLoaded | tools/uhyve-x86_64.c:899-946 | in every run loading the files gives each word as its last save left it, or zero |
| CheckpointRuns.GuestWriteSaved | tools/uhyve-x86_64.c:627-668 | a guest write is saved by a later checkpoint unless its mapping is replaced before |
| CheckpointRuns.TrackedIsReached | tools/uhyve-x86_64.c:627-668 | in every run that replaces no mapping a word is in a file that counts, or will be in the next, iff its page was marked at the start, or accessed before the first checkpoint, or written since, or newly mapped as such (for full checkpoints accessed at any time) |
| CheckpointRuns.RestoreExact | tools/uhyve-x86_64.c:899-946 | after any checkpoint of any run of guest accesses, mappings, removed and replaced mappings and host writes the loaded image has a word's contents iff no write came since its last save, and without a save it was zero at the start, or the last write stored the saved value, or zero |
| CheckpointRuns.MissedWrites | tools/uhyve.c:340-344 | a write that came since the last save is a host write or went through a mapping replaced before the checkpoint |
| CheckpointRuns.RestoreReached | tools/uhyve-x86_64.c:899-946 | without host writes to the word and replaced mappings it is restored iff it was zero at the start, or its page was marked then, or a step made it to be saved |
| CheckpointRuns.CheckpointRestores | tools/uhyve-x86_64.c:899-946 | in such runs every word whose page was accessed before the first checkpoint, or that was zero at the start, is restored, for incremental and for full checkpoints |
| CheckpointRuns.HostWriteLost | tools/uhyve.c:340-344 | a word saved by the first incremental checkpoint and then changed by the host is not restored by the second |
| CheckpointScan.ScanPageTables | tools/uhyve-x86_64.c:642-665 | the loops over directories and tables, given one behind the other, write exactly the stream of the saved pages and clear the bits of exactly those entries |
| CheckpointScan.ScanLoads | tools/uhyve-x86_64.c:627-693 | the file of a scan is read back as the saved records and stays inside the memory |
| Numerals.ValueOfDigits | libkern/printf.c:86-99 | the digits of a number have its value |
| Numerals.DigitsLength | libkern/printf.c:75-76 | a number of k bits has at most k digits in any base |
| Numerals.LetterCase | libkern/printf.c:86-99 | digits up to nine are numerals, those above are letters of the case asked for |
| Print.Ksprintn | libkern/printf.c:86-99 | the buffer holds the digits in reverse order behind a NUL, and MAXNBUF characters are enough for every 64-bit number and base 2 to 36 |
| Print.LayoutShape | libkern/printf.c:404-443 | blanks before the sign, zeros between prefix and digits, padding behind a left adjusted number; 0x and 0 in front of hexadecimal and octal numbers other than zero |
| Print.PutNumber | libkern/printf.c:404-443 | the output is sign, prefix and digits with padding up to the width on the side and at the place the flags say |
| Parse.CutoffExact | libkern/strtol.c:103-117 | the cutoff test says whether taking in the digit would pass the limit |
| Parse.ReadDigits | libkern/strtol.c:106-124 | the loop reads the longest run of digits; the accumulator is their exact value, or the overflow mark is set iff that exceeds the limit |
| Parse.StrToUl | libkern/strtoul.c:52-111 | the exact value, saturated iff it exceeds ULONG_MAX, negated modulo 2^64 after a minus sign; the end of the number, or the start when there is none |
| Parse.StrToL | libkern/strtol.c:52-132 | the exact signed value, saturated iff it is outside the range of long, the minimum included; the end of the number |
| PrintParse.SignedRoundTrip | libkern/strtol.c:52-132 | every long printed in any base, case, width and form is read back, except with zeros behind it |
| PrintParse.UnsignedRoundTrip | libkern/strtoul.c:52-111 | every unsigned long printed in any base, case, width and form is read back, except with zeros behind it |
| PrintParse.OneLooksLikeTen | libkern/printf.c:404-443 | one, left adjusted in two places and padded with zeros, is printed as 10 |
| PrintParse.OneReadAsTen | libkern/strtol.c:52-132 | and both parsers read it as ten |

## Left out

- Context switches, interrupts, rescheduling requests, stacks and page mapping: operations have their effect on tables and lists only, and kernel operations are atomic.
- The shutdown path of the scheduler and the failure of create_default_frame.
- Signed 64-bit time: deadlines and ticks are unbounded numbers.
- KernelTasks.Kernel.CreateTask: the choice of stack and thread-local storage is not modelled.
- Restoring the interrupt flags when an irqsave lock is released: they are read after the release.
- Timed semaphore waits, whose queue entry is not removed on a timeout, and wrap-around of the semaphore value.
- SpinLock.SpinLockSafe: recursion depth and counter are unbounded numbers.
- The AIR, dissemination and tree barriers, the non-blocking barrier and the tree lock.
- TnsBarrier.BarrierSafe: the registers behave as documented at usr/ircce/RCCE_admin.c:798-801; the hermit tas macro has the opposite polarity.
- The allocator of iRCCE outside GORY mode, and RCCE_malloc_request.
- Tagged flags, probe flags, pipelining, multicast, cancellation and the remote-put variant of the receive; the sender, who is an environment that presents pieces in order.
- ReceiveCalls.RecvQueue.Irecv: requests are named by their place in a table; the buffer must not be that of a request still in the queue. The variant without a handle, which waits, and RCCE_irecv_wait are busy waiting around these calls.
- Buddy.BuddyExp: sizes above 2^30, for which the source shifts an int past its sign bit, which C leaves undefined.
- BuddyHeap.Heap.SizeExponent: the same sizes.
- Buddy.KmallocGives: requests above 2^30 bytes with their prefix, for the same reason.
- BuddyHeap.Heap.KmallocAt: the same requests.
- Buddy.BuddySafe: the same requests; palloc is an environment that answers with unused memory or fails; user code does not overwrite a prefix.
- The aarch64 form of PAGE_CEIL, whose mask keeps the top bit; kmalloc inside vma_alloc does not change the list, and a list node given back is not used again for something else; vma_init and sys_sbrk.
- KernelTasks.Kernel.constructor: what happens before multitasking_init, which uses neither the table nor the queues.
- PacketRing.RingSafe: one sender commits in order, no received packet is dropped, allocation and freeing are atomic; addresses count from the start of the heap, so that the 32-bit address of a commit is exact.
- CheckpointScan.ScanPageTables: the upper two levels of the page tables, which select the directories. The last entry of the top level refers to the table itself, so the source also reaches the tables as pages and saves them; here the directories are distinct.
- CheckpointRuns.RestoreExact: the page tables are not part of the memory whose words are followed, and a cleared bit is set again by the next access, as without a cached translation; CPU state, clock and files are left out, and so are the dirty-log variant and migration.
- The format string of kvprintf and its other conversions; errno.
- Proxy, sockets, lwIP glue, the other network drivers, benchmarks and tools: input and output, or easy members only.
