# A verified model of the kernel, the FAT12 reader and two device algorithms

The project models three parts of a small real-time operating system for the
RP2040 and proves what they promise.

**The kernel.** Tasks live in a table of sixteen control blocks. Sixteen ready
queues, one for each priority, and one wait queue are doubly linked lists through the
same two fields of a control block. `Kernel.dfy` has these as heap objects and every
entry point as a method that changes them in place: the system calls for tasks,
event flags and semaphores, the timer interrupt and the dispatcher. Each method is
proved to do to the heap what a function of the same name in `KernelSpec.dfy` does to
a value-level state of sequences (`Holds` connects the two), and to keep `Valid`.
The theorems about runs are then about the value-level machine, whose steps are a
system call by the running task, a timer tick, and a dispatch; a run is any sequence
of steps each of which the state permits. `CallResults.dfy` and `WaitResults.dfy` say what
a caller sees, with the codes as numbers and flag patterns bit by bit.

**The FAT12 reader.** A volume is a sequence of bytes. Layout, table decoding, chain
and directory walks, 8.3 names, path lookup and file copying are proved against
recursive specifications over chains, entries and trees, and reading is proved to undo
writing (`FatFormat.dfy`). The format is that of the
*FAT32 File System Specification*, version 1.03, sections "FAT Data Structure", "FAT
Type Determination" and "FAT Directory Structure".

**Two device algorithms.** The SSD1306 frame buffer, in which pixels, squares, scaled
characters and bitmaps are proved against the set of lit pixels (`BitmapFormat.dfy` has
the bitmap file that is written from a picture); and the I2C transfer,
proved to emit one exact sequence of command words.

Where the source and what it says of itself differ, the model follows the source:

- The timer can interrupt between a blocking call and its dispatch. The rotation then
  puts the blocked task into the ready queue in place of a READY one, which is lost
  (`TickKeepsInvIffSafe`; `LosingTickIsReached` is a run). A tick step therefore
  requires `TickSafe`, the exact condition.
- `task_queue_add_entry` clears the `next` link, so the walks over the wait queue in
  the timer, in `sk_set_flag` and in `sk_signal_semaphore` end at the first task they
  release. A tick ages only the waiters before that task; lateness is bounded but grows
  by one tick for each waiter ahead.
- Delays above 0xFFFFFFF4 are not kept (`DelayIsKeptIffItFits`).
- A timeout of -11 waits for ever, as -1 does (`NeverTimesOutIff`).
- `sk_create_task` accepts priority 16, which no ready queue has
  (`CreatedTaskHasAQueueIff`); `StartTask` requires that no such task is started.
- Waiting for a flag and setting it do not commute when the wait is satisfied at once
  and the set brings a bit that the wait does not leave there
  (`OrderOfWaitAndSetMatters`, `OrdersDifferAfterBoot`).
- The type test counts 4085 clusters as FAT12 and 65525 as FAT16
  (`TypeIsStandardIff`). A boot sector whose regions do not fit is mounted all the same,
  as FAT12 or FAT32 (`TypeOfOverfullVolume`).
- Walks of a directory stop at table values from 0xF00 on, not from the end-of-chain
  mark 0xFF8 on (`WalkCoversChainIff`, `DirectoryIsCutShort`).
- The length check of `fat_get_entry_name` asks for one byte less than it may write
  (`TextFitsIff`).
- A path component that is not found makes the rest of the path be looked up from the
  root (`MissingComponentLeadsToRoot`).
- `cat_file_for_cluster` prints chunks as strings, so that a zero byte cuts the chunk
  short (`PrintedWholeIff`).
- The header asks for a display buffer of width * height / 8 bytes; the driver uses at
  least one more (`PixelsFitIff`).
- A bitmap whose two palette entries are both black does not show the pixels that use
  the second (`LitIsBlackIff`, `BlackPixelIsNotLit`).

`hide` statements in proofs only leave definitions out that a proof does not need.

## Model

| member | source | states |
|---|---|---|
| `TaskQueue.TaskQueue.AddEntry` | kernel/task_manager.c:36-51 | the list gets the task at its tail and is well linked again: head.prev is the tail, neighbours link to each other, tail.next is NULL; no TCB outside the list changes a link |
| `TaskQueue.TaskQueue.RemoveTop` | kernel/task_manager.c:53-64 | the list loses exactly its head and is well linked; an empty list stays empty |
| `TaskQueue.TaskQueue.RemoveEntry` | kernel/task_manager.c:66-78 | the list loses exactly the task at the given position, head, middle or tail, keeps the order of the others, and is well linked |
| `Kernel.Kernel.constructor` | kernel/task_manager.c:22-34 | the tables, queues and pointers that main() and the first dispatch leave are a valid kernel in the boot state |
| `Kernel.Kernel.FirstReady` | kernel/task_manager.c:83-86 | the search of the ready queues ends at the task that the value-level scheduler picks, or past the table when no task is ready |
| `Kernel.Kernel.Scheduler` | kernel/task_manager.c:80-96 | scheduled_task becomes the head of the first non-empty ready queue, or NULL, and a dispatch is pended when it differs from curr_task outside the dispatcher; nothing else changes |
| `Kernel.Kernel.BlockCurrent` | kernel/task_manager.c:203-210 | the passage that every blocking call shares takes the caller out of its ready queue and puts it at the tail of the wait queue with its factor and time, on well-linked lists |
| `Kernel.Kernel.ReleaseWaiter` | kernel/task_manager.c:252-257 | the passage that every release shares moves one waiter to the tail of its ready queue and clears its next link, which is what ends the walks of the wait queue |
| `Kernel.Kernel.CreateTask` | kernel/task_manager.c:116-159 | bad attributes, priorities and a missing user stack give E_RSATR and E_PAR and change nothing; otherwise the first unused control block becomes dormant with the priority, or E_LIMIT is returned; the lists stay well linked |
| `Kernel.Kernel.StartTask` | kernel/task_manager.c:161-183 | a dormant task becomes READY at the tail of the queue of its priority and the scheduler runs; a bad id or another state gives E_ID or E_OBJ and changes nothing |
| `Kernel.Kernel.ExitTask` | kernel/task_manager.c:185-195 | the running task becomes dormant, leaves the head of its ready queue, and the scheduler runs |
| `Kernel.Kernel.DelayTask` | kernel/task_manager.c:197-215 | a positive delay takes the caller from its ready queue to the tail of the wait queue with time delay + 10 in 32 bits, and the scheduler runs; a zero delay changes nothing |
| `Kernel.Kernel.SleepTask` | kernel/task_manager.c:217-238 | a counted wakeup is used up at once; without one the caller goes to the tail of the wait queue, for ever or with its timeout plus a period |
| `Kernel.Kernel.WakeupTask` | kernel/task_manager.c:240-267 | a sleeping task goes to the tail of its ready queue and the scheduler runs; a task that is READY or waits for something else is credited with a wakeup; a bad id or a dormant task gives E_ID or E_OBJ and changes nothing |
| `Kernel.Kernel.CreateFlag` | kernel/event.c:7-23 | the first free flag control block takes the initial pattern, and its number, counted from 1, is returned |
| `Kernel.Kernel.NotifyFlag` | kernel/event.c:47-69 | the walk over the wait queue, in which a release ends the traversal, has the effect TakePattern of one pass without links |
| `Kernel.Kernel.SetFlag` | kernel/event.c:33-76 | the pattern is joined to the flag's, and the first waiter in queue order that this satisfies is released with it; a bad or unused id gives E_ID or E_NOEXS and changes nothing |
| `Kernel.Kernel.ClearFlag` | kernel/event.c:78-95 | the flag keeps exactly the bits it shares with the pattern; a bad or unused id changes nothing |
| `Kernel.Kernel.WaitFlag` | kernel/event.c:97-140 | a satisfied wait delivers the flag's pattern and clears what its mode says; an unsatisfied one returns E_TMOUT when polling and otherwise blocks the caller with its condition and time |
| `Kernel.Kernel.CreateSemaphore` | kernel/event.c:143-161 | the first free semaphore control block takes the initial value and the bound, and its number is returned |
| `Kernel.Kernel.OfferUnits` | kernel/event.c:177-193 | the walk over the wait queue, which ends at the first task waiting for units whether or not it is granted any, has the effect HandOver |
| `Kernel.Kernel.SignalSemaphore` | kernel/event.c:163-203 | the units are added and offered to the waiters; above max_value they are taken back, nothing else changes and E_QOVR is returned |
| `Kernel.Kernel.WaitSemaphore` | kernel/event.c:205-241 | enough units are taken at once; with too few the call returns E_TMOUT when polling and otherwise blocks the caller with its request and time |
| `Kernel.Kernel.PassWaiters` | kernel/systimer.c:13-29 | the pass over the wait queue through next links that are rewritten under way has the effect Expire: it ages the waiters before the first expired one, releases that one with its code, and stops |
| `Kernel.Kernel.RotateReady` | kernel/systimer.c:31-36 | outside the dispatcher, a queue of two or more moves its head, the running task, to its tail, on well-linked lists; this needs curr_task to head its queue or the queue to have fewer than two tasks |
| `Kernel.Kernel.SystimerHandler` | kernel/systimer.c:6-39 | on the heap, a timer interrupt ages or releases waiters, rotates the running task's queue and reschedules, and leaves a valid kernel |
| `Kernel.Kernel.DispatchEntry` | kernel/dispatch.s:6-71 | the dispatcher sets curr_task from scheduled_task, or idles with dispatch_running set when there is none, and clears the pending bit |
| `KernelInvariant.TopReadyIsFirst` | kernel/task_manager.c:83-92 | the scheduled task heads the first non-empty ready queue, and there is none only when all queues are empty |
| `KernelInvariant.RunningTaskHeadsItsQueue` | kernel/task_manager.c:80-96 | while a task runs and no dispatch is due, curr_task is scheduled_task, READY, the head of the queue of its priority, and every queue before that one is empty |
| `KernelInvariant.CallKeepsInv` | kernel/task_manager.c:116-267 | every system call, with every argument a caller may pass, keeps queues, task states and dispatcher consistent |
| `KernelInvariant.TickKeepsInvIffSafe` | kernel/systimer.c:31-36 | a tick keeps the invariant if and only if curr_task heads its ready queue, or that queue is too short to rotate, or nothing runs; in every other case some READY task is left in no ready queue |
| `KernelInvariant.TickIsSafeUnlessDispatchIsDue` | kernel/systimer.c:31-38 | a tick that finds no dispatch pending always meets that condition |
| `KernelInvariant.DispatchKeepsInv` | kernel/dispatch.s:32-69 | a dispatch keeps the invariant, from the pending state and from the idle loop |
| `KernelRuns.InitialStateIsConsistent` | kernel/task_manager.c:22-34 | the boot state, one READY task of priority 1 that runs and no flag or semaphore in use, satisfies the invariant |
| `KernelRuns.Exec` | kernel/task_manager.c:80-96 | every step a state permits, be it a call, a tick or a dispatch, leads from a consistent state to a consistent state |
| `KernelRuns.QueuesPartitionTasks` | kernel/task_manager.c:36-78 | after any interleaving of calls, ticks and dispatches from boot, a task is in ready_queue[p] exactly when it is READY with priority p, in wait_queue exactly when it is in WAIT, and nowhere twice |
| `KernelRuns.BlockingRemovesTheCaller` | kernel/task_manager.c:190-191 | removing the top of the caller's ready queue, in a blocking call or in sk_exit_task, removes exactly the caller and touches no other queue |
| `KernelRuns.TickBeforeDispatchLosesATask` | kernel/systimer.c:31-36 | when two other tasks share the priority of a task that calls sk_delay_task, a tick before the dispatch is one of the unsafe ones |
| `KernelRuns.LosingTickIsReached` | kernel/systimer.c:31-36 | such a state is reached from boot: two more tasks of priority 1 are created and started, the initial task delays, and a tick then leaves a READY task in no ready queue |
| `KernelRuns.CallOnWaitQueue` | kernel/task_manager.c:197-267 | each call releases at most one waiter, of the kind the call serves, or appends its caller at the tail, or leaves the wait queue alone; it never reorders it |
| `KernelRuns.ErrorsChangeNothing` | kernel/event.c:163-203 | a system call that returns an error leaves the whole kernel state as it was |
| `KernelRuns.CreatedTaskHasAQueueIff` | kernel/task_manager.c:121-159 | sk_create_task takes the first unused control block and changes nothing else; the created task's priority is an index into the ready queues exactly when it is not MAX_TASK_PRI |
| `KernelRuns.PriorityWithoutQueueIsAccepted` | kernel/task_manager.c:123-124 | and priority MAX_TASK_PRI is accepted in every state with an unused control block |
| `CallResults.CreateTaskAnswers` | kernel/task_manager.c:116-159 | -11 exactly for attributes with a bit besides 0, 5, 8 and 9; -17 exactly for a priority outside 1 to 16 or bit 5 without a stack size; -34 exactly when no control block is unused; otherwise the number of the first unused one, which becomes dormant with the priority |
| `CallResults.StartTaskAnswers` | kernel/task_manager.c:161-183 | 0 exactly for a dormant task, which is then READY at the tail of the queue of its priority; -18 and -41 exactly for a bad id and for any other state |
| `CallResults.ExitTaskAnswers` | kernel/task_manager.c:185-195 | the caller is dormant and in no queue, and no other task changes |
| `CallResults.DelayTaskAnswers` | kernel/task_manager.c:197-215 | the call blocks exactly for positive delays; a zero delay changes nothing |
| `CallResults.SleepTaskAnswers` | kernel/task_manager.c:217-238 | the call blocks exactly when no wakeup is counted, and otherwise uses up one |
| `CallResults.WakeupTaskAnswers` | kernel/task_manager.c:240-267 | 0 exactly for a task that is READY or waits: one that sleeps leaves the wait queue and is READY at the tail of the queue of its priority, any other is credited with one wakeup; -41 exactly for a dormant or unused block, -18 exactly for a bad id |
| `CallResults.CreateFlagAnswers` | kernel/event.c:7-23 | the number of the first free flag, which has the initial pattern |
| `CallResults.SetFlagAnswers` | kernel/event.c:33-76 | 0 exactly for a flag in use; what the waiters are offered has exactly the bits of the flag and those that are set |
| `CallResults.ClearFlagAnswers` | kernel/event.c:78-95 | 0 exactly for a flag in use, which keeps exactly the bits that the pattern has too |
| `CallResults.WaitFlagAnswers` | kernel/event.c:97-140 | granted at once exactly when every bit waited for, or with TWF_ORW some bit, is in the flag, which then keeps each bit that the mode does not clear; otherwise -50 when polling, and a block when not |
| `CallResults.CreateSemaphoreAnswers` | kernel/event.c:143-161 | the number of the first free semaphore, which has the initial value and the bound |
| `CallResults.SignalSemaphoreAnswers` | kernel/event.c:163-203 | 0 exactly for a semaphore in use that can hold the units, -43 exactly for one that cannot; an accepted signal releases a task exactly when the first that waits for units asks for no more than there now are |
| `CallResults.WaitSemaphoreAnswers` | kernel/event.c:205-241 | granted at once exactly when there are enough units, which it takes; otherwise -50 when polling, and a block when not |
| `DelayBounds.ExpireOnWaitQueue` | kernel/systimer.c:13-29 | one tick ages exactly the finite waiters before the one it releases, leaves 0 in that one for a delay and -50 otherwise, and does not look at those behind it |
| `DelayBounds.StepOnWaiter` | kernel/systimer.c:13-29 | of a task that waits, one step changes the remaining time and place only as follows: a tick ages it by one period or moves it one place up, other steps never age it, and only an expired time or a call that serves it ends its wait |
| `DelayBounds.WaiterProgress` | kernel/systimer.c:13-29 | over every run through which a task waits with a finite time, each tick either aged it by exactly one period or moved it up; the time never wraps |
| `DelayBounds.DelayLatenessIsBounded` | kernel/task_manager.c:197-215 | a delayed task with p waiters ahead of it no longer waits after ceil(d/10) + 1 + p ticks, on every run |
| `DelayBounds.DelayIsNeverEarly` | kernel/task_manager.c:197-215 | what ends the delay is a tick, between the (ceil(d/10)+1)th and the (ceil(d/10)+1+p)th, and the call returns E_OK |
| `DelayBounds.DelayIsKeptIffItFits` | kernel/task_manager.c:207-207 | both bounds hold on every run exactly for delays up to 0xFFFFFFF4; 0xFFFFFFF5 is taken for forever, and longer ones wrap to less than a period |
| `DelayBounds.TicksGoOn` | kernel/systimer.c:6-39 | from every consistent state there is a run with any number of ticks, so the bounds above are not empty |
| `WaitResults.TickEffect` | kernel/systimer.c:13-38 | a tick releases exactly the first waiter with 10 ms or less, to the tail of its ready queue; then the running task joins the tail of its queue and the head leaves, if there are two or more, the released task among them |
| `WaitResults.WaitEndsWithCode` | kernel/systimer.c:20-24 | over every run, a blocked call comes back with -50 if and only if a tick ended its wait and it is no delay, and with 0 if and only if a call ended it or it is a delay |
| `WaitResults.CodeUntilItRuns` | kernel/systimer.c:20-24 | that code stays as it is on every run up to where the task runs again |
| `WaitResults.SemaphoreWaitReturns` | kernel/event.c:163-241 | a blocked sk_wait_semaphore returns 0 if and only if a signal released it and the units it asked for were taken from what the signal left; it returns -50 if and only if a tick ended it, and then no semaphore has changed |
| `WaitResults.TimedWaitIsKept` | kernel/systimer.c:13-29 | a wait with a timeout of n ms is no longer waiting after ceil(n/10) + 1 + p ticks, p the waiters ahead of it, and no tick ends it before the (ceil(n/10)+1)th, on every run |
| `WaitResults.BlockedTime` | kernel/task_manager.c:229-230 | a call that blocks with a timeout of n ms leaves n + 10 in its control block, and the value for ever exactly for the timeouts -1 and -11 |
| `WaitResults.NeverTimesOutIff` | kernel/task_manager.c:229-230 | a blocked sleep or wait is timed out on some run if and only if its timeout is neither -1, for ever, nor -11, which the added period turns into the same |
| `RoundRobin.StepOnPosition` | kernel/systimer.c:32-36 | any step moves a ready task that is not running up by one place when the head of its queue leaves or goes to the tail, and by none otherwise |
| `RoundRobin.PositionCountsDown` | kernel/systimer.c:32-36 | over every run in which it does not run, a task at position p of a ready queue stays in it, and its position is p less the number of head departures; so at most p heads pass it by |
| `RoundRobin.TurnComes` | kernel/dispatch.s:32-55 | when p heads have left and no higher priority is ready, the next dispatch runs the task |
| `RoundRobin.TickMovesTheHead` | kernel/systimer.c:31-38 | a tick over two or more tasks of the running task's priority does move the head |
| `RoundRobin.TurnComesWithinTicks` | kernel/systimer.c:31-38 | over a run in which every tick finds no dispatch due and no higher priority ready, a ready task at position p runs before tick p + 1 |
| `RoundRobin.RoundsGoOn` | kernel/systimer.c:31-38 | for every order of calls, ticks and dispatches that leaves the ready queues up to q alone, k ticks turn queue q by k, and its head runs or is about to |
| `RoundRobin.EveryTaskGetsItsTurn` | kernel/systimer.c:31-38 | while no task of the running task's priority blocks or exits and none of that or a higher priority becomes ready, the task that runs after k ticks is the k-th of the queue, counted round and round |
| `RoundRobin.OneRoundRunsEachTaskOnce` | kernel/systimer.c:31-38 | in n ticks over n such tasks each one runs in exactly one of the periods between the ticks, in the order of the queue, whatever other calls are made in between |
| `RoundRobin.RoundRestoresTheQueue` | kernel/systimer.c:31-38 | n ticks over n such tasks restore the queue and the running task |
| `RoundRobin.CallsDecide` | kernel/systimer.c:13-38 | when no task of these priorities waits with a finite time, the rounds are undisturbed exactly when the calls leave their queues alone; tasks of lower priority may wait with any time |
| `RoundRobin.PeriodsGoOn` | kernel/systimer.c:6-39 | there are such runs with any number of ticks |
| `Semaphores.SignalEffect` | kernel/event.c:163-203 | an accepted signal adds its units and hands the first task waiting for units what it asked for if there is enough; a refused one changes nothing |
| `Semaphores.WaitEffect` | kernel/event.c:205-241 | a wait takes its units at once, or leaves every semaphore as it was |
| `Semaphores.UnitsAreConserved` | kernel/event.c:143-241 | over every run the value is what it was plus the units of the signals that the bound leaves room for, minus the units tasks have taken, at once or by hand-over |
| `Semaphores.ValuesStayWithinBounds` | kernel/event.c:143-203 | 0 <= value <= max_value after every step of every run with sensible initial values and non-negative counts |
| `Semaphores.PositiveValueMeansNoWaiter` | kernel/event.c:163-241 | with one semaphore in use, one unit at a time, a positive value means that no task waits for it, on every run, timeouts included |
| `Semaphores.WaitersKeepTheirOrder` | kernel/task_manager.c:36-78 | two waiters keep their order for as long as both wait, on every run |
| `Semaphores.GrantsFollowBlockingOrder` | kernel/event.c:177-193 | no signal takes a task while one that blocked before it still waits for units |
| `Semaphores.AtMostOneHolder` | kernel/event.c:143-241 | for a semaphore with max_value 1 that only its holders signal, its value and the number of its holders add up to 1 on every run: the unit is free or held by one task, and never lost |
| `WordBits.BitsOf` | kernel/event.c:27-64 | and, or and and-not of two words, bit by bit, a bit being the lowest after so many shifts |
| `EventFlags.CheckFlagIsMeets` | kernel/event.c:25-31 | the test says yes exactly when every bit of the wait pattern is in the pattern, or with bit 0 of the mode exactly when some bit is |
| `EventFlags.ConsumedIsStays` | kernel/event.c:111-116 | a bit of the pattern stays exactly when the mode has neither bit 4, nor bit 5 with that bit waited for |
| `EventFlags.FirstSatisfiedWaiterIsReleased` | kernel/event.c:47-69 | a waiter is released exactly when the new pattern has every bit it waits for, or with TWF_ORW some of them, and that is so for no earlier waiter; it gets the pattern and the tail of its ready queue, and the flag keeps each bit that the mode does not clear |
| `EventFlags.UnsatisfiedWaitersStay` | kernel/event.c:44-47 | with no satisfied waiter, setting only stores the pattern |
| `EventFlags.AnswersAgreeIff` | kernel/event.c:25-31 | on patterns, for every mode: wait-then-set and set-then-wait agree if and only if the wait would have blocked, or the set brings no bit that the wait does not leave in the flag |
| `EventFlags.WaitThenSetInKernel` | kernel/event.c:33-140 | in the kernel, waiting (with the dispatch that follows a block) and then setting gives the answer of the pattern-level order wait, set |
| `EventFlags.SetThenWaitInKernel` | kernel/event.c:33-140 | and setting and then waiting gives the answer of the order set, wait |
| `EventFlags.OrderOfWaitAndSetMatters` | kernel/event.c:33-140 | with no other flag waiter, the delivered pattern and the final flag are the same in both orders exactly under that condition, for all patterns and all combinations of TWF_ORW, TWF_BITCLR and TWF_CLR |
| `EventFlags.OrdersDifferAfterBoot` | kernel/event.c:33-140 | the orders do differ for a flag created with pattern 1, a wait for that bit, and a set of pattern 2 |
| `Wakeups.WakeupsAreConserved` | kernel/task_manager.c:217-267 | over every run the wakeups a task is given while it is READY or waits are its sleeps ended by one plus the change of its wakeup_count |
| `Wakeups.SleepersHaveNoCredit` | kernel/task_manager.c:217-267 | on every run a task that waits in TWFCT_SLP has wakeup_count 0, and no count is negative |
| `Wakeups.CompletedIsCovered` | kernel/task_manager.c:217-267 | a sleep is over, other than by a timeout, only against a wakeup given now or counted before |
| `FatVolume.Driver.Init` | kernel/fat.c:23-45 | the static variables are the layout of the boot sector |
| `FatVolume.TypeIsStandardIff` | kernel/fat.c:35-42 | the type agrees with the standard's section FAT Type Determination exactly when the cluster count is neither 4085 nor 65525 |
| `FatVolume.TypeOfOverfullVolume` | kernel/fat.c:33-42 | for every boot sector whose regions need more sectors than there are, the cluster count wraps, and the type is FAT12 with one sector to a cluster and FAT32 with more |
| `FatVolume.RegionsAreContiguous` | kernel/fat.c:27-36 | behind reservedSectorCount sectors come tableCount * tableSize16 of tables, the root region with all rootEntryCount entries of 32 bytes and less than a sector more, and the clusters, which fill the data region up to less than one more |
| `FatVolume.SmallestVolume` | kernel/fat.c:23-45 | valid volumes with a data cluster exist, so what is stated of them is not empty |
| `FatVolume.ClusterIsInVolume` | kernel/fat.c:415-422 | no 32-bit wrap-around happens in a cluster's address, and its bytes lie wholly in the data region and in the volume |
| `FatVolume.ClustersAreDisjoint` | kernel/fat.c:415-422 | the byte ranges of distinct clusters do not meet |
| `FatTable.EntryIsStandard` | kernel/fat.c:367-379 | the decoded entry is the little-endian word at offset c + c/2, shifted or masked by parity, as in the standard's section FAT Type Determination |
| `FatTable.EntryOnDisk` | kernel/fat.c:367-379 | the same on the volume, whose table begins behind the reserved sectors |
| `FatTable.EntryUnpacks` | kernel/fat.c:367-379 | decoding inverts packing: entry i of any packed sequence of 12-bit values is value i |
| `FatTable.EntryIsInTable` | kernel/fat.c:367-379 | on a valid volume the entry of every data cluster lies in the table |
| `FatChains.ChainIsUnique` | kernel/fat.c:284-299 | there is at most one chain from a cluster |
| `FatChains.ChainIsDistinct` | kernel/fat.c:284-299 | a chain visits no cluster twice |
| `FatChains.EndsIffAcyclic` | kernel/fat.c:284-299 | the walk from a cluster ends exactly when it never leaves the data clusters and never repeats one |
| `FatChains.WalkCoversChainIff` | kernel/fat.c:284-284 | the walk covers the beginning of a standard chain up to its first cluster of 0xF00 or more, hence the whole chain exactly when there is none |
| `FatDirectory.LiveEntries` | kernel/fat.c:263-271 | the longest prefix of a table's entries that begin with neither 0x00 nor 0xE5 |
| `FatDirectory.IterateTable` | kernel/fat.c:263-271 | the callback is applied to exactly the live entries of one table, in order |
| `FatDirectory.IterateDir` | kernel/fat.c:256-300 | the walk terminates on every directory whose chain ends, and applies the callback to exactly the concatenation, over the chain, of each cluster's live entries, in order |
| `FatDirectory.DirectoryIsCutShort` | kernel/fat.c:284-284 | on a valid volume of 4000 clusters, the walk visits none of the entries of a directory at cluster 0xF00 |
| `FatDirectory.SearchFindsLastMatch` | kernel/fat.c:431-446 | folding the lookup callback over entries yields the last one with the same eleven bytes, and leaves the buffer alone when there is none |
| `FatFormat.BootSectorComesBack` | include/fat.h:34-54 | the parameters read from a boot sector that was written field by field in the standard's order are those written, whatever the rest |
| `FatFormat.EntryComesBack` | include/fat.h:57-70 | so are those of a directory entry anywhere on a volume |
| `FatFormat.DirectoryComesBack` | kernel/fat.c:263-271 | a table written from live entries, full or followed by an unused or deleted one, is walked as exactly these entries |
| `FatFormat.RootIsBehindTables` | kernel/fat.c:27-36 | the root directory read is the stretch of the volume behind (bytes 14-15 + byte 16 * bytes 22-23) sectors |
| `FatFormat.ClusterIsBehindRoot` | kernel/fat.c:415-422 | cluster c read is the stretch that begins c - 2 clusters, of byte 13 sectors each, behind the root directory |
| `FatNames.SetEntryName` | kernel/fat.c:323-352 | the eleven bytes become the encoding: the base padded, the extension over it from byte 8, all in upper case |
| `FatNames.GetEntryName` | kernel/fat.c:302-321 | the buffer gets base, dot and extension of a file, or the base of a directory or label, and a zero; too short a buffer is refused and left alone |
| `FatNames.TextFitsIff` | kernel/fat.c:303-306 | a buffer of the accepted length holds every text and its zero exactly from 13 bytes on, so the check for 12 is one short |
| `FatNames.SetUndoesGetIff` | kernel/fat.c:302-352 | setting the name that was read from a file entry restores its eleven bytes if and only if they are canonical |
| `FatNames.EncodedBytes` | kernel/fat.c:323-352 | byte by byte for base and extension: the extension from byte 8 on, over a longer base, spaces elsewhere; a letter 0x61 to 0x7A is stored as itself less 0x20, every other byte as itself, so none in that range is stored |
| `FatNames.TextAfterSet` | kernel/fat.c:302-352 | byte by byte: reading the name just set gives the base, and for a file a dot and the extension with spaces up to three, each letter 0x61 to 0x7A as itself less 0x20 |
| `FatNames.EncodingsAgreeIff` | kernel/fat.c:323-352 | two names encode to the same eleven bytes exactly when bases and extensions agree up to letter case and trailing spaces |
| `FatPaths.GetClusterForEntry` | kernel/fat.c:448-462 | one lookup returns the cluster of the last visited entry with the name and fills the buffer with it, or returns 0 |
| `FatPaths.LookupIsLastMatch` | kernel/fat.c:448-462 | a lookup leads to the last visited entry with the name, and to cluster 0 without one or for a name that begins with 0x00 or 0x20 |
| `FatPaths.TokensAreComponents` | application/shell.c:92-103 | no component of a path is empty or contains a slash |
| `FatPaths.SlashIsSkipped` | application/shell.c:92-103 | a slash before a path changes nothing |
| `FatPaths.StretchIsComponent` | application/shell.c:92-103 | a stretch without slashes before a slash or the end is one component, and the rest gives the others |
| `FatPaths.SplitUndoesJoinIff` | application/shell.c:92-103 | splitting a path that was joined from components gives these back if and only if none is empty or has a slash |
| `FatPaths.NextToken` | application/shell.c:96-103 | the tokens handed out are the path's longest stretches without a slash, one after another |
| `FatPaths.ClusterForPath` | application/shell.c:89-106 | the cluster and the entry left behind are the left fold of single lookups over the path's components |
| `FatPaths.ResolvesInParts` | application/shell.c:99-104 | a path can be resolved exactly when its front can and its rest can from wherever the front led, and then that is what it resolves to |
| `FatPaths.MissingComponentLeadsToRoot` | application/shell.c:99-104 | when a directory lacks a component, the rest of the path is resolved from cluster 0, the root |
| `FatPaths.LookupFindsChild` | kernel/fat.c:448-462 | in a directory of a well-formed tree one lookup finds the child with the name and its size, or returns 0; labels and empty files may be there too |
| `FatPaths.PathLeadsToItsNode` | application/shell.c:89-106 | a path that names a node of a well-formed tree resolves to that node's cluster, with that node's size in the entry |
| `FatPaths.ZeroMeansMissingOrEmpty` | application/shell.c:89-106 | a path into a directory of the tree resolves to 0 exactly when the directory lacks the last component or that node has cluster 0 |
| `FatPaths.LabelledTreeIsOnDisk` | kernel/fat.c:448-462 | a root with a volume label and an empty file is such a tree |
| `FatFiles.CatFile` | application/shell.c:71-87 | the chunks copied are exactly the first file_size bytes, one from each of ceil(size/1024) clusters and from no other |
| `FatFiles.FileIsBeginningOfChain` | application/shell.c:74-82 | on a volume with 1024-byte clusters, what the first n clusters of a chain of the standard give is the first n * 1024 bytes of its data, clusters of 0xF00 and more included |
| `FatFiles.FileIsCopied` | application/shell.c:71-87 | for a chain of the standard with enough clusters, what is copied is the first size bytes of its data, and no end-of-chain mark is read as a cluster |
| `FatFiles.PrintedWholeIff` | application/shell.c:77-85 | as the chunks are printed as strings, the whole file is put out exactly when it contains no zero byte |
| `FrameBuffer.PixelsFitIff` | include/ssd1306.h:89-89 | a caller's buffer holds the bytes of all pixels behind the control byte exactly when it has width * ceil(height/8) + 1 bytes; the size given in the header never suffices |
| `FrameBuffer.RowsRunDown` | device/ssd1306.c:119-125 | row k of a page is bit k of its byte, counted from the lowest |
| `FrameBuffer.PagesFollow` | device/ssd1306.c:119-125 | the bytes of a page follow each other from left to right, those of the next eight rows behind them |
| `FrameBuffer.SquareIsRectangle` | device/ssd1306.c:150-155 | where nothing wraps, the pixels of a square are those of the rectangle |
| `FrameBuffer.Display.IndexIsInBuffer` | device/ssd1306.c:116-124 | no pixel on the screen has its byte outside the buffer, for heights that are multiples of 8 |
| `FrameBuffer.Display.IndexIsInjective` | device/ssd1306.c:123-124 | two pixels share a byte only when they share column and page |
| `FrameBuffer.Display.DrawPixel` | device/ssd1306.c:119-125 | exactly the given pixel is lit in addition, and none when it is off the screen |
| `FrameBuffer.Display.ClearPixel` | device/ssd1306.c:112-117 | exactly the given pixel is put out, and none when it is off the screen |
| `FrameBuffer.Display.DrawSquare` | device/ssd1306.c:150-155 | exactly the pixels of the square that are on the screen are lit in addition, for 32-bit coordinates |
| `Drawing.DrawChar` | device/ssd1306.c:165-187 | exactly the pixels on the screen that a scaled set bit of the glyph covers are lit in addition, and none for a character the font lacks |
| `Drawing.CharIsScaledGlyph` | device/ssd1306.c:171-183 | where nothing wraps, a pixel is covered exactly when the glyph has the bit whose column and row are the pixel's distances divided by the scale |
| `Drawing.ColumnIsInFont` | device/ssd1306.c:170-175 | every byte read for a glyph lies in the font |
| `Drawing.GlyphsTile` | device/ssd1306.c:170-175 | the glyphs tile the font: the first column of the first character is at byte 5, a column has ceil(height/8) bytes, and each character begins where the one before ends |
| `Drawing.GlyphsAreApart` | device/ssd1306.c:170-175 | so the bytes of different characters do not overlap |
| `Drawing.RowsOfColumn` | device/ssd1306.c:175-179 | a byte of a column is the sum of the powers of two of its eight rows, the uppermost the lowest |
| `Drawing.StrideIsWholeWords` | device/ssd1306.c:254-256 | the row stride is 4 * ceil(width / 32) |
| `Drawing.RowIsInData` | device/ssd1306.c:258-267 | every byte read for a pixel of a complete image lies in the file |
| `Drawing.ShowImage` | device/ssd1306.c:223-269 | a bottom-up monochrome bitmap lights in addition exactly the on-screen pixels whose palette index is the black one; other files draw nothing |
| `Drawing.LitIsBlackIff` | device/ssd1306.c:242-266 | the lit pixels of an image are exactly its black ones if and only if not both palette entries are black or no pixel uses the second |
| `Drawing.ImageIsShifted` | device/ssd1306.c:262-268 | where nothing wraps, the screen pixel shows the image pixel at its distance from the offset |
| `Drawing.ScreenShowsBlackIff` | device/ssd1306.c:223-269 | the same on the screen: where nothing wraps, what the image lights is exactly its black pixels at their distance from the offset, under just that condition |
| `Drawing.BlackPixelIsNotLit` | device/ssd1306.c:242-252 | a complete bitmap of one pixel with two black entries whose pixel is black and is not lit |
| `BitmapFormat.PictureComesBack` | device/ssd1306.c:207-268 | for every picture written as a bitmap file, field by field, rows from below, padded to whole words, the leftmost pixel in the highest bit: width, height, the black colours and every pixel are read back, and the file is complete exactly when a colour is black |
| `BitmapFormat.PictureIsShown` | device/ssd1306.c:223-269 | so where nothing wraps, showing the file lights exactly the picture's pixels of the first black colour, each at its distance from the offset |
| `I2c.Controller.Trans` | device/i2c_rp2040.c:107-184 | for all n and m: the commands written are those of the transfer up to the last read made; that many bytes are stored in rbuf in order and no other byte changes; E_PAR for an empty transfer, E_IO when a read is aborted; the loop ends by n + m |
| `I2c.FlagsOfCommands` | device/i2c_rp2040.c:133-162 | the first n commands carry the data, the next m are reads, STOP is on the last command only, and RESTART on the last write only, when m > 0 |
| `I2c.CommandsAreOneMessage` | device/i2c_rp2040.c:131-180 | a bus that obeys the commands sees exactly one message: the n bytes and m reads asked for, ended by STOP |
| `I2c.PrefixIsUnderWay` | device/i2c_rp2040.c:164-170 | after fewer commands, as when a read is aborted, no message is complete and the one under way has what was written and asked for so far |
| `I2c.CommandsDetermineTransfer` | device/i2c_rp2040.c:131-180 | no two transfers emit the same commands |
| `I2c.FirstAbort` | device/i2c_rp2040.c:164-170 | the first aborted read, or m when there is none |
| `I2c.Controller.SetComStart` | device/i2c_rp2040.c:186-193 | the control block holds the transfer's parameters, and no register is touched |

## Left out

- Register contents, stacks, stack addresses and sizes, exception entry and return, and the task's code: the dispatcher is the change of `curr_task`, `scheduled_task`, `dispatch_running` and the pending bit.
- A dispatch that is pended once more while the dispatcher idles is not a step of its own: the way out of the idle loop is `DispatchStep` in a state that idles.
- `global_counter` and `global_seconds` (kernel/systimer.c:8-11): nothing that is modelled reads them.
- The pointer `wait_err` (and `p_flag_pattern`) is the value it points to, kept with the task; `sk_signal_semaphore` redirects `wait_err` to its own `err` when it releases a task (kernel/event.c:185), which no later step of the model reads.
- A waiter does not record its flag or semaphore, so the lemmas about the waiters of one object assume that all waiters of its kind use it, as each says.
- Kernel.Kernel.RotateReady: requires `curr_task` at the head of its queue or fewer than two tasks in it; otherwise the source links a control block that is in the wait queue into a ready queue as well, and lists no longer describe the links. What that loses is stated on values by `TickKeepsInvIffSafe`.
- Kernel.Kernel.SystimerHandler: requires `TickSafe` for the same reason.
- Kernel.Kernel.CreateFlag: requires a free control block, since the search has no end test (kernel/event.c:11); so does `CreateSemaphore` (kernel/event.c:148).
- Kernel.Kernel.SleepTask: timeouts are signed 32-bit values whose sum with the timer period does not overflow, as for the other waits; `wakeup_count` is unbounded.
- Kernel.Kernel.WaitSemaphore: counts and values are unbounded integers, but a signal must not overflow a 32-bit value; negative counts are modelled as they are.
- Semaphores.PositiveValueMeansNoWaiter: one semaphore in use and one unit at a time, since with larger requests a positive value below the first request is possible.
- RoundRobin.OneRoundRunsEachTaskOnce: no task of the running task's or a higher priority blocks, exits or becomes ready meanwhile, which is what tasks that do not block means here; `PositionCountsDown`, `TurnComes` and `TurnComesWithinTicks` hold without that.
- FatNames.SetEntryName: a base of more than eleven or an extension of more than three characters writes past the eleven bytes; the contract requires that the name fits.
- FatPaths.ClusterForPath: `strtok` keeps its position in a static variable, here it is a parameter; the path fits the 64-byte copy, and each directory on the way has a chain that ends.
- FatPaths.PathLeadsToItsNode: paths with "." and "..", which the encoding does not give their directory names, name no node of the tree; labels and parts of long names are no nodes either, and must not carry the name of a child, since the lookup does not look at attributes.
- FatFiles.FileIsCopied: the code copies 1024 bytes from each cluster whatever the cluster size, so the chain's data is meant only on volumes with 1024-byte clusters; `CatFile` holds for every cluster size.
- The masks and shifts of the table decoder, of BMP fields and of I2C command words are quotients and remainders by powers of two.
- FAT16 and FAT32 (the decoder is for FAT12 only), `fat_is_broken` and `fat_is_end_of_cluster` (no walk calls them), the printing functions of kernel/fat.c and the command loop of application/shell.c (input and output only).
- Two fields of a directory entry that no code reads.
- `ssd1306_draw_line`, `ssd1306_draw_empty_square` and `swap` (floating point, and a swap that does not exchange), `ssd1306_draw_string_with_font` (one character after another), `ssd1306_clear`, and the commands sent to the display.
- Displays wider or higher than 255, which `ssd1306_init` truncates, and heights that are not a multiple of 8, for which `PixelsFitIff` says what buffer they need.
- Drawing.ShowImage: requires a positive height, a black palette entry and a file that has all its rows; without a black entry the source reads an uninitialised variable.
- The hardware of an I2C transfer: what it answers to read k is element k of a parameter; the status polls and the abort that is only seen by a read are part of that answer.
- `dev_i2c_read`, `dev_i2c_write`, the device table, clocks, GPIO, UART, boot code and libc stubs.
