# Verification of six concurrency and memory components

Dafny models of six components of the repository, and proofs of what they promise.  Concurrent code is a transition
system: shared state, one program counter per thread, one step per atomic operation, critical section or notification.
A run is any list of actions, so it is any interleaving of any number of threads.  Next to it, each component is
written in the program's own form, as a class that updates its arrays, maps, lists and counters in place; every method
is proved to take exactly the steps, or to compute exactly the functions, that the theorems are about.

| files | component |
|---|---|
| `QueueModel`, `QueueInvariant`, `QueueTheorems`, `QueueSteps`, `QueueOrder`, `QueueStats`, `LockFreeQueue` | bounded multi-producer multi-consumer lock-free queue |
| `PoolModel`, `PoolInvariant`, `PoolOwnership`, `PoolSteps`, `PoolOpen`, `ConnectionPool` | database connection pool |
| `TimerHeap`, `TimerModel`, `TimerScheduler`, `TimerRuns`, `TimerTheorems`, `TimerFirings`, `TimerOrders` | timer scheduler: heap with lazy cancellation, callback queue, shutdown |
| `RingModel`, `RingBuffer`, `RingWaits`, `RingTheorems`, `RingSteps` | ring buffer: circular array, blocking waits |
| `LruModel`, `LruCache` | LRU cache with pinned handles |
| `LeakModel`, `LeakTheorems`, `LeakEvents`, `LeakDetector` | leak detector bookkeeping and snapshot queries |
| `Common` | options, results, counting |

How the parts fit:

- Queue: `Step` performs one atomic operation of one thread, with weak compare-exchange failures as a choice.  The
  class methods run one thread while all others are stalled at arbitrary points, and return the run they performed.
- Pool and ring waits: condition variables are wait sets; a notify_one wakes a chosen sleeper, waits also end
  spuriously or by time-out.  Counting arguments go through a tally of the program counters.
- Timer: the class keeps the heap in agreement with the map of live timers and is proved to decide and drain like a
  plain scan; the interleavings of clients, scheduler and workers are over the plain map.
- LRU: the ghost field `model` is the cache as a value.  Its order of release is an invariant of every list of
  operations (`LruModel.RunInv`), and each class method changes `model` as the operation of the same name.
- Leak detector: the ghost field `log` is the history since the last reset; the totals and the map are proved equal to
  what that history alone says, and `LeakEvents` says the same of the calls alone.
- The `Steps` modules, `TimerOrders` and `LeakEvents` describe what each step may lead to in terms of the values
  involved, without the functions the steps are defined by.

Where the code and its documentation disagree, the model follows the code:

- The queue's README says that `tryPop` fails when the ring is currently empty and `tryPush` when it is full.  Behind
  a stalled thread they fail earlier: `EmptyAnswerWithAnItemStored` and `FullAnswerWithRoomLeft`, and
  `PopFailureExplained` and `PushFailureExplained` for the exact condition.
- The queue's constructor accepts capacity 1, for which the ring is not safe: `CapacityOneOverwrites`, and
  `StorageSafeIffCapacityAtLeastTwo` for the exact condition.
- The leak detector's README says that `reportSince` lists what was allocated after the baseline and is not freed.
  After a reset it does not: `ResetHidesLeaks`, and `AnsweredIff` and `SnapshotOutlivesResetsIff` for the exact
  condition, of one run and of all runs.
- The pool's README says that `max_size` caps the concurrent connections.  It caps the counted ones, and a connection
  is uncounted before it is closed: `LifetimeOpensTooMany` and `IdlingOpensTooMany`, and `OpenStaysWithinMaxSizeIff`
  for the configurations under which it does cap the open ones.

## Model

| member | source | states |
|---|---|---|
| `QueueInvariant.InitInv` | lock_free_queue/include/lock_free_queue.hpp:29-39 | The constructor's stamps establish the cell-sequence invariant for every capacity of at least 2 and any number of threads. |
| `QueueInvariant.StepInv` | lock_free_queue/include/lock_free_queue.hpp:56-163 | Every atomic operation of every thread keeps the invariant: the cell of ticket t is stamped t (free or being filled) or t+1 (published or being drained), deq <= enq <= deq + capacity, no ticket is held twice. |
| `QueueInvariant.ExecInv` | lock_free_queue/include/lock_free_queue.hpp:56-163 | The invariant holds after any interleaving. |
| `QueueTheorems.EveryDeliveryIsTheAcceptedValue` | lock_free_queue/include/lock_free_queue.hpp:63-131 | Capacity >= 2, any threads, any interleaving: a pop that won ticket p returned the value the push that won p moved in, no ticket is returned twice, each thread receives in ticket order. |
| `QueueTheorems.EveryAcceptedValueIsInOnePlace` | lock_free_queue/include/lock_free_queue.hpp:63-131 | Conservation: each accepted value is in exactly one of four places: being stored, stored, being taken, handed over. |
| `QueueTheorems.RunGrows` | lock_free_queue/include/lock_free_queue.hpp:66-128 | Cursors, cell sequences and the closed flag only grow over a run; the lists of accepted and delivered values are only appended to. |
| `QueueTheorems.FreeStamp` | lock_free_queue/include/lock_free_queue.hpp:67-79 | The stamp of the next cell to fill equals the cursor iff the ring is not full and the consumer of the same cell's last round has finished. |
| `QueueTheorems.ReadyStamp` | lock_free_queue/include/lock_free_queue.hpp:104-116 | The stamp of the next cell to drain says "published" iff something is enqueued and its producer has finished. |
| `QueueTheorems.PushFailureExplained` | lock_free_queue/include/lock_free_queue.hpp:67-82 | A push gives up as full iff, at its sequence load, it holds the current cursor and the ring is full or the consumer of ticket pos - capacity is in flight. |
| `QueueTheorems.PopFailureExplained` | lock_free_queue/include/lock_free_queue.hpp:104-118 | A pop gives up as empty iff, at its sequence load, it holds the current cursor and nothing is enqueued or the producer of that very ticket is in flight. |
| `QueueSteps.PushGivesUpOnlyWhenFullOrClosed` | lock_free_queue/include/lock_free_queue.hpp:57-82 | In every reachable state and for every next step, a push starts to give up only because it found the queue closed, or at a sequence load with the current cursor in hand and no slot free. |
| `QueueSteps.PopGivesUpOnlyWhenNothingIsReady` | lock_free_queue/include/lock_free_queue.hpp:104-118 | A pop starts to give up only at a sequence load with the current cursor in hand and no item ready. |
| `QueueSteps.PushRace` | lock_free_queue/include/lock_free_queue.hpp:71-79 | A push's compare-exchange: the winner holds the ticket at the cursor; a loser goes round the loop with the current cursor; a spurious failure with the same one; nothing else changes. |
| `QueueSteps.PopRace` | lock_free_queue/include/lock_free_queue.hpp:108-116 | The same for a pop. |
| `QueueSteps.PushLooks` | lock_free_queue/include/lock_free_queue.hpp:66-85 | At every reachable sequence load: with the current cursor, on to the compare-exchange iff a slot is free; with an old one, on or back for the current one, never out. |
| `QueueSteps.PopLooks` | lock_free_queue/include/lock_free_queue.hpp:103-122 | The same for a pop and a ready item. |
| `QueueSteps.Reloads` | lock_free_queue/include/lock_free_queue.hpp:83-121 | A reload comes back with the current cursor. |
| `QueueTheorems.EmptyAnswerWithAnItemStored` | lock_free_queue/include/lock_free_queue.hpp:116-118 | A concrete run in which a pop answers "empty" while a published item is stored behind a stalled producer. |
| `QueueTheorems.FullAnswerWithRoomLeft` | lock_free_queue/include/lock_free_queue.hpp:79-82 | A concrete run in which a push answers "full" while only one of two accepted values is left, behind a stalled consumer. |
| `QueueOrder.LaterPopsTakeLaterTickets` | lock_free_queue/include/lock_free_queue.hpp:99-131 | Real-time order: whatever a thread that is idle now is handed from now on was accepted after everything delivered so far. |
| `QueueOrder.LaterPushesWinLaterTickets` | lock_free_queue/include/lock_free_queue.hpp:63-90 | Real-time order: a push that begins now wins a ticket past everything accepted so far. |
| `QueueTheorems.RetryAdvances` | lock_free_queue/include/lock_free_queue.hpp:66-85 | Every retry that is not a spurious compare-exchange failure has a strictly larger position. |
| `QueueTheorems.RetriesArePaidByOthers` | lock_free_queue/include/lock_free_queue.hpp:66-122 | In every reachable state the retries of a call are at most the tickets won since its first load. |
| `QueueTheorems.ApproximateSizeIsBounded` | lock_free_queue/include/lock_free_queue.hpp:155-163 | The answer is at most the true gap at each of its two loads, and the clamp to the capacity never changes it. |
| `QueueSteps.ApproximateSizeIsExactAlone` | lock_free_queue/include/lock_free_queue.hpp:155-163 | Three steps of one thread with nobody in between answer exactly enqueued minus dequeued. |
| `QueueSteps.ApproximateSizeLoads` | lock_free_queue/include/lock_free_queue.hpp:155-163 | The first load is of the enqueue cursor; the answer is that one less the dequeue cursor at the second load, never below zero. |
| `QueueTheorems.CapacityOneOverwrites` | lock_free_queue/include/lock_free_queue.hpp:29-39 | Capacity 1 is accepted by the constructor, and then a second push constructs over the first, unread value. |
| `QueueTheorems.StorageSafeIffCapacityAtLeastTwo` | lock_free_queue/include/lock_free_queue.hpp:87-128 | Over all runs, storage is constructed only when dead and taken only when live, iff the capacity is at least 2. |
| `QueueStats.CountersAddUp` | lock_free_queue/include/lock_free_queue.hpp:57-130 | Over every run: enqueue cursor = pushes counted + pushes under way, dequeue cursor = pops counted + pops under way, and the counted pops are exactly those that returned a value. |
| `QueueStats.CountersSaySize` | lock_free_queue/include/lock_free_queue.hpp:179-187 | With no operation under way, pushes - pops is the number of stored items. |
| `LockFreeQueue.LockFreeQueue.constructor` | lock_free_queue/include/lock_free_queue.hpp:29-39 | A fresh array of cells stamped with their indices: the initial state of the transition system. |
| `LockFreeQueue.LockFreeQueue.Create` | lock_free_queue/include/lock_free_queue.hpp:29-34 | Capacity 0, and only it, is refused. |
| `LockFreeQueue.LockFreeQueue.TryPush` | lock_free_queue/include/lock_free_queue.hpp:56-91 | Against any state of the other threads: succeeds iff the queue is open and a slot is free; the value is accepted under the next ticket and published; counters; the whole call is a path of the transition system. |
| `LockFreeQueue.LockFreeQueue.RefuseClosed` | lock_free_queue/include/lock_free_queue.hpp:57-61 | A closed queue counts the push as closed and as failed, and changes nothing else. |
| `LockFreeQueue.LockFreeQueue.ReserveEnqueue` | lock_free_queue/include/lock_free_queue.hpp:63-85 | The retry loop wins exactly the ticket at the cursor iff a slot is free; otherwise one failed push is counted. |
| `LockFreeQueue.LockFreeQueue.RejectPush` | lock_free_queue/include/lock_free_queue.hpp:80-81 | A refused push counts one failure. |
| `LockFreeQueue.LockFreeQueue.FillAndPublish` | lock_free_queue/include/lock_free_queue.hpp:87-90 | The winner's cell ends up stamped pos + 1 and holding the value; no other cell changes. |
| `LockFreeQueue.LockFreeQueue.TryPop` | lock_free_queue/include/lock_free_queue.hpp:99-131 | Succeeds iff the next item is ready; returns the value accepted under the dequeue ticket and frees that cell for the next round; counters. |
| `LockFreeQueue.LockFreeQueue.ReserveDequeue` | lock_free_queue/include/lock_free_queue.hpp:100-122 | The retry loop wins exactly the ticket at the cursor iff an item is ready; otherwise one failed pop is counted. |
| `LockFreeQueue.LockFreeQueue.TakeAndRelease` | lock_free_queue/include/lock_free_queue.hpp:124-130 | The winner returns the accepted value; its cell is dead and stamped pos + capacity. |
| `LockFreeQueue.LockFreeQueue.Take` | lock_free_queue/include/lock_free_queue.hpp:124-127 | The value is moved out of live storage, which is then dead. |
| `LockFreeQueue.LockFreeQueue.ReleaseCell` | lock_free_queue/include/lock_free_queue.hpp:128-130 | The cell is stamped for the next round, the pop counted, and the delivery recorded. |
| `LockFreeQueue.LockFreeQueue.RejectPop` | lock_free_queue/include/lock_free_queue.hpp:117-118 | A refused pop counts one failure. |
| `LockFreeQueue.LockFreeQueue.Close` | lock_free_queue/include/lock_free_queue.hpp:143-145 | The flag is set; nothing else changes. |
| `LockFreeQueue.LockFreeQueue.ApproximateSize` | lock_free_queue/include/lock_free_queue.hpp:155-163 | With no operation in between, exact. |
| `LockFreeQueue.LockFreeQueue.PopQuietly` | lock_free_queue/include/lock_free_queue.hpp:99-131 | With no other operation under way, a pop fails iff the queue is empty and otherwise takes the oldest item. |
| `LockFreeQueue.LockFreeQueue.Drain` | lock_free_queue/include/lock_free_queue.hpp:41-44 | The destructor's loop terminates, takes every stored value in ticket order and leaves no live storage. |
| `LockFreeQueue.PushAlone` | lock_free_queue/include/lock_free_queue.hpp:56-91 | With no other operation under way, tryPush is the push of an exact bounded FIFO. |
| `LockFreeQueue.PopAlone` | lock_free_queue/include/lock_free_queue.hpp:99-131 | With no other operation under way, tryPop is the pop of an exact bounded FIFO. |
| `PoolInvariant.StepInv` | connection_pool/src/connection_pool.cpp:64-381 | Every critical section, notification and slow step of every actor keeps the accounting, the wake-up bound and the finality of shutdown. |
| `PoolInvariant.ExecInv` | connection_pool/src/connection_pool.cpp:64-381 | So does every interleaving. |
| `PoolInvariant.CountersAddUp` | connection_pool/src/connection_pool.cpp:110-381 | In every interleaving: total = idle + active + warm-up reservations <= max_size; created - destroyed = idle + active - borrowers still creating; no counter goes below zero. |
| `PoolInvariant.NobodySleepsThroughAnOpportunity` | connection_pool/src/connection_pool.cpp:110-351 | No lost wake-up: if a borrower sleeps on `available`, the pool is open and idle + max_size - total is at most the number of woken borrowers that have not re-checked; a sleeping shutdown still waits for somebody. |
| `PoolInvariant.ShutdownIsFinal` | connection_pool/src/connection_pool.cpp:78-87 | Once a shutdown has passed its wait and emptied the pool, in every continuation nothing is active or idle, created = destroyed, and total is the unfinished warm-up reservations. |
| `PoolInvariant.NothingAcquiredAfterShutdown` | connection_pool/src/connection_pool.cpp:363-371 | From the moment the flag is set, in any continuation, no actor comes to hold a connection as a borrower and no acquire is counted. |
| `PoolSteps.BorrowedConnectionsWereVetted` | connection_pool/src/connection_pool.cpp:310-371 | In every reachable state a borrowed connection was, at some step of the run, made by its borrower, or found by its borrower within its life time and idle time and answering the ping; and that borrower has had it ever since. |
| `PoolSteps.LentOnlyIfSound` | connection_pool/src/connection_pool.cpp:342-371 | Every step: a connection is about to be lent only if just made, or checked with neither time run out and a good ping; it is lent only while the pool is open, and counted. |
| `PoolSteps.GivenUpOnlyForCause` | connection_pool/src/connection_pool.cpp:353-367 | A connection is given up only if a time has run out, the ping failed, or the pool shut down; only in the first two cases does the borrower go on looking. |
| `PoolSteps.LookedAtIsLentOrGivenUp` | connection_pool/src/connection_pool.cpp:342-371 | A connection that was made or looked at is lent or given up, never forgotten. |
| `PoolSteps.LookTakesTheFront` | connection_pool/src/connection_pool.cpp:310-336 | A look takes the front of the idle queue, else reserves a slot below max_size, else waits, each iff. |
| `PoolSteps.AcquireGivesUpOnlyWhen` | connection_pool/src/connection_pool.cpp:326-350 | A wait ends empty-handed iff it timed out with the pool open and nothing to take; only then is a time-out counted. |
| `PoolSteps.GivenBack` | connection_pool/src/connection_pool.cpp:150-179 | A returned connection carries the time of its return and goes to the end of the queue, unless the pool is shutting down or now - created_at has reached a limited life time; then it is uncounted and closed. |
| `PoolSteps.CleanerTidies` | connection_pool/src/connection_pool.cpp:226-250 | Each pass of the cleaner takes only what has run out of a time, keeps nothing of the kind unless total is down to min_idle, and counts what it takes. |
| `PoolSteps.WarmsOnlyIfNeeded` | connection_pool/src/connection_pool.cpp:110-146 | A warm-up starts a connection iff the pool is open, idle < min_idle and total < max_size; a shutdown in between undoes it. |
| `PoolSteps.ShutdownWaitsForBorrowers` | connection_pool/src/connection_pool.cpp:64-90 | A shutdown passes its wait iff nothing is active, and then closes exactly what is idle. |
| `PoolOpen.OpenIsAccountedFor` | connection_pool/src/connection_pool.cpp:110-250 | In every reachable state the connections made and not yet closed are those idle, those in an actor's hands, and those uncounted but still to be closed; only the first two are within max_size. |
| `PoolOpen.LifetimeOpensTooMany` | connection_pool/src/connection_pool.cpp:155-178 | A concrete run with a limited life time in which max_size + 1 connections are open: an expired one is returned, uncounted and not yet closed. |
| `PoolOpen.IdlingOpensTooMany` | connection_pool/src/connection_pool.cpp:230-249 | The same with a limited idle time and min_idle below max_size, through the cleaner. |
| `PoolOpen.OpenStaysWithinMaxSizeIff` | connection_pool/src/connection_pool.cpp:155-249 | max_size caps the open connections, over all runs with a clock that does not go back, iff the life time is unlimited and the idle time is too or min_idle is at least max_size. |
| `PoolOwnership.SweepSplits` | connection_pool/src/connection_pool.cpp:231-242 | The cleaner's pass splits the idle queue in order: it retires exactly the entries out of their life or idle time that have fewer than total - min_idle such entries in front of them. |
| `PoolOwnership.TidiedBySweep` | connection_pool/src/connection_pool.cpp:231-242 | A sweep loses nothing; what it takes has reached its life time or idled too long; what it keeps has not, unless total is down to min_idle. |
| `PoolOwnership.ConnectionsHaveOneOwner` | connection_pool/src/connection_pool.cpp:150-379 | In every reachable state a borrowed connection is held by one borrower, is not idle, and no idle or borrowed connection was given up for closing. |
| `ConnectionPool.ConnectionPool.constructor` | connection_pool/src/connection_pool.cpp:269-287 | An empty pool: the initial state of the transition system. |
| `ConnectionPool.ConnectionPool.Create` | connection_pool/src/connection_pool.cpp:269-288 | The four argument checks, and nothing else, refuse a configuration. |
| `ConnectionPool.ConnectionPool.LockAndLook` | connection_pool/src/connection_pool.cpp:310-326 | The critical section at the head of an acquire is the one the transition system takes. |
| `ConnectionPool.ConnectionPool.LockAfterWait` | connection_pool/src/connection_pool.cpp:326-336 | So is the section after a wait, time-outs included. |
| `ConnectionPool.ConnectionPool.GiveUpCreation` | connection_pool/src/connection_pool.cpp:343-350 | A failed factory call gives back the reserved slot and wakes a borrower. |
| `ConnectionPool.ConnectionPool.RetireActive` | connection_pool/src/connection_pool.cpp:197-206 | A retired connection is uncounted and a borrower woken. |
| `ConnectionPool.ConnectionPool.Release` | connection_pool/src/connection_pool.cpp:150-179 | Comes back for closing iff the pool is shutting down or now - created_at has reached a limited life time; otherwise it is at the back of the idle queue with last_used_at = now; exact counters. |
| `ConnectionPool.ConnectionPool.CleanupIdle` | connection_pool/src/connection_pool.cpp:226-250 | The loop that erases in place takes only connections out of their life or idle time, keeps such a one only when total is down to min_idle, keeps the order, and counts and notifies for what it takes. |
| `ConnectionPool.ConnectionPool.WarmUp` | connection_pool/src/connection_pool.cpp:110-148 | Alone, it adds as many connections as min_idle and max_size allow, stopping at the first factory failure, with exact counters. |
| `ConnectionPool.ConnectionPool.TryAcquireFor` | connection_pool/src/connection_pool.cpp:298-381 | Alone, it hands out the first idle connection with now - created_at and now - last_used_at below their limits and a good ping; every one destroyed before it fails one of the three; else it makes one within max_size, else times out; exact counters. |
| `ConnectionPool.ConnectionPool.AcquireOnce` | connection_pool/src/connection_pool.cpp:310-371 | One round of the loop: served with exact counters, or the unusable connection at the front is destroyed. |
| `ConnectionPool.ConnectionPool.Shutdown` | connection_pool/src/connection_pool.cpp:64-90 | Alone: while something is borrowed it waits, with the flag set; otherwise everything idle is handed back for closing and the books balance. |
| `ConnectionPool.FirstUsableRange` | connection_pool/src/connection_pool.cpp:354-361 | "First usable" means within both times and answering, and everything before it fails one of the three. |
| `TimerHeap.TopIsLeast` | high_performance_timer/src/high_performance_timer.cpp:36-55 | The top of a heap comes first in the (deadline, id) order. |
| `TimerHeap.Push` | high_performance_timer/src/high_performance_timer.cpp:55 | Pushing into the array heap keeps it a heap and adds exactly the item. |
| `TimerHeap.Pop` | high_performance_timer/src/high_performance_timer.cpp:55 | Popping keeps it a heap and removes exactly the top. |
| `TimerHeap.SiftDown` | high_performance_timer/src/high_performance_timer.cpp:55 | Sifting restores the heap and keeps the items. |
| `TimerModel.NextDeadlineIsLeast` | high_performance_timer/src/high_performance_timer.cpp:262-266 | A repeating timer's next deadline is the least deadline + k * interval, k >= 1, that exceeds now. |
| `TimerModel.NextDeadlineIs` | high_performance_timer/src/high_performance_timer.cpp:262-266 | The same, from the other side: the k the loop stops at determines it. |
| `TimerModel.DueListUnique` | high_performance_timer/src/high_performance_timer.cpp:243-248 | There is one list of due timers in (deadline, id) order, so a drain's output is determined. |
| `TimerModel.FirstOf` | high_performance_timer/src/high_performance_timer.cpp:36-55 | Any set of live timers has a first one in (deadline, id) order. |
| `TimerModel.ListOf` | high_performance_timer/src/high_performance_timer.cpp:243-248 | Any set of live timers can be listed in (deadline, id) order. |
| `TimerModel.NothingStaysDue` | high_performance_timer/src/high_performance_timer.cpp:243-281 | After a drain at `now` no live timer is due at `now`. |
| `TimerModel.DrainIsExact` | high_performance_timer/src/high_performance_timer.cpp:243-281 | A drain, in arithmetic: it lists exactly the timers with deadline <= now in order; one-shots leave; a periodic one moves on by the k >= 1 intervals with was + (k-1) * interval <= now < was + k * interval, keeps its terms and gets the next generation; every other timer is as before. |
| `TimerModel.RearmMovesOn` | high_performance_timer/src/high_performance_timer.cpp:262-270 | Re-arming moves a timer to the one of its own ticks that comes next after now. |
| `TimerScheduler.TimerScheduler.constructor` | high_performance_timer/src/high_performance_timer.cpp:44-70 | No timers, identifiers from 1. |
| `TimerScheduler.TimerScheduler.AddTimer` | high_performance_timer/src/high_performance_timer.cpp:85-127 | Argument errors first; a stopped scheduler answers 0 and changes nothing; otherwise the answer is the old next id, under which the timer is stored with its terms, generation 1 and the later of now and deadline, and every other timer is as before. |
| `TimerScheduler.TimerScheduler.Arm` | high_performance_timer/src/high_performance_timer.cpp:120-121 | Storing a timer and pushing its item restores agreement of heap and timers. |
| `TimerScheduler.TimerScheduler.Cancel` | high_performance_timer/src/high_performance_timer.cpp:129-144 | A live identifier is removed, counted and answered true; any other changes nothing and is answered false; the stale heap item is harmless. |
| `TimerScheduler.TimerScheduler.CancelAll` | high_performance_timer/src/high_performance_timer.cpp:146-155 | Removes, counts and answers the number of all live timers; the heap is untouched. |
| `TimerScheduler.TimerScheduler.BeginShutdown` | high_performance_timer/src/high_performance_timer.cpp:157-162 | Drops every live timer and sets the flag. |
| `TimerScheduler.TimerScheduler.DiscardStaleHeapItems` | high_performance_timer/src/high_performance_timer.cpp:209-213 | No current item is dropped; afterwards the heap is empty only if nothing is live, and its top is the live timer that comes first. |
| `TimerScheduler.TimerScheduler.Poll` | high_performance_timer/src/high_performance_timer.cpp:222-241 | Exit, sleep, sleep until, or drain: the decision a plain scan over all live timers makes. |
| `TimerScheduler.TimerScheduler.DueOnTop` | high_performance_timer/src/high_performance_timer.cpp:244-248 | The drain loop goes on iff some live timer is due, and then the top is the first of them. |
| `TimerScheduler.TimerScheduler.DrainDue` | high_performance_timer/src/high_performance_timer.cpp:243-281 | One drain terminates and fires exactly the timers with deadline <= now, each once, in (deadline, id) order; one-shots leave, periodic ones keep their phase, everything else is as before. |
| `TimerScheduler.TimerScheduler.PopTop` | high_performance_timer/src/high_performance_timer.cpp:250-251 | The popped timer, and only it, is left without an item. |
| `TimerScheduler.TimerScheduler.FireTop` | high_performance_timer/src/high_performance_timer.cpp:250-280 | The top item is always current, so the validity check at lines 254-258 never skips it; its timer leaves, or moves on to its next tick after now. |
| `TimerScheduler.TimerScheduler.CatchUp` | high_performance_timer/src/high_performance_timer.cpp:263-266 | The catch-up loop terminates at the least later tick. |
| `TimerTheorems.StepInv` | high_performance_timer/src/high_performance_timer.cpp:85-326 | Every critical section and notification of clients, scheduler and workers keeps the invariant. |
| `TimerTheorems.ExecInv` | high_performance_timer/src/high_performance_timer.cpp:85-326 | So does every interleaving. |
| `TimerTheorems.SchedulerIsNeverStuck` | high_performance_timer/src/high_performance_timer.cpp:215-245 | Whatever the two clock readings, a scheduler that looks at the timers has a step to take: the modelled choices of sleep time and batch always exist. |
| `TimerTheorems.SchedulerNeverOversleeps` | high_performance_timer/src/high_performance_timer.cpp:222-241 | With no notification pending, a sleeping scheduler is not shutting down and wakes no later than the earliest live deadline. |
| `TimerFirings.EveryTimerIsAccountedFor` | high_performance_timer/src/high_performance_timer.cpp:85-280 | Each issued identifier is live or met exactly one fate; scheduled = live + cancelled + callbacks issued for one-shots + dropped, over every run. |
| `TimerFirings.OneShotsFireOnce` | high_performance_timer/src/high_performance_timer.cpp:250-280 | A one-shot's callback is issued exactly once if its fate is to have fired, and never while it is live or after it was cancelled or dropped; repeating timers never meet that fate. |
| `TimerOrders.NoTimerFiresEarly` | high_performance_timer/src/high_performance_timer.cpp:85-280 | Over every run: each issued firing carries the callback its timer was added with, and comes from a drain no earlier than the deadline asked for and the time of asking. |
| `TimerOrders.TimersKeepTheirTerms` | high_performance_timer/src/high_performance_timer.cpp:85-280 | Over every run: a live timer has the interval, kind and callback it was added with; a one-shot's deadline is the later of the one asked for and the time of asking, a periodic one's is a whole number of intervals after that. |
| `TimerOrders.AddTakesEffect` | high_performance_timer/src/high_performance_timer.cpp:97-126 | An accepted addTimer stores exactly the timer asked for under the next identifier and leaves all others and all firings. |
| `TimerOrders.RefusedAdd` | high_performance_timer/src/high_performance_timer.cpp:93-105 | A refused one changes nothing. |
| `TimerOrders.CancelTakesEffect` | high_performance_timer/src/high_performance_timer.cpp:129-144 | In any interleaving a cancel of a live identifier removes and counts it; any other cancel changes nothing. |
| `TimerOrders.RemovalTakesEffect` | high_performance_timer/src/high_performance_timer.cpp:146-163 | cancelAll and shutdown end every live timer and no other; only cancelAll counts them, only shutdown sets the flag. |
| `TimerTheorems.DeadTimersStayDead` | high_performance_timer/src/high_performance_timer.cpp:129-144 | A timer that was cancelled, fired once or dropped is in no later drain, and cancelling it again fails. |
| `TimerTheorems.CallbacksAreDeliveredInOrder` | high_performance_timer/src/high_performance_timer.cpp:279-326 | Issued firings = dequeued, then queued, then the batch in the scheduler's hand, in order; `fired` counts them. |
| `TimerTheorems.ShutdownDeliversEverything` | high_performance_timer/src/high_performance_timer.cpp:157-180 | When shutdown returns, every fired callback has been dequeued exactly once and in order. |
| `TimerTheorems.WorkersNeverOversleep` | high_performance_timer/src/high_performance_timer.cpp:288-318 | No callback waits behind a sleeping worker unless a notification is on its way. |
| `RingModel.OverwriteKeepsNewest` | ring_buffer/include/ring_buffer.hpp:283-307 | Pushing any list under OverwriteOldest leaves its newest `capacity` items, in order. |
| `RingModel.RejectKeepsOldest` | ring_buffer/include/ring_buffer.hpp:283-307 | Under Reject it leaves the oldest `capacity` items. |
| `RingBuffer.RingBuffer.Window` | ring_buffer/include/ring_buffer.hpp:337-347 | Circular-array refinement: cell (head + i) mod capacity holds item i for i < size and is dead otherwise. |
| `RingBuffer.RingBuffer.constructor` | ring_buffer/include/ring_buffer.hpp:45-52 | An empty window over dead cells. |
| `RingBuffer.RingBuffer.Create` | ring_buffer/include/ring_buffer.hpp:45-52 | Capacity 0, and only it, is refused. |
| `RingBuffer.RingBuffer.PushLocked` | ring_buffer/include/ring_buffer.hpp:283-307 | One push on the array is one push of the bounded queue with this policy, with all counters; the accepted history grows iff it succeeds. |
| `RingBuffer.RingBuffer.DropOldest` | ring_buffer/include/ring_buffer.hpp:296-299 | Overwriting destroys exactly the oldest item. |
| `RingBuffer.RingBuffer.DropHead` | ring_buffer/include/ring_buffer.hpp:325-335 | Destroying at the head frees that cell and advances the index around the array. |
| `RingBuffer.RingBuffer.Append` | ring_buffer/include/ring_buffer.hpp:302-305 | Constructing at the tail appends exactly the value, in a dead cell. |
| `RingBuffer.RingBuffer.PopLocked` | ring_buffer/include/ring_buffer.hpp:309-317 | Takes exactly the oldest item. |
| `RingBuffer.RingBuffer.TryPush` | ring_buffer/include/ring_buffer.hpp:68-78 | A push of the bounded queue with all counters and the accepted history; notification aside. |
| `RingBuffer.RingBuffer.TryPop` | ring_buffer/include/ring_buffer.hpp:138-150 | Fails iff empty, and counts it; otherwise takes the oldest item. |
| `RingBuffer.RingBuffer.Close` | ring_buffer/include/ring_buffer.hpp:197-201 | Closed; the contents stay. |
| `RingBuffer.RingBuffer.Clear` | ring_buffer/include/ring_buffer.hpp:212-223 | Destroys every item and resets both indices. |
| `RingTheorems.StepInv` | ring_buffer/include/ring_buffer.hpp:68-226 | Every critical section, and every notification after its unlock, of every thread keeps the invariant. |
| `RingTheorems.ExecInv` | ring_buffer/include/ring_buffer.hpp:68-226 | So does every interleaving. |
| `RingTheorems.NobodySleepsThroughWork` | ring_buffer/include/ring_buffer.hpp:91-205 | Stored items are at most woken poppers + pending not_empty_ notifications unless no popper sleeps; symmetrically for free slots under Reject, with close and clear as pending notify_all. |
| `RingTheorems.FifoUnderReject` | ring_buffer/include/ring_buffer.hpp:283-317 | Accepted = what left, in order, + contents; under Reject without clear, what left is what was popped. |
| `RingTheorems.NothingAcceptedAfterClose` | ring_buffer/include/ring_buffer.hpp:283-288 | In every continuation after close nothing more is accepted. |
| `RingTheorems.WaitPopFailsOnlyWhenClosedAndDrained` | ring_buffer/include/ring_buffer.hpp:162-177 | A waitPop comes back empty iff the buffer is closed and drained, and otherwise takes the oldest item or sleeps on. |
| `RingSteps.WaitPushFailsOnlyWhenClosed` | ring_buffer/include/ring_buffer.hpp:91-103 | A waitPush fails iff the buffer is closed; while it is full under Reject it sleeps on; otherwise the value is accepted. |
| `RingSteps.PushDecides` | ring_buffer/include/ring_buffer.hpp:68-136 | try, wait and timed push, each iff: fail when closed, or when full under Reject and not willing to wait longer; sleep when full under Reject and willing; otherwise store at the end, the oldest item leaving if full. |
| `RingSteps.PopDecides` | ring_buffer/include/ring_buffer.hpp:138-195 | try, wait and timed pop, each iff: take the oldest item whenever there is one, closed or not; fail when empty and closed or not willing to wait longer; otherwise sleep. |
| `RingSteps.AnswersAreHonest` | ring_buffer/include/ring_buffer.hpp:73-77 | A push answers true, and a pop hands back its item, after the notification, which changes no contents. |
| `RingSteps.OnlyCloseCloses` | ring_buffer/include/ring_buffer.hpp:197-226 | Only close sets the flag, keeping the contents; only clear empties the buffer without popping. |
| `RingSteps.EverybodyIsTold` | ring_buffer/include/ring_buffer.hpp:203-225 | After a close every sleeping popper and then every sleeping pusher has left its wait; after a clear, every sleeping pusher. |
| `LruModel.RunInv` | lru_cache/lrucache.h:102-150 | Over any operations: cached keys are on exactly one list, idle iff unpinned, and the idle list is in order of last release. |
| `LruModel.EvictsLeastRecentlyReleased` | lru_cache/lrucache.h:116-150 | A new-key put evicts exactly the first min(idle, size - capacity) idle keys, none at capacity 0; each was released before every idle key that stays; afterwards the cache fits or nothing is idle. |
| `LruModel.GetFindsTheLatestPut` | lru_cache/lrucache.h:102-115 | A key is found iff it was put and no later new-key put evicted it, with the latest value put. |
| `LruModel.ApplyValues` | lru_cache/lrucache.h:102-150 | An operation puts in its own value, removes exactly what it evicts, and leaves every other key and value as it was. |
| `LruModel.PinFiled` | lru_cache/lrucache.h:127-132 | A guard keeps every key on exactly one list. |
| `LruModel.UnpinFiled` | lru_cache/lrucache.h:133-139 | So does letting go of one. |
| `LruModel.EvictFiled` | lru_cache/lrucache.h:140-150 | So does evicting any number of idle keys. |
| `LruModel.Inserted` | lru_cache/lrucache.h:116-122 | A new key is inserted and pinned before the eviction, which leaves the idle list as it was: the key just put is never evicted. |
| `LruCache.Guarded` | lru_cache/lrucache.h:127-150 | A valid guard's key is cached, pinned and not idle. |
| `LruCache.NoGuardOnIdle` | lru_cache/lrucache.h:140-150 | No valid guard pins the key that an eviction removes: a pinned node is never erased or passed to the deleter. |
| `LruCache.EvictedValuesAreDeleted` | lru_cache/lrucache.h:140-150 | A put hands exactly the evicted values to the deleter, in order of eviction. |
| `LruCache.HandleGuard.Pinning` | lru_cache/lrucache.h:55-59 | Making a guard on a cached node keeps the whole invariant, in which every reference count is 1 + the number of valid guards. |
| `LruCache.HandleGuard.MovedFrom` | lru_cache/lrucache.h:64-69 | Move construction passes the pin on: the cache is unchanged and the source is empty. |
| `LruCache.HandleGuard.MoveFrom` | lru_cache/lrucache.h:71-84 | Move assignment, within one cache or across two, releases what the target held, then passes the pin on; self-assignment does nothing. |
| `LruCache.HandleGuard.ResetBeside` | lru_cache/lrucache.h:73-81 | Letting go leaves another guard, of the same cache or another one, as it was. |
| `LruCache.HandleGuard.TakeOver` | lru_cache/lrucache.h:73-81 | The same, for a valid source. |
| `LruCache.HandleGuard.Reset` | lru_cache/lrucache.h:88-94 | Letting go unpins once and nulls the guard; an empty guard is left alone. |
| `LruCache.LRUCache.constructor` | lru_cache/lrucache.h:35-37 | An empty cache. |
| `LruCache.LRUCache.RefNode` | lru_cache/lrucache.h:127-132 | The first guard moves the node to the nodes in use; the index, both lists, the counts and the guards still agree. |
| `LruCache.LRUCache.UnrefNode` | lru_cache/lrucache.h:133-139 | The last guard moves the node to the end of the nodes not in use. |
| `LruCache.LRUCache.Get` | lru_cache/lrucache.h:102-107 | Valid iff the key is cached, on its value; the cache changes as the model's Get. |
| `LruCache.LRUCache.Put` | lru_cache/lrucache.h:108-125 | The cache changes as the model's Put, returns a valid fresh guard, and hands exactly the evicted values to the deleter: none for a key already cached. |
| `LruCache.LRUCache.PutNew` | lru_cache/lrucache.h:116-124 | The new-key half: insert, pin, evict. |
| `LruCache.LRUCache.PutOld` | lru_cache/lrucache.h:112-115 | The existing-key half: overwrite in place, pin. |
| `LruCache.LRUCache.AddNode` | lru_cache/lrucache.h:116-121 | A new node enters the index and the end of the nodes not in use. |
| `LruCache.LRUCache.Evict` | lru_cache/lrucache.h:140-150 | The loop evicts exactly the excess, as far as nodes not in use last, and passes exactly their values to the deleter. |
| `LruCache.LRUCache.DropFirst` | lru_cache/lrucache.h:143-147 | One eviction removes the front node from index and list, and deletes its value. |
| `LruCache.LRUCache.Transfer` | lru_cache/lrucache.h:64-69 | One guard takes another one's place without touching the counts. |
| `LruCache.LRUCache.Destroy` | lru_cache/lrucache.h:38-47 | With no guard left, every value is handed to the deleter once and nothing remains. |
| `LeakModel.StepInv` | memory_leak_detector/src/memory_leak_detector.cpp:336-427 | Every recorded allocation, free, reset and switch keeps the bookkeeping equal to the history. |
| `LeakModel.ExecInv` | memory_leak_detector/src/memory_leak_detector.cpp:336-427 | So does every run. |
| `LeakModel.TotalsAlwaysAgree` | memory_leak_detector/src/memory_leak_detector.cpp:344-427 | Over every run, between resets: live_bytes is the sum of sizes in the map, live_allocations its size, peak_live_bytes the maximum ever held, and all other totals are those of the history. |
| `LeakModel.SubtractionNeverSaturates` | memory_leak_detector/src/memory_leak_detector.cpp:372-376 | The saturating branches at lines 374-376 and 415-417 are unreachable. |
| `LeakModel.StatsAreConserved` | memory_leak_detector/src/memory_leak_detector.cpp:380-421 | total_allocations = live + freed + replaced, over every run. |
| `LeakEvents.LiveIsWhatTheCallsLeft` | memory_leak_detector/src/memory_leak_detector.cpp:336-427 | Over every run, said of the calls alone: an address is live iff some recorded allocation at it was not freed, recorded over or reset away since, and its record has exactly that call's fields and number. |
| `LeakEvents.TotalsAreTheCalls` | memory_leak_detector/src/memory_leak_detector.cpp:336-427 | total_allocations, total_frees, mismatched_deletes and next_sequence count the calls since the last reset that record, free something, free something made in the other form, and ask for a number. |
| `LeakEvents.PeakIsTheMostHeld` | memory_leak_detector/src/memory_leak_detector.cpp:383-390 | peak_live_bytes is the most bytes live at any moment since the last reset. |
| `LeakEvents.FreeTakesEffect` | memory_leak_detector/src/memory_leak_detector.cpp:392-427 | After a free no allocation at that address survives, and every other survivor does. |
| `LeakTheorems.HeldIffSurvives` | memory_leak_detector/src/memory_leak_detector.cpp:370-381 | The map holds a record iff its allocation was neither freed nor replaced since. |
| `LeakTheorems.LeaksSinceSnapshot` | memory_leak_detector/src/memory_leak_detector.cpp:230-249 | After any run without a reset, the records listed for a snapshot are exactly the allocations recorded since it that were neither freed nor replaced, in the order they were made. |
| `LeakTheorems.LeaksListedIffAny` | memory_leak_detector/src/memory_leak_detector.cpp:201-249 | The list of leaks is non-empty iff some allocation numbered from the snapshot on was neither freed nor replaced, which is what `HasLeaksSince` answers. |
| `LeakTheorems.ResetHidesLeaks` | memory_leak_detector/src/memory_leak_detector.cpp:336-342 | A concrete run: a snapshot numbered above 1, then a reset, then a live allocation that the query misses. |
| `LeakTheorems.ListIs` | memory_leak_detector/src/memory_leak_detector.cpp:230-249 | The list a query returns is determined: the survivors numbered from the snapshot on. |
| `LeakTheorems.AnsweredIff` | memory_leak_detector/src/memory_leak_detector.cpp:230-342 | For any given run: a snapshot is answered right iff the run resets nothing, or nothing is live, or the first live allocation listed is numbered from the snapshot on. |
| `LeakTheorems.SnapshotOutlivesResetsIff` | memory_leak_detector/src/memory_leak_detector.cpp:230-342 | A snapshot is answered right after every run, resets included, iff its next sequence number is 1. |
| `LeakTheorems.SortBySequence` | memory_leak_detector/src/memory_leak_detector.cpp:245-247 | The sort by sequence number: same records, strictly increasing when numbers are distinct. |
| `LeakTheorems.IncreasingUnique` | memory_leak_detector/src/memory_leak_detector.cpp:245-247 | There is only one such order, whatever order the map was walked in. |
| `LeakDetector.MemoryLeakDetector.constructor` | memory_leak_detector/src/memory_leak_detector.cpp:148-154 | Nothing recorded, numbers from 1, switched off. |
| `LeakDetector.MemoryLeakDetector.SetEnabled` | memory_leak_detector/src/memory_leak_detector.cpp:174-176 | Only the switch changes. |
| `LeakDetector.MemoryLeakDetector.RecordAllocation` | memory_leak_detector/src/memory_leak_detector.cpp:344-390 | A non-null address, while enabled and with room or already live, is stored with exactly the arguments and the next number; otherwise the map, totals and history stay; a number is used up whenever non-null and enabled. |
| `LeakDetector.MemoryLeakDetector.RecordDeallocation` | memory_leak_detector/src/memory_leak_detector.cpp:392-427 | A live address is removed, one free is logged and counted, a mismatch iff the recorded form differs, and the recorded alignment returned unless 0; otherwise nothing changes and the fallback is returned. |
| `LeakDetector.MemoryLeakDetector.Reset` | memory_leak_detector/src/memory_leak_detector.cpp:336-342 | Everything but the switch is as at the start. |
| `LeakDetector.MemoryLeakDetector.TakeSnapshot` | memory_leak_detector/src/memory_leak_detector.cpp:188-195 | Every allocation recorded so far is numbered below the snapshot. |
| `LeakDetector.MemoryLeakDetector.HasLeaks` | memory_leak_detector/src/memory_leak_detector.cpp:197-199 | True iff some allocation of the history was neither freed nor replaced. |
| `LeakDetector.MemoryLeakDetector.HasLeaksSince` | memory_leak_detector/src/memory_leak_detector.cpp:201-210 | True iff such an allocation is numbered from the snapshot on, that is, iff the list of leaks is not empty. |
| `LeakDetector.MemoryLeakDetector.LeaksSince` | memory_leak_detector/src/memory_leak_detector.cpp:230-249 | Exactly the live records numbered from the snapshot on, in strictly increasing sequence. |
| `LeakDetector.MemoryLeakDetector.LiveAllocations` | memory_leak_detector/src/memory_leak_detector.cpp:212-228 | Exactly the surviving allocations, in the order they were made. |
| `LeakDetector.ScopedMemoryLeakCheck.constructor` | memory_leak_detector/src/memory_leak_detector.cpp:429-436 | Remembers the switch, turns it on when asked, and takes the snapshot. |
| `LeakDetector.ScopedMemoryLeakCheck.Leave` | memory_leak_detector/src/memory_leak_detector.cpp:438-440 | The switch is put back. |
| `LeakDetector.ScopedMemoryLeakCheck.HasLeaks` | memory_leak_detector/src/memory_leak_detector.cpp:446-448 | True iff something numbered since the scope began is still live; unless something was reset in the scope, iff an allocation recorded in it is. |

## Left out

- `epoll/` and `multi_thread_reactor/`: thin layers over epoll, eventfd and sockets.
- `memory_pool/` and `thread_pool/`: their code is unfinished or inconsistent, so there is no contract to refine.
- Weak memory ordering: atomics are sequentially consistent; step granularity and spurious failures are kept.
- Machine integers: tickets, timer identifiers, sequence numbers, sizes and counters do not wrap around.
- Exceptions, placement new and `aligned_storage`: storage is live (Some) or dead (None); failures appear as the outcome they cause.
- Clocks, time-outs, the connection factory, pings and the memory of the detector's map: parameters or choices of a step.
- Fairness and liveness: what is proved is that nobody is left asleep without a notification on its way, and that single-threaded loops terminate.
- Concurrent calls of the timer's `shutdown`, and `shutdown` from a callback: a caller waits for every worker, and the call that returns is on none of the timer's own threads.
- Joining the pool's cleaner thread in `shutdown` (line 74): the model lets the cleaner go on, which only adds interleavings.
- Copying and emplacing overloads, `isLockFree`, `empty`, `full`, `stats` accessors: they only wrap modelled members.
- The destructors of `HandleGuard` and `RingBuffer`: they are `Reset` and `Clear`.
- Leak report formatting, raw allocation, the global `new` and `delete`, and the thread-local recursion guard around them.
- An exception thrown by the detector's own mutex: the record functions then do nothing.
- LockFreeQueue.LockFreeQueue.constructor: the object tracks a state that satisfies the invariant only for capacity >= 2, the exact condition being `QueueTheorems.StorageSafeIffCapacityAtLeastTwo`.
- LockFreeQueue.LockFreeQueue.TryPush: all other threads are stalled, at arbitrary points, for the length of the call; what other threads do in between is the transition system's part.
- LockFreeQueue.LockFreeQueue.TryPop: as for `TryPush`.
- LockFreeQueue.LockFreeQueue.ReserveEnqueue: as for `TryPush`, so the reload at line 83 is never taken in it; `QueueTheorems.RetryAdvances` and `QueueSteps.Reloads` are about it.
- LockFreeQueue.LockFreeQueue.ReserveDequeue: as for `TryPush`, so the reload at line 120 is never taken in it.
- ConnectionPool.ConnectionPool.TryAcquireFor: one caller alone; interleavings are the transition system's part. The same holds for `AcquireOnce`, `WarmUp` and `Shutdown`.
- TimerModel.NextDeadlineIsLeast: deadlines are integers of one unit, so `milliseconds` intervals added to clock ticks do not overflow.
