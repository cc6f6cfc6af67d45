# Verified models of coter

coter is a C library of synchronisation primitives, pools, containers and codecs. This project models its hardest
parts in Dafny and proves what its users rely on. `dafny verify dfyconfig.toml` checks everything.

How the parts are modelled:

- **Thread pool** (`ThreadPool*.dfy`). One transition is one stretch of code run with the pool lock held, or one event
  outside the lock: a timeout, the end of a pool task, a thread join. Spurious wakeups are allowed everywhere, and a
  timeout may use up a notification. Invariants and run properties are proved on this state machine; `PoolObject` is the
  object with its real counters and lists. `SubmitHead`, `SubmitResume`, `Close`, `WorkerLoop`, `RetireTail` and
  `DestroyTest` are each proved to make exactly one transition; `DestroyReap` makes one for every worker it joins and
  frees the pool; the other methods are parts of one transition, stated as such.
- **Reference count** (`RefCount.dfy`). Every atomic read-modify-write, load, compare-exchange and poison store is a step
  of its own, interleaved over any number of threads, and so is taking and releasing the caller's mutex. The backend
  without atomics is a class.
- **Read-write lock** and **message queue** (`RwLock.dfy`, `MsgQueue.dfy`, `RingQueue.dfy`). Condition-variable protocols
  with explicit parked, notified and timed-out sets, refined by objects with the real counters and the real ring buffer.
  A wait of the lock may fail, and a timed wait of the queue may time out, whether or not the waiter was notified.
- **Pairing heap** (`PairingTree.dfy`, `PairingHeap.dfy`, `PairingHeapObject.dfy`). Real heap nodes with `child_`, `left_`
  and `right_`, tied to ghost trees. `left_` is the parent in the binary-tree reading of the structure.
- **Calendar** (`Calendar.dfy`). C division truncates toward zero and is written out; nothing is bounded.
- **Option parser** (`Opt.dfy`, `OptParser.dfy`, `OptRoundTrip.dfy`). `Walk` reads a token list whose tokens never move.
  The parser object, which rotates its vector in place, is proved against it over whole runs, and against a printer.
- **Digests** (`Digest.dfy`, `Sha1.dfy`, `Md5.dfy`). Buffering, 32-bit counter words with carry, padding and byte order,
  for an arbitrary block transform.
- **Base64**, **BCD** and **reverse copy** (`Base64.dfy`, `Bits.dfy`, `Bcd.dfy`, `ReverseCopy.dfy`).
- `Wrappers.dfy` and `Arithmetic.dfy` hold what several modules share.

For every operation that answers with a code, what each answer means is proved from the caller's side (`SubmitAnswers`,
`AnswersMean`, `HeadAnswers`): exactly when it is given, and what has changed then.

Where the code and its documentation disagree, the model follows the code:

- `ct_thpool_destroy` is documented to return after all accepted tasks have finished (thread/include/coter/thread/thpool.h:66).
  That holds exactly when `idle_timeout_` is 0 or `capacity_` is 0. Otherwise workers can all be joining older workers
  with the lock released when a submit arrives; the submit creates no worker, and destroy frees the pool with that task
  still queued. `DestroyCondition` proves both directions, for every configuration.
- The gap of 2^30 between the reference counter's valid range and its poison values protects against exactly 2^30 - 4
  threads, because poison stores are separate from the read-modify-writes that need them. One thread more can carry a
  poisoned counter round to zero; `SaturationBound` proves both directions.

Where a guarantee depends on more than the code, the exact condition is proved:

- A timed wait of the message queue returns ETIMEDOUT without another look at the queue. If the timeout uses up a
  notification while another waiter is parked, that waiter sleeps on although an item (a free slot) is there for it.
  `NobodyForgotten` proves that a run forgets nobody if and only if no such timeout occurs in it; `ForgettingRun` is a
  run in which one does. Where timeouts and notifications exclude each other, and with untimed waits, nobody is forgotten.
- A failing wait of the only notified writer of the read-write lock passes its notification to nobody. `NoWakeupLost`
  proves that a run loses no wakeup if and only if that never happens on a free lock with other writers parked;
  `StrandingRun` is a run in which it does.
- The update loop of SHA-1 keeps a 32-bit index. It ends if and only if the chunk is below 2^32 bytes plus what completes
  the block in the buffer (`LoopEndsBelowLimit`); beyond that the index wraps for ever. MD5 has no such bound.
- `ct_heap_move` with the same heap twice empties it and ties its root to itself; with two heaps nothing is lost.

## Model

| member | source | states |
|---|---|---|
| ThreadPoolProofs.StepInv | thread/src/thpool.c:102-271 | Every transition keeps: live workers within capacity and queued tasks within max_tasks when those are set; each accepted task queued, running or finished, exactly one of these, and started in acceptance order; each created worker live, retired, on one stale list or joined, exactly one of these; a submitter parked without notification only when the queue is full and the pool open; no worker parked after close; destroy asleep only while something it waits for exists |
| ThreadPoolProofs.StepLive | thread/src/thpool.c:145-271 | If idle_timeout_ is 0 or capacity_ is 0, every transition keeps: a non-empty queue has a live worker that is neither parked without notification nor retiring |
| ThreadPoolProofs.SubmitAnswers | thread/src/thpool.c:145-170 | When a submit answers closed, overload, no memory, blocks or success, in terms of the flag, the queue bound, the waiting workers and the capacity; it appends its task and adds its worker exactly on success |
| ThreadPoolProofs.ResumeAnswers | thread/src/thpool.c:166-171 | The same for a submit that comes back from its wait, in terms of the pool it comes back to |
| ThreadPoolProofs.WorkerDecides | thread/src/thpool.c:217-251 | The worker loop runs the first queued task if there is one, waits exactly on an open pool without a timeout, and otherwise leaves, taking over the workers retired before it |
| ThreadPoolRuns.ReachableInv | thread/src/thpool.c:102-271 | The accounting of tasks, workers, limits and waiters holds in every reachable state of every configuration |
| ThreadPoolRuns.JoinsOnce | thread/src/thpool.c:253-264 | A worker joins another worker, never itself, one that has left the lists, was never joined before, and is on no other stale list |
| ThreadPoolRuns.FreedMeansAllJoined | thread/src/thpool.c:112-131 | When destroy has freed the pool every worker ever created has been joined and freed, and no submitter is inside |
| ThreadPoolRuns.DrainedWhenDestroyed | thread/src/thpool.c:112-131 | In a safe configuration the end of destroy's wait means that every accepted task has run exactly once |
| ThreadPoolRuns.NormalMeansRun | thread/src/thpool.c:112-171 | In a safe configuration a task whose submit answered success has run when destroy stops waiting |
| ThreadPoolRuns.ErrorMeansNeverRun | thread/src/thpool.c:145-170 | A task whose submit answered with an error never starts, in any continuation of any run |
| ThreadPoolRuns.ClosedWorkDecreases | thread/src/thpool.c:211-271 | After close every step of a worker or of a blocked submitter lowers a well-founded measure of remaining work |
| ThreadPoolRuns.ClosedNeverBlocks | thread/src/thpool.c:102-121 | After close, while destroy has something to wait for, some worker or submitter can step: destroy is never deadlocked |
| ThreadPoolRuns.DestroyCanFinish | thread/src/thpool.c:112-131 | From every state in which destroy has begun the pool's own threads can bring it to its end |
| ThreadPoolRuns.StrandingRun | thread/src/thpool.c:253-264 | For every bounded pool with an idle timeout there is a run in which a task is queued while every live worker is in the unlocked part of the retire path |
| ThreadPoolRuns.LosingRun | thread/src/thpool.c:112-131 | That run goes on until destroy has freed the pool with an accepted task unfinished |
| ThreadPoolRuns.StrandingCondition | thread/src/thpool.c:151-160 | No reachable state strands a queued task if and only if idle_timeout_ is 0 or capacity_ is 0 |
| ThreadPoolRuns.DestroyCondition | thread/src/thpool.c:112-131 | Every run that ends destroy has run all accepted tasks if and only if idle_timeout_ is 0 or capacity_ is 0 |
| ThreadPoolSections.PoolObject.CreateWorker | thread/src/thpool.c:189-209 | The reserved slot and the list entry stay only if a thread was made; all four counters keep their meaning |
| ThreadPoolSections.PoolObject.SubmitLoop | thread/src/thpool.c:145-170 | One pass of the submit loop on the real counters gives the right answer for the pool it found, and leaves that answer's effect |
| ThreadPoolSections.PoolObject.SubmitHead | thread/src/thpool.c:133-171 | A submit up to its first release of the lock is one transition; success exactly if the task was accepted, closed exactly if the pool was, and every other answer exactly when the code gives it |
| ThreadPoolSections.PoolObject.SubmitResume | thread/src/thpool.c:166-171 | A submit from the end of its wait is one transition, with the broadcast when it was the last one blocked and with its answer as above |
| ThreadPoolSections.PoolObject.Close | thread/src/thpool.c:102-110 | Close sets the flag and notifies every waiter of both conditions |
| ThreadPoolSections.PoolObject.WorkerLoop | thread/src/thpool.c:217-251 | The worker loop from taking the lock to releasing it is one transition; it delivers the first queued task if there is any |
| ThreadPoolSections.PoolObject.RetireHead | thread/src/thpool.c:253-259 | Retiring with older retired workers takes them all over and leaves this worker on the live list |
| ThreadPoolSections.PoolObject.RetireTail | thread/src/thpool.c:263-271 | The worker moves from the live to the retired list and stops counting as live |
| ThreadPoolSections.PoolObject.DestroyTest | thread/src/thpool.c:116-118 | Destroy stops waiting exactly when no worker is live and no submitter is blocked |
| ThreadPoolSections.PoolObject.DestroyReap | thread/src/thpool.c:120-130 | Every worker still on the retired list is joined once |
| RefCount.PoisonKeepsReason | sync/src/ref.c:10-42 | Every poison value lies in the last quarter of the range and its low two bits give the reason back |
| RefCount.LoopReadsAgain | sync/src/ref.c:80-108 | A thread that goes round a compare-exchange loop has read the present value, so that its next exchange succeeds unless somebody interferes |
| RefCountLock.MutexGivenBack | sync/src/ref.c:250-254 | In every run a thread between operations holds the caller's mutex exactly when it took it itself or its last drop answered true and it has not unlocked since |
| RefCountLock.GivesBack | sync/src/ref.c:250-254 | A thread whose drop under the mutex was not the last, poisoned or not, is out of the operation with the mutex free after at most two of its own steps |
| RefCountLock.DropUnderLock | sync/src/ref.c:250-254 | From any value the drop under the mutex answers true exactly at 1 and keeps the mutex for the caller, and answers false otherwise and is still to give it back |
| RefCountSaturation.PinnedStep | sync/src/ref.c:38-201 | A step after a stored poison keeps the value within as many counts of the last poison as there are threads on their way to poison it; no step reports a final release or a failed acquisition |
| RefCountSaturation.SaturationIsFinal | sync/src/ref.c:38-52 | After any poison store, with at most 2^30 - 4 threads, the value stays above 0x7fffffff in every interleaving, no drop ever reports a final release and inc_not_zero never fails |
| RefCountSaturation.WrapRun | sync/src/ref.c:164-186 | With 2^30 - 3 threads there is a run that poisons the counter and then carries it to zero |
| RefCountSaturation.SaturationBound | sync/src/ref.c:7-11 | Stored poison keeps the value above the valid range in all runs if and only if there are at most 2^30 - 4 threads |
| RefCountOwnership.CountedStep | sync/src/ref.c:66-254 | With owner-only increments and drops and at most 0x7fffffff references, each step keeps value equal to the outstanding references; a step reports the final release exactly when it gives up the last one; a failed acquisition means that none is left |
| RefCountOwnership.OwnershipSound | sync/src/ref.c:66-254 | In every disciplined run from a fresh counter the value is the number of references, the final release is reported once if none is left and never otherwise, and the counter is not poisoned |
| RefCountOwnership.LastDropHoldsLock | sync/src/ref.c:250-254 | The drop under the mutex answers true exactly for the last reference, with the caller's mutex held; otherwise the next step frees the mutex |
| RefCountOwnership.DeadStaysDead | sync/src/ref.c:77-80 | inc_not_zero fails on a counter without references |
| RefCountMutexBackend.SoloMeaning | sync/src/ref.c:109-281 | What each operation does undisturbed, over all 2^32 values: which values count, which are poisoned, which are left alone |
| RefCountMutexBackend.RefCounter.Increment | sync/src/ref.c:151-161 | The section under the mutex does what the atomic operation does when nothing interrupts it |
| RefCountMutexBackend.RefCounter.IncNotZero | sync/src/ref.c:109-132 | The same for inc_not_zero, with its result |
| RefCountMutexBackend.RefCounter.DecAndTest | sync/src/ref.c:187-200 | The same for dec_and_test |
| RefCountMutexBackend.RefCounter.DecUnlessLast | sync/src/ref.c:256-275 | The same for dec_and_mutex_lock up to the caller's mutex |
| RefCountMutexBackend.RefCounter.DecAndMutexLock | sync/src/ref.c:256-281 | The whole operation, with others changing the value before the caller's mutex is held: the answer is true exactly if the reference was the last both times, and the mutex stays held exactly then |
| RwLock.StepInv | sync/src/rwlock.c:88-215 | Every step, failing waits of notified and un-notified threads included, keeps: one writer and no readers, or no writer and up to INT_MAX readers; waiting threads in one place each. It keeps the guarantee against lost wakeups exactly when it is not a failing wait of the only notified writer on a free lock with writers parked |
| RwLock.AnswersMean | sync/src/rwlock.c:88-215 | What each answer says, at every step: success exactly if the lock was free for the caller, and it then holds it or has let go of it; EBUSY, EAGAIN, EINVAL and waiting exactly when; nothing but the caller and the threads it must tell changes |
| RwLock.ReachableSafe | sync/src/rwlock.c:88-215 | In every run: at most one writer, and no reader beside it; at most INT_MAX readers and UINT_MAX waiting writers |
| RwLock.NoWakeupLost | sync/src/rwlock.c:119-136 | No wakeup is lost anywhere in a run if and only if the wait of an only notified writer never fails in it while the lock is free and writers are parked |
| RwLock.FreeLockIsWatched | sync/src/rwlock.c:175-215 | In a run without a lost wakeup: if the lock is free and any thread is parked without notification, some writer has been notified |
| RwLock.StrandingRun | sync/src/rwlock.c:126-131 | There is a run whose failing wait leaves a writer asleep on a free lock with nobody notified |
| RwLock.NoReaderPastWriter | sync/src/rwlock.c:94-107 | A step that admits a reader finds no writer waiting, no writer holding and the counter below INT_MAX |
| RwLock.FreeLockIsTaken | sync/src/rwlock.c:175-215 | Unless a wakeup was lost: with the lock free and a thread inside a call, a notified thread can take it |
| RwLockSections.RwLockObject.ReadAttempt | sync/src/rwlock.c:94-107 | state_ and waiting_writers_ keep their meaning while a reader is admitted, refused or parked, each exactly when it must be |
| RwLockSections.RwLockObject.ReadRetry | sync/src/rwlock.c:94-107 | The same when a reader returns from its wait |
| RwLockSections.RwLockObject.WriteAttempt | sync/src/rwlock.c:119-136 | The same for a writer, which takes a free lock past waiting writers, as the code does |
| RwLockSections.RwLockObject.WriteRetry | sync/src/rwlock.c:124-136 | The same when a writer returns from its wait |
| RwLockSections.RwLockObject.WriteGiveUp | sync/src/rwlock.c:126-131 | A failing wait of the last waiting writer lets the readers in |
| RwLockSections.RwLockObject.ReadGiveUp | sync/src/rwlock.c:94-101 | A failing wait of a reader changes neither counter |
| RwLockSections.RwLockObject.TryRead | sync/src/rwlock.c:145-155 | tryrdlock: EBUSY if the internal mutex is taken, a writer holds or waits; EAGAIN at INT_MAX; or admission |
| RwLockSections.RwLockObject.TryWrite | sync/src/rwlock.c:164-172 | trywrlock: EBUSY exactly if the internal mutex is taken or the lock is held; otherwise the caller is the writer |
| RwLockSections.RwLockObject.ReadUnlock | sync/src/rwlock.c:180-193 | The last reader notifies a waiting writer; unlocking without a reader is EINVAL |
| RwLockSections.RwLockObject.WriteUnlock | sync/src/rwlock.c:201-214 | A writer notifies a waiting writer, or else all readers; unlocking without a writer is EINVAL |
| RingQueue.Ring.Enqueue | container/src/queue.c:23-31 | Appends to the FIFO contents, or fails and changes nothing when full |
| RingQueue.Ring.Dequeue | container/src/queue.c:33-41 | Removes the first of the contents, or fails when empty |
| RingQueue.Ring.Traverse | container/src/queue.c:51-60 | Visits the contents in order up to and including the first element the callback stops at |
| MsgQueue.StepSound | sync/src/msgqueue.c:35-230 | Every step, timeouts of notified waiters included, keeps: items within the capacity, pushed equals popped followed by queued, waiters in one place each and none parked after close. It keeps the guarantee against lost wakeups exactly when it is not a timeout that uses up a needed notification |
| MsgQueue.AnswersMean | sync/src/msgqueue.c:35-230 | What each answer says, at every step: a push (pop) succeeds exactly on an open queue with room (an item), EPIPE exactly on a closed one, EAGAIN, ETIMEDOUT and waiting exactly when; success moves one item and tells one waiter, anything else moves nothing |
| MsgQueue.PopsArePrefixOfPushes | sync/src/msgqueue.c:86-190 | In every run the items popped are the first of the items pushed, in order |
| MsgQueue.NobodyForgotten | sync/src/msgqueue.c:192-230 | In a run, at every moment, parked poppers (pushers) imply no more items (free slots) than notified poppers (pushers), if and only if no timeout in it uses up a notification that was needed |
| MsgQueue.NobodyForgottenIdly | sync/src/msgqueue.c:192-230 | Where timeouts end only waits that were not notified: while a popper (pusher) is parked without notification the queue is open and the items (free slots) are at most the notified poppers (pushers) |
| MsgQueue.ForgettingRun | sync/src/msgqueue.c:226-227 | For every capacity there is a run that ends with an item queued, a popper parked and nobody notified |
| MsgQueue.ClosedStep | sync/src/msgqueue.c:35-230 | On a closed queue no push or pop succeeds or starts to wait, and nothing is transferred |
| MsgQueue.NothingAfterClose | sync/src/msgqueue.c:35-45 | After close, in every continuation, contents and history stay as they are |
| MsgQueue.OkMeansTransferred | sync/src/msgqueue.c:86-190 | A successful push appends its item and found room; a successful pop delivers the first item |
| MsgQueueSections.MsgQueueObject.Shut | sync/src/msgqueue.c:35-45 | Close notifies all waiters once |
| MsgQueueSections.MsgQueueObject.PushCall | sync/src/msgqueue.c:86-101 | A push up to its first release of the mutex is one transition, over the real ring buffer |
| MsgQueueSections.MsgQueueObject.PopCall | sync/src/msgqueue.c:103-118 | The same for a pop, which returns the item |
| MsgQueueSections.MsgQueueObject.PushAgain | sync/src/msgqueue.c:192-210 | A push from the end of a wait is one transition |
| MsgQueueSections.MsgQueueObject.PopAgain | sync/src/msgqueue.c:212-230 | The same for a pop |
| MsgQueueSections.MsgQueueObject.PushGivesUp | sync/src/msgqueue.c:205-207 | A push whose wait timed out returns ETIMEDOUT and leaves the queue as it is |
| MsgQueueSections.MsgQueueObject.PopGivesUp | sync/src/msgqueue.c:225-227 | The same for a pop, whatever has been queued by then |
| MsgQueueSections.MsgQueueObject.TryPushCall | sync/src/msgqueue.c:120-137 | try_push: EPIPE exactly if closed, EAGAIN exactly if open and full, otherwise the item is pushed |
| MsgQueueSections.MsgQueueObject.TryPopCall | sync/src/msgqueue.c:139-156 | try_pop: EPIPE exactly if closed, EAGAIN exactly if open and empty, otherwise the first item is delivered |
| PairingTree.MergeContents | container/src/heap.c:27-63 | The recursive pairwise merge yields one tree with the same nodes and keys |
| PairingTree.MergeOrdered | container/src/heap.c:27-63 | and keeps every lower bound and the heap order |
| PairingTree.InsertCorrect | container/src/heap.c:78-83 | Inserting adds exactly the node and keeps heap order |
| PairingTree.InsertTop | container/src/heap.c:8-25 | An inserted node comes to the top exactly if no node ranks before it, ties going to the newcomer |
| PairingTree.PopCorrect | container/src/heap.c:85-99 | The root is a least element, and what is left is an ordered heap of exactly the other nodes |
| PairingTree.RemoveCorrect | container/src/heap.c:105-130 | Removing any node leaves exactly the others, in heap order |
| PairingTree.UpdateCorrect | container/src/heap.c:132-136 | Re-ranking a node, whatever its old and new key, keeps the node set and changes only that key |
| PairingTree.MoveCorrect | container/src/heap.c:138-151 | Moving the trees of two distinct heaps together yields an ordered heap of both contents |
| PairingTree.DrainSorts | container/src/heap.c:85-99 | Popping until empty delivers a permutation of the contents in non-decreasing order |
| PairingHeap.HeapMeld | container/src/heap.c:8-25 | The pointer meld of two heaps builds the linked form of the tree meld, ties going to the second heap; of a heap with itself it makes the root its own child |
| PairingHeap.PairPass | container/src/heap.c:31-51 | The first pass chains pairs by right_ so that melding the chain gives the recursive merge |
| PairingHeap.MeldPass | container/src/heap.c:53-60 | The second pass melds that chain, last pair first |
| PairingHeap.HeapMergePairsIter | container/src/heap.c:28-63 | The two loops build the linked form of exactly the tree of the recursive merge |
| PairingHeap.LinkConsistency | container/src/heap.c:105-124 | In a linked heap left_ is the parent of a first child and the left sibling of any other child, and the root has no siblings |
| PairingHeapObject.Detach | container/src/heap.c:113-124 | Unlinking an inner node leaves the linked form of the rest and of its children, both without it |
| PairingHeapObject.Heap.InsertNode | container/src/heap.c:78-83 | The heap stays linked, ordered and counted; its tree is the inserted one |
| PairingHeapObject.Heap.PopTop | container/src/heap.c:85-99 | The same after a pop, which also clears the node's links; the root's own key may have changed before |
| PairingHeapObject.Heap.PeekTop | container/src/heap.c:101-103 | The top is the root of the tree |
| PairingHeapObject.Heap.RemoveNode | container/src/heap.c:105-130 | From a heap ordered but for one node's changed key, removing that node gives a linked, ordered heap of the others |
| PairingHeapObject.Heap.UpdateNode | container/src/heap.c:132-136 | From a heap ordered but for one node's changed key, updating that node restores order and links with the same nodes |
| PairingHeapObject.Heap.MoveFrom | container/src/heap.c:138-151 | All nodes of another heap move over and the source is empty; a heap moved into itself is left empty |
| PairingHeapObject.Reranked | container/src/heap.c:132-136 | After any change of one rank a valid heap is ordered but for that node, which is what removal and update take |
| PairingHeapObject.PopAll | container/src/heap.c:85-99 | Popping the linked heap until it is empty hands out every node exactly once, in non-decreasing rank |
| Calendar.CivilFromDays | core/src/time.c:183-197 | The out-parameters are the date that the lemmas below are about |
| Calendar.DaysOfCivil | core/src/time.c:174-197 | Every integer day number is the number of the date it converts to, and that date is in the calendar |
| Calendar.CivilOfDays | core/src/time.c:174-197 | Every calendar date, of any year, is the date of its day number |
| Calendar.NextIsOneDayLater | core/src/time.c:174-181 | The calendar successor by month lengths has the next day number |
| Calendar.CivilSuccessor | core/src/time.c:183-197 | Day n + 1 is the calendar successor of day n as ct_datetime_days_in_month defines it, for every integer n |
| Calendar.Epoch | core/src/time.c:183-197 | Day 0 is 1 January 1970, which with the successor rule determines the whole conversion |
| Calendar.YearFits | core/src/time.c:194-196 | For day numbers up to 2^32 either way the casts to int lose nothing |
| Calendar.LeapRule | core/src/time.c:170-172 | The leap rule is the same whether remainders truncate or not |
| Calendar.ShiftMoves | core/src/time.c:250-268 | Adding days succeeds exactly if the date is one of the years 1 to 9999 and there is a date of those years that many days away, and then gives that date |
| Calendar.ShiftsCompose | core/src/time.c:250-268 | Shifts in range compose by addition and undo each other |
| Calendar.DateTime.AddDays | core/src/time.c:250-268 | The date fields change to the shifted date exactly if hour, minute, second, millisecond and both dates are in range, and otherwise not at all; the time fields never do |
| Opt.ErrorNamesOption | opt/include/coter/opt/opt.h:104-105 | On an error optopt is the offending letter, or the short name of the matching descriptor, or 0 for an unknown long option |
| Opt.TokenKinds | opt/src/opt.c:16-24 | Which tokens are "--", long options, clusters and positionals, "-" and the empty one among the last |
| Opt.HeadAnswers | opt/src/opt.c:29-132 | The exact answer to an option, over the table itself: a letter is invalid iff it is not visible ASCII or no descriptor has it, a long option iff no descriptor names it; too many, missing and no error exactly when; with the id, the argument, the tokens used and the position in the cluster |
| Opt.NextMeans | opt/src/opt.c:162-192 | A call is done exactly at the end, at "--" and, without permuting, at a positional; any other call answers as above for the next option token |
| Opt.NextValid | opt/src/opt.c:162-192 | A call keeps an open cluster open and lowers (tokens left, characters left), so iteration ends |
| Opt.RunArranges | opt/src/opt.c:157-192 | A whole permuting run reports what reading the unmoved tokens reports, and leaves: option tokens, "--" if met, skipped positionals, tail, with optind at the first positional |
| Opt.WalkIsStable | opt/src/opt.c:157-192 | The option tokens and the skipped positionals interleave to the tokens read, so each keeps its order; skipped tokens are positional; the tail is untouched |
| Opt.PosixRun | opt/src/opt.c:173-177 | Without permuting no token moves, the reports are a prefix of the permuting run's, and the run stops at a positional, behind "--" or at the end |
| OptParser.IsMatch | opt/src/opt.c:29-36 | The cursor loop accepts exactly when the long name is the text before the first equals sign |
| OptParser.FindShort | opt/src/opt.c:62-67 | The scan of the descriptors finds the last one with the short name |
| OptParser.FindLong | opt/src/opt.c:114-115 | The scan finds the first descriptor whose long name matches |
| OptParser.Parser.Permute | opt/src/opt.c:38-44 | The nested loops rotate: the tokens moved come first, those passed keep their order, the rest stays |
| OptParser.Parser.ParseShortAt | opt/src/opt.c:46-105 | One letter of a cluster, with the position kept between calls, inline and separate arguments and each error exactly when the table demands it |
| OptParser.Parser.ParseLongAt | opt/src/opt.c:107-132 | One long option, with its argument forms and each error exactly when the table demands it |
| OptParser.Parser.constructor | opt/src/opt.c:134-141 | The parser starts behind the program name if there is one, with permuting on |
| OptParser.Parser.GetNext | opt/src/opt.c:162-192 | A call moves tokens, positions and reports as one step of the specification; done exactly when there is no option to read, and otherwise with the answer the table demands |
| OptParser.Parser.TakeArg | opt/src/opt.c:143-149 | The next token is consumed, unless a cluster is open or none is left |
| OptParser.ParseAll | opt/src/opt.c:162-192 | Calling until DONE, past errors too, ends, with exactly the reports, vector and position of the whole run |
| OptRoundTrip.ParseUndoesPrint | opt/src/opt.c:29-132 | For every table with distinct usable names and every list of clusters, long options with inline or separate arguments and positionals, reading the printed line reports the options and arguments in order and skips exactly the positionals |
| OptRoundTrip.RunUndoesPrint | opt/src/opt.c:157-192 | The same for the parser with its moving vector, started behind a program name |
| Digest.CounterAdds | crypto/src/sha1.c:180-182 | The two 32-bit words with their carry add eight times the length modulo 2^64, for every length |
| Digest.CounterOffset | crypto/src/sha1.c:183-183 | The offset taken from the low word is the message length modulo 64, whatever has wrapped |
| Digest.PadFills | crypto/src/sha1.c:203-209 | Padding fills whole blocks with the least number of zeros that does |
| Digest.FieldIsLength | crypto/src/sha1.c:200-203 | The length field is the number of bits modulo 2^64, in either byte order |
| Digest.PadInjective | crypto/src/md5.c:195-212 | No two messages below 2^61 bytes have the same padded form, in either byte order |
| Sha1.StartBytes | crypto/src/sha1.c:165-174 | The initial words are those of section 5.3.1 of FIPS 180-4, byte for byte |
| Sha1.HashOfPadded | crypto/src/sha1.c:195-214 | The digest is that of any byte string made of the message, 0x80, the fewest zeros to whole blocks and eight bytes that read most significant first as the number of bits |
| Sha1.LoopEndsBelowLimit | crypto/src/sha1.c:184-187 | With j bytes in the buffer the loop over whole blocks ends if and only if the chunk is below 2^32 + (64 - j) mod 64 bytes |
| Sha1.Context.Update | crypto/src/sha1.c:176-193 | After any sequence of updates, each one for which the loop ends, the state is the fold of the transform over the whole blocks of all bytes given, the buffer holds the rest, and the counter is their number of bits |
| Sha1.Context.AddPadding | crypto/src/sha1.c:204-208 | The padding loop ends, having appended 0x80 and exactly the zeros required |
| Sha1.Context.Final | crypto/src/sha1.c:195-214 | The digest is that of all bytes given, however they were split, by section 5.1.1 of FIPS 180-4; the context is wiped |
| Sha1.Sum | crypto/src/sha1.c:216-221 | The one-call digest is the same function of its data, for all data on which it ends |
| Md5.StartBytes | crypto/src/md5.c:148-158 | The initial words are those of section 3.3 of RFC 1321, byte for byte |
| Md5.OutputAt | crypto/src/md5.c:214-217 | The digest runs from the low-order byte of the first word to the high-order byte of the fourth |
| Md5.HashOfPadded | crypto/src/md5.c:195-220 | As for SHA-1, with the eight bytes read least significant first |
| Md5.Context.Update | crypto/src/md5.c:160-193 | As for SHA-1, with no bound on the chunk |
| Md5.PaddedBlocks | crypto/src/md5.c:196-209 | The padding ends in the block that is being filled or fills it and runs into one more, whichever the fill requires |
| Md5.Context.Final | crypto/src/md5.c:195-220 | The digest is that of all bytes given, by sections 3.1 to 3.5 of RFC 1321; the context starts afresh |
| Md5.Sum | crypto/src/md5.c:222-227 | The one-call digest is the same function of its data |
| Base64.SingleInverse | encoding/src/base64.c:7-35 | Decoding a character inverts encoding it; only the 64 characters and the pad decode |
| Base64.AlphabetIs | encoding/src/base64.c:7-17 | The 64 characters are those of section 4 of RFC 4648, in its order |
| Base64.GroupValue | encoding/src/base64.c:63-72 | The four sextets are the 24-bit value of three bytes, section 4 of RFC 4648 |
| Base64.EncodeSpells | encoding/src/base64.c:46-115 | Every group of up to three bytes becomes four characters of the alphabet, six bits each, with zero bits behind the last byte and a pad wherever there is no byte |
| Base64.ChunksDoNotMatter | encoding/src/base64.c:46-115 | By the specification of the calls, the concatenated streaming output equals the encoding of the whole input for every way of cutting it |
| Base64.DecodeInvertsEncode | encoding/src/base64.c:117-153 | Decoding an encoding returns the original bytes, for every input |
| Base64.DecodesWellFormed | encoding/src/base64.c:130-153 | A text decodes if and only if each whole group is two characters of the alphabet and two that may be pads |
| Base64.GroupBytesAre | encoding/src/base64.c:142-151 | The bytes of a group are the bits of its characters, eight at a time, one, two or three as the pads say |
| Base64.DecodeBound | encoding/src/base64.c:130-153 | A decoding fits three quarters of the text, which is what the room test relies on |
| Base64.Encoder.Update | encoding/src/base64.c:46-77 | Writes the encoding of every whole group of pending and new bytes and keeps the rest; out of room it writes the groups that fit, keeps the next one and returns 0 |
| Base64.Encoder.Final | encoding/src/base64.c:79-115 | Writes the padded rest and a terminator, or nothing if they do not fit |
| Base64.EncodeChunks | encoding/src/base64.c:46-115 | Running the encoder object over any list of chunks and then finishing leaves the encoding of all of them, with a terminator, in the output buffer |
| Base64.EncodeAll | encoding/src/base64.c:117-128 | The whole encoding and a terminator, or an empty string if they do not fit |
| Base64.DecodeAll | encoding/src/base64.c:130-153 | The decoded bytes, their number and a terminator; 0 for a malformed group or too little room |
| Bits.Field | encoding/include/coter/encoding/bcd.h:95-102 | Shifting a word of lanes and masking a field in each gives the field of the lowest lane and, apart from it, those of the lanes above; nothing leaks from lane to lane |
| Bcd.TensExact | encoding/include/coter/encoding/bcd.h:78-80 | 52/256 of the halves are the exact tenths, for both bytes of a lane and every pair of numbers below 100 |
| Bcd.HundredsExact | encoding/include/coter/encoding/bcd.h:95-97 | 1311/32768 of the quarters are the exact hundredths, for every pair of numbers below 10000 |
| Bcd.AllQuotients | encoding/include/coter/encoding/bcd.h:122-131 | The masked products give the quotients of all lanes at once, with nothing carried between lanes |
| Bcd.Refine | encoding/include/coter/encoding/bcd.h:98-103 | Adding a multiple of the quotients splits every digit into two, in lanes half as wide |
| Bcd.EncodeU16Correct | encoding/include/coter/encoding/bcd.h:74-82 | The result is the four decimal digits of the input modulo 10^4, a nibble each |
| Bcd.EncodeU32Correct | encoding/include/coter/encoding/bcd.h:91-104 | The same for eight digits |
| Bcd.EncodeU64Correct | encoding/include/coter/encoding/bcd.h:114-133 | The same for sixteen digits |
| Bcd.DecodeStage | encoding/include/coter/encoding/bcd.h:165-183 | A decoding stage joins every two digits, in lanes twice as wide, with no borrow between lanes |
| Bcd.ValidU16 | encoding/include/coter/encoding/bcd.h:33-35 | The check accepts exactly the words of four decimal nibbles |
| Bcd.ValidU32 | encoding/include/coter/encoding/bcd.h:43-45 | The same for eight |
| Bcd.ValidU64 | encoding/include/coter/encoding/bcd.h:53-55 | The same for sixteen |
| Bcd.RoundTripU16 | encoding/include/coter/encoding/bcd.h:74-156 | Encoding is valid and decodes to the input modulo 10^4; a valid word decodes to the number it reads and encodes back to itself |
| Bcd.RoundTripU32 | encoding/include/coter/encoding/bcd.h:91-169 | The same modulo 10^8 |
| Bcd.RoundTripU64 | encoding/include/coter/encoding/bcd.h:114-183 | The same modulo 10^16 |
| ReverseCopy.MovedIsReversal | core/src/strings.c:56-137 | The destination becomes the source reversed and everything around it stays |
| ReverseCopy.MoveDown | core/src/strings.c:105-113 | An overlapping move to a lower address is a disjoint move and a reversal in place |
| ReverseCopy.MoveUp | core/src/strings.c:114-123 | The same for a move to a higher address |
| ReverseCopy.MovedBack | core/src/strings.c:99-137 | Moving back restores a disjoint source; reversing in place twice changes nothing |
| ReverseCopy.ReverseMemcpy | core/src/strings.c:56-97 | The eight-at-a-time copy reverses disjoint regions and does nothing on equal ones |
| ReverseCopy.ReverseMemmove | core/src/strings.c:99-137 | For every two offsets in one buffer, overlapping either way or equal, dest holds the old source reversed and nothing outside dest changes |

## Left out

- Thread pool: null arguments, failed allocation of a submitted task (it returns before the lock is taken), attributes of threads.
- Condition variables: waits of the thread pool and of the message queue are assumed not to fail, except by timeout.
- Reference count: memory ordering, since steps are sequentially consistent; re-initialisation; and the span between the first overflowing read-modify-write and the first poison store. `SaturationIsFinal` starts at that store.
- The backend of the reference count without atomics is modelled section by section; its sections are atomic by the process-wide mutex, which is not itself modelled.
- PairingHeapObject.Heap.InsertNode: requires fewer than 2^32 - 1 nodes, because size_ is 32 bits and the source does not check it.
- PairingHeapObject.Heap.MoveFrom: requires that two different heaps share no node and fit size_ together.
- The heap's comparison callback is a ranking of the nodes by integers, which any total preorder on finitely many nodes has.
- The option parser keeps positions in `int`; argument vectors of 2^31 tokens are not considered. An argument is a string value, not a pointer into the vector.
- OptRoundTrip.ParseUndoesPrint: long names must also be non-empty, since the empty one prints as "--"; an empty argument of a short option must be in its own token, as it could not be told from none.
- Sha1.Context.Update: requires a chunk below the limit of `LoopEndsBelowLimit`; for any other the source does not return.
- Sha1.Sum: requires data below 2^32 bytes, the same limit for an empty buffer.
- The block transforms of SHA-1 and MD5, a parameter here.
- Base64.EncodeChunks: requires room for the whole encoding and its terminator. What an update does that runs out of room is stated by `Encoder.Update`.
- Base64 pointers that are null, and lengths beyond `size_t`.
- ReverseCopy.ReverseMemcpy: requires disjoint or equal regions, as the documentation of the function does. Null pointers, which make both functions return at once, have no counterpart.
- BCD conversion of one byte, hex, stack, array, vector, list, message buffer, publish-subscribe, wait group, shutdown signal: easier members.
- container/src/pqueue.c: its sift-down compares children with the wrong slot, so heap order across pops is not claimed.
- Help and usage printing, date formatting, clocks, local time, threads, thread-local storage, once, semaphores, events.
