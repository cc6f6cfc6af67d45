/**
  The thread pool protocol of thread/src/thpool.c as a state machine.

  One transition is one stretch of code run with the pool lock held, from taking the lock to releasing it
  (by unlocking or by waiting on a condition variable), or one event outside the lock: a timeout, the end of a
  task, or a thread join.  The state keeps sets and sequences only; the source's four counters live in the
  class `ThreadPoolSections.PoolObject`, which refines these transitions.
 */
module ThreadPool {

  type Worker = nat
  type Task = nat

  datatype Config = Config(capacity: nat, idleTimeout: nat, nonBlocking: bool, maxTasks: nat)

  /** Where a worker that is still on the live list is. */
  datatype Phase =
    | Entering                    // about to take the lock: just created, or back from a task
    | Parked                      // waiting on task_cond_, not notified
    | Notified                    // left the wait (signal or broadcast), has not retaken the lock
    | TimedOut                    // left the wait by timeout, has not retaken the lock
    | Running(task: Task)         // executing a task without the lock
    | Joining(stale: set<Worker>) // in the retire path, lock released, joining older workers

  datatype Destroyer = Absent | Ready | Sleeping | Reaping | Freed

  datatype Pool = Pool(
    cfg: Config,
    workers: map<Worker, Phase>, // the live list
    retired: set<Worker>,        // the retired list
    joined: set<Worker>,         // joined and freed
    created: set<Worker>,        // every worker ever created
    queue: seq<Task>,
    closed: bool,
    blocked: set<Task>,          // submitters (named by their task) parked on slot_cond_, not notified
    woken: set<Task>,            // submitters that left the wait but have not retaken the lock
    destroyer: Destroyer,
    seen: set<Task>,             // every task node ever allocated
    accepted: seq<Task>,
    started: seq<Task>,
    finished: set<Task>)

  datatype Creation = Created | NoMemory | NoThread

  datatype Status = Normal | Closed | Overload | MemAlloc | Blocks

  datatype Step =
    | Submit(task: Task, how: Creation, newcomer: Worker, pick: Worker)
    | Resume(task: Task, how: Creation, newcomer: Worker, pick: Worker)
    | Close
    | Dispatch(w: Worker)          // a new, waiting or returning worker takes the lock
    | Expire(w: Worker)            // an idle wait times out, perhaps using up a notification
    | Complete(w: Worker)          // a task returns
    | Join(w: Worker, elder: Worker)
    | RetireEnd(w: Worker)
    | DestroyBegin
    | DestroyCheck
    | Reap(elder: Worker)
    | Free

  function Init(cfg: Config): Pool {
    Pool(cfg, map[], {}, {}, {}, [], false, {}, {}, Absent, {}, [], [], {})
  }

  // ---------- Condition variables ----------

  function Waiting(s: Pool): set<Worker> {
    set w | w in s.workers && (s.workers[w].Parked? || s.workers[w].Notified? || s.workers[w].TimedOut?)
  }

  function ParkedSet(s: Pool): set<Worker> {
    set w | w in s.workers && s.workers[w].Parked?
  }

  /** `ct_cond_signal(&task_cond_)`: one parked worker, `pick`, is notified if there is any. */
  function SignalTask(s: Pool, pick: Worker): Pool {
    if pick in ParkedSet(s) then s.(workers := s.workers[pick := Notified]) else s
  }

  function WakePhase(p: Phase): Phase {
    if p.Parked? then Notified else p
  }

  function BroadcastTask(s: Pool): Pool {
    s.(workers := map w | w in s.workers :: WakePhase(s.workers[w]))
  }

  /** `slot_cond_` carries blocked submitters and the destroyer. */
  function BroadcastSlot(s: Pool): Pool {
    s.(blocked := {}, woken := s.woken + s.blocked,
       destroyer := if s.destroyer.Sleeping? then Ready else s.destroyer)
  }

  // ---------- Lock-held sections ----------

  predicate HasSlot(s: Pool) {
    s.cfg.maxTasks == 0 || |s.queue| < s.cfg.maxTasks
  }

  predicate WantsWorker(s: Pool) {
    Waiting(s) == {} && (s.cfg.capacity == 0 || |s.workers| < s.cfg.capacity)
  }

  function AddWorker(s: Pool, w: Worker): Pool {
    s.(workers := s.workers[w := Entering], created := s.created + {w})
  }

  function Enqueue(s: Pool, t: Task, pick: Worker): Pool {
    SignalTask(s.(queue := s.queue + [t], accepted := s.accepted + [t]), pick)
  }

  /** The body of the submit loop, entered with the lock held. */
  function SubmitBody(s: Pool, t: Task, how: Creation, w: Worker, pick: Worker): (Pool, Status) {
    if s.closed then (s, Closed)
    else if HasSlot(s) then
      if WantsWorker(s) then
        match how
        case NoMemory => (s, MemAlloc)
        case NoThread => (BroadcastSlot(s), MemAlloc)
        case Created => (Enqueue(AddWorker(s, w), t, pick), Normal)
      else (Enqueue(s, t, pick), Normal)
    else if s.cfg.nonBlocking then (s, Overload)
    else (s.(blocked := s.blocked + {t}), Blocks)
  }

  /** A blocked submitter leaves the wait: it stops counting as blocked and may wake the destroyer. */
  function Unblock(s: Pool, t: Task): Pool {
    var s1 := s.(blocked := s.blocked - {t}, woken := s.woken - {t});
    if s1.blocked + s1.woken == {} then BroadcastSlot(s1) else s1
  }

  function TakeTask(s: Pool, w: Worker): Pool
    requires s.queue != []
  {
    var s1 := s.(workers := s.workers[w := Running(s.queue[0])],
                 queue := s.queue[1..],
                 started := s.started + [s.queue[0]]);
    if s.blocked + s.woken != {} then BroadcastSlot(s1) else s1
  }

  function FinishRetire(s: Pool, w: Worker): Pool {
    BroadcastSlot(s.(workers := s.workers - {w}, retired := s.retired + {w}))
  }

  function Retire(s: Pool, w: Worker): Pool {
    if s.retired != {} then s.(workers := s.workers[w := Joining(s.retired)], retired := {})
    else FinishRetire(s, w)
  }

  /** The worker loop from holding the lock to releasing it. */
  function WorkerSection(s: Pool, w: Worker, timedOut: bool): Pool {
    if s.queue != [] then TakeTask(s, w)
    else if s.closed || timedOut then Retire(s, w)
    else s.(workers := s.workers[w := Parked])
  }

  function CloseSection(s: Pool): Pool {
    BroadcastSlot(BroadcastTask(s.(closed := true)))
  }

  // ---------- The transition system ----------

  /** `pick` must be a parked worker when there is one, and a created worker has a new identity. */
  predicate GoodChoice(s: Pool, how: Creation, w: Worker, pick: Worker) {
    && (ParkedSet(s) != {} ==> pick in ParkedSet(s))
    && w !in s.created
  }

  predicate Usable(s: Pool) {
    s.destroyer != Reaping && s.destroyer != Freed
  }

  predicate Enabled(s: Pool, step: Step) {
    match step
    case Submit(t, how, w, pick) => Usable(s) && t !in s.seen && GoodChoice(s, how, w, pick)
    case Resume(t, how, w, pick) => t in s.blocked + s.woken && GoodChoice(s, how, w, pick)
    case Close => Usable(s)
    case Dispatch(w) => w in s.workers && (s.workers[w].Entering? || w in Waiting(s))
    case Expire(w) => w in s.workers && (s.workers[w].Parked? || s.workers[w].Notified?) && s.cfg.idleTimeout > 0
    case Complete(w) => w in s.workers && s.workers[w].Running?
    case Join(w, x) => w in s.workers && s.workers[w].Joining? && x in s.workers[w].stale
    case RetireEnd(w) => w in s.workers && s.workers[w] == Joining({})
    case DestroyBegin => s.destroyer.Absent?
    case DestroyCheck => s.destroyer.Ready? || s.destroyer.Sleeping?
    case Reap(x) => s.destroyer.Reaping? && x in s.retired
    case Free => s.destroyer.Reaping? && s.retired == {}
  }

  function Apply(s: Pool, step: Step): Pool
    requires Enabled(s, step)
  {
    match step
    case Submit(t, how, w, pick) => SubmitBody(s.(seen := s.seen + {t}), t, how, w, pick).0
    case Resume(t, how, w, pick) => SubmitBody(Unblock(s, t), t, how, w, pick).0
    case Close => CloseSection(s)
    case Dispatch(w) => WorkerSection(s, w, s.workers[w].TimedOut?)
    case Expire(w) => s.(workers := s.workers[w := TimedOut])
    case Complete(w) =>
      s.(workers := s.workers[w := Entering], finished := s.finished + {s.workers[w].task})
    case Join(w, x) => s.(workers := s.workers[w := Joining(s.workers[w].stale - {x})], joined := s.joined + {x})
    case RetireEnd(w) => FinishRetire(s, w)
    case DestroyBegin => CloseSection(s).(destroyer := Ready)
    case DestroyCheck =>
      s.(destroyer := if s.workers != map[] || s.blocked + s.woken != {} then Sleeping else Reaping)
    case Reap(x) => s.(retired := s.retired - {x}, joined := s.joined + {x})
    case Free => s.(destroyer := Freed)
  }

  // ---------- What the answers mean ----------

  predicate QueueFull(s: Pool) {
    s.cfg.maxTasks != 0 && |s.queue| >= s.cfg.maxTasks
  }

  /** Nobody waits for a task and one more worker is allowed. */
  predicate NeedsWorker(s: Pool) {
    && (forall w :: w in s.workers ==> !s.workers[w].Parked? && !s.workers[w].Notified? && !s.workers[w].TimedOut?)
    && (s.cfg.capacity == 0 || |s.workers| < s.cfg.capacity)
  }

  /** When a submit that finds `s` must give which answer. */
  predicate RightAnswer(s: Pool, how: Creation, rc: Status) {
    && (rc == Closed <==> s.closed)
    && (rc == Overload <==> !s.closed && QueueFull(s) && s.cfg.nonBlocking)
    && (rc == Blocks <==> !s.closed && QueueFull(s) && !s.cfg.nonBlocking)
    && (rc == MemAlloc <==> !s.closed && !QueueFull(s) && NeedsWorker(s) && how != Created)
    && (rc == Normal <==> !s.closed && !QueueFull(s) && (NeedsWorker(s) ==> how == Created))
  }

  /** What a submit with that answer has done to the pool. */
  predicate SubmitLeaves(s: Pool, s': Pool, t: Task, how: Creation, w: Worker, rc: Status) {
    var newcomer := if rc == Normal && NeedsWorker(s) then {w} else {};
    && (rc == Normal <==> s'.accepted == s.accepted + [t])
    && (rc != Normal ==> s'.accepted == s.accepted)
    && s'.queue == s.queue + (if rc == Normal then [t] else [])
    && s'.blocked + s'.woken == s.blocked + s.woken - {t} + (if rc == Blocks then {t} else {})
    && s'.blocked == (if rc == MemAlloc && how == NoThread then {} else s.blocked - {t}) + (if rc == Blocks then {t} else {})
    && s'.created == s.created + newcomer && s'.workers.Keys == s.workers.Keys + newcomer
  }

  /** A submit found `s`, left `s'` and answered `rc`. */
  predicate Answered(s: Pool, s': Pool, t: Task, how: Creation, w: Worker, rc: Status) {
    RightAnswer(s, how, rc) && SubmitLeaves(s, s', t, how, w, rc)
  }

  // ---------- Invariants ----------

  predicate NoDuplicates<T(==)>(xs: seq<T>) {
    forall i, j :: 0 <= i < j < |xs| ==> xs[i] != xs[j]
  }

  function Elements<T>(xs: seq<T>): set<T> {
    set x | x in xs
  }

  /** The workers the source's limits speak of, and the queue bound. */
  predicate Bounded(s: Pool) {
    && (s.cfg.capacity != 0 ==> |s.workers| <= s.cfg.capacity)
    && (s.cfg.maxTasks != 0 ==> |s.queue| <= s.cfg.maxTasks)
  }

  predicate IsRunning(s: Pool, w: Worker, t: Task) {
    w in s.workers && s.workers[w] == Running(t)
  }

  /** Every accepted task is queued, running or finished, exactly one of them, and starts in order. */
  ghost predicate TasksAccounted(s: Pool) {
    && s.accepted == s.started + s.queue
    && NoDuplicates(s.accepted)
    && (forall t :: t in s.accepted ==> t in s.seen)
    && s.blocked + s.woken <= s.seen
    && s.blocked !! s.woken
    && (forall t :: t in s.blocked + s.woken ==> t !in s.accepted)
    && (forall t :: t in s.finished ==> t in s.started)
    && (forall w, t :: IsRunning(s, w, t) ==> t in s.started && t !in s.finished)
    && (forall w, v, t :: IsRunning(s, w, t) && IsRunning(s, v, t) ==> w == v)
    && (forall t :: t in s.started && t !in s.finished ==> exists w :: IsRunning(s, w, t))
  }

  predicate IsStale(s: Pool, w: Worker, x: Worker) {
    w in s.workers && s.workers[w].Joining? && x in s.workers[w].stale
  }

  /** Every created worker is live, retired, on exactly one stale list, or joined, and only one of these. */
  ghost predicate WorkersAccounted(s: Pool) {
    && s.workers.Keys !! s.retired !! s.joined
    && s.workers.Keys + s.retired + s.joined <= s.created
    && (forall w, x :: IsStale(s, w, x) ==>
          x in s.created && x !in s.workers && x !in s.retired && x !in s.joined)
    && (forall w, v, x :: IsStale(s, w, x) && IsStale(s, v, x) ==> w == v)
    && (forall x :: x in s.created && x !in s.workers && x !in s.retired && x !in s.joined ==>
          exists w :: IsStale(s, w, x))
  }

  /** No lost wakeup: who may be parked without a notification, and when. */
  predicate WaitersSound(s: Pool) {
    && (s.blocked != {} ==>
          !s.closed && !s.cfg.nonBlocking && s.cfg.maxTasks != 0 && |s.queue| == s.cfg.maxTasks)
    && (s.closed ==> forall w :: w in s.workers ==> !s.workers[w].Parked?)
    && (s.destroyer != Absent ==> s.closed)
    && (s.destroyer.Sleeping? ==> s.workers != map[] || s.blocked + s.woken != {})
    && (!Usable(s) ==> s.workers == map[] && s.blocked + s.woken == {})
    && (s.destroyer.Freed? ==> s.retired == {})
  }

  ghost predicate Inv(s: Pool) {
    Bounded(s) && TasksAccounted(s) && WorkersAccounted(s) && WaitersSound(s)
  }

  /** A worker that will look at the queue again without being notified. */
  predicate Active(s: Pool, w: Worker) {
    w in s.workers && !s.workers[w].Parked? && !s.workers[w].Joining?
  }

  ghost predicate NotStranded(s: Pool) {
    s.queue != [] ==> exists w :: Active(s, w)
  }

  /** The configurations in which no task is ever stranded. */
  predicate Safe(cfg: Config) {
    cfg.idleTimeout == 0 || cfg.capacity == 0
  }

  ghost predicate LiveInv(s: Pool) {
    && NotStranded(s)
    && (s.cfg.idleTimeout == 0 ==>
          forall w :: w in s.workers ==>
            !s.workers[w].TimedOut? && (s.workers[w].Joining? ==> s.closed))
  }
}
