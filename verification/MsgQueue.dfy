/**
  The closable bounded message queue of sync/src/msgqueue.c.  One transition is one stretch of code run with
  `mutex_` held, or a timeout of a waiter, notified or not, which then has to take `mutex_` to leave.
 */
module MsgQueue {

  type Tid = nat
  type Item = int

  datatype State = State(
    max: nat,
    items: seq<Item>,
    shut: bool,
    parkedPoppers: set<Tid>,  // waiting on not_empty_, not notified
    wokenPoppers: set<Tid>,   // notified, mutex not retaken yet
    expiredPoppers: set<Tid>, // out of that wait by timeout, mutex not retaken yet
    parkedPushers: set<Tid>,  // the same for not_full_
    wokenPushers: set<Tid>,
    expiredPushers: set<Tid>,
    pushed: seq<Item>,        // history: every item a push reported as accepted
    popped: seq<Item>)        // history: every item a pop delivered

  datatype Status = Ok | Pipe | Again | TimedOut | Waits

  /** A wait may be refused (timeout 0), or the deadline may be found to have passed when the loop is run. */
  datatype Patience = Refuse | Late | Wait

  datatype Step =
    | TryPush(t: Tid, x: Item, pick: Tid)
    | TryPop(t: Tid, pick: Tid)
    | Push(t: Tid, x: Item, p: Patience, pick: Tid)
    | Pop(t: Tid, p: Patience, pick: Tid)
    | PushWake(t: Tid, x: Item, p: Patience, pick: Tid)
    | PopWake(t: Tid, p: Patience, pick: Tid)
    | PushTimeout(t: Tid) // the wait ends by timeout, though a notification may have arrived
    | PopTimeout(t: Tid)
    | PushGiveUp(t: Tid)  // and the call returns with the mutex retaken, without another look at the queue
    | PopGiveUp(t: Tid)
    | Close

  function Init(max: nat): State {
    State(max, [], false, {}, {}, {}, {}, {}, {}, [], [])
  }

  function Inside(s: State): set<Tid> {
    s.parkedPoppers + s.wokenPoppers + s.expiredPoppers + s.parkedPushers + s.wokenPushers + s.expiredPushers
  }

  function SignalNotEmpty(s: State, pick: Tid): State {
    if pick in s.parkedPoppers
    then s.(parkedPoppers := s.parkedPoppers - {pick}, wokenPoppers := s.wokenPoppers + {pick})
    else s
  }

  function SignalNotFull(s: State, pick: Tid): State {
    if pick in s.parkedPushers
    then s.(parkedPushers := s.parkedPushers - {pick}, wokenPushers := s.wokenPushers + {pick})
    else s
  }

  function Enqueue(s: State, x: Item, pick: Tid): State {
    SignalNotEmpty(s.(items := s.items + [x], pushed := s.pushed + [x]), pick)
  }

  function Dequeue(s: State, pick: Tid): State
    requires s.items != []
  {
    SignalNotFull(s.(items := s.items[1..], popped := s.popped + [s.items[0]]), pick)
  }

  /** `msgqueue_wait_not_full` from holding the mutex, and the enqueue after it. */
  function PushLoop(s: State, t: Tid, x: Item, p: Patience, pick: Tid): (State, Status) {
    if |s.items| == s.max then
      if s.shut then (s, Pipe)
      else if p == Refuse || p == Late then (s, TimedOut)
      else (s.(parkedPushers := s.parkedPushers + {t}), Waits)
    else if s.shut then (s, Pipe)
    else (Enqueue(s, x, pick), Ok)
  }

  function PopLoop(s: State, t: Tid, p: Patience, pick: Tid): (State, Status) {
    if s.items == [] then
      if s.shut then (s, Pipe)
      else if p == Refuse || p == Late then (s, TimedOut)
      else (s.(parkedPoppers := s.parkedPoppers + {t}), Waits)
    else if s.shut then (s, Pipe)
    else (Dequeue(s, pick), Ok)
  }

  function LeavePush(s: State, t: Tid): State {
    s.(parkedPushers := s.parkedPushers - {t}, wokenPushers := s.wokenPushers - {t})
  }

  function LeavePop(s: State, t: Tid): State {
    s.(parkedPoppers := s.parkedPoppers - {t}, wokenPoppers := s.wokenPoppers - {t})
  }

  function CloseSection(s: State): State {
    if s.shut then s
    else s.(shut := true,
            parkedPoppers := {}, wokenPoppers := s.wokenPoppers + s.parkedPoppers,
            parkedPushers := {}, wokenPushers := s.wokenPushers + s.parkedPushers)
  }

  predicate PicksPopper(s: State, pick: Tid) {
    s.parkedPoppers != {} ==> pick in s.parkedPoppers
  }

  predicate PicksPusher(s: State, pick: Tid) {
    s.parkedPushers != {} ==> pick in s.parkedPushers
  }

  predicate Enabled(s: State, step: Step) {
    match step
    case TryPush(t, x, pick) => t !in Inside(s) && PicksPopper(s, pick)
    case TryPop(t, pick) => t !in Inside(s) && PicksPusher(s, pick)
    case Push(t, x, p, pick) => t !in Inside(s) && PicksPopper(s, pick)
    case Pop(t, p, pick) => t !in Inside(s) && PicksPusher(s, pick)
    case PushWake(t, x, p, pick) => t in s.parkedPushers + s.wokenPushers && PicksPopper(s, pick) && p != Refuse
    case PopWake(t, p, pick) => t in s.parkedPoppers + s.wokenPoppers && PicksPusher(s, pick) && p != Refuse
    case PushTimeout(t) => t in s.parkedPushers + s.wokenPushers
    case PopTimeout(t) => t in s.parkedPoppers + s.wokenPoppers
    case PushGiveUp(t) => t in s.expiredPushers
    case PopGiveUp(t) => t in s.expiredPoppers
    case Close => true
  }

  function Apply(s: State, step: Step): (State, Status)
    requires Enabled(s, step)
  {
    match step
    case TryPush(t, x, pick) =>
      if s.shut then (s, Pipe) else if |s.items| == s.max then (s, Again) else (Enqueue(s, x, pick), Ok)
    case TryPop(t, pick) =>
      if s.shut then (s, Pipe) else if s.items == [] then (s, Again) else (Dequeue(s, pick), Ok)
    case Push(t, x, p, pick) => if s.shut then (s, Pipe) else PushLoop(s, t, x, p, pick)
    case Pop(t, p, pick) => if s.shut then (s, Pipe) else PopLoop(s, t, p, pick)
    case PushWake(t, x, p, pick) => PushLoop(LeavePush(s, t), t, x, p, pick)
    case PopWake(t, p, pick) => PopLoop(LeavePop(s, t), t, p, pick)
    case PushTimeout(t) => (LeavePush(s, t).(expiredPushers := s.expiredPushers + {t}), Waits)
    case PopTimeout(t) => (LeavePop(s, t).(expiredPoppers := s.expiredPoppers + {t}), Waits)
    case PushGiveUp(t) => (s.(expiredPushers := s.expiredPushers - {t}), TimedOut)
    case PopGiveUp(t) => (s.(expiredPoppers := s.expiredPoppers - {t}), TimedOut)
    case Close => (CloseSection(s), Ok)
  }

  // ---------- Invariants ----------

  predicate Bounded(s: State) {
    && 0 < s.max && |s.items| <= s.max
    && s.pushed == s.popped + s.items
  }

  /** A waiter is in one place, and none is parked once the queue is closed. */
  predicate Apart(s: State) {
    && s.parkedPoppers !! s.wokenPoppers && s.parkedPoppers + s.wokenPoppers !! s.expiredPoppers
    && s.parkedPushers !! s.wokenPushers && s.parkedPushers + s.wokenPushers !! s.expiredPushers
    && (s.shut ==> s.parkedPoppers == {} && s.parkedPushers == {})
  }

  predicate Inv(s: State) {
    Bounded(s) && Apart(s)
  }

  /** `leaving` poppers have just left their wait and are about to use what they were notified of. */
  predicate PoppersServed(s: State, leaving: nat) {
    s.parkedPoppers != {} ==> |s.items| <= |s.wokenPoppers| + leaving
  }

  predicate PushersServed(s: State, leaving: nat) {
    s.parkedPushers != {} ==> s.max - |s.items| <= |s.wokenPushers| + leaving
  }

  /** No lost wakeup: un-notified waiters are outnumbered by what would let them go on only as far as there are
      notified threads to use it. */
  predicate Served(s: State) {
    PoppersServed(s, 0) && PushersServed(s, 0)
  }

  /** A timeout that uses up a notification which nobody else was going to get. */
  predicate Forgets(s: State, step: Step) {
    || (step.PopTimeout? && step.t in s.wokenPoppers && s.parkedPoppers != {} && |s.items| == |s.wokenPoppers|)
    || (step.PushTimeout? && step.t in s.wokenPushers && s.parkedPushers != {} && s.max - |s.items| == |s.wokenPushers|)
  }

  lemma InitInv(max: nat)
    requires max > 0
    ensures Inv(Init(max)) && Served(Init(max))
  {}

  lemma EnqueueSound(s: State, x: Item, pick: Tid)
    requires Inv(s) && |s.items| < s.max && PicksPopper(s, pick)
    ensures Inv(Enqueue(s, x, pick))
    ensures PoppersServed(s, 0) && PushersServed(s, 1) ==> Served(Enqueue(s, x, pick))
  {
    assert s.pushed + [x] == s.popped + (s.items + [x]);
    if pick in s.parkedPoppers {
      assert |s.wokenPoppers + {pick}| == |s.wokenPoppers| + 1;
    }
  }

  lemma DequeueSound(s: State, pick: Tid)
    requires Inv(s) && s.items != [] && PicksPusher(s, pick)
    ensures Inv(Dequeue(s, pick))
    ensures PoppersServed(s, 1) && PushersServed(s, 0) ==> Served(Dequeue(s, pick))
  {
    assert s.popped + [s.items[0]] + s.items[1..] == s.pushed;
    if pick in s.parkedPushers {
      assert |s.wokenPushers + {pick}| == |s.wokenPushers| + 1;
    }
  }

  lemma PushLoopSound(s: State, t: Tid, x: Item, p: Patience, pick: Tid)
    requires Inv(s) && PicksPopper(s, pick) && t !in s.parkedPushers + s.wokenPushers + s.expiredPushers
    ensures Inv(PushLoop(s, t, x, p, pick).0)
    ensures PoppersServed(s, 0) && PushersServed(s, 1) ==> Served(PushLoop(s, t, x, p, pick).0)
  {
    if |s.items| < s.max {
      EnqueueSound(s, x, pick);
    }
  }

  lemma PopLoopSound(s: State, t: Tid, p: Patience, pick: Tid)
    requires Inv(s) && PicksPusher(s, pick) && t !in s.parkedPoppers + s.wokenPoppers + s.expiredPoppers
    ensures Inv(PopLoop(s, t, p, pick).0)
    ensures PoppersServed(s, 1) && PushersServed(s, 0) ==> Served(PopLoop(s, t, p, pick).0)
  {
    if s.items != [] {
      DequeueSound(s, pick);
    }
  }

  lemma LeavePushSound(s: State, t: Tid)
    requires Inv(s) && t in s.parkedPushers + s.wokenPushers
    ensures var s1 := LeavePush(s, t);
            && Inv(s1) && t !in s1.parkedPushers + s1.wokenPushers + s1.expiredPushers
            && |s1.wokenPushers| == |s.wokenPushers| - (if t in s.wokenPushers then 1 else 0)
            && s1.parkedPushers <= s.parkedPushers && (t in s.wokenPushers ==> s1.parkedPushers == s.parkedPushers)
            && s1 == s.(parkedPushers := s1.parkedPushers, wokenPushers := s1.wokenPushers)
  {
    if t in s.parkedPushers {
      assert s.wokenPushers - {t} == s.wokenPushers;
    } else {
      assert s.parkedPushers - {t} == s.parkedPushers;
    }
  }

  lemma LeavePopSound(s: State, t: Tid)
    requires Inv(s) && t in s.parkedPoppers + s.wokenPoppers
    ensures var s1 := LeavePop(s, t);
            && Inv(s1) && t !in s1.parkedPoppers + s1.wokenPoppers + s1.expiredPoppers
            && |s1.wokenPoppers| == |s.wokenPoppers| - (if t in s.wokenPoppers then 1 else 0)
            && s1.parkedPoppers <= s.parkedPoppers && (t in s.wokenPoppers ==> s1.parkedPoppers == s.parkedPoppers)
            && s1 == s.(parkedPoppers := s1.parkedPoppers, wokenPoppers := s1.wokenPoppers)
  {
    if t in s.parkedPoppers {
      assert s.wokenPoppers - {t} == s.wokenPoppers;
    } else {
      assert s.parkedPoppers - {t} == s.parkedPoppers;
    }
  }

  lemma CallSound(s: State, step: Step)
    requires Inv(s) && Enabled(s, step) && (step.TryPush? || step.TryPop? || step.Push? || step.Pop?)
    ensures Inv(Apply(s, step).0) && (Served(s) ==> Served(Apply(s, step).0))
  {
    match step
    case TryPush(t, x, pick) => PushLoopSound(s, t, x, Refuse, pick);
    case TryPop(t, pick) => PopLoopSound(s, t, Refuse, pick);
    case Push(t, x, p, pick) => PushLoopSound(s, t, x, p, pick);
    case Pop(t, p, pick) => PopLoopSound(s, t, p, pick);
  }

  lemma WakeSound(s: State, step: Step)
    requires Inv(s) && Enabled(s, step) && (step.PushWake? || step.PopWake?)
    ensures Inv(Apply(s, step).0) && (Served(s) ==> Served(Apply(s, step).0))
  {
    match step
    case PushWake(t, x, p, pick) =>
      LeavePushSound(s, t);
      PushLoopSound(LeavePush(s, t), t, x, p, pick);
    case PopWake(t, p, pick) =>
      LeavePopSound(s, t);
      PopLoopSound(LeavePop(s, t), t, p, pick);
  }

  lemma PushTimeoutSound(s: State, t: Tid)
    requires Inv(s) && t in s.parkedPushers + s.wokenPushers
    ensures var s' := Apply(s, PushTimeout(t)).0;
            Inv(s') && (Served(s) ==> (Served(s') <==> !Forgets(s, PushTimeout(t))))
  {
    hide LeavePush;
    LeavePushSound(s, t);
  }

  lemma PopTimeoutSound(s: State, t: Tid)
    requires Inv(s) && t in s.parkedPoppers + s.wokenPoppers
    ensures var s' := Apply(s, PopTimeout(t)).0;
            Inv(s') && (Served(s) ==> (Served(s') <==> !Forgets(s, PopTimeout(t))))
  {
    hide LeavePop;
    LeavePopSound(s, t);
  }

  lemma LeaveSound(s: State, step: Step)
    requires Inv(s) && Enabled(s, step) && (step.PushGiveUp? || step.PopGiveUp? || step.Close?)
    ensures Inv(Apply(s, step).0) && (Served(s) ==> Served(Apply(s, step).0))
  {}

  lemma StepSound(s: State, step: Step)
    requires Inv(s) && Enabled(s, step)
    ensures Inv(Apply(s, step).0)
    ensures Served(s) ==> (Served(Apply(s, step).0) <==> !Forgets(s, step))
  {
    hide Inv, Served, Apply;
    match step
    case PushWake(_, _, _, _) => WakeSound(s, step);
    case PopWake(_, _, _) => WakeSound(s, step);
    case PushTimeout(t) => PushTimeoutSound(s, t);
    case PopTimeout(t) => PopTimeoutSound(s, t);
    case PushGiveUp(_) => LeaveSound(s, step);
    case PopGiveUp(_) => LeaveSound(s, step);
    case Close => LeaveSound(s, step);
    case _ => CallSound(s, step);
  }

  // ---------- Whole runs ----------

  ghost predicate ValidRun(s: State, steps: seq<Step>)
    decreases |steps|
  {
    steps != [] ==> Enabled(s, steps[0]) && ValidRun(Apply(s, steps[0]).0, steps[1..])
  }

  function After(s: State, steps: seq<Step>): State
    requires ValidRun(s, steps)
    decreases |steps|
  {
    if steps == [] then s else After(Apply(s, steps[0]).0, steps[1..])
  }

  lemma {:induction false} RunInv(s: State, steps: seq<Step>)
    requires Inv(s) && ValidRun(s, steps)
    ensures Inv(After(s, steps))
    decreases |steps|
  {
    hide Inv, Apply, Enabled, Served, Forgets;
    if steps != [] {
      StepSound(s, steps[0]);
      RunInv(Apply(s, steps[0]).0, steps[1..]);
    }
  }

  /** The items popped are the first of the items pushed, in order, in every run. */
  lemma PopsArePrefixOfPushes(max: nat, steps: seq<Step>)
    requires max > 0 && ValidRun(Init(max), steps)
    ensures var s := After(Init(max), steps); s.popped <= s.pushed && s.pushed == s.popped + s.items && |s.items| <= s.max
  {
    InitInv(max);
    RunInv(Init(max), steps);
  }

  ghost predicate AlwaysServed(s: State, steps: seq<Step>)
    requires ValidRun(s, steps)
    decreases |steps|
  {
    Served(s) && (steps != [] ==> AlwaysServed(Apply(s, steps[0]).0, steps[1..]))
  }

  ghost predicate NeverForgets(s: State, steps: seq<Step>)
    requires ValidRun(s, steps)
    decreases |steps|
  {
    steps != [] ==> !Forgets(s, steps[0]) && NeverForgets(Apply(s, steps[0]).0, steps[1..])
  }

  lemma {:induction false} ServedRun(s: State, steps: seq<Step>)
    requires Inv(s) && Served(s) && ValidRun(s, steps)
    ensures AlwaysServed(s, steps) <==> NeverForgets(s, steps)
    decreases |steps|
  {
    hide Inv, Apply, Enabled, Served, Forgets;
    if steps != [] {
      StepSound(s, steps[0]);
      var s' := Apply(s, steps[0]).0;
      if Served(s') {
        ServedRun(s', steps[1..]);
      }
    }
  }

  /** In a run no waiter is ever forgotten, a popper with items to spare or a pusher with room to spare, exactly
      when no timeout in it uses up a notification that was needed. */
  lemma NobodyForgotten(max: nat, steps: seq<Step>)
    requires max > 0 && ValidRun(Init(max), steps)
    ensures AlwaysServed(Init(max), steps) <==> NeverForgets(Init(max), steps)
  {
    InitInv(max);
    ServedRun(Init(max), steps);
  }

  lemma {:induction false} LastServed(s: State, steps: seq<Step>)
    requires ValidRun(s, steps) && AlwaysServed(s, steps)
    ensures Served(After(s, steps))
    decreases |steps|
  {
    if steps != [] {
      LastServed(Apply(s, steps[0]).0, steps[1..]);
    }
  }

  /** A timeout that leaves alone waiters that were notified forgets nobody; untimed waits have no timeouts at all. */
  ghost predicate TimeoutsAreIdle(s: State, steps: seq<Step>)
    requires ValidRun(s, steps)
    decreases |steps|
  {
    steps != [] ==>
      && (steps[0].PopTimeout? ==> steps[0].t in s.parkedPoppers)
      && (steps[0].PushTimeout? ==> steps[0].t in s.parkedPushers)
      && TimeoutsAreIdle(Apply(s, steps[0]).0, steps[1..])
  }

  lemma {:induction false} IdleTimeoutsForgetNobody(s: State, steps: seq<Step>)
    requires Inv(s) && ValidRun(s, steps) && TimeoutsAreIdle(s, steps)
    ensures NeverForgets(s, steps)
    decreases |steps|
  {
    hide Apply, Enabled;
    if steps != [] {
      StepSound(s, steps[0]);
      IdleTimeoutsForgetNobody(Apply(s, steps[0]).0, steps[1..]);
    }
  }

  /** Where timeouts and notifications exclude each other: a popper (pusher) is parked without a notification only
      while the queue is open and the items (free slots) are no more than the notified poppers (pushers). */
  lemma NobodyForgottenIdly(max: nat, steps: seq<Step>)
    requires max > 0 && ValidRun(Init(max), steps) && TimeoutsAreIdle(Init(max), steps)
    ensures var s := After(Init(max), steps);
            && (s.parkedPoppers != {} ==> !s.shut && |s.items| <= |s.wokenPoppers|)
            && (s.parkedPushers != {} ==> !s.shut && s.max - |s.items| <= |s.wokenPushers|)
  {
    InitInv(max);
    RunInv(Init(max), steps);
    IdleTimeoutsForgetNobody(Init(max), steps);
    NobodyForgotten(max, steps);
    LastServed(Init(max), steps);
  }

  lemma ConsRun(s: State, step: Step, rest: seq<Step>)
    requires Enabled(s, step) && ValidRun(Apply(s, step).0, rest)
    ensures ValidRun(s, [step] + rest) && After(s, [step] + rest) == After(Apply(s, step).0, rest)
  {
    assert ([step] + rest)[1..] == rest;
  }

  /** Two timed pops wait, a push notifies the first, and that one times out all the same: the item lies there and
      the second popper is not told. */
  lemma ForgettingRun(max: nat, x: Item) returns (steps: seq<Step>)
    requires max > 0
    ensures ValidRun(Init(max), steps)
    ensures var s := After(Init(max), steps);
            s.items == [x] && s.parkedPoppers != {} && s.wokenPoppers == {} && s.expiredPoppers == {} && !s.shut
  {
    var s0 := Init(max);
    var s1 := s0.(parkedPoppers := {1});
    var s2 := s0.(parkedPoppers := {1, 2});
    var s3 := s0.(parkedPoppers := {2}, wokenPoppers := {1}, items := [x], pushed := [x]);
    var s4 := s0.(parkedPoppers := {2}, expiredPoppers := {1}, items := [x], pushed := [x]);
    var s5 := s0.(parkedPoppers := {2}, items := [x], pushed := [x]);
    assert Apply(s0, Pop(1, Wait, 0)).0 == s1;
    assert Apply(s1, Pop(2, Wait, 0)).0 == s2;
    assert Apply(s2, Push(3, x, Wait, 1)).0 == s3;
    assert Apply(s3, PopTimeout(1)).0 == s4;
    assert Apply(s4, PopGiveUp(1)).0 == s5;
    steps := [PopGiveUp(1)];
    ConsRun(s4, PopGiveUp(1), []);
    ConsRun(s3, PopTimeout(1), steps);
    steps := [PopTimeout(1)] + steps;
    ConsRun(s2, Push(3, x, Wait, 1), steps);
    steps := [Push(3, x, Wait, 1)] + steps;
    ConsRun(s1, Pop(2, Wait, 0), steps);
    steps := [Pop(2, Wait, 0)] + steps;
    ConsRun(s0, Pop(1, Wait, 0), steps);
    steps := [Pop(1, Wait, 0)] + steps;
  }

  lemma ClosedStep(s: State, step: Step)
    requires s.shut && Enabled(s, step)
    ensures var (s', rc) := Apply(s, step);
            && s'.shut && s'.pushed == s.pushed && s'.popped == s.popped && s'.items == s.items
            && (rc == Ok <==> step.Close?) && (rc == Waits <==> step.PushTimeout? || step.PopTimeout?) && rc != Again
  {
  }

  /** A closed queue stays closed, and nothing is pushed or popped any more. */
  lemma {:induction false} NothingAfterClose(s: State, steps: seq<Step>)
    requires s.shut && ValidRun(s, steps)
    ensures var s' := After(s, steps); s'.shut && s'.pushed == s.pushed && s'.popped == s.popped && s'.items == s.items
    decreases |steps|
  {
    if steps != [] {
      ClosedStep(s, steps[0]);
      NothingAfterClose(Apply(s, steps[0]).0, steps[1..]);
    }
  }

  /** What a successful call has done. */
  lemma OkMeansTransferred(s: State, step: Step)
    requires Enabled(s, step) && Apply(s, step).1 == Ok
    ensures var s' := Apply(s, step).0;
            match step
            case TryPush(_, x, _) => s'.pushed == s.pushed + [x] && s'.popped == s.popped && |s.items| != s.max
            case Push(_, x, _, _) => s'.pushed == s.pushed + [x] && s'.popped == s.popped && |s.items| != s.max
            case PushWake(_, x, _, _) => s'.pushed == s.pushed + [x] && s'.popped == s.popped && |s.items| != s.max
            case Close => s'.pushed == s.pushed && s'.popped == s.popped
            case _ => s.items != [] && s'.popped == s.popped + [s.items[0]] && s'.pushed == s.pushed
  {
  }

  // ---------- What the answers mean ----------

  /** Thread `t` is out of a wait to push. */
  function PusherOut(s: State, t: Tid): State {
    s.(parkedPushers := s.parkedPushers - {t}, wokenPushers := s.wokenPushers - {t},
       expiredPushers := s.expiredPushers - {t})
  }

  function PopperOut(s: State, t: Tid): State {
    s.(parkedPoppers := s.parkedPoppers - {t}, wokenPoppers := s.wokenPoppers - {t},
       expiredPoppers := s.expiredPoppers - {t})
  }

  predicate Full(s: State) {
    |s.items| >= s.max
  }

  /** A push that is out of any wait found `s` and left `s'`. */
  predicate PushLeaves(s: State, s': State, t: Tid, x: Item, pick: Tid, rc: Status) {
    && s'.items == (if rc == Ok then s.items + [x] else s.items)
    && s'.pushed == (if rc == Ok then s.pushed + [x] else s.pushed)
    && s'.parkedPoppers == (if rc == Ok && pick in s.parkedPoppers then s.parkedPoppers - {pick} else s.parkedPoppers)
    && s'.wokenPoppers == (if rc == Ok && pick in s.parkedPoppers then s.wokenPoppers + {pick} else s.wokenPoppers)
    && s'.parkedPushers == (if rc == Waits then s.parkedPushers + {t} else s.parkedPushers)
    && s' == s.(items := s'.items, pushed := s'.pushed, parkedPoppers := s'.parkedPoppers,
                wokenPoppers := s'.wokenPoppers, parkedPushers := s'.parkedPushers)
  }

  predicate PopLeaves(s: State, s': State, t: Tid, pick: Tid, rc: Status) {
    && (rc == Ok ==> s.items != [] && [s.items[0]] + s'.items == s.items && s'.popped == s.popped + [s.items[0]])
    && (rc != Ok ==> s'.items == s.items && s'.popped == s.popped)
    && s'.parkedPushers == (if rc == Ok && pick in s.parkedPushers then s.parkedPushers - {pick} else s.parkedPushers)
    && s'.wokenPushers == (if rc == Ok && pick in s.parkedPushers then s.wokenPushers + {pick} else s.wokenPushers)
    && s'.parkedPoppers == (if rc == Waits then s.parkedPoppers + {t} else s.parkedPoppers)
    && s' == s.(items := s'.items, popped := s'.popped, parkedPushers := s'.parkedPushers,
                wokenPushers := s'.wokenPushers, parkedPoppers := s'.parkedPoppers)
  }

  predicate PushMeans(s: State, s': State, t: Tid, x: Item, p: Patience, pick: Tid, rc: Status) {
    && (rc == Pipe <==> s.shut)
    && (rc == Ok <==> !s.shut && !Full(s))
    && (rc == TimedOut <==> !s.shut && Full(s) && p != Wait)
    && (rc == Waits <==> !s.shut && Full(s) && p == Wait)
    && PushLeaves(s, s', t, x, pick, rc)
  }

  predicate PopMeans(s: State, s': State, t: Tid, p: Patience, pick: Tid, rc: Status) {
    && (rc == Pipe <==> s.shut)
    && (rc == Ok <==> !s.shut && s.items != [])
    && (rc == TimedOut <==> !s.shut && s.items == [] && p != Wait)
    && (rc == Waits <==> !s.shut && s.items == [] && p == Wait)
    && PopLeaves(s, s', t, pick, rc)
  }

  predicate TryPushMeans(s: State, s': State, t: Tid, x: Item, pick: Tid, rc: Status) {
    && (rc == Pipe <==> s.shut)
    && (rc == Ok <==> !s.shut && !Full(s))
    && (rc == Again <==> !s.shut && Full(s))
    && PushLeaves(s, s', t, x, pick, rc)
  }

  predicate TryPopMeans(s: State, s': State, t: Tid, pick: Tid, rc: Status) {
    && (rc == Pipe <==> s.shut)
    && (rc == Ok <==> !s.shut && s.items != [])
    && (rc == Again <==> !s.shut && s.items == [])
    && PopLeaves(s, s', t, pick, rc)
  }

  /** Closing tells every waiter, the first time. */
  predicate CloseMeans(s: State, s': State, rc: Status) {
    && rc == Ok && s'.shut
    && (s.shut ==> s' == s)
    && (!s.shut ==> s' == s.(shut := true, parkedPoppers := {}, wokenPoppers := s.wokenPoppers + s.parkedPoppers,
                             parkedPushers := {}, wokenPushers := s.wokenPushers + s.parkedPushers))
  }

  /** What the answer to each call says about the queue it found and the queue it left. */
  predicate Means(s: State, step: Step, s': State, rc: Status) {
    match step
    case TryPush(t, x, pick) => TryPushMeans(s, s', t, x, pick, rc)
    case TryPop(t, pick) => TryPopMeans(s, s', t, pick, rc)
    case Push(t, x, p, pick) => PushMeans(s, s', t, x, p, pick, rc)
    case Pop(t, p, pick) => PopMeans(s, s', t, p, pick, rc)
    case PushWake(t, x, p, pick) => PushMeans(PusherOut(s, t), s', t, x, p, pick, rc)
    case PopWake(t, p, pick) => PopMeans(PopperOut(s, t), s', t, p, pick, rc)
    case PushTimeout(t) => rc == Waits && s' == PusherOut(s, t).(expiredPushers := s.expiredPushers + {t})
    case PopTimeout(t) => rc == Waits && s' == PopperOut(s, t).(expiredPoppers := s.expiredPoppers + {t})
    case PushGiveUp(t) => rc == TimedOut && s' == PusherOut(s, t)
    case PopGiveUp(t) => rc == TimedOut && s' == PopperOut(s, t)
    case Close => CloseMeans(s, s', rc)
  }

  lemma PushAnswers(s: State, t: Tid, x: Item, p: Patience, pick: Tid)
    requires |s.items| <= s.max
    ensures var (s', rc) := PushLoop(s, t, x, p, pick); PushMeans(s, s', t, x, p, pick, rc)
  {}

  lemma PopAnswers(s: State, t: Tid, p: Patience, pick: Tid)
    ensures var (s', rc) := PopLoop(s, t, p, pick); PopMeans(s, s', t, p, pick, rc)
  {}

  lemma CallAnswers(s: State, step: Step)
    requires |s.items| <= s.max && Enabled(s, step) && (step.TryPush? || step.TryPop? || step.Push? || step.Pop?)
    ensures Means(s, step, Apply(s, step).0, Apply(s, step).1)
  {
    match step
    case Push(t, x, p, pick) => PushAnswers(s, t, x, p, pick);
    case Pop(t, p, pick) => PopAnswers(s, t, p, pick);
    case _ =>
  }

  lemma PusherLeaves(s: State, t: Tid)
    requires Apart(s) && t in s.parkedPushers + s.wokenPushers + s.expiredPushers
    ensures t in s.parkedPushers + s.wokenPushers ==> PusherOut(s, t) == LeavePush(s, t)
    ensures t in s.expiredPushers ==> PusherOut(s, t) == s.(expiredPushers := s.expiredPushers - {t})
  {
    assert t !in s.parkedPushers ==> s.parkedPushers - {t} == s.parkedPushers;
    assert t !in s.wokenPushers ==> s.wokenPushers - {t} == s.wokenPushers;
    assert t !in s.expiredPushers ==> s.expiredPushers - {t} == s.expiredPushers;
  }

  lemma PopperLeaves(s: State, t: Tid)
    requires Apart(s) && t in s.parkedPoppers + s.wokenPoppers + s.expiredPoppers
    ensures t in s.parkedPoppers + s.wokenPoppers ==> PopperOut(s, t) == LeavePop(s, t)
    ensures t in s.expiredPoppers ==> PopperOut(s, t) == s.(expiredPoppers := s.expiredPoppers - {t})
  {
    assert t !in s.parkedPoppers ==> s.parkedPoppers - {t} == s.parkedPoppers;
    assert t !in s.wokenPoppers ==> s.wokenPoppers - {t} == s.wokenPoppers;
    assert t !in s.expiredPoppers ==> s.expiredPoppers - {t} == s.expiredPoppers;
  }

  lemma OutKeeps(s: State, t: Tid)
    ensures PusherOut(s, t).items == PopperOut(s, t).items == s.items
    ensures PusherOut(s, t).max == PopperOut(s, t).max == s.max
  {}

  lemma CloseAnswers(s: State)
    ensures CloseMeans(s, CloseSection(s), Ok)
  {}

  /** Every answer means what `Means` says, at every step. */
  lemma AnswersMean(s: State, step: Step)
    requires |s.items| <= s.max && Apart(s) && Enabled(s, step)
    ensures Means(s, step, Apply(s, step).0, Apply(s, step).1)
  {
    hide Apart, PushMeans, PopMeans, TryPushMeans, TryPopMeans, CloseMeans, PusherOut, PopperOut, LeavePush, LeavePop, PushLoop,
      PopLoop, CloseSection, Inside;
    match step
    case PushWake(t, x, p, pick) =>
      PusherLeaves(s, t);
      OutKeeps(s, t);
      PushAnswers(PusherOut(s, t), t, x, p, pick);
    case PopWake(t, p, pick) =>
      PopperLeaves(s, t);
      PopAnswers(PopperOut(s, t), t, p, pick);
    case PushTimeout(t) => PusherLeaves(s, t);
    case PopTimeout(t) => PopperLeaves(s, t);
    case PushGiveUp(t) => PusherLeaves(s, t);
    case PopGiveUp(t) => PopperLeaves(s, t);
    case Close => CloseAnswers(s);
    case _ => CallAnswers(s, step);
  }
}

/** The queue object over the ring of module `RingQueue`; each method runs with `mutex_` held. */
module MsgQueueSections {
  import opened MsgQueue
  import opened RingQueue

  lemma EnqueueShows(s: State, x: Item, pick: Tid)
    requires Bounded(s) && |s.items| < s.max
    ensures var s' := Enqueue(s, x, pick);
            Bounded(s') && s'.items == s.items + [x] && s'.max == s.max && s'.shut == s.shut
  {
    assert s.pushed + [x] == s.popped + (s.items + [x]);
  }

  lemma DequeueShows(s: State, pick: Tid)
    requires Bounded(s) && s.items != []
    ensures var s' := Dequeue(s, pick);
            && Bounded(s') && s'.items == s.items[1..] && s'.max == s.max && s'.shut == s.shut
            && s'.popped == s.popped + [s.items[0]]
  {
    assert s.popped + [s.items[0]] + s.items[1..] == s.pushed;
  }

  lemma FirstAndRest(all: seq<Item>, first: seq<Item>, rest: seq<Item>)
    requires all == first + rest && |first| == 1
    ensures first == [all[0]] && rest == all[1..]
  {}

  class MsgQueueObject {
    const ring: Ring<Item>
    var isShut: bool

    ghost var queue: State

    ghost predicate Valid()
      reads this, ring, ring.all
    {
      && ring.Valid()
      && Bounded(queue)
      && ring.Contents() == queue.items && ring.all.Length == queue.max && isShut == queue.shut
    }

    constructor (buffer: array<Item>)
      requires buffer.Length > 0
      ensures Valid() && fresh(ring) && ring.all == buffer && queue == Init(buffer.Length)
    {
      ring := new Ring(buffer);
      isShut := false;
      queue := Init(buffer.Length);
    }

    method Shut()
      requires Valid()
      modifies this
      ensures Valid() && queue == CloseSection(old(queue)) && CloseMeans(old(queue), queue, Ok)
    {
      if !isShut {
        isShut := true;
        queue := CloseSection(queue);
      }
    }

    /** The enqueue and the signal of `not_empty_`. */
    method Put(x: Item, ghost pick: Tid)
      requires Valid() && |queue.items| < queue.max
      modifies this, ring, ring.all
      ensures Valid() && queue == Enqueue(old(queue), x, pick) && isShut == old(isShut)
    {
      hide Enqueue, Bounded, Window;
      EnqueueShows(queue, x, pick);
      var _ := ring.Enqueue(x);
      queue := Enqueue(queue, x, pick);
    }

    /** The dequeue and the signal of `not_full_`. */
    method Take(ghost pick: Tid) returns (item: seq<Item>)
      requires Valid() && queue.items != []
      modifies this, ring
      ensures Valid() && queue == Dequeue(old(queue), pick) && item == [old(queue).items[0]]
      ensures queue.popped == old(queue).popped + item
    {
      hide Dequeue, Bounded, Window;
      DequeueShows(queue, pick);
      var _, x := ring.Dequeue();
      FirstAndRest(queue.items, x, ring.Contents());
      item := x;
      queue := Dequeue(queue, pick);
    }

    /** `msgqueue_wait_not_full` and the push after it, from holding the mutex to releasing it. */
    method PushSection(t: Tid, x: Item, p: Patience, ghost pick: Tid) returns (rc: Status)
      requires Valid()
      modifies this, ring, ring.all
      ensures Valid() && (queue, rc) == PushLoop(old(queue), t, x, p, pick)
    {
      if ring.IsFull() {
        if isShut {
          return Pipe;
        }
        if p == Refuse || p == Late {
          return TimedOut;
        }
        queue := queue.(parkedPushers := queue.parkedPushers + {t});
        return Waits;
      }
      if isShut {
        return Pipe;
      }
      Put(x, pick);
      return Ok;
    }

    /** `msgqueue_wait_not_empty` and the pop after it. */
    method PopSection(t: Tid, p: Patience, ghost pick: Tid) returns (rc: Status, item: seq<Item>)
      requires Valid()
      modifies this, ring
      ensures Valid() && (queue, rc) == PopLoop(old(queue), t, p, pick)
      ensures queue.popped == old(queue).popped + item
    {
      if ring.IsEmpty() {
        if isShut {
          return Pipe, [];
        }
        if p == Refuse || p == Late {
          return TimedOut, [];
        }
        queue := queue.(parkedPoppers := queue.parkedPoppers + {t});
        return Waits, [];
      }
      if isShut {
        return Pipe, [];
      }
      item := Take(pick);
      return Ok, item;
    }

    method PushCall(t: Tid, x: Item, p: Patience, ghost pick: Tid) returns (rc: Status)
      requires Valid() && Enabled(queue, Push(t, x, p, pick))
      modifies this, ring, ring.all
      ensures Valid() && (queue, rc) == Apply(old(queue), Push(t, x, p, pick))
      ensures Means(old(queue), Push(t, x, p, pick), queue, rc)
    {
      hide Means;
      CallAnswers(queue, Push(t, x, p, pick));
      if isShut {
        return Pipe;
      }
      rc := PushSection(t, x, p, pick);
    }

    method PopCall(t: Tid, p: Patience, ghost pick: Tid) returns (rc: Status, item: seq<Item>)
      requires Valid() && Enabled(queue, Pop(t, p, pick))
      modifies this, ring
      ensures Valid() && (queue, rc) == Apply(old(queue), Pop(t, p, pick))
      ensures queue.popped == old(queue).popped + item
      ensures Means(old(queue), Pop(t, p, pick), queue, rc)
    {
      hide Means;
      CallAnswers(queue, Pop(t, p, pick));
      if isShut {
        return Pipe, [];
      }
      rc, item := PopSection(t, p, pick);
    }

    method PushAgain(t: Tid, x: Item, p: Patience, ghost pick: Tid) returns (rc: Status)
      requires Valid() && Enabled(queue, PushWake(t, x, p, pick))
      modifies this, ring, ring.all
      ensures Valid() && (queue, rc) == Apply(old(queue), PushWake(t, x, p, pick))
      ensures Apart(old(queue)) ==> Means(old(queue), PushWake(t, x, p, pick), queue, rc)
    {
      hide Means;
      if Apart(queue) {
        AnswersMean(queue, PushWake(t, x, p, pick));
      }
      queue := LeavePush(queue, t);
      rc := PushSection(t, x, p, pick);
    }

    method PopAgain(t: Tid, p: Patience, ghost pick: Tid) returns (rc: Status, item: seq<Item>)
      requires Valid() && Enabled(queue, PopWake(t, p, pick))
      modifies this, ring
      ensures Valid() && (queue, rc) == Apply(old(queue), PopWake(t, p, pick))
      ensures queue.popped == old(queue).popped + item
      ensures Apart(old(queue)) ==> Means(old(queue), PopWake(t, p, pick), queue, rc)
    {
      hide Means;
      if Apart(queue) {
        AnswersMean(queue, PopWake(t, p, pick));
      }
      queue := LeavePop(queue, t);
      rc, item := PopSection(t, p, pick);
    }

    /** A push whose wait has timed out. */
    method PushGivesUp(t: Tid) returns (rc: Status)
      requires Valid() && Enabled(queue, PushGiveUp(t))
      modifies this
      ensures Valid() && (queue, rc) == Apply(old(queue), PushGiveUp(t))
      ensures Apart(old(queue)) ==> Means(old(queue), PushGiveUp(t), queue, rc)
    {
      hide Means;
      if Apart(queue) {
        AnswersMean(queue, PushGiveUp(t));
      }
      queue := queue.(expiredPushers := queue.expiredPushers - {t});
      return TimedOut;
    }

    /** A pop whose wait has timed out; it delivers nothing, whatever the queue holds by now. */
    method PopGivesUp(t: Tid) returns (rc: Status)
      requires Valid() && Enabled(queue, PopGiveUp(t))
      modifies this
      ensures Valid() && (queue, rc) == Apply(old(queue), PopGiveUp(t))
      ensures Apart(old(queue)) ==> Means(old(queue), PopGiveUp(t), queue, rc)
    {
      hide Means;
      if Apart(queue) {
        AnswersMean(queue, PopGiveUp(t));
      }
      queue := queue.(expiredPoppers := queue.expiredPoppers - {t});
      return TimedOut;
    }

    method TryPushCall(t: Tid, x: Item, ghost pick: Tid) returns (rc: Status)
      requires Valid() && Enabled(queue, TryPush(t, x, pick))
      modifies this, ring, ring.all
      ensures Valid() && (queue, rc) == Apply(old(queue), TryPush(t, x, pick))
      ensures Means(old(queue), TryPush(t, x, pick), queue, rc)
    {
      hide Means;
      CallAnswers(queue, TryPush(t, x, pick));
      if isShut {
        return Pipe;
      }
      if ring.IsFull() {
        return Again;
      }
      Put(x, pick);
      return Ok;
    }

    method TryPopCall(t: Tid, ghost pick: Tid) returns (rc: Status, item: seq<Item>)
      requires Valid() && Enabled(queue, TryPop(t, pick))
      modifies this, ring
      ensures Valid() && (queue, rc) == Apply(old(queue), TryPop(t, pick))
      ensures queue.popped == old(queue).popped + item
      ensures Means(old(queue), TryPop(t, pick), queue, rc)
    {
      hide Means;
      CallAnswers(queue, TryPop(t, pick));
      if isShut {
        return Pipe, [];
      }
      if ring.IsEmpty() {
        return Again, [];
      }
      item := Take(pick);
      return Ok, item;
    }
  }
}
