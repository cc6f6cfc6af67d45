/**
  The saturating reference count of sync/src/ref.c on the atomic backends: each atomic read-modify-write, load,
  compare-exchange and poison store is one step, interleaved over any number of threads.
 */
module RefCount {

  const WORD := 0x1_0000_0000
  const MAX := 0x7fff_ffff        // REFCOUNT_MAX
  const SATURATED := 0xc000_0000  // REFCOUNT_SATURATED
  const GAP := 0x4000_0000        // WORD - SATURATED, and SATURATED - MAX - 1

  type Word = w: int | 0 <= w < WORD
  type Tid = nat

  /** The reason code kept in the low two bits of a poison value. */
  datatype Reason = AddNotZeroOverflow | AddOverflow | AddUseAfterFree | SubUseAfterFree

  function Poison(r: Reason): Word {
    match r
    case AddNotZeroOverflow => SATURATED
    case AddOverflow => SATURATED + 1
    case AddUseAfterFree => SATURATED + 2
    case SubUseAfterFree => SATURATED + 3
  }

  /** Where a thread is inside an operation. */
  datatype Phase =
    | Idle
    | Storing(reason: Reason, locked: bool) // about to poison; `locked`: the caller's mutex is released after
    | IncLoop(seen: Word)                   // inc_not_zero, about to compare-exchange `seen`
    | DecLoop(seen: Word)                   // dec_and_mutex_lock, about to compare-exchange `seen`
    | NeedLock                              // dec_and_mutex_lock saw 1
    | HaveLock                              // ... and holds the caller's mutex
    | Unlocking                             // ... and was not the last

  /** What a step decides: nothing yet, or the result of the operation. */
  datatype Event = Silent | Added | Acquired(ok: bool) | Dropped(last: bool)

  datatype Holder = Nobody | Thread(t: Tid)

  datatype State = State(value: Word, phase: map<Tid, Phase>, mutex: Holder)

  datatype Step =
    | Inc(t: Tid)
    | LoadNotZero(t: Tid)
    | TryInc(t: Tid, spurious: bool)
    | Dec(t: Tid)
    | LoadDec(t: Tid)
    | TryDec(t: Tid, spurious: bool)
    | TakeLock(t: Tid)
    | LockedDec(t: Tid)
    | Store(t: Tid)
    | Release(t: Tid)
    | UserLock(t: Tid)

  function Init(threads: set<Tid>): State {
    State(1, map t | t in threads :: Idle, Nobody)
  }

  function Plus(v: Word): Word { (v + 1) % WORD }

  function Minus(v: Word): Word { (v + WORD - 1) % WORD }

  // ---------- Decisions of one thread on the value it read ----------

  function AfterInc(was: Word): (Phase, Event) {
    if was == 0 then (Storing(AddUseAfterFree, false), Added)
    else if was >= MAX then (Storing(AddOverflow, false), Added)
    else (Idle, Added)
  }

  /** The top of the loop of `ct_refcount_inc_not_zero`. */
  function NotZeroTop(v: Word): (Phase, Event) {
    if v == 0 then (Idle, Acquired(false))
    else if v >= SATURATED then (Idle, Acquired(true))
    else if v > MAX then (Storing(AddNotZeroOverflow, false), Acquired(true))
    else (IncLoop(v), Silent)
  }

  function AfterTryInc(was: Word): (Phase, Event) {
    (if was >= MAX then Storing(AddNotZeroOverflow, false) else Idle, Acquired(true))
  }

  function AfterDec(was: Word): (Phase, Event) {
    if 1 < was <= MAX then (Idle, Dropped(false))
    else if was == 1 then (Idle, Dropped(true))
    else (Storing(SubUseAfterFree, false), Dropped(false))
  }

  /** The top of the loop of `ct_refcount_dec_and_mutex_lock`. */
  function MutexTop(v: Word): (Phase, Event) {
    if v >= SATURATED then (Idle, Dropped(false))
    else if v == 1 then (NeedLock, Silent)
    else if v > MAX then (Storing(SubUseAfterFree, false), Dropped(false))
    else if Minus(v) > v then (Storing(SubUseAfterFree, false), Dropped(false))
    else (DecLoop(v), Silent)
  }

  function AfterLockedDec(was: Word): (Phase, Event) {
    if 1 < was <= MAX then (Unlocking, Dropped(false))
    else if was == 1 then (Idle, Dropped(true))
    else (Storing(SubUseAfterFree, true), Dropped(false))
  }

  // ---------- The transition system ----------

  predicate Enabled(s: State, step: Step) {
    && step.t in s.phase
    && var p := s.phase[step.t];
       match step
       case Inc(_) => p.Idle?
       case LoadNotZero(_) => p.Idle?
       case TryInc(_, _) => p.IncLoop?
       case Dec(_) => p.Idle?
       case LoadDec(_) => p.Idle?
       case TryDec(_, _) => p.DecLoop?
       case TakeLock(_) => p.NeedLock? && s.mutex.Nobody?
       case LockedDec(_) => p.HaveLock?
       case Store(_) => p.Storing?
       case Release(t) => (p.Idle? || p.Unlocking?) && s.mutex == Thread(t)
       case UserLock(_) => p.Idle? && s.mutex.Nobody?
  }

  function Goes(s: State, t: Tid, d: (Phase, Event)): (State, Event) {
    (s.(phase := s.phase[t := d.0]), d.1)
  }

  /** Does the compare-exchange of this step succeed? */
  predicate Exchanges(s: State, step: Step)
    requires Enabled(s, step)
  {
    match step
    case TryInc(t, spurious) => !spurious && s.value == s.phase[t].seen
    case TryDec(t, spurious) => !spurious && s.value == s.phase[t].seen
    case _ => false
  }

  function Apply(s: State, step: Step): (State, Event)
    requires Enabled(s, step)
  {
    match step
    case Inc(t) => Goes(s.(value := Plus(s.value)), t, AfterInc(s.value))
    case LoadNotZero(t) => Goes(s, t, NotZeroTop(s.value))
    case TryInc(t, _) =>
      if Exchanges(s, step) then Goes(s.(value := Plus(s.value)), t, AfterTryInc(s.value))
      else Goes(s, t, NotZeroTop(s.value))
    case Dec(t) => Goes(s.(value := Minus(s.value)), t, AfterDec(s.value))
    case LoadDec(t) => Goes(s, t, MutexTop(s.value))
    case TryDec(t, _) =>
      if Exchanges(s, step) then Goes(s.(value := Minus(s.value)), t, (Idle, Dropped(false)))
      else Goes(s, t, MutexTop(s.value))
    case TakeLock(t) => Goes(s.(mutex := Thread(t)), t, (HaveLock, Silent))
    case LockedDec(t) => Goes(s.(value := Minus(s.value)), t, AfterLockedDec(s.value))
    case Store(t) =>
      var p := s.phase[t];
      Goes(s.(value := Poison(p.reason)), t, (if p.locked then Unlocking else Idle, Silent))
    case Release(t) => Goes(s.(mutex := Nobody), t, (Idle, Silent))
    case UserLock(t) => Goes(s.(mutex := Thread(t)), t, (Idle, Silent))
  }

  ghost predicate ValidRun(s: State, steps: seq<Step>)
    decreases |steps|
  {
    steps != [] ==> Enabled(s, steps[0]) && ValidRun(Apply(s, steps[0]).0, steps[1..])
  }

  function After(s: State, steps: seq<Step>): State
    requires ValidRun(s, steps)
    decreases |steps|
  {
    if steps == [] then s else After(Apply(s, steps[0]).0, steps[1..])
  }

  function Events(s: State, steps: seq<Step>): seq<Event>
    requires ValidRun(s, steps)
    decreases |steps|
  {
    if steps == [] then [] else [Apply(s, steps[0]).1] + Events(Apply(s, steps[0]).0, steps[1..])
  }

  lemma {:induction false} ConcatRun(s: State, xs: seq<Step>, ys: seq<Step>)
    requires ValidRun(s, xs) && ValidRun(After(s, xs), ys)
    ensures ValidRun(s, xs + ys) && After(s, xs + ys) == After(After(s, xs), ys)
    decreases |xs|
  {
    hide Apply, Enabled;
    if xs == [] {
      assert xs + ys == ys;
    } else {
      assert (xs + ys)[0] == xs[0] && (xs + ys)[1..] == xs[1..] + ys;
      ConcatRun(Apply(s, xs[0]).0, xs[1..], ys);
    }
  }

  /** A thread only ever tries to exchange a value from the valid range. */
  predicate PhasesSound(s: State) {
    forall t :: t in s.phase ==>
      && (s.phase[t].IncLoop? ==> 0 < s.phase[t].seen <= MAX)
      && (s.phase[t].DecLoop? ==> 1 < s.phase[t].seen <= MAX)
  }

  /** The reason that the low two bits of a value name. */
  function ReasonOf(v: Word): Reason {
    match v % 4
    case 0 => AddNotZeroOverflow
    case 1 => AddOverflow
    case 2 => AddUseAfterFree
    case _ => SubUseAfterFree
  }

  /** A poison value lies in the last quarter of the range and keeps its reason. */
  lemma PoisonKeepsReason(r: Reason)
    ensures Poison(r) >= 0xc000_0000 && ReasonOf(Poison(r)) == r
  {}

  /** A thread that goes round a compare-exchange loop has read the value as it is now, so that it succeeds if
      nobody else gets in between. */
  lemma LoopReadsAgain(s: State, step: Step)
    requires Enabled(s, step) && (step.LoadNotZero? || step.TryInc? || step.LoadDec? || step.TryDec?)
    ensures var s' := Apply(s, step).0;
            && (s'.phase[step.t].IncLoop? ==> Exchanges(s', TryInc(step.t, false)))
            && (s'.phase[step.t].DecLoop? ==> Exchanges(s', TryDec(step.t, false)))
  {}

  lemma StepPhases(s: State, step: Step)
    requires PhasesSound(s) && Enabled(s, step)
    ensures PhasesSound(Apply(s, step).0) && Apply(s, step).0.phase.Keys == s.phase.Keys
  {
  }
}

/** The caller's mutex around `ct_refcount_dec_and_mutex_lock`. */
module RefCountLock {
  import opened RefCount

  /** The thread is in the part of the operation that runs with the caller's mutex held. */
  predicate Inside(p: Phase) {
    p.HaveLock? || p.Unlocking? || (p.Storing? && p.locked)
  }

  /** Who has the mutex for itself: the thread that took it last by its own choice or by an answer `true`, until it
      releases it. */
  function Keeper(s: State, keeper: Holder, step: Step): Holder
    requires Enabled(s, step)
  {
    if step.UserLock? || (step.LockedDec? && Apply(s, step).1 == Dropped(true)) then Thread(step.t)
    else if step.Release? then Nobody
    else keeper
  }

  function KeeperAfter(s: State, keeper: Holder, steps: seq<Step>): Holder
    requires ValidRun(s, steps)
    decreases |steps|
  {
    if steps == [] then keeper else KeeperAfter(Apply(s, steps[0]).0, Keeper(s, keeper, steps[0]), steps[1..])
  }

  /** The mutex is held for exactly two reasons. */
  predicate LockSound(s: State, keeper: Holder) {
    && (s.mutex.Thread? ==> s.mutex.t in s.phase)
    && (keeper.Thread? ==> s.mutex == keeper && keeper.t in s.phase && !Inside(s.phase[keeper.t]))
    && forall t :: t in s.phase ==> (s.mutex == Thread(t) <==> keeper == Thread(t) || Inside(s.phase[t]))
  }

  /** What a step does to the mutex, and to where its thread is. */
  lemma LockEffect(s: State, step: Step)
    requires Enabled(s, step)
    ensures var (s', e) := Apply(s, step);
            && step.t in s.phase && s'.phase == s.phase[step.t := s'.phase[step.t]]
            && s'.mutex == (if step.TakeLock? || step.UserLock? then Thread(step.t) else if step.Release? then Nobody else s.mutex)
            && (Inside(s'.phase[step.t]) <==>
                  step.TakeLock? || (step.LockedDec? && e != Dropped(true)) || (step.Store? && Inside(s.phase[step.t])))
    ensures step.TakeLock? || step.UserLock? ==> s.mutex.Nobody?
    ensures step.Release? ==> s.mutex == Thread(step.t)
    ensures Inside(s.phase[step.t]) ==> step.LockedDec? || step.Store? || step.Release?
    ensures step.LockedDec? ==> Inside(s.phase[step.t])
  {}

  lemma LockStep(s: State, keeper: Holder, step: Step)
    requires LockSound(s, keeper) && Enabled(s, step)
    ensures LockSound(Apply(s, step).0, Keeper(s, keeper, step))
    ensures Apply(s, step).0.phase.Keys == s.phase.Keys
  {
    hide Apply, Enabled, Inside;
    LockEffect(s, step);
  }

  lemma {:induction false} LockRun(s: State, keeper: Holder, steps: seq<Step>)
    requires LockSound(s, keeper) && ValidRun(s, steps)
    ensures LockSound(After(s, steps), KeeperAfter(s, keeper, steps))
    ensures After(s, steps).phase.Keys == s.phase.Keys
    decreases |steps|
  {
    hide LockSound, Apply, Enabled, Keeper;
    if steps != [] {
      LockStep(s, keeper, steps[0]);
      LockRun(Apply(s, steps[0]).0, Keeper(s, keeper, steps[0]), steps[1..]);
    }
  }

  /** In every run a thread between two operations holds the mutex exactly when it took the mutex itself or its
      last drop answered `true`: a drop that answered `false` has given the mutex back. */
  lemma MutexGivenBack(threads: set<Tid>, steps: seq<Step>, t: Tid)
    requires ValidRun(Init(threads), steps) && t in threads
    ensures var s := After(Init(threads), steps);
            && t in s.phase
            && (s.phase[t].Idle? ==>
                  (s.mutex == Thread(t) <==> KeeperAfter(Init(threads), Nobody, steps) == Thread(t)))
  {
    LockRun(Init(threads), Nobody, steps);
  }

  lemma OneStep(s: State, step: Step, rest: seq<Step>)
    requires Enabled(s, step) && ValidRun(Apply(s, step).0, rest)
    ensures ValidRun(s, [step] + rest) && After(s, [step] + rest) == After(Apply(s, step).0, rest)
  {
    assert ([step] + rest)[1..] == rest;
  }

  /** A thread that has dropped a reference under the mutex, not the last one, poisoned or not, is at most two of
      its own steps from being out of the operation with the mutex free. */
  lemma GivesBack(s: State, keeper: Holder, t: Tid) returns (steps: seq<Step>)
    requires LockSound(s, keeper) && t in s.phase && Inside(s.phase[t]) && !s.phase[t].HaveLock?
    ensures ValidRun(s, steps) && 1 <= |steps| <= 2 && forall i :: 0 <= i < |steps| ==> steps[i].t == t
    ensures var s' := After(s, steps); t in s'.phase && s'.phase[t].Idle? && s'.mutex.Nobody?
  {
    var idle := s.(phase := s.phase[t := Idle], mutex := Nobody);
    if s.phase[t].Unlocking? {
      assert Apply(s, Release(t)).0 == idle;
      steps := [Release(t)];
      OneStep(s, Release(t), []);
    } else {
      var s1 := Apply(s, Store(t)).0;
      assert Apply(s1, Release(t)).0 == idle.(value := s1.value);
      steps := [Store(t), Release(t)];
      OneStep(s1, Release(t), []);
      OneStep(s, Store(t), [Release(t)]);
      assert steps == [Store(t)] + [Release(t)] && [Release(t)] == [Release(t)] + [];
    }
  }

  /** A drop under the mutex answers `true` and stays with the mutex, or answers `false` and is on its way out. */
  lemma DropUnderLock(s: State, keeper: Holder, t: Tid)
    requires LockSound(s, keeper) && Enabled(s, LockedDec(t))
    ensures var (s', e) := Apply(s, LockedDec(t));
            && s'.mutex == Thread(t)
            && (e == Dropped(true) <==> s.value == 1)
            && (e == Dropped(true) ==> s'.phase[t].Idle? && Keeper(s, keeper, LockedDec(t)) == Thread(t))
            && (e != Dropped(true) ==> e == Dropped(false) && Inside(s'.phase[t]) && !s'.phase[t].HaveLock?)
  {}
}

/** What saturation guarantees, whatever the callers do. */
module RefCountSaturation {
  import opened RefCount

  /** `base` is the poison stored last and `drifters` are the threads that have moved the value since. */
  predicate Pinned(s: State, base: Word, drifters: set<Tid>) {
    && PhasesSound(s)
    && SATURATED <= base <= SATURATED + 3
    && drifters <= s.phase.Keys
    && (forall t :: t in drifters ==> s.phase[t].Storing?)
    && base - |drifters| <= s.value <= base + |drifters|
  }

  lemma SubsetSize<T>(a: set<T>, b: set<T>)
    requires a <= b
    ensures |a| <= |b|
  {
    assert |b - a| == |b| - |a|;
  }

  lemma PinnedAbove(s: State, base: Word, drifters: set<Tid>)
    requires Pinned(s, base, drifters) && |s.phase| <= GAP - 4
    ensures s.value > MAX
  {
    SubsetSize(drifters, s.phase.Keys);
  }

  /** One more thread moves the value by one, and cannot move it again before it has poisoned it. */
  lemma DriftStep(s: State, step: Step, base: Word, drifters: set<Tid>)
    requires Pinned(s, base, drifters) && |s.phase| <= GAP - 4
    requires Enabled(s, step) && (step.Inc? || step.Dec? || step.LockedDec?)
    ensures Pinned(Apply(s, step).0, base, drifters + {step.t})
    ensures Apply(s, step).1 in {Added, Dropped(false)}
  {
    assert step.t !in drifters;
    SubsetSize(drifters + {step.t}, s.phase.Keys);
    assert |drifters + {step.t}| == |drifters| + 1;
    StepPhases(s, step);
  }

  lemma QuietStep(s: State, step: Step, base: Word, drifters: set<Tid>)
    requires Pinned(s, base, drifters) && |s.phase| <= GAP - 4
    requires Enabled(s, step) && !(step.Inc? || step.Dec? || step.LockedDec? || step.Store?)
    ensures Pinned(Apply(s, step).0, base, drifters)
    ensures Apply(s, step).1 in {Silent, Acquired(true), Dropped(false)}
  {
    PinnedAbove(s, base, drifters);
    StepPhases(s, step);
  }

  lemma PinnedStep(s: State, step: Step, base: Word, drifters: set<Tid>)
    returns (base': Word, drifters': set<Tid>)
    requires Pinned(s, base, drifters) && |s.phase| <= GAP - 4 && Enabled(s, step)
    ensures Pinned(Apply(s, step).0, base', drifters')
    ensures Apply(s, step).1 != Dropped(true) && Apply(s, step).1 != Acquired(false)
  {
    base', drifters' := base, drifters;
    if step.Inc? || step.Dec? || step.LockedDec? {
      DriftStep(s, step, base, drifters);
      drifters' := drifters + {step.t};
    } else if step.Store? {
      StepPhases(s, step);
      base', drifters' := Poison(s.phase[step.t].reason), {};
    } else {
      QuietStep(s, step, base, drifters);
    }
  }

  lemma {:induction false} PinnedRun(s: State, steps: seq<Step>, base: Word, drifters: set<Tid>)
    requires Pinned(s, base, drifters) && |s.phase| <= GAP - 4 && ValidRun(s, steps)
    ensures After(s, steps).value > MAX
    ensures forall e :: e in Events(s, steps) ==> e != Dropped(true) && e != Acquired(false)
    decreases |steps|
  {
    if steps == [] {
      PinnedAbove(s, base, drifters);
    } else {
      var base', drifters' := PinnedStep(s, steps[0], base, drifters);
      StepPhases(s, steps[0]);
      var s' := Apply(s, steps[0]).0;
      assert |s'.phase| == |s'.phase.Keys| == |s.phase.Keys| == |s.phase|;
      PinnedRun(s', steps[1..], base', drifters');
    }
  }

  /** Once any thread has stored poison the counter is never releasable again: no drop reports the last
      reference and no inc_not_zero fails. */
  lemma SaturationIsFinal(s: State, t: Tid, steps: seq<Step>)
    requires PhasesSound(s) && |s.phase| <= GAP - 4
    requires Enabled(s, Store(t)) && ValidRun(Apply(s, Store(t)).0, steps)
    ensures After(Apply(s, Store(t)).0, steps).value > MAX
    ensures forall e :: e in Events(Apply(s, Store(t)).0, steps) ==> e != Dropped(true) && e != Acquired(false)
  {
    var s' := Apply(s, Store(t)).0;
    StepPhases(s, Store(t));
    assert |s'.phase| == |s'.phase.Keys| == |s.phase.Keys| == |s.phase|;
    PinnedRun(s', steps, Poison(s.phase[t].reason), {});
  }

  // ---------- The bound on the number of threads is exact ----------

  ghost predicate HasStore(steps: seq<Step>) {
    exists i :: 0 <= i < |steps| && steps[i].Store?
  }

  /** In every run of `threads` from the initial state, a stored poison keeps the value above the valid range. */
  ghost predicate StaysSaturated(threads: set<Tid>) {
    forall steps :: ValidRun(Init(threads), steps) && HasStore(steps) ==> After(Init(threads), steps).value > MAX
  }

  lemma {:induction false} RunAboveAfterStore(s: State, steps: seq<Step>)
    requires PhasesSound(s) && |s.phase| <= GAP - 4 && ValidRun(s, steps) && HasStore(steps)
    ensures After(s, steps).value > MAX
    decreases |steps|
  {
    var s' := Apply(s, steps[0]).0;
    StepPhases(s, steps[0]);
    assert |s'.phase| == |s'.phase.Keys| == |s.phase.Keys| == |s.phase|;
    if steps[0].Store? {
      SaturationIsFinal(s, steps[0].t, steps[1..]);
    } else {
      var i :| 0 <= i < |steps| && steps[i].Store?;
      assert steps[1..][i - 1].Store?;
      RunAboveAfterStore(s', steps[1..]);
    }
  }

  function IdleSet(s: State): set<Tid> {
    set t | t in s.phase && s.phase[t].Idle?
  }

  /** `k` different threads increment a poisoned counter and stop before their own poison store. */
  lemma {:induction false} ManyIncs(s: State, k: nat) returns (steps: seq<Step>)
    requires MAX <= s.value && s.value + k <= WORD && k <= |IdleSet(s)|
    ensures ValidRun(s, steps) && After(s, steps).value == (s.value + k) % WORD
    decreases k
  {
    if k == 0 {
      steps := [];
    } else {
      assert IdleSet(s) != {};
      var t :| t in IdleSet(s);
      var s' := Apply(s, Inc(t)).0;
      assert IdleSet(s') == IdleSet(s) - {t};
      if k == 1 {
        steps := [Inc(t)];
      } else {
        var rest := ManyIncs(s', k - 1);
        steps := [Inc(t)] + rest;
        assert steps[1..] == rest;
      }
    }
  }

  /** With 2^30 - 3 threads a use after free can be poisoned and then pushed all the way round to zero. */
  lemma WrapRun(threads: set<Tid>) returns (steps: seq<Step>)
    requires |threads| >= GAP - 3
    ensures ValidRun(Init(threads), steps) && HasStore(steps) && After(Init(threads), steps).value == 0
  {
    assert threads != {};
    var t :| t in threads;
    var s0 := Init(threads);
    var s1 := Apply(s0, Dec(t)).0;
    var s2 := Apply(s1, Dec(t)).0;
    var s3 := Apply(s2, Store(t)).0;
    var head := [Dec(t), Dec(t), Store(t)];
    assert head[1..] == [Dec(t), Store(t)] && head[2..] == [Store(t)];
    assert ValidRun(s2, [Store(t)]) && ValidRun(s1, [Dec(t), Store(t)]);
    assert After(s0, head) == After(s1, [Dec(t), Store(t)]) == After(s2, [Store(t)]) == s3;
    assert IdleSet(s3) == threads;
    var rest := ManyIncs(s3, GAP - 3);
    ConcatRun(s0, head, rest);
    steps := head + rest;
    assert steps[2].Store?;
  }

  lemma SaturationBound(threads: set<Tid>)
    ensures StaysSaturated(threads) <==> |threads| <= GAP - 4
  {
    if |threads| <= GAP - 4 {
      assert |Init(threads).phase| == |Init(threads).phase.Keys| && Init(threads).phase.Keys == threads;
      forall steps | ValidRun(Init(threads), steps) && HasStore(steps)
        ensures After(Init(threads), steps).value > MAX
      {
        RunAboveAfterStore(Init(threads), steps);
      }
    } else {
      var steps := WrapRun(threads);
    }
  }
}

/** What callers that follow the ownership rules get. */
module RefCountOwnership {
  import opened RefCount

  /** What a thread's phase says about the references it owns and about the caller's mutex. */
  predicate InOrder(p: Phase, owns: bool, locks: bool) {
    && !p.Storing?
    && (p.DecLoop? || p.NeedLock? || p.HaveLock? ==> owns)
    && (p.HaveLock? || p.Unlocking? ==> locks)
  }

  /** `owners` holds a thread once for every reference it owns; a drop in progress keeps its reference. */
  predicate Counted(s: State, owners: multiset<Tid>) {
    && PhasesSound(s)
    && s.value == |owners| <= MAX
    && forall t :: t in s.phase ==> InOrder(s.phase[t], t in owners, s.mutex == Thread(t))
  }

  /** Only owners add and drop references, and at most MAX references exist. */
  predicate Disciplined(s: State, owners: multiset<Tid>, step: Step)
    requires Enabled(s, step)
  {
    && (step.Inc? || step.Dec? || step.LoadDec? ==> step.t in owners)
    && (step.Inc? || (step.TryInc? && Exchanges(s, step)) ==> |owners| < MAX)
  }

  function OwnersAfter(s: State, owners: multiset<Tid>, step: Step): multiset<Tid>
    requires Enabled(s, step)
  {
    if step.Inc? || (step.TryInc? && Exchanges(s, step)) then owners + multiset{step.t}
    else if step.Dec? || step.LockedDec? || (step.TryDec? && Exchanges(s, step)) then owners - multiset{step.t}
    else owners
  }

  lemma CountedLoads(s: State, owners: multiset<Tid>, step: Step)
    requires Counted(s, owners) && Enabled(s, step) && Disciplined(s, owners, step)
    requires !step.Inc? && !step.Dec? && !step.LockedDec? && !Exchanges(s, step)
    ensures Counted(Apply(s, step).0, owners)
    ensures Apply(s, step).1 in {Silent, Acquired(false)}
    ensures Apply(s, step).1 == Acquired(false) ==> owners == multiset{}
  {
    StepPhases(s, step);
  }

  lemma CountedAdds(s: State, owners: multiset<Tid>, step: Step)
    requires Counted(s, owners) && Enabled(s, step) && Disciplined(s, owners, step)
    requires step.Inc? || (step.TryInc? && Exchanges(s, step))
    ensures Counted(Apply(s, step).0, owners + multiset{step.t}) && owners != multiset{}
    ensures Apply(s, step).1 == if step.Inc? then Added else Acquired(true)
  {
    StepPhases(s, step);
    assert |owners| > 0;
    assert Plus(s.value) == s.value + 1 == |owners + multiset{step.t}|;
  }

  lemma DropEffect(s: State, owners: multiset<Tid>, step: Step)
    requires Counted(s, owners) && Enabled(s, step) && Disciplined(s, owners, step)
    requires step.Dec? || step.LockedDec? || (step.TryDec? && Exchanges(s, step))
    ensures step.t in owners
    ensures var phase := if step.LockedDec? && s.value > 1 then Unlocking else Idle;
            Apply(s, step) == (State(s.value - 1, s.phase[step.t := phase], s.mutex), Dropped(s.value == 1))
    ensures step.LockedDec? ==> s.mutex == Thread(step.t)
  {
    assert InOrder(s.phase[step.t], step.t in owners, s.mutex == Thread(step.t));
    assert step.t in owners && |owners| > 0;
  }

  lemma CountedDrops(s: State, owners: multiset<Tid>, step: Step)
    requires Counted(s, owners) && Enabled(s, step) && Disciplined(s, owners, step)
    requires step.Dec? || step.LockedDec? || (step.TryDec? && Exchanges(s, step))
    ensures Counted(Apply(s, step).0, owners - multiset{step.t}) && owners != multiset{}
    ensures Apply(s, step).1 == Dropped(owners - multiset{step.t} == multiset{})
  {
    StepPhases(s, step);
    DropEffect(s, owners, step);
    hide Apply, Exchanges, Enabled, Disciplined, PhasesSound;
    var s', owners' := Apply(s, step).0, owners - multiset{step.t};
    assert |owners'| == |owners| - 1;
    forall t | t in s'.phase
      ensures InOrder(s'.phase[t], t in owners', s'.mutex == Thread(t))
    {
      assert InOrder(s.phase[t], t in owners, s.mutex == Thread(t));
      assert t != step.t ==> owners'[t] == owners[t];
    }
    assert owners' == multiset{} <==> |owners'| == 0;
  }

  lemma CountedStep(s: State, owners: multiset<Tid>, step: Step)
    requires Counted(s, owners) && Enabled(s, step) && Disciplined(s, owners, step)
    ensures Counted(Apply(s, step).0, OwnersAfter(s, owners, step))
    // Exactly the step that gives up the last reference reports it.
    ensures Apply(s, step).1 == Dropped(true) <==> owners != multiset{} && OwnersAfter(s, owners, step) == multiset{}
    // A failed acquisition is one of a dead counter, a successful one is a new reference.
    ensures Apply(s, step).1 == Acquired(false) ==> owners == multiset{}
    ensures Apply(s, step).1 == Acquired(true) ==> OwnersAfter(s, owners, step) == owners + multiset{step.t}
    ensures owners == multiset{} ==> OwnersAfter(s, owners, step) == multiset{}
  {
    hide Counted;
    if step.Inc? || (step.TryInc? && Exchanges(s, step)) {
      CountedAdds(s, owners, step);
    } else if step.Dec? || step.LockedDec? || (step.TryDec? && Exchanges(s, step)) {
      CountedDrops(s, owners, step);
    } else {
      CountedLoads(s, owners, step);
    }
  }

  /** The mutex variant answers `true` exactly for the last reference, and is then done with the caller's mutex held;
      otherwise its next step gives the mutex back. */
  lemma LastDropHoldsLock(s: State, owners: multiset<Tid>, t: Tid)
    requires Counted(s, owners) && Enabled(s, LockedDec(t))
    ensures var (s', e) := Apply(s, LockedDec(t));
            && s'.mutex == Thread(t)
            && (e == Dropped(true) <==> owners == multiset{t})
            && (e == Dropped(true) ==> s'.phase[t].Idle?)
            && (e != Dropped(true) ==>
                  && e == Dropped(false) && Enabled(s', Release(t))
                  && Apply(s', Release(t)).0.mutex.Nobody? && Apply(s', Release(t)).0.phase[t].Idle?)
  {
    assert InOrder(s.phase[t], t in owners, s.mutex == Thread(t));
    assert |owners - multiset{t}| == |owners| - 1;
    if |owners| == 1 {
      assert owners - multiset{t} == multiset{};
      assert owners == multiset{t};
    }
  }

  /** A dead counter refuses every new reference. */
  lemma DeadStaysDead(s: State, t: Tid)
    requires Counted(s, multiset{}) && Enabled(s, LoadNotZero(t))
    ensures Apply(s, LoadNotZero(t)).1 == Acquired(false)
  {
  }

  // ---------- Whole runs ----------

  /** What happens next: a step of some thread, or one thread handing a reference to another. */
  datatype Action = Do(step: Step) | Give(giver: Tid, taker: Tid)

  predicate Allowed(s: State, owners: multiset<Tid>, a: Action) {
    match a
    case Do(step) => Enabled(s, step) && Disciplined(s, owners, step)
    case Give(t, u) => t in s.phase && u in s.phase && t in owners && (s.phase[t].Idle? || owners[t] >= 2)
  }

  ghost predicate DisciplinedRun(s: State, owners: multiset<Tid>, actions: seq<Action>)
    decreases |actions|
  {
    actions != [] ==>
      && Allowed(s, owners, actions[0])
      && match actions[0]
         case Do(step) => DisciplinedRun(Apply(s, step).0, OwnersAfter(s, owners, step), actions[1..])
         case Give(t, u) => DisciplinedRun(s, owners - multiset{t} + multiset{u}, actions[1..])
  }

  /** The end of a disciplined run, and how many of its drops reported the last reference. */
  ghost function Outcome(s: State, owners: multiset<Tid>, actions: seq<Action>): (State, multiset<Tid>, nat)
    requires DisciplinedRun(s, owners, actions)
    decreases |actions|
  {
    if actions == [] then (s, owners, 0)
    else
      match actions[0]
      case Do(step) =>
        var (s', owners', n) := Outcome(Apply(s, step).0, OwnersAfter(s, owners, step), actions[1..]);
        (s', owners', if Apply(s, step).1 == Dropped(true) then n + 1 else n)
      case Give(t, u) => Outcome(s, owners - multiset{t} + multiset{u}, actions[1..])
  }

  function Dead(owners: multiset<Tid>): nat {
    if owners == multiset{} then 1 else 0
  }

  lemma GiveCounted(s: State, owners: multiset<Tid>, t: Tid, u: Tid)
    requires Counted(s, owners) && Allowed(s, owners, Give(t, u))
    ensures Counted(s, owners - multiset{t} + multiset{u})
  {
    assert |owners - multiset{t} + multiset{u}| == |owners|;
  }

  lemma {:induction false} CountedRun(s: State, owners: multiset<Tid>, actions: seq<Action>)
    requires Counted(s, owners) && DisciplinedRun(s, owners, actions)
    ensures var (s', owners', n) := Outcome(s, owners, actions);
            Counted(s', owners') && Dead(owners) + n == Dead(owners')
    decreases |actions|
  {
    hide Counted, Apply, OwnersAfter, Enabled, Disciplined;
    if actions != [] {
      match actions[0]
      case Do(step) =>
        CountedStep(s, owners, step);
        CountedRun(Apply(s, step).0, OwnersAfter(s, owners, step), actions[1..]);
      case Give(t, u) =>
        GiveCounted(s, owners, t, u);
        CountedRun(s, owners - multiset{t} + multiset{u}, actions[1..]);
    }
  }

  /** From a fresh counter: the value is always the number of outstanding references, the last reference is
      reported exactly once, when it goes, and the counter is never poisoned. */
  lemma OwnershipSound(threads: set<Tid>, creator: Tid, actions: seq<Action>)
    requires creator in threads && DisciplinedRun(Init(threads), multiset{creator}, actions)
    ensures var (s, owners, finals) := Outcome(Init(threads), multiset{creator}, actions);
            && s.value == |owners| <= MAX
            && finals == (if owners == multiset{} then 1 else 0)
            && forall t :: t in s.phase ==> !s.phase[t].Storing?
  {
    CountedRun(Init(threads), multiset{creator}, actions);
    var (s, owners, finals) := Outcome(Init(threads), multiset{creator}, actions);
    assert Counted(s, owners);
  }
}

/**
  The backend without atomics: every operation is one section under the process-wide mutex, working on the field
  in place.  Each is what the atomic backend's operation does when nothing interrupts it.
 */
module RefCountMutexBackend {
  import opened RefCount

  /** One thread alone: it steps until it is idle again. */
  function Alone(v: Word): State {
    State(v, map[0 := Idle], Nobody)
  }

  function Finish(s: State): State
    requires 0 in s.phase
  {
    if s.phase[0].Storing? then Apply(s, Store(0)).0 else s
  }

  function SoloInc(v: Word): Word {
    Finish(Apply(Alone(v), Inc(0)).0).value
  }

  function SoloDec(v: Word): (Word, bool) {
    var r := Apply(Alone(v), Dec(0));
    (Finish(r.0).value, r.1 == Dropped(true))
  }

  function SoloIncNotZero(v: Word): (Word, bool) {
    var r := Apply(Alone(v), LoadNotZero(0));
    if r.0.phase[0].IncLoop? then
      var r' := Apply(r.0, TryInc(0, false));
      (Finish(r'.0).value, r'.1 == Acquired(true))
    else (Finish(r.0).value, r.1 == Acquired(true))
  }

  /** `ct_refcount_dec_and_mutex_lock` up to the point where it has dropped a reference or wants the caller's mutex. */
  function SoloDecUnlessLast(v: Word): (Word, bool) {
    var r := Apply(Alone(v), LoadDec(0));
    if r.0.phase[0].DecLoop? then (Apply(r.0, TryDec(0, false)).0.value, true)
    else (Finish(r.0).value, !r.0.phase[0].NeedLock?)
  }

  lemma SoloIncMeans(v: Word)
    ensures SoloInc(v) == if 0 < v < MAX then v + 1 else if v == 0 then Poison(AddUseAfterFree) else Poison(AddOverflow)
  {}

  lemma SoloDecMeans(v: Word)
    ensures SoloDec(v) == if 0 < v <= MAX then (v - 1, v == 1) else (Poison(SubUseAfterFree), false)
  {}

  lemma SoloIncNotZeroMeans(v: Word)
    ensures SoloIncNotZero(v) ==
            if v == 0 then (0, false)
            else if v < MAX then (v + 1, true)
            else if v < SATURATED then (Poison(AddNotZeroOverflow), true)
            else (v, true)
  {}

  lemma SoloDecUnlessLastMeans(v: Word)
    ensures SoloDecUnlessLast(v) ==
            if v == 1 then (1, false)
            else if 1 < v <= MAX then (v - 1, true)
            else if v == 0 || v < SATURATED then (Poison(SubUseAfterFree), true)
            else (v, true)
  {}

  /** Under this backend too a poisoned value stays poisoned, and exactly the valid range counts. */
  lemma SoloMeaning(v: Word)
    ensures SoloInc(v) == if 0 < v < MAX then v + 1 else if v == 0 then Poison(AddUseAfterFree) else Poison(AddOverflow)
    ensures SoloDec(v) == if 0 < v <= MAX then (v - 1, v == 1) else (Poison(SubUseAfterFree), false)
    ensures SoloIncNotZero(v) ==
            if v == 0 then (0, false)
            else if v < MAX then (v + 1, true)
            else if v < SATURATED then (Poison(AddNotZeroOverflow), true)
            else (v, true)
    ensures SoloDecUnlessLast(v) ==
            if v == 1 then (1, false)
            else if 1 < v <= MAX then (v - 1, true)
            else if v == 0 || v < SATURATED then (Poison(SubUseAfterFree), true)
            else (v, true)
  {
    hide *;
    SoloIncMeans(v);
    SoloDecMeans(v);
    SoloIncNotZeroMeans(v);
    SoloDecUnlessLastMeans(v);
  }

  /** The caller's mutex. */
  class CallerMutex {
    var held: bool

    constructor ()
      ensures !held
    {
      held := false;
    }

    method Lock()
      requires !held
      modifies this
      ensures held
    {
      held := true;
    }

    method Unlock()
      requires held
      modifies this
      ensures !held
    {
      held := false;
    }
  }

  class RefCounter {
    var value: Word

    constructor ()
      ensures value == 1
    {
      value := 1;
    }

    method Saturate(r: Reason)
      modifies this
      ensures value == Poison(r)
    {
      value := match r
               case AddNotZeroOverflow => SATURATED
               case AddOverflow => SATURATED + 1
               case AddUseAfterFree => SATURATED + 2
               case SubUseAfterFree => SATURATED + 3;
    }

    method Increment()
      modifies this
      ensures value == SoloInc(old(value))
    {
      var v := value;
      value := Plus(v);
      if v == 0 {
        Saturate(AddUseAfterFree);
      } else if v >= MAX {
        Saturate(AddOverflow);
      }
    }

    method IncNotZero() returns (ok: bool)
      modifies this
      ensures (value, ok) == SoloIncNotZero(old(value))
    {
      var v := value;
      if v == 0 {
        return false;
      }
      if v >= SATURATED {
        return true;
      }
      if v > MAX {
        Saturate(AddNotZeroOverflow);
        return true;
      }
      value := Plus(v);
      if v >= MAX {
        Saturate(AddNotZeroOverflow);
      }
      return true;
    }

    method DecAndTest() returns (last: bool)
      modifies this
      ensures (value, last) == SoloDec(old(value))
    {
      var v := value;
      value := Minus(v);
      if v == 1 {
        return true;
      }
      if v == 0 || v > MAX {
        Saturate(SubUseAfterFree);
      }
      return false;
    }

    /** The section before the caller's mutex is taken; false means that only one reference was left. */
    method DecUnlessLast() returns (done: bool)
      modifies this
      ensures (value, done) == SoloDecUnlessLast(old(value))
    {
      if value >= SATURATED {
        return true;
      }
      if value != 1 {
        if value == 0 {
          Saturate(SubUseAfterFree);
        } else if value > MAX {
          Saturate(SubUseAfterFree);
        } else {
          value := value - 1;
        }
        return true;
      }
      return false;
    }

    /** The whole of `ct_refcount_dec_and_mutex_lock`.  `meanwhile` is what other threads have made of the value by
        the time the caller's mutex is held.  The answer is true for the last reference, and then and only then the
        caller's mutex stays held. */
    method DecAndMutexLock(lock: CallerMutex, meanwhile: Word) returns (last: bool)
      requires !lock.held
      modifies this, lock
      ensures last == lock.held == (old(value) == 1 && meanwhile == 1)
      ensures value == if old(value) == 1 then SoloDec(meanwhile).0 else SoloDecUnlessLast(old(value)).0
    {
      hide SoloDec, SoloDecUnlessLast;
      SoloDecUnlessLastMeans(value);
      SoloDecMeans(meanwhile);
      var done := DecUnlessLast();
      if done {
        return false;
      }
      lock.Lock();
      value := meanwhile;
      last := DecAndTest();
      if !last {
        lock.Unlock();
      }
    }
  }
}
