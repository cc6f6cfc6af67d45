/**
  The writer-preferring read-write lock of sync/src/rwlock.c (the branch without pthread rwlocks).

  One transition is one stretch of code run with `mutex_` held.  The abstract state says who holds the lock and
  who waits; the source's `state_` and `waiting_writers_` are the fields of class `RwLockSections.RwLockObject`.
 */
module RwLock {

  const INT_MAX := 0x7fff_ffff
  const UINT_MAX := 0xffff_ffff

  type Tid = nat

  datatype Lock = Lock(
    readers: multiset<Tid>,   // one entry for each read lock held
    writers: set<Tid>,        // the holder of the write lock, if any
    parkedReaders: set<Tid>,  // in ct_cond_wait(&read_signal_), not notified
    wokenReaders: set<Tid>,   // out of that wait, mutex not retaken yet
    parkedWriters: set<Tid>,  // the same for write_signal_
    wokenWriters: set<Tid>)

  datatype Status = Ok | Again | Busy | Invalid | Waits | Failed

  datatype Step =
    | RdLock(t: Tid)
    | WrLock(t: Tid)
    | TryRdLock(t: Tid, busy: bool) // `busy`: somebody holds `mutex_` just now
    | TryWrLock(t: Tid, busy: bool)
    | RdUnlock(t: Tid, pick: Tid)
    | WrUnlock(t: Tid, pick: Tid)
    | RdWake(t: Tid)   // a reader leaves its wait, notified or not
    | WrWake(t: Tid)
    | RdFail(t: Tid)   // ct_cond_wait returns an error, to a waiter notified or not
    | WrFail(t: Tid)

  function Init(): Lock {
    Lock(multiset{}, {}, {}, {}, {}, {})
  }

  function Waiting(s: Lock): set<Tid> {
    s.parkedWriters + s.wokenWriters
  }

  function Inside(s: Lock): set<Tid> {
    s.parkedReaders + s.wokenReaders + Waiting(s)
  }

  function SignalWriter(s: Lock, pick: Tid): Lock {
    if pick in s.parkedWriters
    then s.(parkedWriters := s.parkedWriters - {pick}, wokenWriters := s.wokenWriters + {pick})
    else s
  }

  function BroadcastReaders(s: Lock): Lock {
    s.(parkedReaders := {}, wokenReaders := s.wokenReaders + s.parkedReaders)
  }

  /** The loop of `ct_rwlock_rdlock`, and what follows it. */
  function ReadSection(s: Lock, t: Tid): (Lock, Status) {
    if s.writers != {} || Waiting(s) != {} then (s.(parkedReaders := s.parkedReaders + {t}), Waits)
    else if |s.readers| == INT_MAX then (s, Again)
    else (s.(readers := s.readers + multiset{t}), Ok)
  }

  function WriteSection(s: Lock, t: Tid): (Lock, Status) {
    if s.writers != {} || s.readers != multiset{} then
      if |Waiting(s)| == UINT_MAX then (s, Again)
      else (s.(parkedWriters := s.parkedWriters + {t}), Waits)
    else (s.(writers := {t}), Ok)
  }

  function TryReadSection(s: Lock, t: Tid): (Lock, Status) {
    if s.writers != {} || Waiting(s) != {} then (s, Busy)
    else if |s.readers| == INT_MAX then (s, Again)
    else (s.(readers := s.readers + multiset{t}), Ok)
  }

  function TryWriteSection(s: Lock, t: Tid): (Lock, Status) {
    if s.writers != {} || s.readers != multiset{} then (s, Busy)
    else (s.(writers := {t}), Ok)
  }

  function ReadUnlockSection(s: Lock, t: Tid, pick: Tid): (Lock, Status) {
    if s.readers == multiset{} then (s, Invalid)
    else
      var s1 := s.(readers := s.readers - multiset{t});
      (if s1.readers == multiset{} && Waiting(s1) != {} then SignalWriter(s1, pick) else s1, Ok)
  }

  function WriteUnlockSection(s: Lock, t: Tid, pick: Tid): (Lock, Status) {
    if s.writers == {} then (s, Invalid)
    else
      var s1 := s.(writers := {});
      (if Waiting(s1) != {} then SignalWriter(s1, pick) else BroadcastReaders(s1), Ok)
  }

  function LeaveReadWait(s: Lock, t: Tid): Lock {
    s.(parkedReaders := s.parkedReaders - {t}, wokenReaders := s.wokenReaders - {t})
  }

  function LeaveWriteWait(s: Lock, t: Tid): Lock {
    s.(parkedWriters := s.parkedWriters - {t}, wokenWriters := s.wokenWriters - {t})
  }

  function WriteFailSection(s: Lock, t: Tid): (Lock, Status) {
    var s1 := LeaveWriteWait(s, t);
    (if Waiting(s1) == {} && s1.writers == {} then BroadcastReaders(s1) else s1, Failed)
  }

  /** A thread is in at most one call; only a holder unlocks; a signal reaches a parked writer if there is one. */
  predicate Enabled(s: Lock, step: Step) {
    match step
    case RdLock(t) => t !in Inside(s)
    case WrLock(t) => t !in Inside(s)
    case TryRdLock(t, _) => t !in Inside(s)
    case TryWrLock(t, _) => t !in Inside(s)
    case RdUnlock(t, pick) =>
      t !in Inside(s) && (s.readers != multiset{} ==> t in s.readers) && (s.parkedWriters != {} ==> pick in s.parkedWriters)
    case WrUnlock(t, pick) =>
      t !in Inside(s) && (s.writers != {} ==> t in s.writers) && (s.parkedWriters != {} ==> pick in s.parkedWriters)
    case RdWake(t) => t in s.parkedReaders + s.wokenReaders
    case WrWake(t) => t in Waiting(s)
    case RdFail(t) => t in s.parkedReaders + s.wokenReaders
    case WrFail(t) => t in Waiting(s)
  }

  function Apply(s: Lock, step: Step): (Lock, Status)
    requires Enabled(s, step)
  {
    match step
    case RdLock(t) => ReadSection(s, t)
    case WrLock(t) => WriteSection(s, t)
    case TryRdLock(t, busy) => if busy then (s, Busy) else TryReadSection(s, t)
    case TryWrLock(t, busy) => if busy then (s, Busy) else TryWriteSection(s, t)
    case RdUnlock(t, pick) => ReadUnlockSection(s, t, pick)
    case WrUnlock(t, pick) => WriteUnlockSection(s, t, pick)
    case RdWake(t) => ReadSection(LeaveReadWait(s, t), t)
    case WrWake(t) => WriteSection(LeaveWriteWait(s, t), t)
    case RdFail(t) => (LeaveReadWait(s, t), Failed)
    case WrFail(t) => WriteFailSection(s, t)
  }

  // ---------- Invariants ----------

  /** One writer and no reader, or no writer and any readers up to the counter's range. */
  predicate Exclusive(s: Lock) {
    && |s.writers| <= 1
    && (s.writers != {} ==> s.readers == multiset{})
    && |s.readers| <= INT_MAX
    && |Waiting(s)| <= UINT_MAX
  }

  /** A thread waits in one place. */
  predicate Separate(s: Lock) {
    && s.parkedReaders !! s.wokenReaders
    && s.parkedWriters !! s.wokenWriters
    && s.parkedReaders + s.wokenReaders !! Waiting(s)
  }

  predicate Free(s: Lock) {
    s.writers == {} && s.readers == multiset{}
  }

  /** No lost wakeup: a writer parked on a free lock has a notified writer ahead of it, and a reader is parked
      only behind a writer. */
  predicate NoLostWakeup(s: Lock) {
    && (Free(s) && s.parkedWriters != {} ==> s.wokenWriters != {})
    && (s.parkedReaders != {} ==> s.writers != {} || Waiting(s) != {})
  }

  predicate Inv(s: Lock) {
    Exclusive(s) && Separate(s)
  }

  /** The wait of the only notified writer fails, with the lock free and other writers parked: nobody tells them. */
  predicate Strands(s: Lock, step: Step) {
    step.WrFail? && Free(s) && s.wokenWriters == {step.t} && s.parkedWriters != {}
  }

  // ---------- How the waiting writers change ----------

  lemma SameWaiting(s: Lock, s': Lock)
    requires s'.parkedWriters == s.parkedWriters && s'.wokenWriters == s.wokenWriters
    ensures Waiting(s') == Waiting(s)
  {}

  lemma LeaveWriteFacts(s: Lock, t: Tid)
    requires t in Waiting(s) && Separate(s)
    ensures var s1 := LeaveWriteWait(s, t);
            Waiting(s1) == Waiting(s) - {t} && |Waiting(s1)| == |Waiting(s)| - 1 && Separate(s1)
            && t !in Inside(s1) && s1.readers == s.readers && s1.writers == s.writers
  {
    var s1 := LeaveWriteWait(s, t);
    assert Waiting(s1) == Waiting(s) - {t};
  }

  lemma ParkWriterFacts(s: Lock, t: Tid)
    requires t !in Inside(s) && Separate(s)
    ensures var s1 := s.(parkedWriters := s.parkedWriters + {t});
            Waiting(s1) == Waiting(s) + {t} && |Waiting(s1)| == |Waiting(s)| + 1 && Separate(s1)
  {
    var s1 := s.(parkedWriters := s.parkedWriters + {t});
    assert Waiting(s1) == Waiting(s) + {t};
  }

  lemma SignalFacts(s: Lock, pick: Tid)
    requires Separate(s)
    ensures Waiting(SignalWriter(s, pick)) == Waiting(s) && Separate(SignalWriter(s, pick))
  {
    var s1 := SignalWriter(s, pick);
    if pick in s.parkedWriters {
      assert Waiting(s1) == Waiting(s);
    }
  }

  lemma BroadcastFacts(s: Lock)
    requires Separate(s)
    ensures Waiting(BroadcastReaders(s)) == Waiting(s) && Separate(BroadcastReaders(s))
    ensures BroadcastReaders(s).readers == s.readers && BroadcastReaders(s).writers == s.writers
  {
    var s1 := BroadcastReaders(s);
    SameWaiting(s, s1);
    assert s1.parkedReaders + s1.wokenReaders == s.parkedReaders + s.wokenReaders;
  }

  // ---------- Every step keeps the invariant ----------

  lemma InitInv()
    ensures Inv(Init()) && NoLostWakeup(Init())
  {}

  lemma ReadSectionInv(s: Lock, t: Tid)
    requires Inv(s) && t !in Inside(s)
    ensures Inv(ReadSection(s, t).0) && Inv(TryReadSection(s, t).0)
    ensures NoLostWakeup(s) ==> NoLostWakeup(ReadSection(s, t).0) && NoLostWakeup(TryReadSection(s, t).0)
  {
    assert Waiting(ReadSection(s, t).0) == Waiting(s) == Waiting(TryReadSection(s, t).0);
  }

  lemma WriteSectionInv(s: Lock, t: Tid)
    requires Inv(s) && t !in Inside(s)
    ensures Inv(WriteSection(s, t).0) && Inv(TryWriteSection(s, t).0)
    ensures NoLostWakeup(s) ==> NoLostWakeup(WriteSection(s, t).0) && NoLostWakeup(TryWriteSection(s, t).0)
  {
    ParkWriterFacts(s, t);
    SameWaiting(s, s.(writers := {t}));
  }

  lemma LeaveReadInv(s: Lock, t: Tid)
    requires Inv(s) && t in s.parkedReaders + s.wokenReaders
    ensures Inv(LeaveReadWait(s, t)) && t !in Inside(LeaveReadWait(s, t))
    ensures NoLostWakeup(s) ==> NoLostWakeup(LeaveReadWait(s, t))
  {
    assert Waiting(LeaveReadWait(s, t)) == Waiting(s);
  }

  lemma WriteWakeInv(s: Lock, t: Tid)
    requires Inv(s) && t in Waiting(s)
    ensures Inv(WriteSection(LeaveWriteWait(s, t), t).0) && NoLostWakeup(WriteSection(LeaveWriteWait(s, t), t).0)
    ensures WriteSection(LeaveWriteWait(s, t), t).1 != Again
  {
    LeaveWriteFacts(s, t);
    var s1 := LeaveWriteWait(s, t);
    if Free(s) {
      SameWaiting(s1, s1.(writers := {t}));
    } else {
      ParkWriterFacts(s1, t);
    }
  }

  lemma LastOf(a: set<Tid>, t: Tid)
    ensures a - {t} == {} <==> a == {} || a == {t}
    ensures t !in a ==> a - {t} == a
  {}

  /** A failing wait changes only who waits, and lets readers go when no writer is left to wait for. */
  lemma WriteFailParts(s: Lock, t: Tid)
    requires Inv(s) && t in Waiting(s)
    ensures var s' := WriteFailSection(s, t).0;
            && Inv(s') && s'.readers == s.readers && s'.writers == s.writers && Waiting(s') == Waiting(s) - {t}
            && s'.parkedWriters == s.parkedWriters - {t} && s'.wokenWriters == s.wokenWriters - {t}
            && s'.parkedReaders == if Waiting(s) == {t} && s.writers == {} then {} else s.parkedReaders
  {
    hide Waiting, Inside, Separate;
    LeaveWriteFacts(s, t);
    BroadcastFacts(LeaveWriteWait(s, t));
    LastOf(Waiting(s), t);
  }

  lemma OneWaits(s: Lock, t: Tid)
    requires Separate(s) && t in Waiting(s)
    ensures t in s.parkedWriters <==> t !in s.wokenWriters
    ensures Waiting(s) == {t} ==> s.parkedWriters - {t} == {}
  {}

  lemma WriteFailInv(s: Lock, t: Tid)
    requires Inv(s) && t in Waiting(s)
    ensures Inv(WriteFailSection(s, t).0)
    ensures NoLostWakeup(s) ==> (NoLostWakeup(WriteFailSection(s, t).0) <==> !Strands(s, WrFail(t)))
  {
    hide WriteFailSection, Inside, Waiting, Separate;
    WriteFailParts(s, t);
    OneWaits(s, t);
    LastOf(s.parkedWriters, t);
    LastOf(s.wokenWriters, t);
    LastOf(Waiting(s), t);
  }

  lemma SignalInv(s: Lock, pick: Tid)
    requires Inv(s) && (s.parkedWriters != {} ==> pick in s.parkedWriters) && Waiting(s) != {}
    ensures Inv(SignalWriter(s, pick)) && NoLostWakeup(SignalWriter(s, pick))
  {
    SignalFacts(s, pick);
  }

  lemma ReadUnlockInv(s: Lock, t: Tid, pick: Tid)
    requires Inv(s) && Enabled(s, RdUnlock(t, pick))
    ensures Inv(ReadUnlockSection(s, t, pick).0)
    ensures NoLostWakeup(s) ==> NoLostWakeup(ReadUnlockSection(s, t, pick).0)
  {
    if s.readers != multiset{} {
      var s1 := s.(readers := s.readers - multiset{t});
      assert |s1.readers| == |s.readers| - 1;
      SameWaiting(s, s1);
      if s1.readers == multiset{} && Waiting(s1) != {} {
        SignalInv(s1, pick);
      }
    }
  }

  lemma WriteUnlockInv(s: Lock, t: Tid, pick: Tid)
    requires Inv(s) && Enabled(s, WrUnlock(t, pick))
    ensures Inv(WriteUnlockSection(s, t, pick).0)
    ensures NoLostWakeup(s) ==> NoLostWakeup(WriteUnlockSection(s, t, pick).0)
  {
    if s.writers != {} {
      var s1 := s.(writers := {});
      SameWaiting(s, s1);
      if Waiting(s1) != {} {
        SignalInv(s1, pick);
      } else {
        BroadcastFacts(s1);
      }
    }
  }

  /** Every step keeps exclusion, and every step but one kind keeps the wakeup guarantee. */
  lemma StepInv(s: Lock, step: Step)
    requires Inv(s) && Enabled(s, step)
    ensures Inv(Apply(s, step).0)
    ensures NoLostWakeup(s) ==> (NoLostWakeup(Apply(s, step).0) <==> !Strands(s, step))
  {
    hide Inv, NoLostWakeup;
    match step
    case RdLock(t) => ReadSectionInv(s, t);
    case WrLock(t) => WriteSectionInv(s, t);
    case TryRdLock(t, _) => ReadSectionInv(s, t);
    case TryWrLock(t, _) => WriteSectionInv(s, t);
    case RdUnlock(t, pick) => ReadUnlockInv(s, t, pick);
    case WrUnlock(t, pick) => WriteUnlockInv(s, t, pick);
    case RdWake(t) =>
      LeaveReadInv(s, t);
      ReadSectionInv(LeaveReadWait(s, t), t);
    case WrWake(t) => WriteWakeInv(s, t);
    case RdFail(t) => LeaveReadInv(s, t);
    case WrFail(t) => WriteFailInv(s, t);
  }

  // ---------- Whole runs ----------

  ghost predicate ValidRun(s: Lock, steps: seq<Step>)
    decreases |steps|
  {
    steps != [] ==> Enabled(s, steps[0]) && ValidRun(Apply(s, steps[0]).0, steps[1..])
  }

  function After(s: Lock, steps: seq<Step>): Lock
    requires ValidRun(s, steps)
    decreases |steps|
  {
    if steps == [] then s else After(Apply(s, steps[0]).0, steps[1..])
  }

  lemma {:induction false} RunInv(s: Lock, steps: seq<Step>)
    requires Inv(s) && ValidRun(s, steps)
    ensures Inv(After(s, steps))
    decreases |steps|
  {
    hide Inv, Apply, Enabled;
    if steps != [] {
      StepInv(s, steps[0]);
      RunInv(Apply(s, steps[0]).0, steps[1..]);
    }
  }

  /** Mutual exclusion, in every run. */
  lemma ReachableSafe(steps: seq<Step>)
    requires ValidRun(Init(), steps)
    ensures var s := After(Init(), steps);
            && (s.writers == {} || (s.readers == multiset{} && |s.writers| == 1))
            && |s.readers| <= INT_MAX && |Waiting(s)| <= UINT_MAX
  {
    InitInv();
    RunInv(Init(), steps);
    hide Waiting;
    var s := After(Init(), steps);
    if s.writers != {} {
      var w :| w in s.writers;
      assert |s.writers - {w}| == |s.writers| - 1;
    }
  }

  ghost predicate AlwaysWakes(s: Lock, steps: seq<Step>)
    requires ValidRun(s, steps)
    decreases |steps|
  {
    NoLostWakeup(s) && (steps != [] ==> AlwaysWakes(Apply(s, steps[0]).0, steps[1..]))
  }

  ghost predicate NeverStrands(s: Lock, steps: seq<Step>)
    requires ValidRun(s, steps)
    decreases |steps|
  {
    steps != [] ==> !Strands(s, steps[0]) && NeverStrands(Apply(s, steps[0]).0, steps[1..])
  }

  lemma {:induction false} WakesRun(s: Lock, steps: seq<Step>)
    requires Inv(s) && NoLostWakeup(s) && ValidRun(s, steps)
    ensures AlwaysWakes(s, steps) <==> NeverStrands(s, steps)
    decreases |steps|
  {
    hide Inv, Apply, Enabled, NoLostWakeup, Strands;
    if steps != [] {
      StepInv(s, steps[0]);
      var s' := Apply(s, steps[0]).0;
      if NoLostWakeup(s') {
        WakesRun(s', steps[1..]);
      }
    }
  }

  /** No wakeup is ever lost in a run exactly when no wait of an only notified writer fails on a free lock. */
  lemma NoWakeupLost(steps: seq<Step>)
    requires ValidRun(Init(), steps)
    ensures AlwaysWakes(Init(), steps) <==> NeverStrands(Init(), steps)
  {
    InitInv();
    WakesRun(Init(), steps);
  }

  /** What the guarantee says of a free lock: if any thread is parked on it without a notification, some writer has
      been notified and will take the lock or pass it on. */
  lemma {:induction false} FreeLockIsWatched(s: Lock, steps: seq<Step>)
    requires ValidRun(s, steps) && AlwaysWakes(s, steps)
    ensures var s' := After(s, steps);
            Free(s') && s'.parkedReaders + s'.parkedWriters != {} ==> s'.wokenWriters != {}
    decreases |steps|
  {
    if steps != [] {
      FreeLockIsWatched(Apply(s, steps[0]).0, steps[1..]);
    }
  }

  lemma ConsRun(s: Lock, step: Step, rest: seq<Step>)
    requires Enabled(s, step) && ValidRun(Apply(s, step).0, rest)
    ensures ValidRun(s, [step] + rest) && After(s, [step] + rest) == After(Apply(s, step).0, rest)
  {
    assert ([step] + rest)[1..] == rest;
  }

  lemma ParksBehindReader(s: Lock, t: Tid)
    requires t !in s.parkedReaders + s.wokenReaders + s.parkedWriters + s.wokenWriters
    requires s.readers != multiset{} && |Waiting(s)| < UINT_MAX
    ensures Enabled(s, WrLock(t)) && Apply(s, WrLock(t)).0 == s.(parkedWriters := s.parkedWriters + {t})
  {}

  lemma LastReaderLeaves(s: Lock, t: Tid, pick: Tid)
    requires t !in s.parkedReaders + s.wokenReaders + s.parkedWriters + s.wokenWriters
    requires s.readers == multiset{t} && pick in s.parkedWriters
    ensures Enabled(s, RdUnlock(t, pick))
    ensures Apply(s, RdUnlock(t, pick)).0 ==
            s.(readers := multiset{}, parkedWriters := s.parkedWriters - {pick}, wokenWriters := s.wokenWriters + {pick})
  {
    assert s.readers - multiset{t} == multiset{};
    assert pick in Waiting(s);
  }

  lemma FirstReader()
    ensures Enabled(Init(), RdLock(0)) && Apply(Init(), RdLock(0)).0 == Init().(readers := multiset{0})
  {}

  lemma FewWait(s: Lock)
    requires s.parkedWriters <= {1} && s.wokenWriters == {}
    ensures |Waiting(s)| <= 1
  {
    assert Waiting(s) == {} || Waiting(s) == {1};
  }

  lemma NotifiedFails(s: Lock, t: Tid)
    requires s.wokenWriters == {t} && s.parkedWriters != {} && t !in s.parkedWriters
    ensures Enabled(s, WrFail(t)) && Apply(s, WrFail(t)).0 == s.(wokenWriters := {})
  {
    assert s.parkedWriters - {t} == s.parkedWriters;
  }

  /** Two writers wait for a reader, the reader notifies one, and that one's wait fails: the other sleeps on a free
      lock. */
  lemma StrandingRun() returns (steps: seq<Step>)
    ensures ValidRun(Init(), steps)
    ensures var s := After(Init(), steps); Free(s) && s.parkedWriters != {} && s.wokenWriters == {} && s.wokenReaders == {}
  {
    hide Apply, Enabled, Waiting;
    var s0 := Init();
    var s1 := s0.(readers := multiset{0});
    var s2 := s1.(parkedWriters := {1});
    var s3 := s1.(parkedWriters := {1, 2});
    var s4 := s0.(parkedWriters := {2}, wokenWriters := {1});
    FirstReader();
    FewWait(s1);
    ParksBehindReader(s1, 1);
    FewWait(s2);
    ParksBehindReader(s2, 2);
    LastReaderLeaves(s3, 0, 1);
    NotifiedFails(s4, 1);
    assert s1.parkedWriters + {1} == {1} && s2.parkedWriters + {2} == {1, 2} && s3.parkedWriters - {1} == {2};
    steps := [WrFail(1)];
    ConsRun(s4, WrFail(1), []);
    ConsRun(s3, RdUnlock(0, 1), steps);
    steps := [RdUnlock(0, 1)] + steps;
    ConsRun(s2, WrLock(2), steps);
    steps := [WrLock(2)] + steps;
    ConsRun(s1, WrLock(1), steps);
    steps := [WrLock(1)] + steps;
    ConsRun(s0, RdLock(0), steps);
    steps := [RdLock(0)] + steps;
  }

  lemma ReadAdmits(s: Lock, t: Tid)
    ensures |ReadSection(s, t).0.readers| > |s.readers| ==>
              Waiting(s) == {} && s.writers == {} && |s.readers| != INT_MAX
  {}

  lemma WriteAdmits(s: Lock, t: Tid)
    ensures WriteSection(s, t).0.readers == s.readers
  {}

  lemma UnlockShrinks(s: Lock, t: Tid, pick: Tid)
    ensures |ReadUnlockSection(s, t, pick).0.readers| <= |s.readers|
  {
    assert |s.readers - multiset{t}| <= |s.readers|;
  }

  /** Writer preference: a step that admits a reader finds no writer waiting. */
  lemma NoReaderPastWriter(s: Lock, step: Step)
    requires Inv(s) && Enabled(s, step)
    ensures |Apply(s, step).0.readers| > |s.readers| ==> Waiting(s) == {} && s.writers == {} && |s.readers| != INT_MAX
  {
    hide Inv, Waiting, ReadSection, WriteSection;
    match step
    case RdLock(t) => ReadAdmits(s, t);
    case RdWake(t) =>
      SameWaiting(s, LeaveReadWait(s, t));
      ReadAdmits(LeaveReadWait(s, t), t);
    case WrLock(t) => WriteAdmits(s, t);
    case WrWake(t) => WriteAdmits(LeaveWriteWait(s, t), t);
    case RdUnlock(t, pick) => UnlockShrinks(s, t, pick);
    case _ =>
  }

  /** The lock is never left idle: with no holder and somebody inside a call, some thread in a call can step. */
  lemma FreeLockIsTaken(s: Lock) returns (t: Tid)
    requires Inv(s) && NoLostWakeup(s) && Free(s) && Inside(s) != {}
    ensures t in s.wokenReaders + s.wokenWriters
    ensures t in s.wokenWriters ==> Enabled(s, WrWake(t)) && t in Apply(s, WrWake(t)).0.writers
    ensures Waiting(s) == {} ==> Enabled(s, RdWake(t)) && t in Apply(s, RdWake(t)).0.readers
  {
    if Waiting(s) != {} {
      t :| t in s.wokenWriters;
    } else {
      t :| t in s.wokenReaders;
    }
  }

  // ---------- What the answers mean ----------

  /** A writer holds the lock or waits for it. */
  predicate WriterAhead(s: Lock) {
    s.writers != {} || s.parkedWriters + s.wokenWriters != {}
  }

  /** Thread `t` is out of its wait. */
  function Without(s: Lock, t: Tid): Lock {
    s.(parkedReaders := s.parkedReaders - {t}, wokenReaders := s.wokenReaders - {t},
       parkedWriters := s.parkedWriters - {t}, wokenWriters := s.wokenWriters - {t})
  }

  /** A reader that is out of any wait found `s` and left `s'`; a call that only tries does not wait. */
  predicate ReadMeans(s: Lock, s': Lock, t: Tid, tries: bool, rc: Status) {
    && (rc == Ok <==> !WriterAhead(s) && |s.readers| < INT_MAX)
    && (rc == Again <==> !WriterAhead(s) && |s.readers| >= INT_MAX)
    && (rc == (if tries then Busy else Waits) <==> WriterAhead(s))
    && s' == s.(readers := if rc == Ok then s.readers + multiset{t} else s.readers,
                parkedReaders := if rc == Waits then s.parkedReaders + {t} else s.parkedReaders)
  }

  /** The same of a writer. */
  predicate WriteMeans(s: Lock, s': Lock, t: Tid, tries: bool, rc: Status) {
    var others := |s.parkedWriters + s.wokenWriters|;
    && (rc == Ok <==> Free(s))
    && (tries ==> (rc == Busy <==> !Free(s)))
    && (!tries ==> (rc == Waits <==> !Free(s) && others < UINT_MAX) && (rc == Again <==> !Free(s) && others >= UINT_MAX))
    && s' == s.(writers := if rc == Ok then {t} else s.writers,
                parkedWriters := if rc == Waits then s.parkedWriters + {t} else s.parkedWriters)
  }

  /** Writer `pick` is notified if it is parked. */
  predicate Told(s: Lock, s': Lock, pick: Tid) {
    if pick in s.parkedWriters
    then s'.parkedWriters == s.parkedWriters - {pick} && s'.wokenWriters == s.wokenWriters + {pick}
    else s'.parkedWriters == s.parkedWriters && s'.wokenWriters == s.wokenWriters
  }

  /** All parked readers are notified, or none. */
  predicate LetIn(s: Lock, s': Lock, all: bool) {
    if all then s'.parkedReaders == {} && s'.wokenReaders == s.wokenReaders + s.parkedReaders
    else s'.parkedReaders == s.parkedReaders && s'.wokenReaders == s.wokenReaders
  }

  predicate ReadUnlockMeans(s: Lock, s': Lock, t: Tid, pick: Tid, rc: Status) {
    && (rc == Ok <==> t in s.readers) && (rc == Invalid <==> t !in s.readers)
    && (rc == Ok ==> s'.readers == s.readers - multiset{t}) && (rc != Ok ==> s' == s)
    && s'.writers == s.writers && LetIn(s, s', false)
    && if rc == Ok && s'.readers == multiset{} then Told(s, s', pick)
       else s'.parkedWriters == s.parkedWriters && s'.wokenWriters == s.wokenWriters
  }

  predicate WriteUnlockMeans(s: Lock, s': Lock, t: Tid, pick: Tid, rc: Status) {
    && (rc == Ok <==> t in s.writers) && (rc == Invalid <==> t !in s.writers)
    && (rc == Ok ==> s'.writers == {} && Told(s, s', pick)) && (rc != Ok ==> s' == s)
    && s'.readers == s.readers && LetIn(s, s', rc == Ok && s.parkedWriters + s.wokenWriters == {})
  }

  predicate WriteFailMeans(s: Lock, s': Lock, t: Tid, rc: Status) {
    && rc == Failed && s'.readers == s.readers && s'.writers == s.writers
    && s'.parkedWriters == s.parkedWriters - {t} && s'.wokenWriters == s.wokenWriters - {t}
    && LetIn(s, s', s'.parkedWriters + s'.wokenWriters == {} && s.writers == {})
  }

  /** What the answer to each call says about the lock it found and the lock it left. */
  predicate Means(s: Lock, step: Step, s': Lock, rc: Status) {
    match step
    case RdLock(t) => ReadMeans(s, s', t, false, rc)
    case RdWake(t) => ReadMeans(Without(s, t), s', t, false, rc)
    case TryRdLock(t, busy) => if busy then rc == Busy && s' == s else ReadMeans(s, s', t, true, rc)
    case WrLock(t) => WriteMeans(s, s', t, false, rc)
    case WrWake(t) => WriteMeans(Without(s, t), s', t, false, rc)
    case TryWrLock(t, busy) => if busy then rc == Busy && s' == s else WriteMeans(s, s', t, true, rc)
    case RdUnlock(t, pick) => ReadUnlockMeans(s, s', t, pick, rc)
    case WrUnlock(t, pick) => WriteUnlockMeans(s, s', t, pick, rc)
    case RdFail(t) => rc == Failed && s' == Without(s, t)
    case WrFail(t) => WriteFailMeans(s, s', t, rc)
  }

  lemma OutOfWait(s: Lock, t: Tid)
    requires Separate(s)
    ensures t in s.parkedReaders + s.wokenReaders ==> Without(s, t) == LeaveReadWait(s, t)
    ensures t in Waiting(s) ==> Without(s, t) == LeaveWriteWait(s, t)
  {
    assert t !in s.parkedReaders ==> s.parkedReaders - {t} == s.parkedReaders;
    assert t !in s.wokenReaders ==> s.wokenReaders - {t} == s.wokenReaders;
    assert t !in s.parkedWriters ==> s.parkedWriters - {t} == s.parkedWriters;
    assert t !in s.wokenWriters ==> s.wokenWriters - {t} == s.wokenWriters;
  }

  lemma ReadAnswers(s: Lock, t: Tid)
    requires |s.readers| <= INT_MAX
    ensures var (s', rc) := ReadSection(s, t); ReadMeans(s, s', t, false, rc)
    ensures var (s', rc) := TryReadSection(s, t); ReadMeans(s, s', t, true, rc)
  {}

  lemma WriteAnswers(s: Lock, t: Tid)
    requires |Waiting(s)| <= UINT_MAX
    ensures var (s', rc) := WriteSection(s, t); WriteMeans(s, s', t, false, rc)
    ensures var (s', rc) := TryWriteSection(s, t); WriteMeans(s, s', t, true, rc)
  {}

  /** With nobody parked a signal does nothing, so that it does not matter who is tested for before it. */
  lemma SignalTells(s: Lock, pick: Tid)
    requires s.parkedWriters != {} ==> pick in s.parkedWriters
    ensures var s' := SignalWriter(s, pick);
            Told(s, s', pick) && s' == s.(parkedWriters := s'.parkedWriters, wokenWriters := s'.wokenWriters)
    ensures Waiting(s) == {} ==> SignalWriter(s, pick) == s
  {
    assert s.parkedWriters <= Waiting(s);
  }

  lemma ReadUnlockAnswers(s: Lock, t: Tid, pick: Tid)
    requires Enabled(s, RdUnlock(t, pick))
    ensures var (s', rc) := ReadUnlockSection(s, t, pick); ReadUnlockMeans(s, s', t, pick, rc)
  {
    hide Waiting, Inside, SignalWriter;
    assert t in s.readers <==> s.readers != multiset{};
    SignalTells(s.(readers := s.readers - multiset{t}), pick);
  }

  lemma WriteUnlockAnswers(s: Lock, t: Tid, pick: Tid)
    requires Enabled(s, WrUnlock(t, pick))
    ensures var (s', rc) := WriteUnlockSection(s, t, pick); WriteUnlockMeans(s, s', t, pick, rc)
  {
    hide Inside, SignalWriter;
    assert t in s.writers <==> s.writers != {};
    SignalTells(s.(writers := {}), pick);
    assert Waiting(s.(writers := {})) == s.parkedWriters + s.wokenWriters;
  }

  lemma WriteFailAnswers(s: Lock, t: Tid)
    ensures var (s', rc) := WriteFailSection(s, t); rc == Failed && WriteFailMeans(s, s', t, rc)
  {}

  lemma AnswerBounds(s: Lock, t: Tid)
    requires Inv(s)
    ensures Separate(s) && |s.readers| <= INT_MAX && |Waiting(s)| <= UINT_MAX
    ensures Without(s, t).readers == s.readers
  {}

  lemma WakeBounds(s: Lock, t: Tid)
    requires Inv(s) && t in Waiting(s)
    ensures Without(s, t) == LeaveWriteWait(s, t) && |Waiting(Without(s, t))| <= UINT_MAX
  {
    hide Inv, Waiting, Without, LeaveWriteWait;
    AnswerBounds(s, t);
    LeaveWriteFacts(s, t);
    OutOfWait(s, t);
  }

  /** Every answer means what `Means` says, at every step. */
  lemma AnswersMean(s: Lock, step: Step)
    requires Inv(s) && Enabled(s, step)
    ensures Means(s, step, Apply(s, step).0, Apply(s, step).1)
    ensures step.RdFail? || step.WrFail? ==> Apply(s, step).1 == Failed
  {
    hide Inv, Waiting, ReadMeans, WriteMeans, ReadUnlockMeans, WriteUnlockMeans, WriteFailMeans, Without, LeaveReadWait,
      LeaveWriteWait, ReadSection, WriteSection, TryReadSection, TryWriteSection, ReadUnlockSection, WriteUnlockSection,
      WriteFailSection;
    AnswerBounds(s, step.t);
    match step
    case RdLock(t) => ReadAnswers(s, t);
    case RdWake(t) => OutOfWait(s, t); ReadAnswers(Without(s, t), t);
    case TryRdLock(t, _) => ReadAnswers(s, t);
    case WrLock(t) => WriteAnswers(s, t);
    case WrWake(t) => WakeBounds(s, t); WriteAnswers(Without(s, t), t);
    case TryWrLock(t, _) => WriteAnswers(s, t);
    case RdUnlock(t, pick) => ReadUnlockAnswers(s, t, pick);
    case WrUnlock(t, pick) => WriteUnlockAnswers(s, t, pick);
    case RdFail(t) => OutOfWait(s, t);
    case WrFail(t) => WriteFailAnswers(s, t);
  }
}

/** The lock object with its two counters; each method runs with `mutex_` held from start to end. */
module RwLockSections {
  import opened RwLock

  lemma Rejoin(s: Lock, t: Tid) returns (s1: Lock)
    requires Inv(s) && t in Waiting(s)
    ensures s1 == LeaveWriteWait(s, t) && Inv(WriteSection(s1, t).0)
    ensures |Waiting(s1)| == |Waiting(s)| - 1 < UINT_MAX && s1.readers == s.readers && s1.writers == s.writers
    ensures |Waiting(s1.(parkedWriters := s1.parkedWriters + {t}))| == |Waiting(s)|
    ensures Waiting(s1.(writers := {t})) == Waiting(s1)
    ensures s.writers == {} ==> (s.readers == multiset{} <==> |s.readers| == 0)
  {
    WriteWakeInv(s, t);
    LeaveWriteFacts(s, t);
    s1 := LeaveWriteWait(s, t);
    ParkWriterFacts(s1, t);
    SameWaiting(s1, s1.(writers := {t}));
  }

  lemma GiveUp(s: Lock, t: Tid) returns (s1: Lock)
    requires Inv(s) && t in Waiting(s)
    ensures Inv(WriteFailSection(s, t).0)
    ensures s1 == LeaveWriteWait(s, t) && |Waiting(s1)| == |Waiting(s)| - 1
    ensures s1.readers == s.readers && s1.writers == s.writers
    ensures var s2 := BroadcastReaders(s1);
            Waiting(s2) == Waiting(s1) && s2.readers == s.readers && s2.writers == s.writers
    ensures WriteFailSection(s, t).0 == if |Waiting(s1)| == 0 && s.writers == {} then BroadcastReaders(s1) else s1
  {
    WriteFailInv(s, t);
    LeaveWriteFacts(s, t);
    s1 := LeaveWriteWait(s, t);
    BroadcastFacts(s1);
  }

  lemma HolderFacts(s: Lock)
    requires Inv(s)
    ensures s.writers != {} ==> s.readers == multiset{}
    ensures |s.readers| == 0 <==> s.readers == multiset{}
  {}

  lemma DropReader(s: Lock, s1: Lock, t: Tid, pick: Tid)
    requires Inv(s) && t in s.readers && s1 == s.(readers := s.readers - multiset{t})
    ensures Waiting(s1) == Waiting(s) == Waiting(SignalWriter(s1, pick))
    ensures SignalWriter(s1, pick).readers == s1.readers && SignalWriter(s1, pick).writers == s.writers == {}
    ensures |s1.readers| == |s.readers| - 1 && (s1.readers == multiset{} <==> |s1.readers| == 0)
    ensures Waiting(s) == {} <==> |Waiting(s)| == 0
  {
    SameWaiting(s, s1);
    SignalFacts(s1, pick);
  }

  lemma DropWriter(s: Lock, s1: Lock, pick: Tid)
    requires Inv(s) && s.writers != {} && s1 == s.(writers := {})
    ensures Waiting(s1) == Waiting(s) == Waiting(SignalWriter(s1, pick)) == Waiting(BroadcastReaders(s1))
    ensures SignalWriter(s1, pick).readers == BroadcastReaders(s1).readers == s.readers == multiset{}
    ensures SignalWriter(s1, pick).writers == BroadcastReaders(s1).writers == {}
    ensures Waiting(s) == {} <==> |Waiting(s)| == 0
  {
    SameWaiting(s, s1);
    SignalFacts(s1, pick);
    BroadcastFacts(s1);
  }

  lemma JoinWriter(s: Lock, t: Tid)
    requires Inv(s) && t !in Inside(s)
    ensures Inv(WriteSection(s, t).0) && Inv(TryWriteSection(s, t).0)
    ensures |Waiting(s.(parkedWriters := s.parkedWriters + {t}))| == |Waiting(s)| + 1
    ensures Waiting(s.(writers := {t})) == Waiting(s)
    ensures s.writers != {} ==> s.readers == multiset{}
    ensures |s.readers| == 0 <==> s.readers == multiset{}
  {
    WriteSectionInv(s, t);
    ParkWriterFacts(s, t);
    SameWaiting(s, s.(writers := {t}));
  }

  lemma LeaveReadShows(s: Lock, t: Tid)
    requires Inv(s) && t in s.parkedReaders + s.wokenReaders
    ensures Inv(LeaveReadWait(s, t)) && t !in Inside(LeaveReadWait(s, t)) && Waiting(LeaveReadWait(s, t)) == Waiting(s)
  {
    LeaveReadInv(s, t);
    assert Waiting(LeaveReadWait(s, t)) == Waiting(s);
  }

  lemma TryIs(s: Lock, t: Tid, busy: bool)
    ensures Enabled(s, TryRdLock(t, busy)) || Enabled(s, TryWrLock(t, busy)) ==> t !in Inside(s)
    ensures Enabled(s, TryRdLock(t, busy)) ==>
              Apply(s, TryRdLock(t, busy)) == if busy then (s, Busy) else TryReadSection(s, t)
    ensures Enabled(s, TryWrLock(t, busy)) ==>
              Apply(s, TryWrLock(t, busy)) == if busy then (s, Busy) else TryWriteSection(s, t)
  {}

  lemma JoinReader(s: Lock, t: Tid)
    requires Inv(s) && t !in Inside(s)
    ensures Inv(ReadSection(s, t).0) && Inv(TryReadSection(s, t).0)
    ensures Waiting(s.(parkedReaders := s.parkedReaders + {t})) == Waiting(s)
    ensures Waiting(s.(readers := s.readers + multiset{t})) == Waiting(s)
    ensures |s.readers + multiset{t}| == |s.readers| + 1
    ensures Waiting(s) == {} <==> |Waiting(s)| == 0
  {
    ReadSectionInv(s, t);
    SameWaiting(s, s.(parkedReaders := s.parkedReaders + {t}));
    SameWaiting(s, s.(readers := s.readers + multiset{t}));
  }

  class RwLockObject {
    var state: int
    var waitingWriters: nat

    ghost var lock: Lock

    /** `state_` is -1 under a writer and the number of read locks otherwise. */
    ghost predicate Valid()
      reads this
    {
      && Inv(lock)
      && state == (if lock.writers != {} then -1 else |lock.readers|)
      && waitingWriters == |Waiting(lock)|
    }

    constructor ()
      ensures Valid() && lock == Init()
    {
      state, waitingWriters := 0, 0;
      lock := Init();
    }

    /** `ct_rwlock_rdlock` from holding the mutex: the loop test, and then the admission or the wait. */
    method ReadAttempt(t: Tid) returns (rc: Status)
      requires Valid() && t !in Inside(lock)
      modifies this
      ensures Valid() && (lock, rc) == ReadSection(old(lock), t)
      ensures Means(old(lock), RdLock(t), lock, rc)
    {
      hide Inv, Waiting, Inside, Means;
      AnswersMean(lock, RdLock(t));
      JoinReader(lock, t);
      if state < 0 || waitingWriters != 0 {
        lock := lock.(parkedReaders := lock.parkedReaders + {t});
        return Waits;
      }
      if state == INT_MAX {
        return Again;
      }
      state := state + 1;
      lock := lock.(readers := lock.readers + multiset{t});
      return Ok;
    }

    method ReadRetry(t: Tid) returns (rc: Status)
      requires Valid() && Enabled(lock, RdWake(t))
      modifies this
      ensures Valid() && (lock, rc) == Apply(old(lock), RdWake(t))
      ensures Means(old(lock), RdWake(t), lock, rc)
    {
      hide Inv, Waiting, Inside, Separate, Means;
      AnswersMean(lock, RdWake(t));
      LeaveReadShows(lock, t);
      lock := LeaveReadWait(lock, t);
      rc := ReadAttempt(t);
    }

    method WriteAttempt(t: Tid) returns (rc: Status)
      requires Valid() && t !in Inside(lock)
      modifies this
      ensures Valid() && (lock, rc) == WriteSection(old(lock), t)
      ensures Means(old(lock), WrLock(t), lock, rc)
    {
      hide Inv, Waiting, Inside, Separate, Means;
      AnswersMean(lock, WrLock(t));
      JoinWriter(lock, t);
      if state != 0 {
        if waitingWriters == UINT_MAX {
          return Again;
        }
        waitingWriters := waitingWriters + 1;
        lock := lock.(parkedWriters := lock.parkedWriters + {t});
        return Waits;
      }
      state := -1;
      lock := lock.(writers := {t});
      return Ok;
    }

    /** The loop of `ct_rwlock_wrlock` from the return of its wait. */
    method WriteRetry(t: Tid) returns (rc: Status)
      requires Valid() && Enabled(lock, WrWake(t))
      modifies this
      ensures Valid() && (lock, rc) == Apply(old(lock), WrWake(t))
      ensures Means(old(lock), WrWake(t), lock, rc)
    {
      hide Inv, Waiting, Inside, Separate, LeaveWriteWait, Means;
      AnswersMean(lock, WrWake(t));
      ghost var s1 := Rejoin(lock, t);
      waitingWriters := waitingWriters - 1;
      if state != 0 {
        waitingWriters := waitingWriters + 1;
        lock := s1.(parkedWriters := s1.parkedWriters + {t});
        return Waits;
      }
      state := -1;
      lock := s1.(writers := {t});
      return Ok;
    }

    /** The error exit of the loop of `ct_rwlock_wrlock`. */
    method WriteGiveUp(t: Tid)
      requires Valid() && Enabled(lock, WrFail(t))
      modifies this
      ensures Valid() && lock == Apply(old(lock), WrFail(t)).0
      ensures Means(old(lock), WrFail(t), lock, Failed)
    {
      hide Inv, Waiting, Separate, BroadcastReaders, LeaveWriteWait, WriteFailSection, Means;
      AnswersMean(lock, WrFail(t));
      ghost var s1 := GiveUp(lock, t);
      waitingWriters := waitingWriters - 1;
      if waitingWriters == 0 && state >= 0 {
        lock := BroadcastReaders(s1);
      } else {
        lock := s1;
      }
    }

    /** The error exit of the loop of `ct_rwlock_rdlock`. */
    method ReadGiveUp(t: Tid)
      requires Valid() && Enabled(lock, RdFail(t))
      modifies this
      ensures Valid() && lock == Apply(old(lock), RdFail(t)).0
      ensures Means(old(lock), RdFail(t), lock, Failed)
    {
      hide Inv, Waiting, Inside, Separate, Means;
      AnswersMean(lock, RdFail(t));
      LeaveReadShows(lock, t);
      lock := LeaveReadWait(lock, t);
    }

    /** `busy` is what `ct_mutex_trylock` finds. */
    method TryRead(t: Tid, busy: bool) returns (rc: Status)
      requires Valid() && Enabled(lock, TryRdLock(t, busy))
      modifies this
      ensures Valid() && (lock, rc) == Apply(old(lock), TryRdLock(t, busy))
      ensures Means(old(lock), TryRdLock(t, busy), lock, rc)
    {
      hide Inv, Waiting, Inside, Separate, Apply, Enabled, Means;
      AnswersMean(lock, TryRdLock(t, busy));
      TryIs(lock, t, busy);
      if busy {
        return Busy;
      }
      JoinReader(lock, t);
      if state < 0 || waitingWriters != 0 {
        return Busy;
      } else if state == INT_MAX {
        return Again;
      }
      state := state + 1;
      lock := lock.(readers := lock.readers + multiset{t});
      return Ok;
    }

    method TryWrite(t: Tid, busy: bool) returns (rc: Status)
      requires Valid() && Enabled(lock, TryWrLock(t, busy))
      modifies this
      ensures Valid() && (lock, rc) == Apply(old(lock), TryWrLock(t, busy))
      ensures Means(old(lock), TryWrLock(t, busy), lock, rc)
    {
      hide Inv, Waiting, Inside, Separate, Apply, Enabled, Means;
      AnswersMean(lock, TryWrLock(t, busy));
      TryIs(lock, t, busy);
      if busy {
        return Busy;
      }
      JoinWriter(lock, t);
      if state != 0 {
        return Busy;
      }
      state := -1;
      lock := lock.(writers := {t});
      return Ok;
    }

    method ReadUnlock(t: Tid, ghost pick: Tid) returns (rc: Status)
      requires Valid() && Enabled(lock, RdUnlock(t, pick))
      modifies this
      ensures Valid() && (lock, rc) == Apply(old(lock), RdUnlock(t, pick))
      ensures Means(old(lock), RdUnlock(t, pick), lock, rc)
    {
      hide Inv, Waiting, Inside, SignalWriter, Means;
      AnswersMean(lock, RdUnlock(t, pick));
      ReadUnlockInv(lock, t, pick);
      assert Inv(lock) && (state <= 0 <==> lock.readers == multiset{}) by {
        HolderFacts(lock);
      }
      if state <= 0 {
        return Invalid;
      }
      rc := Ok;
      ghost var s1 := lock.(readers := lock.readers - multiset{t});
      DropReader(lock, s1, t, pick);
      state := state - 1;
      if state == 0 && waitingWriters != 0 {
        lock := SignalWriter(s1, pick);
      } else {
        lock := s1;
      }
    }

    method WriteUnlock(t: Tid, ghost pick: Tid) returns (rc: Status)
      requires Valid() && Enabled(lock, WrUnlock(t, pick))
      modifies this
      ensures Valid() && (lock, rc) == Apply(old(lock), WrUnlock(t, pick))
      ensures Means(old(lock), WrUnlock(t, pick), lock, rc)
    {
      hide Inv, Waiting, Inside, Separate, SignalWriter, BroadcastReaders, Means;
      AnswersMean(lock, WrUnlock(t, pick));
      WriteUnlockInv(lock, t, pick);
      HolderFacts(lock);
      if state != -1 {
        return Invalid;
      }
      ghost var s1 := lock.(writers := {});
      DropWriter(lock, s1, pick);
      state := 0;
      if waitingWriters != 0 {
        lock := SignalWriter(s1, pick);
      } else {
        lock := BroadcastReaders(s1);
      }
      return Ok;
    }
  }
}
