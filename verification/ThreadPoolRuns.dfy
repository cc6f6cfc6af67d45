/** What holds over every run of the thread pool, and exactly when no accepted task is lost. */
module ThreadPoolRuns {
  import opened ThreadPool
  import opened ThreadPoolProofs

  ghost predicate ValidRun(s: Pool, steps: seq<Step>)
    decreases |steps|
  {
    steps != [] ==> Enabled(s, steps[0]) && ValidRun(Apply(s, steps[0]), steps[1..])
  }

  function After(s: Pool, steps: seq<Step>): Pool
    requires ValidRun(s, steps)
    decreases |steps|
  {
    if steps == [] then s else After(Apply(s, steps[0]), steps[1..])
  }

  lemma {:induction false} ConcatRun(s: Pool, xs: seq<Step>, ys: seq<Step>)
    requires ValidRun(s, xs) && ValidRun(After(s, xs), ys)
    ensures ValidRun(s, xs + ys) && After(s, xs + ys) == After(After(s, xs), ys)
    decreases |xs|
  {
    hide Apply, Enabled;
    if xs == [] {
      assert xs + ys == ys;
    } else {
      assert (xs + ys)[0] == xs[0] && (xs + ys)[1..] == xs[1..] + ys;
      ConcatRun(Apply(s, xs[0]), xs[1..], ys);
    }
  }

  lemma SubmitConfig(s: Pool, t: Task, how: Creation, w: Worker, pick: Worker)
    ensures SubmitBody(s, t, how, w, pick).0.cfg == s.cfg
  {
  }

  lemma StepConfig(s: Pool, step: Step)
    requires Enabled(s, step)
    ensures Apply(s, step).cfg == s.cfg
  {
    match step
    case Submit(t, how, w, pick) => SubmitConfig(s.(seen := s.seen + {t}), t, how, w, pick);
    case Resume(t, how, w, pick) => SubmitConfig(Unblock(s, t), t, how, w, pick);
    case _ =>
  }

  lemma {:induction false} RunInv(s: Pool, steps: seq<Step>)
    requires Inv(s) && ValidRun(s, steps)
    ensures Inv(After(s, steps)) && After(s, steps).cfg == s.cfg
    decreases |steps|
  {
    hide Inv, Apply;
    if steps != [] {
      StepInv(s, steps[0]);
      StepConfig(s, steps[0]);
      RunInv(Apply(s, steps[0]), steps[1..]);
    }
  }

  lemma {:induction false} RunLive(s: Pool, steps: seq<Step>)
    requires Inv(s) && LiveInv(s) && Safe(s.cfg) && ValidRun(s, steps)
    ensures LiveInv(After(s, steps))
    decreases |steps|
  {
    hide Inv, LiveInv, Apply;
    if steps != [] {
      StepInv(s, steps[0]);
      StepLive(s, steps[0]);
      StepConfig(s, steps[0]);
      RunLive(Apply(s, steps[0]), steps[1..]);
    }
  }

  // ---------- What the invariants mean ----------

  /** In every reachable state of every configuration. */
  lemma ReachableInv(cfg: Config, steps: seq<Step>)
    requires ValidRun(Init(cfg), steps)
    ensures Inv(After(Init(cfg), steps)) && After(Init(cfg), steps).cfg == cfg
  {
    InitInv(cfg);
    RunInv(Init(cfg), steps);
  }

  /** When destroy has freed the pool every worker ever created has been joined, and none is left anywhere. */
  lemma FreedMeansAllJoined(cfg: Config, steps: seq<Step>)
    requires ValidRun(Init(cfg), steps) && After(Init(cfg), steps).destroyer.Freed?
    ensures var s := After(Init(cfg), steps);
            s.joined == s.created && s.workers == map[] && s.retired == {} && s.blocked + s.woken == {}
  {
    ReachableInv(cfg, steps);
    var s := After(Init(cfg), steps);
    assert forall w, x :: !IsStale(s, w, x);
  }

  /** A join is of another worker, one that has left the lock for good, and that was never joined before. */
  lemma JoinsOnce(s: Pool, w: Worker, x: Worker)
    requires Inv(s) && Enabled(s, Join(w, x))
    ensures x != w && x in s.created && x !in s.workers && x !in s.joined && x !in s.retired
    ensures forall v :: v != w ==> !IsStale(s, v, x)
  {
    assert IsStale(s, w, x);
  }

  /** Without a worker or a queued task every accepted task has run. */
  lemma NothingRuns(s: Pool)
    requires TasksAccounted(s) && s.workers == map[] && s.queue == []
    ensures s.started == s.accepted && s.finished == Elements(s.accepted) && NoDuplicates(s.started)
  {
    assert s.started + [] == s.started;
    assert forall w, t :: !IsRunning(s, w, t);
    assert forall t :: t in s.started ==> t in s.finished;
  }

  /** Under a safe configuration the end of destroy's wait means that every accepted task has run. */
  lemma DrainedWhenDestroyed(cfg: Config, steps: seq<Step>)
    requires Safe(cfg) && ValidRun(Init(cfg), steps)
    requires !Usable(After(Init(cfg), steps))
    ensures var s := After(Init(cfg), steps);
            s.queue == [] && s.started == s.accepted && s.finished == Elements(s.accepted) && NoDuplicates(s.started)
  {
    hide TasksAccounted, WorkersAccounted, Bounded, NoDuplicates, Elements, Apply, Enabled;
    var s := After(Init(cfg), steps);
    ReachableInv(cfg, steps);
    InitInv(cfg);
    RunLive(Init(cfg), steps);
    assert forall w :: !Active(s, w);
    NothingRuns(s);
  }

  // ---------- What became of a submitted task ----------

  /** The answer of a submit, at its first release of the lock or at a later one. */
  function Answer(s: Pool, step: Step): Status
    requires Enabled(s, step) && (step.Submit? || step.Resume?)
  {
    match step
    case Submit(t, how, w, pick) => SubmitBody(s.(seen := s.seen + {t}), t, how, w, pick).1
    case Resume(t, how, w, pick) => SubmitBody(Unblock(s, t), t, how, w, pick).1
  }

  lemma SubmitKeepsSeen(s: Pool, t: Task, how: Creation, w: Worker, pick: Worker)
    ensures SubmitBody(s, t, how, w, pick).0.seen == s.seen
  {}

  lemma AnsweredTask(s: Pool, s': Pool, t: Task, how: Creation, w: Worker, rc: Status)
    requires Answered(s, s', t, how, w, rc)
    ensures s'.accepted == s.accepted + (if rc == Normal then [t] else [])
    ensures s'.blocked + s'.woken == s.blocked + s.woken - {t} + (if rc == Blocks then {t} else {})
  {}

  /** Only a submit that answers `Normal` accepts a task, and only one that blocks leaves a submitter waiting. */
  lemma AnswerStep(s: Pool, step: Step)
    requires Inv(s) && Enabled(s, step) && (step.Submit? || step.Resume?)
    ensures var s', rc := Apply(s, step), Answer(s, step);
            && s'.accepted == s.accepted + (if rc == Normal then [step.task] else [])
            && s'.blocked + s'.woken == s.blocked + s.woken - {step.task} + (if rc == Blocks then {step.task} else {})
            && s'.seen == s.seen + {step.task}
  {
    hide Answered, SubmitBody, Unblock, WorkersAccounted, Bounded;
    match step
    case Submit(t, how, w, pick) =>
      HeadAnswers(s, t, how, w, pick);
      SubmitKeepsSeen(s.(seen := s.seen + {t}), t, how, w, pick);
      AnsweredTask(s, Apply(s, step), t, how, w, Answer(s, step));
    case Resume(t, how, w, pick) =>
      ResumeAnswers(s, t, how, w, pick);
      UnblockEffect(s, t);
      SubmitKeepsSeen(Unblock(s, t), t, how, w, pick);
      AnsweredTask(s, Apply(s, step), t, how, w, Answer(s, step));
  }

  lemma OtherStep(s: Pool, step: Step)
    requires Enabled(s, step) && !step.Submit? && !step.Resume?
    ensures var s' := Apply(s, step);
            s'.accepted == s.accepted && s'.seen == s.seen && s'.blocked + s'.woken == s.blocked + s.woken
  {}

  /** The task has been submitted, was not accepted, and its submitter has its answer. */
  predicate Refused(s: Pool, t: Task) {
    t in s.seen && t !in s.accepted && t !in s.blocked + s.woken
  }

  lemma SubmitsFresh(s: Pool, step: Step)
    requires Enabled(s, step) && (step.Submit? || step.Resume?)
    ensures step.task !in s.seen || step.task in s.blocked + s.woken
  {}

  lemma StepAccepts(s: Pool, step: Step, t: Task)
    requires Inv(s) && Enabled(s, step)
    ensures t in s.accepted ==> t in Apply(s, step).accepted
    ensures Refused(s, t) ==> Refused(Apply(s, step), t)
  {
    hide Apply, Answer, TasksAccounted, WorkersAccounted, Bounded, WaitersSound;
    if step.Submit? || step.Resume? {
      AnswerStep(s, step);
      SubmitsFresh(s, step);
    } else {
      OtherStep(s, step);
    }
  }

  lemma {:induction false} RunAccepts(s: Pool, steps: seq<Step>, t: Task)
    requires Inv(s) && ValidRun(s, steps)
    ensures t in s.accepted ==> t in After(s, steps).accepted
    ensures Refused(s, t) ==> Refused(After(s, steps), t)
    decreases |steps|
  {
    hide Inv, Apply, Enabled, Refused;
    if steps != [] {
      StepInv(s, steps[0]);
      StepAccepts(s, steps[0], t);
      RunAccepts(Apply(s, steps[0]), steps[1..], t);
    }
  }

  lemma ConsRun(s: Pool, step: Step, rest: seq<Step>)
    requires Enabled(s, step) && ValidRun(Apply(s, step), rest)
    ensures ValidRun(s, [step] + rest) && After(s, [step] + rest) == After(Apply(s, step), rest)
  {
    assert ([step] + rest)[1..] == rest;
  }

  /** Under a safe configuration a task whose submit answered `Normal` has run when destroy's wait is over. */
  lemma NormalMeansRun(cfg: Config, before: seq<Step>, step: Step, after: seq<Step>)
    requires Safe(cfg) && ValidRun(Init(cfg), before)
    requires var s := After(Init(cfg), before);
             Enabled(s, step) && (step.Submit? || step.Resume?) && Answer(s, step) == Normal
             && ValidRun(Apply(s, step), after) && !Usable(After(Apply(s, step), after))
    ensures step.task in After(Apply(After(Init(cfg), before), step), after).finished
  {
    hide Inv, Apply, Enabled, Answer, Usable, Safe;
    var s := After(Init(cfg), before);
    ReachableInv(cfg, before);
    AnswerStep(s, step);
    StepInv(s, step);
    RunAccepts(Apply(s, step), after, step.task);
    ConsRun(s, step, after);
    ConcatRun(Init(cfg), before, [step] + after);
    DrainedWhenDestroyed(cfg, before + ([step] + after));
  }

  lemma NotAccepted(s: Pool, step: Step)
    requires TasksAccounted(s) && Enabled(s, step) && (step.Submit? || step.Resume?)
    ensures step.task !in s.accepted
  {}

  /** A task whose submit answered with an error never runs, in any configuration and any continuation. */
  lemma ErrorMeansNeverRun(cfg: Config, before: seq<Step>, step: Step, after: seq<Step>)
    requires ValidRun(Init(cfg), before)
    requires var s := After(Init(cfg), before);
             Enabled(s, step) && (step.Submit? || step.Resume?) && Answer(s, step) != Normal && Answer(s, step) != Blocks
             && ValidRun(Apply(s, step), after)
    ensures step.task !in After(Apply(After(Init(cfg), before), step), after).started
  {
    hide Apply, Enabled, Answer, WorkersAccounted, Bounded, WaitersSound, NoDuplicates;
    var s := After(Init(cfg), before);
    ReachableInv(cfg, before);
    AnswerStep(s, step);
    NotAccepted(s, step);
    StepInv(s, step);
    RunAccepts(Apply(s, step), after, step.task);
    RunInv(Apply(s, step), after);
    var s' := After(Apply(s, step), after);
    assert s'.accepted == s'.started + s'.queue;
  }

  // ---------- Destroy can always finish ----------

  function RunningSet(s: Pool): set<Worker> {
    set w | w in s.workers && s.workers[w].Running?
  }

  function CalmSet(s: Pool): set<Worker> {
    set w | w in s.workers && !s.workers[w].Running? && !s.workers[w].Joining?
  }

  function StaleSet(s: Pool): set<Worker> {
    s.created - s.workers.Keys - s.retired - s.joined
  }

  datatype Rank = Rank(queued: nat, blocked: nat, running: nat, calm: nat, stale: nat, live: nat)

  function Work(s: Pool): Rank {
    Rank(|s.queue|, |s.blocked + s.woken|, |RunningSet(s)|, |CalmSet(s)|, |StaleSet(s)|, |s.workers|)
  }

  predicate Less(a: Rank, b: Rank) {
    || a.queued < b.queued
    || (a.queued == b.queued
        && (|| a.blocked < b.blocked
            || (a.blocked == b.blocked
                && (|| a.running < b.running
                    || (a.running == b.running
                        && (|| a.calm < b.calm
                            || (a.calm == b.calm
                                && (|| a.stale < b.stale
                                    || (a.stale == b.stale && a.live < b.live)))))))))
  }

  predicate WorkStep(step: Step) {
    step.Resume? || step.Dispatch? || step.Complete? || step.Join? || step.RetireEnd?
  }

  lemma ResumeWorks(s: Pool, step: Step)
    requires s.closed && Enabled(s, step) && step.Resume?
    ensures Less(Work(Apply(s, step)), Work(s))
  {
    var s' := Apply(s, step);
    assert s'.queue == s.queue;
    assert s'.blocked + s'.woken == s.blocked + s.woken - {step.task};
  }

  lemma RetireSets(s: Pool, w: Worker)
    requires w in s.workers && w in CalmSet(s)
    ensures var s' := Retire(s, w);
            && s'.queue == s.queue
            && s'.blocked + s'.woken == s.blocked + s.woken
            && RunningSet(s') == RunningSet(s)
            && CalmSet(s') == CalmSet(s) - {w}
  {
    if s.retired == {} {
      var s' := FinishRetire(s, w);
      assert s'.workers == s.workers - {w};
      assert RunningSet(s') == RunningSet(s);
      assert CalmSet(s') == CalmSet(s) - {w};
    }
  }

  lemma RetireWorks(s: Pool, w: Worker)
    requires w in s.workers && w in CalmSet(s)
    ensures Less(Work(Retire(s, w)), Work(s))
  {
    hide RunningSet, CalmSet, StaleSet, Retire;
    RetireSets(s, w);
  }

  lemma DispatchWorks(s: Pool, w: Worker)
    requires s.closed && Enabled(s, Dispatch(w))
    ensures Less(Work(Apply(s, Dispatch(w))), Work(s))
  {
    var s' := Apply(s, Dispatch(w));
    if s.queue == [] {
      assert s' == Retire(s, w);
      RetireWorks(s, w);
    } else {
      assert s' == TakeTask(s, w);
    }
  }

  lemma CompleteWorks(s: Pool, w: Worker)
    requires Enabled(s, Complete(w))
    ensures Less(Work(Apply(s, Complete(w))), Work(s))
  {
    var s' := Apply(s, Complete(w));
    assert w in RunningSet(s);
    assert RunningSet(s') == RunningSet(s) - {w};
  }

  lemma JoinWorks(s: Pool, w: Worker, x: Worker)
    requires Inv(s) && Enabled(s, Join(w, x))
    ensures Less(Work(Apply(s, Join(w, x))), Work(s))
  {
    var s' := Apply(s, Join(w, x));
    assert IsStale(s, w, x);
    assert s'.workers.Keys == s.workers.Keys;
    assert RunningSet(s') == RunningSet(s);
    assert CalmSet(s') == CalmSet(s);
    assert x in StaleSet(s);
    assert StaleSet(s') == StaleSet(s) - {x};
  }

  lemma RetireEndSets(s: Pool, w: Worker)
    requires Enabled(s, RetireEnd(w))
    ensures var s' := FinishRetire(s, w);
            && s'.queue == s.queue
            && s'.blocked + s'.woken == s.blocked + s.woken
            && RunningSet(s') == RunningSet(s)
            && CalmSet(s') == CalmSet(s)
            && StaleSet(s') == StaleSet(s)
            && s'.workers.Keys == s.workers.Keys - {w}
  {
    var s' := FinishRetire(s, w);
    assert s'.workers == s.workers - {w};
    assert RunningSet(s') == RunningSet(s);
    assert CalmSet(s') == CalmSet(s);
    assert StaleSet(s') == StaleSet(s);
  }

  lemma RetireEndWorks(s: Pool, w: Worker)
    requires Enabled(s, RetireEnd(w))
    ensures Less(Work(Apply(s, RetireEnd(w))), Work(s))
  {
    hide RunningSet, CalmSet, StaleSet, FinishRetire;
    RetireEndSets(s, w);
    var s' := FinishRetire(s, w);
    assert |s'.workers| == |s'.workers.Keys| < |s.workers.Keys| == |s.workers|;
  }

  /** After close every step of a worker or of a blocked submitter uses up part of a finite amount of work. */
  lemma ClosedWorkDecreases(s: Pool, step: Step)
    requires Inv(s) && s.closed && Enabled(s, step) && WorkStep(step)
    ensures Less(Work(Apply(s, step)), Work(s))
  {
    hide Work, Less, Apply;
    match step
    case Resume(_, _, _, _) => ResumeWorks(s, step);
    case Dispatch(w) => DispatchWorks(s, w);
    case Complete(w) => CompleteWorks(s, w);
    case Join(w, x) => JoinWorks(s, w, x);
    case RetireEnd(w) => RetireEndWorks(s, w);
  }

  lemma NewId(used: set<nat>) returns (w: nat)
    ensures forall v :: v in used ==> v < w
  {
    w := 0;
    if used != {} {
      var v :| v in used;
      var u := NewId(used - {v});
      w := if v < u then u else v + 1;
      assert forall x :: x in used ==> x == v || x in used - {v};
    }
  }

  /** After close nothing that destroy waits for is itself waiting to be notified. */
  lemma ClosedNeverBlocks(s: Pool) returns (step: Step)
    requires Inv(s) && s.closed && (s.workers != map[] || s.blocked + s.woken != {})
    ensures Enabled(s, step) && WorkStep(step)
  {
    if s.workers != map[] {
      assert s.workers.Keys != {};
      var w :| w in s.workers;
      match s.workers[w]
      case Running(_) => step := Complete(w);
      case Joining(stale) =>
        if stale == {} {
          step := RetireEnd(w);
        } else {
          var x :| x in stale;
          step := Join(w, x);
        }
      case _ => step := Dispatch(w);
    } else {
      var t :| t in s.woken;
      var newcomer := NewId(s.created);
      step := Resume(t, Created, newcomer, newcomer);
    }
  }

  predicate DrainStep(step: Step) {
    WorkStep(step) || step.DestroyCheck? || step.Reap? || step.Free?
  }

  function DestroyRank(d: Destroyer): nat {
    match d
    case Freed => 0
    case Reaping => 1
    case _ => 2
  }

  lemma SameWork(s: Pool, d: Destroyer)
    ensures Work(s.(destroyer := d)) == Work(s)
  {
    var s' := s.(destroyer := d);
    assert RunningSet(s') == RunningSet(s) && CalmSet(s') == CalmSet(s) && StaleSet(s') == StaleSet(s);
  }

  lemma ReapSameWork(s: Pool, x: Worker)
    requires x in s.retired && Enabled(s, Reap(x))
    ensures Work(Apply(s, Reap(x))) == Work(s)
  {
    var s' := Apply(s, Reap(x));
    assert StaleSet(s') == StaleSet(s);
    assert RunningSet(s') == RunningSet(s) && CalmSet(s') == CalmSet(s);
  }

  lemma ReapShrinks(s: Pool, x: Worker)
    requires x in s.retired && Enabled(s, Reap(x))
    ensures Apply(s, Reap(x)).destroyer == s.destroyer && |Apply(s, Reap(x)).retired| < |s.retired|
  {}

  lemma FinalSteps(s: Pool)
    requires s.destroyer != Absent && !s.destroyer.Freed?
    requires s.workers == map[] && s.blocked + s.woken == {}
    ensures Usable(s) ==> Enabled(s, DestroyCheck) && Apply(s, DestroyCheck) == s.(destroyer := Reaping)
    ensures !Usable(s) ==> s.destroyer.Reaping? && forall x :: x in s.retired ==> Enabled(s, Reap(x))
    ensures !Usable(s) && s.retired == {} ==> Enabled(s, Free) && Apply(s, Free) == s.(destroyer := Freed)
  {}

  lemma LastDrainStep(s: Pool) returns (step: Step)
    requires s.destroyer != Absent && !s.destroyer.Freed?
    requires s.workers == map[] && s.blocked + s.woken == {}
    ensures DrainStep(step) && Enabled(s, step)
    ensures var s' := Apply(s, step);
            && Work(s') == Work(s)
            && (|| DestroyRank(s'.destroyer) < DestroyRank(s.destroyer)
                || (s'.destroyer == s.destroyer && |s'.retired| < |s.retired|))
  {
    hide Work, Enabled, Apply;
    FinalSteps(s);
    if Usable(s) {
      step := DestroyCheck;
      SameWork(s, Reaping);
    } else if s.retired != {} {
      var x :| x in s.retired;
      step := Reap(x);
      ReapSameWork(s, x);
      ReapShrinks(s, x);
    } else {
      step := Free;
      SameWork(s, Freed);
    }
  }

  lemma NextDrainStep(s: Pool) returns (step: Step)
    requires Inv(s) && s.destroyer != Absent && !s.destroyer.Freed?
    ensures DrainStep(step) && Enabled(s, step)
    ensures var s' := Apply(s, step);
            || Less(Work(s'), Work(s))
            || (Work(s') == Work(s)
                && (|| DestroyRank(s'.destroyer) < DestroyRank(s.destroyer)
                    || (s'.destroyer == s.destroyer && |s'.retired| < |s.retired|)))
  {
    if Usable(s) && (s.workers != map[] || s.blocked + s.woken != {}) {
      step := ClosedNeverBlocks(s);
      ClosedWorkDecreases(s, step);
    } else {
      step := LastDrainStep(s);
    }
  }

  lemma SubmitDestroyer(s: Pool, t: Task, how: Creation, w: Worker, pick: Worker)
    requires s.destroyer != Absent
    ensures SubmitBody(s, t, how, w, pick).0.destroyer != Absent
  {}

  lemma WorkerDestroyer(s: Pool, w: Worker)
    requires s.destroyer != Absent && Enabled(s, Dispatch(w))
    ensures Apply(s, Dispatch(w)).destroyer != Absent
  {}

  lemma DestroyerStays(s: Pool, step: Step)
    requires s.destroyer != Absent && Enabled(s, step) && DrainStep(step)
    ensures Apply(s, step).destroyer != Absent
  {
    match step
    case Resume(t, how, w, pick) =>
      var s1 := Unblock(s, t);
      assert s1.destroyer != Absent;
      SubmitDestroyer(s1, t, how, w, pick);
    case Dispatch(w) => WorkerDestroyer(s, w);
    case _ =>
  }

  lemma DrainInv(s: Pool, step: Step)
    requires Inv(s) && s.destroyer != Absent && Enabled(s, step) && DrainStep(step)
    ensures Inv(Apply(s, step)) && Apply(s, step).destroyer != Absent
  {
    hide Inv, Apply, Enabled;
    StepInv(s, step);
    DestroyerStays(s, step);
  }

  /** From every reachable state in which destroy has begun, the pool's own threads can bring it to its end. */
  lemma {:induction false} DestroyCanFinish(s: Pool) returns (steps: seq<Step>)
    requires Inv(s) && s.destroyer != Absent
    ensures ValidRun(s, steps) && After(s, steps).destroyer.Freed?
    ensures forall i :: 0 <= i < |steps| ==> DrainStep(steps[i])
    decreases |s.queue|, |s.blocked + s.woken|, |RunningSet(s)|, |CalmSet(s)|, |StaleSet(s)|, |s.workers|,
              DestroyRank(s.destroyer), |s.retired|
  {
    hide Inv, Enabled, Apply, RunningSet, CalmSet, StaleSet;
    if s.destroyer.Freed? {
      steps := [];
    } else {
      var step := NextDrainStep(s);
      DrainInv(s, step);
      var rest := DestroyCanFinish(Apply(s, step));
      steps := [step] + rest;
      ConsRun(s, step, rest);
    }
  }

  // ---------- How a task is lost when idle_timeout_ > 0 and capacity_ > 0 ----------

  predicate AllJoining(s: Pool) {
    forall w :: w in s.workers ==> s.workers[w].Joining?
  }

  /** Every live worker is inside the unlocked part of the retire path. */
  ghost predicate Jammed(s: Pool, k: nat) {
    && Inv(s) && AllJoining(s) && |s.workers| == k
    && s.queue == [] && !s.closed && s.destroyer.Absent? && s.blocked == {} && s.woken == {}
  }

  function Ran(s: Pool, t: Task, w: Worker): Pool {
    s.(created := s.created + {w}, seen := s.seen + {t},
       accepted := s.accepted + [t], started := s.started + [t], finished := s.finished + {t})
  }

  lemma NobodyWaits(s: Pool)
    requires AllJoining(s)
    ensures ParkedSet(s) == {} && Waiting(s) == {}
  {}

  /** A submit that finds no waiting worker and room for one creates it. */
  lemma JoinsFirst(s: Pool, t: Task, w: Worker)
    requires Waiting(s) == {} && s.queue == [] && !s.closed && |s.workers| < s.cfg.capacity
    ensures SubmitBody(s, t, Created, w, w).0 ==
            s.(workers := s.workers[w := Entering], created := s.created + {w}, queue := [t], accepted := s.accepted + [t])
  {
    hide Waiting;
    assert [] + [t] == [t];
    assert !AddWorker(s, w).workers[w].Parked?;
  }

  lemma Arrival(s: Pool, k: nat, t: Task, w: Worker) returns (s1: Pool)
    requires Jammed(s, k) && k < s.cfg.capacity && t !in s.seen && w !in s.created
    ensures Enabled(s, Submit(t, Created, w, w)) && s1 == Apply(s, Submit(t, Created, w, w))
    ensures s1 == s.(workers := s.workers[w := Entering], created := s.created + {w}, seen := s.seen + {t},
                     queue := [t], accepted := s.accepted + [t])
  {
    hide Inv, SubmitBody;
    NobodyWaits(s);
    JoinsFirst(s.(seen := s.seen + {t}), t, w);
    s1 := Apply(s, Submit(t, Created, w, w));
  }

  /** The new worker runs the only task and comes back. */
  lemma Errand(s: Pool, t: Task, w: Worker) returns (s': Pool)
    requires w in s.workers && s.workers[w] == Entering && s.queue == [t] && s.blocked + s.woken == {}
    ensures ValidRun(s, [Dispatch(w), Complete(w)]) && s' == After(s, [Dispatch(w), Complete(w)])
    ensures s' == s.(queue := [], started := s.started + [t], finished := s.finished + {t})
  {
    var s1 := s.(workers := s.workers[w := Running(t)], queue := [], started := s.started + [t]);
    assert Apply(s, Dispatch(w)) == s1;
    s' := Apply(s1, Complete(w));
    assert s'.workers == s.workers;
    ConsRun(s1, Complete(w), []);
    ConsRun(s, Dispatch(w), [Complete(w)]);
    assert [Dispatch(w), Complete(w)] == [Dispatch(w)] + [Complete(w)];
  }

  /** With nothing to do it waits, times out and enters the retire path. */
  lemma IdleOut(s: Pool, w: Worker) returns (s': Pool)
    requires w in s.workers && s.workers[w] == Entering && s.queue == [] && !s.closed && s.cfg.idleTimeout > 0
    ensures ValidRun(s, [Dispatch(w), Expire(w), Dispatch(w)])
    ensures s' == After(s, [Dispatch(w), Expire(w), Dispatch(w)])
    ensures s' == Retire(s.(workers := s.workers[w := TimedOut]), w)
  {
    var s1 := s.(workers := s.workers[w := Parked]);
    assert Apply(s, Dispatch(w)) == s1;
    var s2 := s.(workers := s.workers[w := TimedOut]);
    assert Apply(s1, Expire(w)) == s2;
    s' := Apply(s2, Dispatch(w));
    ConsRun(s2, Dispatch(w), []);
    ConsRun(s1, Expire(w), [Dispatch(w)]);
    assert [Expire(w), Dispatch(w)] == [Expire(w)] + [Dispatch(w)];
    ConsRun(s, Dispatch(w), [Expire(w), Dispatch(w)]);
    assert [Dispatch(w), Expire(w), Dispatch(w)] == [Dispatch(w)] + [Expire(w), Dispatch(w)];
  }

  /** One task is run by a new worker, which then idles out and enters the retire path. */
  lemma WorkerComes(s: Pool, k: nat, t: Task, w: Worker) returns (steps: seq<Step>)
    requires Jammed(s, k) && k < s.cfg.capacity && s.cfg.idleTimeout > 0 && t !in s.seen && w !in s.created
    ensures ValidRun(s, steps)
    ensures After(s, steps) == Retire(Ran(s, t, w).(workers := s.workers[w := TimedOut]), w)
  {
    hide Inv, AllJoining, Retire, Enabled, Apply;
    var s1 := Arrival(s, k, t, w);
    var s2 := Errand(s1, t, w);
    var s3 := IdleOut(s2, w);
    assert s.workers[w := Entering][w := TimedOut] == s.workers[w := TimedOut];
    assert s2.(workers := s2.workers[w := TimedOut]) == Ran(s, t, w).(workers := s.workers[w := TimedOut]);
    steps := [Submit(t, Created, w, w)] + ([Dispatch(w), Complete(w)] + [Dispatch(w), Expire(w), Dispatch(w)]);
    ConcatRun(s1, [Dispatch(w), Complete(w)], [Dispatch(w), Expire(w), Dispatch(w)]);
    ConsRun(s, Submit(t, Created, w, w), [Dispatch(w), Complete(w)] + [Dispatch(w), Expire(w), Dispatch(w)]);
  }

  lemma RemoveAdded(m: map<Worker, Phase>, w: Worker, p: Phase)
    requires w !in m
    ensures m[w := p] - {w} == m
  {}

  lemma RetireResult(s: Pool, idle: Pool, w: Worker)
    requires idle.workers == s.workers[w := TimedOut] && w !in s.workers && idle.retired == s.retired
    requires AllJoining(s) && idle.blocked == {} && idle.destroyer.Absent?
    ensures var s' := Retire(idle, w);
            && AllJoining(s') && |s'.workers| == (if s.retired == {} then |s.workers| else |s.workers| + 1)
            && s'.retired == (if s.retired == {} then {w} else {})
            && s'.queue == idle.queue && s'.closed == idle.closed && s'.cfg == idle.cfg
            && s'.destroyer.Absent? && s'.blocked == {} && s'.woken == idle.woken
  {
    if s.retired == {} {
      RemoveAdded(s.workers, w, TimedOut);
      assert Retire(idle, w).workers == s.workers;
    } else {
      assert Retire(idle, w).workers == s.workers[w := Joining(s.retired)];
    }
  }

  /** It becomes the retired worker if there is none, and gets stuck joining the retired worker if there is one. */
  lemma WorkerComesAndGoes(s: Pool, k: nat, t: Task, w: Worker) returns (steps: seq<Step>)
    requires Jammed(s, k) && k < s.cfg.capacity && s.cfg.idleTimeout > 0 && t !in s.seen && w !in s.created
    ensures ValidRun(s, steps) && Jammed(After(s, steps), if s.retired == {} then k else k + 1)
    ensures After(s, steps).retired == if s.retired == {} then {w} else {}
    ensures After(s, steps).cfg == s.cfg
  {
    assert w !in s.workers;
    steps := WorkerComes(s, k, t, w);
    RunInv(s, steps);
    RetireResult(s, Ran(s, t, w).(workers := s.workers[w := TimedOut]), w);
    hide Inv, Retire, After, ValidRun, AllJoining;
  }

  /** One more worker slot gets stuck joining: a first worker retires, a second one comes to join it. */
  lemma JamOneMore(s: Pool, k: nat) returns (steps: seq<Step>)
    requires Jammed(s, k) && s.retired == {} && k < s.cfg.capacity && s.cfg.idleTimeout > 0
    ensures ValidRun(s, steps) && Jammed(After(s, steps), k + 1) && After(s, steps).retired == {}
  {
    hide Inv, AllJoining, After;
    var w1 := NewId(s.created);
    var t1 := NewId(s.seen);
    var run1 := WorkerComesAndGoes(s, k, t1, w1);
    var s1 := After(s, run1);
    var w2 := NewId(s1.created);
    var t2 := NewId(s1.seen);
    var run2 := WorkerComesAndGoes(s1, k, t2, w2);
    ConcatRun(s, run1, run2);
    steps := run1 + run2;
  }

  lemma {:induction false} JamAll(cfg: Config, k: nat) returns (steps: seq<Step>)
    requires k <= cfg.capacity && cfg.idleTimeout > 0
    ensures ValidRun(Init(cfg), steps) && Jammed(After(Init(cfg), steps), k) && After(Init(cfg), steps).retired == {}
  {
    if k == 0 {
      InitInv(cfg);
      steps := [];
    } else {
      var run := JamAll(cfg, k - 1);
      ReachableInv(cfg, run);
      var more := JamOneMore(After(Init(cfg), run), k - 1);
      ConcatRun(Init(cfg), run, more);
      steps := run + more;
    }
  }

  /** A submit is accepted while every live worker is retiring, so no worker is created for it. */
  lemma StrandingRun(cfg: Config) returns (steps: seq<Step>)
    requires !Safe(cfg)
    ensures ValidRun(Init(cfg), steps)
    ensures var s := After(Init(cfg), steps); s.queue != [] && AllJoining(s) && s.destroyer.Absent?
  {
    var run := JamAll(cfg, cfg.capacity);
    ReachableInv(cfg, run);
    var s := After(Init(cfg), run);
    var w := NewId(s.created);
    var t := NewId(s.seen);
    assert ParkedSet(s) == {};
    ConsRun(s, Submit(t, Created, w, w), []);
    ConcatRun(Init(cfg), run, [Submit(t, Created, w, w)]);
    steps := run + [Submit(t, Created, w, w)];
  }

  ghost predicate Stuck(s: Pool) {
    s.queue != [] && AllJoining(s)
  }

  lemma StuckStep(s: Pool, step: Step)
    requires Stuck(s) && s.closed && Enabled(s, step) && DrainStep(step)
    ensures Stuck(Apply(s, step)) && Apply(s, step).closed
  {
    assert Waiting(s) == {};
  }

  lemma {:induction false} StuckStays(s: Pool, steps: seq<Step>)
    requires Stuck(s) && s.closed && ValidRun(s, steps) && forall i :: 0 <= i < |steps| ==> DrainStep(steps[i])
    ensures Stuck(After(s, steps))
    decreases |steps|
  {
    if steps != [] {
      assert DrainStep(steps[0]);
      StuckStep(s, steps[0]);
      StuckStays(Apply(s, steps[0]), steps[1..]);
    }
  }

  lemma QueuedNotFinished(s: Pool)
    requires TasksAccounted(s) && s.queue != []
    ensures s.finished != Elements(s.accepted)
  {
    assert s.accepted[|s.started|] == s.queue[0];
    assert forall i :: 0 <= i < |s.started| ==> s.accepted[i] == s.started[i];
    assert s.queue[0] in Elements(s.accepted);
  }

  /** After that, destroy joins every worker and frees the pool with an accepted task still queued. */
  lemma LosingRun(cfg: Config) returns (steps: seq<Step>)
    requires !Safe(cfg)
    ensures ValidRun(Init(cfg), steps)
    ensures var s := After(Init(cfg), steps); s.destroyer.Freed? && s.finished != Elements(s.accepted)
  {
    hide TasksAccounted, WorkersAccounted, Bounded, WaitersSound;
    var run := StrandingRun(cfg);
    ReachableInv(cfg, run);
    var s := After(Init(cfg), run);
    var s1 := Apply(s, DestroyBegin);
    StepInv(s, DestroyBegin);
    assert s1.workers == s.workers;
    var rest := DestroyCanFinish(s1);
    StuckStays(s1, rest);
    RunInv(s1, rest);
    ConsRun(s, DestroyBegin, rest);
    ConcatRun(Init(cfg), run, [DestroyBegin] + rest);
    steps := run + ([DestroyBegin] + rest);
    QueuedNotFinished(After(s1, rest));
  }

  // ---------- The exact conditions ----------

  ghost predicate NeverStrands(cfg: Config) {
    forall steps :: ValidRun(Init(cfg), steps) ==> NotStranded(After(Init(cfg), steps))
  }

  ghost predicate DestroyRunsEverything(cfg: Config) {
    forall steps :: ValidRun(Init(cfg), steps) ==>
      var s := After(Init(cfg), steps);
      s.destroyer.Freed? ==> s.started == s.accepted && s.finished == Elements(s.accepted)
  }

  /** A queued task always has a worker that will look for it if, and only if, idle workers never leave or
      workers are unlimited. */
  lemma StrandingCondition(cfg: Config)
    ensures NeverStrands(cfg) <==> Safe(cfg)
  {
    if Safe(cfg) {
      forall steps | ValidRun(Init(cfg), steps)
        ensures NotStranded(After(Init(cfg), steps))
      {
        InitInv(cfg);
        RunLive(Init(cfg), steps);
      }
    } else {
      var steps := StrandingRun(cfg);
      assert !NotStranded(After(Init(cfg), steps));
    }
  }

  /** The promise of `ct_thpool_destroy`, that it returns after all accepted tasks have finished, holds of a
      configuration exactly under the same condition. */
  lemma DestroyCondition(cfg: Config)
    ensures DestroyRunsEverything(cfg) <==> Safe(cfg)
  {
    if Safe(cfg) {
      forall steps | ValidRun(Init(cfg), steps) && After(Init(cfg), steps).destroyer.Freed?
        ensures After(Init(cfg), steps).started == After(Init(cfg), steps).accepted
        ensures After(Init(cfg), steps).finished == Elements(After(Init(cfg), steps).accepted)
      {
        DrainedWhenDestroyed(cfg, steps);
      }
    } else {
      var steps := LosingRun(cfg);
    }
  }
}
