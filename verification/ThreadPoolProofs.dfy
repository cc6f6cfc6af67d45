/** Every transition of the thread pool keeps the invariants. */
module ThreadPoolProofs {
  import opened ThreadPool

  lemma InitInv(cfg: Config)
    ensures Inv(Init(cfg)) && LiveInv(Init(cfg))
  {
  }

  // ---------- Changes that touch neither tasks nor worker lists ----------

  predicate Calm(p: Phase) {
    !p.Running? && !p.Joining?
  }

  predicate CalmChange(s: Pool, s': Pool) {
    && s' == s.(workers := s'.workers)
    && s'.workers.Keys == s.workers.Keys
    && forall w :: w in s.workers ==> s'.workers[w] == s.workers[w] || (Calm(s'.workers[w]) && Calm(s.workers[w]))
  }

  lemma CalmTasks(s: Pool, s': Pool)
    requires TasksAccounted(s) && CalmChange(s, s')
    ensures TasksAccounted(s')
  {
    assert forall w, t :: IsRunning(s, w, t) == IsRunning(s', w, t);
  }

  lemma CalmWorkers(s: Pool, s': Pool)
    requires WorkersAccounted(s) && CalmChange(s, s')
    ensures WorkersAccounted(s')
  {
    assert forall w, t :: IsStale(s, w, t) == IsStale(s', w, t);
  }

  predicate SlotChange(s: Pool, s': Pool) {
    && s' == s.(blocked := s'.blocked, woken := s'.woken, destroyer := s'.destroyer)
    && (s.blocked !! s.woken ==> s'.blocked !! s'.woken)
    && s'.blocked + s'.woken <= s.blocked + s.woken
  }

  lemma SlotTasks(s: Pool, s': Pool)
    requires TasksAccounted(s) && SlotChange(s, s')
    ensures TasksAccounted(s')
  {
    assert forall w, t :: IsRunning(s, w, t) == IsRunning(s', w, t);
    assert forall t :: t in s'.blocked + s'.woken ==> t in s.blocked + s.woken;
  }

  predicate SameWorkers(s: Pool, s': Pool) {
    s'.workers == s.workers && s'.retired == s.retired && s'.joined == s.joined && s'.created == s.created
  }

  lemma SameWorkersAccounted(s: Pool, s': Pool)
    requires WorkersAccounted(s) && SameWorkers(s, s')
    ensures WorkersAccounted(s')
  {
    assert forall w, t :: IsStale(s, w, t) == IsStale(s', w, t);
  }

  // ---------- Submitting ----------

  lemma AddTasks(s: Pool, w: Worker)
    requires TasksAccounted(s) && w !in s.workers
    ensures TasksAccounted(AddWorker(s, w))
  {
    var s' := AddWorker(s, w);
    assert forall v, t :: IsRunning(s, v, t) == IsRunning(s', v, t);
  }

  lemma AddWorkers(s: Pool, w: Worker)
    requires WorkersAccounted(s) && w !in s.created
    ensures WorkersAccounted(AddWorker(s, w))
  {
    var s' := AddWorker(s, w);
    assert forall v, t :: IsStale(s, v, t) == IsStale(s', v, t);
  }

  lemma EnqueueTasks(s: Pool, t: Task, pick: Worker)
    requires TasksAccounted(s) && t in s.seen && t !in s.accepted && t !in s.blocked + s.woken
    ensures TasksAccounted(Enqueue(s, t, pick))
  {
    var s1 := s.(queue := s.queue + [t], accepted := s.accepted + [t]);
    assert forall v, u :: IsRunning(s, v, u) == IsRunning(s1, v, u);
    assert s1.accepted == s1.started + s1.queue;
    CalmTasks(s1, Enqueue(s, t, pick));
  }

  lemma EnqueueWorkers(s: Pool, t: Task, pick: Worker)
    requires WorkersAccounted(s)
    ensures WorkersAccounted(Enqueue(s, t, pick))
  {
    var s1 := s.(queue := s.queue + [t], accepted := s.accepted + [t]);
    SameWorkersAccounted(s, s1);
    CalmWorkers(s1, Enqueue(s, t, pick));
  }

  lemma SubmitTasks(s: Pool, t: Task, how: Creation, w: Worker, pick: Worker)
    requires TasksAccounted(s) && WorkersAccounted(s) && w !in s.created
    requires t in s.seen && t !in s.accepted && t !in s.blocked + s.woken
    ensures TasksAccounted(SubmitBody(s, t, how, w, pick).0)
  {
    var s' := SubmitBody(s, t, how, w, pick).0;
    if !s.closed && HasSlot(s) {
      if !WantsWorker(s) {
        EnqueueTasks(s, t, pick);
      } else if how.Created? {
        AddTasks(s, w);
        EnqueueTasks(AddWorker(s, w), t, pick);
      } else {
        SlotTasks(s, s');
      }
    } else {
      assert forall v, u :: IsRunning(s, v, u) == IsRunning(s', v, u);
    }
  }

  lemma SubmitWorkers(s: Pool, t: Task, how: Creation, w: Worker, pick: Worker)
    requires WorkersAccounted(s) && w !in s.created
    ensures WorkersAccounted(SubmitBody(s, t, how, w, pick).0)
  {
    var s' := SubmitBody(s, t, how, w, pick).0;
    if !s.closed && HasSlot(s) {
      if !WantsWorker(s) {
        EnqueueWorkers(s, t, pick);
      } else if how.Created? {
        AddWorkers(s, w);
        EnqueueWorkers(AddWorker(s, w), t, pick);
      } else {
        SameWorkersAccounted(s, s');
      }
    } else {
      SameWorkersAccounted(s, s');
    }
  }

  // ---------- Taking and completing tasks ----------

  lemma TakeTasks(s: Pool, w: Worker)
    requires TasksAccounted(s) && s.queue != [] && w in s.workers && Calm(s.workers[w])
    ensures TasksAccounted(TakeTask(s, w))
  {
    var t := s.queue[0];
    var s1 := s.(workers := s.workers[w := Running(t)], queue := s.queue[1..], started := s.started + [t]);
    assert s1.started + s1.queue == s.accepted;
    assert t == s.accepted[|s.started|];
    assert forall i :: 0 <= i < |s.started| ==> s.accepted[i] == s.started[i];
    assert forall v, u :: IsRunning(s1, v, u) == if v == w then u == t else IsRunning(s, v, u);
    assert IsRunning(s1, w, t);
    assert forall v, u :: IsRunning(s, v, u) ==> IsRunning(s1, v, u);
    SlotTasks(s1, TakeTask(s, w));
  }

  lemma TakeWorkers(s: Pool, w: Worker)
    requires WorkersAccounted(s) && s.queue != [] && w in s.workers && Calm(s.workers[w])
    ensures WorkersAccounted(TakeTask(s, w))
  {
    var s' := TakeTask(s, w);
    assert forall v, x :: IsStale(s, v, x) == IsStale(s', v, x);
  }

  lemma CompleteTasks(s: Pool, w: Worker)
    requires TasksAccounted(s) && Enabled(s, Complete(w))
    ensures TasksAccounted(Apply(s, Complete(w)))
  {
    var s' := Apply(s, Complete(w));
    var t := s.workers[w].task;
    assert IsRunning(s, w, t);
    assert forall v, u :: IsRunning(s', v, u) == (v != w && IsRunning(s, v, u));
    forall u | u in s'.started && u !in s'.finished
      ensures exists v :: IsRunning(s', v, u)
    {
      var v :| IsRunning(s, v, u);
      assert IsRunning(s', v, u);
    }
  }

  lemma CompleteWorkers(s: Pool, w: Worker)
    requires WorkersAccounted(s) && Enabled(s, Complete(w))
    ensures WorkersAccounted(Apply(s, Complete(w)))
  {
    var s' := Apply(s, Complete(w));
    assert forall v, x :: IsStale(s, v, x) == IsStale(s', v, x);
  }

  // ---------- Retiring ----------

  lemma FinishRetireTasks(s: Pool, w: Worker)
    requires TasksAccounted(s) && w in s.workers && !s.workers[w].Running?
    ensures TasksAccounted(FinishRetire(s, w))
  {
    var s1 := s.(workers := s.workers - {w}, retired := s.retired + {w});
    assert forall v, u :: IsRunning(s, v, u) == IsRunning(s1, v, u);
    SlotTasks(s1, FinishRetire(s, w));
  }

  lemma FinishRetireWorkers(s: Pool, w: Worker)
    requires WorkersAccounted(s) && w in s.workers && (s.workers[w].Joining? ==> s.workers[w].stale == {})
    ensures WorkersAccounted(FinishRetire(s, w))
  {
    var s' := FinishRetire(s, w);
    assert forall v, x :: IsStale(s, v, x) == IsStale(s', v, x);
  }

  lemma RetireTasks(s: Pool, w: Worker)
    requires TasksAccounted(s) && w in s.workers && Calm(s.workers[w])
    ensures TasksAccounted(Retire(s, w))
  {
    if s.retired == {} {
      FinishRetireTasks(s, w);
    } else {
      var s' := Retire(s, w);
      assert forall v, u :: IsRunning(s, v, u) == IsRunning(s', v, u);
    }
  }

  lemma RetireWorkers(s: Pool, w: Worker)
    requires WorkersAccounted(s) && w in s.workers && Calm(s.workers[w])
    ensures WorkersAccounted(Retire(s, w))
  {
    if s.retired == {} {
      FinishRetireWorkers(s, w);
    } else {
      var s' := Retire(s, w);
      assert forall v, x :: IsStale(s', v, x) == if v == w then x in s.retired else IsStale(s, v, x);
      forall x | x in s'.created && x !in s'.workers && x !in s'.retired && x !in s'.joined
        ensures exists v :: IsStale(s', v, x)
      {
        if x in s.retired {
          assert IsStale(s', w, x);
        } else {
          var v :| IsStale(s, v, x);
          assert IsStale(s', v, x);
        }
      }
    }
  }

  lemma JoinWorkers(s: Pool, w: Worker, x: Worker)
    requires WorkersAccounted(s) && Enabled(s, Join(w, x))
    ensures WorkersAccounted(Apply(s, Join(w, x)))
  {
    var s' := Apply(s, Join(w, x));
    assert IsStale(s, w, x);
    assert forall v, y :: IsStale(s', v, y) == (IsStale(s, v, y) && !(v == w && y == x));
    forall y | y in s'.created && y !in s'.workers && y !in s'.retired && y !in s'.joined
      ensures exists v :: IsStale(s', v, y)
    {
      var v :| IsStale(s, v, y);
      assert IsStale(s', v, y);
    }
  }

  lemma ReapWorkers(s: Pool, x: Worker)
    requires WorkersAccounted(s) && Enabled(s, Reap(x))
    ensures WorkersAccounted(Apply(s, Reap(x)))
  {
    var s' := Apply(s, Reap(x));
    assert forall v, y :: IsStale(s, v, y) == IsStale(s', v, y);
  }

  // ---------- Whole steps ----------

  lemma SubmitStep(s: Pool, t: Task, how: Creation, w: Worker, pick: Worker)
    requires TasksAccounted(s) && WorkersAccounted(s) && Enabled(s, Submit(t, how, w, pick))
    ensures TasksAccounted(Apply(s, Submit(t, how, w, pick)))
    ensures WorkersAccounted(Apply(s, Submit(t, how, w, pick)))
  {
    var s1 := s.(seen := s.seen + {t});
    assert TasksAccounted(s1) by {
      assert forall v, u :: IsRunning(s, v, u) == IsRunning(s1, v, u);
    }
    SameWorkersAccounted(s, s1);
    SubmitTasks(s1, t, how, w, pick);
    SubmitWorkers(s1, t, how, w, pick);
  }

  lemma ResumeStep(s: Pool, t: Task, how: Creation, w: Worker, pick: Worker)
    requires TasksAccounted(s) && WorkersAccounted(s) && Enabled(s, Resume(t, how, w, pick))
    ensures TasksAccounted(Apply(s, Resume(t, how, w, pick)))
    ensures WorkersAccounted(Apply(s, Resume(t, how, w, pick)))
  {
    SlotTasks(s, Unblock(s, t));
    SameWorkersAccounted(s, Unblock(s, t));
    SubmitTasks(Unblock(s, t), t, how, w, pick);
    SubmitWorkers(Unblock(s, t), t, how, w, pick);
  }

  lemma CloseStep(s: Pool)
    requires TasksAccounted(s) && WorkersAccounted(s)
    ensures TasksAccounted(CloseSection(s)) && WorkersAccounted(CloseSection(s))
  {
    var s1 := s.(closed := true);
    assert TasksAccounted(s1) by {
      assert forall v, u :: IsRunning(s, v, u) == IsRunning(s1, v, u);
    }
    SameWorkersAccounted(s, s1);
    var s2 := BroadcastTask(s1);
    CalmTasks(s1, s2);
    CalmWorkers(s1, s2);
    SlotTasks(s2, BroadcastSlot(s2));
    SameWorkersAccounted(s2, BroadcastSlot(s2));
  }

  lemma DispatchStep(s: Pool, w: Worker)
    requires TasksAccounted(s) && WorkersAccounted(s) && Enabled(s, Dispatch(w))
    ensures TasksAccounted(Apply(s, Dispatch(w))) && WorkersAccounted(Apply(s, Dispatch(w)))
  {
    hide TasksAccounted, WorkersAccounted;
    if s.queue != [] {
      TakeTasks(s, w);
      TakeWorkers(s, w);
    } else if s.closed || s.workers[w].TimedOut? {
      RetireTasks(s, w);
      RetireWorkers(s, w);
    } else {
      CalmTasks(s, Apply(s, Dispatch(w)));
      CalmWorkers(s, Apply(s, Dispatch(w)));
    }
  }

  lemma JoinStep(s: Pool, w: Worker, x: Worker)
    requires TasksAccounted(s) && WorkersAccounted(s) && Enabled(s, Join(w, x))
    ensures TasksAccounted(Apply(s, Join(w, x))) && WorkersAccounted(Apply(s, Join(w, x)))
  {
    var s' := Apply(s, Join(w, x));
    assert forall v, u :: IsRunning(s, v, u) == IsRunning(s', v, u);
    JoinWorkers(s, w, x);
  }

  lemma ReapStep(s: Pool, x: Worker)
    requires TasksAccounted(s) && WorkersAccounted(s) && Enabled(s, Reap(x))
    ensures TasksAccounted(Apply(s, Reap(x))) && WorkersAccounted(Apply(s, Reap(x)))
  {
    var s' := Apply(s, Reap(x));
    assert forall v, u :: IsRunning(s, v, u) == IsRunning(s', v, u);
    ReapWorkers(s, x);
  }

  lemma StepAccounted(s: Pool, step: Step)
    requires TasksAccounted(s) && WorkersAccounted(s) && Enabled(s, step)
    ensures TasksAccounted(Apply(s, step)) && WorkersAccounted(Apply(s, step))
  {
    hide TasksAccounted, WorkersAccounted;
    match step
    case Submit(t, how, w, pick) => SubmitStep(s, t, how, w, pick);
    case Resume(t, how, w, pick) => ResumeStep(s, t, how, w, pick);
    case Close => CloseStep(s);
    case DestroyBegin =>
      CloseStep(s);
      SlotTasks(CloseSection(s), Apply(s, step));
      SameWorkersAccounted(CloseSection(s), Apply(s, step));
    case Dispatch(w) => DispatchStep(s, w);
    case Expire(w) => CalmTasks(s, Apply(s, step)); CalmWorkers(s, Apply(s, step));
    case Complete(w) => CompleteTasks(s, w); CompleteWorkers(s, w);
    case RetireEnd(w) => FinishRetireTasks(s, w); FinishRetireWorkers(s, w);
    case Join(w, x) => JoinStep(s, w, x);
    case DestroyCheck => SlotTasks(s, Apply(s, step)); SameWorkersAccounted(s, Apply(s, step));
    case Reap(x) => ReapStep(s, x);
    case Free => SlotTasks(s, Apply(s, step)); SameWorkersAccounted(s, Apply(s, step));
  }

  // ---------- Bounds and waiters ----------

  predicate Sound(s: Pool) {
    Bounded(s) && WaitersSound(s)
  }

  lemma SubmitSound(s: Pool, t: Task, how: Creation, w: Worker, pick: Worker)
    requires Sound(s) && Usable(s) && w !in s.workers
    ensures Sound(SubmitBody(s, t, how, w, pick).0)
  {
    var s1 := if WantsWorker(s) then AddWorker(s, w) else s;
    assert Enqueue(s1, t, pick).workers.Keys == s1.workers.Keys;
  }

  lemma BoundedBy(s: Pool, s': Pool)
    requires Bounded(s) && s'.cfg == s.cfg && s'.workers == s.workers && s'.queue == s.queue
    ensures Bounded(s')
  {}

  /** Fewer submitters wait, and the destroyer sleeps no longer than it has something to wait for. */
  lemma SlotSound(s: Pool, s': Pool)
    requires Sound(s) && s' == s.(blocked := s'.blocked, woken := s'.woken, destroyer := s'.destroyer)
    requires s'.blocked <= s.blocked && s'.blocked + s'.woken <= s.blocked + s.woken
    requires s'.destroyer == if s.destroyer.Sleeping? && s'.blocked + s'.woken == {} then Ready else s.destroyer
    ensures Sound(s')
  {
    hide Bounded;
    assert Bounded(s') by {
      BoundedBy(s, s');
    }
  }

  lemma UnblockSound(s: Pool, t: Task)
    requires Sound(s)
    ensures Sound(Unblock(s, t)) && Unblock(s, t).workers == s.workers
  {
    hide Sound;
    SlotSound(s, Unblock(s, t));
  }

  lemma UnblockUsable(s: Pool, t: Task)
    requires Sound(s) && t in s.blocked + s.woken
    ensures Usable(Unblock(s, t))
  {
    hide Bounded;
    assert Usable(s);
  }

  lemma SeenSound(s: Pool, t: Task)
    requires Sound(s)
    ensures Sound(s.(seen := s.seen + {t}))
  {
  }

  lemma CloseSound(s: Pool)
    requires Sound(s)
    ensures Sound(CloseSection(s))
  {
    assert BroadcastTask(s.(closed := true)).workers.Keys == s.workers.Keys;
  }

  lemma DestroyBeginSound(s: Pool)
    requires Sound(s) && s.destroyer.Absent?
    ensures Sound(CloseSection(s).(destroyer := Ready))
  {
    CloseSound(s);
  }

  lemma TakeSound(s: Pool, w: Worker)
    requires Sound(s) && w in s.workers && s.queue != []
    ensures Sound(TakeTask(s, w))
  {
    assert |s.workers[w := Running(s.queue[0])]| == |s.workers|;
  }

  lemma FinishRetireSound(s: Pool, w: Worker)
    requires Sound(s) && w in s.workers
    ensures Sound(FinishRetire(s, w))
  {
    assert (s.workers - {w}).Keys == s.workers.Keys - {w};
  }

  lemma WorkerSound(s: Pool, w: Worker, timedOut: bool)
    requires Sound(s) && w in s.workers
    ensures Sound(WorkerSection(s, w, timedOut))
  {
    if s.queue != [] {
      TakeSound(s, w);
    } else if (s.closed || timedOut) && s.retired == {} {
      FinishRetireSound(s, w);
    }
  }

  lemma SubmitStepSound(s: Pool, step: Step)
    requires Sound(s) && WorkersAccounted(s) && Enabled(s, step) && (step.Submit? || step.Resume?)
    ensures Sound(Apply(s, step))
  {
    assert forall w :: w !in s.created ==> w !in s.workers;
    hide Sound, WorkersAccounted, SubmitBody, Unblock;
    match step
    case Submit(t, how, w, pick) =>
      SeenSound(s, t);
      SubmitSound(s.(seen := s.seen + {t}), t, how, w, pick);
    case Resume(t, how, w, pick) =>
      UnblockSound(s, t);
      UnblockUsable(s, t);
      SubmitSound(Unblock(s, t), t, how, w, pick);
  }

  lemma PhaseSound(s: Pool, s': Pool, w: Worker, p: Phase)
    requires Sound(s) && w in s.workers && !p.Parked?
    requires s' == s.(workers := s.workers[w := p], joined := s'.joined, finished := s'.finished)
    ensures Sound(s')
  {
    assert |s.workers[w := p]| == |s.workers|;
  }

  lemma DestroyerSound(s: Pool, step: Step)
    requires Sound(s) && Enabled(s, step) && (step.DestroyCheck? || step.Reap? || step.Free?)
    ensures Sound(Apply(s, step))
  {
    hide Bounded;
    BoundedBy(s, Apply(s, step));
  }

  lemma QuietSound(s: Pool, step: Step)
    requires Sound(s) && Enabled(s, step)
    requires step.Expire? || step.Complete? || step.RetireEnd? || step.Join? || step.DestroyCheck? || step.Reap? || step.Free?
    ensures Sound(Apply(s, step))
  {
    hide Sound;
    match step
    case Expire(w) => PhaseSound(s, Apply(s, step), w, TimedOut);
    case Complete(w) => PhaseSound(s, Apply(s, step), w, Entering);
    case Join(w, x) => PhaseSound(s, Apply(s, step), w, Joining(s.workers[w].stale - {x}));
    case RetireEnd(w) => FinishRetireSound(s, w);
    case _ => DestroyerSound(s, step);
  }

  lemma StepSound(s: Pool, step: Step)
    requires Sound(s) && WorkersAccounted(s) && Enabled(s, step)
    ensures Sound(Apply(s, step))
  {
    hide Sound, WorkersAccounted;
    match step
    case Submit(_, _, _, _) => SubmitStepSound(s, step);
    case Resume(_, _, _, _) => SubmitStepSound(s, step);
    case Close => CloseSound(s);
    case DestroyBegin => DestroyBeginSound(s);
    case Dispatch(w) => WorkerSound(s, w, s.workers[w].TimedOut?);
    case _ => QuietSound(s, step);
  }

  lemma StepInv(s: Pool, step: Step)
    requires Inv(s) && Enabled(s, step)
    ensures Inv(Apply(s, step))
  {
    hide TasksAccounted, WorkersAccounted, Bounded, WaitersSound, Apply;
    StepAccounted(s, step);
    StepSound(s, step);
  }

  // ---------- No stranded task ----------

  lemma EnqueueLive(s: Pool, t: Task, pick: Worker, v: Worker)
    requires ParkedSet(s) != {} ==> pick in ParkedSet(s)
    requires v in s.workers && (Active(s, v) || v in ParkedSet(s))
    requires s.cfg.idleTimeout == 0 ==>
      forall w :: w in s.workers ==> !s.workers[w].TimedOut? && (s.workers[w].Joining? ==> s.closed)
    ensures LiveInv(Enqueue(s, t, pick))
  {
    var s' := Enqueue(s, t, pick);
    if pick in ParkedSet(s) {
      assert Active(s', pick);
    } else {
      assert Active(s', v);
    }
  }

  lemma SameLive(s: Pool, s': Pool)
    requires LiveInv(s)
    requires s'.cfg == s.cfg && s'.workers == s.workers && s'.queue == s.queue && (s.closed ==> s'.closed)
    ensures LiveInv(s')
  {
    assert forall v :: Active(s, v) == Active(s', v);
  }

  lemma SubmitLive(s: Pool, t: Task, how: Creation, w: Worker, pick: Worker)
    requires LiveInv(s) && Safe(s.cfg) && GoodChoice(s, how, w, pick) && w !in s.workers
    ensures LiveInv(SubmitBody(s, t, how, w, pick).0)
  {
    var s' := SubmitBody(s, t, how, w, pick).0;
    if !s.closed && HasSlot(s) {
      if !WantsWorker(s) {
        if Waiting(s) != {} {
          var v :| v in Waiting(s);
          EnqueueLive(s, t, pick, v);
        } else {
          assert s.workers.Keys != {};
          var v :| v in s.workers;
          assert v !in Waiting(s);
          EnqueueLive(s, t, pick, v);
        }
      } else if how.Created? {
        assert forall v :: v in ParkedSet(s) ==> v in Waiting(s);
        var s1 := AddWorker(s, w);
        assert forall v :: v in ParkedSet(s1) ==> v in ParkedSet(s);
        EnqueueLive(s1, t, pick, w);
      } else {
        SameLive(s, s');
      }
    } else {
      SameLive(s, s');
    }
  }

  lemma CloseLive(s: Pool)
    requires LiveInv(s)
    ensures LiveInv(CloseSection(s))
  {
    var s' := CloseSection(s);
    assert forall v :: Active(s, v) ==> Active(s', v);
  }

  lemma WorkerLive(s: Pool, w: Worker)
    requires LiveInv(s) && Enabled(s, Dispatch(w))
    ensures LiveInv(Apply(s, Dispatch(w)))
  {
    var s' := Apply(s, Dispatch(w));
    if s.queue != [] {
      assert Active(s', w);
    }
  }

  lemma QuietLive(s: Pool, step: Step)
    requires LiveInv(s) && Enabled(s, step) && (step.Expire? || step.Complete? || step.RetireEnd? || step.Join?)
    ensures LiveInv(Apply(s, step))
  {
    var s' := Apply(s, step);
    assert forall v :: Active(s, v) ==> Active(s', v);
  }

  lemma StepLive(s: Pool, step: Step)
    requires Inv(s) && LiveInv(s) && Safe(s.cfg) && Enabled(s, step)
    ensures LiveInv(Apply(s, step))
  {
    match step
    case Submit(t, how, w, pick) =>
      SameLive(s, s.(seen := s.seen + {t}));
      SubmitLive(s.(seen := s.seen + {t}), t, how, w, pick);
    case Resume(t, how, w, pick) =>
      SameLive(s, Unblock(s, t));
      SubmitLive(Unblock(s, t), t, how, w, pick);
    case Close => CloseLive(s);
    case DestroyBegin => CloseLive(s); SameLive(CloseSection(s), Apply(s, step));
    case Dispatch(w) => WorkerLive(s, w);
    case Expire(w) => QuietLive(s, step);
    case Complete(w) => QuietLive(s, step);
    case RetireEnd(w) => QuietLive(s, step);
    case Join(w, x) => QuietLive(s, step);
    case _ => SameLive(s, Apply(s, step));
  }

  // ---------- Answers and sections ----------

  lemma ResultsDiffer(s: Pool, t: Task)
    ensures s.accepted != s.accepted + [t]
  {
    assert |s.accepted| != |s.accepted + [t]|;
  }

  lemma WantsIsNeeds(s: Pool)
    ensures WantsWorker(s) <==> NeedsWorker(s)
    ensures HasSlot(s) <==> !QueueFull(s)
  {
    assert forall w :: w in Waiting(s) ==> w in s.workers;
    if Waiting(s) == {} {
      forall w | w in s.workers
        ensures !s.workers[w].Parked? && !s.workers[w].Notified? && !s.workers[w].TimedOut?
      {
        assert w !in Waiting(s);
      }
    }
  }

  lemma SubmitRight(s: Pool, t: Task, how: Creation, w: Worker, pick: Worker)
    ensures RightAnswer(s, how, SubmitBody(s, t, how, w, pick).1)
  {
    hide WantsWorker, NeedsWorker, HasSlot, QueueFull, Enqueue, AddWorker, BroadcastSlot;
    WantsIsNeeds(s);
  }

  lemma SubmitDoes(s: Pool, t: Task, how: Creation, w: Worker, pick: Worker)
    requires t !in s.blocked + s.woken
    ensures var (s', rc) := SubmitBody(s, t, how, w, pick); SubmitLeaves(s, s', t, how, w, rc)
  {
    hide WantsWorker, NeedsWorker, HasSlot, QueueFull, Waiting;
    WantsIsNeeds(s);
    assert s.blocked + s.woken - {t} == s.blocked + s.woken && s.blocked - {t} == s.blocked;
    ResultsDiffer(s, t);
  }

  /** What a submit answers, in terms of the pool it found and the pool it left. */
  lemma SubmitAnswers(s: Pool, t: Task, how: Creation, w: Worker, pick: Worker)
    requires t !in s.blocked + s.woken
    ensures var (s', rc) := SubmitBody(s, t, how, w, pick); Answered(s, s', t, how, w, rc)
  {
    hide SubmitBody, RightAnswer, SubmitLeaves;
    SubmitRight(s, t, how, w, pick);
    SubmitDoes(s, t, how, w, pick);
  }

  lemma SameNeeds(s0: Pool, s: Pool)
    requires s == s0.(blocked := s.blocked, woken := s.woken, destroyer := s.destroyer, seen := s.seen)
    ensures QueueFull(s) == QueueFull(s0) && NeedsWorker(s) == NeedsWorker(s0)
  {}

  /** The answer does not depend on who waits for a slot, nor on which tasks have been seen. */
  lemma AnswerIgnores(s0: Pool, s: Pool, s': Pool, t: Task, how: Creation, w: Worker, rc: Status)
    requires s == s0.(blocked := s.blocked, woken := s.woken, destroyer := s.destroyer, seen := s.seen)
    requires s.blocked + s.woken - {t} == s0.blocked + s0.woken - {t} && s.blocked - {t} == s0.blocked - {t}
    requires Answered(s, s', t, how, w, rc)
    ensures Answered(s0, s', t, how, w, rc)
  {
    hide QueueFull, NeedsWorker;
    SameNeeds(s0, s);
  }

  lemma HeadAnswers(s: Pool, t: Task, how: Creation, w: Worker, pick: Worker)
    requires t !in s.blocked + s.woken
    ensures var (s', rc) := SubmitBody(s.(seen := s.seen + {t}), t, how, w, pick); Answered(s, s', t, how, w, rc)
  {
    hide SubmitBody, Answered;
    var s1 := s.(seen := s.seen + {t});
    var (s', rc) := SubmitBody(s1, t, how, w, pick);
    SubmitAnswers(s1, t, how, w, pick);
    AnswerIgnores(s, s1, s', t, how, w, rc);
  }

  lemma UnblockEffect(s: Pool, t: Task)
    ensures var s1 := Unblock(s, t);
            && s1 == s.(blocked := s1.blocked, woken := s1.woken, destroyer := s1.destroyer)
            && s1.blocked + s1.woken == s.blocked + s.woken - {t} && s1.blocked == s.blocked - {t}
  {}

  lemma ResumeAnswers(s: Pool, t: Task, how: Creation, w: Worker, pick: Worker)
    ensures var (s', rc) := SubmitBody(Unblock(s, t), t, how, w, pick); Answered(s, s', t, how, w, rc)
  {
    hide SubmitBody, Unblock, Answered;
    var s1 := Unblock(s, t);
    var (s', rc) := SubmitBody(s1, t, how, w, pick);
    UnblockEffect(s, t);
    SubmitAnswers(s1, t, how, w, pick);
    AnswerIgnores(s, s1, s', t, how, w, rc);
  }

  /** The worker loop takes the first queued task if there is any, waits only on an open pool and not after a
      timeout, and leaves otherwise, taking over the workers that retired before it. */
  lemma WorkerDecides(s: Pool, w: Worker, timedOut: bool)
    requires w in s.workers
    ensures var s' := WorkerSection(s, w, timedOut);
            var leaves := s.queue == [] && (s.closed || timedOut);
            && (s.queue != [] ==> s'.workers == s.workers[w := Running(s.queue[0])] && [s.queue[0]] + s'.queue == s.queue)
            && (w in s'.workers && s'.workers[w].Parked? <==> s.queue == [] && !leaves)
            && (leaves && s.retired == {} <==> w !in s'.workers)
            && (leaves ==> s'.retired == if s.retired == {} then {w} else {})
            && (leaves && s.retired != {} ==> s'.workers == s.workers[w := Joining(s.retired)])
            && (forall v :: v in s.workers && v != w ==> v in s'.workers && s'.workers[v] == s.workers[v])
  {}
}
