/**
  The pool object of thread/src/thpool.c with its counters and lists.  A method is one stretch of code run with
  the lock held; it moves the ghost state `pool` by one transition of module `ThreadPool`, and `Valid` ties each
  field, and each of the four counters in particular, to that state.
 */
module ThreadPoolSections {
  import opened ThreadPool
  import opened ThreadPoolProofs

  /** What the object shows of a state: its lists, its flag and its four counters. */
  datatype Fields = Fields(
    queue: seq<Task>,
    live: set<Worker>,
    retired: set<Worker>,
    cfg: Config,
    closed: bool,
    liveCount: int,
    waitingCount: int,
    blockedCount: int,
    queuedCount: int)

  ghost function Shown(s: Pool): Fields {
    Fields(s.queue, s.workers.Keys, s.retired, s.cfg, s.closed,
           |s.workers.Keys|, |Waiting(s)|, |s.blocked + s.woken|, |s.queue|)
  }

  /** What the code tests, in terms of the state. */
  lemma ShownTests(s: Pool)
    ensures var f := Shown(s);
            && f.queue == s.queue && f.retired == s.retired && f.cfg == s.cfg && f.closed == s.closed
            && f.queuedCount == |s.queue| && f.liveCount == |s.workers|
            && (f.waitingCount == 0 <==> Waiting(s) == {}) && (f.blockedCount == 0 <==> s.blocked + s.woken == {})
            && f.live == s.workers.Keys && (s.workers != map[] ==> f.liveCount > 0)
            && f.waitingCount >= 0 && f.blockedCount >= 0 && (f.liveCount == 0 <==> s.workers == map[])
  {
    assert s.workers == map[] <==> s.workers.Keys == {};
  }

  lemma SlotShows(s: Pool)
    ensures Shown(BroadcastSlot(s)) == Shown(s)
  {
    assert Waiting(BroadcastSlot(s)) == Waiting(s);
    assert BroadcastSlot(s).blocked + BroadcastSlot(s).woken == s.blocked + s.woken;
  }

  lemma SignalShows(s: Pool, pick: Worker)
    ensures Shown(SignalTask(s, pick)) == Shown(s)
  {
    assert Waiting(SignalTask(s, pick)) == Waiting(s);
    assert SignalTask(s, pick).workers.Keys == s.workers.Keys;
  }

  lemma BroadcastShows(s: Pool)
    ensures Shown(BroadcastTask(s)) == Shown(s)
  {
    assert Waiting(BroadcastTask(s)) == Waiting(s);
    assert BroadcastTask(s).workers.Keys == s.workers.Keys;
  }

  lemma AddedWaits(s: Pool, w: Worker)
    requires w !in s.workers
    ensures Waiting(AddWorker(s, w)) == Waiting(s) && AddWorker(s, w).workers.Keys == s.workers.Keys + {w}
  {}

  lemma AddedShows(s: Pool, w: Worker)
    requires w !in s.workers
    ensures Shown(AddWorker(s, w)) == Shown(s).(live := Shown(s).live + {w}, liveCount := Shown(s).liveCount + 1)
  {
    hide Waiting;
    AddedWaits(s, w);
  }

  lemma QueuedShows(s: Pool, t: Task, pick: Worker)
    ensures Shown(Enqueue(s, t, pick)) == Shown(s).(queue := Shown(s).queue + [t], queuedCount := Shown(s).queuedCount + 1)
  {
    var s1 := s.(queue := s.queue + [t], accepted := s.accepted + [t]);
    assert Waiting(s1) == Waiting(s);
    SignalShows(s1, pick);
  }

  lemma BlockedShows(s: Pool, t: Task)
    requires t !in s.blocked + s.woken
    ensures Shown(s.(blocked := s.blocked + {t})) == Shown(s).(blockedCount := Shown(s).blockedCount + 1)
  {
    var s1 := s.(blocked := s.blocked + {t});
    assert s1.blocked + s1.woken == s.blocked + s.woken + {t};
    assert Waiting(s1) == Waiting(s);
  }

  lemma UnblockedShows(s: Pool, t: Task)
    requires t in s.blocked + s.woken
    ensures Shown(s.(blocked := s.blocked - {t}, woken := s.woken - {t})) == Shown(s).(blockedCount := Shown(s).blockedCount - 1)
  {
    var s1 := s.(blocked := s.blocked - {t}, woken := s.woken - {t});
    assert s1.blocked + s1.woken == s.blocked + s.woken - {t};
    assert Waiting(s1) == Waiting(s);
  }

  lemma SeenShows(s: Pool, t: Task)
    ensures Shown(s.(seen := s.seen + {t})) == Shown(s)
  {
    assert Waiting(s.(seen := s.seen + {t})) == Waiting(s);
  }

  lemma PhaseWaits(s: Pool, w: Worker, p: Phase)
    requires w in s.workers
    ensures var before, after := if w in Waiting(s) then 1 else 0, if p.Parked? || p.Notified? || p.TimedOut? then 1 else 0;
            |Waiting(s.(workers := s.workers[w := p]))| == |Waiting(s)| - before + after
  {
    var s1 := s.(workers := s.workers[w := p]);
    var others := Waiting(s) - {w};
    assert Waiting(s1) == if p.Parked? || p.Notified? || p.TimedOut? then others + {w} else others;
    hide Waiting;
  }

  /** A worker on the live list changes its phase. */
  lemma PhaseShows(s: Pool, w: Worker, p: Phase)
    requires w in s.workers
    ensures var before, after := if w in Waiting(s) then 1 else 0, if p.Parked? || p.Notified? || p.TimedOut? then 1 else 0;
            Shown(s.(workers := s.workers[w := p])) == Shown(s).(waitingCount := Shown(s).waitingCount - before + after)
  {
    var s1 := s.(workers := s.workers[w := p]);
    assert s1.workers.Keys == s.workers.Keys;
    PhaseWaits(s, w, p);
  }

  /** A worker takes the first task. */
  function StartFirst(s: Pool, w: Worker): Pool
    requires s.queue != []
  {
    s.(workers := s.workers[w := Running(s.queue[0])], queue := s.queue[1..], started := s.started + [s.queue[0]])
  }

  lemma StartShows(s: Pool, w: Worker)
    requires s.queue != [] && w in s.workers && s.workers[w] == Entering
    ensures Shown(StartFirst(s, w)) == Shown(s).(queue := s.queue[1..], queuedCount := Shown(s).queuedCount - 1)
    ensures TakeTask(s, w) == if s.blocked + s.woken != {} then BroadcastSlot(StartFirst(s, w)) else StartFirst(s, w)
  {
    var s1 := StartFirst(s, w);
    assert s1.workers.Keys == s.workers.Keys && Waiting(s1) == Waiting(s);
  }

  lemma JoiningShows(s: Pool, w: Worker)
    requires w in s.workers && s.workers[w] == Entering && s.retired != {}
    ensures Shown(Retire(s, w)) == Shown(s).(retired := {})
  {
    var s1 := Retire(s, w);
    assert s1.workers.Keys == s.workers.Keys && Waiting(s1) == Waiting(s);
  }

  lemma RetiredShows(s: Pool, w: Worker)
    requires w in s.workers && w !in Waiting(s)
    ensures Shown(FinishRetire(s, w)) ==
            Shown(s).(live := Shown(s).live - {w}, retired := Shown(s).retired + {w}, liveCount := Shown(s).liveCount - 1)
  {
    var s1 := s.(workers := s.workers - {w}, retired := s.retired + {w});
    assert s1.workers.Keys == s.workers.Keys - {w} && Waiting(s1) == Waiting(s);
    SlotShows(s1);
  }

  lemma ReapedShows(s: Pool, x: Worker)
    ensures Shown(s.(retired := s.retired - {x}, joined := s.joined + {x})) == Shown(s).(retired := s.retired - {x})
  {
    assert Waiting(s.(retired := s.retired - {x}, joined := s.joined + {x})) == Waiting(s);
  }

  lemma DestroyerShows(s: Pool, d: Destroyer)
    ensures Shown(s.(destroyer := d)) == Shown(s)
  {
    assert Waiting(s.(destroyer := d)) == Waiting(s);
  }

  lemma ClosedShows(s: Pool)
    ensures Shown(CloseSection(s)) == Shown(s).(closed := true)
  {
    var s1 := s.(closed := true);
    assert Waiting(s1) == Waiting(s);
    BroadcastShows(s1);
    SlotShows(BroadcastTask(s1));
  }

  lemma SetTwice(m: map<Worker, Phase>, w: Worker, p: Phase, q: Phase)
    ensures m[w := p][w := q] == m[w := q]
  {}

  lemma SectionIgnoresPhase(s: Pool, w: Worker, timedOut: bool)
    requires w in s.workers
    ensures WorkerSection(s.(workers := s.workers[w := Entering]), w, timedOut) == WorkerSection(s, w, timedOut)
  {
    SetTwice(s.workers, w, Entering, Parked);
    SetTwice(s.workers, w, Entering, Joining(s.retired));
    if s.queue != [] {
      SetTwice(s.workers, w, Entering, Running(s.queue[0]));
    }
    assert s.workers[w := Entering] - {w} == s.workers - {w};
  }

  class PoolObject {
    var queue: seq<Task>
    var live: set<Worker>
    var retired: set<Worker>
    const cfg: Config
    var liveCount: nat
    var waitingCount: nat
    var blockedCount: nat
    var queuedCount: nat
    var closed: bool

    ghost var pool: Pool

    ghost predicate Valid()
      reads this
    {
      Fields(queue, live, retired, cfg, closed, liveCount, waitingCount, blockedCount, queuedCount) == Shown(pool)
    }

    constructor (size: nat, config: Config)
      ensures Valid() && pool == Init(config.(capacity := size))
    {
      cfg := config.(capacity := size);
      queue, live, retired := [], {}, {};
      liveCount, waitingCount, blockedCount, queuedCount, closed := 0, 0, 0, 0, false;
      pool := Init(config.(capacity := size));
    }

    /** `thpool_worker_create`: the live slot is reserved first and given back if no thread can be made. */
    method CreateWorker(how: Creation, w: Worker) returns (rc: Status)
      requires Valid() && w !in pool.workers
      modifies this
      ensures Valid() && rc == (if how == Created then Normal else MemAlloc)
      ensures pool == match how
                      case NoMemory => old(pool)
                      case NoThread => BroadcastSlot(old(pool))
                      case Created => AddWorker(old(pool), w)
    {
      hide Shown, BroadcastSlot, AddWorker;
      if how == NoMemory {
        return MemAlloc;
      }
      liveCount := liveCount + 1;
      if how == NoThread {
        liveCount := liveCount - 1;
        SlotShows(pool);
        pool := BroadcastSlot(pool);
        return MemAlloc;
      }
      live := live + {w};
      AddedShows(pool, w);
      pool := AddWorker(pool, w);
      return Normal;
    }

    method Append(t: Task, ghost pick: Worker)
      requires Valid()
      modifies this
      ensures Valid() && pool == Enqueue(old(pool), t, pick)
    {
      hide Shown, Enqueue;
      QueuedShows(pool, t, pick);
      queue := queue + [t];
      queuedCount := queuedCount + 1;
      pool := Enqueue(pool, t, pick);
    }

    method Block(t: Task)
      requires Valid() && t !in pool.blocked + pool.woken
      modifies this
      ensures Valid() && pool == old(pool).(blocked := old(pool).blocked + {t})
    {
      hide Shown;
      BlockedShows(pool, t);
      blockedCount := blockedCount + 1;
      pool := pool.(blocked := pool.blocked + {t});
    }

    /** The body of the submit loop of `ct_thpool_submit`. */
    method SubmitLoop(t: Task, how: Creation, w: Worker, ghost pick: Worker) returns (rc: Status)
      requires Valid() && t !in pool.blocked + pool.woken && w !in pool.workers
      modifies this
      ensures Valid() && (pool, rc) == SubmitBody(old(pool), t, how, w, pick)
      ensures Answered(old(pool), pool, t, how, w, rc)
    {
      hide Shown, Enqueue, AddWorker, BroadcastSlot, Waiting, Answered;
      SubmitAnswers(pool, t, how, w, pick);
      ShownTests(pool);
      if closed {
        return Closed;
      }
      if cfg.maxTasks == 0 || queuedCount < cfg.maxTasks {
        if waitingCount == 0 && (cfg.capacity == 0 || liveCount < cfg.capacity) {
          rc := CreateWorker(how, w);
          if rc != Normal {
            return;
          }
        }
        Append(t, pick);
        return Normal;
      }
      if cfg.nonBlocking {
        return Overload;
      }
      Block(t);
      return Blocks;
    }

    /** `ct_thpool_submit` up to its first release of the lock. */
    method SubmitHead(t: Task, how: Creation, w: Worker, ghost pick: Worker) returns (rc: Status)
      requires Valid() && Enabled(pool, Submit(t, how, w, pick))
      requires t !in pool.blocked + pool.woken && pool.workers.Keys <= pool.created
      modifies this
      ensures Valid() && pool == Apply(old(pool), Submit(t, how, w, pick))
      ensures rc == SubmitBody(old(pool).(seen := old(pool).seen + {t}), t, how, w, pick).1
      ensures Answered(old(pool), pool, t, how, w, rc)
    {
      hide Shown, SubmitBody, Answered;
      HeadAnswers(pool, t, how, w, pick);
      SeenShows(pool, t);
      pool := pool.(seen := pool.seen + {t});
      rc := SubmitLoop(t, how, w, pick);
    }

    /** `ct_thpool_submit` from the end of a wait to its next release of the lock. */
    method SubmitResume(t: Task, how: Creation, w: Worker, ghost pick: Worker) returns (rc: Status)
      requires Valid() && Enabled(pool, Resume(t, how, w, pick)) && pool.workers.Keys <= pool.created
      modifies this
      ensures Valid() && pool == Apply(old(pool), Resume(t, how, w, pick))
      ensures rc == SubmitBody(Unblock(old(pool), t), t, how, w, pick).1
      ensures Answered(old(pool), pool, t, how, w, rc)
    {
      hide Shown, SubmitBody, Answered;
      ResumeAnswers(pool, t, how, w, pick);
      ShownTests(pool);
      UnblockedShows(pool, t);
      blockedCount := blockedCount - 1;
      ghost var s1 := pool.(blocked := pool.blocked - {t}, woken := pool.woken - {t});
      ShownTests(s1);
      pool := s1;
      if blockedCount == 0 {
        SlotShows(s1);
        pool := BroadcastSlot(s1);
      }
      rc := SubmitLoop(t, how, w, pick);
    }

    method Close()
      requires Valid()
      modifies this
      ensures Valid() && pool == CloseSection(old(pool))
    {
      hide Shown, CloseSection;
      ClosedShows(pool);
      closed := true;
      pool := CloseSection(pool);
    }

    method LeaveWait(w: Worker, waited: bool)
      requires Valid() && Enabled(pool, Dispatch(w)) && waited == (w in Waiting(pool))
      modifies this
      ensures Valid() && pool == old(pool).(workers := old(pool).workers[w := Entering])
      ensures queue == old(queue) && closed == old(closed)
    {
      hide Shown;
      ShownTests(pool);
      PhaseShows(pool, w, Entering);
      if waited {
        waitingCount := waitingCount - 1;
      }
      pool := pool.(workers := pool.workers[w := Entering]);
    }

    method Park(w: Worker)
      requires Valid() && w in pool.workers && pool.workers[w] == Entering
      modifies this
      ensures Valid() && pool == old(pool).(workers := old(pool).workers[w := Parked])
    {
      hide Shown;
      PhaseShows(pool, w, Parked);
      waitingCount := waitingCount + 1;
      pool := pool.(workers := pool.workers[w := Parked]);
    }

    method TakeFirst(w: Worker)
      requires Valid() && queue != [] && w in pool.workers && pool.workers[w] == Entering
      modifies this
      ensures Valid() && pool == TakeTask(old(pool), w)
    {
      hide Shown, TakeTask, StartFirst, BroadcastSlot;
      ShownTests(pool);
      StartShows(pool, w);
      SlotShows(StartFirst(pool, w));
      queue := queue[1..];
      queuedCount := queuedCount - 1;
      if blockedCount > 0 {
        pool := BroadcastSlot(StartFirst(pool, w));
      } else {
        pool := StartFirst(pool, w);
      }
    }

    /** `thpool_worker_retire` from the moment the lock is held for good. */
    method RetireTail(w: Worker)
      requires Valid() && w in pool.workers && w !in Waiting(pool)
      modifies this
      ensures Valid() && pool == FinishRetire(old(pool), w)
    {
      hide Shown, FinishRetire;
      ShownTests(pool);
      RetiredShows(pool, w);
      live := live - {w};
      retired := retired + {w};
      liveCount := liveCount - 1;
      pool := FinishRetire(pool, w);
    }

    /** `thpool_worker_retire` up to its first release of the lock. */
    method RetireHead(w: Worker)
      requires Valid() && w in pool.workers && pool.workers[w] == Entering
      modifies this
      ensures Valid() && pool == Retire(old(pool), w)
    {
      hide Shown, FinishRetire;
      ShownTests(pool);
      if retired != {} {
        JoiningShows(pool, w);
        pool := Retire(pool, w);
        retired := {};
      } else {
        RetireTail(w);
      }
    }

    /** The worker loop from taking the lock to releasing it.  `waited` says that it comes from a wait. */
    method WorkerLoop(w: Worker, waited: bool, timedOut: bool) returns (task: seq<Task>)
      requires Valid() && Enabled(pool, Dispatch(w))
      requires waited == (w in Waiting(pool)) && timedOut == pool.workers[w].TimedOut?
      modifies this
      ensures Valid() && pool == Apply(old(pool), Dispatch(w))
      ensures task == if old(queue) != [] then [old(queue)[0]] else []
    {
      hide Shown, TakeTask, Retire;
      SectionIgnoresPhase(pool, w, timedOut);
      ShownTests(pool);
      LeaveWait(w, waited);
      if queue == [] && !closed && !timedOut {
        Park(w);
        return [];
      }
      if queue != [] {
        task := [queue[0]];
        TakeFirst(w);
        return;
      }
      RetireHead(w);
      return [];
    }

    /** The test of destroy's wait loop: true means that the wait is over. */
    method DestroyTest() returns (done: bool)
      requires Valid() && Enabled(pool, DestroyCheck)
      modifies this
      ensures Valid() && pool == Apply(old(pool), DestroyCheck) && done == pool.destroyer.Reaping?
    {
      hide Shown;
      ShownTests(pool);
      done := !(liveCount > 0 || blockedCount > 0);
      DestroyerShows(pool, Apply(pool, DestroyCheck).destroyer);
      pool := Apply(pool, DestroyCheck);
    }

    /** The tail of `ct_thpool_destroy`: every retired worker is unlinked, joined and freed. */
    method DestroyReap()
      requires Valid() && pool.destroyer.Reaping?
      modifies this
      ensures Valid() && pool == old(pool).(retired := {}, joined := old(pool).joined + old(pool).retired,
                                            destroyer := Freed)
    {
      hide Shown;
      ShownTests(pool);
      ghost var all := retired;
      while retired != {}
        invariant Valid() && retired <= all
        invariant pool == old(pool).(retired := retired, joined := old(pool).joined + (all - retired))
        decreases retired
      {
        var x :| x in retired;
        ReapedShows(pool, x);
        assert all - (retired - {x}) == all - retired + {x};
        assert old(pool).joined + (all - (retired - {x})) == pool.joined + {x};
        retired := retired - {x};
        pool := pool.(retired := retired, joined := pool.joined + {x});
      }
      assert all - {} == all;
      DestroyerShows(pool, Freed);
      pool := pool.(destroyer := Freed);
    }
  }
}
