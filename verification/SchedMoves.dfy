/** The steps that change more than the running thread: scheduling, switching, wakeups,
    exits, reaping and forks. */
module SchedMoves {
  import opened Options
  import opened Sched
  import opened SchedInv

  /** A step of CPU c that wakes or moves threads but lets nobody fall asleep, and turns no
      child of a sleeper into a zombie. */
  ghost predicate Quiet(s: State, z: State, c: nat)
    requires Shape(s) && Shape(z) && c < NCPU
  {
    && z.taken == s.taken && (forall d | 0 <= d < NCPU && d != c :: z.loc[d] == s.loc[d])
    && !(s.loc[c].Run? && s.loc[c].pc.Waking?) && HoldAt(z, c)
    && (forall k | k in s.lock && s.lock[k] != c :: k in z.lock && z.lock[k] == s.lock[k])
    && (forall u: nat, w | AsleepOn(z, u, w) :: AsleepOn(s, u, w))
    && (forall q | 0 <= q < NPROC && z.ps[q] == PZombie && z.parent[q].Some? ::
         s.ps[q] == PZombie && s.parent[q] == z.parent[q])
    && (forall q | 0 <= q < NPROC && z.parent[q] != s.parent[q] :: WaitLock !in s.lock || s.lock[WaitLock] == c)
    && (forall u | 0 <= u < NT && Gone(s, u) && !Gone(z, u) && s.ps[Proc(u)] != PUnused ::
         Runs(s, c) && Proc(s.loc[c].t) == Proc(u) && s.ts[s.loc[c].t] == Running)
  }

  /** The thread has ended or was never started. */
  predicate Gone(s: State, u: nat)
    requires |s.ts| == NT && u < NT
  {
    s.ts[u] == Zombie || s.ts[u] == Unused
  }

  lemma QuietKeeps(s: State, z: State, c: nat)
    requires Inv(s) && Core(z) && CountOk(z) && c < NCPU && Quiet(s, z, c)
    ensures Inv(z)
  {
    hide LockOk, CpuAt, ThreadAt, AsleepOn, Holds, LockWaking, InitWaking, HoldAt, CountOk;
    forall u: nat, l: nat | AsleepOn(z, u, OnLock(l))
      ensures l in z.taken || LockWaking(z, l, Proc(u))
    {
      StillWaking(s, z, c, l, Proc(u));
    }
    forall u: nat, q | 0 <= q < NPROC && AsleepOn(z, u, OnChild) && z.parent[q] == Some(Proc(u)) && z.ps[q] == PZombie
      ensures InitWaking(z, Proc(u))
    {
      StillWaking(s, z, c, 0, Proc(u));
    }
    forall d | 0 <= d < NCPU
      ensures HoldAt(z, d)
    {
      if d != c {
        QuietHold(s, z, c, d);
      }
    }
  }

  lemma StillWaking(s: State, z: State, c: nat, l: nat, p: nat)
    requires Core(s) && Shape(z) && c < NCPU && Quiet(s, z, c)
    ensures LockWaking(s, l, p) ==> LockWaking(z, l, p)
    ensures InitWaking(s, p) ==> InitWaking(z, p)
  {
    hide CpuAt, ThreadAt, AsleepOn, HoldAt, Holds;
  }

  lemma QuietHold(s: State, z: State, c: nat, d: nat)
    requires Inv(s) && Shape(z) && c < NCPU && d < NCPU && d != c && Quiet(s, z, c)
    ensures HoldAt(z, d)
  {
    hide ThreadAt, AsleepOn, CountOk, SleepOk, WaitOk, LockWaking, InitWaking;
    assert HoldAt(s, d) && CpuAt(s, d) && z.loc[d] == s.loc[d];
    if s.loc[d].Run? && s.loc[d].t < NT {
      var pc := s.loc[d].pc;
      if pc.ExitLock? || (pc.Waking? && pc.k.ToParent?) {
        assert Holds(s.loc[d], WaitLock) && s.lock[WaitLock] == d;
      }
      if InExit(pc) {
        StillGone(s, z, c, d);
      }
    }
  }

  /** Threads that ended before their process began to exit stay ended: only a running thread of
      the process could start another. */
  lemma StillGone(s: State, z: State, c: nat, d: nat)
    requires Core(s) && Shape(z) && c < NCPU && d < NCPU && d != c && Quiet(s, z, c)
    requires Runs(s, d) && InExit(s.loc[d].pc) && OthersGone(s, Proc(s.loc[d].t), s.loc[d].t)
    ensures OthersGone(z, Proc(s.loc[d].t), s.loc[d].t)
  {
    hide ThreadAt, AsleepOn, LockOk, Holds, HoldAt;
    assert CpuAt(s, d) && CpuAt(s, c);
    var t := s.loc[d].t;
    forall u | 0 <= u < NT && Proc(u) == Proc(t) && u != t
      ensures Gone(z, u)
    {
      assert Gone(s, u);
    }
  }

  lemma HolderIs(s: State, c: nat, k: Lock)
    requires Core(s) && c < NCPU && Holds(s.loc[c], k)
    ensures k in s.lock && s.lock[k] == c
  {
    hide Holds, CpuAt, ThreadAt;
  }

  /** A free lock is held nowhere. */
  lemma FreeLock(s: State, d: nat, k: Lock)
    requires Core(s) && d < NCPU && k !in s.lock
    ensures !Holds(s.loc[d], k)
  {
    hide Holds, CpuAt, ThreadAt;
  }

  // ---------------------------------------------------------------- the scheduler

  lemma SchedTakeKeeps(s: State, z: State, c: nat)
    requires Inv(s) && SchedNext(s, SchedTake(c), z)
    ensures Inv(z)
  {
    hide SleepOk, WaitOk, LockOk, HoldAt;
    assert CpuAt(s, c);
    LockStep(s, z, c, if s.ps[s.loc[c].p] == PUsed then {PLock(s.loc[c].p)} else {}, {}) ;
    SchedCore(s, z, c);
    SchedQuiet(s, z, c);
    QuietKeeps(s, z, c);
  }

  lemma SchedDoneKeeps(s: State, z: State, c: nat)
    requires Inv(s) && SchedNext(s, SchedDone(c), z)
    ensures Inv(z)
  {
    hide SleepOk, WaitOk, LockOk, HoldAt;
    assert CpuAt(s, c);
    HolderIs(s, c, PLock(s.loc[c].p));
    LockStep(s, z, c, {}, {PLock(s.loc[c].p)});
    SchedCore(s, z, c);
    SchedQuiet(s, z, c);
    QuietKeeps(s, z, c);
  }

  /** The scheduler looked at a thread that is not runnable. */
  lemma SchedSkipKeeps(s: State, z: State, c: nat)
    requires Inv(s) && SchedNext(s, SchedLook(c), z) && !z.loc[c].Run?
    ensures Inv(z)
  {
    hide SleepOk, WaitOk, LockOk, HoldAt;
    assert CpuAt(s, c);
    LockStep(s, z, c, {}, {});
    SchedCore(s, z, c);
    SchedQuiet(s, z, c);
    QuietKeeps(s, z, c);
  }

  lemma SchedCore(s: State, z: State, c: nat)
    requires Core(s) && c < NCPU && !s.loc[c].Run? && Shape(z) && LockOk(z) && CpuAt(z, c) && !z.loc[c].Run?
    requires z == s.(loc := s.loc[c := z.loc[c]], lock := z.lock)
    ensures Core(z)
  {
    hide LockOk, Holds, PcOk;
    forall d | 0 <= d < NCPU
      ensures CpuAt(z, d)
    {
      assert CpuAt(s, d);
    }
    forall t | 0 <= t < NT
      ensures ThreadAt(z, t)
    {
      assert ThreadAt(s, t);
    }
  }

  lemma SchedQuiet(s: State, z: State, c: nat)
    requires Core(s) && c < NCPU && !s.loc[c].Run? && Shape(z) && !z.loc[c].Run?
    requires z == s.(loc := s.loc[c := z.loc[c]], lock := z.lock)
    requires forall k | k in s.lock && s.lock[k] != c :: k in z.lock && z.lock[k] == s.lock[k]
    ensures Quiet(s, z, c)
  {
    hide LockOk, Holds, PcOk, CpuAt;
    forall u: nat, w | AsleepOn(z, u, w)
      ensures AsleepOn(s, u, w)
    {
      assert ThreadAt(s, u);
    }
  }

  /** Thread ids and their process. */
  lemma Slot(p: nat, i: nat)
    requires p < NPROC && i < NTHREAD
    ensures p * NTHREAD + i < NT && Proc(p * NTHREAD + i) == p && (p * NTHREAD + i) % NTHREAD == i
  {
  }

  /** A runnable thread whose process lock the scheduler holds has a saved context. */
  lemma RunnableIsSaved(s: State, c: nat, t: nat)
    requires Core(s) && c < NCPU && t < NT && Holds(s.loc[c], PLock(Proc(t))) && !s.loc[c].Run? && s.ts[t] == Runnable
    ensures s.ctx[t].Saved? && !s.ctx[t].why.Exited? && !s.ctx[t].why.Ended?
    ensures WhyOk(s.ctx[t].why) && s.ps[Proc(t)] == PUsed
  {
    hide LockOk;
    assert ThreadAt(s, t);
    HolderIs(s, c, PLock(Proc(t)));
    if s.ctx[t].OnCpu? {
      var d := s.ctx[t].c;
      assert CpuAt(s, d);
      HolderIs(s, d, PLock(Proc(t)));
    }
  }

  /** The scheduler switches to a thread. */
  lemma SchedRunKeeps(s: State, z: State, c: nat)
    requires Inv(s) && SchedNext(s, SchedLook(c), z) && z.loc[c].Run?
    ensures Inv(z)
  {
    hide SleepOk, WaitOk, LockOk, HoldAt, ThreadAt, CpuAt, Holds, AsleepOn;
    var p, i := s.loc[c].p, s.loc[c].i;
    var t := p * NTHREAD + i;
    Slot(p, i);
    assert Holds(s.loc[c], PLock(p)) by {
      ScanHolds(p, i);
    }
    RunnableIsSaved(s, c, t);
    LandedHolds(t, s.ctx[t].why);
    ScanHolds(p, i);
    LockStep(s, z, c, {}, {});
    RunCore(s, z, c, t);
    forall u: nat, w | AsleepOn(z, u, w)
      ensures AsleepOn(s, u, w)
    {
      RunAsleep(s, z, c, t, u, w);
    }
    assert HoldAt(z, c) by {
      LandedHold(z, c);
    }
    QuietKeeps(s, z, c);
  }

  lemma ScanHolds(p: nat, i: nat)
    ensures forall k :: Holds(Scan(p, i), k) <==> k == PLock(p)
  {
  }

  lemma SwitchingHolds(t: nat, why: Why)
    ensures forall k :: Holds(Run(t, Switching(why)), k) <==> k == PLock(Proc(t))
  {
  }

  lemma LandedHold(z: State, c: nat)
    requires Shape(z) && c < NCPU && z.loc[c].Run? && z.loc[c].pc.Landed?
    ensures HoldAt(z, c)
  {
  }

  lemma RunCore(s: State, z: State, c: nat, t: nat)
    requires Core(s) && c < NCPU && !s.loc[c].Run? && t < NT && s.ctx[t].Saved? && s.ts[t] == Runnable
    requires WhyOk(s.ctx[t].why) && !s.ctx[t].why.Exited? && !s.ctx[t].why.Ended? && s.ps[Proc(t)] == PUsed
    requires z == s.(loc := s.loc[c := Run(t, Landed(s.ctx[t].why))],
                     ts := s.ts[t := Running], ctx := s.ctx[t := OnCpu(c)])
    requires LockOk(z)
    ensures Core(z)
  {
    hide LockOk, Holds;
    forall d | 0 <= d < NCPU
      ensures CpuAt(z, d)
    {
      assert CpuAt(s, d);
    }
    forall u | 0 <= u < NT
      ensures ThreadAt(z, u)
    {
      assert ThreadAt(s, u);
    }
  }

  lemma RunAsleep(s: State, z: State, c: nat, t: nat, u: nat, w: Waiter)
    requires Core(s) && c < NCPU && !s.loc[c].Run? && t < NT && s.ctx[t].Saved?
    requires z == s.(loc := s.loc[c := Run(t, Landed(s.ctx[t].why))],
                     ts := s.ts[t := Running], ctx := s.ctx[t := OnCpu(c)])
    requires AsleepOn(z, u, w)
    ensures AsleepOn(s, u, w)
  {
    hide LockOk, Holds, CpuAt;
    assert ThreadAt(s, u);
  }

  /** The thread switches back to the scheduler; its context is now saved. */
  lemma SwitchKeeps(s: State, z: State, c: nat)
    requires Inv(s) && SwitchNext(s, Switch(c), z)
    ensures Inv(z)
  {
    hide SleepOk, WaitOk, LockOk, HoldAt, ThreadAt, Holds, AsleepOn;
    assert CpuAt(s, c);
    var t := s.loc[c].t;
    SwitchingHolds(t, s.loc[c].pc.why);
    ScanHolds(Proc(t), t % NTHREAD + 1);
    LockStep(s, z, c, {}, {});
    SwitchCore(s, z, c);
    forall u: nat, w | AsleepOn(z, u, w)
      ensures AsleepOn(s, u, w)
    {
      SwitchAsleep(s, z, c, u, w);
    }
    assert HoldAt(z, c) by {
      assert !z.loc[c].Run?;
      ScanHold(z, c);
    }
    QuietKeeps(s, z, c);
  }

  lemma ScanHold(z: State, c: nat)
    requires Shape(z) && c < NCPU && !z.loc[c].Run?
    ensures HoldAt(z, c)
  {
  }

  lemma SwitchCore(s: State, z: State, c: nat)
    requires Core(s) && SwitchNext(s, Switch(c), z) && LockOk(z)
    ensures Core(z)
  {
    hide LockOk, Holds;
    assert CpuAt(s, c);
    forall d | 0 <= d < NCPU
      ensures CpuAt(z, d)
    {
      assert CpuAt(s, d);
    }
    forall u | 0 <= u < NT
      ensures ThreadAt(z, u)
    {
      assert ThreadAt(s, u);
    }
  }

  lemma SwitchAsleep(s: State, z: State, c: nat, u: nat, w: Waiter)
    requires Core(s) && SwitchNext(s, Switch(c), z) && AsleepOn(z, u, w)
    ensures AsleepOn(s, u, w)
  {
    hide LockOk, Holds;
    assert CpuAt(s, c) && ThreadAt(s, u);
  }

  // ---------------------------------------------------------------- fork

  lemma ForkAllocKeeps(s: State, z: State, c: nat, np: nat)
    requires Inv(s) && ForkNext(s, ForkAlloc(c, np), z)
    ensures Inv(z)
  {
    hide SleepOk, WaitOk, LockOk, Holds, HoldAt;
    Slot(np, 0);
    assert CpuAt(s, c);
    forall d | 0 <= d < NCPU
      ensures CpuAt(z, d)
    {
      assert CpuAt(s, d);
    }
    forall u | 0 <= u < NT
      ensures ThreadAt(z, u)
    {
      assert ThreadAt(s, u);
    }
    SameLocks(s, z);
    forall u: nat, w | AsleepOn(z, u, w)
      ensures AsleepOn(s, u, w)
    {
      assert ThreadAt(s, u);
    }
    assert HoldAt(z, c) by {
      BodyHold(z, c);
    }
    QuietKeeps(s, z, c);
  }

  lemma SameLocks(s: State, z: State)
    requires Shape(s) && Shape(z) && LockOk(s) && z.loc == s.loc && z.lock == s.lock
    ensures LockOk(z)
  {
    hide Holds;
  }

  lemma BodyHold(z: State, c: nat)
    requires Shape(z) && c < NCPU && z.loc[c].Run? && z.loc[c].pc.Body?
    ensures HoldAt(z, c)
  {
  }

  lemma ForkParentKeeps(s: State, z: State, c: nat, np: nat)
    requires Inv(s) && ForkNext(s, ForkParent(c, np), z)
    ensures Inv(z)
  {
    hide SleepOk, WaitOk, LockOk, Holds, HoldAt;
    assert CpuAt(s, c);
    forall d | 0 <= d < NCPU
      ensures CpuAt(z, d)
    {
      assert CpuAt(s, d);
    }
    forall u | 0 <= u < NT
      ensures ThreadAt(z, u)
    {
      assert ThreadAt(s, u);
    }
    SameLocks(s, z);
    assert forall u: nat, w :: AsleepOn(z, u, w) == AsleepOn(s, u, w);
    assert HoldAt(z, c) by {
      BodyHold(z, c);
    }
    QuietKeeps(s, z, c);
  }

  lemma ForkPublishKeeps(s: State, z: State, c: nat, np: nat)
    requires Inv(s) && ForkNext(s, ForkPublish(c, np), z)
    ensures Inv(z)
  {
    hide SleepOk, WaitOk, LockOk, Holds, HoldAt;
    Slot(np, 0);
    var t := np * NTHREAD;
    assert CpuAt(s, c) && ThreadAt(s, t);
    UsedIsForked(s, t);
    forall d | 0 <= d < NCPU
      ensures CpuAt(z, d)
    {
      assert CpuAt(s, d);
    }
    forall u | 0 <= u < NT
      ensures ThreadAt(z, u)
    {
      assert ThreadAt(s, u);
    }
    SameLocks(s, z);
    forall u: nat, w | AsleepOn(z, u, w)
      ensures AsleepOn(s, u, w)
    {
      assert ThreadAt(s, u);
    }
    assert HoldAt(z, c) by {
      BodyHold(z, c);
    }
    QuietKeeps(s, z, c);
  }

  /** kthread_create. */
  lemma ThreadNewKeeps(s: State, z: State, c: nat, u: nat)
    requires Inv(s) && ThreadNext(s, ThreadNew(c, u), z)
    ensures Inv(z)
  {
    hide SleepOk, WaitOk, LockOk, Holds, HoldAt;
    assert CpuAt(s, c) && ThreadAt(s, u);
    UnusedIsOff(s, u);
    forall d | 0 <= d < NCPU
      ensures CpuAt(z, d)
    {
      assert CpuAt(s, d);
    }
    forall v | 0 <= v < NT
      ensures ThreadAt(z, v)
    {
      assert ThreadAt(s, v);
    }
    SameLocks(s, z);
    forall v: nat, w | AsleepOn(z, v, w)
      ensures AsleepOn(s, v, w)
    {
      assert ThreadAt(s, v);
    }
    assert HoldAt(z, c) by {
      BodyHold(z, c);
    }
    QuietKeeps(s, z, c);
  }

  lemma UnusedIsOff(s: State, t: nat)
    requires Core(s) && t < NT && s.ts[t] == Unused
    ensures s.ctx[t] == NoCtx
  {
    hide LockOk;
    assert ThreadAt(s, t);
    forall d | 0 <= d < NCPU && s.loc[d].Run?
      ensures s.loc[d].t < NT && s.ts[s.loc[d].t] != Unused
    {
      assert CpuAt(s, d);
    }
  }

  lemma UsedIsForked(s: State, t: nat)
    requires Core(s) && t < NT && s.ts[t] == Used
    ensures s.ctx[t] == Saved(Forked)
  {
    hide LockOk;
    assert ThreadAt(s, t);
    forall d | 0 <= d < NCPU && s.loc[d].Run?
      ensures s.loc[d].t < NT && s.ts[s.loc[d].t] != Used
    {
      assert CpuAt(s, d);
    }
  }

  // ---------------------------------------------------------------- reaping

  /** An exited process whose lock is free runs on no CPU. */
  lemma ZombieIsOff(s: State, q: nat, d: nat)
    requires Core(s) && q < NPROC && d < NCPU && s.ps[q] == PZombie && PLock(q) !in s.lock
    ensures s.loc[d].Run? ==> s.loc[d].t < NT && Proc(s.loc[d].t) != q
  {
    assert CpuAt(s, d);
    FreeLock(s, d, PLock(q));
  }

  lemma ScanReapKeeps(s: State, z: State, c: nat)
    requires Inv(s) && WaitNext(s, ScanReap(c), z)
    ensures Inv(z)
  {
    hide SleepOk, WaitOk, LockOk, HoldAt, CpuAt, ThreadAt, AsleepOn;
    var q := s.loc[c].pc.q;
    HolderIs(s, c, WaitLock);
    LockStep(s, z, c, {}, {WaitLock});
    ReapCore(s, z, c);
    forall u: nat, w | AsleepOn(z, u, w)
      ensures AsleepOn(s, u, w)
    {
      ReapAsleep(s, z, c, u, w);
    }
    assert HoldAt(z, c) by {
      BodyHold(z, c);
    }
    QuietKeeps(s, z, c);
  }

  lemma ReapCore(s: State, z: State, c: nat)
    requires Core(s) && WaitNext(s, ScanReap(c), z) && LockOk(z)
    ensures Core(z)
  {
    hide LockOk, Holds;
    var q := s.loc[c].pc.q;
    assert CpuAt(s, c);
    forall d | 0 <= d < NCPU
      ensures CpuAt(z, d)
    {
      assert CpuAt(s, d);
      ZombieIsOff(s, q, d);
    }
    forall u | 0 <= u < NT
      ensures ThreadAt(z, u)
    {
      assert ThreadAt(s, u);
    }
  }

  lemma ReapAsleep(s: State, z: State, c: nat, u: nat, w: Waiter)
    requires Core(s) && WaitNext(s, ScanReap(c), z) && AsleepOn(z, u, w)
    ensures AsleepOn(s, u, w)
  {
    hide LockOk, Holds;
    assert CpuAt(s, c) && ThreadAt(s, u);
  }

  // ---------------------------------------------------------------- wakeup

  /** The sleepers after process q was looked at: those before, less the woken ones. */
  lemma WakeAsleep(s: State, z: State, c: nat, u: nat, w: Waiter)
    requires Core(s) && LockNext(s, WakeStep(c), z) && AsleepOn(z, u, w)
    ensures AsleepOn(s, u, w) && u < NT && Proc(u) < NPROC
    ensures Proc(u) == s.loc[c].pc.q ==> ChanOf(w, u) != Woken(s.loc[c].pc.k)
  {
    hide LockOk, Holds;
    assert CpuAt(s, c) && ThreadAt(s, u);
    if Proc(u) == s.loc[c].pc.q {
      AsleepIsSaved(s, u, w);
    }
  }

  /** With its process lock free, a sleeper is off its CPU. */
  lemma AsleepIsSaved(s: State, u: nat, w: Waiter)
    requires Core(s) && AsleepOn(s, u, w) && PLock(Proc(u)) !in s.lock
    ensures s.ctx[u] == Saved(Slept(w)) && s.ts[u] == Sleeping && s.chan[u] == ChanOf(w, u)
  {
    hide LockOk;
    assert ThreadAt(s, u);
    if s.ctx[u].OnCpu? {
      FreeLock(s, s.ctx[u].c, PLock(Proc(u)));
    }
  }

  lemma WakeCore(s: State, z: State, c: nat)
    requires Core(s) && LockNext(s, WakeStep(c), z)
    ensures Core(z)
  {
    hide LockOk, Holds;
    assert CpuAt(s, c);
    forall d | 0 <= d < NCPU
      ensures CpuAt(z, d)
    {
      assert CpuAt(s, d);
      if s.loc[d].Run? {
        SleepingHolds(s, d);
      }
      FreeLock(s, d, PLock(s.loc[c].pc.q));
    }
    forall u | 0 <= u < NT
      ensures ThreadAt(z, u)
    {
      assert ThreadAt(s, u);
    }
    WakeHolds(s.loc[c].t, s.loc[c].pc.q, s.loc[c].pc.k);
    LockStep(s, z, c, {}, {});
  }

  lemma WakeHolds(t: nat, q: nat, k: After)
    ensures forall m :: Holds(Run(t, Waking(q, k)), m) == Holds(Run(t, Waking(q + 1, k)), m)
  {
  }

  /** A sleeping thread still on a CPU holds its process lock. */
  lemma SleepingHolds(s: State, d: nat)
    requires Core(s) && d < NCPU && s.loc[d].Run?
    ensures s.loc[d].t < NT && (s.ts[s.loc[d].t] == Sleeping ==> Holds(s.loc[d], PLock(Proc(s.loc[d].t))))
  {
    hide LockOk, ThreadAt;
    assert CpuAt(s, d);
  }

  lemma WakeStepKeeps(s: State, z: State, c: nat)
    requires Inv(s) && LockNext(s, WakeStep(c), z)
    ensures Inv(z)
  {
    hide LockOk, CpuAt, ThreadAt, AsleepOn, Holds, LockWaking, InitWaking, HoldAt, WakeProc;
    WakeCore(s, z, c);
    forall u: nat, l: nat | AsleepOn(z, u, OnLock(l))
      ensures l in z.taken || LockWaking(z, l, Proc(u))
    {
      WakeAsleep(s, z, c, u, OnLock(l));
      WakeGoesOn(s, z, c, l, Proc(u));
    }
    forall u: nat, q | 0 <= q < NPROC && AsleepOn(z, u, OnChild) && z.parent[q] == Some(Proc(u)) && z.ps[q] == PZombie
      ensures InitWaking(z, Proc(u))
    {
      WakeAsleep(s, z, c, u, OnChild);
      WakeGoesOn(s, z, c, 0, Proc(u));
    }
    forall d | 0 <= d < NCPU
      ensures HoldAt(z, d)
    {
      WakeHold(s, z, c, d);
    }
  }

  lemma WakeGoesOn(s: State, z: State, c: nat, l: nat, p: nat)
    requires Core(s) && LockNext(s, WakeStep(c), z)
    ensures LockWaking(s, l, p) && !(p == s.loc[c].pc.q && Woken(s.loc[c].pc.k) == LockChan(l)) ==> LockWaking(z, l, p)
    ensures InitWaking(s, p) && !(p == s.loc[c].pc.q && Woken(s.loc[c].pc.k) == ProcChan(p)) ==> InitWaking(z, p)
  {
    hide CpuAt, ThreadAt, LockOk, Holds, WakeProc;
  }

  lemma WakeHold(s: State, z: State, c: nat, d: nat)
    requires Inv(s) && LockNext(s, WakeStep(c), z) && d < NCPU
    ensures HoldAt(z, d)
  {
    hide CpuAt, ThreadAt, LockOk, Holds, SleepOk, WaitOk, CountOk, AsleepOn;
    assert HoldAt(s, d);
    forall u: nat | AsleepOn(z, u, OnChild)
      ensures AsleepOn(s, u, OnChild) && (Proc(u) == s.loc[c].pc.q ==> ProcChan(Proc(u)) != Woken(s.loc[c].pc.k))
    {
      WakeAsleep(s, z, c, u, OnChild);
    }
  }

  // ---------------------------------------------------------------- reparent and exit

  lemma AdoptKeeps(s: State, z: State, c: nat)
    requires Inv(s) && ExitNext(s, Adopt(c), z)
    ensures Inv(z)
  {
    hide LockOk, CpuAt, ThreadAt, AsleepOn, LockWaking, InitWaking, HoldAt, Holds;
    HolderIs(s, c, WaitLock) by {
      ExitHolds(s.loc[c]);
    }
    AdoptCore(s, z, c);
    forall u: nat, l: nat | AsleepOn(z, u, OnLock(l))
      ensures l in z.taken || LockWaking(z, l, Proc(u))
    {
      AdoptSame(s, z, c, u, OnLock(l), l);
    }
    forall u: nat, q | 0 <= q < NPROC && AsleepOn(z, u, OnChild) && z.parent[q] == Some(Proc(u)) && z.ps[q] == PZombie
      ensures InitWaking(z, Proc(u))
    {
      AdoptSame(s, z, c, u, OnChild, 0);
      NoInitWaking(s, c, Proc(u));
      if q == s.loc[c].pc.q {
        AdoptWakes(s, z, c);
      }
    }
    forall d | 0 <= d < NCPU
      ensures HoldAt(z, d)
    {
      AdoptHold(s, z, c, d);
    }
  }

  lemma ExitHolds(at: Loc)
    ensures at.Run? && (at.pc.Reparent? || at.pc.ExitLock?) ==> forall k :: Holds(at, k) <==> k == WaitLock
  {
  }

  lemma AdoptCore(s: State, z: State, c: nat)
    requires Core(s) && ExitNext(s, Adopt(c), z)
    ensures Core(z)
  {
    hide LockOk;
    assert CpuAt(s, c);
    LockStep(s, z, c, {}, {});
    forall d | 0 <= d < NCPU
      ensures CpuAt(z, d)
    {
      assert CpuAt(s, d);
    }
    forall u | 0 <= u < NT
      ensures ThreadAt(z, u)
    {
      assert ThreadAt(s, u);
    }
  }

  lemma AdoptSame(s: State, z: State, c: nat, u: nat, w: Waiter, l: nat)
    requires Core(s) && ExitNext(s, Adopt(c), z) && AsleepOn(z, u, w)
    ensures AsleepOn(s, u, w) && (LockWaking(s, l, Proc(u)) ==> LockWaking(z, l, Proc(u)))
  {
    hide Holds, CpuAt;
    assert ThreadAt(s, u);
  }

  /** While c is in reparent or exit, no wakeup of init is under way. */
  lemma NoInitWaking(s: State, c: nat, p: nat)
    requires Core(s) && c < NCPU && s.loc[c].Run? && (s.loc[c].pc.Reparent? || s.loc[c].pc.ExitLock?)
    requires WaitLock in s.lock && s.lock[WaitLock] == c
    ensures !InitWaking(s, p)
  {
    hide CpuAt, ThreadAt, LockOk;
  }

  lemma AdoptWakes(s: State, z: State, c: nat)
    requires Core(s) && ExitNext(s, Adopt(c), z) && WaitLock in s.lock && s.lock[WaitLock] == c
    ensures Shape(z) && InitWaking(z, INIT)
  {
    hide CpuAt, ThreadAt, LockOk;
  }

  lemma AdoptHold(s: State, z: State, c: nat, d: nat)
    requires Inv(s) && ExitNext(s, Adopt(c), z) && d < NCPU && WaitLock in s.lock && s.lock[WaitLock] == c
    ensures HoldAt(z, d)
  {
    hide CpuAt, ThreadAt, SleepOk, WaitOk, CountOk, AsleepOn;
    assert HoldAt(s, d);
    if d != c {
      assert !Holds(s.loc[d], WaitLock);
    }
  }

  lemma ExitSetKeeps(s: State, z: State, c: nat)
    requires Inv(s) && ExitNext(s, ExitSet(c), z)
    ensures Inv(z)
  {
    hide LockOk, CpuAt, ThreadAt, AsleepOn, LockWaking, InitWaking, HoldAt, Holds, OthersGone;
    HolderIs(s, c, WaitLock) by {
      ExitHolds(s.loc[c]);
    }
    NobodyWaits(s, c);
    ExitCore(s, z, c);
    forall u: nat, l: nat | AsleepOn(z, u, OnLock(l))
      ensures l in z.taken || LockWaking(z, l, Proc(u))
    {
      ExitSame(s, z, c, u, OnLock(l), l);
    }
    forall u: nat, q | 0 <= q < NPROC && AsleepOn(z, u, OnChild) && z.parent[q] == Some(Proc(u)) && z.ps[q] == PZombie
      ensures false
    {
      ExitSame(s, z, c, u, OnChild, 0);
      NoInitWaking(s, c, Proc(u));
    }
    forall d | 0 <= d < NCPU
      ensures HoldAt(z, d)
    {
      ExitHold(s, z, c, d);
    }
  }

  /** The exiting process has woken its parent: nobody waits for it any more. */
  lemma NobodyWaits(s: State, c: nat)
    requires Inv(s) && c < NCPU && At(s, c, ExitLock)
    ensures OthersGone(s, Proc(s.loc[c].t), s.loc[c].t) && s.ps[Proc(s.loc[c].t)] == PUsed
    ensures forall u: nat | AsleepOn(s, u, OnChild) :: s.parent[Proc(s.loc[c].t)] != Some(Proc(u))
  {
    hide ThreadAt, SleepOk, WaitOk, CountOk, LockOk;
    assert HoldAt(s, c) && CpuAt(s, c);
  }

  lemma ExitCore(s: State, z: State, c: nat)
    requires Core(s) && ExitNext(s, ExitSet(c), z) && OthersGone(s, Proc(s.loc[c].t), s.loc[c].t)
    ensures Core(z)
  {
    hide LockOk;
    assert CpuAt(s, c);
    LockStep(s, z, c, {PLock(Proc(s.loc[c].t))}, {});
    forall d | 0 <= d < NCPU
      ensures CpuAt(z, d)
    {
      assert CpuAt(s, d);
      FreeLock(s, d, PLock(Proc(s.loc[c].t)));
    }
    forall u | 0 <= u < NT
      ensures ThreadAt(z, u)
    {
      assert ThreadAt(s, u);
    }
  }

  lemma ExitSame(s: State, z: State, c: nat, u: nat, w: Waiter, l: nat)
    requires Core(s) && ExitNext(s, ExitSet(c), z) && AsleepOn(z, u, w)
    ensures AsleepOn(s, u, w) && (LockWaking(s, l, Proc(u)) ==> LockWaking(z, l, Proc(u)))
  {
    hide Holds;
    assert ThreadAt(s, u) && CpuAt(s, c);
  }

  lemma ExitHold(s: State, z: State, c: nat, d: nat)
    requires Inv(s) && ExitNext(s, ExitSet(c), z) && d < NCPU && WaitLock in s.lock && s.lock[WaitLock] == c
    ensures HoldAt(z, d)
  {
    hide CpuAt, ThreadAt, SleepOk, WaitOk, CountOk, AsleepOn;
    assert HoldAt(s, d);
    if d != c {
      assert !Holds(s.loc[d], WaitLock);
    }
  }
}
