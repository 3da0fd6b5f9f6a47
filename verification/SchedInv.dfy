/** What every step of the scheduler machine keeps. */
module SchedInv {
  import opened Options
  import opened Sched

  // ---------------------------------------------------------------- the invariant

  predicate PcOk(pc: Pc) {
    match pc
    case Yielding(ret) => Open(ret)
    case Switching(why) => WhyOk(why) && !why.Forked?
    case Landed(why) => WhyOk(why) && !why.Exited? && !why.Ended?
    case Waking(q, k) => q <= NPROC && (k.Adopted? ==> k.child < NPROC)
    case WaitScan(q, _) => q <= NPROC
    case Reparent(q) => q <= NPROC
    case _ => true
  }

  predicate WhyOk(why: Why) {
    why.Yielded? ==> Open(why.ret)
  }

  predicate Leaving(pc: Pc) {
    pc.ExitRel? || pc == Switching(Exited)
  }

  predicate CpuAt(s: State, c: nat)
    requires Shape(s) && c < NCPU
  {
    match s.loc[c]
    case Idle(p) => p < NPROC
    case Scan(p, i) => p < NPROC && i <= NTHREAD
    case Run(t, pc) =>
      && t < NT && s.ctx[t] == OnCpu(c) && s.ts[t] == StateAt(pc) && PcOk(pc)
      && s.ps[Proc(t)] == (if Leaving(pc) then PZombie else PUsed)
      && (pc.Switching? && pc.why.Slept? ==> s.chan[t] == ChanOf(pc.why.w, t))
  }

  predicate ThreadAt(s: State, t: nat)
    requires Shape(s) && t < NT
  {
    match s.ctx[t]
    case NoCtx => s.ts[t] == Unused
    case OnCpu(c) => c < NCPU && s.loc[c].Run? && s.loc[c].t == t
    case Saved(why) =>
      && WhyOk(why) && (if why.Ended? then s.ps[Proc(t)] != PUnused
                        else s.ps[Proc(t)] == if why.Exited? then PZombie else PUsed)
      && (match why
          case Yielded(_) => s.ts[t] == Runnable
          case Slept(w) => s.ts[t] == Runnable || (s.ts[t] == Sleeping && s.chan[t] == ChanOf(w, t))
          case Exited => s.ts[t] == Zombie
          case Ended => s.ts[t] == Zombie
          case Forked => s.ts[t] == Used || s.ts[t] == Runnable)
  }

  /** A lock is held by the CPU whose place in the code holds it, and by no other. */
  ghost predicate LockOk(s: State)
    requires Shape(s)
  {
    && (forall k | k in s.lock :: s.lock[k] < NCPU && Holds(s.loc[s.lock[k]], k))
    && (forall c, k | 0 <= c < NCPU && Holds(s.loc[c], k) :: k in s.lock && s.lock[k] == c)
  }

  /** Thread t sleeps for w, or can no longer be kept from it. */
  predicate AsleepOn(s: State, t: nat, w: Waiter)
    requires Shape(s)
  {
    t < NT &&
    match s.ctx[t]
    case Saved(why) => why == Slept(w) && s.ts[t] == Sleeping
    case OnCpu(c) => c < NCPU && s.loc[c].Run? && (s.loc[c].pc == SleepSet(w) || s.loc[c].pc == Switching(Slept(w)))
    case NoCtx => false
  }

  /** A wakeup on sleep-lock l is under way and has yet to look at process p. */
  predicate LockWaking(s: State, l: nat, p: nat)
    requires Shape(s)
  {
    SLock(l) in s.lock && s.lock[SLock(l)] < NCPU &&
    var at := s.loc[s.lock[SLock(l)]];
    at.Run? && at.pc.Waking? && at.pc.k == Released(l) && at.pc.q <= p
  }

  /** A wakeup of init by reparent is under way and has yet to look at process p. */
  predicate InitWaking(s: State, p: nat)
    requires Shape(s)
  {
    WaitLock in s.lock && s.lock[WaitLock] < NCPU &&
    var at := s.loc[s.lock[WaitLock]];
    p == INIT && at.Run? && at.pc.Waking? && at.pc.k.Adopted? && at.pc.q <= p
  }

  /** Whoever sleeps for a sleep-lock finds it taken, or is about to be woken. */
  ghost predicate SleepOk(s: State)
    requires Shape(s)
  {
    forall t, l | AsleepOn(s, t, OnLock(l)) :: l in s.taken || LockWaking(s, l, Proc(t))
  }

  /** Whoever sleeps in wait has no exited child, or is about to be woken. */
  ghost predicate WaitOk(s: State)
    requires Shape(s)
  {
    forall t, q | 0 <= q < NPROC && AsleepOn(s, t, OnChild) && s.parent[q] == Some(Proc(t)) && s.ps[q] == PZombie ::
      InitWaking(s, Proc(t))
  }

  predicate NoZombieChild(s: State, p: nat, n: nat)
    requires Shape(s)
  {
    forall q | 0 <= q < NPROC && q < n && s.parent[q] == Some(p) :: s.ps[q] != PZombie
  }

  /** Threads asleep in wait in process `par` belong to processes from n on. */
  ghost predicate SleepersFrom(s: State, par: Option<nat>, n: nat)
    requires Shape(s)
  {
    forall u | AsleepOn(s, u, OnChild) && par == Some(Proc(u)) :: Proc(u) >= n
  }

  /** In exit, after the other threads of the process have ended. */
  predicate InExit(pc: Pc) {
    pc.Reparent? || pc.ExitLock? || (pc.Waking? && (pc.k.Adopted? || pc.k.ToParent?))
  }

  /** What a CPU knows from having held its locks since it looked. */
  ghost predicate HoldAt(s: State, c: nat)
    requires Shape(s) && c < NCPU
  {
    s.loc[c].Run? && s.loc[c].t < NT ==>
      var t, pc := s.loc[c].t, s.loc[c].pc;
      var p := Proc(t);
      && (pc.SleepAcq? || pc.SleepRel? ==> if pc.w.OnLock? then pc.w.l in s.taken else NoZombieChild(s, p, NPROC))
      && (pc.WaitScan? ==> NoZombieChild(s, p, pc.q))
      && (InExit(pc) ==> OthersGone(s, p, t))
      && (pc.Waking? && pc.k.ToParent? ==> pc.k.par == s.parent[p] && SleepersFrom(s, pc.k.par, pc.q))
      && (pc.ExitLock? ==> SleepersFrom(s, s.parent[p], NPROC))
  }

  ghost predicate CountOk(s: State)
    requires Shape(s)
  {
    forall q | 0 <= q < NPROC :: s.exits[q] == s.reaps[q] + if s.ps[q] == PZombie then 1 else 0
  }

  /** CPUs and threads agree. */
  ghost predicate Core(s: State) {
    && Shape(s) && LockOk(s)
    && (forall c | 0 <= c < NCPU :: CpuAt(s, c))
    && (forall t | 0 <= t < NT :: ThreadAt(s, t))
  }

  ghost predicate Inv(s: State) {
    && Core(s) && SleepOk(s) && WaitOk(s) && CountOk(s)
    && (forall c | 0 <= c < NCPU :: HoldAt(s, c))
  }

  /** No CPU runs, and the first process is ready. */
  ghost predicate Init(s: State) {
    && Shape(s) && s.lock == map[] && s.taken == map[]
    && (forall c | 0 <= c < NCPU :: s.loc[c] == Idle(0))
    && (forall t | 0 <= t < NT :: if t == INIT then s.ts[t] == Runnable && s.ctx[t] == Saved(Forked)
                                  else s.ts[t] == Unused && s.ctx[t] == NoCtx)
    && (forall q | 0 <= q < NPROC :: s.ps[q] == (if q == INIT then PUsed else PUnused)
                                     && s.parent[q] == None && s.exits[q] == s.reaps[q] == 0)
  }

  lemma InitHolds(s: State)
    requires Init(s)
    ensures Inv(s)
  {
  }

  // ---------------------------------------------------------------- locks

  /** A step of CPU c that takes the locks in `add` and gives up those in `del`. */
  ghost predicate Relocked(s: State, z: State, c: nat, add: set<Lock>, del: set<Lock>)
    requires Shape(s) && Shape(z) && c < NCPU
  {
    && z.loc == s.loc[c := z.loc[c]]
    && (forall k | k in add :: k !in s.lock)
    && (forall k :: k in z.lock <==> k in add || (k in s.lock && k !in del))
    && (forall k | k in z.lock :: z.lock[k] == if k in add then c else s.lock[k])
    && (forall k | k in del :: Holds(s.loc[c], k))
    && (forall k :: Holds(z.loc[c], k) <==> k in add || (Holds(s.loc[c], k) && k !in del))
  }

  lemma LockStep(s: State, z: State, c: nat, add: set<Lock>, del: set<Lock>)
    requires Shape(s) && Shape(z) && c < NCPU && LockOk(s) && Relocked(s, z, c, add, del)
    ensures LockOk(z)
  {
    hide Holds;
    forall d, k | 0 <= d < NCPU && Holds(z.loc[d], k)
      ensures k in z.lock && z.lock[k] == d
    {
      if d != c {
        assert Holds(s.loc[d], k);
        assert k in s.lock && s.lock[k] == d;
        assert !Holds(s.loc[c], k);
        assert k !in del && k !in add;
      } else {
        assert k in add || (Holds(s.loc[c], k) && k !in del);
      }
    }
    forall k | k in z.lock
      ensures z.lock[k] < NCPU && Holds(z.loc[z.lock[k]], k)
    {
      if k in add {
        assert Holds(z.loc[c], k);
      } else {
        assert Holds(s.loc[s.lock[k]], k);
        if s.lock[k] == c {
          assert Holds(z.loc[c], k);
        }
      }
    }
  }

  lemma LandedHolds(t: nat, why: Why)
    ensures forall k :: Holds(Run(t, Landed(why)), k) <==> k == PLock(Proc(t))
  {
  }

  // ---------------------------------------------------------------- steps that move one thread along

  /** Only the thread on CPU c moved, with its own state and channel, and the locks. */
  ghost predicate Local(s: State, z: State, c: nat)
    requires Shape(s) && c < NCPU
  {
    && Runs(s, c) && Shape(z) && z.loc[c].Run? && z.loc[c].t == s.loc[c].t
    && var t := s.loc[c].t;
    && z == s.(loc := s.loc[c := z.loc[c]], lock := z.lock, taken := z.taken,
               ts := s.ts[t := z.ts[t]], chan := s.chan[t := z.chan[t]])
    && (s.ts[t] == Running || z.ts[t] == s.ts[t])
  }

  lemma LocalCore(s: State, z: State, c: nat)
    requires Core(s) && c < NCPU && Local(s, z, c) && LockOk(z) && CpuAt(z, c)
    ensures Core(z)
  {
    hide Holds, PcOk, LockOk;
    forall d | 0 <= d < NCPU
      ensures CpuAt(z, d)
    {
      assert CpuAt(s, d);
    }
    forall t | 0 <= t < NT
      ensures ThreadAt(z, t)
    {
      assert ThreadAt(s, t);
    }
  }

  lemma LocalAsleep(s: State, z: State, c: nat, u: nat, w: Waiter)
    requires Core(s) && c < NCPU && Local(s, z, c)
    ensures u != s.loc[c].t ==> AsleepOn(z, u, w) == AsleepOn(s, u, w)
    ensures u == s.loc[c].t ==>
      (AsleepOn(z, u, w) <==> z.loc[c].pc == SleepSet(w) || z.loc[c].pc == Switching(Slept(w)))
  {
    hide Holds, PcOk, LockOk;
    assert CpuAt(s, c);
    if u < NT {
      assert ThreadAt(s, u);
    }
  }

  /** The thread on CPU c goes to sleep for w in this step. */
  predicate Retires(z: State, c: nat, w: Waiter)
    requires Shape(z) && c < NCPU
  {
    z.loc[c].Run? && z.loc[c].pc == SleepSet(w)
  }

  /** What a local step must show: the facts of its new place, and that it does not take
      away the reason why a sleeper may sleep. */
  ghost predicate Sound(s: State, z: State, c: nat)
    requires Shape(s) && Shape(z) && c < NCPU
  {
    && HoldAt(z, c)
    && s.loc[c].Run? && z.loc[c].Run?
    && (z.loc[c].pc.Switching? && z.loc[c].pc.why.Slept? ==> s.loc[c].pc == SleepSet(z.loc[c].pc.why.w))
    && (s.loc[c].pc.Waking? ==> s.loc[c].pc.q == NPROC)
    && (forall l | l in s.taken && l !in z.taken :: SLock(l) !in s.lock && LockWaking(z, l, 0))
    && (forall l | Retires(z, c, OnLock(l)) :: l in z.taken)
    && (Retires(z, c, OnChild) ==>
          Holds(s.loc[c], WaitLock) && z.loc[c].t < NT && NoZombieChild(z, Proc(z.loc[c].t), NPROC))
  }

  lemma LocalKeeps(s: State, z: State, c: nat, add: set<Lock>, del: set<Lock>)
    requires Inv(s) && c < NCPU && Local(s, z, c) && Relocked(s, z, c, add, del) && CpuAt(z, c) && Sound(s, z, c)
    ensures Inv(z)
  {
    hide LockOk, Relocked, CpuAt, HoldAt, SleepOk, WaitOk, LockWaking, InitWaking, Holds;
    LockStep(s, z, c, add, del);
    LocalCore(s, z, c);
    LocalSleepOk(s, z, c, add, del);
    LocalWaitOk(s, z, c, add, del);
    forall d | 0 <= d < NCPU
      ensures HoldAt(z, d)
    {
      if d != c {
        LocalHold(s, z, c, d);
      }
    }
  }

  /** Wakeups under way on other CPUs stay under way. */
  lemma WakingStays(s: State, z: State, c: nat, add: set<Lock>, del: set<Lock>, l: nat, p: nat)
    requires Inv(s) && c < NCPU && Local(s, z, c) && Relocked(s, z, c, add, del) && p < NPROC
    requires s.loc[c].pc.Waking? ==> s.loc[c].pc.q == NPROC
    ensures LockWaking(s, l, p) ==> LockWaking(z, l, p)
    ensures InitWaking(s, p) ==> InitWaking(z, p)
  {
    hide CpuAt, HoldAt, SleepOk, WaitOk, ThreadAt, CountOk;
    if LockWaking(s, l, p) {
      assert Holds(s.loc[s.lock[SLock(l)]], SLock(l));
      assert s.lock[SLock(l)] != c;
    }
    if InitWaking(s, p) {
      assert Holds(s.loc[s.lock[WaitLock]], WaitLock);
      assert s.lock[WaitLock] != c;
    }
  }

  lemma LocalSleepOk(s: State, z: State, c: nat, add: set<Lock>, del: set<Lock>)
    requires Inv(s) && c < NCPU && Local(s, z, c) && Relocked(s, z, c, add, del) && Sound(s, z, c)
    ensures SleepOk(z)
  {
    hide CpuAt, HoldAt, WaitOk, ThreadAt, CountOk, Relocked, LockOk, LockWaking, Holds, AsleepOn;
    forall u: nat, l: nat | AsleepOn(z, u, OnLock(l))
      ensures l in z.taken || LockWaking(z, l, Proc(u))
    {
      AsleepId(z, u, OnLock(l));
      LocalAsleep(s, z, c, u, OnLock(l));
      WakingStays(s, z, c, add, del, l, Proc(u));
      OwnAsleep(s, c, OnLock(l));
      if !Retires(z, c, OnLock(l)) {
        assert l in s.taken || LockWaking(s, l, Proc(u));
        if l in s.taken && l !in z.taken {
          WakingMore(z, l, Proc(u));
        }
      }
    }
  }

  lemma OwnAsleep(s: State, c: nat, w: Waiter)
    requires Core(s) && c < NCPU && Runs(s, c)
    ensures AsleepOn(s, s.loc[c].t, w) <==> s.loc[c].pc == SleepSet(w) || s.loc[c].pc == Switching(Slept(w))
  {
    hide ThreadAt, LockOk;
    assert CpuAt(s, c);
  }

  lemma AsleepId(z: State, u: nat, w: Waiter)
    requires Shape(z) && AsleepOn(z, u, w)
    ensures u < NT && Proc(u) < NPROC
  {
  }

  lemma WakingMore(z: State, l: nat, p: nat)
    requires Shape(z) && LockWaking(z, l, 0)
    ensures LockWaking(z, l, p)
  {
  }

  lemma LocalWaitOk(s: State, z: State, c: nat, add: set<Lock>, del: set<Lock>)
    requires Inv(s) && c < NCPU && Local(s, z, c) && Relocked(s, z, c, add, del) && Sound(s, z, c)
    ensures WaitOk(z)
  {
    hide CpuAt, HoldAt, SleepOk, ThreadAt, CountOk, Relocked, LockOk, LockWaking, InitWaking, Holds, AsleepOn;
    forall u: nat, q | 0 <= q < NPROC && AsleepOn(z, u, OnChild) && z.parent[q] == Some(Proc(u)) && z.ps[q] == PZombie
      ensures InitWaking(z, Proc(u))
    {
      AsleepId(z, u, OnChild);
      LocalAsleep(s, z, c, u, OnChild);
      WakingStays(s, z, c, add, del, 0, Proc(u));
      OwnAsleep(s, c, OnChild);
    }
  }

  lemma LocalHold(s: State, z: State, c: nat, d: nat)
    requires Inv(s) && c < NCPU && d < NCPU && d != c && Local(s, z, c) && Sound(s, z, c)
    ensures HoldAt(z, d)
  {
    hide CpuAt, SleepOk, WaitOk, ThreadAt, CountOk, LockWaking, InitWaking, AsleepOn;
    assert HoldAt(s, d);
    assert z.loc[d] == s.loc[d];
    if s.loc[d].Run? && s.loc[d].t < NT {
      var pc := s.loc[d].pc;
      if pc.SleepAcq? || pc.SleepRel? {
        assert Holds(s.loc[d], Guard(pc.w));
      }
      if pc.ExitLock? || (pc.Waking? && pc.k.ToParent?) {
        assert Holds(s.loc[d], WaitLock) && s.lock[WaitLock] == d;
        assert !Holds(s.loc[c], WaitLock);
        assert !Retires(z, c, OnChild);
        forall u: nat | AsleepOn(z, u, OnChild)
          ensures AsleepOn(s, u, OnChild)
        {
          LocalAsleep(s, z, c, u, OnChild);
          OwnAsleep(s, c, OnChild);
        }
      }
    }
  }
}
