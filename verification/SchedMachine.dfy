/** Runs of the scheduler machine and what holds in every state they reach. */
module SchedMachine {
  import opened Options
  import opened Sched
  import opened SchedInv
  import opened SchedSteps
  import opened SchedMoves

  lemma NextKeeps(s: State, e: Event, z: State)
    requires Inv(s) && Next(s, e, z)
    ensures Inv(z)
  {
    hide SleepOk, WaitOk, CountOk, HoldAt, LockOk, CpuAt, ThreadAt;
    hide SchedNext, SwitchNext, LockNext, WaitNext, ExitNext, ForkNext, ThreadNext;
    if SchedNext(s, e, z) {
      SchedKeeps(s, e, z);
    } else if SwitchNext(s, e, z) {
      SwitchStepKeeps(s, e, z);
    } else if LockNext(s, e, z) {
      LockStepKeeps(s, e, z);
    } else if WaitNext(s, e, z) {
      WaitStepKeeps(s, e, z);
    } else if ExitNext(s, e, z) {
      ExitStepKeeps(s, e, z);
    } else if ForkNext(s, e, z) {
      ForkKeeps(s, e, z);
    } else {
      ThreadKeeps(s, e, z);
    }
  }

  lemma ThreadKeeps(s: State, e: Event, z: State)
    requires Inv(s) && ThreadNext(s, e, z)
    ensures Inv(z)
  {
    hide Inv;
    match e {
      case ThreadNew(c, u) => ThreadNewKeeps(s, z, c, u);
      case CallEnd(c) => CallEndKeeps(s, z, c);
      case EndLook(c) => EndLookKeeps(s, z, c);
      case EndEnter(c) => EndEnterKeeps(s, z, c);
      case EndSet(c) => EndSetKeeps(s, z, c);
      case EndDrop(c) => EndDropKeeps(s, z, c);
    }
  }

  lemma SchedKeeps(s: State, e: Event, z: State)
    requires Inv(s) && SchedNext(s, e, z)
    ensures Inv(z)
  {
    hide SleepOk, WaitOk, CountOk, HoldAt, LockOk, CpuAt, ThreadAt;
    match e {
      case SchedTake(c) => SchedTakeKeeps(s, z, c);
      case SchedDone(c) => SchedDoneKeeps(s, z, c);
      case SchedLook(c) =>
        if z.loc[c].Run? {
          SchedRunKeeps(s, z, c);
        } else {
          SchedSkipKeeps(s, z, c);
        }
    }
  }

  lemma SwitchStepKeeps(s: State, e: Event, z: State)
    requires Inv(s) && SwitchNext(s, e, z)
    ensures Inv(z)
  {
    hide Inv;
    match e {
      case Preempt(c) => PreemptKeeps(s, z, c);
      case YieldSet(c) => YieldSetKeeps(s, z, c);
      case Switch(c) => SwitchKeeps(s, z, c);
      case Land(c) => LandKeeps(s, z, c);
      case SleepLock(c) => SleepLockKeeps(s, z, c);
      case SleepDrop(c) => SleepDropKeeps(s, z, c);
      case SleepGo(c) => SleepGoKeeps(s, z, c);
      case ReacqGo(c) => ReacqKeeps(s, z, c);
    }
  }

  lemma LockStepKeeps(s: State, e: Event, z: State)
    requires Inv(s) && LockNext(s, e, z)
    ensures Inv(z)
  {
    hide Inv;
    match e {
      case CallTake(c, l) => CallTakeKeeps(s, z, c, l);
      case TakeGo(c) => TakeKeeps(s, z, c);
      case CheckGo(c) => CheckKeeps(s, z, c);
      case CallGive(c, l) => CallGiveKeeps(s, z, c, l);
      case GiveGo(c) => GiveKeeps(s, z, c);
      case WakeStep(c) => WakeStepKeeps(s, z, c);
      case WakeEnd(c) => WakeEndKeeps(s, z, c);
    }
  }

  lemma WaitStepKeeps(s: State, e: Event, z: State)
    requires Inv(s) && WaitNext(s, e, z)
    ensures Inv(z)
  {
    hide Inv;
    match e {
      case CallWait(c) => CallWaitKeeps(s, z, c);
      case WaitEnter(c) => WaitEnterKeeps(s, z, c);
      case ScanSkip(c) => ScanSkipKeeps(s, z, c);
      case ScanReap(c) => ScanReapKeeps(s, z, c);
      case ScanFail(c) => ScanFailKeeps(s, z, c);
      case ScanEnd(c, killed) => ScanEndKeeps(s, z, c, killed);
    }
  }

  lemma ExitStepKeeps(s: State, e: Event, z: State)
    requires Inv(s) && ExitNext(s, e, z)
    ensures Inv(z)
  {
    hide Inv;
    match e {
      case CallExit(c) => CallExitKeeps(s, z, c);
      case ExitEnter(c) => ExitEnterKeeps(s, z, c);
      case ReparentSkip(c) => ReparentSkipKeeps(s, z, c);
      case Adopt(c) => AdoptKeeps(s, z, c);
      case ReparentEnd(c) => ReparentEndKeeps(s, z, c);
      case ExitSet(c) => ExitSetKeeps(s, z, c);
      case ExitDrop(c) => ExitDropKeeps(s, z, c);
    }
  }

  lemma ForkKeeps(s: State, e: Event, z: State)
    requires Inv(s) && ForkNext(s, e, z)
    ensures Inv(z)
  {
    hide Inv;
    match e {
      case ForkAlloc(c, np) => ForkAllocKeeps(s, z, c, np);
      case ForkParent(c, np) => ForkParentKeeps(s, z, c, np);
      case ForkPublish(c, np) => ForkPublishKeeps(s, z, c, np);
    }
  }

  // ---------------------------------------------------------------- runs

  /** A run of the machine: states, and the event between each two. */
  ghost predicate Run(run: seq<State>, events: seq<Event>) {
    && |run| == |events| + 1 && Init(run[0])
    && (forall i | 0 <= i < |events| :: Shape(run[i]) && Next(run[i], events[i], run[i + 1]))
  }

  lemma {:induction false} RunInv(run: seq<State>, events: seq<Event>, i: nat)
    requires Run(run, events) && i < |run|
    ensures Inv(run[i])
  {
    hide Inv, Next;
    if i == 0 {
      InitHolds(run[0]);
    } else {
      RunInv(run, events, i - 1);
      NextKeeps(run[i - 1], events[i - 1], run[i]);
    }
  }

  ghost predicate Reachable(s: State) {
    exists run: seq<State>, events: seq<Event> :: Run(run, events) && s == run[|run| - 1]
  }

  lemma ReachableInv(s: State)
    requires Reachable(s)
    ensures Inv(s)
  {
    var run: seq<State>, events: seq<Event> :| Run(run, events) && s == run[|run| - 1];
    RunInv(run, events, |run| - 1);
  }

  // ---------------------------------------------------------------- hand-off

  /** A running thread is current on one CPU, and no CPU runs anything else. */
  lemma RunningOnOneCpu(s: State, t: nat)
    requires Reachable(s) && t < NT
    ensures Shape(s)
    ensures s.ts[t] == Running ==> exists c :: 0 <= c < NCPU && s.loc[c].Run? && s.loc[c].t == t
    ensures forall c, d | 0 <= c < NCPU && 0 <= d < NCPU && s.loc[c].Run? && s.loc[d].Run? && c != d ::
      s.loc[c].t != s.loc[d].t
    ensures forall c | 0 <= c < NCPU && s.loc[c].Run? && PLock(Proc(s.loc[c].t)) !in s.lock ::
      s.loc[c].t < NT && s.ts[s.loc[c].t] == Running
  {
    hide LockOk, SleepOk, WaitOk, CountOk, HoldAt;
    ReachableInv(s);
    assert ThreadAt(s, t);
    forall c | 0 <= c < NCPU && s.loc[c].Run?
      ensures s.loc[c].t < NT && s.ctx[s.loc[c].t] == OnCpu(c)
      ensures PLock(Proc(s.loc[c].t)) !in s.lock ==> s.ts[s.loc[c].t] == Running
    {
      assert CpuAt(s, c);
      if PLock(Proc(s.loc[c].t)) !in s.lock {
        FreeLock(s, c, PLock(Proc(s.loc[c].t)));
      }
    }
  }

  /** Whoever can take p->lock and finds a thread runnable or asleep finds its context
      saved; and finds an exited process off every CPU. */
  lemma VisibleOnlyWhenSaved(s: State, t: nat)
    requires Reachable(s) && t < NT
    ensures Shape(s) && Proc(t) < NPROC
    ensures PLock(Proc(t)) !in s.lock && (s.ts[t] == Runnable || s.ts[t] == Sleeping || s.ts[t] == Zombie) ==>
      s.ctx[t].Saved?
    ensures PLock(Proc(t)) !in s.lock && s.ps[Proc(t)] == PZombie ==>
      forall d | 0 <= d < NCPU && s.loc[d].Run? :: Proc(s.loc[d].t) != Proc(t)
  {
    hide LockOk, SleepOk, WaitOk, CountOk, HoldAt;
    ReachableInv(s);
    assert ThreadAt(s, t);
    if PLock(Proc(t)) !in s.lock {
      forall d | 0 <= d < NCPU && s.loc[d].Run?
        ensures s.loc[d].t == t ==> s.ts[t] == Running
        ensures s.ps[Proc(t)] == PZombie ==> Proc(s.loc[d].t) != Proc(t)
      {
        assert CpuAt(s, d);
        FreeLock(s, d, PLock(Proc(t)));
      }
    }
  }

  /** The scheduler never switches to a thread without a saved context. */
  lemma SwitchesToSavedContext(s: State, c: nat)
    requires Reachable(s) && c < NCPU && Shape(s) && s.loc[c].Scan? && s.loc[c].i < NTHREAD
    ensures s.loc[c].p < NPROC && s.loc[c].p * NTHREAD + s.loc[c].i < NT
    ensures var t := s.loc[c].p * NTHREAD + s.loc[c].i;
      s.ts[t] == Runnable ==> s.ctx[t].Saved? && !s.ctx[t].why.Exited?
  {
    hide LockOk, SleepOk, WaitOk, CountOk, HoldAt;
    ReachableInv(s);
    assert CpuAt(s, c);
    Slot(s.loc[c].p, s.loc[c].i);
    var t := s.loc[c].p * NTHREAD + s.loc[c].i;
    if s.ts[t] == Runnable {
      RunnableIsSaved(s, c, t);
    }
  }

  /** sched never panics: p->lock is held, it is the only spinlock held, and the thread's
      state is no longer running. */
  lemma SchedDoesNotPanic(s: State, c: nat)
    requires Reachable(s) && c < NCPU && Shape(s) && s.loc[c].Run? && s.loc[c].pc.Switching?
    ensures s.loc[c].t < NT && s.ts[s.loc[c].t] != Running
    ensures forall k :: (k in s.lock && s.lock[k] == c) <==> k == PLock(Proc(s.loc[c].t))
  {
    hide SleepOk, WaitOk, CountOk, HoldAt, ThreadAt;
    ReachableInv(s);
    assert CpuAt(s, c);
    SwitchingHolds(s.loc[c].t, s.loc[c].pc.why);
    assert Holds(s.loc[c], PLock(Proc(s.loc[c].t)));
  }

  // ---------------------------------------------------------------- no lost wakeup

  /** A sleeping thread sleeps for something. */
  lemma SleepsFor(s: State, t: nat) returns (w: Waiter)
    requires Inv(s) && t < NT && s.ts[t] == Sleeping
    ensures AsleepOn(s, t, w) && s.chan[t] == ChanOf(w, t)
  {
    hide LockOk, SleepOk, WaitOk, CountOk, HoldAt;
    assert ThreadAt(s, t);
    if s.ctx[t].OnCpu? {
      assert CpuAt(s, s.ctx[t].c);
      w := s.loc[s.ctx[t].c].pc.why.w;
    } else {
      w := s.ctx[t].why.w;
    }
  }

  /** When a sleep-lock is free and its spinlock is not held, nobody sleeps on it. */
  lemma NoLostWakeup(s: State, l: nat, t: nat)
    requires Reachable(s) && Shape(s) && l !in s.taken && SLock(l) !in s.lock && t < NT
    ensures !(s.ts[t] == Sleeping && s.chan[t] == LockChan(l))
  {
    hide Core, WaitOk, CountOk, HoldAt, AsleepOn;
    ReachableInv(s);
    if s.ts[t] == Sleeping {
      var w := SleepsFor(s, t);
      assert AsleepOn(s, t, w);
      assert w.OnLock? && w.l == l ==> l in s.taken || LockWaking(s, l, Proc(t));
    }
  }

  /** When wait_lock is not held, nobody asleep in wait has an exited child. */
  lemma NoZombieUnnoticed(s: State, t: nat, q: nat)
    requires Reachable(s) && Shape(s) && WaitLock !in s.lock && t < NT && q < NPROC
    ensures !(s.ts[t] == Sleeping && s.chan[t] == ProcChan(Proc(t))
              && s.parent[q] == Some(Proc(t)) && s.ps[q] == PZombie)
  {
    hide Core, SleepOk, CountOk, HoldAt, AsleepOn;
    ReachableInv(s);
    if s.ts[t] == Sleeping {
      var w := SleepsFor(s, t);
      assert AsleepOn(s, t, w);
      assert w.OnChild? && s.parent[q] == Some(Proc(t)) && s.ps[q] == PZombie ==> InitWaking(s, Proc(t));
    }
  }

  /** Every exit of the process in a slot is reaped at most once, and a zombie is an exit
      not yet reaped. */
  lemma ReapedOnce(s: State, q: nat)
    requires Reachable(s) && Shape(s) && q < NPROC
    ensures s.reaps[q] <= s.exits[q] <= s.reaps[q] + 1
    ensures s.exits[q] == s.reaps[q] + 1 <==> s.ps[q] == PZombie
  {
    hide Core, SleepOk, WaitOk, HoldAt;
    ReachableInv(s);
  }
}
