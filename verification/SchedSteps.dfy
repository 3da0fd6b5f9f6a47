/** Every step of the scheduler machine keeps the invariant. */
module SchedSteps {
  import opened Options
  import opened Sched
  import opened SchedInv

  // ---------------------------------------------------------------- yield, sched and sleep

  lemma PreemptKeeps(s: State, z: State, c: nat)
    requires Inv(s) && SwitchNext(s, Preempt(c), z)
    ensures Inv(z)
  {
    hide LockOk, SleepOk, WaitOk, CountOk, ThreadAt;
    assert CpuAt(s, c) && HoldAt(s, c);
    LocalKeeps(s, z, c, {PLock(Proc(s.loc[c].t))}, {});
  }

  lemma YieldSetKeeps(s: State, z: State, c: nat)
    requires Inv(s) && SwitchNext(s, YieldSet(c), z)
    ensures Inv(z)
  {
    hide LockOk, SleepOk, WaitOk, CountOk, ThreadAt;
    assert CpuAt(s, c) && HoldAt(s, c);
    LocalKeeps(s, z, c, {}, {});
  }

  lemma LandKeeps(s: State, z: State, c: nat)
    requires Inv(s) && SwitchNext(s, Land(c), z)
    ensures Inv(z)
  {
    hide LockOk, SleepOk, WaitOk, CountOk, ThreadAt, HoldAt, Holds;
    assert CpuAt(s, c);
    LandsOpen(s, z, c);
    OpenFacts(z, c);
    LocalKeeps(s, z, c, {}, {PLock(Proc(s.loc[c].t))}) by {
      LandedHolds(s.loc[c].t, s.loc[c].pc.why);
    }
  }

  lemma LandsOpen(s: State, z: State, c: nat)
    requires Core(s) && SwitchNext(s, Land(c), z)
    ensures Shape(z) && c < NCPU && z.loc[c].Run? && Open(z.loc[c].pc) && z.loc[c].t == s.loc[c].t
  {
    hide LockOk, ThreadAt, Holds;
    assert CpuAt(s, c);
  }

  lemma OpenFacts(z: State, c: nat)
    requires Shape(z) && c < NCPU && z.loc[c].Run? && Open(z.loc[c].pc)
    ensures forall k :: !Holds(z.loc[c], k)
    ensures StateAt(z.loc[c].pc) == Running && PcOk(z.loc[c].pc) && !Leaving(z.loc[c].pc) && HoldAt(z, c)
    ensures !z.loc[c].pc.Switching? && !z.loc[c].pc.SleepSet?
  {
  }

  lemma SleepLockKeeps(s: State, z: State, c: nat)
    requires Inv(s) && SwitchNext(s, SleepLock(c), z)
    ensures Inv(z)
  {
    hide LockOk, SleepOk, WaitOk, CountOk, ThreadAt;
    assert CpuAt(s, c) && HoldAt(s, c);
    LocalKeeps(s, z, c, {PLock(Proc(s.loc[c].t))}, {});
  }

  lemma SleepDropKeeps(s: State, z: State, c: nat)
    requires Inv(s) && SwitchNext(s, SleepDrop(c), z)
    ensures Inv(z)
  {
    hide LockOk, SleepOk, WaitOk, CountOk, ThreadAt;
    assert CpuAt(s, c) && HoldAt(s, c);
    LocalKeeps(s, z, c, {}, {Guard(s.loc[c].pc.w)});
  }

  lemma SleepGoKeeps(s: State, z: State, c: nat)
    requires Inv(s) && SwitchNext(s, SleepGo(c), z)
    ensures Inv(z)
  {
    hide LockOk, SleepOk, WaitOk, CountOk, ThreadAt;
    assert CpuAt(s, c) && HoldAt(s, c);
    LocalKeeps(s, z, c, {}, {});
  }

  lemma ReacqKeeps(s: State, z: State, c: nat)
    requires Inv(s) && SwitchNext(s, ReacqGo(c), z)
    ensures Inv(z)
  {
    hide LockOk, SleepOk, WaitOk, CountOk, ThreadAt;
    assert CpuAt(s, c) && HoldAt(s, c);
    LocalKeeps(s, z, c, {Guard(s.loc[c].pc.w)}, {});
  }

  // ---------------------------------------------------------------- sleep-locks

  lemma CallTakeKeeps(s: State, z: State, c: nat, l: nat)
    requires Inv(s) && LockNext(s, CallTake(c, l), z)
    ensures Inv(z)
  {
    hide LockOk, SleepOk, WaitOk, CountOk, ThreadAt;
    assert CpuAt(s, c) && HoldAt(s, c);
    LocalKeeps(s, z, c, {}, {});
  }

  lemma TakeKeeps(s: State, z: State, c: nat)
    requires Inv(s) && LockNext(s, TakeGo(c), z)
    ensures Inv(z)
  {
    hide LockOk, SleepOk, WaitOk, CountOk, ThreadAt;
    assert CpuAt(s, c) && HoldAt(s, c);
    LocalKeeps(s, z, c, {SLock(s.loc[c].pc.l)}, {});
  }

  lemma CheckKeeps(s: State, z: State, c: nat)
    requires Inv(s) && LockNext(s, CheckGo(c), z)
    ensures Inv(z)
  {
    hide Inv;
    if s.loc[c].pc.l in s.taken {
      CheckTakenKeeps(s, z, c);
    } else {
      CheckFreeKeeps(s, z, c);
    }
  }

  lemma CheckTakenKeeps(s: State, z: State, c: nat)
    requires Inv(s) && LockNext(s, CheckGo(c), z) && s.loc[c].pc.l in s.taken
    ensures Inv(z)
  {
    hide LockOk, SleepOk, WaitOk, CountOk, ThreadAt;
    assert CpuAt(s, c) && HoldAt(s, c);
    LocalKeeps(s, z, c, {}, {});
  }

  lemma CheckFreeKeeps(s: State, z: State, c: nat)
    requires Inv(s) && LockNext(s, CheckGo(c), z) && s.loc[c].pc.l !in s.taken
    ensures Inv(z)
  {
    hide LockOk, SleepOk, WaitOk, CountOk, ThreadAt;
    assert CpuAt(s, c) && HoldAt(s, c);
    LocalKeeps(s, z, c, {}, {SLock(s.loc[c].pc.l)});
  }

  lemma CallGiveKeeps(s: State, z: State, c: nat, l: nat)
    requires Inv(s) && LockNext(s, CallGive(c, l), z)
    ensures Inv(z)
  {
    hide LockOk, SleepOk, WaitOk, CountOk, ThreadAt;
    assert CpuAt(s, c) && HoldAt(s, c);
    LocalKeeps(s, z, c, {}, {});
  }

  lemma GiveKeeps(s: State, z: State, c: nat)
    requires Inv(s) && LockNext(s, GiveGo(c), z)
    ensures Inv(z)
  {
    hide LockOk, SleepOk, WaitOk, CountOk, ThreadAt;
    assert CpuAt(s, c) && HoldAt(s, c);
    LocalKeeps(s, z, c, {SLock(s.loc[c].pc.l)}, {});
  }

  lemma WakeEndKeeps(s: State, z: State, c: nat)
    requires Inv(s) && LockNext(s, WakeEnd(c), z)
    ensures Inv(z)
  {
    hide LockOk, SleepOk, WaitOk, CountOk, ThreadAt, Relocked, Sound;
    assert CpuAt(s, c) && HoldAt(s, c);
    WakeEndLocks(s, z, c);
    WakeEndSound(s, z, c);
    LocalKeeps(s, z, c, {}, if s.loc[c].pc.k.Released? then {SLock(s.loc[c].pc.k.l)} else {});
  }

  lemma WakeEndLocks(s: State, z: State, c: nat)
    requires Core(s) && LockNext(s, WakeEnd(c), z)
    ensures Shape(z) && c < NCPU
    ensures Relocked(s, z, c, {}, if s.loc[c].pc.k.Released? then {SLock(s.loc[c].pc.k.l)} else {})
  {
    hide LockOk, ThreadAt;
    assert CpuAt(s, c);
  }

  lemma WakeEndSound(s: State, z: State, c: nat)
    requires Inv(s) && LockNext(s, WakeEnd(c), z)
    ensures Shape(z) && c < NCPU && Sound(s, z, c)
  {
    hide LockOk, SleepOk, WaitOk, CountOk, ThreadAt, Holds;
    assert CpuAt(s, c) && HoldAt(s, c);
    WokenSame(s, z, c);
  }

  /** The last step of a wakeup puts nobody to sleep. */
  lemma WokenSame(s: State, z: State, c: nat)
    requires Core(s) && LockNext(s, WakeEnd(c), z)
    ensures Shape(z) && forall par, n | SleepersFrom(s, par, n) :: SleepersFrom(z, par, n)
  {
    hide LockOk, Holds, ThreadAt;
    assert CpuAt(s, c);
    forall u: nat | AsleepOn(z, u, OnChild)
      ensures AsleepOn(s, u, OnChild)
    {
      LocalAsleep(s, z, c, u, OnChild);
    }
  }

  // ---------------------------------------------------------------- the end of a thread

  lemma CallEndKeeps(s: State, z: State, c: nat)
    requires Inv(s) && ThreadNext(s, CallEnd(c), z)
    ensures Inv(z)
  {
    hide LockOk, SleepOk, WaitOk, CountOk, ThreadAt;
    assert CpuAt(s, c) && HoldAt(s, c);
    LocalKeeps(s, z, c, {}, {});
  }

  lemma EndLookKeeps(s: State, z: State, c: nat)
    requires Inv(s) && ThreadNext(s, EndLook(c), z)
    ensures Inv(z)
  {
    hide LockOk, SleepOk, WaitOk, CountOk, ThreadAt, CountsOther;
    assert CpuAt(s, c) && HoldAt(s, c);
    LocalKeeps(s, z, c, {}, {});
  }

  lemma EndEnterKeeps(s: State, z: State, c: nat)
    requires Inv(s) && ThreadNext(s, EndEnter(c), z)
    ensures Inv(z)
  {
    hide LockOk, SleepOk, WaitOk, CountOk, ThreadAt;
    assert CpuAt(s, c) && HoldAt(s, c);
    LocalKeeps(s, z, c, {WaitLock}, {});
  }

  lemma EndSetKeeps(s: State, z: State, c: nat)
    requires Inv(s) && ThreadNext(s, EndSet(c), z)
    ensures Inv(z)
  {
    hide LockOk, SleepOk, WaitOk, CountOk, ThreadAt;
    assert CpuAt(s, c) && HoldAt(s, c);
    LocalKeeps(s, z, c, {PLock(Proc(s.loc[c].t))}, {});
  }

  lemma EndDropKeeps(s: State, z: State, c: nat)
    requires Inv(s) && ThreadNext(s, EndDrop(c), z)
    ensures Inv(z)
  {
    hide LockOk, SleepOk, WaitOk, CountOk, ThreadAt;
    assert CpuAt(s, c) && HoldAt(s, c);
    LocalKeeps(s, z, c, {}, {WaitLock});
  }

  // ---------------------------------------------------------------- wait and exit, one place at a time

  lemma CallWaitKeeps(s: State, z: State, c: nat)
    requires Inv(s) && WaitNext(s, CallWait(c), z)
    ensures Inv(z)
  {
    hide LockOk, SleepOk, WaitOk, CountOk, ThreadAt;
    assert CpuAt(s, c) && HoldAt(s, c);
    LocalKeeps(s, z, c, {}, {});
  }

  lemma WaitEnterKeeps(s: State, z: State, c: nat)
    requires Inv(s) && WaitNext(s, WaitEnter(c), z)
    ensures Inv(z)
  {
    hide LockOk, SleepOk, WaitOk, CountOk, ThreadAt;
    assert CpuAt(s, c) && HoldAt(s, c);
    LocalKeeps(s, z, c, {WaitLock}, {});
  }

  lemma ScanSkipKeeps(s: State, z: State, c: nat)
    requires Inv(s) && WaitNext(s, ScanSkip(c), z)
    ensures Inv(z)
  {
    hide LockOk, SleepOk, WaitOk, CountOk, ThreadAt;
    assert CpuAt(s, c) && HoldAt(s, c);
    LocalKeeps(s, z, c, {}, {});
  }

  lemma ScanFailKeeps(s: State, z: State, c: nat)
    requires Inv(s) && WaitNext(s, ScanFail(c), z)
    ensures Inv(z)
  {
    hide LockOk, SleepOk, WaitOk, CountOk, ThreadAt;
    assert CpuAt(s, c) && HoldAt(s, c);
    LocalKeeps(s, z, c, {}, {WaitLock});
  }

  lemma ScanEndKeeps(s: State, z: State, c: nat, killed: bool)
    requires Inv(s) && WaitNext(s, ScanEnd(c, killed), z)
    ensures Inv(z)
  {
    hide Inv;
    if !s.loc[c].pc.kids || killed {
      ScanLeaveKeeps(s, z, c, killed);
    } else {
      ScanSleepKeeps(s, z, c, killed);
    }
  }

  lemma ScanLeaveKeeps(s: State, z: State, c: nat, killed: bool)
    requires Inv(s) && WaitNext(s, ScanEnd(c, killed), z) && (!s.loc[c].pc.kids || killed)
    ensures Inv(z)
  {
    hide LockOk, SleepOk, WaitOk, CountOk, ThreadAt;
    assert CpuAt(s, c) && HoldAt(s, c);
    LocalKeeps(s, z, c, {}, {WaitLock});
  }

  lemma ScanSleepKeeps(s: State, z: State, c: nat, killed: bool)
    requires Inv(s) && WaitNext(s, ScanEnd(c, killed), z) && s.loc[c].pc.kids && !killed
    ensures Inv(z)
  {
    hide LockOk, SleepOk, WaitOk, CountOk, ThreadAt;
    assert CpuAt(s, c) && HoldAt(s, c);
    LocalKeeps(s, z, c, {}, {});
  }

  lemma CallExitKeeps(s: State, z: State, c: nat)
    requires Inv(s) && ExitNext(s, CallExit(c), z)
    ensures Inv(z)
  {
    hide LockOk, SleepOk, WaitOk, CountOk, ThreadAt;
    assert CpuAt(s, c) && HoldAt(s, c);
    LocalKeeps(s, z, c, {}, {});
  }

  lemma ExitEnterKeeps(s: State, z: State, c: nat)
    requires Inv(s) && ExitNext(s, ExitEnter(c), z)
    ensures Inv(z)
  {
    hide LockOk, SleepOk, WaitOk, CountOk, ThreadAt;
    assert CpuAt(s, c) && HoldAt(s, c);
    LocalKeeps(s, z, c, {WaitLock}, {});
  }

  lemma ReparentSkipKeeps(s: State, z: State, c: nat)
    requires Inv(s) && ExitNext(s, ReparentSkip(c), z)
    ensures Inv(z)
  {
    hide LockOk, SleepOk, WaitOk, CountOk, ThreadAt;
    assert CpuAt(s, c) && HoldAt(s, c);
    LocalKeeps(s, z, c, {}, {});
  }

  lemma ReparentEndKeeps(s: State, z: State, c: nat)
    requires Inv(s) && ExitNext(s, ReparentEnd(c), z)
    ensures Inv(z)
  {
    hide LockOk, SleepOk, WaitOk, CountOk, ThreadAt;
    assert CpuAt(s, c) && HoldAt(s, c);
    LocalKeeps(s, z, c, {}, {});
  }

  lemma ExitDropKeeps(s: State, z: State, c: nat)
    requires Inv(s) && ExitNext(s, ExitDrop(c), z)
    ensures Inv(z)
  {
    hide LockOk, SleepOk, WaitOk, CountOk, ThreadAt;
    assert CpuAt(s, c) && HoldAt(s, c);
    LocalKeeps(s, z, c, {}, {WaitLock});
  }
}
