/** Several threads in one process: they run at once, and how a process ends when its last thread
    leaves through kthread_exit. */
module SchedThreads {
  import opened Options
  import opened Sched
  import opened SchedInv
  import opened SchedMoves
  import opened SchedMachine

  // ---------------------------------------------------------------- threads that have left

  /** Past the look that kthread_exit takes at the other threads. */
  predicate EndPc(pc: Pc) {
    || pc.EndAcq? || pc == Yielding(EndAcq) || pc == Switching(Yielded(EndAcq)) || pc == Landed(Yielded(EndAcq))
    || (pc.Waking? && pc.k.ToJoiners?) || pc.EndLock? || pc.EndRel? || pc == Switching(Ended)
  }

  predicate HasLeft(s: State, u: nat)
    requires Shape(s) && u < NT
  {
    match s.ctx[u]
    case NoCtx => true
    case OnCpu(c) => c < NCPU && s.loc[c].Run? && EndPc(s.loc[c].pc)
    case Saved(why) => why == Yielded(EndAcq) || why == Ended
  }

  /** Every thread of the process has left by kthread_exit, and none made the process exit. */
  ghost predicate Doomed(s: State, p: nat)
    requires Shape(s)
  {
    p < NPROC && s.ps[p] == PUsed && forall u | 0 <= u < NT && Proc(u) == p :: HasLeft(s, u)
  }

  /** Nothing about process p and its threads changed but for threads that have left moving on. */
  ghost predicate Untouched(s: State, z: State, p: nat)
    requires Shape(s) && Shape(z) && p < NPROC
  {
    && z.ps[p] == s.ps[p] && z.exits[p] == s.exits[p] && z.reaps[p] == s.reaps[p]
    && forall u | 0 <= u < NT && Proc(u) == p :: HasLeft(z, u)
  }

  /** Threads and CPUs agree on who is where. */
  lemma Placed(s: State, c: nat, u: nat)
    requires Core(s) && c < NCPU && u < NT
    ensures Shape(s)
    ensures s.ctx[u].OnCpu? ==> var d := s.ctx[u].c; d < NCPU && s.loc[d].Run? && s.loc[d].t == u
    ensures s.loc[c].Run? ==> s.loc[c].t < NT && s.ctx[s.loc[c].t] == OnCpu(c)
    ensures s.ctx[u] == Saved(Ended) ==> s.ts[u] == Zombie
    ensures s.ts[u] == Used ==> s.ctx[u] == Saved(Forked)
  {
    hide LockOk, Holds;
    assert ThreadAt(s, u) && CpuAt(s, c);
    assert s.ctx[u].OnCpu? ==> CpuAt(s, s.ctx[u].c);
  }

  /** A thread that the step does not move. */
  lemma Elsewhere(s: State, z: State, u: nat)
    requires Shape(s) && Shape(z) && u < NT && HasLeft(s, u) && z.ctx[u] == s.ctx[u]
    requires s.ctx[u].OnCpu? && s.ctx[u].c < NCPU ==> z.loc[s.ctx[u].c] == s.loc[s.ctx[u].c]
    ensures HasLeft(z, u)
  {
  }

  lemma DoomedSched(s: State, e: Event, z: State, p: nat)
    requires Inv(s) && Shape(s) && Shape(z) && Doomed(s, p) && SchedNext(s, e, z)
    ensures Untouched(s, z, p)
  {
    hide Core, SleepOk, WaitOk, CountOk, HoldAt;
    forall u | 0 <= u < NT && Proc(u) == p
      ensures HasLeft(z, u)
    {
      assert HasLeft(s, u);
      Placed(s, e.c, u);
    }
  }

  lemma DoomedSwitch(s: State, e: Event, z: State, p: nat)
    requires Inv(s) && Shape(s) && Shape(z) && Doomed(s, p) && SwitchNext(s, e, z)
    ensures Untouched(s, z, p)
  {
    hide Core, SleepOk, WaitOk, CountOk, HoldAt, HasLeft;
    forall u | 0 <= u < NT && Proc(u) == p
      ensures HasLeft(z, u)
    {
      assert HasLeft(s, u);
      Placed(s, e.c, u);
      if s.loc[e.c].t == u {
        SwitchMoves(s, e, z, u);
      } else {
        Elsewhere(s, z, u);
      }
    }
  }

  lemma SwitchMoves(s: State, e: Event, z: State, u: nat)
    requires Shape(s) && Shape(z) && u < NT && SwitchNext(s, e, z) && HasLeft(s, u)
    requires s.loc[e.c] == Loc.Run(u, s.loc[e.c].pc) && s.ctx[u] == OnCpu(e.c)
    ensures HasLeft(z, u)
  {
  }

  lemma DoomedLock(s: State, e: Event, z: State, p: nat)
    requires Inv(s) && Shape(s) && Shape(z) && Doomed(s, p) && LockNext(s, e, z)
    ensures Untouched(s, z, p)
  {
    hide Core, SleepOk, WaitOk, CountOk, HoldAt, HasLeft, WakeProc;
    forall u | 0 <= u < NT && Proc(u) == p
      ensures HasLeft(z, u)
    {
      assert HasLeft(s, u);
      Placed(s, e.c, u);
      if s.loc[e.c].t == u {
        LockMoves(s, e, z, u);
      } else {
        Elsewhere(s, z, u);
      }
    }
  }

  lemma LockMoves(s: State, e: Event, z: State, u: nat)
    requires Shape(s) && Shape(z) && u < NT && LockNext(s, e, z) && HasLeft(s, u)
    requires s.loc[e.c] == Loc.Run(u, s.loc[e.c].pc) && s.ctx[u] == OnCpu(e.c)
    ensures HasLeft(z, u)
  {
    hide WakeProc;
  }

  lemma DoomedWait(s: State, e: Event, z: State, p: nat)
    requires Inv(s) && Shape(s) && Shape(z) && Doomed(s, p) && WaitNext(s, e, z)
    ensures Untouched(s, z, p)
  {
    hide Core, SleepOk, WaitOk, CountOk, HoldAt, HasLeft;
    forall u | 0 <= u < NT && Proc(u) == p
      ensures HasLeft(z, u)
    {
      assert HasLeft(s, u);
      Placed(s, e.c, u);
      if s.ctx[u] == OnCpu(e.c) {
        NotInWait(s, e.c, u);
      }
      Elsewhere(s, z, u);
    }
  }

  lemma NotInWait(s: State, c: nat, u: nat)
    requires Shape(s) && c < NCPU && u < NT && HasLeft(s, u) && s.ctx[u] == OnCpu(c) && s.loc[c].Run?
    ensures var pc := s.loc[c].pc;
      !pc.Body? && !pc.WaitAcq? && !pc.WaitScan? && !pc.ExitAcq? && !pc.Reparent? && !pc.ExitLock? && !pc.ExitRel?
  {
  }

  lemma DoomedExit(s: State, e: Event, z: State, p: nat)
    requires Inv(s) && Shape(s) && Shape(z) && Doomed(s, p) && ExitNext(s, e, z)
    ensures Untouched(s, z, p)
  {
    hide Core, SleepOk, WaitOk, CountOk, HoldAt, HasLeft;
    Placed(s, e.c, 0);
    if Proc(s.loc[e.c].t) == p {
      NotInWait(s, e.c, s.loc[e.c].t);
    }
    forall u | 0 <= u < NT && Proc(u) == p
      ensures HasLeft(z, u)
    {
      assert HasLeft(s, u);
      Placed(s, e.c, u);
      Elsewhere(s, z, u);
    }
  }

  lemma DoomedFork(s: State, e: Event, z: State, p: nat)
    requires Inv(s) && Shape(s) && Shape(z) && Doomed(s, p) && ForkNext(s, e, z)
    ensures Untouched(s, z, p)
  {
    hide Core, SleepOk, WaitOk, CountOk, HoldAt;
    Slot(e.np, 0);
    Placed(s, e.c, e.np * NTHREAD);
    assert e.np == p ==> HasLeft(s, e.np * NTHREAD);
    forall u | 0 <= u < NT && Proc(u) == p
      ensures HasLeft(z, u)
    {
      assert HasLeft(s, u);
      Elsewhere(s, z, u);
    }
  }

  lemma DoomedThread(s: State, e: Event, z: State, p: nat)
    requires Inv(s) && Shape(s) && Shape(z) && Doomed(s, p) && ThreadNext(s, e, z)
    ensures Untouched(s, z, p)
  {
    hide Core, SleepOk, WaitOk, CountOk, HoldAt, HasLeft, CountsOther, FirstFree;
    Placed(s, e.c, 0);
    if Proc(s.loc[e.c].t) == p {
      assert HasLeft(s, s.loc[e.c].t);
      ThreadMoves(s, e, z, s.loc[e.c].t);
    }
    forall u | 0 <= u < NT && Proc(u) == p
      ensures HasLeft(z, u)
    {
      assert HasLeft(s, u);
      Placed(s, e.c, u);
      if s.loc[e.c].t != u {
        NewElsewhere(s, e, z, u);
        Elsewhere(s, z, u);
      }
    }
  }

  lemma ThreadMoves(s: State, e: Event, z: State, u: nat)
    requires Shape(s) && Shape(z) && u < NT && ThreadNext(s, e, z) && HasLeft(s, u)
    requires s.loc[e.c] == Loc.Run(u, s.loc[e.c].pc) && s.ctx[u] == OnCpu(e.c)
    ensures HasLeft(z, u) && !e.ThreadNew?
  {
    hide CountsOther, FirstFree;
  }

  lemma NewElsewhere(s: State, e: Event, z: State, u: nat)
    requires Shape(s) && Shape(z) && u < NT && ThreadNext(s, e, z)
    ensures e.ThreadNew? && Proc(s.loc[e.c].t) != Proc(u) ==> e.u != u
  {
    hide CountsOther;
  }

  /** No step of any CPU brings such a process back, makes it exit, or reaps it. */
  lemma DoomedStays(s: State, e: Event, z: State, p: nat)
    requires Inv(s) && Doomed(s, p) && Next(s, e, z)
    ensures Inv(z) && Doomed(z, p) && z.exits[p] == s.exits[p] && z.reaps[p] == s.reaps[p]
  {
    hide SleepOk, WaitOk, CountOk, HoldAt, LockOk, CpuAt, ThreadAt, HasLeft;
    hide SchedNext, SwitchNext, LockNext, WaitNext, ExitNext, ForkNext, ThreadNext;
    NextKeeps(s, e, z);
    InvShape(z);
    if SchedNext(s, e, z) {
      DoomedSched(s, e, z, p);
    } else if SwitchNext(s, e, z) {
      DoomedSwitch(s, e, z, p);
    } else if LockNext(s, e, z) {
      DoomedLock(s, e, z, p);
    } else if WaitNext(s, e, z) {
      DoomedWait(s, e, z, p);
    } else if ExitNext(s, e, z) {
      DoomedExit(s, e, z, p);
    } else if ForkNext(s, e, z) {
      DoomedFork(s, e, z, p);
    } else {
      DoomedThread(s, e, z, p);
    }
  }

  /** In every run, from there on: its parent waits for ever. */
  lemma {:induction false} DoomedForEver(run: seq<State>, events: seq<Event>, i: nat, j: nat, p: nat)
    requires SchedMachine.Run(run, events) && i <= j < |run| && Shape(run[i]) && Doomed(run[i], p)
    ensures Shape(run[j]) && Doomed(run[j], p)
    ensures run[j].exits[p] == run[i].exits[p] && run[j].reaps[p] == run[i].reaps[p]
  {
    hide Inv, Next, Doomed, Init;
    if i < j {
      DoomedForEver(run, events, i, j - 1, p);
      RunInv(run, events, j - 1);
      DoomedInRange(run[j - 1], p);
      DoomedStays(run[j - 1], events[j - 1], run[j], p);
      InvShape(run[j]);
    } else {
      DoomedInRange(run[i], p);
    }
  }

  lemma DoomedInRange(s: State, p: nat)
    requires Shape(s) && Doomed(s, p)
    ensures p < NPROC
  {
    hide HasLeft;
  }

  lemma InvShape(s: State)
    requires Inv(s)
    ensures Shape(s)
  {
    hide SleepOk, WaitOk, CountOk, HoldAt, LockOk, CpuAt, ThreadAt;
  }

  /** The last live thread calls kthread_exit: the process exits iff no slot of its thread table is
      free; otherwise it never exits. */
  lemma LastThreadLeaves(s: State, z: State, c: nat)
    requires Inv(s) && ThreadNext(s, EndLook(c), z) && OthersGone(s, Proc(s.loc[c].t), s.loc[c].t)
    ensures Shape(z) && c < NCPU && z.loc[c].Run?
    ensures var p := Proc(s.loc[c].t);
      if exists u :: 0 <= u < NT && Proc(u) == p && s.ts[u] == Unused then Doomed(z, p)
      else z.loc[c].pc == ExitAcq
  {
    hide SleepOk, WaitOk, CountOk, HoldAt, LockOk, ThreadAt;
    assert CpuAt(s, c);
    var t := s.loc[c].t;
    if u :| 0 <= u < NT && Proc(u) == Proc(t) && s.ts[u] == Unused {
      assert CountsOther(s, Proc(t), t);
      forall v | 0 <= v < NT && Proc(v) == Proc(t)
        ensures HasLeft(z, v)
      {
        if v != t {
          GoneHasLeft(s, v);
          AlsoAfter(s, z, c, v);
        }
      }
    }
  }

  /** In a process that has not exited, a thread that is gone has left. */
  lemma GoneHasLeft(s: State, v: nat)
    requires Core(s) && v < NT && s.ps[Proc(v)] == PUsed && (s.ts[v] == Zombie || s.ts[v] == Unused)
    ensures HasLeft(s, v)
  {
    hide LockOk;
    assert ThreadAt(s, v);
    assert s.ctx[v].OnCpu? ==> CpuAt(s, s.ctx[v].c);
  }

  lemma AlsoAfter(s: State, z: State, c: nat, v: nat)
    requires Core(s) && v < NT && HasLeft(s, v) && ThreadNext(s, EndLook(c), z) && v != s.loc[c].t
    ensures Shape(z) && HasLeft(z, v)
  {
    hide LockOk, CountsOther;
    assert ThreadAt(s, v) && CpuAt(s, c);
  }

  // ---------------------------------------------------------------- runs that show it

  lemma StepOn(s: State, e: Event, z: State)
    requires Reachable(s) && Shape(s) && Next(s, e, z)
    ensures Reachable(z)
  {
    hide Init, Next;
    var run: seq<State>, events: seq<Event> :| SchedMachine.Run(run, events) && s == run[|run| - 1];
    var more, evs := run + [z], events + [e];
    assert forall i | 0 <= i < |evs| :: Shape(more[i]) && Next(more[i], evs[i], more[i + 1]);
    assert SchedMachine.Run(more, evs) && z == more[|more| - 1];
  }

  function Start(): State {
    State(seq(NCPU, _ => Idle(0)), map[], seq(NT, t => if t == INIT then Runnable else Unused), seq(NT, _ => NoChan),
          seq(NT, t => if t == INIT then Saved(Forked) else NoCtx),
          seq(NPROC, q => if q == INIT then PUsed else PUnused), seq(NPROC, _ => None),
          map[], seq(NPROC, _ => 0), seq(NPROC, _ => 0))
  }

  lemma StartReachable()
    ensures Reachable(Start()) && Shape(Start())
  {
    assert Init(Start());
    assert SchedMachine.Run([Start()], []);
  }

  /** CPU 0 runs the first process. */
  lemma Boot() returns (s: State)
    ensures Reachable(s) && Shape(s)
    ensures s == Start().(loc := Start().loc[0 := Run(0, Body)],
                          ts := Start().ts[0 := Running], ctx := Start().ctx[0 := OnCpu(0)])
  {
    hide Reachable;
    StartReachable();
    var s0 := Start();
    var s1 := s0.(loc := s0.loc[0 := Scan(0, 0)], lock := map[PLock(0) := 0]);
    assert SchedNext(s0, SchedTake(0), s1);
    StepOn(s0, SchedTake(0), s1);
    var s2 := s1.(loc := s0.loc[0 := Run(0, Landed(Forked))], ts := s0.ts[0 := Running], ctx := s0.ctx[0 := OnCpu(0)]);
    assert SchedNext(s1, SchedLook(0), s2);
    StepOn(s1, SchedLook(0), s2);
    s := s2.(loc := s0.loc[0 := Run(0, Body)], lock := map[]);
    assert s2.lock - {PLock(0)} == map[];
    assert SwitchNext(s2, Land(0), s);
    StepOn(s2, Land(0), s);
  }

  /** The scheduler passes over threads that are not runnable. */
  lemma {:induction false} ScanPast(s: State, c: nat, p: nat, i: nat) returns (z: State)
    requires Reachable(s) && Shape(s) && c < NCPU && p < NPROC && i <= NTHREAD && s.loc[c] == Scan(p, i)
    requires forall t | p * NTHREAD + i <= t < (p + 1) * NTHREAD :: s.ts[t] != Runnable
    ensures Reachable(z) && z == s.(loc := s.loc[c := Scan(p, NTHREAD)])
    decreases NTHREAD - i
  {
    hide Reachable;
    z := s;
    if i < NTHREAD {
      var t := s.(loc := s.loc[c := Scan(p, i + 1)]);
      assert SchedNext(s, SchedLook(c), t);
      StepOn(s, SchedLook(c), t);
      z := ScanPast(t, c, p, i + 1);
    }
  }

  /** A thread that the scheduler of CPU c finds runnable, and that was never run, comes to run. */
  lemma StartsRunning(s: State, c: nat, p: nat, i: nat) returns (z: State)
    requires Reachable(s) && Shape(s) && c < NCPU && p < NPROC && i < NTHREAD && s.loc[c] == Scan(p, i)
    requires s.ts[p * NTHREAD + i] == Runnable && s.ctx[p * NTHREAD + i] == Saved(Forked)
    ensures var t := p * NTHREAD + i;
      && Reachable(z) && Shape(z)
      && z == Release(s, PLock(p)).(loc := s.loc[c := Run(t, Body)],
                                    ts := s.ts[t := Running], ctx := s.ctx[t := OnCpu(c)])
  {
    hide Reachable;
    Slot(p, i);
    var t := p * NTHREAD + i;
    var u := s.(loc := s.loc[c := Run(t, Landed(Forked))], ts := s.ts[t := Running], ctx := s.ctx[t := OnCpu(c)]);
    assert SchedNext(s, SchedLook(c), u);
    StepOn(s, SchedLook(c), u);
    z := Release(u, PLock(p)).(loc := s.loc[c := Run(t, Body)]);
    assert SwitchNext(u, Land(c), z);
    StepOn(u, Land(c), z);
  }

  /** Two threads of one process run at the same time, and its lock is free. */
  lemma TwoThreadsRun() returns (s: State)
    ensures Reachable(s) && Shape(s) && s.loc[0] == Run(0, Body) && s.loc[1] == Run(1, Body) && Proc(0) == Proc(1)
    ensures s.ts[0] == Running && s.ts[1] == Running && PLock(Proc(0)) !in s.lock
  {
    hide Reachable;
    var a := Boot();
    var b := a.(ts := a.ts[1 := Runnable], ctx := a.ctx[1 := Saved(Forked)]);
    assert FirstFree(a, 0, 1) && ThreadNext(a, ThreadNew(0, 1), b);
    StepOn(a, ThreadNew(0, 1), b);
    var d := b.(loc := b.loc[1 := Scan(0, 0)], lock := map[PLock(0) := 1]);
    assert SchedNext(b, SchedTake(1), d);
    StepOn(b, SchedTake(1), d);
    var e := d.(loc := b.loc[1 := Scan(0, 1)]);
    assert SchedNext(d, SchedLook(1), e);
    StepOn(d, SchedLook(1), e);
    s := StartsRunning(e, 1, 0, 1);
  }

  /** The first process forks process 1, whose only thread is then runnable. */
  lemma Child() returns (s: State)
    ensures Reachable(s) && Shape(s) && s.lock == map[] && s.loc[1] == Idle(0) && s.parent[1] == Some(INIT)
    ensures s.ps[0] == PUsed && s.ps[1] == PUsed && s.exits[1] == 0
    ensures s.ts[8] == Runnable && s.ctx[8] == Saved(Forked)
    ensures forall u | 0 <= u < 16 && u != 8 :: s.ts[u] != Runnable
    ensures forall u | 9 <= u < 16 :: s.ts[u] == Unused && s.ctx[u] == NoCtx
  {
    hide Reachable;
    var a := Boot();
    var b := a.(ps := a.ps[1 := PUsed], ts := a.ts[8 := Used], ctx := a.ctx[8 := Saved(Forked)]);
    assert ForkNext(a, ForkAlloc(0, 1), b);
    StepOn(a, ForkAlloc(0, 1), b);
    var d := b.(parent := b.parent[1 := Some(0)]);
    assert ForkNext(b, ForkParent(0, 1), d);
    StepOn(b, ForkParent(0, 1), d);
    s := d.(ts := d.ts[8 := Runnable]);
    assert ForkNext(d, ForkPublish(0, 1), s);
    StepOn(d, ForkPublish(0, 1), s);
  }

  /** Its only thread calls kthread_exit. The process has not exited and never will. */
  lemma ChildNeverExits() returns (s: State)
    ensures Reachable(s) && Shape(s) && Doomed(s, 1) && s.parent[1] == Some(INIT) && s.exits[1] == 0
  {
    hide Reachable;
    var a := Child();
    var b := a.(loc := a.loc[1 := Scan(0, 0)], lock := map[PLock(0) := 1]);
    assert SchedNext(a, SchedTake(1), b);
    StepOn(a, SchedTake(1), b);
    var d := ScanPast(b, 1, 0, 0);
    var e := d.(loc := a.loc[1 := Idle(1)], lock := map[]);
    assert d.lock - {PLock(0)} == map[];
    assert SchedNext(d, SchedDone(1), e);
    StepOn(d, SchedDone(1), e);
    var f := e.(loc := a.loc[1 := Scan(1, 0)], lock := map[PLock(1) := 1]);
    assert SchedNext(e, SchedTake(1), f);
    StepOn(e, SchedTake(1), f);
    var g := StartsRunning(f, 1, 1, 0);
    s := LeavesAlone(g);
  }

  lemma LeavesAlone(g: State) returns (s: State)
    requires Reachable(g) && Shape(g) && g.loc[1] == Run(8, Body) && PLock(1) !in g.lock && g.ts[8] == Running
    requires g.ps[1] == PUsed && g.ctx[8] == OnCpu(1)
    requires forall u | 9 <= u < 16 :: g.ts[u] == Unused && g.ctx[u] == NoCtx
    ensures Reachable(s) && Shape(s) && Doomed(s, 1) && s.parent == g.parent && s.exits == g.exits
  {
    hide Reachable;
    var h := g.(loc := g.loc[1 := Run(8, EndCall)]);
    assert ThreadNext(g, CallEnd(1), h);
    StepOn(g, CallEnd(1), h);
    s := g.(loc := g.loc[1 := Run(8, EndAcq)]);
    assert h.ts[9] == Unused && Proc(9) == 1;
    assert CountsOther(h, 1, 8);
    assert ThreadNext(h, EndLook(1), s);
    StepOn(h, EndLook(1), s);
    forall u | 0 <= u < NT && Proc(u) == 1
      ensures HasLeft(s, u)
    {
      assert 8 <= u < 16;
    }
  }
}
