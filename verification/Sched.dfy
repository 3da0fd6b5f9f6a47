/** Scheduler hand-off, sleep and wakeup, sleep-locks, exit and wait: kernel/proc.c and
    kernel/sleeplock.c as a machine of CPUs that step between lock operations. */
module Sched {
  import opened Options

  const NCPU: nat := 8
  const NPROC: nat := 64
  const NTHREAD: nat := 8
  const NT: nat := 512                   // NPROC * NTHREAD
  const INIT: nat := 0                   // slot of initproc

  datatype ThreadState = Unused | Used | Sleeping | Runnable | Running | Zombie
  datatype ProcState = PUnused | PUsed | PZombie

  /** What a thread sleeps for: a sleep-lock, or the exit of a child. */
  datatype Waiter = OnLock(l: nat) | OnChild

  /** Sleep channels: the address of a sleep-lock, of a process or of a thread. */
  datatype Chan = NoChan | LockChan(l: nat) | ProcChan(p: nat) | ThreadChan(t: nat)

  datatype Lock = PLock(p: nat) | WaitLock | SLock(l: nat)

  /** Why a thread called sched, or how its first run starts. Exited is the end of a process, Ended
      the end of one thread of it. */
  datatype Why = Yielded(ret: Pc) | Slept(w: Waiter) | Exited | Ended | Forked

  /** What follows a wakeup call. */
  datatype After = Released(l: nat) | Adopted(child: nat) | ToParent(par: Option<nat>) | ToJoiners(t: nat)

  /** Where the running thread is; between two places lies at most one lock operation. */
  datatype Pc =
    | Body
    | Yielding(ret: Pc)                  // in yield, p->lock held
    | Switching(why: Why)                // about to swtch away, p->lock held
    | Landed(why: Why)                   // switched in, p->lock still held
    | SleepAcq(w: Waiter) | SleepRel(w: Waiter) | SleepSet(w: Waiter) | Reacq(w: Waiter)
    | Take(l: nat) | Check(l: nat) | Give(l: nat)
    | Waking(q: nat, k: After)           // in wakeup, next process is q
    | WaitAcq | WaitScan(q: nat, kids: bool)
    | ExitAcq | Reparent(q: nat) | ExitLock | ExitRel
    | EndCall | EndAcq | EndLock | EndRel  // kthread_exit

  /** A CPU is in the scheduler, between processes or in one's thread table, or runs a
      thread. */
  datatype Loc = Idle(p: nat) | Scan(p: nat, i: nat) | Run(t: nat, pc: Pc)

  /** The saved context of a thread; none while it runs on a CPU. */
  datatype Ctx = NoCtx | Saved(why: Why) | OnCpu(c: nat)

  datatype State = State(
    loc: seq<Loc>,
    lock: map<Lock, nat>,                // held spinlocks and the CPU that holds them
    ts: seq<ThreadState>, chan: seq<Chan>, ctx: seq<Ctx>,
    ps: seq<ProcState>, parent: seq<Option<nat>>,
    taken: map<nat, nat>,                // held sleep-locks and the process that holds them
    exits: seq<nat>, reaps: seq<nat>)

  function Proc(t: nat): nat {
    t / NTHREAD
  }

  /** The spinlock that guards what the thread waits for. */
  function Guard(w: Waiter): Lock {
    if w.OnLock? then SLock(w.l) else WaitLock
  }

  function ChanOf(w: Waiter, t: nat): Chan {
    if w.OnLock? then LockChan(w.l) else ProcChan(Proc(t))
  }

  /** Lock held around a wakeup call, and the channel it wakes. */
  function Around(k: After): Lock {
    if k.Released? then SLock(k.l) else WaitLock
  }

  function Woken(k: After): Chan {
    match k
    case Released(l) => LockChan(l)
    case Adopted(_) => ProcChan(INIT)
    case ToParent(par) => if par.Some? then ProcChan(par.value) else NoChan
    case ToJoiners(t) => ThreadChan(t)
  }

  /** The locks a CPU holds at a place of the code. */
  predicate Holds(at: Loc, k: Lock) {
    match at
    case Idle(_) => false
    case Scan(p, _) => k == PLock(p)
    case Run(t, pc) =>
      match pc
      case Yielding(_) => k == PLock(Proc(t))
      case Switching(_) => k == PLock(Proc(t))
      case Landed(_) => k == PLock(Proc(t))
      case SleepAcq(w) => k == Guard(w)
      case SleepRel(w) => k == Guard(w) || k == PLock(Proc(t))
      case SleepSet(w) => k == PLock(Proc(t))
      case Check(l) => k == SLock(l)
      case Waking(_, a) => k == Around(a)
      case WaitScan(_, _) => k == WaitLock
      case Reparent(_) => k == WaitLock
      case ExitLock => k == WaitLock
      case ExitRel => k == WaitLock || k == PLock(Proc(t))
      case EndLock => k == WaitLock
      case EndRel => k == WaitLock || k == PLock(Proc(t))
      case _ => false
  }

  /** State of the thread at a place of the code. */
  function StateAt(pc: Pc): ThreadState {
    match pc
    case Switching(why) => (match why case Yielded(_) => Runnable case Slept(_) => Sleeping case _ => Zombie)
    case ExitRel => Zombie
    case EndRel => Zombie
    case _ => Running
  }

  /** Places without locks, where a timer interrupt may call yield. */
  predicate Open(pc: Pc) {
    pc.Body? || pc.Reacq? || pc.Take? || pc.Give? || pc.WaitAcq? || pc.ExitAcq? || pc.EndCall? || pc.EndAcq?
  }

  // ---------------------------------------------------------------- steps

  predicate Shape(s: State) {
    && |s.loc| == NCPU && |s.ts| == |s.chan| == |s.ctx| == NT
    && |s.ps| == |s.parent| == |s.exits| == |s.reaps| == NPROC
  }

  function Go(s: State, c: nat, pc: Pc): State
    requires c < |s.loc| && s.loc[c].Run?
  {
    s.(loc := s.loc[c := Run(s.loc[c].t, pc)])
  }

  function Acquire(s: State, c: nat, k: Lock): State {
    s.(lock := s.lock[k := c])
  }

  function Release(s: State, k: Lock): State {
    s.(lock := s.lock - {k})
  }

  predicate At(s: State, c: nat, pc: Pc) {
    c < |s.loc| && s.loc[c].Run? && s.loc[c].t < NT && s.loc[c].pc == pc
  }

  predicate Runs(s: State, c: nat) {
    c < |s.loc| && s.loc[c].Run? && s.loc[c].t < NT
  }

  function NextProc(p: nat): nat {
    if p + 1 < NPROC then p + 1 else 0
  }

  /** Every thread of process q asleep on the channel becomes runnable. */
  function WakeProc(s: State, q: nat, ch: Chan): seq<ThreadState>
    requires |s.ts| == |s.chan| == NT
  {
    seq(NT, t requires 0 <= t < NT =>
      if Proc(t) == q && s.ts[t] == Sleeping && s.chan[t] == ch then Runnable else s.ts[t])
  }

  /** Threads of process q other than t have ended or were never started. */
  predicate OthersGone(s: State, q: nat, t: nat)
    requires |s.ts| == NT
  {
    forall u | 0 <= u < NT && Proc(u) == q && u != t :: s.ts[u] == Zombie || s.ts[u] == Unused
  }

  /** What kthread_exit counts as another thread of process q; free slots count too. */
  predicate CountsOther(s: State, q: nat, t: nat)
    requires |s.ts| == NT
  {
    exists u :: 0 <= u < NT && Proc(u) == q && u != t && s.ts[u] != Zombie && s.ts[u] != Used
  }

  /** Slot u is the first free one in the thread table of process q. */
  predicate FirstFree(s: State, q: nat, u: nat)
    requires |s.ts| == NT
  {
    && u < NT && Proc(u) == q && s.ts[u] == Unused
    && forall v | 0 <= v < u && Proc(v) == q :: s.ts[v] != Unused
  }

  /** A field of all threads of process q is reset. */
  function Reset<T>(field: seq<T>, q: nat, x: T): seq<T>
    requires |field| == NT
  {
    seq(NT, t requires 0 <= t < NT => if Proc(t) == q then x else field[t])
  }

  datatype Event =
    | SchedTake(c: nat) | SchedLook(c: nat) | SchedDone(c: nat)
    | Preempt(c: nat) | YieldSet(c: nat) | Switch(c: nat) | Land(c: nat)
    | SleepLock(c: nat) | SleepDrop(c: nat) | SleepGo(c: nat) | ReacqGo(c: nat)
    | CallTake(c: nat, l: nat) | TakeGo(c: nat) | CheckGo(c: nat)
    | CallGive(c: nat, l: nat) | GiveGo(c: nat)
    | WakeStep(c: nat) | WakeEnd(c: nat)
    | CallWait(c: nat) | WaitEnter(c: nat)
    | ScanSkip(c: nat) | ScanReap(c: nat) | ScanFail(c: nat) | ScanEnd(c: nat, killed: bool)
    | CallExit(c: nat) | ExitEnter(c: nat) | ReparentSkip(c: nat) | Adopt(c: nat) | ReparentEnd(c: nat)
    | ExitSet(c: nat) | ExitDrop(c: nat)
    | ForkAlloc(c: nat, np: nat) | ForkParent(c: nat, np: nat) | ForkPublish(c: nat, np: nat)
    | ThreadNew(c: nat, u: nat)
    | CallEnd(c: nat) | EndLook(c: nat) | EndEnter(c: nat) | EndSet(c: nat) | EndDrop(c: nat)

  /** The scheduler loop on one CPU. */
  predicate SchedNext(s: State, e: Event, z: State)
    requires Shape(s)
  {
    match e
    case SchedTake(c) =>
      c < NCPU && s.loc[c].Idle? &&
      var p := s.loc[c].p;
      p < NPROC && PLock(p) !in s.lock &&
      if s.ps[p] == PUsed then z == Acquire(s, c, PLock(p)).(loc := s.loc[c := Scan(p, 0)])
      else z == s.(loc := s.loc[c := Idle(NextProc(p))])
    case SchedLook(c) =>
      c < NCPU && s.loc[c].Scan? &&
      var p, i := s.loc[c].p, s.loc[c].i;
      p < NPROC && i < NTHREAD &&
      var t := p * NTHREAD + i;
      if s.ts[t] != Runnable then z == s.(loc := s.loc[c := Scan(p, i + 1)])
      else
        && s.ctx[t].Saved?
        && z == s.(loc := s.loc[c := Run(t, Landed(s.ctx[t].why))],
                   ts := s.ts[t := Running], ctx := s.ctx[t := OnCpu(c)])
    case SchedDone(c) =>
      c < NCPU && s.loc[c].Scan? && s.loc[c].i == NTHREAD && s.loc[c].p < NPROC &&
      z == Release(s, PLock(s.loc[c].p)).(loc := s.loc[c := Idle(NextProc(s.loc[c].p))])
    case _ => false
  }

  /** yield, sched and sleep. */
  predicate SwitchNext(s: State, e: Event, z: State)
    requires Shape(s)
  {
    match e
    case Preempt(c) =>
      Runs(s, c) && Open(s.loc[c].pc) &&
      var p := PLock(Proc(s.loc[c].t));
      p !in s.lock && z == Go(Acquire(s, c, p), c, Yielding(s.loc[c].pc))
    case YieldSet(c) =>
      Runs(s, c) && s.loc[c].pc.Yielding? &&
      z == Go(s, c, Switching(Yielded(s.loc[c].pc.ret))).(ts := s.ts[s.loc[c].t := Runnable])
    case Switch(c) =>
      Runs(s, c) && s.loc[c].pc.Switching? &&
      var t := s.loc[c].t;
      z == s.(loc := s.loc[c := Scan(Proc(t), t % NTHREAD + 1)], ctx := s.ctx[t := Saved(s.loc[c].pc.why)])
    case Land(c) =>
      Runs(s, c) && s.loc[c].pc.Landed? &&
      var t, why := s.loc[c].t, s.loc[c].pc.why;
      var u := Release(s, PLock(Proc(t)));
      (match why
       case Yielded(ret) => z == Go(u, c, ret)
       case Slept(w) => z == Go(u, c, Reacq(w)).(chan := s.chan[t := NoChan])
       case _ => z == Go(u, c, Body))
    case SleepLock(c) =>
      Runs(s, c) && s.loc[c].pc.SleepAcq? &&
      var p := PLock(Proc(s.loc[c].t));
      p !in s.lock && z == Go(Acquire(s, c, p), c, SleepRel(s.loc[c].pc.w))
    case SleepDrop(c) =>
      Runs(s, c) && s.loc[c].pc.SleepRel? &&
      z == Go(Release(s, Guard(s.loc[c].pc.w)), c, SleepSet(s.loc[c].pc.w))
    case SleepGo(c) =>
      Runs(s, c) && s.loc[c].pc.SleepSet? &&
      var t, w := s.loc[c].t, s.loc[c].pc.w;
      z == Go(s, c, Switching(Slept(w))).(ts := s.ts[t := Sleeping], chan := s.chan[t := ChanOf(w, t)])
    case ReacqGo(c) =>
      Runs(s, c) && s.loc[c].pc.Reacq? &&
      var w := s.loc[c].pc.w;
      Guard(w) !in s.lock &&
      z == Go(Acquire(s, c, Guard(w)), c, if w.OnLock? then Check(w.l) else WaitScan(0, false))
    case _ => false
  }

  /** acquiresleep, releasesleep and wakeup. */
  predicate LockNext(s: State, e: Event, z: State)
    requires Shape(s)
  {
    match e
    case CallTake(c, l) => At(s, c, Body) && z == Go(s, c, Take(l))
    case TakeGo(c) =>
      Runs(s, c) && s.loc[c].pc.Take? &&
      var l := s.loc[c].pc.l;
      SLock(l) !in s.lock && z == Go(Acquire(s, c, SLock(l)), c, Check(l))
    case CheckGo(c) =>
      Runs(s, c) && s.loc[c].pc.Check? &&
      var l := s.loc[c].pc.l;
      if l in s.taken then z == Go(s, c, SleepAcq(OnLock(l)))
      else z == Go(Release(s, SLock(l)), c, Body).(taken := s.taken[l := Proc(s.loc[c].t)])
    case CallGive(c, l) =>
      At(s, c, Body) && l in s.taken && s.taken[l] == Proc(s.loc[c].t) && z == Go(s, c, Give(l))
    case GiveGo(c) =>
      Runs(s, c) && s.loc[c].pc.Give? &&
      var l := s.loc[c].pc.l;
      SLock(l) !in s.lock && z == Go(Acquire(s, c, SLock(l)), c, Waking(0, Released(l))).(taken := s.taken - {l})
    case WakeStep(c) =>
      Runs(s, c) && s.loc[c].pc.Waking? && s.loc[c].pc.q < NPROC &&
      var q, k := s.loc[c].pc.q, s.loc[c].pc.k;
      PLock(q) !in s.lock && z == Go(s, c, Waking(q + 1, k)).(ts := WakeProc(s, q, Woken(k)))
    case WakeEnd(c) =>
      Runs(s, c) && s.loc[c].pc.Waking? && s.loc[c].pc.q == NPROC &&
      (match s.loc[c].pc.k
       case Released(l) => z == Go(Release(s, SLock(l)), c, Body)
       case Adopted(q) => z == Go(s, c, Reparent(q + 1))
       case ToParent(_) => z == Go(s, c, ExitLock)
       case ToJoiners(_) => z == Go(s, c, EndLock))
    case _ => false
  }

  /** wait. */
  predicate WaitNext(s: State, e: Event, z: State)
    requires Shape(s)
  {
    match e
    case CallWait(c) => At(s, c, Body) && z == Go(s, c, WaitAcq)
    case WaitEnter(c) =>
      At(s, c, WaitAcq) && WaitLock !in s.lock && z == Go(Acquire(s, c, WaitLock), c, WaitScan(0, false))
    case ScanSkip(c) =>
      Runs(s, c) && s.loc[c].pc.WaitScan? && s.loc[c].pc.q < NPROC &&
      var q, kids := s.loc[c].pc.q, s.loc[c].pc.kids;
      if s.parent[q] != Some(Proc(s.loc[c].t)) then z == Go(s, c, WaitScan(q + 1, kids))
      else PLock(q) !in s.lock && s.ps[q] != PZombie && z == Go(s, c, WaitScan(q + 1, true))
    case ScanReap(c) =>
      CanReap(s, c) &&
      var q := s.loc[c].pc.q;
      z == Go(Release(s, WaitLock), c, Body).(
           ps := s.ps[q := PUnused], parent := s.parent[q := None], reaps := s.reaps[q := s.reaps[q] + 1],
           ts := Reset(s.ts, q, Unused), chan := Reset(s.chan, q, NoChan), ctx := Reset(s.ctx, q, NoCtx))
    case ScanFail(c) => CanReap(s, c) && z == Go(Release(s, WaitLock), c, Body)
    case ScanEnd(c, killed) =>
      Runs(s, c) && s.loc[c].pc.WaitScan? && s.loc[c].pc.q == NPROC &&
      if !s.loc[c].pc.kids || killed then z == Go(Release(s, WaitLock), c, Body)
      else z == Go(s, c, SleepAcq(OnChild))
    case _ => false
  }

  /** wait has found an exited child whose lock it can take. */
  predicate CanReap(s: State, c: nat)
    requires Shape(s)
  {
    && Runs(s, c) && s.loc[c].pc.WaitScan? && s.loc[c].pc.q < NPROC
    && s.parent[s.loc[c].pc.q] == Some(Proc(s.loc[c].t))
    && PLock(s.loc[c].pc.q) !in s.lock && s.ps[s.loc[c].pc.q] == PZombie
  }

  /** exit and reparent. */
  predicate ExitNext(s: State, e: Event, z: State)
    requires Shape(s)
  {
    match e
    case CallExit(c) => At(s, c, Body) && Proc(s.loc[c].t) != INIT && z == Go(s, c, ExitAcq)
    case ExitEnter(c) =>
      At(s, c, ExitAcq) && OthersGone(s, Proc(s.loc[c].t), s.loc[c].t) && WaitLock !in s.lock &&
      z == Go(Acquire(s, c, WaitLock), c, Reparent(0))
    case ReparentSkip(c) =>
      Runs(s, c) && s.loc[c].pc.Reparent? && s.loc[c].pc.q < NPROC &&
      s.parent[s.loc[c].pc.q] != Some(Proc(s.loc[c].t)) &&
      z == Go(s, c, Reparent(s.loc[c].pc.q + 1))
    case Adopt(c) =>
      Runs(s, c) && s.loc[c].pc.Reparent? && s.loc[c].pc.q < NPROC &&
      s.parent[s.loc[c].pc.q] == Some(Proc(s.loc[c].t)) &&
      z == Go(s, c, Waking(0, Adopted(s.loc[c].pc.q))).(parent := s.parent[s.loc[c].pc.q := Some(INIT)])
    case ReparentEnd(c) =>
      Runs(s, c) && s.loc[c].pc.Reparent? && s.loc[c].pc.q == NPROC &&
      z == Go(s, c, Waking(0, ToParent(s.parent[Proc(s.loc[c].t)])))
    case ExitSet(c) =>
      At(s, c, ExitLock) &&
      var t := s.loc[c].t;
      var p := Proc(t);
      PLock(p) !in s.lock &&
      z == Go(Acquire(s, c, PLock(p)), c, ExitRel).(
           ts := s.ts[t := Zombie], ps := s.ps[p := PZombie], exits := s.exits[p := s.exits[p] + 1])
    case ExitDrop(c) => At(s, c, ExitRel) && z == Go(Release(s, WaitLock), c, Switching(Exited))
    case _ => false
  }

  /** fork: taking a slot, naming its parent, making its thread runnable. */
  predicate ForkNext(s: State, e: Event, z: State)
    requires Shape(s)
  {
    match e
    case ForkAlloc(c, np) =>
      At(s, c, Body) && np < NPROC && PLock(np) !in s.lock && s.ps[np] == PUnused &&
      var t := np * NTHREAD;
      z == s.(ps := s.ps[np := PUsed], ts := s.ts[t := Used], ctx := s.ctx[t := Saved(Forked)])
    case ForkParent(c, np) =>
      At(s, c, Body) && np < NPROC && WaitLock !in s.lock && s.ps[np] == PUsed && s.ts[np * NTHREAD] == Used &&
      z == s.(parent := s.parent[np := Some(Proc(s.loc[c].t))])
    case ForkPublish(c, np) =>
      At(s, c, Body) && np < NPROC && PLock(np) !in s.lock && s.ts[np * NTHREAD] == Used && s.parent[np].Some? &&
      z == s.(ts := s.ts[np * NTHREAD := Runnable])
    case _ => false
  }

  /** kthread_create: a further thread of the running process, in the first free slot; and
      kthread_exit: the end of one thread, or of the process when no other slot counts. */
  predicate ThreadNext(s: State, e: Event, z: State)
    requires Shape(s)
  {
    match e
    case ThreadNew(c, u) =>
      At(s, c, Body) && PLock(Proc(s.loc[c].t)) !in s.lock && FirstFree(s, Proc(s.loc[c].t), u) &&
      z == s.(ts := s.ts[u := Runnable], ctx := s.ctx[u := Saved(Forked)])
    case CallEnd(c) => At(s, c, Body) && z == Go(s, c, EndCall)
    case EndLook(c) =>
      At(s, c, EndCall) &&
      var t := s.loc[c].t;
      PLock(Proc(t)) !in s.lock &&
      if CountsOther(s, Proc(t), t) then z == Go(s, c, EndAcq)
      else Proc(t) != INIT && z == Go(s, c, ExitAcq)
    case EndEnter(c) =>
      At(s, c, EndAcq) && WaitLock !in s.lock &&
      z == Go(Acquire(s, c, WaitLock), c, Waking(0, ToJoiners(s.loc[c].t)))
    case EndSet(c) =>
      At(s, c, EndLock) &&
      var t := s.loc[c].t;
      PLock(Proc(t)) !in s.lock &&
      z == Go(Acquire(s, c, PLock(Proc(t))), c, EndRel).(ts := s.ts[t := Zombie])
    case EndDrop(c) => At(s, c, EndRel) && z == Go(Release(s, WaitLock), c, Switching(Ended))
    case _ => false
  }

  predicate Next(s: State, e: Event, z: State)
    requires Shape(s)
  {
    || SchedNext(s, e, z) || SwitchNext(s, e, z) || LockNext(s, e, z) || WaitNext(s, e, z)
    || ExitNext(s, e, z) || ForkNext(s, e, z) || ThreadNext(s, e, z)
  }
}
