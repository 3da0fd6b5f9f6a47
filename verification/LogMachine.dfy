/** Concurrent use of the log: any number of file-system operations, the single
    block writes of group commit, and crashes at every point, recovery included. */
module LogMachine {
  import opened Blocks
  import opened Log

  /** One logged block update, tagged with the operation that made it. */
  datatype Update = Update(op: nat, block: nat, data: Block)

  /** An operation between begin_op and end_op, or past it, with the number of
      blocks it has added to the log. Operation ids are indices and never reused. */
  datatype Op = Op(live: bool, used: nat)

  datatype Phase =
    | Running
    | Committing(base: Disk, k: nat)  // k block writes of commit() done
    | Recovering(base: Disk, k: nat)  // k block writes of recovery done

  datatype State = State(
    origin: Disk,          // logical contents at first boot
    disk: Disk,
    cache: Disk,
    lh: seq<nat>,          // in-memory log header
    ops: seq<Op>,
    phase: Phase,
    history: seq<Update>,  // every log_write that has not been lost in a crash
    durable: nat)          // how many of them are committed

  datatype Event =
    | Begin
    | Write(op: nat, block: nat, data: Block)
    | End(op: nat)
    | CommitStep
    | CommitDone
    | Crash
    | RecoverStep
    | RecoverDone

  ghost function Outstanding(ops: seq<Op>): (c: nat)
  {
    if ops == [] then 0
    else Outstanding(ops[..|ops| - 1]) + if ops[|ops| - 1].live then 1 else 0
  }

  /** Log space promised to live operations and not yet used by them. */
  ghost function Reserved(ops: seq<Op>): int
  {
    if ops == [] then 0
    else
      var last := ops[|ops| - 1];
      Reserved(ops[..|ops| - 1]) + if last.live then MAXOPBLOCKS - last.used else 0
  }

  /** Contents after the given updates, in order. */
  ghost function Replay(d: Disk, h: seq<Update>): (r: Disk)
    ensures |r| == |d|
  {
    if h == [] then d
    else
      var e, u := Replay(d, h[..|h| - 1]), h[|h| - 1];
      if u.block < |d| then e[u.block := u.data] else e
  }

  ghost predicate Init(l: Layout, s: State) {
    && Sound(l, s.disk)
    && |s.origin| == |s.cache| == l.nblocks
    && (forall b: nat | l.Home(b) :: s.origin[b] == Logical(l, s.disk, b))
    && s.lh == [] && s.ops == [] && s.history == [] && s.durable == 0
    && s.phase == Recovering(s.disk, 0)
  }

  /** A call of log_write that keeps to the contract with begin_op: from inside the
      operation, on a home block, adding at most MAXOPBLOCKS blocks to the log. */
  ghost predicate Disciplined(l: Layout, s: State, op: nat, b: nat) {
    && s.phase == Running
    && op < |s.ops|
    && s.ops[op].live
    && l.Home(b)
    && (b in s.lh || s.ops[op].used < MAXOPBLOCKS)
  }

  /** log_write's "too big a transaction" test. */
  ghost predicate LogFull(l: Layout, s: State) {
    |s.lh| >= LOGSIZE || |s.lh| >= l.size - 1
  }

  ghost predicate Next(l: Layout, s: State, ev: Event, t: State)
    requires l.Valid() && Inv(l, s)
  {
    match ev
    case Begin =>
      && s.phase == Running
      && |s.lh| + (Outstanding(s.ops) + 1) * MAXOPBLOCKS <= LOGSIZE
      && t == s.(ops := s.ops + [Op(true, 0)])
    case Write(op, b, data) =>
      && Disciplined(l, s, op, b)
      && !LogFull(l, s)
      && t == s.(cache := s.cache[b := data],
                 history := s.history + [Update(op, b, data)],
                 lh := if b in s.lh then s.lh else s.lh + [b],
                 ops := if b in s.lh then s.ops else s.ops[op := Op(true, s.ops[op].used + 1)])
    case End(op) =>
      && s.phase == Running
      && op < |s.ops| && s.ops[op].live
      && var ops := s.ops[op := s.ops[op].(live := false)];
         t == s.(ops := ops, phase := if Outstanding(ops) == 0 && s.lh != [] then Committing(s.disk, 0) else Running)
    case CommitStep =>
      && s.phase.Committing?
      && s.phase.k < 2 * |s.lh| + 2
      && t == s.(disk := CommitDisk(l, s.phase.base, s.lh, s.cache, s.phase.k + 1),
                 phase := Committing(s.phase.base, s.phase.k + 1),
                 durable := if s.phase.k == |s.lh| then |s.history| else s.durable)
    case CommitDone =>
      && s.phase.Committing?
      && s.phase.k == 2 * |s.lh| + 2
      && t == s.(phase := Running, lh := [])
    case Crash =>
      t == s.(history := s.history[..s.durable], lh := [],
              ops := seq(|s.ops|, _ => Op(false, 0)), phase := Recovering(s.disk, 0))
    case RecoverStep =>
      && s.phase.Recovering?
      && s.phase.k <= |DiskHeader(l, s.phase.base)|
      && t == s.(disk := RecoverDisk(l, s.phase.base, s.phase.k + 1),
                 phase := Recovering(s.phase.base, s.phase.k + 1))
    case RecoverDone =>
      && s.phase.Recovering?
      && s.phase.k == |DiskHeader(l, s.phase.base)| + 1
      && t == s.(phase := Running, cache := s.disk)
  }

  // ---------------------------------------------------------------- invariant

  ghost predicate Shape(l: Layout, s: State) {
    && l.Valid()
    && |s.origin| == |s.cache| == |s.disk| == l.nblocks
    && Sound(l, s.disk)
    && s.durable <= |s.history|
    && (forall i | 0 <= i < |s.history| :: l.Home(s.history[i].block) && s.history[i].op < |s.ops|)
  }

  /** The disk, recovered now, holds exactly the durable updates. */
  ghost predicate Recoverable(l: Layout, s: State)
    requires Shape(l, s)
  {
    forall b: nat | l.Home(b) :: Logical(l, s.disk, b) == Replay(s.origin, s.history[..s.durable])[b]
  }

  /** No operation is split by the durability boundary, and none that is already
      durable is still running. */
  ghost predicate WholeOps(s: State)
    requires s.durable <= |s.history|
    requires forall i | 0 <= i < |s.history| :: s.history[i].op < |s.ops|
  {
    && (forall i, j | 0 <= i < s.durable <= j < |s.history| :: s.history[i].op != s.history[j].op)
    && (forall i | 0 <= i < s.durable :: !s.ops[s.history[i].op].live)
  }

  ghost predicate CacheCurrent(l: Layout, s: State)
    requires Shape(l, s)
  {
    forall b: nat | l.Home(b) :: s.cache[b] == Replay(s.origin, s.history)[b]
  }

  ghost predicate Idle(ops: seq<Op>) {
    forall i | 0 <= i < |ops| :: !ops[i].live
  }

  /** Logged blocks plus promised blocks never exceed the log. */
  ghost predicate Reservation(s: State) {
    && |s.lh| + Reserved(s.ops) <= LOGSIZE
    && forall i | 0 <= i < |s.ops| :: s.ops[i].used <= MAXOPBLOCKS
  }

  ghost predicate PhaseInv(l: Layout, s: State)
    requires Shape(l, s)
  {
    match s.phase
    case Running =>
      && DiskHeader(l, s.disk) == []
      && l.Fits(s.lh)
      && CacheCurrent(l, s)
      && (forall b: nat | l.Home(b) && b !in s.lh :: s.cache[b] == s.disk[b])
      && Reservation(s)
      && (s.lh == [] ==> s.durable == |s.history|)
    case Committing(base, k) =>
      && Sound(l, base) && DiskHeader(l, base) == []
      && l.Fits(s.lh) && s.lh != []
      && k <= 2 * |s.lh| + 2
      && s.disk == CommitDisk(l, base, s.lh, s.cache, k)
      && CacheCurrent(l, s)
      && (forall b: nat | l.Home(b) && b !in s.lh :: s.cache[b] == base[b])
      && Idle(s.ops)
      && Reservation(s)
      && (k > |s.lh| ==> s.durable == |s.history|)
    case Recovering(base, k) =>
      && Sound(l, base)
      && k <= |DiskHeader(l, base)| + 1
      && s.disk == RecoverDisk(l, base, k)
      && Idle(s.ops)
      && s.lh == []
      && Reservation(s)
      && s.durable == |s.history|
  }

  ghost predicate Inv(l: Layout, s: State) {
    && Shape(l, s)
    && Recoverable(l, s)
    && WholeOps(s)
    && PhaseInv(l, s)
  }

  // ---------------------------------------------------------------- counting

  ghost function Share(o: Op): int {
    if o.live then MAXOPBLOCKS - o.used else 0
  }

  lemma {:induction false} ReservedUpdate(ops: seq<Op>, i: nat, o: Op)
    requires i < |ops|
    ensures Reserved(ops[i := o]) == Reserved(ops) - Share(ops[i]) + Share(o)
  {
    var n := |ops| - 1;
    var upd := ops[i := o];
    if i < n {
      ReservedUpdate(ops[..n], i, o);
      assert upd[..n] == ops[..n][i := o];
    } else {
      assert upd[..n] == ops[..n];
    }
  }

  lemma {:induction false} ReservedBound(ops: seq<Op>)
    ensures Reserved(ops) <= Outstanding(ops) * MAXOPBLOCKS
  {
    if ops != [] {
      ReservedBound(ops[..|ops| - 1]);
    }
  }

  lemma {:induction false} IdleReservesNothing(ops: seq<Op>)
    requires Idle(ops)
    ensures Reserved(ops) == 0 && Outstanding(ops) == 0
  {
    if ops != [] {
      IdleReservesNothing(ops[..|ops| - 1]);
    }
  }

  lemma {:induction false} NoneOutstanding(ops: seq<Op>)
    requires Outstanding(ops) == 0
    ensures Idle(ops)
  {
    if ops != [] {
      NoneOutstanding(ops[..|ops| - 1]);
    }
  }

  /** A live operation's unused share is part of what is reserved. */
  lemma {:induction false} ShareReserved(ops: seq<Op>, i: nat)
    requires i < |ops| && ops[i].live
    requires forall j | 0 <= j < |ops| :: ops[j].used <= MAXOPBLOCKS
    ensures MAXOPBLOCKS - ops[i].used <= Reserved(ops)
  {
    ReservedUpdate(ops, i, Op(false, 0));
    NonNegative(ops[i := Op(false, 0)]);
  }

  lemma {:induction false} NonNegative(ops: seq<Op>)
    requires forall j | 0 <= j < |ops| :: ops[j].used <= MAXOPBLOCKS
    ensures 0 <= Reserved(ops)
  {
    if ops != [] {
      NonNegative(ops[..|ops| - 1]);
    }
  }

  // ---------------------------------------------------------------- every step keeps the invariant

  lemma InitInv(l: Layout, s: State)
    requires l.Valid() && Init(l, s)
    ensures Inv(l, s)
  {
  }

  lemma BeginKeeps(l: Layout, s: State, t: State)
    requires l.Valid() && Inv(l, s) && Next(l, s, Begin, t)
    ensures Inv(l, t)
  {
    hide Word, Header, Sound, Logical;
    ReservedBound(s.ops);
    assert t.ops[..|t.ops| - 1] == s.ops;
    assert Reserved(t.ops) == Reserved(s.ops) + MAXOPBLOCKS;
  }

  lemma WriteKeeps(l: Layout, s: State, op: nat, b: nat, data: Block, t: State)
    requires l.Valid() && Inv(l, s) && Next(l, s, Write(op, b, data), t)
    ensures Inv(l, t)
  {
    hide Word, Header, Sound, Logical;
    assert t.history[..|t.history| - 1] == s.history;
    assert t.history[..t.durable] == s.history[..s.durable];
    WriteKeepsReservation(l, s, op, b, data, t);
    WriteKeepsCache(l, s, op, b, data, t);
  }

  lemma WriteKeepsReservation(l: Layout, s: State, op: nat, b: nat, data: Block, t: State)
    requires l.Valid() && Inv(l, s) && Next(l, s, Write(op, b, data), t)
    ensures Reservation(t)
  {
    hide Word, Header, Logical;
    if b !in s.lh {
      ReservedUpdate(s.ops, op, t.ops[op]);
    }
  }

  lemma WriteKeepsCache(l: Layout, s: State, op: nat, b: nat, data: Block, t: State)
    requires l.Valid() && Inv(l, s) && Next(l, s, Write(op, b, data), t) && Shape(l, t)
    ensures CacheCurrent(l, t)
    ensures l.Fits(t.lh)
    ensures forall c: nat | l.Home(c) && c !in t.lh :: t.cache[c] == t.disk[c]
  {
    hide Word, Header, Logical;
    assert t.history[..|t.history| - 1] == s.history;
    forall c: nat | l.Home(c) && c !in t.lh
      ensures t.cache[c] == t.disk[c]
    {
      assert c !in s.lh;
    }
  }

  lemma EndKeeps(l: Layout, s: State, op: nat, t: State)
    requires l.Valid() && Inv(l, s) && Next(l, s, End(op), t)
    ensures Inv(l, t)
  {
    hide Word, Header, Sound, Logical;
    ReservedUpdate(s.ops, op, t.ops[op]);
    ShareReserved(s.ops, op);
    if t.phase.Committing? {
      NoneOutstanding(t.ops);
    }
  }

  lemma CommitStepKeeps(l: Layout, s: State, t: State)
    requires l.Valid() && Inv(l, s) && Next(l, s, CommitStep, t)
    ensures Inv(l, t)
  {
    hide Word, Header, CommitDisk, Logical;
    CommitStepLogical(l, s, s.lh[0]);
    CommitStepRecoverable(l, s, t);
  }

  lemma CommitStepRecoverable(l: Layout, s: State, t: State)
    requires l.Valid() && Inv(l, s) && Next(l, s, CommitStep, t) && Shape(l, t)
    ensures Recoverable(l, t)
  {
    hide Word, Header, CommitDisk, Logical;
    forall b: nat | l.Home(b)
      ensures Logical(l, t.disk, b) == Replay(t.origin, t.history[..t.durable])[b]
    {
      CommitStepLogical(l, s, b);
    }
  }

  lemma CommitStepLogical(l: Layout, s: State, b: nat)
    requires l.Valid() && Inv(l, s) && s.phase.Committing? && s.phase.k < 2 * |s.lh| + 2 && l.Home(b)
    ensures var e := CommitDisk(l, s.phase.base, s.lh, s.cache, s.phase.k + 1);
      && Sound(l, e)
      && Logical(l, e, b) ==
         if s.phase.k >= |s.lh| then Replay(s.origin, s.history)[b] else Replay(s.origin, s.history[..s.durable])[b]
    ensures s.history[..|s.history|] == s.history
  {
    hide Word, Header, CommitDisk, Logical;
    CommitAtomic(l, s.phase.base, s.lh, s.cache, s.phase.k + 1, b);
    CommitAtomic(l, s.phase.base, s.lh, s.cache, s.phase.k, b);
  }

  lemma CommitDoneKeeps(l: Layout, s: State, t: State)
    requires l.Valid() && Inv(l, s) && Next(l, s, CommitDone, t)
    ensures Inv(l, t)
  {
    hide Word, Header, CommitDisk, Logical;
    var base := s.phase.base;
    IdleReservesNothing(s.ops);
    forall b: nat | l.Home(b)
      ensures t.cache[b] == t.disk[b] && DiskHeader(l, t.disk) == []
    {
      CommitFinished(l, base, s.lh, s.cache, b);
    }
    assert DiskHeader(l, t.disk) == [] by {
      assert l.Home(s.lh[0]);
    }
  }

  lemma CrashKeeps(l: Layout, s: State, t: State)
    requires l.Valid() && Inv(l, s) && Next(l, s, Crash, t)
    ensures Inv(l, t)
  {
    hide Word, Header, Sound, Logical;
    assert t.history[..t.durable] == s.history[..s.durable];
    IdleReservesNothing(t.ops);
  }

  lemma RecoverStepKeeps(l: Layout, s: State, t: State)
    requires l.Valid() && Inv(l, s) && Next(l, s, RecoverStep, t)
    ensures Inv(l, t)
  {
    hide Word, Header, RecoverDisk, Logical;
    RecoveryRestartable(l, s.phase.base, s.phase.k);
    RecoveryRestartable(l, s.phase.base, s.phase.k + 1);
  }

  lemma RecoverDoneKeeps(l: Layout, s: State, t: State)
    requires l.Valid() && Inv(l, s) && Next(l, s, RecoverDone, t)
    ensures Inv(l, t)
  {
    hide Word, Header, RecoverDisk, Logical;
    assert s.history[..s.durable] == s.history;
    RecoveryRestartable(l, s.phase.base, s.phase.k);
    forall b: nat | l.Home(b)
      ensures t.disk[b] == Logical(l, t.disk, b)
    {
      RecoveryCompletes(l, s.phase.base, b);
    }
    RecoveryEmptiesLog(l, s.phase.base);
    IdleReservesNothing(s.ops);
  }

  lemma NextKeeps(l: Layout, s: State, ev: Event, t: State)
    requires l.Valid() && Inv(l, s) && Next(l, s, ev, t)
    ensures Inv(l, t)
  {
    match ev
    case Begin => BeginKeeps(l, s, t);
    case Write(op, b, data) => WriteKeeps(l, s, op, b, data, t);
    case End(op) => EndKeeps(l, s, op, t);
    case CommitStep => CommitStepKeeps(l, s, t);
    case CommitDone => CommitDoneKeeps(l, s, t);
    case Crash => CrashKeeps(l, s, t);
    case RecoverStep => RecoverStepKeeps(l, s, t);
    case RecoverDone => RecoverDoneKeeps(l, s, t);
  }

  // ---------------------------------------------------------------- runs

  /** The states a machine started in run[0] passes through on the given events. */
  ghost predicate Run(l: Layout, run: seq<State>, evs: seq<Event>)
    requires l.Valid()
  {
    && |run| == |evs| + 1
    && Init(l, run[0])
    && forall i | 0 <= i < |evs| :: Inv(l, run[i]) ==> Next(l, run[i], evs[i], run[i + 1])
  }

  ghost function Final(run: seq<State>): State
    requires run != []
  {
    run[|run| - 1]
  }

  lemma {:induction false} RunInv(l: Layout, run: seq<State>, evs: seq<Event>, i: nat)
    requires l.Valid() && Run(l, run, evs) && i < |run|
    ensures Inv(l, run[i])
  {
    if i == 0 {
      InitInv(l, run[0]);
    } else {
      RunInv(l, run, evs, i - 1);
      NextKeeps(l, run[i - 1], evs[i - 1], run[i]);
    }
  }

  /** Crash safety of the whole system: at every point of every run, including
      points inside commit and inside recovery, recovering the disk would give
      exactly the updates of the operations committed so far, each operation's
      updates being all there or all absent. */
  lemma CrashSafety(l: Layout, run: seq<State>, evs: seq<Event>, i: nat, b: nat)
    requires l.Valid() && Run(l, run, evs) && i < |run| && l.Home(b)
    ensures Inv(l, run[i])
    ensures var s := run[i];
      && RecoverDisk(l, s.disk, |DiskHeader(l, s.disk)| + 1)[b] == Replay(s.origin, s.history[..s.durable])[b]
      && forall j, k | 0 <= j < s.durable <= k < |s.history| :: s.history[j].op != s.history[k].op
  {
    RunInv(l, run, evs, i);
    RecoveryCompletes(l, run[i].disk, b);
  }

  /** Durability: whenever the log is running and empty, which is how end_op leaves
      it after a commit, nothing written so far can be lost by a crash. */
  lemma CommittedIsDurable(l: Layout, run: seq<State>, evs: seq<Event>, i: nat, b: nat)
    requires l.Valid() && Run(l, run, evs) && i < |run| && l.Home(b)
    requires run[i].phase == Running && run[i].lh == []
    ensures Inv(l, run[i])
    ensures run[i].disk[b] == run[i].cache[b] == Replay(run[i].origin, run[i].history)[b]
    ensures run[i].durable == |run[i].history|
  {
    RunInv(l, run, evs, i);
  }

  // ---------------------------------------------------------------- when the log can overflow

  /** The i-th home block. */
  ghost function NthHome(l: Layout, i: nat): nat {
    if i < l.start then i else i + l.size
  }

  ghost function Clamp(x: int): nat {
    if x < 0 then 0 else if x > MAXOPBLOCKS then MAXOPBLOCKS else x
  }

  /** Three operations that have together logged the first m home blocks. */
  ghost predicate ThreeOps(l: Layout, s: State, m: nat) {
    && s.phase == Running
    && |s.lh| == m && (forall i | 0 <= i < m :: s.lh[i] == NthHome(l, i))
    && s.ops == [Op(true, Clamp(m)), Op(true, Clamp(m - 10)), Op(true, Clamp(m - 20))]
  }

  lemma Extend(l: Layout, run: seq<State>, evs: seq<Event>, ev: Event, t: State)
      returns (run': seq<State>, evs': seq<Event>)
    requires l.Valid() && Run(l, run, evs)
    requires Inv(l, Final(run)) && Next(l, Final(run), ev, t)
    ensures Run(l, run', evs') && Final(run') == t && Inv(l, t)
  {
    run', evs' := run + [t], evs + [ev];
    NextKeeps(l, Final(run), ev, t);
  }

  lemma FirstBoot(l: Layout) returns (run: seq<State>, evs: seq<Event>)
    requires l.Valid()
    ensures Run(l, run, evs)
    ensures var s := Final(run);
      Inv(l, s) && s.phase == Running && s.lh == [] && s.ops == []
  {
    var d: Disk := seq(l.nblocks, _ => ZeroBlock());
    ZeroWords(0);
    assert Header(d[l.start]) == [];
    var s0 := State(d, d, d, [], [], Recovering(d, 0), [], 0);
    assert Init(l, s0);
    run, evs := [s0], [];
    InitInv(l, s0);
    var s1 := s0.(disk := RecoverDisk(l, d, 1), phase := Recovering(d, 1));
    run, evs := Extend(l, run, evs, RecoverStep, s1);
    run, evs := Extend(l, run, evs, RecoverDone, s1.(phase := Running, cache := s1.disk));
  }

  lemma ThreeBegins(l: Layout) returns (run: seq<State>, evs: seq<Event>)
    requires l.Valid()
    ensures Run(l, run, evs) && Inv(l, Final(run)) && ThreeOps(l, Final(run), 0)
  {
    run, evs := FirstBoot(l);
    var s := Final(run);
    var s1 := s.(ops := s.ops + [Op(true, 0)]);
    run, evs := Extend(l, run, evs, Begin, s1);
    assert s1.ops[..0] == [];
    var s2 := s1.(ops := s1.ops + [Op(true, 0)]);
    run, evs := Extend(l, run, evs, Begin, s2);
    assert s2.ops[..1] == s1.ops;
    run, evs := Extend(l, run, evs, Begin, s2.(ops := s2.ops + [Op(true, 0)]));
  }

  /** A real run can fill the log up to either of its limits. */
  lemma {:induction false} FillLog(l: Layout, m: nat) returns (run: seq<State>, evs: seq<Event>)
    requires l.Valid() && l.nblocks - l.size >= LOGSIZE && m <= LOGSIZE && m < l.size
    ensures Run(l, run, evs) && Inv(l, Final(run)) && ThreeOps(l, Final(run), m)
  {
    hide Word, Header, Logical;
    if m == 0 {
      run, evs := ThreeBegins(l);
    } else {
      run, evs := FillLog(l, m - 1);
      var s := Final(run);
      var op := if m <= 10 then 0 else if m <= 20 then 1 else 2;
      FillOne(l, s, m - 1, op, ZeroBlock());
      run, evs := Extend(l, run, evs, Write(op, NthHome(l, m - 1), ZeroBlock()),
                         AfterFill(l, s, m - 1, op, ZeroBlock()));
    }
  }

  ghost function AfterFill(l: Layout, s: State, m: nat, op: nat, data: Block): State
    requires Inv(l, s) && ThreeOps(l, s, m) && op < 3 && l.Home(NthHome(l, m))
  {
    var b := NthHome(l, m);
    s.(cache := s.cache[b := data],
       history := s.history + [Update(op, b, data)],
       lh := s.lh + [b],
       ops := s.ops[op := Op(true, s.ops[op].used + 1)])
  }

  lemma FillOne(l: Layout, s: State, m: nat, op: nat, data: Block)
    requires l.Valid() && l.nblocks - l.size >= LOGSIZE && m < LOGSIZE && m + 1 < l.size
    requires op == if m < 10 then 0 else if m < 20 then 1 else 2
    requires Inv(l, s) && ThreeOps(l, s, m)
    ensures l.Home(NthHome(l, m)) && NthHome(l, m) !in s.lh
    ensures Next(l, s, Write(op, NthHome(l, m), data), AfterFill(l, s, m, op, data))
    ensures ThreeOps(l, AfterFill(l, s, m, op, data), m + 1)
  {
    hide Word, Header, Logical;
  }

  /** If the run ends with a log_write that keeps the contract and needs a new
      slot, that log_write does not panic. */
  ghost predicate AppendFits(l: Layout, run: seq<State>, evs: seq<Event>, op: nat, b: nat)
    requires l.Valid()
  {
    Run(l, run, evs) && Disciplined(l, Final(run), op, b) && b !in Final(run).lh ==> !LogFull(l, Final(run))
  }

  ghost predicate AppendsFit(l: Layout)
    requires l.Valid()
  {
    forall run: seq<State>, evs: seq<Event>, op: nat, b: nat :: AppendFits(l, run, evs, op, b)
  }

  lemma AppendHasSlot(l: Layout, s: State, op: nat, b: nat)
    requires l.Valid() && Inv(l, s) && Disciplined(l, s, op, b) && b !in s.lh
    ensures |s.lh| < LOGSIZE
  {
    ShareReserved(s.ops, op);
  }

  /** begin_op's admission test keeps appending log_writes from panicking exactly
      when the on-disk log has a slot for each of the LOGSIZE blocks besides its
      header block. */
  lemma AppendsFitIff(l: Layout)
    requires l.Valid() && l.nblocks - l.size >= LOGSIZE
    ensures AppendsFit(l) <==> l.size >= LOGSIZE + 1
  {
    if l.size >= LOGSIZE + 1 {
      forall run: seq<State>, evs: seq<Event>, op: nat, b: nat
        ensures AppendFits(l, run, evs, op, b)
      {
        if Run(l, run, evs) && Disciplined(l, Final(run), op, b) && b !in Final(run).lh {
          RunInv(l, run, evs, |run| - 1);
          AppendHasSlot(l, Final(run), op, b);
        }
      }
    } else {
      var m := l.size - 1;
      var run, evs := FillLog(l, m);
      var op := if m < 10 then 0 else if m < 20 then 1 else 2;
      assert NthHome(l, m) !in Final(run).lh;
      assert !AppendFits(l, run, evs, op, NthHome(l, m));
    }
  }

  /** The image mkfs builds reserves LOGSIZE blocks for the log, header included,
      so it is one block short. */
  lemma MkfsLogTooShort()
    ensures Layout(2, LOGSIZE, 1000).Valid() && !AppendsFit(Layout(2, LOGSIZE, 1000))
  {
    AppendsFitIff(Layout(2, LOGSIZE, 1000));
  }

  /** Even with room for every block, log_write tests for a full log before it looks
      for the block, so rewriting a logged block panics once LOGSIZE are logged. */
  lemma FullLogRefusesAbsorption(l: Layout) returns (run: seq<State>, evs: seq<Event>, op: nat, b: nat)
    requires l.Valid() && l.nblocks - l.size >= LOGSIZE && l.size >= LOGSIZE + 1
    ensures Run(l, run, evs) && Inv(l, Final(run))
    ensures Disciplined(l, Final(run), op, b) && b in Final(run).lh && LogFull(l, Final(run))
  {
    run, evs := FillLog(l, LOGSIZE);
    op, b := 0, NthHome(l, 0);
    assert Final(run).lh[0] == b;
  }
}
