/** The virtio disk protocol: driver, interrupt handler and device as interleaved steps
    over the shared rings (kernel/virtio_disk.c; sections 2.6 and 5.2 of the VIRTIO 1.1
    specification). */
module Virtio {
  import opened Options
  import opened VirtioDesc

  const BSIZE: nat := 1024
  const TWO16: nat := 0x1_0000

  type Block = seq<nat>

  /** First part of a request: direction and sector. */
  datatype Op = Op(write: bool, sector: nat)
  datatype Info = Info(b: Option<nat>, status: nat)

  /** How far a request has come. */
  datatype Phase = Written | Posted | Taken | Served | Done | Acked

  datatype Job = Job(b: nat, write: bool, block: nat, head: nat)
  datatype Request = Request(id: nat, job: Job, i1: nat, i2: nat, phase: Phase)

  /** Memory shared by driver and device, then the device's own position, the buffers
      and the disk, then the history: all jobs posted, how many the device has taken, the
      numbers of the completed ones, how many of these the driver has seen, the requests
      under way by head descriptor, and the request each descriptor belongs to. */
  datatype State = State(
    free: seq<bool>, desc: seq<Desc>, ops: seq<Op>, info: seq<Info>,
    avail: seq<nat>, availIdx: nat, used: seq<nat>, usedIdx: nat, seen: nat,
    devIdx: nat,
    busy: set<nat>, data: map<nat, Block>, disk: map<nat, Block>,
    open: Option<nat>,
    log: seq<Job>, taken: nat, done: seq<nat>, acked: nat,
    req: map<nat, Request>, own: seq<Option<nat>>)

  predicate Shape(s: State) {
    && |s.free| == |s.desc| == |s.ops| == |s.info| == |s.avail| == |s.used| == |s.own| == NUM
    && s.availIdx < TWO16 && s.usedIdx < TWO16 && s.seen < TWO16 && s.devIdx < TWO16
  }

  // ---------------------------------------------------------------- steps

  datatype Event =
    | Format(b: nat, write: bool, block: nat) | Publish
    | DevTake | DevServe(head: nat) | DevUsed(head: nat)
    | Ack | Finish(head: nat)

  function Next16(n: nat): nat {
    (n + 1) % TWO16
  }

  function HeadDesc(h: nat, i1: nat): Desc {
    Desc(OpAddr(h), 16, F_NEXT, i1)
  }

  function DataDesc(b: nat, write: bool, i2: nat): Desc {
    Desc(DataAddr(b), BSIZE, if write then F_NEXT else F_WRITE + F_NEXT, i2)
  }

  function StatusDesc(h: nat): Desc {
    Desc(StatusAddr(h), 1, F_WRITE, 0)
  }

  /** virtio_disk_rw takes and fills three descriptors and writes the next slot of the
      avail ring. */
  function Formatted(s: State, b: nat, write: bool, block: nat): State
    requires Shape(s) && Pick(s.free, 0) < NUM && Pick(s.free, 1) < NUM && Pick(s.free, 2) < NUM
  {
    var h, i1, i2 := Pick(s.free, 0), Pick(s.free, 1), Pick(s.free, 2);
    s.(free := Taking(s.free, 3),
       desc := s.desc[h := HeadDesc(h, i1)][i1 := DataDesc(b, write, i2)][i2 := StatusDesc(h)],
       ops := s.ops[h := Op(write, block * (BSIZE / 512))],
       info := s.info[h := Info(Some(b), 0xff)],
       busy := s.busy + {b},
       avail := s.avail[s.availIdx % NUM := h],
       open := Some(h),
       req := s.req[h := Request(|s.log|, Job(b, write, block, h), i1, i2, Written)],
       own := s.own[h := Some(h)][i1 := Some(h)][i2 := Some(h)])
  }

  function WithPhase(s: State, h: nat, p: Phase): map<nat, Request>
    requires h in s.req
  {
    s.req[h := s.req[h].(phase := p)]
  }

  /** What the device reads from a chain. */
  datatype Command = Command(write: bool, sector: nat, b: nat, status: nat)

  function Decode(s: State, h: nat): Option<Command>
    requires Shape(s)
  {
    if h >= NUM || s.desc[h].flags % 2 == 0 then None
    else
      var i1 := s.desc[h].next;
      if i1 >= NUM || s.desc[i1].flags % 2 == 0 then None
      else
        var i2 := s.desc[i1].next;
        if i2 >= NUM || s.desc[i2].flags != F_WRITE then None
        else
          match (s.desc[h].addr, s.desc[i1].addr, s.desc[i2].addr)
          case (OpAddr(k), DataAddr(b), StatusAddr(m)) =>
            if k < NUM && m < NUM && (s.desc[i1].flags == F_NEXT + F_WRITE <==> !s.ops[k].write)
            then Some(Command(s.ops[k].write, s.ops[k].sector, b, m)) else None
          case _ => None
  }

  /** The device carries out a command. */
  function Served(s: State, cmd: Command): State
    requires Shape(s) && cmd.status < NUM
  {
    var t := s.(info := s.info[cmd.status := s.info[cmd.status].(status := 0)]);
    if cmd.write then
      (if cmd.b in s.data then t.(disk := s.disk[cmd.sector := s.data[cmd.b]]) else t)
    else
      (if cmd.sector in s.disk then t.(data := s.data[cmd.b := s.disk[cmd.sector]]) else t)
  }

  predicate Next(s: State, e: Event, z: State)
    requires Shape(s)
  {
    match e
    case Format(b, write, block) =>
      && s.open.None? && CountFree(s.free) >= 3 && (forall h | h in s.req :: s.req[h].job.b != b)
      && Pick(s.free, 0) < NUM && Pick(s.free, 1) < NUM && Pick(s.free, 2) < NUM
      && z == Formatted(s, b, write, block)
    case Publish =>
      && s.open.Some? && s.open.value in s.req
      && z == s.(availIdx := Next16(s.availIdx), open := None, log := s.log + [s.req[s.open.value].job],
                 req := WithPhase(s, s.open.value, Posted))
    case DevTake =>
      && s.devIdx != s.availIdx && s.avail[s.devIdx % NUM] in s.req
      && z == s.(devIdx := Next16(s.devIdx), taken := s.taken + 1, req := WithPhase(s, s.avail[s.devIdx % NUM], Taken))
    case DevServe(h) =>
      && h in s.req && s.req[h].phase == Taken && Decode(s, h).Some?
      && z == Served(s, Decode(s, h).value).(req := WithPhase(s, h, Phase.Served))
    case DevUsed(h) =>
      && h in s.req && s.req[h].phase == Phase.Served
      && z == s.(used := s.used[s.usedIdx % NUM := h], usedIdx := Next16(s.usedIdx), done := s.done + [s.req[h].id],
                 req := WithPhase(s, h, Done))
    case Ack =>
      && s.open.None? && s.seen != s.usedIdx
      && var id := s.used[s.seen % NUM];
      && id < NUM && id in s.req && s.info[id].status == 0 && s.info[id].b.Some?
      && z == s.(busy := s.busy - {s.info[id].b.value}, seen := Next16(s.seen), acked := s.acked + 1,
                 req := WithPhase(s, id, Acked))
    case Finish(h) =>
      && s.open.None? && h in s.req && h < NUM && s.req[h].job.b !in s.busy
      && FreeFrom(s.free, s.desc, h).Freed?
      && z == s.(free := FreeFrom(s.free, s.desc, h).free, desc := FreeFrom(s.free, s.desc, h).desc,
                 info := s.info[h := s.info[h].(b := None)], req := s.req - {h},
                 own := seq(NUM, i requires 0 <= i < NUM && Shape(s) => if s.own[i] == Some(h) then None else s.own[i]))
  }

  // ---------------------------------------------------------------- the invariant

  predicate DescAt(s: State, i: nat)
    requires Shape(s) && i < NUM
  {
    && (s.free[i] <==> s.own[i].None?) && (s.free[i] ==> s.desc[i] == BLANK)
    && (s.own[i].Some? ==> s.own[i].value in s.req &&
                           (i == s.own[i].value || i == s.req[s.own[i].value].i1 || i == s.req[s.own[i].value].i2))
  }

  /** The request at head h is laid out in its own three descriptors. */
  predicate LaidOut(s: State, h: nat, r: Request)
    requires Shape(s)
  {
    && h < NUM && r.i1 < NUM && r.i2 < NUM && h != r.i1 && r.i1 != r.i2 && h != r.i2
    && s.own[h] == s.own[r.i1] == s.own[r.i2] == Some(h)
    && s.desc[h] == HeadDesc(h, r.i1) && s.desc[r.i1] == DataDesc(r.job.b, r.job.write, r.i2)
    && s.desc[r.i2] == StatusDesc(h)
    && s.ops[h] == Op(r.job.write, r.job.block * (BSIZE / 512)) && r.job.head == h
    && s.info[h] ==
         Info(Some(r.job.b), if r.phase == Phase.Served || r.phase == Done || r.phase == Acked then 0 else 0xff)
  }

  /** Its place in the history fits its phase. */
  predicate InStep(s: State, h: nat, r: Request) {
    && (r.job.b in s.busy <==> r.phase != Acked)
    && (r.phase == Written <==> s.open == Some(h))
    && (if r.phase == Written then r.id == |s.log| else r.id < |s.log| && s.log[r.id] == r.job)
    && (r.phase == Posted ==> s.taken <= r.id)
    && (r.phase != Written && r.phase != Posted ==> r.id < s.taken)
  }

  predicate AvailAt(s: State, k: nat)
    requires Shape(s) && k < |s.log|
  {
    var h := s.log[k].head;
    h in s.req && s.req[h].id == k && s.req[h].phase == Posted && s.avail[k % NUM] == h
  }

  predicate UsedAt(s: State, k: nat)
    requires Shape(s) && k < |s.done|
  {
    s.done[k] < |s.log| &&
    var h := s.log[s.done[k]].head;
    h in s.req && s.req[h].id == s.done[k] && s.req[h].phase == Done && s.used[k % NUM] == h
  }

  predicate Counters(s: State) {
    && s.taken <= |s.log| && s.acked <= |s.done|
    && s.availIdx == |s.log| % TWO16 && s.devIdx == s.taken % TWO16
    && s.usedIdx == |s.done| % TWO16 && s.seen == s.acked % TWO16
  }

  /** Completed jobs are jobs, and none completes twice. */
  ghost predicate History(s: State) {
    && (forall k | 0 <= k < |s.done| :: s.done[k] < |s.log|)
    && (forall j, k | 0 <= j < k < |s.done| :: s.done[j] != s.done[k])
    && (forall k, h | 0 <= k < |s.done| && h in s.req && s.req[h].id == s.done[k] ::
         s.req[h].phase == Done || s.req[h].phase == Acked)
  }

  ghost predicate Descs(s: State)
    requires Shape(s)
  {
    forall i | 0 <= i < NUM :: DescAt(s, i)
  }

  ghost predicate Laid(s: State)
    requires Shape(s)
  {
    forall h | h in s.req :: LaidOut(s, h, s.req[h])
  }

  ghost predicate Steps(s: State) {
    forall h | h in s.req :: InStep(s, h, s.req[h])
  }

  ghost predicate Buffers(s: State) {
    forall g, h | g in s.req && h in s.req && s.req[g].job.b == s.req[h].job.b :: g == h
  }

  ghost predicate Opened(s: State)
    requires Shape(s)
  {
    s.open.Some? ==>
      s.open.value in s.req && s.req[s.open.value].phase == Written && s.avail[|s.log| % NUM] == s.open.value
  }

  ghost predicate Avails(s: State)
    requires Shape(s)
  {
    forall k | s.taken <= k < |s.log| :: AvailAt(s, k)
  }

  ghost predicate Useds(s: State)
    requires Shape(s)
  {
    forall k | s.acked <= k < |s.done| :: UsedAt(s, k)
  }

  ghost predicate Inv(s: State) {
    && Shape(s) && Counters(s) && History(s) && Descs(s) && Laid(s) && Steps(s) && Buffers(s) && Opened(s)
    && Avails(s) && Useds(s)
  }

  ghost predicate Init(s: State) {
    && Shape(s) && s.req == map[] && s.open.None? && s.log == [] && s.done == [] && s.taken == s.acked == 0
    && s.availIdx == s.devIdx == s.usedIdx == s.seen == 0
    && (forall i | 0 <= i < NUM :: s.free[i] && s.desc[i] == BLANK && s.own[i].None?)
  }

  lemma InitHolds(s: State)
    requires Init(s)
    ensures Inv(s)
  {
  }

  // ---------------------------------------------------------------- room in the rings

  /** Distinct numbers below n are at most n. */
  lemma {:induction false} Pigeonhole(a: seq<nat>, n: nat)
    requires forall i | 0 <= i < |a| :: a[i] < n
    requires forall i, j | 0 <= i < j < |a| :: a[i] != a[j]
    ensures |a| <= n
  {
    if |a| > 0 {
      assert a[0] < n;
      if i :| 0 <= i < |a| && a[i] == n - 1 {
        Pigeonhole(a[..i] + a[i + 1..], n - 1);
      } else {
        Pigeonhole(a, n - 1);
      }
    }
  }

  /** Heads of the jobs the device has not taken. */
  function Waiting(s: State, from: nat): (a: seq<nat>)
    requires from <= |s.log|
    ensures |a| == |s.log| - from && forall k | 0 <= k < |a| :: a[k] == s.log[from + k].head
    decreases |s.log| - from
  {
    if from == |s.log| then [] else [s.log[from].head] + Waiting(s, from + 1)
  }

  /** Heads of the completed jobs the driver has not seen. */
  function Unseen(s: State, from: nat): (a: seq<nat>)
    requires from <= |s.done| && forall k | 0 <= k < |s.done| :: s.done[k] < |s.log|
    ensures |a| == |s.done| - from && forall k | 0 <= k < |a| :: a[k] == s.log[s.done[from + k]].head
    decreases |s.done| - from
  {
    if from == |s.done| then [] else [s.log[s.done[from]].head] + Unseen(s, from + 1)
  }

  lemma WaitingAt(s: State, k: nat)
    requires Inv(s) && s.taken <= k < |s.log|
    ensures var h := s.log[k].head;
      h < NUM && h in s.req && s.req[h].phase == Posted && s.req[h].id == k
  {
    hide History, DescAt, InStep, UsedAt;
    assert AvailAt(s, k);
  }

  lemma UnseenAt(s: State, k: nat)
    requires Inv(s) && s.acked <= k < |s.done|
    ensures s.done[k] < |s.log|
    ensures var h := s.log[s.done[k]].head;
      h < NUM && h in s.req && s.req[h].phase == Done && s.req[h].id == s.done[k]
  {
    hide History, DescAt, InStep, AvailAt;
    assert UsedAt(s, k);
  }

  lemma DoneOnce(s: State)
    requires Inv(s)
    ensures s.taken <= |s.log| && s.acked <= |s.done|
    ensures forall k | 0 <= k < |s.done| :: s.done[k] < |s.log|
    ensures forall j, k | 0 <= j < k < |s.done| :: s.done[j] != s.done[k]
  {
    hide DescAt, InStep, AvailAt, UsedAt, LaidOut;
  }

  /** Waiting heads are distinct heads of posted requests. */
  lemma WaitingHeads(s: State) returns (a: seq<nat>)
    requires Inv(s)
    ensures |a| == |s.log| - s.taken
    ensures forall k | 0 <= k < |a| :: a[k] < NUM && a[k] in s.req && s.req[a[k]].phase == Posted
    ensures forall j, k | 0 <= j < k < |a| :: a[j] != a[k]
  {
    hide Inv, Waiting;
    DoneOnce(s);
    a := Waiting(s, s.taken);
    forall k | 0 <= k < |a|
      ensures a[k] in s.req && a[k] < NUM && s.req[a[k]].phase == Posted && s.req[a[k]].id == s.taken + k
    {
      WaitingAt(s, s.taken + k);
    }
  }

  lemma UnseenHeads(s: State) returns (a: seq<nat>)
    requires Inv(s)
    ensures |a| == |s.done| - s.acked
    ensures forall k | 0 <= k < |a| :: a[k] < NUM && a[k] in s.req && s.req[a[k]].phase == Done
    ensures forall j, k | 0 <= j < k < |a| :: a[j] != a[k]
  {
    hide Inv, Unseen;
    DoneOnce(s);
    a := Unseen(s, s.acked);
    forall k | 0 <= k < |a|
      ensures a[k] in s.req && a[k] < NUM && s.req[a[k]].phase == Done && s.req[a[k]].id == s.done[s.acked + k]
    {
      UnseenAt(s, s.acked + k);
    }
    forall j, k | 0 <= j < k < |a|
      ensures a[j] != a[k]
    {
      assert s.done[s.acked + j] != s.done[s.acked + k];
    }
  }

  /** A descriptor that heads no waiting job leaves room for it in the avail ring. */
  lemma AvailRoom(s: State, h: nat)
    requires Inv(s) && h < NUM && (h in s.req ==> s.req[h].phase != Posted)
    ensures |s.log| - s.taken < NUM
  {
    hide History, DescAt, InStep, LaidOut, AvailAt, UsedAt;
    var a := WaitingHeads(s);
    Pigeonhole(a + [h], NUM);
  }

  lemma UsedRoom(s: State, h: nat)
    requires Inv(s) && h in s.req && s.req[h].phase != Done
    ensures |s.done| - s.acked < NUM
  {
    hide History, DescAt, InStep, AvailAt, UsedAt;
    var a := UnseenHeads(s);
    assert LaidOut(s, h, s.req[h]);
    Pigeonhole(a + [h], NUM);
  }

  /** The rings are never over-full. */
  lemma Windows(s: State)
    requires Inv(s)
    ensures |s.log| - s.taken <= NUM && |s.done| - s.acked <= NUM
  {
    hide History, DescAt, InStep, LaidOut, AvailAt, UsedAt;
    var a := WaitingHeads(s);
    var b := UnseenHeads(s);
    Pigeonhole(a, NUM);
    Pigeonhole(b, NUM);
  }

  /** 16-bit positions that are at most a ring apart agree exactly when they are equal, and
      name the same slot as the unbounded ones. */
  lemma Wrapped(a: nat, b: nat)
    requires a <= b <= a + NUM
    ensures a % TWO16 == b % TWO16 <==> a == b
    ensures a % TWO16 % NUM == a % NUM && Next16(a % TWO16) == (a + 1) % TWO16
  {
  }

  lemma SlotsDiffer(k: nat, n: nat)
    requires k < n < k + NUM
    ensures k % NUM != n % NUM
  {
  }

  // ---------------------------------------------------------------- what driver and device find

  /** The device finds the oldest job it has not taken. */
  lemma DeviceFindsJob(s: State)
    requires Inv(s) && s.devIdx != s.availIdx
    ensures s.taken < |s.log| && s.avail[s.devIdx % NUM] == s.log[s.taken].head && AvailAt(s, s.taken)
  {
    hide DescAt, LaidOut, InStep;
    Windows(s);
    Wrapped(s.taken, |s.log|);
    assert AvailAt(s, s.taken);
  }

  /** The chain says what was asked for. */
  lemma DecodeIsRequest(s: State, h: nat)
    requires Inv(s) && h in s.req
    ensures var job := s.req[h].job;
      Decode(s, h) == Some(Command(job.write, job.block * (BSIZE / 512), job.b, h))
  {
    hide History, DescAt, InStep, AvailAt, UsedAt;
    assert LaidOut(s, h, s.req[h]);
  }

  /** An entry of the used ring names the oldest completed job the driver has not seen: its
      status is good and its buffer is the one that issued it. */
  lemma UsedNamesIssuer(s: State)
    requires Inv(s) && s.seen != s.usedIdx
    ensures s.acked < |s.done| && s.done[s.acked] < |s.log|
    ensures var job := s.log[s.done[s.acked]];
      var id := s.used[s.seen % NUM];
      && id == job.head < NUM && id in s.req && s.req[id].phase == Done && s.req[id].job == job
      && s.info[id] == Info(Some(job.b), 0) && job.b in s.busy
  {
    hide DescAt;
    Windows(s);
    Wrapped(s.acked, |s.done|);
    assert UsedAt(s, s.acked);
    var h := s.log[s.done[s.acked]].head;
    assert LaidOut(s, h, s.req[h]) && InStep(s, h, s.req[h]);
  }

  /** Finishing a request frees its three descriptors and no others, without a panic. */
  lemma FinishFreesChain(s: State, h: nat)
    requires Inv(s) && h in s.req
    ensures var r := s.req[h];
      && h < NUM && r.i1 < NUM && r.i2 < NUM
      && FreeFrom(s.free, s.desc, h) == Freed(s.free[h := true][r.i1 := true][r.i2 := true],
                                              s.desc[h := BLANK][r.i1 := BLANK][r.i2 := BLANK])
  {
    hide History, InStep, AvailAt, UsedAt, FreeFrom;
    var r := s.req[h];
    assert LaidOut(s, h, r) && DescAt(s, h) && DescAt(s, r.i1) && DescAt(s, r.i2);
    FreeThree(s.free, s.desc, h, r.i1, r.i2);
  }

  /** Chains of different requests share no descriptor, and none is free. */
  lemma ChainsDisjoint(s: State, g: nat, h: nat)
    requires Inv(s) && g in s.req && h in s.req && g != h
    ensures {g, s.req[g].i1, s.req[g].i2} !! {h, s.req[h].i1, s.req[h].i2}
    ensures forall i | i in {g, s.req[g].i1, s.req[g].i2} :: i < NUM && !s.free[i]
  {
    hide History, InStep, AvailAt, UsedAt;
    assert LaidOut(s, g, s.req[g]) && LaidOut(s, h, s.req[h]);
    forall i | i in {g, s.req[g].i1, s.req[g].i2}
      ensures i < NUM && !s.free[i]
    {
      assert DescAt(s, i);
    }
  }
}
