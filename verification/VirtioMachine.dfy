/** Runs of the virtio protocol. */
module VirtioMachine {
  import opened Options
  import opened VirtioDesc
  import opened Virtio

  // ---------------------------------------------------------------- steps that move one request on

  /** Only request h changed, in its phase; its status byte follows, and the history grows. */
  ghost predicate Moves(s: State, z: State, h: nat) {
    && Shape(s) && Shape(z) && h in s.req && h in z.req && z.req == WithPhase(s, h, z.req[h].phase)
    && z.free == s.free && z.desc == s.desc && z.own == s.own && z.ops == s.ops
    && s.log <= z.log && s.done <= z.done && s.taken <= z.taken && s.acked <= z.acked
  }

  lemma MoveDescs(s: State, z: State, h: nat)
    requires Moves(s, z, h) && Descs(s)
    ensures Descs(z)
  {
    forall i | 0 <= i < NUM
      ensures DescAt(z, i)
    {
      assert DescAt(s, i);
    }
  }

  lemma MoveLaid(s: State, z: State, h: nat)
    requires Moves(s, z, h) && Laid(s)
    requires forall i | 0 <= i < NUM && i != h :: z.info[i] == s.info[i]
    requires LaidOut(z, h, z.req[h])
    ensures Laid(z)
  {
    forall g | g in z.req
      ensures LaidOut(z, g, z.req[g])
    {
      assert LaidOut(s, g, s.req[g]);
    }
  }

  lemma MoveBuffers(s: State, z: State, h: nat)
    requires Moves(s, z, h) && Buffers(s)
    ensures Buffers(z)
  {
  }

  /** Waiting jobs other than h keep their slots. */
  lemma MoveAvails(s: State, z: State, h: nat)
    requires Moves(s, z, h) && Avails(s)
    requires forall k | z.taken <= k < |s.log| :: s.log[k].head != h && z.avail[k % NUM] == s.avail[k % NUM]
    requires forall k | z.taken <= k < |z.log| && k >= |s.log| :: AvailAt(z, k)
    ensures Avails(z)
  {
    forall k | z.taken <= k < |z.log|
      ensures AvailAt(z, k)
    {
      if k < |s.log| {
        assert AvailAt(s, k);
      }
    }
  }

  lemma MoveUseds(s: State, z: State, h: nat)
    requires Moves(s, z, h) && Useds(s) && History(s)
    requires forall k | z.acked <= k < |s.done| :: s.log[s.done[k]].head != h && z.used[k % NUM] == s.used[k % NUM]
    requires forall k | z.acked <= k < |z.done| && k >= |s.done| :: UsedAt(z, k)
    ensures Useds(z)
  {
    hide AvailAt;
    forall k | z.acked <= k < |z.done|
      ensures UsedAt(z, k)
    {
      if k < |s.done| {
        assert UsedAt(s, k);
      }
    }
  }

  /** Heads of waiting and of unseen jobs are in those phases. */
  lemma HeadsElsewhere(s: State, h: nat)
    requires Inv(s) && h in s.req
    ensures s.req[h].phase != Posted ==> forall k | s.taken <= k < |s.log| :: s.log[k].head != h
    ensures s.req[h].phase != Done ==>
      forall k | s.acked <= k < |s.done| :: s.done[k] < |s.log| && s.log[s.done[k]].head != h
  {
    hide Descs, Laid, Steps, Buffers, Opened, Counters;
    forall k | s.taken <= k < |s.log|
      ensures s.req[h].phase != Posted ==> s.log[k].head != h
    {
      assert AvailAt(s, k);
    }
    forall k | s.acked <= k < |s.done|
      ensures s.done[k] < |s.log| && (s.req[h].phase != Done ==> s.log[s.done[k]].head != h)
    {
      assert UsedAt(s, k);
    }
  }

  lemma PublishKeeps(s: State, z: State)
    requires Inv(s) && Next(s, Publish, z)
    ensures Inv(z)
  {
    hide Descs, Laid, Buffers, Avails, Useds, History;
    var h := s.open.value;
    HeadsElsewhere(s, h);
    MoveDescs(s, z, h);
    MoveBuffers(s, z, h);
    PublishLaid(s, z);
    PublishSteps(s, z);
    PublishHistory(s, z);
    Wrapped(|s.log|, |s.log|);
    MoveAvails(s, z, h) by {
      PublishAvail(s, z);
    }
    MoveUseds(s, z, h);
  }

  lemma PublishLaid(s: State, z: State)
    requires Inv(s) && Next(s, Publish, z)
    ensures Laid(z)
  {
    hide Descs, Buffers, Avails, Useds, History, Steps, Counters;
    var h := s.open.value;
    assert LaidOut(s, h, s.req[h]);
    MoveLaid(s, z, h);
  }

  lemma PublishSteps(s: State, z: State)
    requires Inv(s) && Next(s, Publish, z)
    ensures Steps(z)
  {
    hide Descs, Laid, Buffers, Avails, Useds, History, Shape;
    forall g | g in z.req
      ensures InStep(z, g, z.req[g])
    {
      assert InStep(s, g, s.req[g]);
    }
  }

  lemma PublishHistory(s: State, z: State)
    requires Inv(s) && Next(s, Publish, z)
    ensures History(z)
  {
    hide Descs, Laid, Buffers, Avails, Useds, Counters;
    assert InStep(s, s.open.value, s.req[s.open.value]);
  }

  lemma PublishAvail(s: State, z: State)
    requires Inv(s) && Next(s, Publish, z)
    ensures |z.log| == |s.log| + 1 && AvailAt(z, |s.log|)
  {
    hide Descs, Buffers, Avails, Useds, History;
    var h := s.open.value;
    assert LaidOut(s, h, s.req[h]) && InStep(s, h, s.req[h]);
  }

  lemma DevTakeKeeps(s: State, z: State)
    requires Inv(s) && Next(s, DevTake, z)
    ensures Inv(z)
  {
    hide Descs, Laid, Buffers, Avails, Useds, History, LaidOut;
    DeviceFindsJob(s);
    var h := s.log[s.taken].head;
    HeadsElsewhere(s, h);
    MoveDescs(s, z, h);
    MoveBuffers(s, z, h);
    DevTakeLaid(s, z, h);
    DevTakeSteps(s, z, h);
    DevTakeHistory(s, z, h);
    Wrapped(s.taken, s.taken);
    MoveAvails(s, z, h) by {
      LaterHeads(s);
    }
    MoveUseds(s, z, h);
  }

  /** Jobs after the one the device takes have other heads. */
  lemma LaterHeads(s: State)
    requires Inv(s) && s.taken < |s.log|
    ensures forall k | s.taken < k < |s.log| :: s.log[k].head != s.log[s.taken].head
  {
    hide Descs, Laid, Steps, Buffers, Opened, Counters, Useds, History;
    assert AvailAt(s, s.taken);
    forall k | s.taken < k < |s.log|
      ensures s.log[k].head != s.log[s.taken].head
    {
      assert AvailAt(s, k);
    }
  }

  lemma DevTakeLaid(s: State, z: State, h: nat)
    requires Inv(s) && Next(s, DevTake, z) && h == s.avail[s.devIdx % NUM] && h in s.req && s.req[h].phase == Posted
    ensures Laid(z)
  {
    hide Descs, Buffers, Avails, Useds, History, Steps, Counters;
    assert LaidOut(s, h, s.req[h]);
    MoveLaid(s, z, h);
  }

  lemma DevTakeSteps(s: State, z: State, h: nat)
    requires Inv(s) && Next(s, DevTake, z) && s.taken < |s.log| && h == s.log[s.taken].head
    requires h == s.avail[s.devIdx % NUM]
    requires AvailAt(s, s.taken)
    ensures Steps(z)
  {
    hide Descs, Laid, Buffers, Avails, Useds, History, Counters;
    forall g | g in z.req
      ensures InStep(z, g, z.req[g])
    {
      assert InStep(s, g, s.req[g]) && InStep(s, h, s.req[h]);
      LaidHead(s, g);
    }
  }

  lemma LaidHead(s: State, g: nat)
    requires Inv(s) && g in s.req
    ensures s.req[g].job.head == g && g < NUM
  {
    hide Descs, Buffers, Avails, Useds, History, Counters, Steps;
    assert LaidOut(s, g, s.req[g]);
  }

  lemma DevTakeHistory(s: State, z: State, h: nat)
    requires Inv(s) && Next(s, DevTake, z) && h == s.avail[s.devIdx % NUM] && h in s.req && s.req[h].phase == Posted
    ensures History(z)
  {
    hide Descs, Laid, Buffers, Avails, Useds, Counters, Steps;
  }

  lemma DevServeKeeps(s: State, z: State, h: nat)
    requires Inv(s) && Next(s, DevServe(h), z)
    ensures Inv(z)
  {
    hide Descs, Laid, Buffers, Avails, Useds, History, LaidOut, Decode, InStep;
    DecodeIsRequest(s, h);
    LaidHead(s, h);
    HeadsElsewhere(s, h);
    MoveDescs(s, z, h);
    MoveBuffers(s, z, h);
    DevServeLaid(s, z, h);
    DevServeSteps(s, z, h);
    MoveAvails(s, z, h);
    MoveUseds(s, z, h);
    DevServeHistory(s, z, h);
  }

  lemma DevServeHistory(s: State, z: State, h: nat)
    requires Inv(s) && h in s.req && s.req[h].phase == Taken && z.req == WithPhase(s, h, Phase.Served)
    requires z.done == s.done && z.log == s.log
    ensures History(z)
  {
    hide Descs, Laid, Buffers, Avails, Useds, Counters, Steps;
  }

  lemma DevServeLaid(s: State, z: State, h: nat)
    requires Moves(s, z, h) && Laid(s) && h < NUM && z.info == s.info[h := s.info[h].(status := 0)]
    requires z.req[h].phase == Phase.Served
    ensures Laid(z)
  {
    assert LaidOut(s, h, s.req[h]);
    MoveLaid(s, z, h);
  }

  lemma DevServeSteps(s: State, z: State, h: nat)
    requires Inv(s) && h in s.req && s.req[h].phase == Taken && z.req == WithPhase(s, h, Phase.Served)
    requires z.busy == s.busy && z.open == s.open && z.log == s.log && z.taken == s.taken
    ensures Steps(z)
  {
    hide Descs, Laid, Buffers, Avails, Useds, History, Counters, Shape;
    forall g | g in z.req
      ensures InStep(z, g, z.req[g])
    {
      assert InStep(s, g, s.req[g]);
    }
  }

  lemma DevUsedKeeps(s: State, z: State, h: nat)
    requires Inv(s) && Next(s, DevUsed(h), z)
    ensures Inv(z)
  {
    hide Descs, Laid, Buffers, Avails, Useds, History, LaidOut, InStep;
    UsedRoom(s, h);
    Wrapped(|s.done|, |s.done|);
    LaidHead(s, h);
    HeadsElsewhere(s, h);
    MoveDescs(s, z, h);
    MoveBuffers(s, z, h);
    DevUsedLaid(s, z, h);
    DevUsedSteps(s, z, h);
    MoveAvails(s, z, h);
    DevUsedHistory(s, z, h);
    MoveUseds(s, z, h) by {
      DevUsedEntry(s, z, h);
      forall k | s.acked <= k < |s.done|
        ensures k % NUM != |s.done| % NUM
      {
        SlotsDiffer(k, |s.done|);
      }
    }
  }

  lemma DevUsedLaid(s: State, z: State, h: nat)
    requires Inv(s) && Next(s, DevUsed(h), z)
    ensures Laid(z)
  {
    hide Descs, Buffers, Avails, Useds, History, Steps, Counters;
    assert LaidOut(s, h, s.req[h]);
    MoveLaid(s, z, h);
  }

  lemma DevUsedSteps(s: State, z: State, h: nat)
    requires Inv(s) && Next(s, DevUsed(h), z)
    ensures Steps(z)
  {
    hide Descs, Laid, Buffers, Avails, Useds, History, Counters;
    forall g | g in z.req
      ensures InStep(z, g, z.req[g])
    {
      assert InStep(s, g, s.req[g]);
    }
  }

  lemma DevUsedEntry(s: State, z: State, h: nat)
    requires Inv(s) && Next(s, DevUsed(h), z)
    ensures |z.done| == |s.done| + 1 && UsedAt(z, |s.done|)
  {
    hide Descs, Buffers, Avails, Useds, History;
    assert InStep(s, h, s.req[h]) && LaidOut(s, h, s.req[h]);
    Wrapped(|s.done|, |s.done|);
  }

  lemma DevUsedHistory(s: State, z: State, h: nat)
    requires Inv(s) && Next(s, DevUsed(h), z)
    ensures History(z)
  {
    hide Descs, Buffers, Avails, Useds, Counters, LaidOut;
    assert InStep(s, h, s.req[h]);
    forall g | g in s.req && s.req[g].id == s.req[h].id
      ensures g == h
    {
      assert InStep(s, g, s.req[g]);
      LaidHead(s, g);
      LaidHead(s, h);
    }
    forall k, g | 0 <= k < |z.done| && g in z.req && z.req[g].id == z.done[k]
      ensures z.req[g].phase == Done || z.req[g].phase == Acked
    {
      assert k < |s.done| ==> z.done[k] == s.done[k];
    }
  }

  lemma AckKeeps(s: State, z: State)
    requires Inv(s) && Next(s, Ack, z)
    ensures Inv(z)
  {
    hide Descs, Laid, Buffers, Avails, Useds, History, LaidOut, InStep;
    UsedNamesIssuer(s);
    Wrapped(s.acked, s.acked);
    var h := s.used[s.seen % NUM];
    LaidHead(s, h);
    HeadsElsewhere(s, h);
    MoveDescs(s, z, h);
    MoveBuffers(s, z, h);
    AckLaid(s, z, h);
    AckSteps(s, z, h);
    MoveAvails(s, z, h);
    AckHistory(s, z, h);
    MoveUseds(s, z, h) by {
      LaterUnseen(s);
    }
  }

  lemma LaterUnseen(s: State)
    requires Inv(s) && s.acked < |s.done|
    ensures forall k | s.acked <= k < |s.done| :: s.done[k] < |s.log|
    ensures forall k | s.acked < k < |s.done| :: s.log[s.done[k]].head != s.log[s.done[s.acked]].head
  {
    hide Descs, Laid, Steps, Buffers, Opened, Counters, Avails;
    forall k | s.acked <= k < |s.done|
      ensures UsedAt(s, k)
    {
    }
    forall k | s.acked < k < |s.done|
      ensures s.log[s.done[k]].head != s.log[s.done[s.acked]].head
    {
      assert UsedAt(s, k) && UsedAt(s, s.acked);
    }
  }

  lemma AckLaid(s: State, z: State, h: nat)
    requires Inv(s) && Next(s, Ack, z) && h == s.used[s.seen % NUM] && h in s.req && s.req[h].phase == Done
    ensures Laid(z)
  {
    hide Descs, Buffers, Avails, Useds, History, Steps, Counters;
    assert LaidOut(s, h, s.req[h]);
    MoveLaid(s, z, h);
  }

  lemma AckSteps(s: State, z: State, h: nat)
    requires Inv(s) && Next(s, Ack, z) && h == s.used[s.seen % NUM] && h in s.req && s.req[h].phase == Done
    requires s.info[h].b == Some(s.req[h].job.b)
    ensures Steps(z)
  {
    hide Descs, Laid, Avails, Useds, History, Counters;
    forall g | g in z.req
      ensures InStep(z, g, z.req[g])
    {
      assert InStep(s, g, s.req[g]);
    }
  }

  lemma AckHistory(s: State, z: State, h: nat)
    requires Inv(s) && h in s.req && s.req[h].phase == Done && z.req == WithPhase(s, h, Acked)
    requires z.done == s.done && z.log == s.log
    ensures History(z)
  {
    hide Descs, Laid, Buffers, Avails, Useds, Counters, Steps;
  }

  // ---------------------------------------------------------------- new requests

  /** The three descriptors taken are distinct and free, and no others are taken. */
  lemma PickThree(free: seq<bool>)
    requires |free| == NUM && CountFree(free) >= 3
    ensures var h, i1, i2 := Pick(free, 0), Pick(free, 1), Pick(free, 2);
      && h < NUM && i1 < NUM && i2 < NUM && h != i1 && h != i2 && i1 != i2 && free[h] && free[i1] && free[i2]
      && (forall m | 0 <= m < NUM :: Taking(free, 3)[m] <==> free[m] && m != h && m != i1 && m != i2)
  {
    hide Pick, Taking, CountFree;
    PickDistinct(free, 0, 3);
    PickDistinct(free, 1, 3);
    PickDistinct(free, 2, 3);
    PickDistinct(free, 0, 1);
    PickDistinct(free, 0, 2);
    PickDistinct(free, 1, 2);
    forall m | 0 <= m < NUM
      ensures Taking(free, 3)[m] <==> free[m] && m != Pick(free, 0) && m != Pick(free, 1) && m != Pick(free, 2)
    {
      TakingAt(free, 3, m);
    }
  }

  /** A new request in descriptors h, i1, i2, which were free. */
  ghost predicate Starts(s: State, z: State, h: nat, i1: nat, i2: nat) {
    && Shape(s) && Shape(z) && h < NUM && i1 < NUM && i2 < NUM && h != i1 && h != i2 && i1 != i2
    && s.free[h] && s.free[i1] && s.free[i2] && s.open.None?
    && (forall m | 0 <= m < NUM :: z.free[m] <==> s.free[m] && m != h && m != i1 && m != i2)
    && h in z.req && z.req == s.req[h := z.req[h]] && z.req[h].i1 == i1 && z.req[h].i2 == i2
    && z.req[h].phase == Written && z.req[h].id == |s.log| && z.req[h].job.head == h
    && (forall g | g in s.req :: s.req[g].job.b != z.req[h].job.b)
    && z.desc ==
         s.desc[h := HeadDesc(h, i1)][i1 := DataDesc(z.req[h].job.b, z.req[h].job.write, i2)][i2 := StatusDesc(h)]
    && z.own == s.own[h := Some(h)][i1 := Some(h)][i2 := Some(h)]
    && z.ops == s.ops[h := Op(z.req[h].job.write, z.req[h].job.block * (BSIZE / 512))]
    && z.info == s.info[h := Info(Some(z.req[h].job.b), 0xff)]
    && z.busy == s.busy + {z.req[h].job.b} && z.open == Some(h) && z.avail == s.avail[s.availIdx % NUM := h]
    && z.log == s.log && z.done == s.done && z.taken == s.taken && z.acked == s.acked && z.used == s.used
    && z.availIdx == s.availIdx && z.devIdx == s.devIdx && z.usedIdx == s.usedIdx && z.seen == s.seen
  }

  lemma FormatStarts(s: State, z: State, b: nat, write: bool, block: nat)
    requires Inv(s) && Next(s, Format(b, write, block), z)
    ensures Starts(s, z, Pick(s.free, 0), Pick(s.free, 1), Pick(s.free, 2))
  {
    hide Pick, Taking, CountFree, Inv;
    InvShape(s);
    PickThree(s.free);
  }

  /** A free descriptor belongs to no request. */
  lemma FreeIsNobodys(s: State, i: nat)
    requires Inv(s) && i < NUM && s.free[i]
    ensures i !in s.req && forall g | g in s.req :: s.req[g].i1 != i && s.req[g].i2 != i
  {
    hide Buffers, Avails, Useds, History, Counters, Steps, Opened;
    assert DescAt(s, i);
    forall g | g in s.req
      ensures g != i && s.req[g].i1 != i && s.req[g].i2 != i
    {
      assert LaidOut(s, g, s.req[g]);
    }
  }

  lemma StartKeeps(s: State, z: State, h: nat, i1: nat, i2: nat)
    requires Inv(s) && Starts(s, z, h, i1, i2)
    ensures Inv(z)
  {
    hide Descs, Laid, Buffers, Avails, Useds, History, Steps, LaidOut, InStep;
    FreeIsNobodys(s, h);
    FreeIsNobodys(s, i1);
    FreeIsNobodys(s, i2);
    StartDescs(s, z, h, i1, i2);
    StartLaid(s, z, h, i1, i2);
    StartSteps(s, z, h, i1, i2);
    StartRest(s, z, h, i1, i2);
    StartAvails(s, z, h, i1, i2);
    Wrapped(|s.log|, |s.log|);
  }

  lemma StartDescs(s: State, z: State, h: nat, i1: nat, i2: nat)
    requires Inv(s) && Starts(s, z, h, i1, i2) && h !in s.req
    ensures Descs(z)
  {
    hide Laid, Buffers, Avails, Useds, History, Steps, Opened, Counters;
    forall i | 0 <= i < NUM
      ensures DescAt(z, i)
    {
      assert DescAt(s, i);
    }
  }

  lemma StartLaid(s: State, z: State, h: nat, i1: nat, i2: nat)
    requires Inv(s) && Starts(s, z, h, i1, i2)
    requires forall g | g in s.req :: g != h && g != i1 && g != i2 && s.req[g].i1 != h && s.req[g].i2 != h
    requires forall g | g in s.req :: s.req[g].i1 != i1 && s.req[g].i2 != i1 && s.req[g].i1 != i2 && s.req[g].i2 != i2
    ensures Laid(z)
  {
    hide Descs, Buffers, Avails, Useds, History, Steps, Opened, Counters, LaidOut;
    StartLaidNew(s, z, h, i1, i2);
    forall g | g in z.req
      ensures LaidOut(z, g, z.req[g])
    {
      if g != h {
        assert LaidOut(s, g, s.req[g]);
        LaidFrame(s, z, g, s.req[g]) by {
          LaidBounds(s, g, s.req[g]);
        }
      }
    }
  }

  lemma LaidBounds(s: State, g: nat, r: Request)
    requires Shape(s) && LaidOut(s, g, r)
    ensures g < NUM && r.i1 < NUM && r.i2 < NUM
  {
  }

  lemma LaidFrame(s: State, z: State, g: nat, r: Request)
    requires Shape(s) && Shape(z) && LaidOut(s, g, r) && g < NUM && r.i1 < NUM && r.i2 < NUM
    requires z.own[g] == s.own[g] && z.own[r.i1] == s.own[r.i1] && z.own[r.i2] == s.own[r.i2]
    requires z.desc[g] == s.desc[g] && z.desc[r.i1] == s.desc[r.i1] && z.desc[r.i2] == s.desc[r.i2]
    requires z.ops[g] == s.ops[g] && z.info[g] == s.info[g]
    ensures LaidOut(z, g, r)
  {
  }

  lemma StartLaidNew(s: State, z: State, h: nat, i1: nat, i2: nat)
    requires Starts(s, z, h, i1, i2)
    ensures LaidOut(z, h, z.req[h])
  {
  }

  lemma StartSteps(s: State, z: State, h: nat, i1: nat, i2: nat)
    requires Inv(s) && Starts(s, z, h, i1, i2) && h !in s.req
    ensures Steps(z)
  {
    hide Descs, Laid, Buffers, Avails, Useds, History, Opened, Counters;
    forall g | g in z.req
      ensures InStep(z, g, z.req[g])
    {
      if g != h {
        assert InStep(s, g, s.req[g]);
      }
    }
  }

  lemma StartRest(s: State, z: State, h: nat, i1: nat, i2: nat)
    requires Inv(s) && Starts(s, z, h, i1, i2) && h !in s.req
    ensures Buffers(z) && History(z) && Useds(z)
  {
    hide Descs, Laid, Avails, Steps, Opened, Counters;
    forall k | z.acked <= k < |z.done|
      ensures UsedAt(z, k)
    {
      assert UsedAt(s, k);
    }
  }

  /** No slot of a waiting job is overwritten. */
  lemma StartAvails(s: State, z: State, h: nat, i1: nat, i2: nat)
    requires Inv(s) && Starts(s, z, h, i1, i2) && h !in s.req
    ensures Avails(z)
  {
    hide Descs, Laid, Useds, Steps, Opened, History, Buffers;
    AvailRoom(s, h);
    Wrapped(|s.log|, |s.log|);
    forall k | z.taken <= k < |z.log|
      ensures AvailAt(z, k)
    {
      assert AvailAt(s, k);
      SlotsDiffer(k, |s.log|);
    }
  }

  // ---------------------------------------------------------------- finished requests

  lemma FinishKeeps(s: State, z: State, h: nat)
    requires Inv(s) && Next(s, Finish(h), z)
    ensures Inv(z)
  {
    hide Descs, Laid, Buffers, Avails, Useds, History, Steps, FreeFrom, LaidOut;
    FinishFreesChain(s, h);
    AckedOnly(s, h);
    FinishDescs(s, z, h);
    FinishLaid(s, z, h);
    FinishRest(s, z, h);
  }

  /** A buffer that is no longer busy belongs to an acknowledged request. */
  lemma AckedOnly(s: State, h: nat)
    requires Inv(s) && h in s.req && s.req[h].job.b !in s.busy
    ensures s.req[h].phase == Acked && s.open != Some(h)
  {
    hide Descs, Laid, Buffers, Avails, Useds, History, Counters;
    assert InStep(s, h, s.req[h]);
  }

  lemma FinishDescs(s: State, z: State, h: nat)
    requires Inv(s) && Next(s, Finish(h), z)
    requires var r := s.req[h];
      && r.i1 < NUM && r.i2 < NUM
      && z.free == s.free[h := true][r.i1 := true][r.i2 := true]
      && z.desc == s.desc[h := BLANK][r.i1 := BLANK][r.i2 := BLANK]
    ensures Descs(z)
  {
    hide Buffers, Avails, Useds, History, Steps, FreeFrom, Counters, Opened;
    assert LaidOut(s, h, s.req[h]);
    forall i | 0 <= i < NUM
      ensures DescAt(z, i)
    {
      assert DescAt(s, i);
    }
  }

  lemma FinishLaid(s: State, z: State, h: nat)
    requires Inv(s) && Next(s, Finish(h), z)
    requires var r := s.req[h];
      && r.i1 < NUM && r.i2 < NUM
      && z.free == s.free[h := true][r.i1 := true][r.i2 := true]
      && z.desc == s.desc[h := BLANK][r.i1 := BLANK][r.i2 := BLANK]
    ensures Laid(z)
  {
    hide Descs, Buffers, Avails, Useds, History, Steps, FreeFrom, Counters, Opened;
    assert LaidOut(s, h, s.req[h]);
    forall g | g in z.req
      ensures LaidOut(z, g, z.req[g])
    {
      assert LaidOut(s, g, s.req[g]);
      LaidFrame(s, z, g, s.req[g]);
    }
  }

  lemma FinishRest(s: State, z: State, h: nat)
    requires Inv(s) && h in s.req && s.req[h].phase == Acked && z.req == s.req - {h} && Shape(z)
    requires z == s.(free := z.free, desc := z.desc, info := z.info, req := z.req, own := z.own)
    ensures Steps(z) && Buffers(z) && History(z) && Avails(z) && Useds(z)
  {
    hide Descs, Laid, Counters;
    forall g | g in z.req
      ensures InStep(z, g, z.req[g])
    {
      assert InStep(s, g, s.req[g]);
    }
    forall k | z.taken <= k < |z.log|
      ensures AvailAt(z, k)
    {
      assert AvailAt(s, k);
    }
    forall k | z.acked <= k < |z.done|
      ensures UsedAt(z, k)
    {
      assert UsedAt(s, k);
    }
  }

  // ---------------------------------------------------------------- runs

  lemma NextKeeps(s: State, e: Event, z: State)
    requires Inv(s) && Next(s, e, z)
    ensures Inv(z)
  {
    match e {
      case Format(b, write, block) =>
        FormatStarts(s, z, b, write, block);
        StartKeeps(s, z, Pick(s.free, 0), Pick(s.free, 1), Pick(s.free, 2));
      case Publish => PublishKeeps(s, z);
      case DevTake => DevTakeKeeps(s, z);
      case DevServe(h) => DevServeKeeps(s, z, h);
      case DevUsed(h) => DevUsedKeeps(s, z, h);
      case Ack => AckKeeps(s, z);
      case Finish(h) => FinishKeeps(s, z, h);
    }
  }

  ghost predicate Run(run: seq<State>, events: seq<Event>) {
    && |run| == |events| + 1 && Init(run[0])
    && (forall i | 0 <= i < |events| :: Shape(run[i]) && Next(run[i], events[i], run[i + 1]))
  }

  lemma {:induction false} RunInv(run: seq<State>, events: seq<Event>, i: nat)
    requires Run(run, events) && i < |run|
    ensures Inv(run[i])
  {
    hide Inv, Next;
    if i == 0 {
      InitHolds(run[0]);
    } else {
      RunInv(run, events, i - 1);
      NextKeeps(run[i - 1], events[i - 1], run[i]);
    }
  }

  /** In every state of every run: whatever the device or the interrupt handler finds next
      is the oldest outstanding job, decoded as issued; completions are jobs, each once; and
      chains in flight are disjoint from each other and from the free descriptors. */
  lemma ProtocolSafe(run: seq<State>, events: seq<Event>, i: nat)
    requires Run(run, events) && i < |run|
    ensures var s := run[i];
      && Inv(s)
      && (s.devIdx != s.availIdx ==> s.taken < |s.log| && s.avail[s.devIdx % NUM] == s.log[s.taken].head)
      && (forall h | h in s.req ::
           Decode(s, h) == Some(Command(s.req[h].job.write, s.req[h].job.block * (BSIZE / 512), s.req[h].job.b, h)))
      && (s.seen != s.usedIdx ==> s.acked < |s.done| && s.done[s.acked] < |s.log|
                                  && s.used[s.seen % NUM] == s.log[s.done[s.acked]].head < NUM
                                  && s.info[s.used[s.seen % NUM]] == Info(Some(s.log[s.done[s.acked]].b), 0))
      && (forall j, k | 0 <= j < k < |s.done| :: s.done[j] != s.done[k])
      && (forall g, h | g in s.req && h in s.req && g != h ::
           {g, s.req[g].i1, s.req[g].i2} !! {h, s.req[h].i1, s.req[h].i2})
  {
    hide Inv, Run;
    RunInv(run, events, i);
    var s := run[i];
    DoneOnce(s);
    InvShape(s);
    if s.devIdx != s.availIdx {
      DeviceFindsJob(s);
    }
    if s.seen != s.usedIdx {
      UsedNamesIssuer(s);
    }
    forall h | h in s.req
      ensures Decode(s, h) == Some(Command(s.req[h].job.write, s.req[h].job.block * (BSIZE / 512), s.req[h].job.b, h))
    {
      DecodeIsRequest(s, h);
    }
    forall g, h | g in s.req && h in s.req && g != h
      ensures {g, s.req[g].i1, s.req[g].i2} !! {h, s.req[h].i1, s.req[h].i2}
    {
      ChainsDisjoint(s, g, h);
    }
  }

  lemma InvShape(s: State)
    requires Inv(s)
    ensures Shape(s)
  {
    hide Descs, Laid, Steps, Buffers, Opened, Avails, Useds, Counters, History;
  }

  lemma StepGrows(s: State, e: Event, z: State)
    requires Shape(s) && Next(s, e, z)
    ensures s.log <= z.log && s.done <= z.done && s.acked <= z.acked
  {
    hide Pick, Taking, CountFree, FreeFrom, Decode;
  }

  /** The history only grows: what was posted, and what has completed, stays so. */
  lemma {:induction false} HistoryGrows(run: seq<State>, events: seq<Event>, i: nat, j: nat)
    requires Run(run, events) && i <= j < |run|
    ensures run[i].log <= run[j].log && run[i].done <= run[j].done && run[i].acked <= run[j].acked
  {
    hide Next, Init;
    if i < j {
      HistoryGrows(run, events, i, j - 1);
      StepGrows(run[j - 1], events[j - 1], run[j]);
    }
  }
}
