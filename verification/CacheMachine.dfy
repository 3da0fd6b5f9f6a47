/** Concurrent use of the buffer cache: every interleaving of bread, modification,
    bwrite, brelse, and the log's pinning, refines a plain map from blocks to
    contents. */
module CacheMachine {
  import opened Options
  import opened Blocks
  import opened BufferCache

  type Key = (nat, nat)

  /** How far one caller of bread has got with its buffer. */
  datatype Stage = Waiting | Locked | Unlocked

  /** One caller: the block it asked for, the buffer bget gave it, its stage. */
  datatype Use = Use(key: Key, buf: nat, stage: Stage)

  datatype State = State(
    bufs: seq<Buf>,
    order: seq<nat>,
    stamp: seq<nat>,           // when each buffer was last released to zero
    clock: nat,
    uses: map<nat, Use>,
    locks: seq<Option<nat>>,   // who holds each buffer's sleep-lock
    pinned: set<nat>,          // buffers holding the log's extra reference
    lh: seq<Key>,              // blocks in the log header
    tail: nat,                 // how many of them install_trans has written home
    disk: map<Key, Block>,
    logical: map<Key, Block>)  // the plain block map that callers believe in

  datatype Event =
    | Get(id: nat, key: Key)         // bget's critical section
    | Acquire(id: nat)               // acquiresleep returns
    | Load(id: nat)                  // bread's disk read
    | Modify(id: nat, data: Block)   // caller writes b->data
    | Bwrite(id: nat)
    | LogWrite(id: nat)              // absorbs the block, or appends and pins it
    | Install(id: nat)               // install_trans: bwrite and bunpin of the next block
    | LogCleared                     // the header is empty again
    | Unlock(id: nat)                // brelse's releasesleep
    | Release(id: nat)               // brelse's critical section

  function KeyOf(b: Buf): Key {
    (b.dev, b.blockno)
  }

  /** The callers that bget has handed buffer b and brelse has not yet taken back. */
  ghost function UsersOf(s: State, b: nat): set<nat> {
    set id | id in s.uses && s.uses[id].buf == b
  }

  ghost predicate Init(s: State) {
    && |s.bufs| == NBUF
    && (forall b | 0 <= b < NBUF :: s.bufs[b].refcnt == 0 && s.bufs[b].dev == 0 && !s.bufs[b].valid)
    && s.order == Descending(NBUF)
    && s.stamp == seq(NBUF, b => b) && s.clock == NBUF
    && s.uses == map[] && s.pinned == {} && s.lh == [] && s.tail == 0 && s.locks == seq(NBUF, _ => None)
    && s.logical == s.disk
  }

  /** The event's caller holds its buffer's sleep-lock on valid contents. */
  ghost predicate HoldsValid(s: State, id: nat) {
    && id in s.uses
    && s.uses[id].stage == Locked
    && s.uses[id].buf < |s.bufs|
    && s.bufs[s.uses[id].buf].valid
  }

  ghost function WithBuf(s: State, b: nat, v: Buf): State
    requires b < |s.bufs|
  {
    s.(bufs := s.bufs[b := v])
  }

  ghost function WithStage(s: State, id: nat, stage: Stage): State
    requires id in s.uses
  {
    s.(uses := s.uses[id := s.uses[id].(stage := stage)])
  }

  ghost predicate Next(s: State, ev: Event, t: State)
    requires Inv(s)
  {
    match ev
    case Get(id, key) =>
      && id !in s.uses
      && key in s.disk && key.0 != 0
      && var g := BufferCache.Get(s.bufs, s.order, key.0, key.1);
         g.Some? && t == s.(bufs := g.value.1, uses := s.uses[id := Use(key, g.value.0, Waiting)])
    case Acquire(id) =>
      && id in s.uses && s.uses[id].stage == Waiting
      && s.locks[s.uses[id].buf] == None
      && t == WithStage(s, id, Locked).(locks := s.locks[s.uses[id].buf := Some(id)])
    case Load(id) =>
      && id in s.uses && s.uses[id].stage == Locked
      && var b := s.uses[id].buf;
         && !s.bufs[b].valid
         && KeyOf(s.bufs[b]) in s.disk
         && t == WithBuf(s, b, s.bufs[b].(valid := true, data := s.disk[KeyOf(s.bufs[b])]))
    case Modify(id, data) =>
      && HoldsValid(s, id)
      && var b := s.uses[id].buf;
         t == WithBuf(s, b, s.bufs[b].(data := data)).(logical := s.logical[s.uses[id].key := data])
    case Bwrite(id) =>
      && HoldsValid(s, id)
      && var b := s.bufs[s.uses[id].buf];
         t == s.(disk := s.disk[KeyOf(b) := b.data])
    case LogWrite(id) =>
      && HoldsValid(s, id) && s.tail == 0
      && var b := s.uses[id].buf;
         if s.uses[id].key in s.lh then t == s
         else t == WithBuf(s, b, s.bufs[b].(refcnt := s.bufs[b].refcnt + 1)).(
                   pinned := s.pinned + {b}, lh := s.lh + [s.uses[id].key])
    case Install(id) =>
      && HoldsValid(s, id) && s.tail < |s.lh| && s.uses[id].key == s.lh[s.tail]
      && var b := s.uses[id].buf;
         && s.bufs[b].refcnt > 0
         && t == WithBuf(s, b, s.bufs[b].(refcnt := s.bufs[b].refcnt - 1)).(
                 disk := s.disk[s.uses[id].key := s.bufs[b].data], pinned := s.pinned - {b}, tail := s.tail + 1)
    case LogCleared => s.tail == |s.lh| && t == s.(lh := [], tail := 0)
    case Unlock(id) =>
      && HoldsValid(s, id)
      && (s.disk[s.uses[id].key] == s.bufs[s.uses[id].buf].data || s.uses[id].buf in s.pinned)
      && t == WithStage(s, id, Unlocked).(locks := s.locks[s.uses[id].buf := None])
    case Release(id) =>
      && id in s.uses && s.uses[id].stage == Unlocked
      && var b := s.uses[id].buf;
         && s.bufs[b].refcnt > 0
         && var (bufs, order) := Put(s.bufs, s.order, b);
            t == s.(bufs := bufs, order := order, uses := s.uses - {id},
                    stamp := if bufs[b].refcnt == 0 then s.stamp[b := s.clock] else s.stamp,
                    clock := s.clock + 1)
  }

  // ---------------------------------------------------------------- invariant

  ghost predicate Sizes(s: State) {
    |s.bufs| == |s.stamp| == |s.order| == |s.locks| == NBUF
  }

  /** The ring holds every buffer once, most recently released first. */
  ghost predicate RingInv(s: State)
    requires Sizes(s)
  {
    && Distinct(s.order)
    && (forall b | 0 <= b < NBUF :: b in s.order)
    && (forall b | 0 <= b < NBUF :: s.stamp[b] < s.clock)
    && (forall i, j | 0 <= i < j < NBUF :: s.stamp[s.order[i]] > s.stamp[s.order[j]])
  }

  /** Every caller's buffer still holds the block it asked for, and a sleep-lock is
      held by the one caller that has locked it. */
  ghost predicate UseInv(s: State)
    requires Sizes(s)
  {
    && (forall id | id in s.uses :: s.uses[id].buf < NBUF && s.uses[id].key.0 != 0)
    && (forall id | id in s.uses :: KeyOf(s.bufs[s.uses[id].buf]) == s.uses[id].key)
    && (forall id | id in s.uses && s.uses[id].stage == Unlocked :: s.bufs[s.uses[id].buf].valid)
    && (forall id | id in s.uses && s.uses[id].stage == Locked :: s.locks[s.uses[id].buf] == Some(id))
    && (forall b | 0 <= b < NBUF && s.locks[b].Some? ::
         var id := s.locks[b].value; id in s.uses && s.uses[id].buf == b && s.uses[id].stage == Locked)
  }

  /** A reference count is the number of callers plus one for a log pin. */
  ghost predicate CountInv(s: State)
    requires Sizes(s)
  {
    && (forall b | b in s.pinned :: 0 <= b < NBUF && s.bufs[b].valid && s.bufs[b].dev != 0)
    && (forall b: nat | b < NBUF :: s.bufs[b].refcnt == |UsersOf(s, b)| + if b in s.pinned then 1 else 0)
  }

  /** No block is cached twice. */
  ghost predicate UniqueInv(s: State)
    requires Sizes(s)
  {
    forall b, c | 0 <= b < c < NBUF && s.bufs[b].dev != 0 :: KeyOf(s.bufs[b]) != KeyOf(s.bufs[c])
  }

  ghost predicate CachedAt(s: State, k: Key, b: nat) {
    b < |s.bufs| && KeyOf(s.bufs[b]) == k && s.bufs[b].valid
  }

  ghost predicate IsCached(s: State, k: Key) {
    exists b :: CachedAt(s, k, b)
  }

  /** Valid buffers hold the logical contents; a buffer that differs from the disk
      is pinned or locked; blocks without a valid buffer are on disk as they are. */
  ghost predicate ContentInv(s: State)
    requires Sizes(s)
  {
    && s.logical.Keys == s.disk.Keys
    && (forall b | 0 <= b < NBUF && s.bufs[b].dev != 0 :: KeyOf(s.bufs[b]) in s.disk)
    && (forall b | 0 <= b < NBUF && s.bufs[b].dev == 0 :: !s.bufs[b].valid)
    && (forall b | 0 <= b < NBUF && s.bufs[b].valid :: s.bufs[b].data == s.logical[KeyOf(s.bufs[b])])
    && (forall b | 0 <= b < NBUF && s.bufs[b].valid ::
         s.bufs[b].data == s.disk[KeyOf(s.bufs[b])] || b in s.pinned || s.locks[b].Some?)
    && (forall k | k in s.disk :: s.logical[k] == s.disk[k] || IsCached(s, k))
  }

  /** Buffer b is pinned and holds block k. */
  ghost predicate PinnedFor(s: State, k: Key, b: nat) {
    b in s.pinned && b < |s.bufs| && KeyOf(s.bufs[b]) == k
  }

  /** Buffer b is referenced and holds the latest contents of its block. */
  ghost predicate Latest(s: State, b: nat) {
    && b < |s.bufs| && s.bufs[b].valid && s.bufs[b].refcnt > 0
    && KeyOf(s.bufs[b]) in s.logical && s.bufs[b].data == s.logical[KeyOf(s.bufs[b])]
  }

  ghost predicate HasPin(s: State, k: Key) {
    exists b: nat :: PinnedFor(s, k, b)
  }

  /** The log pins exactly the buffers of the blocks in its header that are not home yet. */
  ghost predicate PinInv(s: State) {
    && s.tail <= |s.lh|
    && (forall i, j | 0 <= i < j < |s.lh| :: s.lh[i] != s.lh[j])
    && (forall i | s.tail <= i < |s.lh| :: HasPin(s, s.lh[i]))
    && (forall b | b in s.pinned :: b < |s.bufs| && KeyOf(s.bufs[b]) in s.lh[s.tail..])
  }

  ghost predicate Inv(s: State) {
    Sizes(s) && RingInv(s) && UseInv(s) && CountInv(s) && UniqueInv(s) && ContentInv(s) && PinInv(s)
  }

  lemma PinFrame(s: State, t: State)
    requires PinInv(s) && t.lh == s.lh && t.tail == s.tail && t.pinned == s.pinned
    requires |t.bufs| == |s.bufs| && forall b | b in s.pinned :: b < |s.bufs| && KeyOf(t.bufs[b]) == KeyOf(s.bufs[b])
    ensures PinInv(t)
  {
    forall i | t.tail <= i < |t.lh|
      ensures HasPin(t, t.lh[i])
    {
      assert HasPin(s, s.lh[i]);
      var b: nat :| PinnedFor(s, s.lh[i], b);
      assert PinnedFor(t, t.lh[i], b);
    }
  }

  // ---------------------------------------------------------------- counting callers

  lemma UserAdded(s: State, t: State, id: nat, b: nat)
    requires id !in s.uses && t.uses.Keys == s.uses.Keys + {id} && t.uses[id].buf == b
    requires forall x | x in s.uses :: t.uses[x].buf == s.uses[x].buf
    ensures |UsersOf(t, b)| == |UsersOf(s, b)| + 1
    ensures forall c | c != b :: UsersOf(t, c) == UsersOf(s, c)
  {
    assert UsersOf(t, b) == UsersOf(s, b) + {id};
    forall c | c != b
      ensures UsersOf(t, c) == UsersOf(s, c)
    {
      OtherUsers(s, t, id, c);
    }
  }

  lemma OtherUsers(s: State, t: State, id: nat, c: nat)
    requires id !in s.uses && t.uses.Keys == s.uses.Keys + {id} && t.uses[id].buf != c
    requires forall x | x in s.uses :: t.uses[x].buf == s.uses[x].buf
    ensures UsersOf(t, c) == UsersOf(s, c)
  {
    forall x
      ensures x in UsersOf(t, c) <==> x in UsersOf(s, c)
    {
    }
  }

  lemma UserPresent(s: State, id: nat)
    requires id in s.uses
    ensures |UsersOf(s, s.uses[id].buf)| > 0
  {
    assert id in UsersOf(s, s.uses[id].buf);
  }

  lemma UsersSame(s: State, t: State)
    requires t.uses.Keys == s.uses.Keys
    requires forall x | x in s.uses :: t.uses[x].buf == s.uses[x].buf
    ensures forall b :: UsersOf(t, b) == UsersOf(s, b)
  {
    forall b
      ensures UsersOf(t, b) == UsersOf(s, b)
    {
    }
  }

  /** A buffer nobody counts on has no caller, no lock and no pin. */
  lemma Unreferenced(s: State, b: nat)
    requires Inv(s) && b < NBUF && s.bufs[b].refcnt == 0
    ensures b !in s.pinned && s.locks[b] == None
    ensures forall id | id in s.uses :: s.uses[id].buf != b
  {
    forall id | id in s.uses
      ensures s.uses[id].buf != b
    {
      UserPresent(s, id);
    }
  }

  // ---------------------------------------------------------------- every step keeps the invariant

  lemma InitInv(s: State)
    requires Init(s)
    ensures Inv(s)
  {
    forall b | 0 <= b < NBUF
      ensures b in s.order
    {
      assert s.order[NBUF - 1 - b] == b;
    }
    forall b: nat
      ensures UsersOf(s, b) == {}
    {
    }
  }

  /** bget on a cached block only raises a count. */
  ghost predicate Hit(s: State, id: nat, key: Key, b: nat, t: State) {
    && id !in s.uses && key.0 != 0 && key in s.disk
    && b < |s.bufs| && KeyOf(s.bufs[b]) == key
    && t == WithBuf(s, b, s.bufs[b].(refcnt := s.bufs[b].refcnt + 1)).(uses := s.uses[id := Use(key, b, Waiting)])
  }

  lemma HitStructure(s: State, id: nat, key: Key, b: nat, t: State)
    requires Inv(s) && Hit(s, id, key, b, t)
    ensures Sizes(t) && RingInv(t) && UseInv(t) && CountInv(t) && UniqueInv(t)
  {
    hide ContentInv, CountInv;
    HitCounts(s, id, key, b, t);
  }

  lemma HitCounts(s: State, id: nat, key: Key, b: nat, t: State)
    requires Inv(s) && Hit(s, id, key, b, t)
    ensures Sizes(t) && CountInv(t)
  {
    hide ContentInv, RingInv, UniqueInv, UsersOf;
    UserAdded(s, t, id, b);
  }

  lemma HitContent(s: State, id: nat, key: Key, b: nat, t: State)
    requires Inv(s) && Hit(s, id, key, b, t)
    ensures Sizes(t) && ContentInv(t)
  {
    forall k | k in t.disk
      ensures t.logical[k] == t.disk[k] || IsCached(t, k)
    {
      if IsCached(s, k) {
        var c :| CachedAt(s, k, c);
        assert CachedAt(t, k, c);
      }
    }
  }

  /** bget on an uncached block takes over an unreferenced buffer. */
  ghost predicate Miss(s: State, id: nat, key: Key, b: nat, t: State) {
    && id !in s.uses && key.0 != 0 && key in s.disk
    && b < |s.bufs| && s.bufs[b].refcnt == 0
    && (forall c | 0 <= c < |s.bufs| :: KeyOf(s.bufs[c]) != key)
    && t == WithBuf(s, b, Buf(key.0, key.1, 1, false, s.bufs[b].data)).(uses := s.uses[id := Use(key, b, Waiting)])
  }

  lemma MissStructure(s: State, id: nat, key: Key, b: nat, t: State)
    requires Inv(s) && Miss(s, id, key, b, t)
    ensures Sizes(t) && RingInv(t) && UseInv(t) && CountInv(t) && UniqueInv(t)
  {
    hide ContentInv, CountInv;
    Unreferenced(s, b);
    MissCounts(s, id, key, b, t);
  }

  lemma MissCounts(s: State, id: nat, key: Key, b: nat, t: State)
    requires Inv(s) && Miss(s, id, key, b, t)
    ensures Sizes(t) && CountInv(t)
  {
    hide ContentInv, RingInv, UniqueInv;
    Unreferenced(s, b);
    UserAdded(s, t, id, b);
    assert UsersOf(s, b) == {};
  }

  lemma MissContent(s: State, id: nat, key: Key, b: nat, t: State)
    requires Inv(s) && Miss(s, id, key, b, t)
    ensures Sizes(t) && ContentInv(t)
  {
    Unreferenced(s, b);
    forall k | k in t.disk
      ensures t.logical[k] == t.disk[k] || IsCached(t, k)
    {
      if IsCached(s, k) {
        var c :| CachedAt(s, k, c);
        if c != b {
          assert CachedAt(t, k, c);
        }
      }
    }
  }

  lemma GetIsHitOrMiss(s: State, id: nat, key: Key, t: State)
    requires Inv(s) && Next(s, Get(id, key), t)
    ensures id in t.uses
    ensures Hit(s, id, key, t.uses[id].buf, t) || Miss(s, id, key, t.uses[id].buf, t)
  {
    hide UseInv, CountInv, UniqueInv, ContentInv, PinInv, UsersOf;
    if FirstHolder(s.bufs, s.order, 0, key.0, key.1) == |s.order| {
      forall c | 0 <= c < |s.bufs|
        ensures KeyOf(s.bufs[c]) != key
      {
        var i := IndexOf(s.order, c);
        assert !s.bufs[s.order[i]].Holds(key.0, key.1);
      }
    }
  }

  lemma GetKeeps(s: State, id: nat, key: Key, t: State)
    requires Inv(s) && Next(s, Get(id, key), t)
    ensures Inv(t)
  {
    hide Next, BufferCache.Get, RingInv, UseInv, CountInv, UniqueInv, ContentInv, PinInv;
    GetIsHitOrMiss(s, id, key, t);
    var b := t.uses[id].buf;
    GetPins(s, id, key, b, t);
    if Hit(s, id, key, b, t) {
      HitStructure(s, id, key, b, t);
      HitContent(s, id, key, b, t);
    } else {
      MissStructure(s, id, key, b, t);
      MissContent(s, id, key, b, t);
    }
  }

  lemma GetPins(s: State, id: nat, key: Key, b: nat, t: State)
    requires Inv(s) && (Hit(s, id, key, b, t) || Miss(s, id, key, b, t))
    ensures PinInv(t)
  {
    hide RingInv, UseInv, UniqueInv, ContentInv, UsersOf;
    PinnedInRange(s);
    PinFrame(s, t);
  }

  /** Whatever is pinned is still to be installed. */
  lemma PinnedLeft(s: State, b: nat)
    requires Inv(s) && b in s.pinned
    ensures s.tail < |s.lh|
  {
    hide RingInv, UseInv, UniqueInv, ContentInv, CountInv;
    assert KeyOf(s.bufs[b]) in s.lh[s.tail..];
  }

  lemma PinnedInRange(s: State)
    requires Inv(s)
    ensures forall b | b in s.pinned :: 0 <= b < NBUF && s.bufs[b].refcnt > 0 && s.bufs[b].valid && s.bufs[b].dev != 0
  {
    hide RingInv, UseInv, UniqueInv, ContentInv, PinInv, UsersOf;
  }

  /** Steps that change neither who uses what nor which block a buffer holds. */
  ghost predicate SameShape(s: State, t: State) {
    && Sizes(s) && Sizes(t)
    && t.order == s.order && t.stamp == s.stamp && t.clock == s.clock
    && t.uses.Keys == s.uses.Keys
    && (forall x | x in s.uses :: t.uses[x].buf == s.uses[x].buf)
    && (forall b | 0 <= b < NBUF :: KeyOf(t.bufs[b]) == KeyOf(s.bufs[b]))
    && (forall b | 0 <= b < NBUF :: s.bufs[b].valid ==> t.bufs[b].valid)
  }

  lemma CachedSame(s: State, t: State)
    requires Sizes(s) && Sizes(t)
    requires forall b | 0 <= b < NBUF :: KeyOf(t.bufs[b]) == KeyOf(s.bufs[b])
    requires forall b | 0 <= b < NBUF :: s.bufs[b].valid ==> t.bufs[b].valid
    ensures forall k | IsCached(s, k) :: IsCached(t, k)
  {
    forall k | IsCached(s, k)
      ensures IsCached(t, k)
    {
      var c :| CachedAt(s, k, c);
      assert CachedAt(t, k, c);
    }
  }

  lemma ShapeFrame(s: State, t: State)
    requires Inv(s) && SameShape(s, t)
    ensures Sizes(t) && RingInv(t) && UniqueInv(t)
    ensures forall k | IsCached(s, k) :: IsCached(t, k)
  {
    hide UseInv, CountInv, ContentInv;
    CachedSame(s, t);
  }

  /** Reference counts change only together with pins. */
  lemma CountFrame(s: State, t: State)
    requires Inv(s) && SameShape(s, t)
    requires forall b | b in t.pinned - s.pinned :: 0 <= b < NBUF && t.bufs[b].valid && t.bufs[b].dev != 0
    requires forall b: nat | b < NBUF ::
      t.bufs[b].refcnt - (if b in t.pinned then 1 else 0) == s.bufs[b].refcnt - if b in s.pinned then 1 else 0
    ensures Sizes(t) && CountInv(t)
  {
    hide RingInv, UseInv, UniqueInv, ContentInv;
    UsersSame(s, t);
    forall b | b in t.pinned
      ensures 0 <= b < NBUF && t.bufs[b].valid && t.bufs[b].dev != 0
    {
      if b in s.pinned {
        assert KeyOf(t.bufs[b]) == KeyOf(s.bufs[b]);
      } else {
        assert b in t.pinned - s.pinned;
      }
    }
  }

  lemma UseFrame(s: State, t: State)
    requires Inv(s) && SameShape(s, t) && t.uses == s.uses && t.locks == s.locks
    ensures UseInv(t)
  {
    hide RingInv, CountInv, UniqueInv, ContentInv;
  }

  /** What a caller knows about the buffer it was given. */
  lemma HolderFacts(s: State, id: nat)
    requires Inv(s) && id in s.uses
    ensures var u := s.uses[id];
      u.buf < NBUF && KeyOf(s.bufs[u.buf]) == u.key && u.key in s.disk && s.bufs[u.buf].dev != 0
    ensures s.uses[id].stage == Locked ==> s.locks[s.uses[id].buf] == Some(id)
  {
    hide RingInv, CountInv, UniqueInv;
  }

  /** Contents survive as long as no unwritten buffer loses both lock and pin. */
  lemma ContentFrame(s: State, t: State)
    requires Inv(s) && Sizes(t) && t.disk == s.disk && t.logical == s.logical
    requires forall b | 0 <= b < NBUF :: KeyOf(t.bufs[b]) == KeyOf(s.bufs[b])
    requires forall b | 0 <= b < NBUF :: t.bufs[b].data == s.bufs[b].data && t.bufs[b].valid == s.bufs[b].valid
    requires forall b | 0 <= b < NBUF && s.bufs[b].valid && (b in s.pinned || s.locks[b].Some?) ::
      || b in t.pinned
      || t.locks[b].Some?
      || (KeyOf(s.bufs[b]) in s.disk && s.bufs[b].data == s.disk[KeyOf(s.bufs[b])])
    ensures ContentInv(t)
  {
    hide RingInv, CountInv, UniqueInv, UseInv, IsCached;
    CachedSame(s, t);
  }

  lemma AcquireKeeps(s: State, id: nat, t: State)
    requires Inv(s) && Next(s, Acquire(id), t)
    ensures Inv(t)
  {
    hide PinInv, RingInv, CountInv, UniqueInv, ContentInv;
    ShapeFrame(s, t);
    CountFrame(s, t);
    ContentFrame(s, t);
    PinnedInRange(s);
    PinFrame(s, t);
  }

  lemma LoadKeeps(s: State, id: nat, t: State)
    requires Inv(s) && Next(s, Load(id), t)
    ensures Inv(t)
  {
    hide PinInv, RingInv, CountInv, UseInv, IsCached;
    HolderFacts(s, id);
    ShapeFrame(s, t);
    UseFrame(s, t);
    CountFrame(s, t);
    LoadReadsLogical(s, id);
    PinnedInRange(s);
    PinFrame(s, t);
  }

  /** The block bread reads from disk is the logical one: no other buffer has a
      newer copy. */
  lemma LoadReadsLogical(s: State, id: nat)
    requires Inv(s) && id in s.uses && !s.bufs[s.uses[id].buf].valid
    ensures s.uses[id].key in s.disk && s.disk[s.uses[id].key] == s.logical[s.uses[id].key]
  {
    var k := s.uses[id].key;
    assert !IsCached(s, k);
  }

  lemma CachedWitness(s: State, k: Key, b: nat)
    requires CachedAt(s, k, b)
    ensures IsCached(s, k)
  {
  }

  lemma ModifyKeeps(s: State, id: nat, data: Block, t: State)
    requires Inv(s) && Next(s, Modify(id, data), t)
    ensures Inv(t)
  {
    hide PinInv, RingInv, CountInv, UseInv, IsCached;
    HolderFacts(s, id);
    ShapeFrame(s, t);
    UseFrame(s, t);
    CountFrame(s, t);
    assert IsCached(t, s.uses[id].key) by {
      CachedWitness(t, s.uses[id].key, s.uses[id].buf);
    }
    PinnedInRange(s);
    PinFrame(s, t);
  }

  lemma BwriteKeeps(s: State, id: nat, t: State)
    requires Inv(s) && Next(s, Bwrite(id), t)
    ensures Inv(t)
  {
    hide PinInv, RingInv, CountInv, UseInv, IsCached;
    HolderFacts(s, id);
    ShapeFrame(s, t);
    UseFrame(s, t);
    CountFrame(s, t);
    PinnedInRange(s);
    PinFrame(s, t);
  }

  lemma LogWriteKeeps(s: State, id: nat, t: State)
    requires Inv(s) && Next(s, LogWrite(id), t)
    ensures Inv(t)
  {
    hide PinInv, RingInv, CountInv, UniqueInv, ContentInv, UseInv;
    HolderFacts(s, id);
    if s.uses[id].key !in s.lh {
      NotPinnedYet(s, id);
      ShapeFrame(s, t);
      UseFrame(s, t);
      CountFrame(s, t);
      ContentFrame(s, t);
      LogWritePins(s, id, t);
    }
  }

  lemma NotPinnedYet(s: State, id: nat)
    requires Inv(s) && id in s.uses && s.uses[id].key !in s.lh
    ensures s.uses[id].buf !in s.pinned
  {
    hide RingInv, CountInv, UniqueInv, ContentInv;
  }

  lemma LogWritePins(s: State, id: nat, t: State)
    requires Inv(s) && Next(s, LogWrite(id), t) && s.uses[id].key !in s.lh
    ensures PinInv(t)
  {
    hide RingInv, CountInv, UniqueInv, ContentInv;
    forall i | t.tail <= i < |t.lh|
      ensures HasPin(t, t.lh[i])
    {
      if i < |s.lh| {
        assert HasPin(s, s.lh[i]);
        var b: nat :| PinnedFor(s, s.lh[i], b);
        assert PinnedFor(t, t.lh[i], b);
      } else {
        assert PinnedFor(t, t.lh[i], s.uses[id].buf);
      }
    }
  }

  /** bwrite, then bunpin. */
  lemma InstallKeeps(s: State, id: nat, t: State)
    requires Inv(s) && Next(s, Install(id), t)
    ensures Inv(t)
  {
    hide PinInv, RingInv, CountInv, UniqueInv, ContentInv, UseInv;
    HolderFacts(s, id);
    var u := s.(disk := s.disk[s.uses[id].key := s.bufs[s.uses[id].buf].data]);
    BwriteKeeps(s, id, u);
    IsPinned(s, id);
    ShapeFrame(u, t);
    UseFrame(u, t);
    CountFrame(u, t);
    ContentFrame(u, t);
    InstallPins(s, id, t);
  }

  /** The buffer that install_trans gets for a logged block is the pinned one. */
  lemma IsPinned(s: State, id: nat)
    requires Inv(s) && id in s.uses && s.tail < |s.lh| && s.uses[id].key == s.lh[s.tail]
    ensures s.uses[id].buf in s.pinned
  {
    hide RingInv, CountInv, ContentInv;
    assert HasPin(s, s.lh[s.tail]);
    var b: nat :| PinnedFor(s, s.lh[s.tail], b);
    assert b == s.uses[id].buf;
  }

  lemma InstallPins(s: State, id: nat, t: State)
    requires Inv(s) && Next(s, Install(id), t) && s.uses[id].buf in s.pinned
    ensures PinInv(t)
  {
    hide RingInv, CountInv, ContentInv, UniqueInv, HasPin;
    PinnedInRange(s);
    forall i | t.tail <= i < |t.lh|
      ensures HasPin(t, t.lh[i])
    {
      assert HasPin(s, s.lh[i]) && s.lh[i] != s.lh[s.tail];
      PinStays(s, t, s.lh[i], s.uses[id].buf);
    }
    forall b | b in t.pinned
      ensures b < |t.bufs| && KeyOf(t.bufs[b]) in t.lh[t.tail..]
    {
      OtherKey(s, b, s.uses[id].buf);
      OneLess(s.lh, s.tail, KeyOf(s.bufs[b]));
    }
  }

  lemma PinStays(s: State, t: State, k: Key, b: nat)
    requires HasPin(s, k) && b < |s.bufs| == |t.bufs| && t.pinned == s.pinned - {b} && KeyOf(s.bufs[b]) != k
    requires forall c | 0 <= c < |s.bufs| :: KeyOf(t.bufs[c]) == KeyOf(s.bufs[c])
    ensures HasPin(t, k)
  {
    var c: nat :| PinnedFor(s, k, c);
    assert PinnedFor(t, k, c);
  }

  lemma OneLess(lh: seq<Key>, tail: nat, k: Key)
    requires tail < |lh| && k in lh[tail..] && k != lh[tail]
    ensures k in lh[tail + 1..]
  {
    assert lh[tail..] == [lh[tail]] + lh[tail + 1..];
  }

  lemma OtherKey(s: State, b: nat, c: nat)
    requires Sizes(s) && UniqueInv(s) && b < NBUF && c < NBUF && b != c && s.bufs[b].dev != 0 && s.bufs[c].dev != 0
    ensures KeyOf(s.bufs[b]) != KeyOf(s.bufs[c])
  {
  }

  lemma LogClearedKeeps(s: State, t: State)
    requires Inv(s) && Next(s, LogCleared, t)
    ensures Inv(t)
  {
    hide RingInv, UniqueInv;
    assert s.lh[s.tail..] == [];
    assert s.pinned == {};
    forall k | k in t.disk
      ensures t.logical[k] == t.disk[k] || IsCached(t, k)
    {
      if IsCached(s, k) {
        var c :| CachedAt(s, k, c);
        assert CachedAt(t, k, c);
      }
    }
    UsersSame(s, t);
    ClearedRing(s, t);
  }

  lemma ClearedRing(s: State, t: State)
    requires Inv(s) && t == s.(lh := [], tail := 0)
    ensures Sizes(t) && RingInv(t) && UniqueInv(t)
  {
    hide UseInv, CountInv, ContentInv, PinInv;
  }

  lemma UnlockKeeps(s: State, id: nat, t: State)
    requires Inv(s) && Next(s, Unlock(id), t)
    ensures Inv(t)
  {
    hide PinInv, RingInv, CountInv, UniqueInv, ContentInv;
    HolderFacts(s, id);
    ShapeFrame(s, t);
    CountFrame(s, t);
    ContentFrame(s, t);
    PinnedInRange(s);
    PinFrame(s, t);
  }

  lemma UserRemoved(s: State, t: State, id: nat)
    requires id in s.uses && t.uses == s.uses - {id}
    ensures |UsersOf(t, s.uses[id].buf)| == |UsersOf(s, s.uses[id].buf)| - 1
    ensures forall c | c != s.uses[id].buf :: UsersOf(t, c) == UsersOf(s, c)
  {
    var b := s.uses[id].buf;
    assert UsersOf(s, b) == UsersOf(t, b) + {id};
    forall c | c != b
      ensures UsersOf(t, c) == UsersOf(s, c)
    {
    }
  }

  /** Moving the buffer just released to the front keeps the ring sorted. */
  lemma ToFrontSorted(order: seq<nat>, stamp: seq<nat>, b: nat, clock: nat)
    requires |order| == |stamp| == NBUF && Distinct(order) && b < NBUF
    requires forall c | 0 <= c < NBUF :: c in order
    requires forall c | 0 <= c < NBUF :: stamp[c] < clock
    requires forall i, j | 0 <= i < j < NBUF :: stamp[order[i]] > stamp[order[j]]
    ensures var o, st := ToFront(order, b), stamp[b := clock];
      && |o| == NBUF
      && Distinct(o)
      && (forall c | 0 <= c < NBUF :: c in o)
      && (forall i, j | 0 <= i < j < NBUF :: st[o[i]] > st[o[j]])
  {
    var o, st, w, k := ToFront(order, b), stamp[b := clock], Without(order, b), IndexOf(order, b);
    WithoutDistinct(order, b);
    forall i, j | 0 <= i < j < NBUF
      ensures st[o[i]] > st[o[j]]
    {
      var j' := if j - 1 < k then j - 1 else j;
      assert o[j] == w[j - 1] == order[j'];
      if i > 0 {
        var i' := if i - 1 < k then i - 1 else i;
        assert o[i] == w[i - 1] == order[i'];
        assert i' < j';
      }
    }
    forall c | 0 <= c < NBUF
      ensures c in o
    {
      assert c == b || c in w;
    }
  }

  lemma ReleaseRing(s: State, id: nat, t: State)
    requires Inv(s) && Next(s, Release(id), t)
    ensures Sizes(t) && RingInv(t)
  {
    hide CountInv, UniqueInv, ContentInv, ToFront;
    var b := s.uses[id].buf;
    ToFrontSorted(s.order, s.stamp, b, s.clock);
  }

  lemma ReleaseKeeps(s: State, id: nat, t: State)
    requires Inv(s) && Next(s, Release(id), t)
    ensures Inv(t)
  {
    hide PinInv, RingInv, ContentInv, ToFront, UsersOf;
    ReleaseRing(s, id, t);
    UserRemoved(s, t, id);
    assert forall b | 0 <= b < NBUF :: KeyOf(t.bufs[b]) == KeyOf(s.bufs[b]);
    ContentFrame(s, t);
    PinnedInRange(s);
    PinFrame(s, t);
  }

  lemma NextKeeps(s: State, ev: Event, t: State)
    requires Inv(s) && Next(s, ev, t)
    ensures Inv(t)
  {
    hide Inv;
    match ev
    case Get(id, key) => GetKeeps(s, id, key, t);
    case Acquire(id) => AcquireKeeps(s, id, t);
    case Load(id) => LoadKeeps(s, id, t);
    case Modify(id, data) => ModifyKeeps(s, id, data, t);
    case Bwrite(id) => BwriteKeeps(s, id, t);
    case LogWrite(id) => LogWriteKeeps(s, id, t);
    case Install(id) => InstallKeeps(s, id, t);
    case LogCleared => LogClearedKeeps(s, t);
    case Unlock(id) => UnlockKeeps(s, id, t);
    case Release(id) => ReleaseKeeps(s, id, t);
  }

  // ---------------------------------------------------------------- runs

  ghost predicate Run(run: seq<State>, evs: seq<Event>) {
    && |run| == |evs| + 1
    && Init(run[0])
    && forall i | 0 <= i < |evs| :: Inv(run[i]) ==> Next(run[i], evs[i], run[i + 1])
  }

  lemma {:induction false} RunInv(run: seq<State>, evs: seq<Event>, i: nat)
    requires Run(run, evs) && i < |run|
    ensures Inv(run[i])
  {
    hide Next, Inv;
    if i == 0 {
      InitInv(run[0]);
    } else {
      RunInv(run, evs, i - 1);
      NextKeeps(run[i - 1], evs[i - 1], run[i]);
    }
  }

  /** Refinement: in every run, whoever holds a valid buffer holds it alone, it is
      the buffer of the block asked for, and its contents are what the plain block
      map says, which is what the last Modify of that block stored. */
  lemma BreadReturnsLogical(run: seq<State>, evs: seq<Event>, i: nat, id: nat)
    requires Run(run, evs) && i < |run| && HoldsValid(run[i], id)
    ensures var s := run[i]; var u := s.uses[id];
      && u.buf < |s.bufs| == |s.locks|
      && KeyOf(s.bufs[u.buf]) == u.key
      && u.key in s.logical
      && s.bufs[u.buf].data == s.logical[u.key]
      && s.locks[u.buf] == Some(id)
  {
    RunInv(run, evs, i);
    HolderFacts(run[i], id);
  }

  /** Only Modify changes the plain block map, and only at the caller's block. */
  lemma LogicalChangesOnlyByModify(s: State, ev: Event, t: State, k: Key)
    requires Inv(s) && Next(s, ev, t) && k in s.logical
    ensures k in t.logical
    ensures t.logical[k] != s.logical[k] ==>
      ev.Modify? && ev.id in s.uses && s.uses[ev.id].key == k && t.logical[k] == ev.data
  {
  }

  /** In every run, every block in the log header has a buffer of its own, referenced and with the
      latest contents, until install_trans has written it home; a block that is home stays as it
      was written until somebody modifies it. */
  lemma LoggedStaysCached(run: seq<State>, evs: seq<Event>, i: nat, k: nat)
    requires Run(run, evs) && i < |run| && k < |run[i].lh|
    ensures var s := run[i];
      k >= s.tail ==> exists b: nat :: PinnedFor(s, s.lh[k], b) && Latest(s, b)
  {
    hide Inv, Run;
    RunInv(run, evs, i);
    if k >= run[i].tail {
      PinnedContents(run[i], k);
    }
  }

  lemma PinnedContents(s: State, k: nat)
    requires Inv(s) && s.tail <= k < |s.lh|
    ensures exists b: nat :: PinnedFor(s, s.lh[k], b) && Latest(s, b)
  {
    hide RingInv, UseInv, UniqueInv, CountInv, IsCached;
    assert HasPin(s, s.lh[k]);
    var b: nat :| PinnedFor(s, s.lh[k], b);
    PinnedInRange(s);
    assert Latest(s, b);
  }

  lemma HeldIsLatest(s: State, id: nat)
    requires Inv(s) && HoldsValid(s, id)
    ensures s.uses[id].key in s.logical && s.bufs[s.uses[id].buf].data == s.logical[s.uses[id].key]
  {
    hide RingInv, CountInv, UniqueInv, IsCached;
  }

  /** A pinned buffer keeps its block through every step, and loses its pin only to install_trans,
      which leaves the latest contents of the block on disk. */
  lemma PinnedNotRecycled(s: State, ev: Event, t: State, b: nat)
    requires Inv(s) && Next(s, ev, t) && b in s.pinned
    ensures b < |s.bufs| == |t.bufs|
    ensures KeyOf(t.bufs[b]) == KeyOf(s.bufs[b]) && t.bufs[b].valid
    ensures b in t.pinned || (ev.Install? && KeyOf(s.bufs[b]) == s.lh[s.tail]
      && KeyOf(s.bufs[b]) in t.logical && t.disk[KeyOf(s.bufs[b])] == t.logical[KeyOf(s.bufs[b])])
  {
    hide UniqueInv, RingInv, PinInv, CountInv, UseInv, ContentInv;
    PinnedInRange(s);
    PinnedLeft(s, b);
    if ev.Get? {
      hide Next;
      GetIsHitOrMiss(s, ev.id, ev.key, t);
    } else if ev.Install? {
      HolderFacts(s, ev.id);
      HeldIsLatest(s, ev.id);
    } else if !ev.LogCleared? {
      HolderFacts(s, ev.id);
    }
  }

  /** Reference counts cannot underflow: whoever is about to drop a reference still
      has one counted. */
  lemma NoUnderflow(s: State, id: nat)
    requires Inv(s) && id in s.uses
    ensures s.uses[id].buf < |s.bufs|
    ensures s.bufs[s.uses[id].buf].refcnt >= if s.uses[id].buf in s.pinned then 2 else 1
  {
    UserPresent(s, id);
  }

  /** bget recycles the buffer whose last release lies furthest back. */
  lemma RecyclesLeastRecent(s: State, id: nat, key: Key, t: State, c: nat)
    requires Inv(s) && Next(s, Event.Get(id, key), t) && c < NBUF && s.bufs[c].refcnt == 0
    requires forall b | 0 <= b < NBUF :: KeyOf(s.bufs[b]) != key
    ensures s.stamp[t.uses[id].buf] <= s.stamp[c]
  {
    var h, u := FirstHolder(s.bufs, s.order, 0, key.0, key.1), LastUnused(s.bufs, s.order, NBUF);
    assert h == NBUF;
    var i := IndexOf(s.order, c);
    assert i <= u - 1;
  }

  /** bget can only run out of buffers when every one of them is in use or pinned. */
  lemma BgetPanicsOnlyWhenAllReferenced(s: State, key: Key)
    requires Inv(s)
    ensures BufferCache.Get(s.bufs, s.order, key.0, key.1) == None <==>
      forall b | 0 <= b < NBUF :: s.bufs[b].refcnt > 0 && KeyOf(s.bufs[b]) != key
  {
    var h, u := FirstHolder(s.bufs, s.order, 0, key.0, key.1), LastUnused(s.bufs, s.order, NBUF);
    if h == NBUF && u == 0 {
      forall b | 0 <= b < NBUF
        ensures s.bufs[b].refcnt > 0 && KeyOf(s.bufs[b]) != key
      {
        var i := IndexOf(s.order, b);
        assert !s.bufs[s.order[i]].Holds(key.0, key.1);
      }
    }
  }
}
