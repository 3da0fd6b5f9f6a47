/** The redo log: on-disk format, the disk states that commit and recovery pass
    through one block write at a time, and the in-memory log that produces them. */
module Log {
  import opened Blocks

  const MAXOPBLOCKS: nat := 10
  const LOGSIZE: nat := 30

  type Disk = seq<Block>

  /** Where the log lives: `size` blocks from `start`, the first one the header. */
  datatype Layout = Layout(start: nat, size: nat, nblocks: nat) {
    ghost predicate Valid() {
      1 <= size && start + size <= nblocks <= TWO32
    }

    /** Blocks outside the log region, the only ones file-system code logs. */
    predicate Home(b: int) {
      0 <= b < nblocks && !(start <= b < start + size)
    }

    /** A list of home blocks that fits both the header and the log region. */
    ghost predicate Fits(lh: seq<nat>) {
      && |lh| <= LOGSIZE
      && |lh| < size
      && (forall i | 0 <= i < |lh| :: Home(lh[i]))
      && (forall i, j | 0 <= i < j < |lh| :: lh[i] != lh[j])
    }
  }

  // ---------------------------------------------------------------- header block

  predicate HeaderSane(b: Block) {
    Word(b, 0) <= LOGSIZE
  }

  /** The block numbers that read_head takes from a header block. */
  function Header(b: Block): (lh: seq<nat>)
    requires HeaderSane(b)
  {
    seq(Word(b, 0), i requires 0 <= i < Word(b, 0) => Word(b, i + 1))
  }

  /** The header block after write_head has stored n and its first k entries. */
  function PutHeader(b: Block, lh: seq<nat>, k: nat): (r: Block)
    requires k <= |lh| <= LOGSIZE
    requires forall i | 0 <= i < |lh| :: lh[i] < TWO32
    ensures Word(r, 0) == |lh|
    ensures forall i: nat | i < k :: Word(r, i + 1) == lh[i]
  {
    if k == 0 then WithWord(b, 0, |lh|) else WithWord(PutHeader(b, lh, k - 1), k, lh[k - 1])
  }

  /** What write_head leaves in the header block is what read_head returns,
      whatever stale entries the block held before. */
  lemma HeaderRoundTrip(b: Block, lh: seq<nat>)
    requires |lh| <= LOGSIZE
    requires forall i | 0 <= i < |lh| :: lh[i] < TWO32
    ensures HeaderSane(PutHeader(b, lh, |lh|))
    ensures Header(PutHeader(b, lh, |lh|)) == lh
  {
    var r := PutHeader(b, lh, |lh|);
    assert forall i: nat | i < |lh| :: Header(r)[i] == Word(r, i + 1) == lh[i];
  }

  // ---------------------------------------------------------------- logical contents

  /** A disk whose log header can be trusted. */
  ghost predicate Sound(l: Layout, d: Disk) {
    && l.Valid()
    && |d| == l.nblocks
    && HeaderSane(d[l.start])
    && l.Fits(Header(d[l.start]))
  }

  ghost function DiskHeader(l: Layout, d: Disk): seq<nat>
    requires Sound(l, d)
  {
    Header(d[l.start])
  }

  /** What block b holds once recovery has run: its log slot if the header names
      it, its home location otherwise. */
  ghost function Logical(l: Layout, d: Disk, b: nat): Block
    requires Sound(l, d) && l.Home(b)
  {
    var lh := DiskHeader(l, d);
    if i: nat :| i < |lh| && lh[i] == b then d[l.start + 1 + i] else d[b]
  }

  /** Two disks that recover to the same file system. */
  ghost predicate SameLogical(l: Layout, d: Disk, e: Disk) {
    && Sound(l, d)
    && Sound(l, e)
    && forall b: nat | l.Home(b) :: Logical(l, d, b) == Logical(l, e, b)
  }

  // ---------------------------------------------------------------- single block writes

  /** Log slot i of a disk. */
  ghost function Slot(l: Layout, d: Disk, i: nat): Block
    requires l.Valid() && |d| == l.nblocks && i + 1 < l.size
  {
    d[l.start + 1 + i]
  }

  /** The disk after write_log has filled the first k slots from the cache. */
  ghost function LogDisk(l: Layout, d: Disk, lh: seq<nat>, cache: Disk, k: nat): (r: Disk)
    requires l.Valid() && |d| == |cache| == l.nblocks && l.Fits(lh) && k <= |lh|
    ensures |r| == |d|
  {
    if k == 0 then d else LogDisk(l, d, lh, cache, k - 1)[l.start + k := cache[lh[k - 1]]]
  }

  /** The disk after install_trans has copied the first k slots home. */
  ghost function InstallDisk(l: Layout, d: Disk, lh: seq<nat>, k: nat): (r: Disk)
    requires l.Valid() && |d| == l.nblocks && l.Fits(lh) && k <= |lh|
    ensures |r| == |d|
  {
    if k == 0 then d
    else
      var e := InstallDisk(l, d, lh, k - 1);
      e[lh[k - 1] := Slot(l, e, k - 1)]
  }

  /** The disk after write_head. */
  ghost function HeadDisk(l: Layout, d: Disk, lh: seq<nat>): (r: Disk)
    requires l.Valid() && |d| == l.nblocks && l.Fits(lh)
    ensures |r| == |d|
    ensures HeaderSane(r[l.start]) && Header(r[l.start]) == lh
    ensures forall b: nat | b < |d| && b != l.start :: r[b] == d[b]
  {
    HeaderRoundTrip(d[l.start], lh);
    d[l.start := PutHeader(d[l.start], lh, |lh|)]
  }

  /** The disk after the first k block writes of commit(): n log slots, the header,
      n home locations, the cleared header. */
  ghost function CommitDisk(l: Layout, d: Disk, lh: seq<nat>, cache: Disk, k: nat): (r: Disk)
    requires l.Valid() && |d| == |cache| == l.nblocks && l.Fits(lh) && k <= 2 * |lh| + 2
    ensures |r| == |d|
  {
    var n := |lh|;
    if k <= n then LogDisk(l, d, lh, cache, k)
    else
      var e := HeadDisk(l, LogDisk(l, d, lh, cache, n), lh);
      if k <= 2 * n + 1 then InstallDisk(l, e, lh, k - n - 1)
      else HeadDisk(l, InstallDisk(l, e, lh, n), [])
  }

  /** The disk after the first k block writes of recover_from_log(): the logged
      blocks in order, then the cleared header. */
  ghost function RecoverDisk(l: Layout, d: Disk, k: nat): (r: Disk)
    requires Sound(l, d) && k <= |DiskHeader(l, d)| + 1
    ensures |r| == |d|
  {
    var lh := DiskHeader(l, d);
    if k <= |lh| then InstallDisk(l, d, lh, k) else HeadDisk(l, InstallDisk(l, d, lh, |lh|), [])
  }

  /** The disks that write_log goes through. */
  ghost function LogTrace(l: Layout, d: Disk, lh: seq<nat>, cache: Disk, k: nat): (t: seq<Disk>)
    requires l.Valid() && |d| == |cache| == l.nblocks && l.Fits(lh) && k <= |lh|
    ensures |t| == k && forall i: nat | i < k :: t[i] == LogDisk(l, d, lh, cache, i + 1)
  {
    if k == 0 then [] else LogTrace(l, d, lh, cache, k - 1) + [LogDisk(l, d, lh, cache, k)]
  }

  /** The disks that install_trans goes through. */
  ghost function InstallTrace(l: Layout, d: Disk, lh: seq<nat>, k: nat): (t: seq<Disk>)
    requires l.Valid() && |d| == l.nblocks && l.Fits(lh) && k <= |lh|
    ensures |t| == k && forall i: nat | i < k :: t[i] == InstallDisk(l, d, lh, i + 1)
  {
    if k == 0 then [] else InstallTrace(l, d, lh, k - 1) + [InstallDisk(l, d, lh, k)]
  }

  /** The disks that commit() goes through. */
  ghost function CommitTrace(l: Layout, d: Disk, lh: seq<nat>, cache: Disk): (t: seq<Disk>)
    requires l.Valid() && |d| == |cache| == l.nblocks && l.Fits(lh)
    ensures |t| == 2 * |lh| + 2
  {
    var n := |lh|;
    var e := HeadDisk(l, LogDisk(l, d, lh, cache, n), lh);
    LogTrace(l, d, lh, cache, n) + [e] + InstallTrace(l, e, lh, n) + [HeadDisk(l, InstallDisk(l, e, lh, n), [])]
  }

  /** Crash point k of commit() is the disk after k + 1 block writes. */
  lemma CommitTraceAt(l: Layout, d: Disk, lh: seq<nat>, cache: Disk, k: nat)
    requires l.Valid() && |d| == |cache| == l.nblocks && l.Fits(lh) && k < 2 * |lh| + 2
    ensures CommitTrace(l, d, lh, cache)[k] == CommitDisk(l, d, lh, cache, k + 1)
  {
    var n := |lh|;
    var e := HeadDisk(l, LogDisk(l, d, lh, cache, n), lh);
    var a, b := LogTrace(l, d, lh, cache, n), InstallTrace(l, e, lh, n);
    if k < n {
      assert CommitTrace(l, d, lh, cache)[k] == a[k];
    } else if n < k <= 2 * n {
      assert CommitTrace(l, d, lh, cache)[k] == b[k - n - 1];
    }
  }

  /** The disks that recover_from_log() goes through. */
  ghost function RecoverTrace(l: Layout, d: Disk): (t: seq<Disk>)
    requires Sound(l, d)
    ensures |t| == |DiskHeader(l, d)| + 1 && forall k: nat | k < |t| :: t[k] == RecoverDisk(l, d, k + 1)
  {
    var lh := DiskHeader(l, d);
    InstallTrace(l, d, lh, |lh|) + [HeadDisk(l, InstallDisk(l, d, lh, |lh|), [])]
  }

  /** Disk e is d except that the first j blocks named in lh have contents src. */
  ghost predicate Installed(l: Layout, d: Disk, lh: seq<nat>, j: nat, src: seq<Block>, e: Disk)
    requires |d| == |e| == l.nblocks && j <= |lh| <= |src| && l.Fits(lh)
  {
    && (forall i: nat | i < j :: e[lh[i]] == src[i])
    && (forall b: nat | l.Home(b) && b !in lh[..j] :: e[b] == d[b])
  }

  ghost predicate SlotsHold(l: Layout, d: Disk, src: seq<Block>)
    requires l.Valid() && |d| == l.nblocks && |src| < l.size
  {
    forall i: nat | i < |src| :: Slot(l, d, i) == src[i]
  }

  lemma {:induction false} LogDiskShape(l: Layout, d: Disk, lh: seq<nat>, cache: Disk, k: nat)
    requires l.Valid() && |d| == |cache| == l.nblocks && l.Fits(lh) && k <= |lh|
    ensures var e := LogDisk(l, d, lh, cache, k);
      && e[l.start] == d[l.start]
      && SlotsHold(l, e, Cached(l, lh, cache)[..k])
      && (forall b: nat | l.Home(b) :: e[b] == d[b])
  {
    hide Word, PutHeader;
    if k > 0 {
      LogDiskShape(l, d, lh, cache, k - 1);
      assert forall i: nat | i < k - 1 ::
        Slot(l, LogDisk(l, d, lh, cache, k), i) == Slot(l, LogDisk(l, d, lh, cache, k - 1), i)
        == Cached(l, lh, cache)[..k - 1][i];
    }
  }

  lemma {:induction false} InstallDiskShape(l: Layout, d: Disk, lh: seq<nat>, src: seq<Block>, k: nat)
    requires l.Valid() && |d| == l.nblocks && l.Fits(lh) && |src| == |lh| && k <= |lh|
    requires SlotsHold(l, d, src)
    ensures var e := InstallDisk(l, d, lh, k);
      e[l.start] == d[l.start] && SlotsHold(l, e, src) && Installed(l, d, lh, k, src, e)
  {
    hide Word, PutHeader;
    if k > 0 {
      InstallDiskShape(l, d, lh, src, k - 1);
      var e := InstallDisk(l, d, lh, k - 1);
      assert Slot(l, e, k - 1) == src[k - 1] && l.Home(lh[k - 1]);
      InstallOne(l, d, lh, k - 1, src, e);
      assert forall i: nat | i < |src| :: Slot(l, e[lh[k - 1] := src[k - 1]], i) == Slot(l, e, i);
    }
  }

  lemma InstallOne(l: Layout, d: Disk, lh: seq<nat>, j: nat, src: seq<Block>, e: Disk)
    requires |d| == |e| == l.nblocks && j < |lh| <= |src| && l.Fits(lh)
    requires Installed(l, d, lh, j, src, e)
    ensures Installed(l, d, lh, j + 1, src, e[lh[j] := src[j]])
  {
    hide Word, PutHeader;
    var f := e[lh[j] := src[j]];
    forall b: nat | l.Home(b) && b !in lh[..j + 1]
      ensures f[b] == d[b]
    {
      assert lh[..j + 1] == lh[..j] + [lh[j]];
    }
  }

  /** The contents commit() is about to give the logged blocks. */
  ghost function Cached(l: Layout, lh: seq<nat>, cache: Disk): (src: seq<Block>)
    requires l.Fits(lh) && |cache| == l.nblocks
    ensures |src| == |lh|
  {
    seq(|lh|, i requires 0 <= i < |lh| => cache[lh[i]])
  }

  // ---------------------------------------------------------------- atomicity

  /** Block b of disk d with the contents src installed over the blocks lh. */
  ghost function Target(d: Disk, lh: seq<nat>, src: seq<Block>, b: nat): Block
    requires |lh| <= |src| && b < |d|
  {
    if i: nat :| i < |lh| && lh[i] == b then src[i] else d[b]
  }

  /** While the header names lh and the slots hold src, it does not matter how many
      blocks have been installed. */
  lemma LogicalWhileLogged(l: Layout, d: Disk, lh: seq<nat>, j: nat, src: seq<Block>, e: Disk, b: nat)
    requires l.Valid() && l.Fits(lh) && |d| == |e| == l.nblocks && |src| == |lh| && j <= |lh| && l.Home(b)
    requires HeaderSane(e[l.start]) && Header(e[l.start]) == lh
    requires SlotsHold(l, e, src) && Installed(l, d, lh, j, src, e)
    ensures Sound(l, e) && Logical(l, e, b) == Target(d, lh, src, b)
  {
    hide Word, PutHeader;
    if b in lh {
      var i: nat :| i < |lh| && lh[i] == b;
      assert Slot(l, e, i) == src[i];
    } else {
      assert b !in lh[..j];
    }
  }

  /** Once everything is installed the header may be cleared. */
  lemma LogicalWhenCleared(l: Layout, d: Disk, lh: seq<nat>, src: seq<Block>, e: Disk, b: nat)
    requires l.Valid() && l.Fits(lh) && |d| == |e| == l.nblocks && |src| == |lh| && l.Home(b)
    requires HeaderSane(e[l.start]) && Header(e[l.start]) == []
    requires Installed(l, d, lh, |lh|, src, e)
    ensures Sound(l, e) && Logical(l, e, b) == e[b] == Target(d, lh, src, b)
  {
    hide Word, PutHeader;
    if b in lh {
      var i: nat :| i < |lh| && lh[i] == b;
      assert e[lh[i]] == src[i];
    } else {
      assert b !in lh[..|lh|];
    }
  }

  lemma TargetIsCache(l: Layout, d: Disk, lh: seq<nat>, cache: Disk, b: nat)
    requires |cache| == |d| == l.nblocks && l.Fits(lh) && l.Home(b)
    requires forall c: nat | l.Home(c) && c !in lh :: cache[c] == d[c]
    ensures Target(d, lh, Cached(l, lh, cache), b) == cache[b]
  {
  }

  /** Crash atomicity of one commit: after any number of its block writes the disk
      recovers to the old contents if the header write is not yet done, and to the
      new contents from the header write on. */
  lemma CommitAtomic(l: Layout, d: Disk, lh: seq<nat>, cache: Disk, k: nat, b: nat)
    requires Sound(l, d) && DiskHeader(l, d) == [] && |cache| == |d| && l.Fits(lh)
    requires forall c: nat | l.Home(c) && c !in lh :: cache[c] == d[c]
    requires k <= 2 * |lh| + 2 && l.Home(b)
    ensures Sound(l, CommitDisk(l, d, lh, cache, k))
    ensures Logical(l, CommitDisk(l, d, lh, cache, k), b) == if |lh| < k then cache[b] else d[b]
  {
    hide Word, PutHeader, InstallDisk, LogDisk, Cached;
    var n := |lh|;
    LogDiskShape(l, d, lh, cache, if k <= n then k else n);
    if n < k {
      var e := HeadDisk(l, LogDisk(l, d, lh, cache, n), lh);
      CommittedSlots(l, d, lh, cache);
      if k <= 2 * n + 1 {
        InstallPartway(l, e, lh, cache, k - n - 1, b);
      } else {
        InstallThenClear(l, e, lh, cache, b);
      }
    }
  }

  lemma InstallPartway(l: Layout, e: Disk, lh: seq<nat>, cache: Disk, j: nat, b: nat)
    requires l.Valid() && |e| == |cache| == l.nblocks && l.Fits(lh) && j <= |lh| && l.Home(b)
    requires HeaderSane(e[l.start]) && Header(e[l.start]) == lh
    requires forall c: nat | l.Home(c) && c !in lh :: cache[c] == e[c]
    requires SlotsHold(l, e, Cached(l, lh, cache))
    ensures var f := InstallDisk(l, e, lh, j);
      Sound(l, f) && Logical(l, f, b) == cache[b]
  {
    hide Word, PutHeader;
    var src := Cached(l, lh, cache);
    InstallDiskShape(l, e, lh, src, j);
    TargetIsCache(l, e, lh, cache, b);
    LogicalWhileLogged(l, e, lh, j, src, InstallDisk(l, e, lh, j), b);
  }

  /** What commit() leaves when it has run to its end. */
  lemma CommitFinished(l: Layout, d: Disk, lh: seq<nat>, cache: Disk, b: nat)
    requires l.Valid() && |d| == |cache| == l.nblocks && l.Fits(lh) && l.Home(b)
    requires forall c: nat | l.Home(c) && c !in lh :: cache[c] == d[c]
    ensures var e := CommitDisk(l, d, lh, cache, 2 * |lh| + 2);
      Sound(l, e) && DiskHeader(l, e) == [] && e[b] == cache[b]
  {
    hide Word, PutHeader;
    var n := |lh|;
    LogDiskShape(l, d, lh, cache, n);
    var e := HeadDisk(l, LogDisk(l, d, lh, cache, n), lh);
    CommittedSlots(l, d, lh, cache);
    InstallThenClear(l, e, lh, cache, b);
  }

  lemma InstallThenClear(l: Layout, e: Disk, lh: seq<nat>, cache: Disk, b: nat)
    requires l.Valid() && |e| == |cache| == l.nblocks && l.Fits(lh) && l.Home(b)
    requires forall c: nat | l.Home(c) && c !in lh :: cache[c] == e[c]
    requires SlotsHold(l, e, Cached(l, lh, cache))
    ensures var f := HeadDisk(l, InstallDisk(l, e, lh, |lh|), []);
      Sound(l, f) && DiskHeader(l, f) == [] && Logical(l, f, b) == f[b] == cache[b]
  {
    hide Word, PutHeader, Header, InstallDisk, HeadDisk, Cached, Target;
    var src := Cached(l, lh, cache);
    InstallDiskShape(l, e, lh, src, |lh|);
    var f := InstallDisk(l, e, lh, |lh|);
    TargetIsCache(l, e, lh, cache, b);
    HeadKeepsInstalled(l, e, lh, src, f, []);
    LogicalWhenCleared(l, e, lh, src, HeadDisk(l, f, []), b);
  }

  lemma HeadKeepsInstalled(l: Layout, d: Disk, lh: seq<nat>, src: seq<Block>, e: Disk, lh': seq<nat>)
    requires l.Valid() && |d| == |e| == l.nblocks && |src| == |lh| && l.Fits(lh) && l.Fits(lh')
    requires Installed(l, d, lh, |lh|, src, e)
    ensures Installed(l, d, lh, |lh|, src, HeadDisk(l, e, lh'))
  {
    hide Word, PutHeader;
    var f := HeadDisk(l, e, lh');
    forall i: nat | i < |lh|
      ensures f[lh[i]] == src[i]
    {
      assert l.Home(lh[i]) && e[lh[i]] == src[i];
    }
  }

  lemma CommittedSlots(l: Layout, d: Disk, lh: seq<nat>, cache: Disk)
    requires l.Valid() && |d| == |cache| == l.nblocks && l.Fits(lh)
    ensures SlotsHold(l, HeadDisk(l, LogDisk(l, d, lh, cache, |lh|), lh), Cached(l, lh, cache))
  {
    hide Word, PutHeader;
    var src := Cached(l, lh, cache);
    LogDiskShape(l, d, lh, cache, |lh|);
    assert src[..|lh|] == src;
    var e := LogDisk(l, d, lh, cache, |lh|);
    var f := HeadDisk(l, e, lh);
    forall i: nat | i < |src|
      ensures Slot(l, f, i) == src[i]
    {
      assert Slot(l, e, i) == src[i];
    }
  }

  ghost function Slots(l: Layout, d: Disk): (src: seq<Block>)
    requires Sound(l, d)
    ensures |src| == |DiskHeader(l, d)| && SlotsHold(l, d, src)
  {
    seq(|DiskHeader(l, d)|, i requires 0 <= i < |DiskHeader(l, d)| => Slot(l, d, i))
  }

  /** A crash after any block write of recovery leaves a disk that recovers to the
      same contents, so recovery may be interrupted and restarted at will. */
  lemma RecoveryRestartable(l: Layout, d: Disk, k: nat)
    requires Sound(l, d) && k <= |DiskHeader(l, d)| + 1
    ensures SameLogical(l, d, RecoverDisk(l, d, k))
  {
    hide Word, PutHeader;
    var e, lh, src := RecoverDisk(l, d, k), DiskHeader(l, d), Slots(l, d);
    InstallDiskShape(l, d, lh, src, if k <= |lh| then k else |lh|);
    forall b: nat | l.Home(b)
      ensures Sound(l, e) && Logical(l, d, b) == Logical(l, e, b)
    {
      LogicalWhileLogged(l, d, lh, 0, src, d, b);
      if k <= |lh| {
        LogicalWhileLogged(l, d, lh, k, src, e, b);
      } else {
        LogicalWhenCleared(l, d, lh, src, e, b);
      }
    }
  }

  /** Recovery that runs to its end empties the log and leaves every home block
      holding its logical contents. */
  lemma RecoveryCompletes(l: Layout, d: Disk, b: nat)
    requires Sound(l, d) && l.Home(b)
    ensures var e := RecoverDisk(l, d, |DiskHeader(l, d)| + 1);
      Sound(l, e) && DiskHeader(l, e) == [] && e[b] == Logical(l, d, b)
  {
    hide Word, PutHeader;
    var lh, src := DiskHeader(l, d), Slots(l, d);
    InstallDiskShape(l, d, lh, src, |lh|);
    LogicalWhileLogged(l, d, lh, 0, src, d, b);
    LogicalWhenCleared(l, d, lh, src, RecoverDisk(l, d, |lh| + 1), b);
  }

  lemma RecoveryEmptiesLog(l: Layout, d: Disk)
    requires Sound(l, d)
    ensures var e := RecoverDisk(l, d, |DiskHeader(l, d)| + 1);
      Sound(l, e) && DiskHeader(l, e) == []
  {
  }

  /** A boot that is cut short after each of the given numbers of block writes. */
  ghost function Boots(l: Layout, d: Disk, cuts: seq<nat>): (r: Disk)
    requires Sound(l, d)
    ensures SameLogical(l, d, r)
    decreases |cuts|
  {
    if cuts == [] then d
    else
      var k := if cuts[0] <= |DiskHeader(l, d)| then cuts[0] else |DiskHeader(l, d)| + 1;
      RecoveryRestartable(l, d, k);
      Boots(l, RecoverDisk(l, d, k), cuts[1..])
  }

  /** Crash atomicity through any number of crashes: a commit cut after k block
      writes, then recoveries cut anywhere, then one full recovery, gives home
      blocks that are all from before the transaction or all from after it; they
      are from after it exactly when the header write was among the k. */
  lemma CommitThenCrashes(l: Layout, d: Disk, lh: seq<nat>, cache: Disk, k: nat, cuts: seq<nat>, b: nat)
    requires Sound(l, d) && DiskHeader(l, d) == [] && |cache| == |d| && l.Fits(lh)
    requires forall c: nat | l.Home(c) && c !in lh :: cache[c] == d[c]
    requires k <= 2 * |lh| + 2 && l.Home(b)
    ensures Sound(l, CommitDisk(l, d, lh, cache, k))
    ensures var e := Boots(l, CommitDisk(l, d, lh, cache, k), cuts);
      RecoverDisk(l, e, |DiskHeader(l, e)| + 1)[b] == if |lh| < k then cache[b] else d[b]
  {
    hide Word, PutHeader;
    CommitAtomic(l, d, lh, cache, k, b);
    var e := Boots(l, CommitDisk(l, d, lh, cache, k), cuts);
    RecoveryCompletes(l, e, b);
  }

  // ---------------------------------------------------------------- the in-memory log

  lemma Regroup(w: seq<Disk>, a: seq<Disk>, e: Disk, b: seq<Disk>, f: Disk)
    ensures w + a + [e] + b + [f] == w + (a + [e] + b + [f])
  {
  }

  /** Blocks that the open operations may still add to the log, all together. */
  ghost function Sum(left: seq<nat>): nat {
    if left == [] then 0 else Sum(left[..|left| - 1]) + left[|left| - 1]
  }

  lemma {:induction false} SumBound(left: seq<nat>)
    requires forall i | 0 <= i < |left| :: left[i] <= MAXOPBLOCKS
    ensures Sum(left) <= |left| * MAXOPBLOCKS
  {
    if left != [] {
      SumBound(left[..|left| - 1]);
    }
  }

  lemma {:induction false} SumUpdate(left: seq<nat>, i: nat, x: nat)
    requires i < |left|
    ensures Sum(left[i := x]) == Sum(left) - left[i] + x
  {
    var n := |left| - 1;
    if i == n {
      assert left[i := x][..n] == left[..n];
    } else {
      SumUpdate(left[..n], i, x);
      assert left[i := x][..n] == left[..n][i := x];
    }
  }

  lemma SumLess(left: seq<nat>, i: nat)
    requires i < |left| && left[i] > 0
    ensures 0 < Sum(left) == Sum(left[i := left[i] - 1]) + 1
  {
    SumUpdate(left, i, left[i] - 1);
  }

  lemma {:induction false} SumRemove(left: seq<nat>, i: nat)
    requires i < |left|
    ensures Sum(left[..i] + left[i + 1..]) == Sum(left) - left[i]
  {
    var n := |left| - 1;
    var rest := left[..i] + left[i + 1..];
    if i == n {
      assert rest == left[..n];
    } else {
      SumRemove(left[..n], i);
      assert rest[..n - 1] == left[..n][..i] + left[..n][i + 1..] && rest[n - 1] == left[n];
    }
  }

  datatype LogOutcome = Logged | TooBig | OutsideTransaction

  /** `struct log` together with the buffer cache it copies through and the disk.
      `writes` lists the disk after every single block write. */
  class LogState {
    const l: Layout
    var disk: Disk
    var cache: Disk
    var n: nat
    var block: seq<nat>
    var outstanding: nat
    var committing: bool
    ghost var writes: seq<Disk>
    /** For each open operation, how many blocks it may still add to the log. */
    ghost var left: seq<nat>

    /** What begin_op promises: whatever the open operations still add, the log holds it. */
    ghost predicate Reserves()
      reads this
    {
      && |left| == outstanding && (forall i | 0 <= i < |left| :: left[i] <= MAXOPBLOCKS)
      && n + Sum(left) <= LOGSIZE
    }

    ghost predicate Valid()
      reads this
    {
      && l.Valid()
      && |disk| == |cache| == l.nblocks
      && |block| == LOGSIZE
      && n <= LOGSIZE
      && l.Fits(block[..n])
      && (forall b: nat | l.start <= b < l.start + l.size :: cache[b] == disk[b])
    }

    /** The in-memory header's block list. */
    ghost function Lh(): seq<nat>
      requires n <= |block|
      reads this
    {
      block[..n]
    }

    /** bwrite of a buffer now holding `data`: one atomic block write. */
    method Bwrite(b: nat, data: Block)
      requires b < |disk| == |cache|
      modifies this`disk, this`cache, this`writes
      ensures disk == old(disk)[b := data] && cache == old(cache)[b := data]
      ensures writes == old(writes) + [disk]
    {
      cache := cache[b := data];
      disk := disk[b := data];
      writes := writes + [disk];
    }

    /** write_head: n and the block list over whatever the header block held. */
    method WriteHead()
      requires Valid()
      modifies this`disk, this`cache, this`writes
      ensures Valid()
      ensures disk == HeadDisk(l, old(disk), Lh())
      ensures cache == HeadDisk(l, old(cache), Lh())
      ensures writes == old(writes) + [disk]
    {
      hide Word, WithWord, Header;
      var buf := WithWord(cache[l.start], 0, n);
      var i := 0;
      while i < n
        invariant 0 <= i <= n
        invariant buf == PutHeader(old(disk)[l.start], Lh(), i)
      {
        buf := WithWord(buf, i + 1, block[i]);
        i := i + 1;
      }
      Bwrite(l.start, buf);
    }

    /** read_head: the in-memory header becomes the one on disk. */
    method ReadHead()
      requires Valid() && Sound(l, disk)
      modifies this`n, this`block
      ensures Valid() && Lh() == DiskHeader(l, disk)
    {
      var buf := cache[l.start];
      n := Word(buf, 0);
      var i := 0;
      while i < n
        invariant 0 <= i <= n == |Header(buf)|
        invariant |block| == LOGSIZE
        invariant forall j | 0 <= j < i :: block[j] == Header(buf)[j]
        modifies this`block
      {
        block := block[i := Word(buf, i + 1)];
        i := i + 1;
      }
      assert block[..n] == Header(buf);
    }

    /** write_log: cached blocks into the log slots, in order. */
    method WriteLog()
      requires Valid()
      modifies this`disk, this`cache, this`writes
      ensures Valid()
      ensures disk == LogDisk(l, old(disk), Lh(), old(cache), n)
      ensures cache == LogDisk(l, old(cache), Lh(), old(cache), n)
      ensures writes == old(writes) + LogTrace(l, old(disk), Lh(), old(cache), n)
    {
      ghost var lh, d, c := Lh(), disk, cache;
      var tail := 0;
      while tail < n
        invariant 0 <= tail <= n && Valid()
        invariant disk == LogDisk(l, d, lh, c, tail)
        invariant cache == LogDisk(l, c, lh, c, tail)
        invariant writes == old(writes) + LogTrace(l, d, lh, c, tail)
      {
        LogDiskShape(l, c, lh, c, tail);
        assert l.Home(lh[tail]);
        Bwrite(l.start + tail + 1, cache[block[tail]]);
        tail := tail + 1;
      }
    }

    /** install_trans: log slots to their home blocks, in order. */
    method InstallTrans()
      requires Valid()
      modifies this`disk, this`cache, this`writes
      ensures Valid()
      ensures disk == InstallDisk(l, old(disk), Lh(), n)
      ensures cache == InstallDisk(l, old(cache), Lh(), n)
      ensures writes == old(writes) + InstallTrace(l, old(disk), Lh(), n)
    {
      ghost var lh, d, c := Lh(), disk, cache;
      var tail := 0;
      while tail < n
        invariant 0 <= tail <= n && Valid()
        invariant disk == InstallDisk(l, d, lh, tail)
        invariant cache == InstallDisk(l, c, lh, tail)
        invariant writes == old(writes) + InstallTrace(l, d, lh, tail)
      {
        assert l.Home(lh[tail]);
        assert Slot(l, cache, tail) == Slot(l, disk, tail);
        Bwrite(block[tail], cache[l.start + tail + 1]);
        tail := tail + 1;
      }
    }

    /** commit(): its block writes are exactly the disks of CommitTrace. */
    method Commit()
      requires Valid()
      modifies this`disk, this`cache, this`n, this`writes
      ensures Valid() && n == 0
      ensures old(n) == 0 ==> writes == old(writes) && disk == old(disk) && cache == old(cache)
      ensures old(n) > 0 ==>
        && writes == old(writes) + CommitTrace(l, old(disk), old(Lh()), old(cache))
        && disk == CommitDisk(l, old(disk), old(Lh()), old(cache), 2 * old(n) + 2)
        && cache == CommitDisk(l, old(cache), old(Lh()), old(cache), 2 * old(n) + 2)
    {
      if n > 0 {
        ghost var w, lh, d, c := writes, Lh(), disk, cache;
        WriteLog();
        WriteHead();
        ghost var e := disk;
        InstallTrans();
        n := 0;
        assert Lh() == [];
        WriteHead();
        Regroup(w, LogTrace(l, d, lh, c, |lh|), e, InstallTrace(l, e, lh, |lh|), disk);
      }
    }

    /** recover_from_log(): its block writes are exactly the disks of RecoverTrace. */
    method RecoverFromLog()
      requires Valid() && Sound(l, disk)
      modifies this`disk, this`cache, this`n, this`block, this`writes
      ensures Valid() && n == 0
      ensures writes == old(writes) + RecoverTrace(l, old(disk))
      ensures disk == RecoverDisk(l, old(disk), |DiskHeader(l, old(disk))| + 1)
      ensures old(cache == disk) ==> cache == disk
    {
      ReadHead();
      InstallTrans();
      n := 0;
      assert Lh() == [];
      WriteHead();
    }

    /** One round of begin_op's loop: the operation may add MAXOPBLOCKS blocks, whatever the others
        do with what they were promised, or it is left waiting. It waits only for a commit, or when
        the others and it could between them ask for more than the log. */
    method TryBeginOp() returns (admitted: bool)
      requires Reserves()
      modifies this`outstanding, this`left
      ensures Reserves()
      ensures left == if admitted then old(left) + [MAXOPBLOCKS] else old(left)
      ensures !admitted ==> committing || n + (outstanding + 1) * MAXOPBLOCKS > LOGSIZE
      ensures admitted ==> !committing && n + outstanding * MAXOPBLOCKS <= LOGSIZE
    {
      if committing {
        return false;
      } else if n + (outstanding + 1) * MAXOPBLOCKS > LOGSIZE {
        return false;
      } else {
        SumBound(left);
        outstanding := outstanding + 1;
        left := left + [MAXOPBLOCKS];
        assert left[..|left| - 1] == old(left);
        return true;
      }
    }

    /** log_write of a buffer holding `data`: absorbed when its block is already
        logged, appended otherwise, a panic when the log looks full. From inside an operation that
        has something left of its promise, LOGSIZE is never reached. */
    method LogWrite(b: nat, data: Block, ghost op: nat) returns (r: LogOutcome)
      requires Valid() && l.Home(b)
      modifies this`cache, this`n, this`block, this`left
      ensures Valid()
      ensures r == TooBig <==> old(n) >= LOGSIZE || old(n) >= l.size - 1
      ensures r == OutsideTransaction <==> r != TooBig && outstanding < 1
      ensures old(Reserves()) && op < |old(left)| && old(left)[op] > 0 ==> old(n) < LOGSIZE
      ensures old(Reserves()) && (b in old(Lh()) || (op < |old(left)| && old(left)[op] > 0)) ==> Reserves()
      ensures r == Logged ==>
        && outstanding >= 1
        && cache == old(cache)[b := data]
        && Lh() == if b in old(Lh()) then old(Lh()) else old(Lh()) + [b]
      ensures r != Logged ==> cache == old(cache) && Lh() == old(Lh())
    {
      hide Sum;
      if op < |left| && left[op] > 0 {
        SumLess(left, op);
      }
      if n >= LOGSIZE || n >= l.size - 1 {
        return TooBig;
      }
      if outstanding < 1 {
        return OutsideTransaction;
      }
      cache := cache[b := data];
      var i := 0;
      while i < n && block[i] != b
        invariant 0 <= i <= n
        invariant b !in Lh()[..i]
      {
        i := i + 1;
      }
      ghost var lh := Lh();
      block := block[i := b];
      if i == n {
        n := n + 1;
        if op < |left| && left[op] > 0 {
          left := left[op := left[op] - 1];
        }
        assert block[..n] == lh + [b];
      } else {
        assert lh[i] == b && block[..n] == lh;
      }
      return Logged;
    }

    /** end_op: the last operation out commits the whole group; what operation op had left of its
        promise is given back. */
    method EndOp(ghost op: nat)
      requires Valid() && outstanding >= 1 && !committing
      modifies this`disk, this`cache, this`n, this`writes, this`outstanding, this`committing, this`left
      ensures Valid() && !committing && outstanding == old(outstanding) - 1
      ensures old(Reserves()) && op < |old(left)| ==> Reserves() && left == old(left)[..op] + old(left)[op + 1..]
      ensures outstanding > 0 || old(n) == 0 ==> n == old(n) && writes == old(writes) && disk == old(disk)
      ensures outstanding == 0 && old(n) > 0 ==>
        n == 0 && writes == old(writes) + CommitTrace(l, old(disk), old(Lh()), old(cache))
    {
      if op < |left| {
        SumRemove(left, op);
        left := left[..op] + left[op + 1..];
      }
      outstanding := outstanding - 1;
      if outstanding == 0 {
        committing := true;
        Commit();
        committing := false;
      }
    }
  }
}
