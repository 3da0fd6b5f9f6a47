/** On-disk structure of the file system: the free-block bitmap, the block pointers
    of the inodes, and the ownership invariant that ties the two together. */
module FsLayout {
  import opened Blocks

  const NDIRECT: nat := 12
  const NINDIRECT: nat := 256
  const MAXFILE: nat := NDIRECT + NINDIRECT
  const BPB: nat := 8192
  const IPB: nat := 16

  type Disk = seq<Block>

  datatype Super = Super(size: nat, nmeta: nat, inodestart: nat, bmapstart: nat, ninodes: nat) {
    /** Inode blocks, then bitmap blocks, all before the first data block. */
    ghost predicate Valid() {
      && 0 < nmeta <= size < TWO32
      && inodestart + ninodes / IPB < bmapstart
      && bmapstart + size / BPB < nmeta
    }
  }

  datatype Inode = Inode(addrs: seq<nat>, size: nat)

  // ---------------------------------------------------------------- bits

  function Pow2(k: nat): (p: nat) {
    if k == 0 then 1 else 2 * Pow2(k - 1)
  }

  /** `v & (1 << k)` is non-zero. */
  predicate TestBit(v: nat, k: nat) {
    if k == 0 then v % 2 == 1 else TestBit(v / 2, k - 1)
  }

  /** `v | (1 << k)` or `v & ~(1 << k)`, on a w-bit number. */
  function PutBit(v: nat, k: nat, on: bool, w: nat): (r: nat)
    requires k < w && v < Pow2(w)
    ensures r < Pow2(w)
    ensures TestBit(r, k) == on
    ensures forall j: nat | j != k :: TestBit(r, j) == TestBit(v, j)
    decreases k
  {
    if k == 0 then v - v % 2 + (if on then 1 else 0)
    else
      var h := PutBit(v / 2, k - 1, on, w - 1);
      var r := v % 2 + 2 * h;
      assert r / 2 == h;
      r
  }

  function PutByteBit(v: Byte, k: nat, on: bool): (r: Byte)
    requires k < 8
    ensures TestBit(r, k) == on
    ensures forall j: nat | j != k :: TestBit(r, j) == TestBit(v, j)
  {
    assert Pow2(8) == 256 by {
      assert Pow2(4) == 16;
    }
    PutBit(v, k, on, 8)
  }

  /** Block of the bitmap that holds the bit of block b (BBLOCK). */
  function BitmapBlock(sb: Super, b: nat): nat {
    sb.bmapstart + b / BPB
  }

  /** Is block b marked in use? */
  predicate InUse(sb: Super, disk: Disk, b: nat)
    requires BitmapBlock(sb, b) < |disk|
  {
    TestBit(disk[BitmapBlock(sb, b)][b % BPB / 8], b % 8)
  }

  /** Block `blk` of the bitmap with bit bi changed. */
  function PutBlockBit(blk: Block, bi: nat, on: bool): (r: Block)
    requires bi < BPB
    ensures TestBit(r[bi / 8], bi % 8) == on
    ensures forall c: nat | c < BPB && c != bi :: TestBit(r[c / 8], c % 8) == TestBit(blk[c / 8], c % 8)
  {
    blk[bi / 8 := PutByteBit(blk[bi / 8], bi % 8, on)]
  }

  lemma {:induction false} ZeroHasNoBits(k: nat)
    ensures !TestBit(0, k)
  {
    if k > 0 {
      ZeroHasNoBits(k - 1);
    }
  }

  // ---------------------------------------------------------------- ownership

  /** What a block is for: the one pointer that leads to it, or none. */
  datatype Owner =
    | Free
    | Meta
    | Pending                      // allocated, not yet stored anywhere
    | Direct(i: nat, k: nat)       // inodes[i].addrs[k]
    | Indirect(i: nat)             // inodes[i].addrs[NDIRECT]
    | Entry(i: nat, k: nat)        // word k of inode i's indirect block
  {
    predicate Pointer() {
      Direct? || Indirect? || Entry?
    }

    predicate Of(inum: nat) {
      Pointer() && i == inum
    }
  }

  /** Blocks and inodes, with the owner of every block. */
  datatype Fs = Fs(disk: Disk, inodes: seq<Inode>, owner: seq<Owner>)

  ghost predicate Sized(sb: Super, s: Fs) {
    && sb.Valid()
    && |s.disk| == |s.owner| == sb.size
    && forall i | 0 <= i < |s.inodes| :: |s.inodes[i].addrs| == NDIRECT + 1
  }

  /** The block number stored in a pointer, 0 when there is none. */
  ghost function Val(s: Fs, o: Owner): nat
    requires forall i | 0 <= i < |s.inodes| :: |s.inodes[i].addrs| == NDIRECT + 1
  {
    match o
    case Direct(i, k) => if i < |s.inodes| && k < NDIRECT then s.inodes[i].addrs[k] else 0
    case Indirect(i) => if i < |s.inodes| then s.inodes[i].addrs[NDIRECT] else 0
    case Entry(i, k) =>
      if i < |s.inodes| && k < NINDIRECT && 0 < s.inodes[i].addrs[NDIRECT] < |s.disk|
      then Word(s.disk[s.inodes[i].addrs[NDIRECT]], k) else 0
    case _ => 0
  }

  /** Every non-zero pointer leads to the block it owns, and every block owned by a
      pointer is what that pointer holds. */
  ghost predicate Owned(sb: Super, s: Fs)
    requires Sized(sb, s)
  {
    && (forall o: Owner :: Val(s, o) != 0 ==> Val(s, o) < sb.size && s.owner[Val(s, o)] == o)
    && (forall b: nat | b < sb.size && s.owner[b].Pointer() :: Val(s, s.owner[b]) == b)
    && (forall b: nat | b < sb.size :: s.owner[b] == Meta <==> b < sb.nmeta)
  }

  /** The bitmap marks exactly the blocks that are not free. */
  ghost predicate BitsMatch(sb: Super, s: Fs)
    requires Sized(sb, s)
  {
    forall b: nat | b < sb.size :: InUse(sb, s.disk, b) <==> s.owner[b] != Free
  }

  ghost predicate Inv(sb: Super, s: Fs) {
    Sized(sb, s) && Owned(sb, s) && BitsMatch(sb, s)
  }

  /** Nothing is allocated without being reachable. */
  ghost predicate Quiet(s: Fs) {
    forall b | 0 <= b < |s.owner| :: s.owner[b] != Pending
  }

  // ---------------------------------------------------------------- what the invariant means

  /** No block is reached twice: different pointers of all inodes, direct, indirect
      or inside indirect blocks, hold different blocks. */
  lemma PointersDistinct(sb: Super, s: Fs, o: Owner, p: Owner)
    requires Inv(sb, s) && o != p && Val(s, o) != 0
    ensures Val(s, o) != Val(s, p)
  {
  }

  /** The bits set in the bitmap are the metadata blocks and the blocks reached by
      some pointer, and no others. */
  lemma BitmapIsReachability(sb: Super, s: Fs, b: nat)
    requires Inv(sb, s) && Quiet(s) && b < sb.size
    ensures InUse(sb, s.disk, b) <==> b < sb.nmeta || exists o: Owner :: Val(s, o) == b && b != 0
  {
    if s.owner[b].Pointer() {
      assert Val(s, s.owner[b]) == b;
    }
  }

  // ---------------------------------------------------------------- preservation

  /** Setting pointer o, so far empty, to a block nobody reaches yet. */
  lemma LinkKeeps(sb: Super, s: Fs, t: Fs, o: Owner, b: nat)
    requires Sized(sb, s) && Owned(sb, s) && Sized(sb, t)
    requires b < sb.size && s.owner[b] == Pending && o.Pointer() && Val(s, o) == 0
    requires t.owner == s.owner[b := o] && Val(t, o) == b
    requires forall p: Owner | p != o :: Val(t, p) == Val(s, p)
    ensures Owned(sb, t)
  {
    forall p: Owner
      ensures Val(t, p) != 0 ==> Val(t, p) < sb.size && t.owner[Val(t, p)] == p
    {
      if p != o {
        assert Val(t, p) == Val(s, p);
      }
    }
    forall c: nat | c < sb.size && t.owner[c].Pointer()
      ensures Val(t, t.owner[c]) == c
    {
      if c != b {
        assert Val(s, s.owner[c]) == c;
      }
    }
  }

  /** Clearing pointer o and freeing its block. */
  lemma UnlinkKeeps(sb: Super, s: Fs, t: Fs, o: Owner, b: nat)
    requires Sized(sb, s) && Owned(sb, s) && Sized(sb, t)
    requires b < sb.size && s.owner[b] == o && o.Pointer()
    requires t.owner == s.owner[b := Free] && Val(t, o) == 0
    requires forall p: Owner | p != o :: Val(t, p) == Val(s, p)
    ensures Owned(sb, t)
  {
    forall p: Owner
      ensures Val(t, p) != 0 ==> Val(t, p) < sb.size && t.owner[Val(t, p)] == p
    {
      if p != o {
        assert Val(t, p) == Val(s, p);
      }
    }
    forall c: nat | c < sb.size && t.owner[c].Pointer()
      ensures Val(t, t.owner[c]) == c
    {
      assert Val(s, s.owner[c]) == c;
    }
  }

  /** Pointers depend on the inodes and on indirect blocks only. */
  lemma ValFrame(sb: Super, s: Fs, t: Fs)
    requires Sized(sb, s) && Owned(sb, s) && Sized(sb, t) && t.inodes == s.inodes
    requires forall b: nat | b < sb.size && s.owner[b].Indirect? :: t.disk[b] == s.disk[b]
    ensures forall o: Owner :: Val(t, o) == Val(s, o)
  {
    forall o: Owner
      ensures Val(t, o) == Val(s, o)
    {
      if o.Entry? && o.i < |s.inodes| {
        assert Val(s, Indirect(o.i)) == s.inodes[o.i].addrs[NDIRECT];
      }
    }
  }

  /** Writing anywhere but metadata and indirect blocks disturbs nothing. */
  lemma DataWriteKeeps(sb: Super, s: Fs, b: nat, blk: Block)
    requires Inv(sb, s) && b < sb.size && s.owner[b] != Meta && !s.owner[b].Indirect?
    ensures Inv(sb, s.(disk := s.disk[b := blk]))
    ensures forall o: Owner :: Val(s.(disk := s.disk[b := blk]), o) == Val(s, o)
  {
    var t := s.(disk := s.disk[b := blk]);
    ValFrame(sb, s, t);
    forall c: nat | c < sb.size
      ensures InUse(sb, t.disk, c) == InUse(sb, s.disk, c)
    {
      BitmapIsMeta(sb, s, c);
    }
  }

  lemma BitmapIsMeta(sb: Super, s: Fs, b: nat)
    requires Sized(sb, s) && Owned(sb, s) && b < sb.size
    ensures BitmapBlock(sb, b) < sb.nmeta && s.owner[BitmapBlock(sb, b)] == Meta
  {
  }

  /** The disk with the bit of block b changed. */
  ghost function PutInUse(sb: Super, disk: Disk, b: nat, on: bool): (r: Disk)
    requires sb.Valid() && |disk| == sb.size && b < sb.size
    ensures |r| == |disk|
    ensures forall c: nat | c < |disk| && c != BitmapBlock(sb, b) :: r[c] == disk[c]
    ensures forall c: nat | c < sb.size :: InUse(sb, r, c) == if c == b then on else InUse(sb, disk, c)
  {
    var bb := BitmapBlock(sb, b);
    var r := disk[bb := PutBlockBit(disk[bb], b % BPB, on)];
    assert forall c: nat | c < sb.size :: InUse(sb, r, c) == if c == b then on else InUse(sb, disk, c) by {
      forall c: nat | c < sb.size
        ensures InUse(sb, r, c) == if c == b then on else InUse(sb, disk, c)
      {
        BitAddress(c);
        BitAddress(b);
        if BitmapBlock(sb, c) == bb && c != b {
          assert c % BPB != b % BPB;
        }
      }
    }
    r
  }

  lemma BitAddress(b: nat)
    ensures b % BPB / 8 < BSIZE && b % BPB % 8 == b % 8 && b == b / BPB * BPB + b % BPB
  {
  }

  /** balloc: mark block b, so far free, and zero it. */
  lemma AllocKeeps(sb: Super, s: Fs, b: nat, zero: Block)
    requires Inv(sb, s) && b < sb.size && s.owner[b] == Free
    ensures var t := s.(disk := PutInUse(sb, s.disk, b, true)[b := zero], owner := s.owner[b := Pending]);
      Inv(sb, t) && forall o: Owner :: Val(t, o) == Val(s, o)
  {
    hide Word, TestBit;
    var d := PutInUse(sb, s.disk, b, true);
    var t := s.(disk := d[b := zero], owner := s.owner[b := Pending]);
    BitmapIsMeta(sb, s, b);
    ValFrame(sb, s, t);
    hide Val, PutInUse;
    forall c: nat | c < sb.size
      ensures InUse(sb, t.disk, c) <==> t.owner[c] != Free
    {
      BitmapIsMeta(sb, s, c);
      assert InUse(sb, t.disk, c) == InUse(sb, d, c);
    }
  }
}
