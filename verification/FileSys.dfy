/** Block allocation, the inode block map, truncation and file input/output. */
module FileSys {
  import opened Options
  import opened Blocks
  import opened FsLayout
  import Log

  // ---------------------------------------------------------------- file contents

  /** The pointer that leads to block bn of file i. */
  ghost function FileSlot(i: nat, bn: nat): Owner {
    if bn < NDIRECT then Direct(i, bn) else Entry(i, bn - NDIRECT)
  }

  ghost predicate Shaped(s: Fs) {
    forall i | 0 <= i < |s.inodes| :: |s.inodes[i].addrs| == NDIRECT + 1
  }

  /** Byte o of file i; a byte in a block that was never allocated reads as 0. */
  ghost function ByteAt(s: Fs, i: nat, o: nat): Byte
    requires Shaped(s)
  {
    var b := Val(s, FileSlot(i, o / BSIZE));
    if 0 < b < |s.disk| then s.disk[b][o % BSIZE] else 0
  }

  /** n bytes of file i from position off on. */
  ghost function Slice(s: Fs, i: nat, off: nat, n: nat): (r: seq<Byte>)
    requires Shaped(s)
    ensures |r| == n
    ensures forall x: nat | x < n :: r[x] == ByteAt(s, i, off + x)
  {
    if n == 0 then [] else Slice(s, i, off, n - 1) + [ByteAt(s, i, off + n - 1)]
  }

  lemma SliceSplit(s: Fs, i: nat, off: nat, a: nat, b: nat)
    requires Shaped(s)
    ensures Slice(s, i, off, a + b) == Slice(s, i, off, a) + Slice(s, i, off + a, b)
  {
  }

  lemma SliceOfContent(s: Fs, i: nat, off: nat, n: nat)
    requires Shaped(s) && i < |s.inodes| && off + n <= s.inodes[i].size
    ensures Content(s, i)[off..off + n] == Slice(s, i, off, n)
  {
  }

  /** Bytes of one block. */
  lemma ChunkIsSlice(s: Fs, i: nat, pos: nat, m: nat)
    requires Shaped(s) && 0 < Val(s, FileSlot(i, pos / BSIZE)) < |s.disk| && pos % BSIZE + m <= BSIZE
    ensures s.disk[Val(s, FileSlot(i, pos / BSIZE))][pos % BSIZE..pos % BSIZE + m] == Slice(s, i, pos, m)
  {
    hide Val;
    var chunk := s.disk[Val(s, FileSlot(i, pos / BSIZE))][pos % BSIZE..pos % BSIZE + m];
    forall x: nat | x < m
      ensures chunk[x] == ByteAt(s, i, pos + x)
    {
      WithinBlock(pos, x);
    }
  }

  ghost function Content(s: Fs, i: nat): (r: seq<Byte>)
    requires Shaped(s) && i < |s.inodes|
  {
    Slice(s, i, 0, s.inodes[i].size)
  }

  /** Every block that holds one of the first n bytes of file i is allocated. */
  ghost predicate Covers(s: Fs, i: nat, n: nat)
    requires Shaped(s)
  {
    forall bn: nat | bn * BSIZE < n :: Val(s, FileSlot(i, bn)) != 0
  }

  /** File i has no hole below its size. */
  ghost predicate NoHoles(s: Fs, i: nat)
    requires Shaped(s) && i < |s.inodes|
  {
    Covers(s, i, s.inodes[i].size)
  }

  /** `data` written over the bytes of c from position off on. */
  ghost function Splice(c: seq<Byte>, off: nat, data: seq<Byte>): (r: seq<Byte>)
    requires off <= |c|
    ensures |r| == if off + |data| > |c| then off + |data| else |c|
  {
    c[..off] + data + if off + |data| <= |c| then c[off + |data|..] else []
  }

  function Min(a: nat, b: nat): nat {
    if a < b then a else b
  }

  // ---------------------------------------------------------------- growing the block map

  ghost predicate DataPointer(o: Owner) {
    o.Direct? || o.Entry?
  }

  ghost predicate AllZero(blk: Block) {
    forall x | 0 <= x < BSIZE :: blk[x] == 0
  }

  /** t is s with pointers added: old ones keep their blocks and contents, and the
      data blocks that new ones lead to are zero. */
  ghost predicate Grown(sb: Super, s: Fs, t: Fs) {
    && Sized(sb, s) && Sized(sb, t)
    && |t.inodes| == |s.inodes|
    && (forall i | 0 <= i < |s.inodes| :: t.inodes[i].size == s.inodes[i].size)
    && (forall o: Owner :: Val(s, o) != 0 ==> Val(t, o) == Val(s, o) < sb.size)
    && (forall o: Owner | DataPointer(o) && Val(s, o) != 0 :: t.disk[Val(s, o)] == s.disk[Val(s, o)])
    && (forall o: Owner | DataPointer(o) && Val(s, o) == 0 && 0 < Val(t, o) < sb.size :: AllZero(t.disk[Val(t, o)]))
  }

  /** Growth changes no byte of any file. */
  lemma GrownBytes(sb: Super, s: Fs, t: Fs)
    requires Grown(sb, s, t)
    ensures forall j: nat, o: nat :: ByteAt(t, j, o) == ByteAt(s, j, o)
  {
    hide Val;
    forall j: nat, o: nat
      ensures ByteAt(t, j, o) == ByteAt(s, j, o)
    {
      var p := FileSlot(j, o / BSIZE);
      assert DataPointer(p);
      if Val(s, p) == 0 && 0 < Val(t, p) < sb.size {
        assert AllZero(t.disk[Val(t, p)]);
      }
    }
  }

  lemma GrownShape(sb: Super, s: Fs, t: Fs)
    requires Grown(sb, s, t)
    ensures |t.inodes| == |s.inodes| && forall i | 0 <= i < |s.inodes| :: t.inodes[i].size == s.inodes[i].size
    ensures forall o: Owner :: Val(s, o) != 0 ==> Val(t, o) == Val(s, o)
  {
  }

  lemma GrownSlice(sb: Super, s: Fs, t: Fs, i: nat, off: nat, n: nat)
    requires Grown(sb, s, t)
    ensures Slice(t, i, off, n) == Slice(s, i, off, n)
  {
    GrownBytes(sb, s, t);
  }

  lemma ClaimGrows(sb: Super, s: Fs, b: nat)
    requires Inv(sb, s) && b < sb.size && s.owner[b] == Free
    ensures var t := Fs(PutInUse(sb, s.disk, b, true)[b := ZeroBlock()], s.inodes, s.owner[b := Pending]);
      Grown(sb, s, t)
  {
    hide Word, TestBit;
    AllocKeeps(sb, s, b, ZeroBlock());
    BitmapIsMeta(sb, s, b);
    hide Val;
  }

  lemma LinkDirect(sb: Super, s: Fs, i: nat, k: nat, b: nat)
    requires Inv(sb, s) && i < |s.inodes| && k < NDIRECT && s.inodes[i].addrs[k] == 0
    requires 0 < b < sb.size && s.owner[b] == Pending && AllZero(s.disk[b])
    ensures var t := Fs(s.disk, s.inodes[i := s.inodes[i].(addrs := s.inodes[i].addrs[k := b])],
                        s.owner[b := Direct(i, k)]);
      && Inv(sb, t) && Grown(sb, s, t) && Val(t, Direct(i, k)) == b
      && (forall p: Owner | p != Direct(i, k) :: Val(t, p) == Val(s, p))
  {
    hide Word, TestBit;
    var t := Fs(s.disk, s.inodes[i := s.inodes[i].(addrs := s.inodes[i].addrs[k := b])], s.owner[b := Direct(i, k)]);
    forall p: Owner | p != Direct(i, k)
      ensures Val(t, p) == Val(s, p)
    {
    }
    LinkKeeps(sb, s, t, Direct(i, k), b);
  }

  lemma LinkIndirect(sb: Super, s: Fs, i: nat, b: nat)
    requires Inv(sb, s) && i < |s.inodes| && s.inodes[i].addrs[NDIRECT] == 0
    requires 0 < b < sb.size && s.owner[b] == Pending && AllZero(s.disk[b])
    ensures var t := Fs(s.disk, s.inodes[i := s.inodes[i].(addrs := s.inodes[i].addrs[NDIRECT := b])],
                        s.owner[b := Indirect(i)]);
      && Inv(sb, t) && Grown(sb, s, t) && Val(t, Indirect(i)) == b
      && (forall p: Owner | p != Indirect(i) :: Val(t, p) == Val(s, p))
  {
    hide TestBit;
    var t := Fs(s.disk, s.inodes[i := s.inodes[i].(addrs := s.inodes[i].addrs[NDIRECT := b])],
                s.owner[b := Indirect(i)]);
    forall p: Owner | p != Indirect(i)
      ensures Val(t, p) == Val(s, p)
    {
    }
    LinkKeeps(sb, s, t, Indirect(i), b);
  }

  lemma LinkEntry(sb: Super, s: Fs, i: nat, k: nat, b: nat)
    requires Inv(sb, s) && i < |s.inodes| && k < NINDIRECT
    requires 0 < s.inodes[i].addrs[NDIRECT] < sb.size && Val(s, Entry(i, k)) == 0
    requires 0 < b < sb.size && s.owner[b] == Pending && AllZero(s.disk[b])
    ensures var ind := s.inodes[i].addrs[NDIRECT];
      var t := Fs(s.disk[ind := WithWord(s.disk[ind], k, b)], s.inodes, s.owner[b := Entry(i, k)]);
      && Inv(sb, t) && Grown(sb, s, t) && Val(t, Entry(i, k)) == b
      && (forall p: Owner | p != Entry(i, k) :: Val(t, p) == Val(s, p))
  {
    hide Word, WithWord, TestBit;
    var ind := s.inodes[i].addrs[NDIRECT];
    assert Val(s, Indirect(i)) == ind;
    var t := Fs(s.disk[ind := WithWord(s.disk[ind], k, b)], s.inodes, s.owner[b := Entry(i, k)]);
    forall p: Owner | p != Entry(i, k)
      ensures Val(t, p) == Val(s, p)
    {
      if p.Entry? && p.i < |s.inodes| {
        assert Val(s, Indirect(p.i)) == s.inodes[p.i].addrs[NDIRECT];
      }
    }
    LinkKeeps(sb, s, t, Entry(i, k), b);
    LinkEntryBits(sb, s, t, ind);
  }

  lemma LinkEntryBits(sb: Super, s: Fs, t: Fs, ind: nat)
    requires Inv(sb, s) && Sized(sb, t) && ind < sb.size && s.owner[ind].Indirect?
    requires forall c: nat | c < sb.size && c != ind :: t.disk[c] == s.disk[c]
    requires forall c: nat | c < sb.size :: t.owner[c] == Free <==> s.owner[c] == Free
    ensures BitsMatch(sb, t)
  {
    hide TestBit, Val;
    forall c: nat | c < sb.size
      ensures InUse(sb, t.disk, c) == InUse(sb, s.disk, c)
    {
      BitmapIsMeta(sb, s, c);
    }
  }

  lemma {:induction false} GrownTransitive(sb: Super, s: Fs, t: Fs, u: Fs)
    requires Grown(sb, s, t) && Grown(sb, t, u)
    ensures Grown(sb, s, u)
  {
    hide Val;
    forall o: Owner | DataPointer(o) && Val(s, o) == 0 && 0 < Val(u, o) < sb.size
      ensures AllZero(u.disk[Val(u, o)])
    {
      if Val(t, o) != 0 {
        assert Val(u, o) == Val(t, o);
        assert AllZero(t.disk[Val(t, o)]);
      }
    }
  }

  lemma GrownReflexive(sb: Super, s: Fs)
    requires Inv(sb, s)
    ensures Grown(sb, s, s)
  {
  }

  /** Entry k of the indirect block of file i. */
  lemma EntryFacts(sb: Super, s: Fs, i: nat, k: nat)
    requires Inv(sb, s) && i < |s.inodes| && k < NINDIRECT && Val(s, Indirect(i)) != 0
    ensures var ind := s.inodes[i].addrs[NDIRECT];
      && Val(s, Indirect(i)) == ind && 0 < ind < sb.size && s.owner[ind] == Indirect(i)
      && Val(s, Entry(i, k)) == Word(s.disk[ind], k)
    ensures Val(s, Entry(i, k)) < sb.size && s.owner[0] == Meta
  {
    hide Word, TestBit, BitsMatch;
  }

  lemma EntryNeedsIndirect(s: Fs, i: nat, k: nat)
    requires Shaped(s)
    ensures Val(s, Entry(i, k)) != 0 ==> Val(s, Indirect(i)) != 0
  {
    hide Word;
  }

  /** File i's indirect block, if it has one. */
  ghost function IndSet(s: Fs, i: nat): set<nat>
    requires Shaped(s)
  {
    if Val(s, Indirect(i)) == 0 then {} else {Val(s, Indirect(i))}
  }

  /** The blocks behind block numbers lo up to hi of file i. */
  ghost function DataBlocks(s: Fs, i: nat, lo: nat, hi: nat): set<nat>
    requires Shaped(s)
  {
    set bn: nat | lo <= bn < hi && Val(s, FileSlot(i, bn)) != 0 :: Val(s, FileSlot(i, bn))
  }

  lemma {:induction false} CardinalityOfSubset(a: set<nat>, b: set<nat>)
    requires a <= b
    ensures |a| <= |b|
    decreases a
  {
    if a != {} {
      var x :| x in a;
      CardinalityOfSubset(a - {x}, b - {x});
    }
  }

  lemma {:induction false} FewDataBlocks(s: Fs, i: nat, lo: nat, hi: nat)
    requires Shaped(s) && lo <= hi
    ensures |DataBlocks(s, i, lo, hi)| <= hi - lo
    decreases hi - lo
  {
    hide Val;
    if lo < hi {
      FewDataBlocks(s, i, lo, hi - 1);
      assert DataBlocks(s, i, lo, hi) <= DataBlocks(s, i, lo, hi - 1) + {Val(s, FileSlot(i, hi - 1))};
      CardinalityOfSubset(DataBlocks(s, i, lo, hi), DataBlocks(s, i, lo, hi - 1) + {Val(s, FileSlot(i, hi - 1))});
    } else {
      assert DataBlocks(s, i, lo, hi) == {};
    }
  }

  /** All blocks of the bitmap. */
  ghost function Bitmap(sb: Super): set<nat> {
    set b: nat | b < sb.size :: BitmapBlock(sb, b)
  }

  /** Storing a whole block of file i changes that stretch of file i and nothing
      else. */
  lemma StoreBytes(sb: Super, s: Fs, i: nat, bn: nat, blk: Block)
    requires Inv(sb, s) && i < |s.inodes| && 0 < Val(s, FileSlot(i, bn)) < sb.size
    ensures var t := Fs(s.disk[Val(s, FileSlot(i, bn)) := blk], s.inodes, s.owner);
      && Inv(sb, t)
      && (forall o: Owner :: Val(t, o) == Val(s, o))
      && (forall j: nat, o: nat ::
           ByteAt(t, j, o) == if j == i && o / BSIZE == bn then blk[o % BSIZE] else ByteAt(s, j, o))
  {
    hide Word, TestBit;
    var b := Val(s, FileSlot(i, bn));
    DataWriteKeeps(sb, s, b, blk);
    var t := Fs(s.disk[b := blk], s.inodes, s.owner);
    assert t == s.(disk := s.disk[b := blk]);
    forall j: nat, o: nat
      ensures ByteAt(t, j, o) == if j == i && o / BSIZE == bn then blk[o % BSIZE] else ByteAt(s, j, o)
    {
      var p := FileSlot(j, o / BSIZE);
      SlotsDiffer(i, bn, j, o / BSIZE);
      if Val(s, p) == b {
        assert s.owner[b] == p;
      }
    }
  }

  lemma SlotsDiffer(i: nat, bn: nat, j: nat, bm: nat)
    ensures FileSlot(i, bn) == FileSlot(j, bm) <==> i == j && bn == bm
  {
  }

  /** Positions inside one block. */
  lemma WithinBlock(off: nat, x: nat)
    requires off % BSIZE + x < BSIZE
    ensures (off + x) / BSIZE == off / BSIZE && (off + x) % BSIZE == off % BSIZE + x
  {
  }

  // ---------------------------------------------------------------- writing

  /** Every file reads as in s0, except that file i has src[..tot] from off on. */
  ghost predicate Wrote(s0: Fs, s: Fs, i: nat, off: nat, src: seq<Byte>, tot: nat)
    requires Shaped(s0) && Shaped(s) && tot <= |src|
  {
    forall j: nat, o: nat ::
      ByteAt(s, j, o) == if j == i && off <= o < off + tot then src[o - off] else ByteAt(s0, j, o)
  }

  /** A block with bytes p onwards replaced. */
  function Patch(blk: Block, p: nat, data: seq<Byte>): (r: Block)
    requires p + |data| <= BSIZE
    ensures forall x: nat | x < BSIZE :: r[x] == if p <= x < p + |data| then data[x - p] else blk[x]
  {
    blk[..p] + data + blk[p + |data|..]
  }

  /** One round of writei's loop. */
  lemma WroteMore(sb: Super, s0: Fs, s: Fs, i: nat, off: nat, src: seq<Byte>, tot: nat, m: nat)
    requires Shaped(s0) && Inv(sb, s) && i < |s.inodes| && tot + m <= |src|
    requires Wrote(s0, s, i, off, src, tot)
    requires var pos := off + tot;
      0 < Val(s, FileSlot(i, pos / BSIZE)) < sb.size && pos % BSIZE + m <= BSIZE
    ensures var pos := off + tot;
      var b := Val(s, FileSlot(i, pos / BSIZE));
      var t := Fs(s.disk[b := Patch(s.disk[b], pos % BSIZE, src[tot..tot + m])], s.inodes, s.owner);
      && Inv(sb, t)
      && (forall o: Owner :: Val(t, o) == Val(s, o))
      && Wrote(s0, t, i, off, src, tot + m)
  {
    hide Val, Owned, BitsMatch;
    var pos := off + tot;
    var bn := pos / BSIZE;
    var b := Val(s, FileSlot(i, bn));
    var blk := Patch(s.disk[b], pos % BSIZE, src[tot..tot + m]);
    StoreBytes(sb, s, i, bn, blk);
    var t := Fs(s.disk[b := blk], s.inodes, s.owner);
    forall j: nat, o: nat
      ensures ByteAt(t, j, o) == if j == i && off <= o < off + (tot + m) then src[o - off] else ByteAt(s0, j, o)
    {
      if j == i && o / BSIZE == bn {
        assert o - pos == o % BSIZE - pos % BSIZE;
        assert ByteAt(s, i, o) == s.disk[b][o % BSIZE];
      }
      assert ByteAt(s, j, o) == if j == i && off <= o < off + tot then src[o - off] else ByteAt(s0, j, o);
    }
  }

  /** What was written, seen through the new file size, is a splice. */
  lemma WroteIsSplice(s0: Fs, s: Fs, i: nat, off: nat, src: seq<Byte>, tot: nat)
    requires Shaped(s0) && Shaped(s) && i < |s0.inodes| == |s.inodes| && tot <= |src|
    requires Wrote(s0, s, i, off, src, tot) && off <= s0.inodes[i].size
    requires s.inodes[i].size == if off + tot > s0.inodes[i].size then off + tot else s0.inodes[i].size
    ensures Content(s, i) == Splice(Content(s0, i), off, src[..tot])
  {
    hide Val;
    var c, d := Content(s, i), Splice(Content(s0, i), off, src[..tot]);
    forall o: nat | o < |c|
      ensures c[o] == d[o]
    {
      assert c[o] == ByteAt(s, i, 0 + o);
      if o < |Content(s0, i)| {
        assert Content(s0, i)[o] == ByteAt(s0, i, 0 + o);
      }
    }
  }

  lemma WroteElsewhere(s0: Fs, s: Fs, i: nat, off: nat, src: seq<Byte>, tot: nat, j: nat)
    requires Shaped(s0) && Shaped(s) && j < |s0.inodes| == |s.inodes| && tot <= |src| && j != i
    requires Wrote(s0, s, i, off, src, tot) && s.inodes[j].size == s0.inodes[j].size
    ensures Content(s, j) == Content(s0, j)
  {
    hide Val;
    var c, d := Content(s, j), Content(s0, j);
    forall o: nat | o < |c|
      ensures c[o] == d[o]
    {
      assert c[o] == ByteAt(s, j, 0 + o) && d[o] == ByteAt(s0, j, 0 + o);
    }
  }

  lemma WroteAfterGrowth(sb: Super, s0: Fs, s: Fs, t: Fs, i: nat, off: nat, src: seq<Byte>, tot: nat)
    requires Shaped(s0) && Shaped(s) && tot <= |src| && Wrote(s0, s, i, off, src, tot) && Grown(sb, s, t)
    ensures Wrote(s0, t, i, off, src, tot)
  {
    hide Val;
    GrownBytes(sb, s, t);
  }

  /** Every pointer of s is still there in t. */
  ghost predicate KeepsPointers(s: Fs, t: Fs)
    requires Shaped(s) && Shaped(t)
  {
    forall o: Owner :: Val(s, o) != 0 ==> Val(t, o) == Val(s, o)
  }

  /** The blocks of file i that start among bytes off up to off + tot are allocated. */
  ghost predicate Spans(s: Fs, i: nat, off: nat, tot: nat)
    requires Shaped(s)
  {
    forall bn: nat | off <= bn * BSIZE < off + tot :: Val(s, FileSlot(i, bn)) != 0
  }

  lemma SpansMore(s: Fs, i: nat, off: nat, tot: nat, m: nat)
    requires Shaped(s) && Spans(s, i, off, tot)
    requires Val(s, FileSlot(i, (off + tot) / BSIZE)) != 0 && (off + tot) % BSIZE + m <= BSIZE
    ensures Spans(s, i, off, tot + m)
  {
    hide Val;
    forall bn: nat | off <= bn * BSIZE < off + (tot + m)
      ensures Val(s, FileSlot(i, bn)) != 0
    {
      if bn * BSIZE >= off + tot {
        assert bn == (off + tot) / BSIZE;
      }
    }
  }

  lemma StillNoHoles(s0: Fs, s: Fs, i: nat, off: nat, tot: nat, j: nat)
    requires Shaped(s0) && Shaped(s) && j < |s0.inodes| == |s.inodes| && i < |s.inodes|
    requires KeepsPointers(s0, s) && Spans(s, i, off, tot) && off <= s0.inodes[i].size
    requires s.inodes[j].size ==
      if j == i && off + tot > s0.inodes[i].size then off + tot else s0.inodes[j].size
    requires NoHoles(s0, j)
    ensures NoHoles(s, j)
  {
    hide Val;
    forall bn: nat | bn * BSIZE < s.inodes[j].size
      ensures Val(s, FileSlot(j, bn)) != 0
    {
      if bn * BSIZE < s0.inodes[j].size {
        assert Val(s0, FileSlot(j, bn)) != 0;
      }
    }
  }

  /** Block that holds inode i (IBLOCK). */
  function InodeBlock(sb: Super, i: nat): nat {
    sb.inodestart + i / IPB
  }

  /** One past the last block number that bytes off up to off + n fall into. */
  function EndBlock(off: nat, n: nat): nat {
    (off + n + BSIZE - 1) / BSIZE
  }

  /** The blocks that writing n bytes at off may log, besides the inode's block. */
  ghost function Touched(sb: Super, s: Fs, i: nat, off: nat, n: nat): set<nat>
    requires Shaped(s)
  {
    Bitmap(sb) + IndSet(s, i) + DataBlocks(s, i, off / BSIZE, EndBlock(off, n))
  }

  lemma TouchedGrows(sb: Super, s: Fs, t: Fs, i: nat, off: nat, n: nat)
    requires Shaped(s) && Shaped(t) && KeepsPointers(s, t)
    ensures Touched(sb, s, i, off, n) <= Touched(sb, t, i, off, n)
  {
    hide Val;
    forall x | x in DataBlocks(s, i, off / BSIZE, EndBlock(off, n))
      ensures x in DataBlocks(t, i, off / BSIZE, EndBlock(off, n))
    {
      var bn: nat :| off / BSIZE <= bn < EndBlock(off, n)
        && Val(s, FileSlot(i, bn)) != 0 && x == Val(s, FileSlot(i, bn));
      assert Val(t, FileSlot(i, bn)) == x;
    }
  }

  /** A filewrite chunk stays within the log space begin_op sets aside: at most
      MAXOPBLOCKS blocks, in fact at most 7, when one block holds the bitmap. */
  lemma ChunkFitsReservation(sb: Super, s: Fs, i: nat, off: nat, n: nat)
    requires Shaped(s) && 0 < sb.size <= BPB && n <= 3 * BSIZE
    ensures |Touched(sb, s, i, off, n) + {InodeBlock(sb, i)}| <= 7
  {
    hide Val;
    var lo, hi := off / BSIZE, EndBlock(off, n);
    var data := DataBlocks(s, i, lo, hi);
    FewDataBlocks(s, i, lo, hi);
    assert Bitmap(sb) == {sb.bmapstart} by {
      assert BitmapBlock(sb, 0) == sb.bmapstart;
    }
    CardinalityOfSubset(IndSet(s, i), {Val(s, Indirect(i))});
    SumOfSizes({sb.bmapstart}, IndSet(s, i));
    SumOfSizes({sb.bmapstart} + IndSet(s, i), data);
    SumOfSizes(Touched(sb, s, i, off, n), {InodeBlock(sb, i)});
  }

  lemma SumOfSizes(a: set<nat>, b: set<nat>)
    ensures |a + b| <= |a| + |b|
  {
    assert |a + b| == |a| + |b| - |a * b|;
  }

  // ---------------------------------------------------------------- truncating

  /** Freeing the block behind pointer o together with clearing o. */
  lemma ReleaseKeeps(sb: Super, s: Fs, t: Fs, o: Owner, b: nat)
    requires Inv(sb, s) && Sized(sb, t)
    requires b < sb.size && s.owner[b] == o && o.Pointer()
    requires t.owner == s.owner[b := Free] && Val(t, o) == 0
    requires forall p: Owner | p != o :: Val(t, p) == Val(s, p)
    requires forall c: nat | c < sb.size :: InUse(sb, t.disk, c) == (c != b && InUse(sb, s.disk, c))
    ensures Inv(sb, t)
  {
    hide Val, TestBit;
    UnlinkKeeps(sb, s, t, o, b);
  }

  ghost predicate OnlyBitmap(sb: Super, d: Disk, e: Disk) {
    |d| == |e| && forall c: nat | c < |d| && c !in Bitmap(sb) :: e[c] == d[c]
  }

  lemma BitmapHas(sb: Super, b: nat)
    requires b < sb.size
    ensures BitmapBlock(sb, b) in Bitmap(sb)
  {
  }

  lemma BitmapNotPointer(sb: Super, s: Fs, c: nat)
    requires Sized(sb, s) && Owned(sb, s) && c in Bitmap(sb)
    ensures c < sb.size && s.owner[c] == Meta
  {
    var b: nat :| b < sb.size && BitmapBlock(sb, b) == c;
    BitmapIsMeta(sb, s, b);
  }

  /** The step of itrunc's first loop: free and clear direct pointer k. */
  /** Only the block in a direct pointer is owned by it. */
  lemma SoleDirect(sb: Super, s: Fs, i: nat, k: nat)
    requires Inv(sb, s) && i < |s.inodes| && k < NDIRECT
    ensures forall b: nat | b < sb.size && s.owner[b] == Direct(i, k) :: b == s.inodes[i].addrs[k] != 0
  {
    hide Word, TestBit, BitsMatch;
  }

  lemma TruncDirect(sb: Super, s: Fs, i: nat, k: nat)
    requires Inv(sb, s) && i < |s.inodes| && k < NDIRECT && s.inodes[i].addrs[k] != 0
    ensures var b := s.inodes[i].addrs[k];
      && b < sb.size && s.owner[b] == Direct(i, k) && InUse(sb, s.disk, b)
      && Inv(sb, Fs(PutInUse(sb, s.disk, b, false),
                    s.inodes[i := s.inodes[i].(addrs := s.inodes[i].addrs[k := 0])], s.owner[b := Free]))
  {
    hide Word, TestBit;
    var b := s.inodes[i].addrs[k];
    assert Val(s, Direct(i, k)) == b;
    var t := Fs(PutInUse(sb, s.disk, b, false),
                s.inodes[i := s.inodes[i].(addrs := s.inodes[i].addrs[k := 0])], s.owner[b := Free]);
    BitmapIsMeta(sb, s, b);
    forall p: Owner | p != Direct(i, k)
      ensures Val(t, p) == Val(s, p)
    {
      if p.Entry? && p.i < |s.inodes| {
        assert Val(s, Indirect(p.i)) == s.inodes[p.i].addrs[NDIRECT];
      }
    }
    ReleaseKeeps(sb, s, t, Direct(i, k), b);
  }

  /** A block with its first j words cleared. */
  ghost function ClearWords(blk: Block, j: nat): (r: Block)
    requires j <= WORDS
    ensures forall k: nat | k < WORDS :: Word(r, k) == if k < j then 0 else Word(blk, k)
  {
    hide Word;
    if j == 0 then blk else WithWord(ClearWords(blk, j - 1), j - 1, 0)
  }

  /** itrunc's second loop leaves the entries it has dealt with in the indirect
      block; this is the state with them cleared, which is what the invariant is
      about until the block itself is freed. */
  ghost function Detached(s: Fs, ind: nat, j: nat): Fs
    requires ind < |s.disk| && j <= WORDS
  {
    Fs(s.disk[ind := ClearWords(s.disk[ind], j)], s.inodes, s.owner)
  }

  /** The step of itrunc's second loop, when entry j is set. */
  lemma TruncEntry(sb: Super, s: Fs, i: nat, ind: nat, j: nat)
    requires Sized(sb, s) && i < |s.inodes| && j < NINDIRECT && ind == s.inodes[i].addrs[NDIRECT]
    requires 0 < ind < sb.size && s.owner[ind] == Indirect(i) && Inv(sb, Detached(s, ind, j))
    requires Word(s.disk[ind], j) != 0
    ensures var b := Word(s.disk[ind], j);
      && b < sb.size && s.owner[b] == Entry(i, j) && InUse(sb, s.disk, b)
      && (forall c: nat | c < sb.size && c != b :: s.owner[c] != Entry(i, j))
      && PutInUse(sb, s.disk, b, false)[ind] == s.disk[ind]
      && Inv(sb, Detached(Fs(PutInUse(sb, s.disk, b, false), s.inodes, s.owner[b := Free]), ind, j + 1))
  {
    hide Word, TestBit, ClearWords, PutInUse;
    var b, g := Word(s.disk[ind], j), Detached(s, ind, j);
    assert Val(g, Entry(i, j)) == b;
    var t0 := Fs(PutInUse(sb, s.disk, b, false), s.inodes, s.owner[b := Free]);
    BitmapIsMeta(sb, g, b);
    assert t0.disk[ind] == s.disk[ind];
    var t := Detached(t0, ind, j + 1);
    DetachedPointers(sb, s, t0, i, ind, j);
    forall c: nat | c < sb.size
      ensures InUse(sb, t.disk, c) == (c != b && InUse(sb, g.disk, c))
      ensures InUse(sb, g.disk, c) == InUse(sb, s.disk, c)
    {
      BitmapIsMeta(sb, g, c);
      assert InUse(sb, t.disk, c) == InUse(sb, t0.disk, c);
    }
    hide Val;
    ReleaseKeeps(sb, g, t, Entry(i, j), b);
  }

  lemma DetachedPointers(sb: Super, s: Fs, t: Fs, i: nat, ind: nat, j: nat)
    requires Sized(sb, s) && Sized(sb, t) && i < |s.inodes| && j < NINDIRECT && ind == s.inodes[i].addrs[NDIRECT]
    requires 0 < ind < sb.size && Inv(sb, Detached(s, ind, j)) && t.inodes == s.inodes && t.disk[ind] == s.disk[ind]
    requires forall c: nat | c < sb.size && s.owner[c] != Meta :: t.disk[c] == s.disk[c]
    ensures Val(Detached(t, ind, j + 1), Entry(i, j)) == 0
    ensures forall p: Owner | p != Entry(i, j) :: Val(Detached(t, ind, j + 1), p) == Val(Detached(s, ind, j), p)
  {
    hide Word, TestBit, ClearWords;
    var g := Detached(s, ind, j);
    assert Val(g, Indirect(i)) == ind;
    forall p: Owner | p != Entry(i, j)
      ensures Val(Detached(t, ind, j + 1), p) == Val(g, p)
    {
      if p.Entry? && p.i < |s.inodes| {
        assert Val(g, Indirect(p.i)) == s.inodes[p.i].addrs[NDIRECT];
      }
    }
  }

  /** The step of itrunc's second loop, when entry j is empty. */
  lemma TruncNoEntry(sb: Super, s: Fs, i: nat, ind: nat, j: nat)
    requires Sized(sb, s) && i < |s.inodes| && j < NINDIRECT && ind == s.inodes[i].addrs[NDIRECT]
    requires 0 < ind < sb.size && s.owner[ind] == Indirect(i) && Inv(sb, Detached(s, ind, j))
    requires Word(s.disk[ind], j) == 0
    ensures Inv(sb, Detached(s, ind, j + 1))
    ensures forall b: nat | b < sb.size :: s.owner[b] != Entry(i, j)
  {
    hide Word, TestBit, ClearWords;
    var g, t := Detached(s, ind, j), Detached(s, ind, j + 1);
    forall p: Owner
      ensures Val(t, p) == Val(g, p)
    {
      if p.Entry? && p.i < |s.inodes| {
        assert Val(g, Indirect(p.i)) == s.inodes[p.i].addrs[NDIRECT];
      }
    }
    assert Val(g, Entry(i, j)) == 0;
    forall c: nat | c < sb.size
      ensures InUse(sb, t.disk, c) == InUse(sb, g.disk, c)
    {
      BitmapIsMeta(sb, g, c);
    }
  }

  /** Freeing the indirect block once all its entries are dealt with. */
  lemma TruncIndirect(sb: Super, s: Fs, i: nat, ind: nat)
    requires Sized(sb, s) && i < |s.inodes| && ind == s.inodes[i].addrs[NDIRECT]
    requires 0 < ind < sb.size && s.owner[ind] == Indirect(i) && Inv(sb, Detached(s, ind, NINDIRECT))
    ensures InUse(sb, s.disk, ind)
    ensures Inv(sb, Fs(PutInUse(sb, s.disk, ind, false),
                       s.inodes[i := s.inodes[i].(addrs := s.inodes[i].addrs[NDIRECT := 0])], s.owner[ind := Free]))
  {
    hide Word, TestBit, ClearWords, PutInUse, Val, Owned, InUse;
    var g := Detached(s, ind, NINDIRECT);
    var t := Fs(PutInUse(sb, s.disk, ind, false),
                s.inodes[i := s.inodes[i].(addrs := s.inodes[i].addrs[NDIRECT := 0])], s.owner[ind := Free]);
    DetachedVals(sb, s, g, t, i, ind);
    DetachedBits(sb, s, g, ind);
    ReleaseKeeps(sb, g, t, Indirect(i), ind);
  }

  lemma DetachedVals(sb: Super, s: Fs, g: Fs, t: Fs, i: nat, ind: nat)
    requires Sized(sb, s) && Sized(sb, t) && i < |s.inodes| && ind == s.inodes[i].addrs[NDIRECT] && 0 < ind < sb.size
    requires g == Detached(s, ind, NINDIRECT) && Inv(sb, g) && s.owner[ind] == Indirect(i)
    requires t.inodes == s.inodes[i := s.inodes[i].(addrs := s.inodes[i].addrs[NDIRECT := 0])]
    requires t.disk == PutInUse(sb, s.disk, ind, false)
    ensures Val(g, Indirect(i)) == ind && Val(t, Indirect(i)) == 0
    ensures forall p: Owner | p != Indirect(i) :: Val(t, p) == Val(g, p)
  {
    hide Word, TestBit, ClearWords, PutInUse;
    BitmapIsMeta(sb, g, ind);
    assert Val(g, Indirect(i)) == ind;
    forall p: Owner | p != Indirect(i)
      ensures Val(t, p) == Val(g, p)
    {
      if p.Entry? && p.i < |s.inodes| {
        assert Val(g, Indirect(p.i)) == s.inodes[p.i].addrs[NDIRECT];
      }
    }
  }

  lemma DetachedBits(sb: Super, s: Fs, g: Fs, ind: nat)
    requires Sized(sb, s) && ind < sb.size && g == Detached(s, ind, NINDIRECT) && Inv(sb, g) && s.owner[ind].Indirect?
    ensures forall c: nat | c < sb.size :: InUse(sb, g.disk, c) == InUse(sb, s.disk, c)
  {
    hide Word, TestBit, ClearWords, PutInUse, Val;
    forall c: nat | c < sb.size
      ensures InUse(sb, g.disk, c) == InUse(sb, s.disk, c)
    {
      BitmapIsMeta(sb, g, c);
    }
  }

  // ---------------------------------------------------------------- operations

  class FileSystem {
    const sb: Super
    var disk: Disk
    var inodes: seq<Inode>
    ghost var owner: seq<Owner>
    /** Blocks given to log_write since the operation began. */
    ghost var logged: set<nat>

    ghost function S(): Fs
      reads this
    {
      Fs(disk, inodes, owner)
    }

    ghost predicate Valid()
      reads this
    {
      Inv(sb, S()) && Quiet(S())
    }

    /** A file system as it is found on disk, with no block allocated that no pointer reaches. */
    constructor (sb: Super, disk: Disk, inodes: seq<Inode>, ghost owner: seq<Owner>)
      requires Inv(sb, Fs(disk, inodes, owner)) && Quiet(Fs(disk, inodes, owner))
      ensures Valid() && this.sb == sb && S() == Fs(disk, inodes, owner) && logged == {}
    {
      this.sb, this.disk, this.inodes, this.owner, this.logged := sb, disk, inodes, owner, {};
    }

    /** No block is free. */
    ghost predicate Full()
      reads this
    {
      forall c | 0 <= c < |owner| :: owner[c] != Free
    }

    /** Modify a buffer and log_write it. */
    method LogWrite(b: nat, blk: Block)
      requires b < |disk|
      modifies this`disk, this`logged
      ensures disk == old(disk)[b := blk] && logged == old(logged) + {b}
    {
      disk := disk[b := blk];
      logged := logged + {b};
    }

    /** The tail of balloc: mark free block b in its bitmap block and zero it. */
    method Claim(b: nat)
      requires Inv(sb, S()) && b < sb.size && owner[b] == Free
      modifies this`disk, this`owner, this`logged
      ensures Inv(sb, S())
      ensures disk == PutInUse(sb, old(disk), b, true)[b := ZeroBlock()]
      ensures owner == old(owner)[b := Pending]
      ensures logged == old(logged) + {BitmapBlock(sb, b), b}
      ensures forall o: Owner :: Val(S(), o) == Val(old(S()), o)
    {
      hide Owned, Val, TestBit, BitsMatch;
      AllocKeeps(sb, S(), b, ZeroBlock());
      LogWrite(BitmapBlock(sb, b), PutBlockBit(disk[BitmapBlock(sb, b)], b % BPB, true));
      LogWrite(b, ZeroBlock());
      owner := owner[b := Pending];
    }

    /** balloc: the lowest free block, marked and zeroed; None where it panics. */
    method BAlloc() returns (r: Option<nat>)
      requires Inv(sb, S())
      modifies this`disk, this`owner, this`logged
      ensures Inv(sb, S())
      ensures r == None ==>
        S() == old(S()) && logged == old(logged) && forall c: nat | c < sb.size :: owner[c] != Free
      ensures r.Some? ==>
        var b := r.value;
        && b < sb.size && old(owner)[b] == Free
        && (forall c: nat | c < b :: old(owner)[c] != Free)
        && disk == PutInUse(sb, old(disk), b, true)[b := ZeroBlock()]
        && owner == old(owner)[b := Pending]
        && logged == old(logged) + {BitmapBlock(sb, b), b}
        && (forall o: Owner :: Val(S(), o) == Val(old(S()), o))
    {
      hide Owned, Val, TestBit, PutInUse, BitsMatch, InUse, Sized;
      r := None;
      SizedOwner(sb, S());
      var b := 0;
      while b < sb.size
        invariant b % BPB == 0 && r == None && |owner| == sb.size
        invariant forall c: nat | c < b && c < sb.size :: owner[c] != Free
        modifies {}
      {
        var bi := FindClear(b);
        assert forall c: nat | c < b + bi && c < sb.size :: owner[c] != Free;
        if bi < BPB && b + bi < sb.size {
          r := Some(b + bi);
          break;
        }
        NextBitmapBlock(b);
        b := b + BPB;
      }
      if r.Some? {
        Claim(r.value);
      }
    }

    /** balloc's inner loop: the first clear bit of the bitmap block for block b on. */
    method FindClear(b: nat) returns (bi: nat)
      requires Inv(sb, S()) && b < sb.size && b % BPB == 0
      ensures bi <= BPB && forall c: nat | b <= c < b + bi && c < sb.size :: owner[c] != Free
      ensures bi < BPB && b + bi < sb.size ==> owner[b + bi] == Free
      ensures bi == BPB || b + bi >= sb.size || owner[b + bi] == Free
    {
      hide Owned, Val, TestBit, BitsMatch, InUse;
      var bp := disk[BitmapBlock(sb, b)];
      bi := 0;
      while bi < BPB && b + bi < sb.size
        invariant bi <= BPB
        invariant forall c: nat | b <= c < b + bi && c < sb.size :: owner[c] != Free
      {
        ScanAddress(sb, S(), b, bi);
        if !TestBit(bp[bi / 8], bi % 8) {
          return;
        }
        bi := bi + 1;
      }
    }

    /** bfree: clear the bit; false where it panics because the block is free. */
    method BFree(b: nat) returns (ok: bool)
      requires Sized(sb, S()) && b < sb.size
      modifies this`disk, this`logged
      ensures ok == InUse(sb, old(disk), b)
      ensures ok ==> disk == PutInUse(sb, old(disk), b, false) && logged == old(logged) + {BitmapBlock(sb, b)}
      ensures !ok ==> disk == old(disk) && logged == old(logged)
    {
      var bp := disk[BitmapBlock(sb, b)];
      var bi := b % BPB;
      BitAddress(b);
      if !TestBit(bp[bi / 8], bi % 8) {
        return false;
      }
      LogWrite(BitmapBlock(sb, b), PutBlockBit(bp, bi, false));
      return true;
    }

    /** bmap for the first NDIRECT blocks. */
    method BMapDirect(i: nat, bn: nat) returns (r: Option<nat>)
      requires Valid() && i < |inodes| && bn < NDIRECT
      modifies this`disk, this`inodes, this`owner, this`logged
      ensures Valid() && Grown(sb, old(S()), S())
      ensures forall o: Owner | o != Direct(i, bn) :: Val(S(), o) == Val(old(S()), o)
      ensures r.Some? ==> 0 < r.value < sb.size && r.value == Val(S(), Direct(i, bn))
      ensures r == None ==> forall c: nat | c < sb.size :: owner[c] != Free
      ensures Val(old(S()), Direct(i, bn)) != 0 ==> r.Some? && S() == old(S()) && logged == old(logged)
      ensures logged <= old(logged) + Bitmap(sb) + if r.Some? then {r.value} else {}
    {
      hide Word, TestBit, PutInUse;
      GrownReflexive(sb, S());
      var addr := inodes[i].addrs[bn];
      assert Val(S(), Direct(i, bn)) == addr;
      if addr == 0 {
        r := BAlloc();
        if r == None {
          return;
        }
        addr := r.value;
        ClaimGrows(sb, old(S()), addr);
        ghost var s1 := S();
        LinkDirect(sb, s1, i, bn, addr);
        inodes := inodes[i := inodes[i].(addrs := inodes[i].addrs[bn := addr])];
        owner := owner[addr := Direct(i, bn)];
        GrownTransitive(sb, old(S()), s1, S());
      }
      return Some(addr);
    }

    /** bmap's first half beyond NDIRECT: the indirect block itself. */
    method LoadIndirect(i: nat) returns (r: Option<nat>)
      requires Valid() && i < |inodes|
      modifies this`disk, this`inodes, this`owner, this`logged
      ensures Valid() && Grown(sb, old(S()), S())
      ensures forall o: Owner | o != Indirect(i) :: Val(S(), o) == Val(old(S()), o)
      ensures r.Some? ==> 0 < r.value < sb.size && r.value == Val(S(), Indirect(i))
      ensures r == None ==> forall c: nat | c < sb.size :: owner[c] != Free
      ensures Val(old(S()), Indirect(i)) != 0 ==> r.Some? && S() == old(S()) && logged == old(logged)
      ensures logged <= old(logged) + Bitmap(sb) + if r.Some? then {r.value} else {}
    {
      hide Word, TestBit, PutInUse;
      GrownReflexive(sb, S());
      var addr := inodes[i].addrs[NDIRECT];
      assert Val(S(), Indirect(i)) == addr;
      if addr == 0 {
        r := BAlloc();
        if r == None {
          return;
        }
        addr := r.value;
        ClaimGrows(sb, old(S()), addr);
        ghost var s1 := S();
        LinkIndirect(sb, s1, i, addr);
        inodes := inodes[i := inodes[i].(addrs := inodes[i].addrs[NDIRECT := addr])];
        owner := owner[addr := Indirect(i)];
        GrownTransitive(sb, old(S()), s1, S());
      }
      return Some(addr);
    }

    /** bmap's second half beyond NDIRECT: entry k of the indirect block. */
    method BMapEntry(i: nat, k: nat) returns (r: Option<nat>)
      requires Valid() && i < |inodes| && k < NINDIRECT && Val(S(), Indirect(i)) != 0
      modifies this`disk, this`inodes, this`owner, this`logged
      ensures Valid() && Grown(sb, old(S()), S())
      ensures forall o: Owner | o != Entry(i, k) :: Val(S(), o) == Val(old(S()), o)
      ensures r.Some? ==> 0 < r.value < sb.size && r.value == Val(S(), Entry(i, k))
      ensures r == None ==> forall c: nat | c < sb.size :: owner[c] != Free
      ensures Val(old(S()), Entry(i, k)) != 0 ==> r.Some? && S() == old(S()) && logged == old(logged)
      ensures logged <= old(logged) + Bitmap(sb) + {Val(S(), Indirect(i))} + if r.Some? then {r.value} else {}
    {
      hide Word, TestBit, PutInUse, WithWord, Val, Owned, BitsMatch, Grown;
      GrownReflexive(sb, S());
      var ind := inodes[i].addrs[NDIRECT];
      EntryFacts(sb, S(), i, k);
      var addr := Word(disk[ind], k);
      if addr == 0 {
        r := BAlloc();
        if r == None {
          return;
        }
        addr := r.value;
        ClaimGrows(sb, old(S()), addr);
        ghost var s1 := S();
        assert Val(s1, Entry(i, k)) == 0;
        LinkEntry(sb, s1, i, k, addr);
        LogWrite(ind, WithWord(disk[ind], k, addr));
        owner := owner[addr := Entry(i, k)];
        GrownTransitive(sb, old(S()), s1, S());
      }
      return Some(addr);
    }

    /** bmap: the block that holds block bn of file i, allocated if it has none yet;
        None where it panics, out of range or out of blocks. */
    method BMap(i: nat, bn: nat) returns (r: Option<nat>)
      requires Valid() && i < |inodes|
      modifies this`disk, this`inodes, this`owner, this`logged
      ensures Valid() && Grown(sb, old(S()), S())
      ensures forall o: Owner | o != FileSlot(i, bn) && o != Indirect(i) :: Val(S(), o) == Val(old(S()), o)
      ensures r.Some? ==> bn < MAXFILE && 0 < r.value < sb.size && r.value == Val(S(), FileSlot(i, bn))
      ensures r == None ==> bn >= MAXFILE || forall c: nat | c < sb.size :: owner[c] != Free
      ensures bn < MAXFILE && Val(old(S()), FileSlot(i, bn)) != 0 ==>
        r.Some? && S() == old(S()) && logged == old(logged)
      ensures logged <= old(logged) + Bitmap(sb) + IndSet(S(), i) + if r.Some? then {r.value} else {}
    {
      hide Val, Grown, Owned, BitsMatch;
      if bn < NDIRECT {
        r := BMapDirect(i, bn);
        return;
      }
      if bn - NDIRECT < NINDIRECT {
        EntryNeedsIndirect(S(), i, bn - NDIRECT);
        r := LoadIndirect(i);
        if r == None {
          return;
        }
        ghost var s1 := S();
        GrownShape(sb, old(S()), s1);
        r := BMapEntry(i, bn - NDIRECT);
        GrownTransitive(sb, old(S()), s1, S());
        return;
      }
      GrownReflexive(sb, S());
      return None;
    }

    /** readi into a destination with room for `room` bytes: the requested slice of
        the file, clipped at its end; -1 when the destination is too short; None
        where bmap panics. */
    method ReadI(i: nat, off: nat, n: nat, room: nat) returns (r: Option<int>, out: seq<Byte>)
      requires Valid() && i < |inodes| && inodes[i].size < TWO32 && off < TWO32 && n < TWO32
      modifies this`disk, this`inodes, this`owner, this`logged
      ensures Valid() && Grown(sb, old(S()), S())
      ensures var c, avail := Content(old(S()), i), Available(old(inodes)[i].size, off, n);
        && (r.Some? && r.value >= 0 ==>
             r.value == avail == |out| && (avail > 0 ==> off + avail <= |c| && out == c[off..off + avail]))
        && (r.Some? && r.value < 0 ==> r.value == -1 && room < avail)
      ensures NoHoles(old(S()), i) ==> r.Some? && S() == old(S()) && logged == old(logged)
      ensures r == None ==> Full() || old(inodes)[i].size > MAXFILE * BSIZE
    {
      hide Val, Owned, BitsMatch, Slice, Grown, NoHoles;
      ghost var s0 := S();
      var size := inodes[i].size;
      GrownReflexive(sb, s0);
      out := [];
      if off > size || off + n >= TWO32 {
        return Some(0), out;
      }
      var n1 := if off + n > size then size - off else n;
      var tot := 0;
      while tot < n1
        invariant tot <= n1
        invariant Valid() && Grown(sb, s0, S()) && |inodes| == |s0.inodes|
        invariant out == Slice(s0, i, off, tot)
        invariant NoHoles(s0, i) ==> S() == s0 && logged == old(logged)
      {
        ghost var s1 := S();
        var pos := off + tot;
        if NoHoles(s0, i) {
          Allocated(s0, i, pos);
        }
        var bp := BMap(i, pos / BSIZE);
        GrownShape(sb, s1, S());
        GrownTransitive(sb, s0, s1, S());
        if bp == None {
          return None, out;
        }
        var m := Min(n1 - tot, BSIZE - pos % BSIZE);
        if tot + m > room {
          return Some(-1), out;
        }
        ReadMore(sb, s0, S(), i, off, tot, m);
        out := out + disk[bp.value][pos % BSIZE..pos % BSIZE + m];
        tot := tot + m;
      }
      SliceOfContent(s0, i, off, n1);
      r := Some(tot);
    }

    /** writei of n bytes of which `src` can be read: a splice at off of the part
        copied, all of it unless the source faults; -1 and no change when off or the
        end is out of range; None where bmap panics. */
    method WriteI(i: nat, off: nat, n: nat, src: seq<Byte>) returns (r: Option<int>)
      requires Valid() && i < |inodes| && off < TWO32 && n < TWO32
      modifies this`disk, this`inodes, this`owner, this`logged
      ensures Valid() && |inodes| == |old(inodes)|
      ensures r == Some(-1) <==> off > old(inodes)[i].size || off + n >= TWO32 || off + n > MAXFILE * BSIZE
      ensures r == Some(-1) ==> S() == old(S()) && logged == old(logged)
      ensures r.Some? && r.value != -1 ==>
        && 0 <= r.value <= n && r.value <= |src|
        && (r.value < n ==> |src| < n)
        && off <= old(inodes)[i].size
        && Content(S(), i) == Splice(Content(old(S()), i), off, src[..r.value])
        && (forall j: nat | j < |inodes| && j != i :: Content(S(), j) == Content(old(S()), j))
        && (forall j: nat | j < |inodes| && NoHoles(old(S()), j) :: NoHoles(S(), j))
      ensures r == None ==> Full()
      ensures logged <= old(logged) + Touched(sb, S(), i, off, n) + {InodeBlock(sb, i)}
    {
      hide Val, Owned, BitsMatch, Grown, Wrote, Spans, KeepsPointers, Touched, Slice, Splice;
      if off > inodes[i].size || off + n >= TWO32 {
        return Some(-1);
      }
      if off + n > MAXFILE * BSIZE {
        return Some(-1);
      }
      ghost var s0 := S();
      WriteStarts(sb, s0, i, off, src);
      var tot := 0;
      while tot < n
        invariant tot <= n && tot <= |src|
        invariant Valid() && |inodes| == |s0.inodes|
        invariant forall j | 0 <= j < |inodes| :: inodes[j].size == s0.inodes[j].size
        invariant Wrote(s0, S(), i, off, src, tot)
        invariant KeepsPointers(s0, S()) && Spans(S(), i, off, tot)
        invariant logged <= old(logged) + Touched(sb, S(), i, off, n)
      {
        ghost var s1, log1 := S(), logged;
        var pos := off + tot;
        var bp := BMap(i, pos / BSIZE);
        GrownShape(sb, s1, S());
        AfterBMap(sb, s0, s1, S(), i, off, n, src, tot, log1, logged, bp);
        if bp == None {
          return None;
        }
        var m := Min(n - tot, BSIZE - pos % BSIZE);
        if tot + m > |src| {
          break;
        }
        ghost var s2 := S();
        WroteMore(sb, s0, s2, i, off, src, tot, m);
        LogWrite(bp.value, Patch(disk[bp.value], pos % BSIZE, src[tot..tot + m]));
        AfterStore(sb, s0, s2, S(), i, off, n, tot, m);
        tot := tot + m;
      }
      ghost var s3 := S();
      if off + tot > inodes[i].size {
        inodes := inodes[i := inodes[i].(size := off + tot)];
      }
      logged := logged + {InodeBlock(sb, i)};
      SizeIrrelevant(sb, s0, s3, S(), i, off, src, tot, n);
      WriteEnds(s0, S(), i, off, src, tot);
      return Some(tot);
    }

    /** itrunc's first loop. BFree's panic is never reached. */
    method TruncDirects(i: nat)
      requires Valid() && i < |inodes|
      modifies this`disk, this`inodes, this`owner, this`logged
      ensures Valid()
      ensures |inodes| == |old(inodes)| && (forall j | 0 <= j < |inodes| && j != i :: inodes[j] == old(inodes)[j])
      ensures inodes[i].size == old(inodes)[i].size && inodes[i].addrs[NDIRECT] == old(inodes)[i].addrs[NDIRECT]
      ensures forall k | 0 <= k < NDIRECT :: inodes[i].addrs[k] == 0
      ensures forall b: nat | b < sb.size ::
        owner[b] == if IsDirectBelow(old(owner)[b], i, NDIRECT) then Free else old(owner)[b]
      ensures OnlyBitmap(sb, old(disk), disk)
      ensures logged <= old(logged) + Bitmap(sb)
    {
      hide Word, TestBit, PutInUse, Bitmap, BitsMatch, Owned;
      ghost var s0 := S();
      var k := 0;
      while k < NDIRECT
        invariant k <= NDIRECT && Valid() && |inodes| == |s0.inodes|
        invariant forall j | 0 <= j < |inodes| && j != i :: inodes[j] == s0.inodes[j]
        invariant inodes[i].size == s0.inodes[i].size && inodes[i].addrs[NDIRECT] == s0.inodes[i].addrs[NDIRECT]
        invariant forall x | 0 <= x < k :: inodes[i].addrs[x] == 0
        invariant forall b: nat | b < sb.size ::
          owner[b] == if IsDirectBelow(s0.owner[b], i, k) then Free else s0.owner[b]
        invariant OnlyBitmap(sb, s0.disk, disk)
        invariant logged <= old(logged) + Bitmap(sb)
      {
        var b := inodes[i].addrs[k];
        SoleDirect(sb, S(), i, k);
        if b != 0 {
          TruncDirect(sb, S(), i, k);
          BitmapHas(sb, b);
          var ok := BFree(b);
          assert ok;
          inodes := inodes[i := inodes[i].(addrs := inodes[i].addrs[k := 0])];
          owner := owner[b := Free];
        }
        k := k + 1;
      }
    }

    /** itrunc's second part: the indirect entries, then the indirect block. */
    method TruncIndirects(i: nat)
      requires Valid() && i < |inodes|
      modifies this`disk, this`inodes, this`owner, this`logged
      ensures Valid()
      ensures inodes == old(inodes)[i := old(inodes)[i].(addrs := old(inodes)[i].addrs[NDIRECT := 0])]
      ensures forall b: nat | b < sb.size ::
        owner[b] == if IsIndirectOf(old(owner)[b], i) then Free else old(owner)[b]
      ensures OnlyBitmap(sb, old(disk), disk)
      ensures logged <= old(logged) + Bitmap(sb)
    {
      hide Word, TestBit, PutInUse, Bitmap, BitsMatch, Owned, ClearWords;
      ghost var s0 := S();
      var ind := inodes[i].addrs[NDIRECT];
      if ind == 0 {
        NoIndirect(sb, s0, i);
        assert inodes[i].addrs[NDIRECT := 0] == inodes[i].addrs;
        return;
      }
      HasIndirect(sb, s0, i);
      var a := disk[ind];
      var j := 0;
      while j < NINDIRECT
        invariant j <= NINDIRECT && inodes == s0.inodes && |owner| == sb.size
        invariant |disk| == sb.size && disk[ind] == a && owner[ind] == Indirect(i)
        invariant Inv(sb, Detached(S(), ind, j)) && Quiet(S())
        invariant forall b: nat | b < sb.size ::
          owner[b] == if IsEntryBelow(s0.owner[b], i, j) then Free else s0.owner[b]
        invariant OnlyBitmap(sb, s0.disk, disk)
        invariant logged <= old(logged) + Bitmap(sb)
      {
        var b := Word(a, j);
        if b != 0 {
          TruncEntry(sb, S(), i, ind, j);
          BitmapHas(sb, b);
          var ok := BFree(b);
          assert ok;
          owner := owner[b := Free];
        } else {
          TruncNoEntry(sb, S(), i, ind, j);
        }
        j := j + 1;
      }
      TruncIndirect(sb, S(), i, ind);
      OneIndirect(sb, s0, i);
      BitmapHas(sb, ind);
      var ok := BFree(ind);
      assert ok;
      inodes := inodes[i := inodes[i].(addrs := inodes[i].addrs[NDIRECT := 0])];
      owner := owner[ind := Free];
    }

    /** itrunc: the file becomes empty, the blocks it reached and no others become
        free, every other file keeps its contents, and bfree never panics. */
    method ITrunc(i: nat)
      requires Valid() && i < |inodes|
      modifies this`disk, this`inodes, this`owner, this`logged
      ensures Valid() && |inodes| == |old(inodes)|
      ensures inodes[i].size == 0 && forall k | 0 <= k <= NDIRECT :: inodes[i].addrs[k] == 0
      ensures forall b: nat | b < sb.size :: owner[b] == if old(owner)[b].Of(i) then Free else old(owner)[b]
      ensures forall b: nat | b < sb.size ::
        InUse(sb, disk, b) <==> InUse(sb, old(disk), b) && !old(owner)[b].Of(i)
      ensures forall j: nat | j < |inodes| && j != i ::
        Content(S(), j) == Content(old(S()), j) && (NoHoles(old(S()), j) ==> NoHoles(S(), j))
      ensures logged <= old(logged) + Bitmap(sb) + {InodeBlock(sb, i)}
    {
      hide Word, TestBit, PutInUse, Bitmap, Owned;
      ghost var s0 := S();
      PointersOf(sb, s0, i);
      TruncDirects(i);
      TruncIndirects(i);
      ghost var s1 := S();
      assert Wrote(s1, s1, i, 0, [], 0);
      inodes := inodes[i := inodes[i].(size := 0)];
      SizeIrrelevant(sb, s1, s1, S(), i, 0, [], 0, 0);
      logged := logged + {InodeBlock(sb, i)};
      forall j: nat | j < |inodes| && j != i
        ensures Content(S(), j) == Content(s0, j) && (NoHoles(s0, j) ==> NoHoles(S(), j))
      {
        OthersKeepContent(sb, s0, S(), i, j);
      }
    }

    /** filewrite on an inode, one transaction per chunk: what it has written is one
        splice of `done` bytes at the old offset, all n of them exactly when it
        returns n, and no transaction logs more than its reservation. */
    method FileWrite(i: nat, off0: nat, n: int, src: seq<Byte>)
      returns (ret: Option<int>, off: nat, ghost done: nat, ghost peak: nat)
      requires Valid() && i < |inodes| && off0 < TWO32 && n < TWO32
      modifies this`disk, this`inodes, this`owner, this`logged
      ensures Valid() && |inodes| == |old(inodes)|
      ensures ret.Some? ==> done <= |src| && off == off0 + done
      ensures ret.Some? ==> ret == Some(if n >= 0 && done == n then n else -1)
      ensures ret == None ==> Full()
      ensures ret.Some? && done < n ==> |src| < n || off0 > old(inodes)[i].size || TooFar(off0, n)
      ensures ret.Some? && done == 0 ==> Content(S(), i) == Content(old(S()), i)
      ensures ret.Some? && done > 0 ==>
        && off0 <= old(inodes)[i].size
        && Content(S(), i) == Splice(Content(old(S()), i), off0, src[..done])
      ensures ret.Some? ==>
        && (forall j: nat | j < |inodes| && j != i :: Content(S(), j) == Content(old(S()), j))
        && (forall j: nat | j < |inodes| && NoHoles(old(S()), j) :: NoHoles(S(), j))
      ensures sb.size <= BPB ==> peak <= 7 <= Log.MAXOPBLOCKS
    {
      hide Val, Owned, BitsMatch, Touched, Splice, Slice;
      ghost var c0 := Content(S(), i);
      var max := (Log.MAXOPBLOCKS - 1 - 1 - 2) / 2 * BSIZE;
      var k := 0;
      off, done, peak := off0, 0, 0;
      while k < n
        invariant Valid() && |inodes| == |old(inodes)|
        invariant 0 <= k && done == k && (k == 0 || k <= n) && k <= |src| && off == off0 + done && off < TWO32
        invariant done == 0 ==> Content(S(), i) == c0
        invariant done > 0 ==> off0 <= |c0| && Content(S(), i) == Splice(c0, off0, src[..done])
        invariant forall j: nat | j < |inodes| && j != i :: Content(S(), j) == Content(old(S()), j)
        invariant forall j: nat | j < |inodes| && NoHoles(old(S()), j) :: NoHoles(S(), j)
        invariant sb.size <= BPB ==> peak <= 7
        decreases n - k
      {
        var n1 := Min(n - k, max);
        logged := {};
        var r := WriteI(i, off, n1, src[k..]);
        ChunkLogged(sb, S(), i, off, n1, logged);
        peak := if |logged| > peak then |logged| else peak;
        if r == None {
          return None, off, done, peak;
        }
        if r.value > 0 {
          NextChunk(c0, off0, src, done, r.value);
          off := off + r.value;
          done := done + r.value;
        } else if r.value == 0 {
          NextChunk(c0, off0, src, done, 0);
        }
        if r.value != n1 {
          assert done < n;
          break;
        }
        k := k + r.value;
      }
      ret := Some(if k == n then n else -1);
    }
  }

  lemma NextBitmapBlock(b: nat)
    requires b % BPB == 0
    ensures (b + BPB) % BPB == 0
  {
  }

  lemma SizedOwner(sb: Super, s: Fs)
    requires Sized(sb, s)
    ensures |s.owner| == |s.disk| == sb.size
  {
  }

  /** A write that ends beyond the largest file, or beyond what an offset can express. */
  predicate TooFar(off: nat, n: int) {
    off + n > MAXFILE * BSIZE || off + n >= TWO32
  }

  /** Two writes that follow on each other are one write. */
  lemma SpliceTwice(c: seq<Byte>, off: nat, a: seq<Byte>, b: seq<Byte>)
    requires off <= |c|
    ensures Splice(Splice(c, off, a), off + |a|, b) == Splice(c, off, a + b)
  {
  }

  lemma NextChunk(c: seq<Byte>, off: nat, src: seq<Byte>, done: nat, r: nat)
    requires off <= |c| && done + r <= |src|
    ensures off + done <= |Splice(c, off, src[..done])|
    ensures Splice(Splice(c, off, src[..done]), off + done, src[done..][..r]) == Splice(c, off, src[..done + r])
    ensures done == 0 ==> Splice(c, off, src[..done]) == c
  {
    SpliceTwice(c, off, src[..done], src[done..][..r]);
    assert src[..done] + src[done..][..r] == src[..done + r];
  }

  lemma ChunkLogged(sb: Super, s: Fs, i: nat, off: nat, n: nat, logged: set<nat>)
    requires Shaped(s) && n <= 3 * BSIZE && 0 < sb.size
    requires logged <= Touched(sb, s, i, off, n) + {InodeBlock(sb, i)}
    ensures sb.size <= BPB ==> |logged| <= 7
  {
    hide Val, Touched;
    if sb.size <= BPB {
      ChunkFitsReservation(sb, s, i, off, n);
      CardinalityOfSubset(logged, Touched(sb, s, i, off, n) + {InodeBlock(sb, i)});
    }
  }

  ghost predicate IsDirectBelow(o: Owner, i: nat, k: nat) {
    o.Direct? && o.i == i && o.k < k
  }

  ghost predicate IsEntryBelow(o: Owner, i: nat, k: nat) {
    o.Entry? && o.i == i && o.k < k
  }

  ghost predicate IsIndirectOf(o: Owner, i: nat) {
    (o.Entry? || o.Indirect?) && o.i == i
  }

  lemma PointersOf(sb: Super, s: Fs, i: nat)
    requires Inv(sb, s) && i < |s.inodes|
    ensures forall b: nat | b < sb.size ::
      s.owner[b].Of(i) <==> IsDirectBelow(s.owner[b], i, NDIRECT) || IsIndirectOf(s.owner[b], i)
  {
    hide Word, TestBit;
    forall b: nat | b < sb.size
      ensures s.owner[b].Of(i) <==> IsDirectBelow(s.owner[b], i, NDIRECT) || IsIndirectOf(s.owner[b], i)
    {
      assert s.owner[b].Pointer() ==> Val(s, s.owner[b]) == b;
    }
  }

  lemma NoIndirect(sb: Super, s: Fs, i: nat)
    requires Inv(sb, s) && i < |s.inodes| && s.inodes[i].addrs[NDIRECT] == 0
    ensures forall b: nat | b < sb.size :: !IsIndirectOf(s.owner[b], i)
  {
    hide Word, TestBit;
    forall b: nat | b < sb.size
      ensures !IsIndirectOf(s.owner[b], i)
    {
      assert s.owner[b].Pointer() ==> Val(s, s.owner[b]) == b;
    }
  }

  lemma HasIndirect(sb: Super, s: Fs, i: nat)
    requires Inv(sb, s) && i < |s.inodes| && s.inodes[i].addrs[NDIRECT] != 0
    ensures var ind := s.inodes[i].addrs[NDIRECT];
      ind < sb.size && s.owner[ind] == Indirect(i) && Detached(s, ind, 0) == s
  {
    hide Word, TestBit;
    assert Val(s, Indirect(i)) == s.inodes[i].addrs[NDIRECT];
  }

  lemma OneIndirect(sb: Super, s: Fs, i: nat)
    requires Inv(sb, s) && i < |s.inodes|
    ensures forall b: nat | b < sb.size ::
      IsIndirectOf(s.owner[b], i) <==>
        IsEntryBelow(s.owner[b], i, NINDIRECT) || (b == s.inodes[i].addrs[NDIRECT] && b != 0)
  {
    hide Word, TestBit;
    assert Val(s, Indirect(i)) == s.inodes[i].addrs[NDIRECT];
    forall b: nat | b < sb.size
      ensures IsIndirectOf(s.owner[b], i) <==>
        IsEntryBelow(s.owner[b], i, NINDIRECT) || (b == s.inodes[i].addrs[NDIRECT] && b != 0)
    {
      if IsIndirectOf(s.owner[b], i) {
        assert Val(s, s.owner[b]) == b;
      }
    }
  }

  /** Files other than i do not notice changes to the bitmap and to inode i. */
  lemma OthersKeepContent(sb: Super, s: Fs, t: Fs, i: nat, j: nat)
    requires Inv(sb, s) && Inv(sb, t) && j < |s.inodes| == |t.inodes| && j != i
    requires t.inodes[j] == s.inodes[j] && OnlyBitmap(sb, s.disk, t.disk)
    ensures Content(t, j) == Content(s, j) && (NoHoles(t, j) <==> NoHoles(s, j))
  {
    hide Word, TestBit;
    forall bn: nat
      ensures Val(t, FileSlot(j, bn)) == Val(s, FileSlot(j, bn))
    {
      if bn >= NDIRECT {
        var ind := s.inodes[j].addrs[NDIRECT];
        assert Val(s, Indirect(j)) == ind;
        if 0 < ind < sb.size && ind in Bitmap(sb) {
          BitmapNotPointer(sb, s, ind);
        }
      }
    }
    forall o: nat
      ensures ByteAt(t, j, o) == ByteAt(s, j, o)
    {
      var b := Val(s, FileSlot(j, o / BSIZE));
      if 0 < b < sb.size && b in Bitmap(sb) {
        BitmapNotPointer(sb, s, b);
      }
    }
    assert forall o: nat | o < |Content(s, j)| ::
      Content(t, j)[o] == ByteAt(t, j, 0 + o) && Content(s, j)[o] == ByteAt(s, j, 0 + o);
  }

  lemma WriteStarts(sb: Super, s: Fs, i: nat, off: nat, src: seq<Byte>)
    requires Inv(sb, s) && i < |s.inodes|
    ensures Wrote(s, s, i, off, src, 0) && KeepsPointers(s, s) && Spans(s, i, off, 0)
  {
  }

  lemma AfterBMap(sb: Super, s0: Fs, s: Fs, t: Fs, i: nat, off: nat, n: nat, src: seq<Byte>, tot: nat,
                  log1: set<nat>, log2: set<nat>, bp: Option<nat>)
    requires Shaped(s0) && Inv(sb, s) && Inv(sb, t) && Grown(sb, s, t) && tot <= |src| && tot < n
    requires Wrote(s0, s, i, off, src, tot) && KeepsPointers(s0, s) && Spans(s, i, off, tot)
    requires log2 <= log1 + Bitmap(sb) + IndSet(t, i) + if bp.Some? then {bp.value} else {}
    requires bp.Some? ==> 0 < bp.value && bp.value == Val(t, FileSlot(i, (off + tot) / BSIZE))
    ensures Wrote(s0, t, i, off, src, tot) && KeepsPointers(s0, t) && Spans(t, i, off, tot)
    ensures Touched(sb, s, i, off, n) <= Touched(sb, t, i, off, n)
    ensures log2 <= log1 + Touched(sb, t, i, off, n)
    ensures bp.Some? ==> bp.value in Touched(sb, t, i, off, n)
  {
    hide Val, Owned, BitsMatch;
    WroteAfterGrowth(sb, s0, s, t, i, off, src, tot);
    GrownShape(sb, s, t);
    hide Grown, Wrote;
    TouchedGrows(sb, s, t, i, off, n);
    if bp.Some? {
      var bn := (off + tot) / BSIZE;
      assert off / BSIZE <= bn < EndBlock(off, n);
      assert bp.value in DataBlocks(t, i, off / BSIZE, EndBlock(off, n));
    }
  }

  lemma AfterStore(sb: Super, s0: Fs, s: Fs, t: Fs, i: nat, off: nat, n: nat, tot: nat, m: nat)
    requires Shaped(s0) && Shaped(s) && Shaped(t) && forall o: Owner :: Val(t, o) == Val(s, o)
    requires KeepsPointers(s0, s) && Spans(s, i, off, tot)
    requires Val(s, FileSlot(i, (off + tot) / BSIZE)) != 0 && (off + tot) % BSIZE + m <= BSIZE
    ensures KeepsPointers(s0, t) && Spans(t, i, off, tot + m)
    ensures Touched(sb, t, i, off, n) == Touched(sb, s, i, off, n)
  {
    hide Val;
    SpansMore(s, i, off, tot, m);
    TouchedGrows(sb, s, t, i, off, n);
    TouchedGrows(sb, t, s, i, off, n);
  }

  /** Recording a new size touches no pointer and no byte. */
  lemma SizeIrrelevant(sb: Super, s0: Fs, s: Fs, t: Fs, i: nat, off: nat, src: seq<Byte>, tot: nat, n: nat)
    requires Shaped(s0) && Inv(sb, s) && i < |s.inodes| && tot <= |src|
    requires t.disk == s.disk && t.owner == s.owner && |t.inodes| == |s.inodes|
    requires forall j | 0 <= j < |s.inodes| :: t.inodes[j].addrs == s.inodes[j].addrs
    requires Wrote(s0, s, i, off, src, tot) && KeepsPointers(s0, s) && Spans(s, i, off, tot)
    ensures Inv(sb, t)
    ensures Wrote(s0, t, i, off, src, tot) && KeepsPointers(s0, t) && Spans(t, i, off, tot)
    ensures Touched(sb, t, i, off, n) == Touched(sb, s, i, off, n)
  {
    hide Word, TestBit;
    forall o: Owner
      ensures Val(t, o) == Val(s, o)
    {
    }
    hide Val;
    TouchedGrows(sb, s, t, i, off, n);
    TouchedGrows(sb, t, s, i, off, n);
    forall j: nat, o: nat
      ensures ByteAt(t, j, o) == ByteAt(s, j, o)
    {
    }
  }

  lemma WriteEnds(s0: Fs, s: Fs, i: nat, off: nat, src: seq<Byte>, tot: nat)
    requires Shaped(s0) && Shaped(s) && i < |s0.inodes| == |s.inodes| && tot <= |src|
    requires Wrote(s0, s, i, off, src, tot) && KeepsPointers(s0, s) && Spans(s, i, off, tot)
    requires off <= s0.inodes[i].size
    requires forall j | 0 <= j < |s.inodes| ::
      s.inodes[j].size == if j == i && off + tot > s0.inodes[i].size then off + tot else s0.inodes[j].size
    ensures Content(s, i) == Splice(Content(s0, i), off, src[..tot])
    ensures forall j: nat | j < |s.inodes| && j != i :: Content(s, j) == Content(s0, j)
    ensures forall j: nat | j < |s.inodes| && NoHoles(s0, j) :: NoHoles(s, j)
  {
    hide Val, Splice, Slice, Wrote;
    WroteIsSplice(s0, s, i, off, src, tot);
    forall j: nat | j < |s.inodes| && j != i
      ensures Content(s, j) == Content(s0, j)
    {
      WroteElsewhere(s0, s, i, off, src, tot, j);
    }
    forall j: nat | j < |s.inodes| && NoHoles(s0, j)
      ensures NoHoles(s, j)
    {
      StillNoHoles(s0, s, i, off, tot, j);
    }
  }

  /** Bit bi of the bitmap block that balloc is scanning is the bit of block b + bi. */
  lemma ScanAddress(sb: Super, s: Fs, b: nat, bi: nat)
    requires Inv(sb, s) && b % BPB == 0 && bi < BPB && b + bi < sb.size
    ensures BitmapBlock(sb, b) == BitmapBlock(sb, b + bi) < |s.disk| && bi == (b + bi) % BPB
    ensures TestBit(s.disk[BitmapBlock(sb, b)][bi / 8], bi % 8) <==> s.owner[b + bi] != Free
  {
    hide Owned, Val, TestBit;
    ScanArithmetic(b, bi);
    assert InUse(sb, s.disk, b + bi) <==> s.owner[b + bi] != Free;
  }

  lemma ScanArithmetic(b: nat, bi: nat)
    requires b % BPB == 0 && bi < BPB
    ensures (b + bi) / BPB == b / BPB && (b + bi) % BPB == bi && (b + bi) % 8 == bi % 8
  {
    var q := b / BPB;
    assert b == BPB * q;
    DivOfSum(q, bi);
    ModOfSum(1024 * q, bi);
  }

  lemma DivOfSum(q: nat, r: nat)
    requires r < BPB
    ensures (BPB * q + r) / BPB == q && (BPB * q + r) % BPB == r
  {
  }

  lemma ModOfSum(q: nat, r: nat)
    ensures (8 * q + r) % 8 == r % 8
  {
    assert 8 * q + r == 8 * (q + r / 8) + r % 8;
  }

  /** How many of n bytes at off there are to read; off + n is computed modulo 2^32. */
  function Available(size: nat, off: nat, n: nat): nat {
    if off > size || off + n >= TWO32 then 0 else if off + n > size then size - off else n
  }

  /** One round of readi's loop. */
  lemma ReadMore(sb: Super, s0: Fs, s: Fs, i: nat, off: nat, tot: nat, m: nat)
    requires Grown(sb, s0, s)
    requires var pos := off + tot;
      0 < Val(s, FileSlot(i, pos / BSIZE)) < |s.disk| && pos % BSIZE + m <= BSIZE
    ensures var pos := off + tot;
      var b := Val(s, FileSlot(i, pos / BSIZE));
      Slice(s0, i, off, tot) + s.disk[b][pos % BSIZE..pos % BSIZE + m] == Slice(s0, i, off, tot + m)
  {
    hide Val, Slice;
    ChunkIsSlice(s, i, off + tot, m);
    GrownSlice(sb, s0, s, i, off + tot, m);
    SliceSplit(s0, i, off, tot, m);
  }

  /** In a file without holes, every byte below its size is in an allocated block. */
  lemma Allocated(s: Fs, i: nat, pos: nat)
    requires Shaped(s) && i < |s.inodes| && NoHoles(s, i) && pos < s.inodes[i].size
    ensures Val(s, FileSlot(i, pos / BSIZE)) != 0 && pos / BSIZE < MAXFILE
  {
    assert pos / BSIZE * BSIZE < s.inodes[i].size;
  }
}
