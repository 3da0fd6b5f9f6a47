/** The initial image: mkfs hands out data blocks in order, appends files, rounds up
    the root directory and writes the bitmap last. */
module Mkfs {
  import opened Options
  import opened Blocks
  import opened FsLayout
  import opened FileSys

  const DIRENT: nat := 16

  /** File i has no block that starts at or beyond byte lim, and no indirect block for nothing. */
  ghost predicate Below(s: Fs, i: nat, lim: nat)
    requires Shaped(s)
  {
    && (forall bn: nat | bn * BSIZE >= lim :: Val(s, FileSlot(i, bn)) == 0)
    && (lim <= NDIRECT * BSIZE ==> Val(s, Indirect(i)) == 0)
  }

  /** File i has no block beyond its size. */
  ghost predicate Tight(s: Fs, i: nat)
    requires Shaped(s) && i < |s.inodes|
  {
    Below(s, i, s.inodes[i].size)
  }

  /** Blocks that a file of n bytes takes, its indirect block included. */
  function FileBlocks(n: nat): nat {
    var c := (n + BSIZE - 1) / BSIZE;
    if c > NDIRECT then c + 1 else c
  }

  /** Blocks that mapping block bn of file i takes. */
  ghost function Needs(s: Fs, i: nat, bn: nat): nat
    requires Shaped(s)
  {
    OneIf(Val(s, FileSlot(i, bn)) == 0) + OneIf(bn >= NDIRECT && Val(s, Indirect(i)) == 0)
  }

  function OneIf(b: bool): nat {
    if b then 1 else 0
  }

  lemma FileBlocksGrow(m: nat, n: nat)
    requires m <= n
    ensures FileBlocks(m) <= FileBlocks(n)
  {
  }

  /** A tight file without holes takes one more block where its size is on a boundary, and its
      indirect block with the first entry. */
  lemma NeedsOne(s: Fs, i: nat, pos: nat, m: nat)
    requires Shaped(s) && Covers(s, i, pos) && Below(s, i, pos) && 0 < m && pos % BSIZE + m <= BSIZE
    ensures Needs(s, i, pos / BSIZE) == FileBlocks(pos + m) - FileBlocks(pos)
  {
    hide Val;
    var bn := pos / BSIZE;
    assert (pos + m + BSIZE - 1) / BSIZE == bn + 1;
    if pos % BSIZE == 0 {
      assert bn * BSIZE == pos && (pos + BSIZE - 1) / BSIZE == bn;
      assert Val(s, FileSlot(i, bn)) == 0;
      if bn > NDIRECT {
        assert (bn - 1) * BSIZE < pos;
        assert Val(s, FileSlot(i, bn - 1)) != 0;
        EntryNeedsIndirect(s, i, bn - 1 - NDIRECT);
      }
    } else {
      assert bn * BSIZE < pos && (pos + BSIZE - 1) / BSIZE == bn + 1;
      assert Val(s, FileSlot(i, bn)) != 0;
      if bn >= NDIRECT {
        EntryNeedsIndirect(s, i, bn - NDIRECT);
      }
    }
  }

  /** A file without holes is no longer than its block map can reach. */
  lemma NoHolesFits(s: Fs, i: nat)
    requires Shaped(s) && i < |s.inodes| && NoHoles(s, i)
    ensures s.inodes[i].size <= MAXFILE * BSIZE
  {
    hide Word;
    assert Val(s, FileSlot(i, MAXFILE)) == 0;
  }

  /** n bytes can be appended to a file of the given size, with blocks from `free` on. */
  ghost predicate CanAppend(sb: Super, free: nat, size: nat, n: nat) {
    size + n <= MAXFILE * BSIZE && free + FileBlocks(size + n) - FileBlocks(size) <= sb.size
  }

  /** The first free block after an entry was added to a directory of the given size. */
  ghost function AfterEntry(free: nat, size: nat): nat {
    FileBlocksGrow(size, size + DIRENT);
    free + FileBlocks(size + DIRENT) - FileBlocks(size)
  }

  /** One more entry in a directory of the given size, and a file of n bytes. */
  ghost predicate CanAdd(sb: Super, free: nat, size: nat, n: nat) {
    CanAppend(sb, free, size, DIRENT) && CanAppend(sb, AfterEntry(free, size), 0, n)
  }

  lemma NoBlocks()
    ensures FileBlocks(0) == 0
  {
  }

  lemma SizeOf(s: Fs, i: nat)
    requires Shaped(s) && i < |s.inodes|
    ensures |Content(s, i)| == s.inodes[i].size
  {
  }

  ghost function SumBlocks(files: seq<seq<Byte>>): nat {
    if files == [] then 0 else SumBlocks(files[..|files| - 1]) + FileBlocks(|files[|files| - 1]|)
  }

  lemma SumMore(files: seq<seq<Byte>>, k: nat)
    requires k < |files|
    ensures SumBlocks(files[..k + 1]) == SumBlocks(files[..k]) + FileBlocks(|files[k]|)
  {
    assert files[..k + 1][..k] == files[..k];
  }

  lemma {:induction false} SumPart(files: seq<seq<Byte>>, k: nat)
    requires k <= |files|
    ensures SumBlocks(files[..k]) <= SumBlocks(files)
    decreases |files| - k
  {
    if k < |files| {
      SumMore(files, k);
      SumPart(files, k + 1);
    } else {
      assert files[..k] == files;
    }
  }

  /** The blocks handed out fit one bitmap block. */
  ghost predicate FitsBitmap(free: nat, m: nat, files: seq<seq<Byte>>) {
    free + FileBlocks(DIRENT * m) + SumBlocks(files) < BPB
  }

  /** A root directory of m entries and the files fit into the blocks from `free` on. */
  ghost predicate Fits(sb: Super, free: nat, m: nat, files: seq<seq<Byte>>) {
    && DIRENT * m <= MAXFILE * BSIZE
    && (forall k | 0 <= k < |files| :: |files[k]| <= MAXFILE * BSIZE)
    && free + FileBlocks(DIRENT * m) + SumBlocks(files) <= sb.size
  }

  /** The root directory's size after main's last adjustment. */
  function RoundedUp(off: nat): nat {
    (off / BSIZE + 1) * BSIZE
  }

  /** Rounding the size of a tightly allocated file up to the next block boundary
      leaves it without a hole exactly when the size was not on a boundary. */
  lemma RoundingHole(s: Fs, i: nat)
    requires Shaped(s) && i < |s.inodes| && NoHoles(s, i) && Tight(s, i)
    ensures var size := s.inodes[i].size;
      Covers(s, i, RoundedUp(size)) <==> size % BSIZE != 0
  {
    hide Val;
    var size := s.inodes[i].size;
    var last := size / BSIZE;
    if size % BSIZE == 0 {
      assert last * BSIZE >= size;
      assert Val(s, FileSlot(i, last)) == 0;
    } else {
      forall bn: nat | bn * BSIZE < RoundedUp(size)
        ensures Val(s, FileSlot(i, bn)) != 0
      {
        assert bn <= last;
        assert bn * BSIZE < size;
      }
    }
  }

  class Image {
    const sb: Super
    var disk: Disk
    var inodes: seq<Inode>
    var freeblock: nat
    ghost var owner: seq<Owner>
    /** The image as it will be once the bitmap is written. */
    ghost var marked: Disk

    ghost function S(): Fs
      reads this
    {
      Fs(marked, inodes, owner)
    }

    ghost predicate Valid()
      reads this
    {
      && Inv(sb, S()) && Quiet(S())
      && |disk| == sb.size
      && sb.nmeta <= freeblock <= sb.size
      && (forall b: nat | b < sb.size :: owner[b] == Free <==> freeblock <= b)
      && (forall b: nat | b < sb.size && b !in Bitmap(sb) :: marked[b] == disk[b])
      && (forall b: nat | freeblock <= b < sb.size :: disk[b] == ZeroBlock())
      && (forall b: nat | b < sb.size && b in Bitmap(sb) :: disk[b] == ZeroBlock())
    }

    /** The zeroed image with room for ninodes inodes. */
    constructor (sb: Super, ninodes: nat)
      requires sb.Valid()
      ensures Valid() && this.sb == sb && |inodes| == ninodes && freeblock == sb.nmeta
      ensures forall i: nat | i < ninodes :: Content(S(), i) == [] && NoHoles(S(), i) && Tight(S(), i)
    {
      this.sb := sb;
      disk := seq(sb.size, _ => ZeroBlock());
      inodes := seq(ninodes, _ => Inode(seq(NDIRECT + 1, _ => 0), 0));
      freeblock := sb.nmeta;
      owner := seq(sb.size, b => if b < sb.nmeta then Meta else Free);
      marked := MarkFirst(sb, seq(sb.size, _ => ZeroBlock()), sb.nmeta);
      new;
      hide Word, TestBit;
      assert forall o: Owner :: Val(S(), o) == 0;
    }

    /** `freeblock++`; None where it would run past the end of the image. */
    method Grab() returns (r: Option<nat>)
      requires Valid()
      modifies this`freeblock, this`owner, this`marked
      ensures Inv(sb, S()) && |disk| == sb.size && sb.nmeta <= freeblock <= sb.size
      ensures r == None <==> old(freeblock) == sb.size
      ensures r == None ==> S() == old(S()) && freeblock == old(freeblock)
      ensures r.Some? ==>
        && r.value == old(freeblock) && freeblock == r.value + 1
        && r.value < sb.size && old(owner)[r.value] == Free
        && marked == PutInUse(sb, old(marked), r.value, true)[r.value := ZeroBlock()]
        && owner == old(owner)[r.value := Pending]
        && (forall o: Owner :: Val(S(), o) == Val(old(S()), o))
        && (forall b: nat | b < sb.size && b !in Bitmap(sb) :: marked[b] == disk[b])
    {
      hide Word, TestBit, Val, Owned, BitsMatch, PutInUse;
      if freeblock >= sb.size {
        return None;
      }
      var x := freeblock;
      AllocKeeps(sb, S(), x, ZeroBlock());
      BitmapHas(sb, x);
      freeblock := freeblock + 1;
      marked := PutInUse(sb, marked, x, true)[x := ZeroBlock()];
      owner := owner[x := Pending];
      return Some(x);
    }

    /** iappend's direct case. */
    method MapDirect(i: nat, bn: nat) returns (r: Option<nat>)
      requires Valid() && i < |inodes| && bn < NDIRECT
      modifies this`inodes, this`freeblock, this`owner, this`marked
      ensures Valid() && Grown(sb, old(S()), S())
      ensures forall o: Owner | o != Direct(i, bn) :: Val(S(), o) == Val(old(S()), o)
      ensures r.Some? ==> 0 < r.value < sb.size && r.value == Val(S(), Direct(i, bn))
      ensures r == None <==> Val(old(S()), Direct(i, bn)) == 0 && old(freeblock) == sb.size
      ensures r.Some? ==> freeblock == old(freeblock) + OneIf(Val(old(S()), Direct(i, bn)) == 0)
    {
      hide Word, TestBit, PutInUse, BitsMatch;
      GrownReflexive(sb, S());
      assert Val(S(), Direct(i, bn)) == inodes[i].addrs[bn];
      if inodes[i].addrs[bn] == 0 {
        var x := Grab();
        if x == None {
          return None;
        }
        ClaimGrows(sb, old(S()), x.value);
        ghost var s1 := S();
        LinkDirect(sb, s1, i, bn, x.value);
        inodes := inodes[i := inodes[i].(addrs := inodes[i].addrs[bn := x.value])];
        owner := owner[x.value := Direct(i, bn)];
        GrownTransitive(sb, old(S()), s1, S());
      }
      return Some(inodes[i].addrs[bn]);
    }

    method LoadIndirect(i: nat) returns (r: Option<nat>)
      requires Valid() && i < |inodes|
      modifies this`inodes, this`freeblock, this`owner, this`marked
      ensures Valid() && Grown(sb, old(S()), S())
      ensures forall o: Owner | o != Indirect(i) :: Val(S(), o) == Val(old(S()), o)
      ensures r.Some? ==> 0 < r.value < sb.size && r.value == Val(S(), Indirect(i))
      ensures r == None <==> Val(old(S()), Indirect(i)) == 0 && old(freeblock) == sb.size
      ensures r.Some? ==> freeblock == old(freeblock) + OneIf(Val(old(S()), Indirect(i)) == 0)
    {
      hide Word, TestBit, PutInUse, BitsMatch;
      GrownReflexive(sb, S());
      assert Val(S(), Indirect(i)) == inodes[i].addrs[NDIRECT];
      if inodes[i].addrs[NDIRECT] == 0 {
        var x := Grab();
        if x == None {
          return None;
        }
        ClaimGrows(sb, old(S()), x.value);
        ghost var s1 := S();
        LinkIndirect(sb, s1, i, x.value);
        inodes := inodes[i := inodes[i].(addrs := inodes[i].addrs[NDIRECT := x.value])];
        owner := owner[x.value := Indirect(i)];
        GrownTransitive(sb, old(S()), s1, S());
      }
      return Some(inodes[i].addrs[NDIRECT]);
    }

    /** wsect of a data sector. */
    method Wsect(b: nat, blk: Block)
      requires b < |disk| == |marked| && b !in Bitmap(sb)
      modifies this`disk, this`marked
      ensures disk == old(disk)[b := blk] && marked == old(marked)[b := blk]
    {
      disk := disk[b := blk];
      marked := marked[b := blk];
    }

    method MapEntry(i: nat, k: nat) returns (r: Option<nat>)
      requires Valid() && i < |inodes| && k < NINDIRECT && Val(S(), Indirect(i)) != 0
      modifies this`disk, this`inodes, this`freeblock, this`owner, this`marked
      ensures Valid() && Grown(sb, old(S()), S())
      ensures forall o: Owner | o != Entry(i, k) :: Val(S(), o) == Val(old(S()), o)
      ensures r.Some? ==> 0 < r.value < sb.size && r.value == Val(S(), Entry(i, k))
      ensures r == None <==> Val(old(S()), Entry(i, k)) == 0 && old(freeblock) == sb.size
      ensures r.Some? ==> freeblock == old(freeblock) + OneIf(Val(old(S()), Entry(i, k)) == 0)
    {
      hide Word, TestBit, PutInUse, WithWord, BitsMatch, Val, Owned, Grown;
      GrownReflexive(sb, S());
      var ind := inodes[i].addrs[NDIRECT];
      EntryFacts(sb, S(), i, k);
      NotBitmap(sb, S(), ind);
      assert disk[ind] == marked[ind];
      var addr := Word(disk[ind], k);
      if addr == 0 {
        var x := Grab();
        if x == None {
          return None;
        }
        ClaimGrows(sb, old(S()), x.value);
        ghost var s1 := S();
        assert Val(s1, Entry(i, k)) == 0;
        LinkEntry(sb, s1, i, k, x.value);
        addr := x.value;
        Wsect(ind, WithWord(disk[ind], k, addr));
        owner := owner[addr := Entry(i, k)];
        GrownTransitive(sb, old(S()), s1, S());
      }
      return Some(addr);
    }

    /** The block iappend writes block bn of file i to; fails iff bn is beyond the largest file or
        the blocks it needs are beyond the end of the image. */
    method Map(i: nat, bn: nat) returns (r: Option<nat>)
      requires Valid() && i < |inodes|
      modifies this`disk, this`inodes, this`freeblock, this`owner, this`marked
      ensures Valid() && Grown(sb, old(S()), S())
      ensures forall o: Owner | o != FileSlot(i, bn) && o != Indirect(i) :: Val(S(), o) == Val(old(S()), o)
      ensures bn < NDIRECT ==> Val(S(), Indirect(i)) == Val(old(S()), Indirect(i))
      ensures r.Some? ==> bn < MAXFILE && 0 < r.value < sb.size && r.value == Val(S(), FileSlot(i, bn))
      ensures r == None <==> bn >= MAXFILE || old(freeblock) + Needs(old(S()), i, bn) > sb.size
      ensures r.Some? ==> freeblock == old(freeblock) + Needs(old(S()), i, bn)
    {
      hide Val, Grown, Owned, BitsMatch;
      GrownReflexive(sb, S());
      if bn >= NDIRECT {
        EntryNeedsIndirect(S(), i, bn - NDIRECT);
      }
      if bn >= MAXFILE {
        return None;
      }
      if bn < NDIRECT {
        r := MapDirect(i, bn);
        return;
      }
      r := LoadIndirect(i);
      if r == None {
        return;
      }
      ghost var s1 := S();
      GrownShape(sb, old(S()), s1);
      r := MapEntry(i, bn - NDIRECT);
      GrownTransitive(sb, old(S()), s1, S());
    }

    /** iappend: the bytes go at the end of file i, every other file is untouched,
        and no block is allocated that does not hold a byte of its file. It fails iff the file
        would be too long or the blocks run out. */
    method IAppend(i: nat, data: seq<Byte>) returns (ok: bool)
      requires Valid() && i < |inodes| && NoHoles(S(), i) && Tight(S(), i)
      modifies this`disk, this`inodes, this`freeblock, this`owner, this`marked
      ensures Valid() && |inodes| == |old(inodes)|
      ensures ok <==> CanAppend(sb, old(freeblock), old(inodes)[i].size, |data|)
      ensures ok ==> inodes[i].size == old(inodes)[i].size + |data|
      ensures ok ==>
        freeblock == old(freeblock) + FileBlocks(inodes[i].size) - FileBlocks(old(inodes)[i].size)
      ensures ok ==>
        && Content(S(), i) == Content(old(S()), i) + data
        && NoHoles(S(), i) && Tight(S(), i)
        && (forall j: nat | j < |inodes| && j != i :: Content(S(), j) == Content(old(S()), j))
        && (forall j: nat | j < |inodes| && j != i && NoHoles(old(S()), j) :: NoHoles(S(), j))
        && (forall j: nat | j < |inodes| && j != i && Tight(old(S()), j) :: Tight(S(), j))
    {
      hide Val, Owned, BitsMatch, Grown, Appending, Content, FileBlocks, Needs, NoHoles, Tight, Patch, Mapped;
      hide Bitmap;
      ghost var s0 := S();
      var off := inodes[i].size;
      AppendStarts(sb, s0, i, data);
      NoHolesFits(s0, i);
      var tot := 0;
      while tot < |data|
        invariant tot <= |data| && Valid() && |inodes| == |s0.inodes|
        invariant Appending(s0, S(), i, data, tot)
        invariant off + tot <= MAXFILE * BSIZE
        invariant freeblock == old(freeblock) + FileBlocks(off + tot) - FileBlocks(off)
      {
        ghost var s1 := S();
        var pos := off + tot;
        var fbn := pos / BSIZE;
        var m := Min(|data| - tot, (fbn + 1) * BSIZE - pos);
        AppendNeeds(s0, s1, i, data, tot, m);
        FileBlocksGrow(pos + m, off + |data|);
        var x := Map(i, fbn);
        GrownShape(sb, s1, S());
        if x == None {
          return false;
        }
        AppendMapped(sb, s0, s1, S(), i, data, tot);
        ghost var s2 := S();
        SlotOwner(sb, s2, i, fbn);
        NotBitmap(sb, s2, x.value);
        Wsect(x.value, Patch(disk[x.value], pos % BSIZE, data[tot..tot + m]));
        AppendStored(sb, s0, s2, S(), i, data, tot, m);
        tot := tot + m;
      }
      ghost var s3 := S();
      inodes := inodes[i := inodes[i].(size := off + tot)];
      AppendEnds(sb, s0, s3, S(), i, data);
      return true;
    }

    /** main's inner loop: a whole file, one sector-sized read at a time. */
    method AppendFile(i: nat, data: seq<Byte>) returns (ok: bool)
      requires Valid() && i < |inodes| && Content(S(), i) == []
      requires forall j: nat | j < |inodes| :: NoHoles(S(), j) && Tight(S(), j)
      modifies this`disk, this`inodes, this`freeblock, this`owner, this`marked
      ensures Valid() && |inodes| == |old(inodes)|
      ensures ok <==> CanAppend(sb, old(freeblock), 0, |data|)
      ensures ok ==> freeblock == old(freeblock) + FileBlocks(|data|)
      ensures ok ==>
        && Content(S(), i) == data
        && (forall j: nat | j < |inodes| :: NoHoles(S(), j) && Tight(S(), j))
        && (forall j: nat | j < |inodes| && j != i :: Content(S(), j) == Content(old(S()), j))
    {
      hide Val, Owned, BitsMatch, Slice, NoHoles, Tight, FileBlocks;
      var p := 0;
      NoBlocks();
      while p < |data|
        invariant p <= |data| && p <= MAXFILE * BSIZE && Valid() && |inodes| == |old(inodes)|
        invariant Content(S(), i) == data[..p] && freeblock == old(freeblock) + FileBlocks(p)
        invariant forall j: nat | j < |inodes| :: NoHoles(S(), j) && Tight(S(), j)
        invariant forall j: nat | j < |inodes| && j != i :: Content(S(), j) == Content(old(S()), j)
      {
        var cc := Min(BSIZE, |data| - p);
        SizeOf(S(), i);
        FileBlocksGrow(p + cc, |data|);
        var done := IAppend(i, data[p..p + cc]);
        if !done {
          return false;
        }
        assert data[..p] + data[p..p + cc] == data[..p + cc];
        p := p + cc;
      }
      assert data[..p] == data;
      return true;
    }

    /** The image as written. */
    ghost function Final(): Fs
      reads this
    {
      Fs(disk, inodes, owner)
    }

    /** balloc: mark the first freeblock blocks; false where its assertion fails. */
    method WriteBitmap() returns (ok: bool)
      requires Valid()
      modifies this`disk
      ensures ok <==> freeblock < BPB
      ensures ok ==> Inv(sb, Final()) && Quiet(Final()) && OnlyBitmap(sb, marked, disk)
    {
      hide TestBit, Val, Owned, BitsMatch, Bitmap, InUse;
      if freeblock >= BPB {
        return false;
      }
      var buf := ZeroBlock();
      var i := 0;
      NoBitsYet();
      while i < freeblock
        invariant i <= freeblock
        invariant forall c: nat | c < BPB :: TestBit(buf[c / 8], c % 8) <==> c < i
      {
        buf := PutBlockBit(buf, i, true);
        i := i + 1;
      }
      BitmapHas(sb, 0);
      ghost var before := disk;
      disk := disk[sb.bmapstart := buf];
      BitmapWritten(sb, S(), Final(), before, freeblock, buf);
      return true;
    }

    /** One turn of main's loop over the files: the entry, then the file. */
    method AddFile(ent: seq<Byte>, i: nat, data: seq<Byte>) returns (ok: bool)
      requires Valid() && 1 < i < |inodes| && |ent| == DIRENT && Content(S(), i) == []
      requires forall j: nat | j < |inodes| :: NoHoles(S(), j) && Tight(S(), j)
      modifies this`disk, this`inodes, this`freeblock, this`owner, this`marked
      ensures Valid() && |inodes| == |old(inodes)|
      ensures ok <==> CanAdd(sb, old(freeblock), old(inodes)[1].size, |data|)
      ensures ok ==> inodes[1].size == old(inodes)[1].size + DIRENT
      ensures ok ==> freeblock == AfterEntry(old(freeblock), old(inodes)[1].size) + FileBlocks(|data|)
      ensures ok ==>
        && (forall j: nat | j < |inodes| :: NoHoles(S(), j) && Tight(S(), j))
        && Content(S(), 1) == Content(old(S()), 1) + ent && Content(S(), i) == data
        && (forall j: nat | j < |inodes| && j != 1 && j != i :: Content(S(), j) == Content(old(S()), j))
    {
      hide Val, Owned, BitsMatch, Content, NoHoles, Tight, FileBlocks, CanAppend;
      FileBlocksGrow(inodes[1].size, inodes[1].size + DIRENT);
      ok := IAppend(1, ent);
      if !ok {
        return;
      }
      SizeOf(S(), 1);
      ok := AppendFile(i, data);
      SizeOf(S(), 1);
    }

    /** The two entries of a new root directory. */
    method AddDots(dot: seq<Byte>, dotdot: seq<Byte>) returns (ok: bool)
      requires Valid() && |inodes| > 1 && |dot| == |dotdot| == DIRENT && Content(S(), 1) == []
      requires forall j: nat | j < |inodes| :: NoHoles(S(), j) && Tight(S(), j)
      modifies this`disk, this`inodes, this`freeblock, this`owner, this`marked
      ensures Valid() && |inodes| == |old(inodes)|
      ensures ok <==> CanAppend(sb, old(freeblock), 0, 2 * DIRENT)
      ensures ok ==> inodes[1].size == 2 * DIRENT && freeblock == old(freeblock) + FileBlocks(2 * DIRENT)
      ensures ok ==>
        && (forall j: nat | j < |inodes| :: NoHoles(S(), j) && Tight(S(), j))
        && Content(S(), 1) == [] + dot + dotdot
        && (forall j: nat | j < |inodes| && j != 1 :: Content(S(), j) == Content(old(S()), j))
    {
      hide Val, Owned, BitsMatch, Content, NoHoles, Tight;
      SizeOf(S(), 1);
      ok := IAppend(1, dot);
      if !ok {
        return;
      }
      ok := IAppend(1, dotdot);
    }

    /** main's loop over the files named on its command line. */
    method Populate(ents: seq<seq<Byte>>, files: seq<seq<Byte>>) returns (ok: bool)
      requires Valid() && |inodes| >= |files| + 2 && |ents| == |files| + 2
      requires forall k | 0 <= k < |ents| :: |ents[k]| == DIRENT
      requires forall j: nat | j < |inodes| :: Content(S(), j) == [] && NoHoles(S(), j) && Tight(S(), j)
      modifies this`disk, this`inodes, this`freeblock, this`owner, this`marked
      ensures Valid() && |inodes| == |old(inodes)|
      ensures ok <==> Fits(sb, old(freeblock), |ents|, files)
      ensures ok ==> freeblock == old(freeblock) + FileBlocks(DIRENT * |ents|) + SumBlocks(files)
      ensures ok ==>
        && (forall j: nat | j < |inodes| :: NoHoles(S(), j) && Tight(S(), j))
        && Content(S(), 1) == Flatten(ents)
        && (forall k: nat | k < |files| :: Content(S(), k + 2) == files[k])
    {
      hide Val, Owned, BitsMatch, Content, NoHoles, Tight, Bitmap, Flatten, FileBlocks, SumBlocks, Fits;
      hide CanAdd, AfterEntry;
      RootFits(sb, old(freeblock), |ents|, files);
      var done := AddDots(ents[0], ents[1]);
      if !done {
        return false;
      }
      FlattenTwo(ents);
      var k := 0;
      NoFiles(files);
      while k < |files|
        invariant k <= |files| && Valid() && |inodes| == |old(inodes)|
        invariant forall j: nat | j < |inodes| :: NoHoles(S(), j) && Tight(S(), j)
        invariant Content(S(), 1) == Flatten(ents[..k + 2]) && inodes[1].size == DIRENT * (k + 2)
        invariant forall j: nat | j < k :: Content(S(), j + 2) == files[j]
        invariant forall j: nat | k + 2 <= j < |inodes| :: Content(S(), j) == []
        invariant forall j | 0 <= j < k :: |files[j]| <= MAXFILE * BSIZE
        invariant DIRENT * (k + 2) <= MAXFILE * BSIZE
        invariant freeblock == old(freeblock) + FileBlocks(DIRENT * (k + 2)) + SumBlocks(files[..k])
      {
        FileFits(sb, old(freeblock), |ents|, files, k, freeblock);
        FlattenMore(ents, k + 2);
        assert Content(S(), k + 2) == [];
        done := AddFile(ents[k + 2], k + 2, files[k]);
        if !done {
          return false;
        }
        SumMore(files, k);
        k := k + 1;
      }
      assert ents[..k + 2] == ents && files[..k] == files;
      AllFit(sb, old(freeblock), |ents|, files, freeblock);
      return true;
    }

    /** main, from the zeroed image on: "." and "..", then every file with its
        directory entry, the root directory rounded up, the bitmap. It goes through iff the
        files and the root directory fit. Then the image is consistent, every file reads back
        as given, and the root directory is free of holes exactly when its entries do not fill
        whole blocks. */
    method Build(ents: seq<seq<Byte>>, files: seq<seq<Byte>>) returns (ok: bool)
      requires Valid() && |inodes| >= |files| + 2 && |ents| == |files| + 2
      requires forall k | 0 <= k < |ents| :: |ents[k]| == DIRENT
      requires forall j: nat | j < |inodes| :: Content(S(), j) == [] && NoHoles(S(), j) && Tight(S(), j)
      modifies this`disk, this`inodes, this`freeblock, this`owner, this`marked
      ensures |inodes| == |old(inodes)|
      ensures ok <==> Fits(sb, old(freeblock), |ents|, files) && FitsBitmap(old(freeblock), |ents|, files)
      ensures ok ==> Inv(sb, Final()) && Quiet(Final())
      ensures ok ==> forall k: nat | k < |files| ::
        Content(Final(), k + 2) == files[k] && NoHoles(Final(), k + 2)
      ensures ok ==> |Content(Final(), 1)| == RoundedUp(DIRENT * |ents|)
      ensures ok ==> Content(Final(), 1)[..DIRENT * |ents|] == Flatten(ents)
      ensures ok ==> (NoHoles(Final(), 1) <==> |ents| % 64 != 0)
    {
      hide Val, Owned, BitsMatch, Slice, NoHoles, Tight, Bitmap, Flatten, FileBlocks, SumBlocks, Fits;
      ok := Populate(ents, files);
      if !ok {
        return;
      }
      FlattenSize(ents);
      ghost var s0 := S();
      inodes := inodes[1 := inodes[1].(size := RoundedUp(inodes[1].size))];
      RoundRoot(sb, s0, S());
      ok := WriteBitmap();
      if ok {
        ImageIgnoresBitmap(sb, S(), Final());
      }
    }

    /** The kernel mounts the image: all files are there, and the file system is consistent. */
    method Mount() returns (fs: FileSystem)
      requires Inv(sb, Final()) && Quiet(Final())
      ensures fresh(fs) && fs.Valid() && fs.sb == sb && fs.S() == Final()
    {
      fs := new FileSystem(sb, disk, inodes, owner);
    }
  }

  /** The layout of the image that mkfs makes: FSSIZE 1000, 30 log blocks, 13 inode blocks, one
      bitmap block. */
  function MkfsSuper(): Super {
    Super(1000, 46, 32, 45, 200)
  }

  /** With 62 empty files the 64 entries of the root directory fill one block, and the image has a
      hole. The kernel's file system on it is consistent all the same. */
  method HoleImage() returns (fs: FileSystem)
    ensures fresh(fs) && fs.Valid() && fs.sb == MkfsSuper()
    ensures |fs.inodes| == 200 && fs.inodes[1].size == 2 * BSIZE && !NoHoles(fs.S(), 1)
  {
    hide Val, Owned, BitsMatch, Slice, NoHoles, Tight, Bitmap, Flatten, FileBlocks, SumBlocks;
    var img := new Image(MkfsSuper(), 200);
    var files: seq<seq<Byte>> := seq(62, _ => []);
    var ents: seq<seq<Byte>> := seq(64, _ => seq(16, _ => 0));
    EmptyFiles(files);
    assert FileBlocks(DIRENT * 64) == 1 by {
      OneBlock();
    }
    var ok := img.Build(ents, files);
    assert ok;
    SizeOf(img.Final(), 1);
    fs := img.Mount();
  }

  lemma OneBlock()
    ensures FileBlocks(DIRENT * 64) == 1
  {
  }

  lemma {:induction false} EmptyFiles(files: seq<seq<Byte>>)
    requires forall k | 0 <= k < |files| :: files[k] == []
    ensures SumBlocks(files) == 0
  {
    if files != [] {
      EmptyFiles(files[..|files| - 1]);
    }
  }

  lemma NoFiles(files: seq<seq<Byte>>)
    ensures SumBlocks(files[..0]) == 0
  {
  }

  lemma RootFits(sb: Super, free: nat, m: nat, files: seq<seq<Byte>>)
    requires m == |files| + 2
    ensures Fits(sb, free, m, files) ==> CanAppend(sb, free, 0, 2 * DIRENT)
  {
    hide FileBlocks, SumBlocks;
    NoBlocks();
    FileBlocksGrow(2 * DIRENT, DIRENT * m);
  }

  /** If the next file does not fit after k of them, the whole does not fit. */
  lemma FileFits(sb: Super, free: nat, m: nat, files: seq<seq<Byte>>, k: nat, now: nat)
    requires k < |files| && m == |files| + 2 && now == free + FileBlocks(DIRENT * (k + 2)) + SumBlocks(files[..k])
    ensures AfterEntry(now, DIRENT * (k + 2)) == free + FileBlocks(DIRENT * (k + 3)) + SumBlocks(files[..k])
    ensures Fits(sb, free, m, files) ==> CanAdd(sb, now, DIRENT * (k + 2), |files[k]|)
    ensures CanAdd(sb, now, DIRENT * (k + 2), |files[k]|) ==>
      DIRENT * (k + 3) <= MAXFILE * BSIZE && |files[k]| <= MAXFILE * BSIZE
  {
    hide FileBlocks, SumBlocks;
    NoBlocks();
    SumMore(files, k);
    SumPart(files, k + 1);
    FileBlocksGrow(DIRENT * (k + 2), DIRENT * (k + 3));
    FileBlocksGrow(DIRENT * (k + 3), DIRENT * m);
  }

  lemma AllFit(sb: Super, free: nat, m: nat, files: seq<seq<Byte>>, now: nat)
    requires DIRENT * m <= MAXFILE * BSIZE && forall k | 0 <= k < |files| :: |files[k]| <= MAXFILE * BSIZE
    requires now == free + FileBlocks(DIRENT * m) + SumBlocks(files) && now <= sb.size
    ensures Fits(sb, free, m, files)
  {
    hide FileBlocks, SumBlocks;
  }

  /** What the next stretch of an append needs. */
  lemma AppendNeeds(s0: Fs, s: Fs, i: nat, data: seq<Byte>, tot: nat, m: nat)
    requires Shaped(s0) && Shaped(s) && i < |s0.inodes| == |s.inodes| && 0 < m && tot + m <= |data|
    requires NoHoles(s0, i) && Appending(s0, s, i, data, tot)
    requires (s0.inodes[i].size + tot) % BSIZE + m <= BSIZE
    ensures var pos := s0.inodes[i].size + tot;
      Needs(s, i, pos / BSIZE) == FileBlocks(pos + m) - FileBlocks(pos)
  {
    hide Val, FileBlocks, Needs, Wrote;
    var off := s0.inodes[i].size;
    forall bn: nat | bn * BSIZE < off + tot
      ensures Val(s, FileSlot(i, bn)) != 0
    {
      if bn * BSIZE < off {
        assert Val(s0, FileSlot(i, bn)) != 0;
      }
    }
    NeedsOne(s, i, off + tot, m);
  }

  ghost function Flatten(ents: seq<seq<Byte>>): seq<Byte> {
    if ents == [] then [] else Flatten(ents[..|ents| - 1]) + ents[|ents| - 1]
  }

  lemma {:induction false} FlattenSize(ents: seq<seq<Byte>>)
    requires forall k | 0 <= k < |ents| :: |ents[k]| == DIRENT
    ensures |Flatten(ents)| == DIRENT * |ents|
  {
    if ents != [] {
      FlattenSize(ents[..|ents| - 1]);
    }
  }

  lemma FlattenTwo(ents: seq<seq<Byte>>)
    requires |ents| >= 2
    ensures Flatten(ents[..2]) == [] + ents[0] + ents[1]
  {
    FlattenMore(ents, 0);
    FlattenMore(ents, 1);
    assert ents[..0] == [];
  }

  lemma FlattenMore(ents: seq<seq<Byte>>, k: nat)
    requires k < |ents|
    ensures Flatten(ents[..k + 1]) == Flatten(ents[..k]) + ents[k]
  {
    assert ents[..k + 1][..k] == ents[..k];
  }

  lemma NoBitsYet()
    ensures forall c: nat | c < BPB :: !TestBit(ZeroBlock()[c / 8], c % 8)
  {
    forall c: nat | c < BPB
      ensures !TestBit(ZeroBlock()[c / 8], c % 8)
    {
      ZeroHasNoBits(c % 8);
    }
  }

  lemma BitmapWritten(sb: Super, s: Fs, t: Fs, before: Disk, freeblock: nat, buf: Block)
    requires Inv(sb, s) && Quiet(s) && |before| == sb.size && freeblock < BPB && freeblock <= sb.size
    requires t == Fs(before[sb.bmapstart := buf], s.inodes, s.owner)
    requires forall b: nat | b < sb.size :: s.owner[b] == Free <==> freeblock <= b
    requires forall b: nat | b < sb.size && b !in Bitmap(sb) :: s.disk[b] == before[b]
    requires forall b: nat | b < sb.size && b in Bitmap(sb) :: before[b] == ZeroBlock()
    requires forall c: nat | c < BPB :: TestBit(buf[c / 8], c % 8) <==> c < freeblock
    requires sb.bmapstart in Bitmap(sb)
    ensures Inv(sb, t) && Quiet(t) && OnlyBitmap(sb, s.disk, t.disk)
  {
    hide Word, TestBit;
    forall b: nat | b < sb.size && s.owner[b].Indirect?
      ensures t.disk[b] == s.disk[b]
    {
      NotBitmap(sb, s, b);
    }
    ValFrame(sb, s, t);
    hide Val, BitsMatch;
    BitsWritten(sb, before, t.disk, freeblock, buf);
    SameOwned(sb, s, t);
  }

  lemma SameOwned(sb: Super, s: Fs, t: Fs)
    requires Inv(sb, s) && Sized(sb, t) && t.owner == s.owner && forall o: Owner :: Val(t, o) == Val(s, o)
    requires forall b: nat | b < sb.size :: InUse(sb, t.disk, b) <==> s.owner[b] != Free
    ensures Inv(sb, t)
  {
    hide Val, InUse;
  }

  /** The bits of the bitmap just written. */
  lemma BitsWritten(sb: Super, before: Disk, d: Disk, freeblock: nat, buf: Block)
    requires sb.Valid() && |before| == sb.size && freeblock < BPB && freeblock <= sb.size
    requires d == before[sb.bmapstart := buf]
    requires forall b: nat | b < sb.size && b in Bitmap(sb) :: before[b] == ZeroBlock()
    requires forall c: nat | c < BPB :: TestBit(buf[c / 8], c % 8) <==> c < freeblock
    ensures forall b: nat | b < sb.size :: InUse(sb, d, b) <==> b < freeblock
  {
    hide TestBit;
    forall b: nat | b < sb.size
      ensures InUse(sb, d, b) <==> b < freeblock
    {
      BitAddress(b);
      BitmapHas(sb, b);
      if b < BPB {
        assert b % BPB == b && b / BPB == 0;
      } else {
        assert b / BPB > 0;
        ZeroHasNoBits(b % 8);
        assert d[BitmapBlock(sb, b)] == ZeroBlock();
      }
    }
  }

  /** Rounding up the root directory: no other file notices, the entries stay. */
  lemma RoundRoot(sb: Super, s: Fs, t: Fs)
    requires Inv(sb, s) && 1 < |s.inodes| && NoHoles(s, 1) && Tight(s, 1)
    requires t == Fs(s.disk, s.inodes[1 := s.inodes[1].(size := RoundedUp(s.inodes[1].size))], s.owner)
    ensures Inv(sb, t)
    ensures forall j: nat | j < |t.inodes| && j != 1 ::
      Content(t, j) == Content(s, j) && (NoHoles(s, j) ==> NoHoles(t, j))
    ensures |Content(t, 1)| == RoundedUp(|Content(s, 1)|) && Content(t, 1)[..|Content(s, 1)|] == Content(s, 1)
    ensures NoHoles(t, 1) <==> |Content(s, 1)| % BSIZE != 0
  {
    hide Word, TestBit;
    assert forall o: Owner :: Val(t, o) == Val(s, o);
    hide Val;
    RoundingHole(s, 1);
    assert forall j: nat, o: nat :: ByteAt(t, j, o) == ByteAt(s, j, o);
    forall j: nat | j < |t.inodes| && j != 1
      ensures Content(t, j) == Content(s, j)
    {
      SameBytes(t, s, j, s.inodes[j].size);
    }
    SameBytes(t, s, 1, s.inodes[1].size);
    SlicePrefix(t, 1, s.inodes[1].size, t.inodes[1].size);
  }

  lemma SameBytes(s: Fs, t: Fs, j: nat, n: nat)
    requires Shaped(s) && Shaped(t) && forall o: nat :: ByteAt(t, j, o) == ByteAt(s, j, o)
    ensures Slice(t, j, 0, n) == Slice(s, j, 0, n)
  {
    hide Val;
    assert forall o: nat | o < n ::
      Slice(t, j, 0, n)[o] == ByteAt(t, j, 0 + o) && Slice(s, j, 0, n)[o] == ByteAt(s, j, 0 + o);
  }

  lemma SlicePrefix(s: Fs, j: nat, m: nat, n: nat)
    requires Shaped(s) && m <= n
    ensures Slice(s, j, 0, n)[..m] == Slice(s, j, 0, m)
  {
    hide Val;
    assert forall o: nat | o < m ::
      Slice(s, j, 0, n)[o] == ByteAt(s, j, 0 + o) && Slice(s, j, 0, m)[o] == ByteAt(s, j, 0 + o);
  }

  lemma ImageIgnoresBitmap(sb: Super, s: Fs, t: Fs)
    requires Inv(sb, s) && Inv(sb, t) && t.inodes == s.inodes && OnlyBitmap(sb, s.disk, t.disk)
    ensures forall j: nat | j < |s.inodes| :: Content(t, j) == Content(s, j) && (NoHoles(t, j) <==> NoHoles(s, j))
  {
    hide Word, TestBit;
    forall b: nat | b < sb.size && s.owner[b].Indirect?
      ensures t.disk[b] == s.disk[b]
    {
      NotBitmap(sb, s, b);
    }
    ValFrame(sb, s, t);
    hide Val;
    forall j: nat | j < |s.inodes|
      ensures Content(t, j) == Content(s, j)
    {
      OthersKeepContent(sb, s, t, j + 1, j);
    }
  }

  /** Files other than i have the same blocks. */
  ghost predicate SamePointersElsewhere(s: Fs, t: Fs, i: nat)
    requires Shaped(s) && Shaped(t)
  {
    && (forall j: nat, bn: nat | j != i :: Val(t, FileSlot(j, bn)) == Val(s, FileSlot(j, bn)))
    && (forall j: nat | j != i :: Val(t, Indirect(j)) == Val(s, Indirect(j)))
  }

  /** iappend's loop invariant: the first tot bytes are in place beyond the old end. */
  ghost predicate Appending(s0: Fs, s: Fs, i: nat, data: seq<Byte>, tot: nat)
    requires Shaped(s0) && Shaped(s) && i < |s0.inodes| == |s.inodes| && tot <= |data|
  {
    var off := s0.inodes[i].size;
    && (forall j | 0 <= j < |s.inodes| :: s.inodes[j].size == s0.inodes[j].size)
    && Wrote(s0, s, i, off, data, tot)
    && KeepsPointers(s0, s) && Spans(s, i, off, tot)
    && Below(s, i, off + tot) && SamePointersElsewhere(s0, s, i)
  }

  /** The same after the block for the next byte has been mapped. */
  ghost predicate Mapped(s0: Fs, s: Fs, i: nat, data: seq<Byte>, tot: nat)
    requires Shaped(s0) && Shaped(s) && i < |s0.inodes| == |s.inodes| && tot <= |data|
  {
    var off := s0.inodes[i].size;
    && (forall j | 0 <= j < |s.inodes| :: s.inodes[j].size == s0.inodes[j].size)
    && Wrote(s0, s, i, off, data, tot)
    && KeepsPointers(s0, s) && Spans(s, i, off, tot)
    && Below(s, i, off + tot + 1) && SamePointersElsewhere(s0, s, i)
  }

  lemma AppendStarts(sb: Super, s: Fs, i: nat, data: seq<Byte>)
    requires Inv(sb, s) && i < |s.inodes| && Tight(s, i)
    ensures Appending(s, s, i, data, 0)
  {
    hide Val;
    WriteStarts(sb, s, i, s.inodes[i].size, data);
  }

  lemma AppendMapped(sb: Super, s0: Fs, s: Fs, t: Fs, i: nat, data: seq<Byte>, tot: nat)
    requires Shaped(s0) && Inv(sb, s) && Inv(sb, t) && Grown(sb, s, t) && i < |s0.inodes| == |s.inodes| == |t.inodes|
    requires tot < |data| && Appending(s0, s, i, data, tot)
    requires forall o: Owner | o != FileSlot(i, (s0.inodes[i].size + tot) / BSIZE) && o != Indirect(i) ::
      Val(t, o) == Val(s, o)
    requires (s0.inodes[i].size + tot) / BSIZE < NDIRECT ==> Val(t, Indirect(i)) == Val(s, Indirect(i))
    ensures Mapped(s0, t, i, data, tot)
  {
    hide Val, Owned, BitsMatch;
    var off := s0.inodes[i].size;
    var pos := off + tot;
    GrownShape(sb, s, t);
    AfterBMap(sb, s0, s, t, i, off, |data|, data, tot, {}, {}, None);
    hide Grown, Wrote, KeepsPointers, Spans;
    forall bn: nat | bn * BSIZE >= pos + 1
      ensures Val(t, FileSlot(i, bn)) == 0
    {
      SlotsDiffer(i, bn, i, pos / BSIZE);
      assert Val(s, FileSlot(i, bn)) == 0;
    }
    forall j: nat, bn: nat | j != i
      ensures Val(t, FileSlot(j, bn)) == Val(s0, FileSlot(j, bn))
    {
      SlotsDiffer(j, bn, i, pos / BSIZE);
      assert Val(t, FileSlot(j, bn)) == Val(s, FileSlot(j, bn));
    }
  }

  lemma AppendStored(sb: Super, s0: Fs, s: Fs, t: Fs, i: nat, data: seq<Byte>, tot: nat, m: nat)
    requires Shaped(s0) && Inv(sb, s) && i < |s0.inodes| == |s.inodes| && 0 < m && tot + m <= |data|
    requires Mapped(s0, s, i, data, tot)
    requires var pos := s0.inodes[i].size + tot;
      0 < Val(s, FileSlot(i, pos / BSIZE)) < sb.size && pos % BSIZE + m <= BSIZE
    requires var pos := s0.inodes[i].size + tot;
      var b := Val(s, FileSlot(i, pos / BSIZE));
      t == Fs(s.disk[b := Patch(s.disk[b], pos % BSIZE, data[tot..tot + m])], s.inodes, s.owner)
    ensures Inv(sb, t) && Appending(s0, t, i, data, tot + m)
  {
    hide Val, Owned, BitsMatch;
    var off := s0.inodes[i].size;
    WroteMore(sb, s0, s, i, off, data, tot, m);
    AfterStore(sb, s0, s, t, i, off, |data|, tot, m);
  }

  lemma SlotOwner(sb: Super, s: Fs, i: nat, bn: nat)
    requires Inv(sb, s)
    ensures var b := Val(s, FileSlot(i, bn));
      b != 0 ==> b < sb.size && s.owner[b] == FileSlot(i, bn)
  {
    hide Word, TestBit;
  }

  lemma AppendEnds(sb: Super, s0: Fs, s: Fs, t: Fs, i: nat, data: seq<Byte>)
    requires Shaped(s0) && Inv(sb, s) && i < |s0.inodes| == |s.inodes|
    requires Appending(s0, s, i, data, |data|)
    requires t == Fs(s.disk, s.inodes[i := s.inodes[i].(size := s0.inodes[i].size + |data|)], s.owner)
    ensures Inv(sb, t)
    ensures Content(t, i) == Content(s0, i) + data
    ensures Tight(t, i) && (NoHoles(s0, i) ==> NoHoles(t, i))
    ensures forall j: nat | j < |t.inodes| && j != i :: Content(t, j) == Content(s0, j)
    ensures forall j: nat | j < |t.inodes| && j != i && NoHoles(s0, j) :: NoHoles(t, j)
    ensures forall j: nat | j < |t.inodes| && j != i && Tight(s0, j) :: Tight(t, j)
  {
    hide Word, TestBit;
    var off := s0.inodes[i].size;
    AppendEndsTight(s0, s, t, i, data);
    hide Val, Tight, Owned, BitsMatch, Slice, Splice, Wrote, Spans, KeepsPointers, Below, NoHoles;
    hide SamePointersElsewhere;
    SizeIrrelevant(sb, s0, s, t, i, off, data, |data|, |data|);
    WriteEnds(s0, t, i, off, data, |data|);
    SpliceAtEnd(Content(s0, i), data);
  }

  lemma SpliceAtEnd(c: seq<Byte>, data: seq<Byte>)
    ensures Splice(c, |c|, data[..|data|]) == c + data
  {
    assert data[..|data|] == data;
  }

  lemma AppendEndsTight(s0: Fs, s: Fs, t: Fs, i: nat, data: seq<Byte>)
    requires Shaped(s0) && Shaped(s) && i < |s0.inodes| == |s.inodes|
    requires Appending(s0, s, i, data, |data|)
    requires t == Fs(s.disk, s.inodes[i := s.inodes[i].(size := s0.inodes[i].size + |data|)], s.owner)
    ensures Tight(t, i)
    ensures forall j: nat | j < |t.inodes| && j != i && Tight(s0, j) :: Tight(t, j)
  {
    hide Word;
    assert forall o: Owner :: Val(t, o) == Val(s, o);
    hide Val;
  }

  lemma ZeroDiskUnused(sb: Super, disk: Disk)
    requires sb.Valid() && |disk| == sb.size
    requires forall b: nat | b < sb.size :: disk[b] == ZeroBlock()
    ensures forall c: nat | c < sb.size :: !InUse(sb, disk, c)
  {
    hide TestBit;
    forall c: nat | c < sb.size
      ensures !InUse(sb, disk, c)
    {
      BitAddress(c);
      ZeroHasNoBits(c % 8);
      var bb := BitmapBlock(sb, c);
      assert bb < sb.size;
      assert disk[bb] == ZeroBlock();
      assert disk[bb][c % BPB / 8] == 0;
    }
  }

  /** The disk with the bits of its first n blocks set. */
  ghost function MarkFirst(sb: Super, disk: Disk, n: nat): (r: Disk)
    requires sb.Valid() && |disk| == sb.size && n <= sb.size
    requires forall b: nat | b < sb.size :: disk[b] == ZeroBlock()
    ensures |r| == |disk|
    ensures forall c: nat | c < sb.size :: InUse(sb, r, c) <==> c < n
    ensures forall c: nat | c < sb.size && c !in Bitmap(sb) :: r[c] == disk[c]
  {
    hide TestBit, PutInUse;
    if n == 0 then
      ZeroDiskUnused(sb, disk);
      disk
    else
      BitmapHas(sb, n - 1);
      PutInUse(sb, MarkFirst(sb, disk, n - 1), n - 1, true)
  }

  lemma NotBitmap(sb: Super, s: Fs, b: nat)
    requires Inv(sb, s) && b < sb.size && s.owner[b] != Meta
    ensures b !in Bitmap(sb)
  {
    if b in Bitmap(sb) {
      BitmapNotPointer(sb, s, b);
    }
  }
}
