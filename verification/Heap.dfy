/** The user-level allocator of user/umalloc.c. Addresses count header-sized units. */
module Heap {
  const UNIT: nat := 16                  // sizeof(Header)
  const MINCORE: nat := 4096             // smallest request to sbrk, in units

  /** One unit of memory, read as a header. */
  datatype Header = Header(ptr: nat, size: nat)

  /** Memory, the free blocks in address order after `base`, the live blocks with their
      sizes, and for every unit obtained from sbrk the block that covers it. */
  datatype State = State(base: nat, mem: map<nat, Header>, list: seq<nat>, live: map<nat, nat>, cover: map<nat, nat>)

  function SizeAt(s: State, a: nat): nat {
    if a in s.mem then s.mem[a].size else 0
  }

  function End(s: State, a: nat): nat {
    a + SizeAt(s, a)
  }

  function Next(list: seq<nat>, i: nat): nat
    requires i < |list|
  {
    if i + 1 < |list| then list[i + 1] else list[0]
  }

  predicate Linked(s: State, i: nat)
    requires i < |s.list|
  {
    s.list[i] in s.mem && s.mem[s.list[i]].ptr == Next(s.list, i)
  }

  predicate IsBlock(s: State, h: nat) {
    h in s.live || (h in s.list && h != s.base)
  }

  /** The free list is a ring in address order that starts at base. */
  ghost predicate Ring(s: State) {
    && |s.list| > 0 && s.list[0] == s.base && SizeAt(s, s.base) == 0
    && (forall i | 0 <= i < |s.list| :: Linked(s, i))
    && (forall i, j | 0 <= i < j < |s.list| :: s.list[i] < s.list[j])
  }

  /** Block h covers its units, all of them and alone. */
  ghost predicate Covers(s: State, h: nat) {
    h in s.mem && 0 < SizeAt(s, h) && forall u | h <= u < End(s, h) :: u in s.cover && s.cover[u] == h
  }

  /** Free and live blocks tile the memory obtained so far. */
  ghost predicate Tiled(s: State) {
    && Ring(s)
    && (forall h | h in s.live :: h !in s.list && SizeAt(s, h) == s.live[h])
    && (forall h | IsBlock(s, h) :: Covers(s, h))
    && (forall u | u in s.cover ::
         s.base < u && u in s.mem && IsBlock(s, s.cover[u]) && s.cover[u] <= u < End(s, s.cover[u]))
  }

  /** Free blocks i and i + 1 do not touch. */
  predicate Gap(s: State, i: nat)
    requires i + 1 < |s.list|
  {
    End(s, s.list[i]) < s.list[i + 1]
  }

  ghost predicate Inv(s: State) {
    Tiled(s) && forall i | 0 <= i < |s.list| - 1 :: Gap(s, i)
  }

  // ---------------------------------------------------------------- what tiling means

  /** Different blocks share no unit. */
  lemma BlocksDisjoint(s: State, g: nat, h: nat, u: nat)
    requires Tiled(s) && IsBlock(s, g) && IsBlock(s, h) && g != h
    ensures !(g <= u < End(s, g) && h <= u < End(s, h))
  {
    assert Covers(s, g) && Covers(s, h);
  }

  /** The units obtained from sbrk are exactly those of the free and the live blocks. */
  lemma UnitsTiled(s: State, u: nat)
    requires Tiled(s)
    ensures u in s.cover <==> exists h: nat :: IsBlock(s, h) && h <= u < End(s, h)
  {
    if h: nat :| IsBlock(s, h) && h <= u < End(s, h) {
      assert Covers(s, h);
    }
  }

  /** Successive free blocks do not overlap. */
  lemma InOrder(s: State, i: nat)
    requires Tiled(s) && i + 1 < |s.list|
    ensures End(s, s.list[i]) <= s.list[i + 1]
  {
    var a, b := s.list[i], s.list[i + 1];
    assert a < b;
    if i > 0 {
      assert s.list[0] < a;
      assert IsBlock(s, a) && IsBlock(s, b);
      assert Covers(s, b);
      BlocksDisjoint(s, a, b, b);
    }
  }

  // ---------------------------------------------------------------- the steps of free

  /** Block b goes from live to free, after the k-th free block. */
  function Inserted(s: State, k: nat, b: nat): State
    requires k < |s.list| && b in s.mem && s.list[k] in s.mem
  {
    s.(mem := s.mem[b := s.mem[b].(ptr := Next(s.list, k))][s.list[k] := s.mem[s.list[k]].(ptr := b)],
       list := s.list[..k + 1] + [b] + s.list[k + 1..],
       live := s.live - {b})
  }

  lemma InsertKeeps(s: State, k: nat, b: nat)
    requires Tiled(s) && k < |s.list| && b in s.live && s.list[k] < b && (k + 1 < |s.list| ==> b < s.list[k + 1])
    ensures b in s.mem && Linked(s, k)
    ensures var t := Inserted(s, k, b);
      && Tiled(t)
      && (forall a :: SizeAt(t, a) == SizeAt(s, a))
      && (forall i | 0 <= i < k :: Gap(t, i) == Gap(s, i))
      && (forall i | k + 1 < i < |t.list| - 1 :: Gap(t, i) == Gap(s, i - 1))
  {
    hide Ring, Inserted, Covers;
    TiledParts(s, k, b);
    InsertRing(s, k, b);
    InsertSizes(s, k, b);
    var t := Inserted(s, k, b);
    forall h: nat
      ensures IsBlock(t, h) == IsBlock(s, h)
    {
      InsertedFields(s, k, b);
      InsertMembers(s.list, k, b, h);
    }
    InsertedFields(s, k, b);
    Retile(s, t);
    InsertGaps(s, k, b);
  }

  lemma TiledParts(s: State, k: nat, b: nat)
    requires Tiled(s) && k < |s.list| && b in s.live
    ensures b in s.mem && b !in s.list && Linked(s, k) && b != s.base
  {
    assert IsBlock(s, b) && Covers(s, b);
  }

  lemma InsertedFields(s: State, k: nat, b: nat)
    requires k < |s.list| && b in s.mem && s.list[k] in s.mem
    ensures var t := Inserted(s, k, b);
      t.base == s.base && t.cover == s.cover && t.mem.Keys == s.mem.Keys && t.live == s.live - {b}
      && t.list == s.list[..k + 1] + [b] + s.list[k + 1..]
  {
  }

  lemma InsertSizes(s: State, k: nat, b: nat)
    requires k < |s.list| && b in s.mem && s.list[k] in s.mem
    ensures forall a :: SizeAt(Inserted(s, k, b), a) == SizeAt(s, a)
  {
  }

  lemma InsertGaps(s: State, k: nat, b: nat)
    requires k < |s.list| && b in s.mem && s.list[k] in s.mem
    ensures var t := Inserted(s, k, b);
      && (forall i | 0 <= i < k :: Gap(t, i) == Gap(s, i))
      && (forall i | k + 1 < i < |t.list| - 1 :: Gap(t, i) == Gap(s, i - 1))
  {
    hide SizeAt;
    InsertSizes(s, k, b);
  }

  /** Tiling depends on sizes and on which blocks there are. */
  lemma Retile(s: State, t: State)
    requires Tiled(s) && Ring(t) && t.base == s.base && t.cover == s.cover && t.mem.Keys == s.mem.Keys
    requires forall a :: SizeAt(t, a) == SizeAt(s, a)
    requires forall h :: IsBlock(t, h) == IsBlock(s, h)
    requires forall h | h in t.live :: t.live[h] == SizeAt(s, h) && h !in t.list
    ensures Tiled(t)
  {
    hide Ring, SizeAt, IsBlock;
    forall h | IsBlock(t, h)
      ensures Covers(t, h)
    {
      assert IsBlock(s, h) && Covers(s, h);
    }
  }

  lemma InsertMembers(list: seq<nat>, k: nat, b: nat, h: nat)
    requires k < |list|
    ensures h in list[..k + 1] + [b] + list[k + 1..] <==> h in list || h == b
  {
    assert list == list[..k + 1] + list[k + 1..];
  }

  lemma InsertRing(s: State, k: nat, b: nat)
    requires Ring(s) && k < |s.list| && b in s.mem && b !in s.list && s.list[k] < b
    requires (k + 1 < |s.list| ==> b < s.list[k + 1])
    requires Linked(s, k)
    ensures Ring(Inserted(s, k, b))
  {
    var t := Inserted(s, k, b);
    forall i | 0 <= i < |t.list|
      ensures Linked(t, i)
    {
      if i <= k {
        assert Linked(s, i) && t.list[i] == s.list[i];
      } else if i > k + 1 {
        assert Linked(s, i - 1) && t.list[i] == s.list[i - 1];
      }
    }
    forall i, j | 0 <= i < j < |t.list|
      ensures t.list[i] < t.list[j]
    {
      assert t.list[i] == if i <= k then s.list[i] else if i == k + 1 then b else s.list[i - 1];
      assert t.list[j] == if j <= k then s.list[j] else if j == k + 1 then b else s.list[j - 1];
      assert i < k ==> s.list[i] < s.list[k];
      assert k + 2 < j ==> s.list[k + 1] < s.list[j - 1];
    }
  }

  /** Unit u of the block at b now belongs to the block at a. */
  function Recover(cover: map<nat, nat>, b: nat, a: nat): map<nat, nat> {
    map u | u in cover :: if cover[u] == b then a else cover[u]
  }

  /** Free blocks k and k + 1, which touch, become one. */
  function Merged(s: State, k: nat): State
    requires k + 1 < |s.list| && s.list[k] in s.mem && s.list[k + 1] in s.mem
  {
    var a, b := s.list[k], s.list[k + 1];
    s.(mem := s.mem[a := Header(s.mem[b].ptr, s.mem[a].size + s.mem[b].size)],
       list := s.list[..k + 1] + s.list[k + 2..],
       cover := Recover(s.cover, b, a))
  }

  /** Free blocks k and k + 1 touch and both are real blocks. */
  predicate Touch(s: State, k: nat) {
    0 < k && k + 1 < |s.list| && End(s, s.list[k]) == s.list[k + 1]
  }

  lemma MergeKeeps(s: State, k: nat)
    requires Tiled(s) && Touch(s, k)
    ensures s.list[k] in s.mem && s.list[k + 1] in s.mem
    ensures var t := Merged(s, k);
      && Tiled(t)
      && t.cover.Keys == s.cover.Keys
      && (forall i | 0 <= i < k :: Gap(t, i) == Gap(s, i))
      && (forall i | k <= i < |t.list| - 1 :: Gap(t, i) == Gap(s, i + 1))
  {
    hide Ring, Gap, Covers, Merged;
    TouchParts(s, k);
    Distinct(s, k);
    MergeRing(s, k);
    MergeGaps(s, k);
    MergeBlocks(s, k);
    MergeTiled(s, k);
    MergedFields(s, k);
  }

  lemma TouchParts(s: State, k: nat)
    requires Tiled(s) && Touch(s, k)
    ensures s.list[k] in s.mem && s.list[k + 1] in s.mem && s.list[k] < s.list[k + 1]
    ensures s.base < s.list[k] && IsBlock(s, s.list[k]) && IsBlock(s, s.list[k + 1])
  {
    assert s.list[0] < s.list[k] && s.list[0] < s.list[k + 1];
    assert Linked(s, k) && Linked(s, k + 1);
  }

  lemma Distinct(s: State, k: nat)
    requires Ring(s) && k < |s.list|
    ensures forall i | 0 <= i < |s.list| && i != k :: s.list[i] != s.list[k]
  {
  }

  lemma MergedFields(s: State, k: nat)
    requires k + 1 < |s.list| && s.list[k] in s.mem && s.list[k + 1] in s.mem
    ensures var t := Merged(s, k);
      && t.base == s.base && t.live == s.live && t.mem.Keys == s.mem.Keys
      && t.list == s.list[..k + 1] + s.list[k + 2..]
      && t.cover == Recover(s.cover, s.list[k + 1], s.list[k]) && t.cover.Keys == s.cover.Keys
      && (forall a :: SizeAt(t, a) == if a == s.list[k] then SizeAt(s, a) + SizeAt(s, s.list[k + 1]) else SizeAt(s, a))
  {
  }

  lemma MergeRing(s: State, k: nat)
    requires Ring(s) && 0 < k && k + 1 < |s.list| && s.list[k] in s.mem && s.list[k + 1] in s.mem && s.base < s.list[k]
    ensures Ring(Merged(s, k))
  {
    var t := Merged(s, k);
    forall i | 0 <= i < |t.list|
      ensures Linked(t, i)
    {
      if i < k {
        assert Linked(s, i) && t.list[i] == s.list[i];
      } else {
        assert Linked(s, i + 1);
      }
    }
  }

  lemma MergeGaps(s: State, k: nat)
    requires Touch(s, k) && s.list[k] in s.mem && s.list[k + 1] in s.mem
    requires forall i | 0 <= i < |s.list| && i != k :: s.list[i] != s.list[k]
    ensures var t := Merged(s, k);
      && (forall i | 0 <= i < k :: Gap(t, i) == Gap(s, i))
      && (forall i | k <= i < |t.list| - 1 :: Gap(t, i) == Gap(s, i + 1))
  {
    hide SizeAt;
    MergedFields(s, k);
  }

  lemma MergeBlocks(s: State, k: nat)
    requires Tiled(s) && Touch(s, k)
    ensures s.list[k] in s.mem && s.list[k + 1] in s.mem
    ensures forall h: nat :: IsBlock(Merged(s, k), h) <==> IsBlock(s, h) && h != s.list[k + 1]
  {
    TouchParts(s, k);
    forall h: nat
      ensures h in s.list[..k + 1] + s.list[k + 2..] <==> h in s.list && h != s.list[k + 1]
    {
      assert s.list == s.list[..k + 1] + [s.list[k + 1]] + s.list[k + 2..];
    }
  }

  lemma MergeTiled(s: State, k: nat)
    requires Tiled(s) && Touch(s, k) && s.list[k] in s.mem && s.list[k + 1] in s.mem
    requires Ring(Merged(s, k))
    requires forall h: nat :: IsBlock(Merged(s, k), h) <==> IsBlock(s, h) && h != s.list[k + 1]
    ensures Tiled(Merged(s, k))
  {
    hide Ring, SizeAt, IsBlock, Merged, Covers;
    MergedFields(s, k);
    var t := Merged(s, k);
    forall h: nat | IsBlock(t, h)
      ensures Covers(t, h)
    {
      MergeCovers(s, k, h);
    }
    forall u | u in t.cover
      ensures t.base < u && u in t.mem && IsBlock(t, t.cover[u]) && t.cover[u] <= u < End(t, t.cover[u])
    {
      MergeUnit(s, k, u);
    }
    forall h | h in t.live
      ensures h !in t.list && SizeAt(t, h) == t.live[h]
    {
      assert h in s.live && h !in s.list;
    }
  }

  lemma MergeCovers(s: State, k: nat, h: nat)
    requires Tiled(s) && Touch(s, k) && s.list[k] in s.mem && s.list[k + 1] in s.mem
    requires IsBlock(s, h) && h != s.list[k + 1]
    ensures Covers(Merged(s, k), h)
  {
    hide Ring, SizeAt, IsBlock, Merged, Tiled;
    MergedFields(s, k);
    TouchParts(s, k);
    BlockCovers(s, s.list[k]);
    BlockCovers(s, s.list[k + 1]);
    BlockCovers(s, h);
  }

  lemma BlockCovers(s: State, h: nat)
    requires Tiled(s) && IsBlock(s, h)
    ensures Covers(s, h)
  {
  }

  lemma MergeUnit(s: State, k: nat, u: nat)
    requires Tiled(s) && Touch(s, k) && s.list[k] in s.mem && s.list[k + 1] in s.mem && u in s.cover
    requires forall h: nat :: IsBlock(Merged(s, k), h) <==> IsBlock(s, h) && h != s.list[k + 1]
    ensures var t := Merged(s, k);
      u in t.cover && t.base < u && u in t.mem && IsBlock(t, t.cover[u]) && t.cover[u] <= u < End(t, t.cover[u])
  {
    hide Ring, SizeAt, IsBlock, Merged;
    MergedFields(s, k);
    TouchParts(s, k);
  }

  // ---------------------------------------------------------------- the steps of malloc

  /** Free block k becomes live as a whole. */
  function Unlinked(s: State, k: nat): State
    requires 0 < k < |s.list| && s.list[k - 1] in s.mem && s.list[k] in s.mem
  {
    var p, q := s.list[k - 1], s.list[k];
    s.(mem := s.mem[p := s.mem[p].(ptr := s.mem[q].ptr)],
       list := s.list[..k] + s.list[k + 1..],
       live := s.live[q := s.mem[q].size])
  }

  lemma UnlinkKeeps(s: State, k: nat)
    requires Inv(s) && 0 < k < |s.list|
    ensures s.list[k - 1] in s.mem && s.list[k] in s.mem
    ensures Inv(Unlinked(s, k))
  {
    hide Ring, Covers, Unlinked, Gap;
    LinkedPair(s, k);
    UnlinkRing(s, k);
    UnlinkedFields(s, k);
    UnlinkMembers(s, k);
    var t := Unlinked(s, k);
    forall h | h in t.live
      ensures t.live[h] == SizeAt(s, h) && h !in t.list
    {
      assert h in s.live ==> h !in s.list;
    }
    Retile(s, t);
    UnlinkGaps(s, k);
  }

  lemma LinkedPair(s: State, k: nat)
    requires Ring(s) && 0 < k < |s.list|
    ensures s.list[k - 1] in s.mem && s.list[k] in s.mem && s.base < s.list[k] && s.list[k - 1] != s.list[k]
  {
    assert Linked(s, k - 1) && Linked(s, k);
    assert s.list[0] < s.list[k];
  }

  lemma UnlinkedFields(s: State, k: nat)
    requires 0 < k < |s.list| && s.list[k - 1] in s.mem && s.list[k] in s.mem
    ensures var t := Unlinked(s, k);
      && t.base == s.base && t.cover == s.cover && t.mem.Keys == s.mem.Keys
      && t.list == s.list[..k] + s.list[k + 1..] && t.live == s.live[s.list[k] := SizeAt(s, s.list[k])]
      && (forall a :: SizeAt(t, a) == SizeAt(s, a))
  {
  }

  lemma UnlinkMembers(s: State, k: nat)
    requires Tiled(s) && 0 < k < |s.list| && s.list[k - 1] in s.mem && s.list[k] in s.mem
    ensures var t := Unlinked(s, k);
      && (forall h: nat :: h in t.list <==> h in s.list && h != s.list[k])
      && (forall h: nat :: IsBlock(t, h) == IsBlock(s, h))
  {
    LinkedPair(s, k);
    UnlinkedFields(s, k);
    assert s.list == s.list[..k] + [s.list[k]] + s.list[k + 1..];
  }

  lemma UnlinkRing(s: State, k: nat)
    requires Ring(s) && 0 < k < |s.list| && s.list[k - 1] in s.mem && s.list[k] in s.mem
    ensures Ring(Unlinked(s, k))
  {
    var t := Unlinked(s, k);
    forall i | 0 <= i < |t.list|
      ensures Linked(t, i)
    {
      if i < k {
        assert Linked(s, i) && t.list[i] == s.list[i];
        assert Linked(s, k);
      } else {
        assert Linked(s, i + 1) && t.list[i] == s.list[i + 1];
      }
    }
  }

  lemma UnlinkGaps(s: State, k: nat)
    requires Inv(s) && 0 < k < |s.list| && s.list[k - 1] in s.mem && s.list[k] in s.mem
    ensures var t := Unlinked(s, k);
      forall i | 0 <= i < |t.list| - 1 :: Gap(t, i)
  {
    hide SizeAt, Covers, Linked;
    UnlinkedFields(s, k);
    var t := Unlinked(s, k);
    forall i | 0 <= i < |t.list| - 1
      ensures Gap(t, i)
    {
      if i < k {
        assert Gap(s, i);
      } else {
        assert Gap(s, i + 1);
      }
    }
  }

  /** The last n units of free block k become a live block. */
  function Carved(s: State, k: nat, n: nat): State
    requires k < |s.list| && n < SizeAt(s, s.list[k]) && End(s, s.list[k]) - n in s.mem
  {
    var p, q := s.list[k], End(s, s.list[k]) - n;
    s.(mem := s.mem[p := s.mem[p].(size := s.mem[p].size - n)][q := s.mem[q].(size := n)],
       live := s.live[q := n],
       cover := map u | u in s.cover :: if q <= u < q + n then q else s.cover[u])
  }

  lemma CarveKeeps(s: State, k: nat, n: nat)
    requires Inv(s) && 0 < k < |s.list| && 0 < n < SizeAt(s, s.list[k])
    ensures End(s, s.list[k]) - n in s.mem
    ensures var t := Carved(s, k, n);
      Inv(t) && t.cover.Keys == s.cover.Keys && End(s, s.list[k]) - n !in s.live
  {
    hide Ring, Covers, Carved, SizeAt;
    CarvePlace(s, k, n);
    CarvedFields(s, k, n);
    CarveRing(s, k, n);
    var t := Carved(s, k, n);
    forall h: nat | IsBlock(t, h)
      ensures Covers(t, h)
    {
      CarveCovers(s, k, n, h);
    }
    forall u | u in t.cover
      ensures t.base < u && u in t.mem && IsBlock(t, t.cover[u]) && t.cover[u] <= u < End(t, t.cover[u])
    {
      CarveUnit(s, k, n, u);
    }
    CarveLive(s, k, n);
    forall i | 0 <= i < |t.list| - 1
      ensures Gap(t, i)
    {
      assert Gap(s, i);
    }
  }

  /** Where the new block starts: inside block k, past its header. */
  lemma CarvePlace(s: State, k: nat, n: nat)
    requires Tiled(s) && 0 < k < |s.list| && 0 < n < SizeAt(s, s.list[k])
    ensures var p, q := s.list[k], End(s, s.list[k]) - n;
      && p in s.mem && p < q && q in s.mem && q in s.cover && s.cover[q] == p
      && q !in s.list && q !in s.live && s.base < p && s.base < q && IsBlock(s, p)
  {
    LinkedPair(s, k);
    var p, q := s.list[k], End(s, s.list[k]) - n;
    assert IsBlock(s, p) && Covers(s, p);
    assert IsBlock(s, q) ==> Covers(s, q);
  }

  lemma CarvedFields(s: State, k: nat, n: nat)
    requires k < |s.list| && 0 < n < SizeAt(s, s.list[k]) && End(s, s.list[k]) - n in s.mem
    ensures var t, p, q := Carved(s, k, n), s.list[k], End(s, s.list[k]) - n;
      && t.base == s.base && t.list == s.list && t.live == s.live[q := n]
      && t.mem.Keys == s.mem.Keys && t.cover.Keys == s.cover.Keys
      && (forall u | u in s.cover :: t.cover[u] == if q <= u < q + n then q else s.cover[u])
      && (forall a :: SizeAt(t, a) == if a == q then n else if a == p then SizeAt(s, p) - n else SizeAt(s, a))
  {
  }

  lemma CarveRing(s: State, k: nat, n: nat)
    requires Ring(s) && 0 < k < |s.list| && 0 < n < SizeAt(s, s.list[k]) && End(s, s.list[k]) - n in s.mem
    requires s.base < s.list[k] && s.base < End(s, s.list[k]) - n
    ensures Ring(Carved(s, k, n))
  {
    var t := Carved(s, k, n);
    forall i | 0 <= i < |t.list|
      ensures Linked(t, i)
    {
      assert Linked(s, i);
    }
  }

  lemma CarveCovers(s: State, k: nat, n: nat, h: nat)
    requires Tiled(s) && 0 < k < |s.list| && 0 < n < SizeAt(s, s.list[k]) && End(s, s.list[k]) - n in s.mem
    requires h == End(s, s.list[k]) - n || IsBlock(s, h)
    ensures Covers(Carved(s, k, n), h)
  {
    hide Ring, Carved, SizeAt, IsBlock;
    CarvePlace(s, k, n);
    CarvedFields(s, k, n);
    assert Covers(s, s.list[k]);
    assert IsBlock(s, h) ==> Covers(s, h);
  }

  lemma CarveUnit(s: State, k: nat, n: nat, u: nat)
    requires Tiled(s) && 0 < k < |s.list| && 0 < n < SizeAt(s, s.list[k]) && End(s, s.list[k]) - n in s.mem
    requires u in s.cover
    ensures var t := Carved(s, k, n);
      u in t.cover && t.base < u && u in t.mem && IsBlock(t, t.cover[u]) && t.cover[u] <= u < End(t, t.cover[u])
  {
    hide Ring, Carved, SizeAt, Covers;
    CarvePlace(s, k, n);
    CarvedFields(s, k, n);
  }

  lemma CarveLive(s: State, k: nat, n: nat)
    requires Tiled(s) && 0 < k < |s.list| && 0 < n < SizeAt(s, s.list[k]) && End(s, s.list[k]) - n in s.mem
    ensures var t := Carved(s, k, n);
      forall h | h in t.live :: h !in t.list && SizeAt(t, h) == t.live[h]
  {
    hide Ring, Carved, SizeAt, Covers;
    CarvePlace(s, k, n);
    CarvedFields(s, k, n);
  }

  /** n new units at h, as one live block. */
  function Granted(s: State, h: nat, n: nat, units: map<nat, Header>): State
    requires h in units
  {
    s.(mem := (s.mem + units)[h := units[h].(size := n)],
       live := s.live[h := n],
       cover := map u | u in s.cover.Keys + units.Keys :: if u in units then h else s.cover[u])
  }

  /** Memory above everything obtained so far, as sbrk returns it. */
  ghost predicate Region(s: State, h: nat, n: nat, units: map<nat, Header>) {
    && 0 < n && s.base < h && (forall u | u in s.cover :: u < h)
    && (forall u: nat :: u in units <==> h <= u < h + n)
  }

  lemma GrantKeeps(s: State, h: nat, n: nat, units: map<nat, Header>)
    requires Inv(s) && Region(s, h, n, units)
    ensures h in units && h !in s.live
    ensures Inv(Granted(s, h, n, units))
  {
    hide Ring, Covers, Granted, SizeAt;
    NotYet(s, h, n, units);
    GrantedFields(s, h, n, units);
    GrantRing(s, h, n, units);
    var t := Granted(s, h, n, units);
    forall g: nat | IsBlock(t, g)
      ensures Covers(t, g)
    {
      GrantCovers(s, h, n, units, g);
    }
    forall g | g in t.live
      ensures g !in t.list && SizeAt(t, g) == t.live[g]
    {
      assert g in s.live ==> g !in units;
    }
    forall i | 0 <= i < |t.list| - 1
      ensures Gap(t, i)
    {
      assert Gap(s, i) && s.list[i] !in units;
    }
  }

  /** Nothing known so far lies in the new region. */
  lemma NotYet(s: State, h: nat, n: nat, units: map<nat, Header>)
    requires Tiled(s) && Region(s, h, n, units)
    ensures h in units && forall a | a in s.list || IsBlock(s, a) :: a !in units
  {
    forall a | a in s.list || IsBlock(s, a)
      ensures a !in units
    {
      if a != s.base {
        assert IsBlock(s, a) && Covers(s, a);
      } else {
        assert IsBlock(s, a) ==> Covers(s, a);
      }
    }
  }

  lemma GrantedFields(s: State, h: nat, n: nat, units: map<nat, Header>)
    requires h in units && Region(s, h, n, units)
    ensures var t := Granted(s, h, n, units);
      && t.base == s.base && t.list == s.list && t.live == s.live[h := n]
      && t.mem.Keys == s.mem.Keys + units.Keys && t.cover.Keys == s.cover.Keys + units.Keys
      && (forall u | u in t.cover :: t.cover[u] == if u in units then h else s.cover[u])
      && (forall a | a !in units :: SizeAt(t, a) == SizeAt(s, a)) && SizeAt(t, h) == n
  {
  }

  lemma GrantRing(s: State, h: nat, n: nat, units: map<nat, Header>)
    requires Ring(s) && h in units && Region(s, h, n, units) && forall a | a in s.list :: a !in units
    ensures Ring(Granted(s, h, n, units))
  {
    var t := Granted(s, h, n, units);
    forall i | 0 <= i < |t.list|
      ensures Linked(t, i)
    {
      assert Linked(s, i) && s.list[i] in s.list;
    }
  }

  lemma GrantCovers(s: State, h: nat, n: nat, units: map<nat, Header>, g: nat)
    requires Tiled(s) && h in units && Region(s, h, n, units) && (g == h || IsBlock(s, g))
    requires forall a | IsBlock(s, a) :: a !in units
    ensures Covers(Granted(s, h, n, units), g)
  {
    hide Ring, Granted, SizeAt, IsBlock;
    GrantedFields(s, h, n, units);
    if g != h {
      assert Covers(s, g);
    }
  }

  // ---------------------------------------------------------------- memory of live blocks

  /** Blocks live before and after keep their place, and no unit of theirs is written. */
  ghost predicate LiveKept(s: State, t: State) {
    forall u | u in s.cover && s.cover[u] in s.live && s.cover[u] in t.live ::
      u in t.cover && t.cover[u] == s.cover[u] && u in s.mem && u in t.mem && t.mem[u] == s.mem[u]
  }

  lemma FreeHeader(s: State, i: nat, u: nat)
    requires Tiled(s) && i < |s.list| && u in s.cover && s.cover[u] in s.live
    ensures u in s.mem && u != s.list[i] && s.cover[u] != s.list[i]
  {
    if i > 0 {
      LinkedPair(s, i);
      assert IsBlock(s, s.list[i]) && Covers(s, s.list[i]);
    }
  }

  lemma InsertKept(s: State, k: nat, b: nat)
    requires Tiled(s) && k < |s.list| && b in s.live && b in s.mem && s.list[k] in s.mem
    ensures LiveKept(s, Inserted(s, k, b))
  {
    hide Ring, SizeAt;
    assert Covers(s, b);
    forall u | u in s.cover && s.cover[u] in s.live
      ensures u in s.mem && u != s.list[k]
    {
      FreeHeader(s, k, u);
    }
  }

  lemma MergeKept(s: State, k: nat)
    requires Tiled(s) && k + 1 < |s.list| && s.list[k] in s.mem && s.list[k + 1] in s.mem
    ensures LiveKept(s, Merged(s, k))
  {
    hide Ring, SizeAt;
    forall u | u in s.cover && s.cover[u] in s.live
      ensures u in s.mem && u != s.list[k] && s.cover[u] != s.list[k + 1]
    {
      FreeHeader(s, k, u);
      FreeHeader(s, k + 1, u);
    }
  }

  lemma UnlinkKept(s: State, k: nat)
    requires Tiled(s) && 0 < k < |s.list| && s.list[k - 1] in s.mem && s.list[k] in s.mem
    ensures LiveKept(s, Unlinked(s, k))
  {
    hide Ring, SizeAt;
    forall u | u in s.cover && s.cover[u] in s.live
      ensures u in s.mem && u != s.list[k - 1]
    {
      FreeHeader(s, k - 1, u);
    }
  }

  lemma CarveKept(s: State, k: nat, n: nat)
    requires Tiled(s) && 0 < k < |s.list| && 0 < n < SizeAt(s, s.list[k]) && End(s, s.list[k]) - n in s.mem
    ensures LiveKept(s, Carved(s, k, n))
  {
    hide Ring;
    CarvePlace(s, k, n);
    var p := s.list[k];
    assert Covers(s, p);
    forall u | u in s.cover && s.cover[u] in s.live
      ensures u in s.mem && u != p && s.cover[u] != p
    {
      FreeHeader(s, k, u);
    }
  }

  lemma GrantKept(s: State, h: nat, n: nat, units: map<nat, Header>)
    requires Tiled(s) && h in units && Region(s, h, n, units)
    ensures LiveKept(s, Granted(s, h, n, units))
  {
    hide Ring, SizeAt;
  }

  /** Between three states in which no block is freed and taken again. */
  lemma KeptTrans(s: State, t: State, u: State)
    requires LiveKept(s, t) && LiveKept(t, u)
    requires forall h | h in s.live && h in u.live :: h in t.live
    ensures LiveKept(s, u)
  {
  }

  // ---------------------------------------------------------------- searching

  /** Index of the last free block below address b. */
  ghost function Before(list: seq<nat>, b: nat): (k: nat)
    requires |list| > 0 && list[0] < b
    ensures k < |list| && list[k] < b && (k + 1 < |list| ==> b <= list[k + 1])
  {
    if list[|list| - 1] < b then |list| - 1 else Before(list[..|list| - 1], b)
  }

  /** free's loop stops at p, whose successor is q. */
  predicate StopsAt(p: nat, q: nat, b: nat) {
    (b > p && b < q) || (p >= q && (b > p || b < q))
  }

  /** The loop stops exactly at the last free block below b. */
  lemma StopsThere(s: State, i: nat, b: nat)
    requires Ring(s) && i < |s.list| && s.base < b && b !in s.list
    ensures StopsAt(s.list[i], Next(s.list, i), b) <==> i == Before(s.list, b)
  {
    var k := Before(s.list, b);
    assert i + 1 == |s.list| ==> s.list[0] <= s.list[i];
    assert i < k ==> s.list[i + 1] <= s.list[k];
    assert k < i ==> s.list[k + 1] <= s.list[i];
  }

  function Wrap(x: nat, n: nat): nat {
    if x < n then x else x - n
  }

  // ---------------------------------------------------------------- free as a whole

  ghost function Joined(s: State, k: nat): State {
    if Touch(s, k) && s.list[k] in s.mem && s.list[k + 1] in s.mem then Merged(s, k) else s
  }

  /** Block b becomes free after the k-th free block and joins the blocks it touches. */
  ghost function Freed(s: State, k: nat, b: nat): State
    requires k < |s.list| && b in s.mem && s.list[k] in s.mem
  {
    Joined(Joined(Inserted(s, k, b), k + 1), k)
  }

  /** The block that covers b is free and at least n units long. */
  ghost predicate FreeAt(s: State, b: nat, n: nat) {
    b in s.cover && s.cover[b] in s.list && s.cover[b] != s.base && SizeAt(s, s.cover[b]) >= n
  }

  lemma JoinKeeps(s: State, k: nat, b: nat, n: nat)
    requires Tiled(s) && k < |s.list| && FreeAt(s, b, n)
    ensures Tiled(Joined(s, k)) && LiveKept(s, Joined(s, k)) && FreeAt(Joined(s, k), b, n)
    ensures Joined(s, k).live == s.live && Joined(s, k).cover.Keys == s.cover.Keys
  {
    hide Tiled, LiveKept, Merged;
    if Touch(s, k) {
      MergeKeeps(s, k);
      MergeKept(s, k);
      MergedFields(s, k);
      MergeFree(s, k, b, n);
    } else {
      SelfKept(s);
    }
  }

  lemma SelfKept(s: State)
    requires Tiled(s)
    ensures LiveKept(s, s)
  {
    hide Ring, Covers;
  }

  lemma MergeFree(s: State, k: nat, b: nat, n: nat)
    requires Tiled(s) && Touch(s, k) && s.list[k] in s.mem && s.list[k + 1] in s.mem && FreeAt(s, b, n)
    ensures FreeAt(Merged(s, k), b, n)
  {
    hide Ring, Covers, SizeAt;
    MergedFields(s, k);
    MergeBlocks(s, k);
    TouchParts(s, k);
    var t := Merged(s, k);
    assert s.list[k] == t.list[k];
    if s.cover[b] != s.list[k + 1] {
      assert IsBlock(t, s.cover[b]) && s.cover[b] !in s.live;
    }
  }

  lemma FreedKeeps(s: State, k: nat, b: nat)
    requires Inv(s) && b in s.live && s.base < b && k < |s.list| && k == Before(s.list, b)
    ensures b in s.mem && Linked(s, k)
    ensures var t := Freed(s, k, b);
      && Inv(t) && LiveKept(s, t) && FreeAt(t, b, s.live[b])
      && t.live == s.live - {b} && t.cover.Keys == s.cover.Keys && s.list[k] in t.list
  {
    hide Tiled, LiveKept, Inserted, Gap, FreeAt, Joined, Before;
    TiledParts(s, k, b);
    NotListed(s, k, b);
    FreedTiled(s, k, b);
    FreedGaps(s, k, b);
  }

  lemma FreedTiled(s: State, k: nat, b: nat)
    requires Tiled(s) && b in s.live && k < |s.list| && s.list[k] < b && (k + 1 < |s.list| ==> b < s.list[k + 1])
    requires b in s.mem && Linked(s, k) && b != s.base
    ensures var t := Freed(s, k, b);
      && Tiled(t) && LiveKept(s, t) && FreeAt(t, b, s.live[b])
      && t.live == s.live - {b} && t.cover.Keys == s.cover.Keys && s.list[k] in t.list
  {
    hide Tiled, LiveKept, Inserted, Gap, FreeAt, Joined;
    InsertKeeps(s, k, b);
    InsertKept(s, k, b);
    InsertedFields(s, k, b);
    var t1 := Inserted(s, k, b);
    InsertFree(s, k, b);
    JoinKeeps(t1, k + 1, b, s.live[b]);
    var t2 := Joined(t1, k + 1);
    JoinedList(t1, k + 1);
    assert t2.list[..k + 2][k] == t1.list[..k + 2][k] == s.list[k];
    JoinKeeps(t2, k, b, s.live[b]);
    var t3 := Joined(t2, k);
    JoinedList(t2, k);
    KeptTrans(s, t1, t2);
    KeptTrans(s, t2, t3);
  }

  lemma FreedGaps(s: State, k: nat, b: nat)
    requires Inv(s) && b in s.live && k < |s.list| && s.list[k] < b && (k + 1 < |s.list| ==> b < s.list[k + 1])
    requires b in s.mem && Linked(s, k) && b != s.base
    ensures var t := Freed(s, k, b);
      forall i | 0 <= i < |t.list| - 1 :: Gap(t, i)
  {
    hide Tiled, LiveKept, Inserted, Gap, FreeAt, Joined;
    InsertKeeps(s, k, b);
    var t1 := Inserted(s, k, b);
    InsertFree(s, k, b);
    InsertedFields(s, k, b);
    JoinKeeps(t1, k + 1, b, s.live[b]);
    AfterFirstJoin(s, k, b);
    AllGaps(Joined(t1, k + 1), k);
  }

  lemma NotListed(s: State, k: nat, b: nat)
    requires Tiled(s) && b !in s.list && s.base < b && k < |s.list| && k == Before(s.list, b)
    ensures s.list[k] < b && (k + 1 < |s.list| ==> b < s.list[k + 1])
  {
  }

  lemma InsertFree(s: State, k: nat, b: nat)
    requires Tiled(s) && b in s.live && k < |s.list| && b in s.mem && s.list[k] in s.mem && b != s.base
    ensures FreeAt(Inserted(s, k, b), b, s.live[b])
  {
    assert IsBlock(s, b) && Covers(s, b);
    var t := Inserted(s, k, b);
    assert t.list[k + 1] == b;
  }

  lemma JoinedList(s: State, k: nat)
    requires Tiled(s) && k < |s.list|
    ensures k < |Joined(s, k).list| && Joined(s, k).list[..k + 1] == s.list[..k + 1]
    ensures k < |Joined(s, k).list| && s.list[k] in Joined(s, k).list
  {
    var t := Joined(s, k);
    assert t.list[..k + 1] == s.list[..k + 1];
    assert t.list[k] == s.list[k];
  }

  /** After the first join only the gap below b can be missing. */
  lemma AfterFirstJoin(s: State, k: nat, b: nat)
    requires Inv(s) && b in s.live && b in s.mem && k < |s.list| && s.list[k] < b
    requires (k + 1 < |s.list| ==> b < s.list[k + 1])
    requires Linked(s, k) && Tiled(Inserted(s, k, b))
    ensures var t := Joined(Inserted(s, k, b), k + 1);
      k + 1 < |t.list| && forall i | 0 <= i < |t.list| - 1 && i != k :: Gap(t, i)
  {
    hide Ring, Covers, Merged, Inserted, Gap, SizeAt;
    InsertKeeps(s, k, b);
    InsertedFields(s, k, b);
    var t1 := Inserted(s, k, b);
    forall i | 0 <= i < |t1.list| - 1 && i != k && i != k + 1
      ensures Gap(t1, i)
    {
      if i < k {
        assert Gap(s, i);
      } else {
        assert Gap(s, i - 1);
      }
    }
    JoinGaps(t1, k + 1);
  }

  /** Joining at k leaves a gap there. */
  lemma JoinGaps(s: State, k: nat)
    requires Tiled(s) && k < |s.list|
    ensures var t := Joined(s, k);
      && k < |t.list|
      && (forall i | 0 <= i < k && i < |t.list| - 1 && Gap(s, i) :: Gap(t, i))
      && ((forall i | k < i < |s.list| - 1 :: Gap(s, i)) ==> forall i | k <= i < |t.list| - 1 :: Gap(t, i))
  {
    hide Ring, Covers, Merged, SizeAt;
    if Touch(s, k) {
      MergeKeeps(s, k);
      MergedFields(s, k);
    } else if k + 1 < |s.list| {
      InOrder(s, k);
      BaseGap(s, k);
    }
  }

  lemma BaseGap(s: State, k: nat)
    requires Ring(s) && k + 1 < |s.list| && !Touch(s, k) && End(s, s.list[k]) <= s.list[k + 1]
    ensures Gap(s, k)
  {
    assert s.list[k] < s.list[k + 1];
  }

  lemma AllGaps(s: State, k: nat)
    requires Tiled(s) && k + 1 < |s.list| && forall i | 0 <= i < |s.list| - 1 && i != k :: Gap(s, i)
    ensures var t := Joined(s, k);
      forall i | 0 <= i < |t.list| - 1 :: Gap(t, i)
  {
    hide Ring, Covers, Merged, SizeAt, Gap;
    JoinGaps(s, k);
  }

  lemma LiveParts(s: State, b: nat)
    requires Tiled(s) && b in s.live
    ensures s.base < b && b in s.mem && b !in s.list && s.mem[b].size == s.live[b] > 0 && b in s.cover
    ensures s.cover[b] == b
  {
    assert IsBlock(s, b) && Covers(s, b);
  }

  /** Header of b after free linked it, joined to the block above if they touch. */
  function NewB(s: State, b: nat, q: nat): Header
    requires b in s.mem && q in s.mem
  {
    if b + s.mem[b].size == q then Header(s.mem[q].ptr, s.mem[b].size + s.mem[q].size) else s.mem[b].(ptr := q)
  }

  lemma FirstJoin(s: State, k: nat, b: nat)
    requires Ring(s) && b !in s.list && k < |s.list| && s.list[k] < b && (k + 1 < |s.list| ==> b < s.list[k + 1])
    requires b in s.mem && s.list[k] in s.mem && s.base < b && Next(s.list, k) in s.mem
    ensures var p, t := s.list[k], Joined(Inserted(s, k, b), k + 1);
      && t.mem == s.mem[b := NewB(s, b, Next(s.list, k))][p := s.mem[p].(ptr := b)]
      && k + 1 < |t.list| && t.list[k] == p && t.list[k + 1] == b
  {
    hide Ring;
    var p, q := s.list[k], Next(s.list, k);
    NextInMem(s, k);
    var t1 := Inserted(s, k, b);
    assert t1.list[k] == p && t1.list[k + 1] == b && (k + 1 < |s.list| ==> t1.list[k + 2] == q);
    assert Touch(t1, k + 1) <==> b + s.mem[b].size == q;
  }

  lemma SecondJoin(t: State, k: nat)
    requires k + 1 < |t.list| && t.list[k] in t.mem && t.list[k + 1] in t.mem
    requires k == 0 ==> End(t, t.list[k]) < t.list[k + 1]
    ensures var p, b := t.list[k], t.list[k + 1];
      Joined(t, k).mem ==
        if p + t.mem[p].size == b then t.mem[p := Header(t.mem[b].ptr, t.mem[p].size + t.mem[b].size)] else t.mem
  {
  }

  /** What free writes, in its own order. */
  lemma FreedMem(s: State, k: nat, b: nat)
    requires Ring(s) && b !in s.list && k < |s.list| && s.list[k] < b && (k + 1 < |s.list| ==> b < s.list[k + 1])
    requires b in s.mem && s.list[k] in s.mem && s.base < b
    ensures var p, q := s.list[k], Next(s.list, k);
      && q in s.mem && q != b
      && var nb := NewB(s, b, q);
      var np := if p + s.mem[p].size == b then Header(nb.ptr, s.mem[p].size + nb.size) else s.mem[p].(ptr := b);
      Freed(s, k, b).mem == s.mem[b := nb][p := np]
  {
    hide Ring, Inserted, Joined, NewB;
    NextInMem(s, k);
    BaseSize(s);
    FirstJoin(s, k, b);
    SecondJoin(Joined(Inserted(s, k, b), k + 1), k);
  }

  lemma NextInMem(s: State, k: nat)
    requires Ring(s) && k < |s.list|
    ensures Next(s.list, k) in s.mem && s.list[0] == s.base && (k + 1 < |s.list| ==> s.base < s.list[k + 1])
    ensures Next(s.list, k) in s.list
  {
    assert Linked(s, 0);
    if k + 1 < |s.list| {
      assert Linked(s, k + 1) && s.list[0] < s.list[k + 1];
    }
  }

  lemma BaseSize(s: State)
    requires Ring(s)
    ensures s.base in s.mem && s.mem[s.base].size == 0 && s.list[0] == s.base
  {
    assert Linked(s, 0);
  }

  lemma RingOf(s: State)
    requires Tiled(s)
    ensures Ring(s) && |s.list| > 0 && s.list[0] == s.base
    ensures forall i | 0 <= i < |s.list| :: Linked(s, i)
  {
  }

  lemma FreedBase(s: State, k: nat, b: nat)
    requires k < |s.list| && b in s.mem && s.list[k] in s.mem
    ensures Freed(s, k, b).base == s.base
  {
  }

  /** Units morecore asks for. */
  function CoreUnits(nu: nat): nat {
    if nu < MINCORE then MINCORE else nu
  }

  lemma GrantedMem(s: State, h: nat, n: nat, units: map<nat, Header>)
    requires h in units
    ensures var m := s.mem + units;
      h in m && Granted(s, h, n, units).mem == m[h := m[h].(size := n)]
  {
  }

  lemma FreeAtLess(s: State, b: nat, n: nat, m: nat)
    requires FreeAt(s, b, n) && m <= n
    ensures FreeAt(s, b, m)
  {
  }

  lemma TakeParts(s: State, k: nat)
    requires Inv(s) && 0 < k < |s.list|
    ensures s.list[k - 1] in s.mem && s.list[k] in s.mem && s.list[k] !in s.live
    ensures SizeAt(s, s.list[k]) == s.mem[s.list[k]].size
    ensures s.list[k] != s.list[k - 1] && s.base < s.list[k] && s.base <= s.list[k - 1]
  {
    LinkedPair(s, k);
    assert k > 1 ==> s.list[0] < s.list[k - 1];
  }

  lemma UnlinkedMem(s: State, k: nat)
    requires 0 < k < |s.list| && s.list[k - 1] in s.mem && s.list[k] in s.mem
    ensures var t, p, q := Unlinked(s, k), s.list[k - 1], s.list[k];
      && t == s.(mem := s.mem[p := s.mem[p].(ptr := s.mem[q].ptr)], list := t.list, live := s.live[q := s.mem[q].size])
      && k - 1 < |t.list| && t.list[k - 1] == p
  {
  }

  lemma CarvedMem(s: State, k: nat, n: nat)
    requires k < |s.list| && s.list[k] in s.mem && 0 < n < SizeAt(s, s.list[k]) && End(s, s.list[k]) - n in s.mem
    ensures var t, p, q := Carved(s, k, n), s.list[k], End(s, s.list[k]) - n;
      && q == p + (s.mem[p].size - n) && p < q
      && t == s.(mem := s.mem[p := s.mem[p].(size := s.mem[p].size - n)][q := s.mem[q].(size := n)],
                 live := s.live[q := n], cover := t.cover)
  {
  }

  // ---------------------------------------------------------------- malloc's search

  /** Units malloc takes for a request: the header and enough units for the bytes. */
  function Units(nbytes: nat): nat {
    (nbytes + UNIT - 1) / UNIT + 1
  }

  lemma Positive(nbytes: nat)
    ensures Units(nbytes) > 0 && (Units(nbytes) - 1) * UNIT >= nbytes
  {
  }

  /** A 64-bit value passed as a C int. */
  function ToInt(n: nat): int {
    var low := n % 0x1_0000_0000;
    if low < 0x8000_0000 then low else low - 0x1_0000_0000
  }

  /** The argument of sbrk is the number of bytes malloc needs exactly when it fits; the
      smallest request beyond that asks sbrk to shrink the heap by 2 GiB. */
  lemma SbrkArgument(nbytes: nat)
    requires nbytes < 0x1_0000_0000
    ensures ToInt(CoreUnits(Units(nbytes)) * UNIT) == CoreUnits(Units(nbytes)) * UNIT <==> Fits(nbytes)
    ensures Fits(nbytes) <==> nbytes <= 0x7fff_ffe0
    ensures ToInt(CoreUnits(Units(0x7fff_ffe1)) * UNIT) == -0x8000_0000
  {
  }

  /** The argument of sbrk, an int, holds the bytes that are asked for. */
  predicate Fits(nbytes: nat) {
    CoreUnits(Units(nbytes)) * UNIT < 0x8000_0000
  }

  /** No free block is large enough. */
  ghost predicate NoFit(s: State, n: nat) {
    forall i | 0 <= i < |s.list| :: SizeAt(s, s.list[i]) < n
  }

  /** The first c blocks after the f-th are too small. */
  ghost predicate Seen(s: State, f: nat, c: nat, n: nat)
    requires f < |s.list| && c <= |s.list|
  {
    forall e | 0 <= e < c :: Small(s, f, e, n)
  }

  ghost predicate Small(s: State, f: nat, e: nat, n: nat)
    requires f < |s.list| && e < |s.list|
  {
    SizeAt(s, s.list[Wrap(f + 1 + e, |s.list|)]) < n
  }

  lemma SeenNext(s: State, f: nat, c: nat, n: nat)
    requires f < |s.list| && c < |s.list| && Seen(s, f, c, n)
    requires SizeAt(s, s.list[Wrap(f + 1 + c, |s.list|)]) < n
    ensures Seen(s, f, c + 1, n)
  {
  }

  lemma InvParts(s: State)
    requires Inv(s)
    ensures Tiled(s) && Ring(s)
  {
  }

  /** malloc's loop is at p, c blocks after the one after freep, which is the f-th. */
  ghost predicate Walking(s: State, freep: nat, f: nat, c: nat, prevp: nat, p: nat, n: nat) {
    && f < |s.list| && s.list[f] == freep && c < |s.list|
    && prevp == s.list[Wrap(f + c, |s.list|)] && p == s.list[Wrap(f + 1 + c, |s.list|)]
    && Seen(s, f, c, n)
  }

  lemma Follow(s: State, i: nat)
    requires Inv(s) && i < |s.list|
    ensures s.list[i] in s.mem && s.mem[s.list[i]].ptr == Next(s.list, i)
    ensures SizeAt(s, s.list[i]) == s.mem[s.list[i]].size
  {
    assert Linked(s, i);
  }

  lemma WalkStart(s: State, freep: nat, n: nat) returns (f: nat)
    requires Inv(s) && freep in s.list
    ensures freep in s.mem && Walking(s, freep, f, 0, freep, s.mem[freep].ptr, n) && |s.list| > 0
  {
    f :| 0 <= f < |s.list| && s.list[f] == freep;
    Follow(s, f);
  }

  lemma WalkHere(s: State, freep: nat, f: nat, c: nat, prevp: nat, p: nat, n: nat)
    requires Inv(s) && Walking(s, freep, f, c, prevp, p, n) && n > 0
    ensures p in s.mem && p in s.list && SizeAt(s, p) == s.mem[p].size
    ensures var k := Wrap(f + 1 + c, |s.list|);
      s.mem[p].size >= n ==> 0 < k < |s.list| && s.list[k - 1] == prevp && s.list[k] == p
  {
    hide Tiled, Seen;
    Follow(s, Wrap(f + 1 + c, |s.list|));
    InvParts(s);
    BaseSize(s);
  }

  /** p is too small: the next block, unless every free block has now been seen. */
  lemma WalkOn(s: State, freep: nat, f: nat, c: nat, prevp: nat, p: nat, n: nat)
    requires Inv(s) && Walking(s, freep, f, c, prevp, p, n) && SizeAt(s, p) < n
    ensures p == freep ==> NoFit(s, n) && forall b, m | m >= n :: !FreeAt(s, b, m)
    ensures p != freep ==> p in s.mem && Walking(s, freep, f, c + 1, p, s.mem[p].ptr, n) && c + 1 < |s.list|
  {
    hide Tiled;
    SeenNext(s, f, c, n);
    InvParts(s);
    Distinct(s, f);
    Follow(s, Wrap(f + 1 + c, |s.list|));
    if p == freep {
      Whole(s, f, c, n);
    }
  }

  lemma FirstList(s: State)
    requires s.list == [s.base] && s.base in s.mem && s.mem[s.base] == Header(s.base, 0) && s.live == map[]
    requires s.cover == map[]
    ensures Inv(s)
  {
  }

  lemma KeptEmpty(s: State, t: State)
    requires s.live == map[]
    ensures LiveKept(s, t)
  {
  }

  /** Setting up base offers no room. */
  lemma SameFit(s: State, t: State, n: nat)
    requires t == s || (s.list == [] && t.list == [t.base] && SizeAt(t, t.base) == 0 && n > 0)
    ensures NoFit(s, n) == NoFit(t, n)
  {
  }

  lemma SameRegion(s: State, t: State, n: nat, answer: Sbrk)
    requires t.base == s.base && t.cover == s.cover
    requires answer.Given? ==> Region(s, answer.h, CoreUnits(n), answer.units)
    ensures answer.Given? ==> Region(t, answer.h, CoreUnits(n), answer.units)
  {
  }

  lemma FitExists(s: State, t: State, p: nat, n: nat, grown: bool)
    requires p in t.list && SizeAt(t, p) >= n && (!grown ==> t == s)
    ensures !grown ==> !NoFit(s, n)
  {
  }

  /** Back at freep: every free block was seen, so none is large enough. */
  lemma Whole(s: State, f: nat, c: nat, n: nat)
    requires Inv(s) && f < |s.list| && c < |s.list| && Seen(s, f, c + 1, n)
    requires s.list[Wrap(f + 1 + c, |s.list|)] == s.list[f]
    ensures NoFit(s, n) && forall b, m | m >= n :: !FreeAt(s, b, m)
  {
    assert c == |s.list| - 1;
    forall i | 0 <= i < |s.list|
      ensures SizeAt(s, s.list[i]) < n
    {
      var e := if i > f then i - f - 1 else i + |s.list| - f - 1;
      assert Small(s, f, e, n);
    }
  }

  lemma StoreKeeps(s: State, a: nat, x: Header)
    requires Inv(s) && a in s.cover && s.cover[a] in s.live && a != s.cover[a]
    ensures Inv(s.(mem := s.mem[a := x]))
  {
    hide Ring, Covers;
    var t := s.(mem := s.mem[a := x]);
    forall i | 0 <= i < |s.list|
      ensures a != s.list[i] && SizeAt(t, s.list[i]) == SizeAt(s, s.list[i])
    {
      FreeHeader(s, i, a);
    }
    forall h | IsBlock(s, h)
      ensures h != a && SizeAt(t, h) == SizeAt(s, h)
    {
      HeaderCovered(s, h);
    }
    StoreRing(s, t, a);
    StoreTiled(s, t);
    forall i | 0 <= i < |t.list| - 1
      ensures Gap(t, i)
    {
      assert Gap(s, i);
    }
  }

  lemma HeaderCovered(s: State, h: nat)
    requires Tiled(s) && IsBlock(s, h)
    ensures h in s.cover && s.cover[h] == h
  {
    assert Covers(s, h);
  }

  lemma StoreRing(s: State, t: State, a: nat)
    requires Ring(s) && t == s.(mem := t.mem) && a in t.mem && t.mem == s.mem[a := t.mem[a]]
    requires forall i | 0 <= i < |s.list| :: a != s.list[i]
    ensures Ring(t)
  {
    forall i | 0 <= i < |t.list|
      ensures Linked(t, i)
    {
      assert Linked(s, i);
    }
  }

  lemma StoreTiled(s: State, t: State)
    requires Tiled(s) && Ring(t) && t == s.(mem := t.mem) && s.mem.Keys <= t.mem.Keys
    requires forall h | IsBlock(s, h) :: SizeAt(t, h) == SizeAt(s, h)
    ensures Tiled(t)
  {
    hide Ring, SizeAt;
    forall h | IsBlock(t, h)
      ensures Covers(t, h)
    {
      assert Covers(s, h);
    }
  }

  /** Answer of sbrk: refused, or memory at h. */
  datatype Sbrk = Denied | Given(h: nat, units: map<nat, Header>)

  class Allocator {
    const base: nat
    var mem: map<nat, Header>
    var freep: nat
    ghost var list: seq<nat>
    ghost var live: map<nat, nat>
    ghost var cover: map<nat, nat>

    ghost function Now(): State
      reads this
    {
      State(base, mem, list, live, cover)
    }

    /** Before the first malloc there is no list; afterwards freep is on it. */
    ghost predicate Valid()
      reads this
    {
      && base > 0
      && (freep == 0 ==> list == [] && live == map[] && cover == map[])
      && (freep != 0 ==> Inv(Now()) && freep in list)
    }

    constructor (at: nat, junk: Header)
      requires at > 0
      ensures Valid() && base == at && live == map[] && cover == map[]
    {
      base := at;
      mem := map[at := junk];
      freep := 0;
      list := [];
      live, cover := map[], map[];
    }

    /** free's search: the last free block below b, found from wherever freep is. */
    method FindPlace(b: nat) returns (p: nat, ghost k: nat)
      requires Tiled(Now()) && freep in list && base < b && b !in list
      ensures k < |list| && k == Before(list, b) && p == list[k] && p in mem && mem[p].ptr == Next(list, k)
    {
      hide Tiled, Before, SizeAt, StopsAt, Ring;
      ghost var s := Now();
      RingOf(s);
      p := freep;
      ghost var i :| 0 <= i < |list| && list[i] == p;
      k := Before(list, b);
      assert Linked(s, i);
      while !(b > p && b < mem[p].ptr)
        invariant 0 <= i < |list| && list[i] == p && Linked(s, i)
        decreases if i <= k then k - i else |list| + k - i
      {
        StopsThere(s, i, b);
        assert StopsAt(p, mem[p].ptr, b) <==>
          (b > p && b < mem[p].ptr) || (p >= mem[p].ptr && (b > p || b < mem[p].ptr));
        if p >= mem[p].ptr && (b > p || b < mem[p].ptr) {
          break;
        }
        NextInMem(s, i);
        p := mem[p].ptr;
        i := if i + 1 < |list| then i + 1 else 0;
        assert Linked(s, i);
      }
      StopsThere(s, i, b);
    }

    /** free: the block goes back to the list and joins the free blocks it touches. */
    method Free(ap: nat)
      requires Valid() && ap > 0 && ap - 1 in live
      modifies this
      ensures Valid() && freep != 0
      ensures live == old(live) - {ap - 1} && cover.Keys == old(cover.Keys)
      ensures FreeAt(Now(), ap - 1, old(live)[ap - 1])
      ensures LiveKept(old(Now()), Now())
    {
      hide Tiled, LiveKept, FreeAt, Freed, Before, SizeAt, Gap;
      ghost var s := Now();
      var b := ap - 1;
      LiveParts(s, b);
      RingOf(s);
      var p; ghost var k;
      p, k := FindPlace(b);
      FreedKeeps(s, k, b);
      NotListed(s, k, b);
      FreedMem(s, k, b);
      var q := mem[p].ptr;
      if b + mem[b].size == q {
        mem := mem[b := Header(mem[q].ptr, mem[b].size + mem[q].size)];
      } else {
        mem := mem[b := mem[b].(ptr := q)];
      }
      assert mem == s.mem[b := NewB(s, b, q)];
      if p + mem[p].size == b {
        mem := mem[p := Header(mem[b].ptr, mem[p].size + mem[b].size)];
      } else {
        mem := mem[p := mem[p].(ptr := b)];
      }
      freep := p;
      ghost var t := Freed(s, k, b);
      list, live, cover := t.list, t.live, t.cover;
      FreedBase(s, k, b);
      assert Now() == t;
    }

    /** morecore: asks for at least nu units, and frees them into the list. */
    method Morecore(nu: nat, answer: Sbrk) returns (p: nat)
      requires Valid() && freep != 0
      requires answer.Given? ==> Region(Now(), answer.h, CoreUnits(nu), answer.units)
      modifies this
      ensures Valid() && live == old(live) && freep != 0
      ensures p == if answer.Denied? then 0 else freep
      ensures answer.Denied? ==> Now() == old(Now()) && freep == old(freep)
      ensures answer.Given? ==> cover.Keys == old(cover.Keys) + answer.units.Keys && FreeAt(Now(), answer.h, nu)
      ensures LiveKept(old(Now()), Now())
    {
      hide Tiled, LiveKept, FreeAt, SizeAt, Region, Granted, Gap;
      ghost var s := Now();
      match answer {
        case Denied =>
          SelfKept(s);
          return 0;
        case Given(h, units) =>
          var n := CoreUnits(nu);
          GrantKeeps(s, h, n, units);
          GrantKept(s, h, n, units);
          ghost var t := Granted(s, h, n, units);
          GrantedFields(s, h, n, units);
          mem := mem + units;
          mem := mem[h := mem[h].(size := n)];
          live, cover := t.live, t.cover;
          assert Now() == t by {
            GrantedMem(s, h, n, units);
          }
          Free(h + 1);
          KeptTrans(s, t, Now());
          FreeAtLess(Now(), h, n, nu);
          return freep;
      }
    }

    /** The part of malloc that takes nunits from free block p. */
    method Take(prevp: nat, p: nat, nunits: nat, ghost k: nat) returns (r: nat)
      requires Inv(Now()) && freep in list && base > 0 && 0 < k < |list| && list[k - 1] == prevp && list[k] == p
      requires 0 < nunits <= SizeAt(Now(), p)
      modifies this
      ensures Valid() && freep == prevp != 0 && cover.Keys == old(cover.Keys)
      ensures r > 0 && r - 1 !in old(live) && live == old(live)[r - 1 := nunits]
      ensures LiveKept(old(Now()), Now())
    {
      hide Tiled, LiveKept, Gap, Carved, Unlinked, SizeAt;
      ghost var s := Now();
      TakeParts(s, k);
      var q := p;
      if mem[p].size == nunits {
        UnlinkKeeps(s, k);
        UnlinkKept(s, k);
        UnlinkedMem(s, k);
        mem := mem[prevp := mem[prevp].(ptr := mem[p].ptr)];
        ghost var t := Unlinked(s, k);
        list, live := t.list, t.live;
        assert Now() == t;
        assert t.list[k - 1] == prevp;
      } else {
        CarveKeeps(s, k, nunits);
        CarveKept(s, k, nunits);
        CarvedMem(s, k, nunits);
        mem := mem[p := mem[p].(size := mem[p].size - nunits)];
        q := p + mem[p].size;
        mem := mem[q := mem[q].(size := nunits)];
        ghost var t := Carved(s, k, nunits);
        live, cover := t.live, t.cover;
        assert Now() == t;
      }
      freep := prevp;
      return q + 1;
    }

    /** malloc: a live block of enough units, disjoint from all live blocks, or 0 when no
        free block is large enough and sbrk refuses. sbrk is asked at most once. Where it would be
        asked for another number of bytes, because the right one does not fit an int, the call is
        not followed further; that is when no free block is large enough and the request exceeds
        the bound. */
    method Malloc(nbytes: nat, answer: Sbrk) returns (r: nat, misasked: bool)
      requires Valid() && nbytes < 0x1_0000_0000
      requires answer.Given? ==> Region(Now(), answer.h, CoreUnits(Units(nbytes)), answer.units)
      modifies this
      ensures Valid() && freep != 0
      ensures misasked <==> !Fits(nbytes) && NoFit(old(Now()), Units(nbytes))
      ensures r == 0 <==> misasked || (answer.Denied? && NoFit(old(Now()), Units(nbytes)))
      ensures r == 0 ==> live == old(live) && cover == old(cover)
      ensures r != 0 ==> r - 1 !in old(live) && live == old(live)[r - 1 := Units(nbytes)]
      ensures cover.Keys == old(cover.Keys) || (answer.Given? && cover.Keys == old(cover.Keys) + answer.units.Keys)
      ensures LiveKept(old(Now()), Now())
    {
      hide LiveKept, SizeAt, Region, FreeAt, Inv, Units, CoreUnits, NoFit, Walking, Fits;
      ghost var s := Now();
      misasked := false;
      Positive(nbytes);
      var nunits := Units(nbytes);
      Setup();
      ghost var s1 := Now();
      SameFit(s, s1, nunits);
      SameRegion(s, s1, nunits, answer);
      ghost var grown := false;
      ghost var c: nat := 0;
      ghost var f: nat := WalkStart(s1, freep, nunits);
      var prevp, p := freep, mem[freep].ptr;
      while true
        invariant Inv(Now()) && base > 0 && freep in list && freep != 0
        invariant Walking(Now(), freep, f, c, prevp, p, nunits) && c < |list|
        invariant live == old(live) && LiveKept(s, Now())
        invariant grown ==> answer.Given? && NoFit(s, nunits) && Fits(nbytes)
        invariant if grown then cover.Keys == old(cover.Keys) + answer.units.Keys && FreeAt(Now(), answer.h, nunits)
                  else Now() == s1
        decreases if grown then 0 else 1, |list| - c
      {
        ghost var t := Now();
        WalkHere(t, freep, f, c, prevp, p, nunits);
        if mem[p].size >= nunits {
          r := Take(prevp, p, nunits, Wrap(f + 1 + c, |list|));
          KeptTrans(s, t, Now());
          FitExists(s1, t, p, nunits, grown);
          return;
        }
        WalkOn(t, freep, f, c, prevp, p, nunits);
        if p == freep {
          if !Fits(nbytes) {
            return 0, true;
          }
          p := Morecore(nunits, answer);
          if p == 0 {
            return 0, false;
          }
          KeptTrans(s, t, Now());
          grown := true;
          c := 0;
          f := WalkStart(Now(), freep, nunits);
          prevp := p;
          p := mem[p].ptr;
        } else {
          prevp := p;
          p := mem[p].ptr;
          c := c + 1;
        }
      }
    }

    /** The start of malloc: base alone forms the first list. */
    method Setup()
      requires Valid()
      modifies this
      ensures Inv(Now()) && base > 0 && freep in list && freep != 0
      ensures live == old(live) && cover == old(cover) && LiveKept(old(Now()), Now())
      ensures Now() == old(Now()) || (old(list) == [] && list == [base] && SizeAt(Now(), base) == 0)
    {
      hide Inv, LiveKept;
      if freep == 0 {
        freep := base;
        mem := mem[base := Header(base, 0)];
        list := [base];
        FirstList(Now());
        KeptEmpty(old(Now()), Now());
      } else {
        SelfKept(Now()) by {
          InvParts(Now());
        }
      }
    }

    /** A program writes inside a block it was given; the allocator does not notice. */
    method UserStore(a: nat, x: Header)
      requires Valid() && a in cover && cover[a] in live && a != cover[a]
      modifies this`mem
      ensures Valid() && mem == old(mem)[a := x]
    {
      hide Tiled, Gap;
      ghost var s := Now();
      mem := mem[a := x];
      StoreKeeps(s, a, x);
    }
  }
}
