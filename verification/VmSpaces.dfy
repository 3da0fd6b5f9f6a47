/** User address spaces: every leaf leads to a frame that the space owns at that very page, except
    that the trampoline page may lead to kernel text, outside the memory handed out. */
module VmSpaces {
  import opened PageTable
  import opened TableTree
  import opened VmRelations

  /** The page number of TRAMPOLINE. */
  const TRAMPOLINE: nat := MAXPAGE - 1

  ghost predicate OwnLeaf(s: Vm, r: nat, w: nat) {
    var pte := Lookup(s, r, w);
    pte != 0 ==>
      && Permits(pte)
      && if Ppn(pte) in s.mem then Ppn(pte) in s.owner && s.owner[Ppn(pte)] == Frame(r, w) else w == TRAMPOLINE
  }

  ghost predicate Closed(s: Vm, r: nat) {
    IsRoot(s, r) && forall w: nat :: OwnLeaf(s, r, w)
  }

  ghost predicate Spaces(s: Vm, users: set<nat>) {
    forall r | r in users :: Closed(s, r)
  }

  // ---------------------------------------------------------------- what it gives

  lemma ClosedFrames(s: Vm, r: nat, first: nat, n: nat)
    requires Closed(s, r) && s.owner.Keys == s.mem.Keys
    ensures OwnFrames(s, r, first, n) && LeavesPermit(s, r)
  {
    hide Lookup, Ppn, Permits;
    forall w: nat
      ensures Lookup(s, r, w) != 0 ==> Permits(Lookup(s, r, w))
      ensures Lookup(s, r, w) != 0 && Ppn(Lookup(s, r, w)) in s.owner ==> s.owner[Ppn(Lookup(s, r, w))] == Frame(r, w)
    {
      assert OwnLeaf(s, r, w);
    }
  }

  /** A leaf below the trampoline leads to memory in use, and carries a permission. */
  lemma ClosedBacked(s: Vm, r: nat, w: nat)
    requires Closed(s, r) && w != TRAMPOLINE && Lookup(s, r, w) != 0
    ensures Backed(s, r, w) && Permits(Lookup(s, r, w)) && Flags(Lookup(s, r, w)) != PTE_V
  {
    hide Lookup, Ppn;
    assert OwnLeaf(s, r, w);
    if Flags(Lookup(s, r, w)) == PTE_V {
      TableFlags(Lookup(s, r, w));
    }
  }

  lemma UserClosed(s: Vm, users: set<nat>, r: nat)
    requires Spaces(s, users) && r in users
    ensures Closed(s, r)
  {
  }

  lemma UserRoot(s: Vm, users: set<nat>, r: nat)
    requires Spaces(s, users) && r in users
    ensures IsRoot(s, r)
  {
    hide OwnLeaf;
    assert Closed(s, r);
  }

  lemma UserBacked(s: Vm, users: set<nat>, r: nat, w: nat)
    requires Spaces(s, users) && r in users && w != TRAMPOLINE
    ensures Lookup(s, r, w) != 0 ==> Backed(s, r, w) && Permits(Lookup(s, r, w))
  {
    hide Lookup, Closed;
    UserClosed(s, users, r);
    if Lookup(s, r, w) != 0 {
      ClosedBacked(s, r, w);
    }
  }

  /** What can be copied can also be undone. */
  lemma UserClean(s: Vm, users: set<nat>, src: nat, dst: nat, n: nat)
    requires Spaces(s, users) && src in users && n <= TRAMPOLINE
    requires forall w | 0 <= w < n :: Copyable(s, src, dst, w)
    ensures forall w | 0 <= w < n :: CleanlyCopyable(s, src, dst, w)
  {
    hide Lookup, Closed, Permits, Flags;
    UserClosed(s, users, src);
    forall w | 0 <= w < n
      ensures CleanlyCopyable(s, src, dst, w)
    {
      assert Copyable(s, src, dst, w);
      ClosedBacked(s, src, w);
    }
  }

  lemma RootOwned(s: Vm, r: nat)
    requires IsRoot(s, r)
    ensures r in s.owner && s.owner[r] == Root(r)
  {
  }

  lemma UserPermits()
    ensures Permits(WithValid(USER_FLAGS))
  {
  }

  /** A page just allocated may be mapped anywhere. */
  lemma OneBindable(s: Vm, users: set<nat>, r: nat, v: nat, n: nat, p: nat, flags: nat)
    requires p in s.mem && p in s.owner && s.owner[p] == Pending && n <= 1 && Permits(flags)
    ensures MayMap(s, users, r, v, n, p, flags)
  {
  }

  lemma PermitsMade(ppn: nat, flags: nat)
    requires flags < 1024
    ensures Permits(MakePte(ppn, flags)) == Permits(flags) && MakePte(ppn, flags) % 1024 == flags
  {
    var pte := 1024 * ppn + flags;
    assert pte / 2 == 8 * (64 * ppn) + flags / 2;
    Mod8(64 * ppn, flags / 2);
  }

  lemma Mod8(a: nat, b: nat)
    ensures (8 * a + b) % 8 == b % 8
  {
  }

  lemma PermitsFlags(pte: nat)
    ensures Permits(Flags(pte)) == Permits(pte)
  {
    PermitsMade(pte / 1024, pte % 1024);
  }

  // ---------------------------------------------------------------- what keeps it

  /** A space whose map and frames are as they were. */
  lemma ClosedStays(s: Vm, t: Vm, r: nat)
    requires Closed(s, r) && IsRoot(t, r) && t.mem.Keys == s.mem.Keys == t.owner.Keys
    requires forall w: nat :: Lookup(t, r, w) == Lookup(s, r, w)
    requires forall b | b in s.mem && b in s.owner && s.owner[b].Frame? && s.owner[b].r == r :: t.owner[b] == s.owner[b]
    ensures Closed(t, r)
  {
    hide Lookup, Ppn, Permits;
    forall w: nat
      ensures OwnLeaf(t, r, w)
    {
      assert OwnLeaf(s, r, w) && Lookup(t, r, w) == Lookup(s, r, w);
    }
  }

  lemma ClosedRoot(s: Vm, r: nat)
    requires Closed(s, r)
    ensures IsRoot(s, r)
  {
  }

  /** A page that is no frame is rewritten, and changes hands, without a map changing. */
  lemma PlainSpaces(s: Vm, b: nat, page: Page, o: Owner, users: set<nat>)
    requires Spaces(s, users) && s.owner.Keys == s.mem.Keys && b in s.mem
    requires s.owner[b] == Free || s.owner[b] == Pending
    requires SameMap(s, WithPage(s, b, page, o))
    ensures Spaces(WithPage(s, b, page, o), users)
  {
    hide Lookup, Closed;
    forall r | r in users
      ensures Closed(WithPage(s, b, page, o), r)
    {
      ClosedRoot(s, r);
      ClosedStays(s, WithPage(s, b, page, o), r);
    }
  }

  /** Page w may be mapped in a user space, when mapping from `first` to `ppn` on. */
  ghost predicate Bindable(s: Vm, first: nat, ppn: nat, w: nat)
    requires first <= w
  {
    var b := ppn + (w - first);
    if b in s.mem then b in s.owner && s.owner[b] == Pending else w == TRAMPOLINE
  }

  /** Mapping fresh pages, with a permission, into user spaces; or anything into other spaces. */
  ghost predicate MayMap(s: Vm, users: set<nat>, r: nat, first: nat, n: nat, ppn: nat, flags: nat) {
    r in users ==> Permits(flags) && forall w | first <= w < first + n :: Bindable(s, first, ppn, w)
  }

  lemma MappedSpaces(s: Vm, t: Vm, users: set<nat>, r: nat, first: nat, n: nat, ppn: nat, flags: nat)
    requires flags < 1024 && Spaces(s, users) && Mapped(s, t, r, first, n, ppn, flags)
    requires MayMap(s, users, r, first, n, ppn, flags)
    ensures Spaces(t, users)
  {
    hide Lookup, Closed, MakePte, Permits, Bindable;
    forall q | q in users
      ensures Closed(t, q)
    {
      ClosedRoot(s, q);
      if q == r {
        forall w: nat
          ensures OwnLeaf(t, r, w)
        {
          assert first <= w < first + n ==> Bindable(s, first, ppn, w);
          MappedLeaf(s, t, r, first, n, ppn, flags, w);
        }
        MappedRoot(s, t, r, first, n, ppn, flags);
      } else {
        ClosedStays(s, t, q);
      }
    }
  }

  lemma MappedSound(s: Vm, t: Vm, users: set<nat>, r: nat, first: nat, n: nat, ppn: nat, flags: nat)
    requires flags < 1024 && Mapped(s, t, r, first, n, ppn, flags)
    ensures Spaces(s, users) && MayMap(s, users, r, first, n, ppn, flags) ==> Spaces(t, users)
  {
    hide Spaces, MayMap, Mapped;
    if Spaces(s, users) && MayMap(s, users, r, first, n, ppn, flags) {
      MappedSpaces(s, t, users, r, first, n, ppn, flags);
    }
  }

  lemma MappedRoot(s: Vm, t: Vm, r: nat, first: nat, n: nat, ppn: nat, flags: nat)
    requires flags < 1024 && IsRoot(s, r) && Mapped(s, t, r, first, n, ppn, flags)
    requires forall w: nat :: OwnLeaf(t, r, w)
    ensures Closed(t, r)
  {
    hide Lookup, MakePte, OwnLeaf, MappedPages;
  }

  lemma MappedLeaf(s: Vm, t: Vm, r: nat, first: nat, n: nat, ppn: nat, flags: nat, w: nat)
    requires flags < 1024 && Closed(s, r) && Mapped(s, t, r, first, n, ppn, flags) && Permits(flags)
    requires first <= w < first + n ==> Bindable(s, first, ppn, w)
    ensures OwnLeaf(t, r, w)
  {
    hide Lookup, MakePte, Permits, Ppn;
    assert OwnLeaf(s, r, w);
    if first <= w < first + n {
      assert Lookup(t, r, w) == MakePte(ppn + (w - first), flags);
      PermitsMade(ppn + (w - first), flags);
    } else {
      assert Lookup(t, r, w) == Lookup(s, r, w);
    }
  }

  lemma UnmappedSpaces(s: Vm, t: Vm, users: set<nat>, r: nat, first: nat, n: nat, to: Owner)
    requires Spaces(s, users) && Unmapped(s, t, r, first, n, to)
    ensures Spaces(t, users)
  {
    hide Lookup, Closed;
    forall q | q in users
      ensures Closed(t, q)
    {
      ClosedRoot(s, q);
      if q == r {
        UnmappedClosed(s, t, r, first, n, to);
      } else {
        ClosedStays(s, t, q);
      }
    }
  }

  lemma UnmappedClosed(s: Vm, t: Vm, r: nat, first: nat, n: nat, to: Owner)
    requires Closed(s, r) && Unmapped(s, t, r, first, n, to)
    ensures Closed(t, r)
  {
    hide Lookup, Ppn, Permits;
    forall w: nat
      ensures OwnLeaf(t, r, w)
    {
      assert OwnLeaf(s, r, w);
      assert Lookup(t, r, w) == if first <= w < first + n then 0 else Lookup(s, r, w);
    }
  }

  lemma FreedSpaces(s: Vm, t: Vm, users: set<nat>, r: nat)
    requires Spaces(s, users) && SpaceFreed(s, t, r)
    requires forall q: nat, w: nat :: Lookup(t, q, w) == if q == r then 0 else Lookup(s, q, w)
    ensures Spaces(t, users - {r})
  {
    hide Lookup, Closed;
    forall q | q in users - {r}
      ensures Closed(t, q)
    {
      ClosedRoot(s, q);
      ClosedStays(s, t, q);
    }
  }

  lemma NewSpace(s: Vm, t: Vm, users: set<nat>, r: nat)
    requires Spaces(s, users) && s.owner.Keys == s.mem.Keys && r in s.mem && s.owner[r] == Free
    requires t.mem.Keys == s.mem.Keys && t.owner == s.owner[r := Root(r)] && SameMap(s, t)
    requires forall w: nat :: Lookup(t, r, w) == 0
    ensures Spaces(t, users + {r})
  {
    hide Lookup, Closed;
    forall q | q in users + {r}
      ensures Closed(t, q)
    {
      if q == r {
        EmptyClosed(t, r);
      } else {
        ClosedRoot(s, q);
        ClosedStays(s, t, q);
      }
    }
  }

  lemma EmptyClosed(t: Vm, r: nat)
    requires IsRoot(t, r) && forall w: nat :: Lookup(t, r, w) == 0
    ensures Closed(t, r)
  {
    hide Lookup;
  }

  // ---------------------------------------------------------------- the life of a space

  /** The page number of TRAPFRAME. */
  const TRAPFRAME: nat := TRAMPOLINE - 1

  /** Nothing changed hands, except that free pages went to space r. */
  ghost predicate OnlyGave(s: Vm, t: Vm, r: nat) {
    && t.mem.Keys == s.mem.Keys == s.owner.Keys == t.owner.Keys
    && (forall b | b in s.mem :: t.owner[b] == s.owner[b] || (s.owner[b] == Free && t.owner[b].Of(r)))
    && (forall b | b in s.mem && s.owner[b].Plain() && s.owner[b] != Free :: t.mem[b] == s.mem[b])
  }

  /** Where there is no root there are no pages of a space. */
  lemma NoPagesOf(s: Vm, r: nat, b: nat)
    requires Inv(s) && !IsRoot(s, r) && b in s.mem
    ensures !s.owner[b].Of(r)
  {
    hide IsValid, Ppn, Flags, Px0, Px1, Px2;
    ZeroInvalid();
  }

  /** A fresh root has no tables below it. */
  lemma FreshRoot(s: Vm, t: Vm, r: nat, o: Owner)
    requires Inv(s) && Inv(t) && r in s.mem && s.owner[r] == Free && t.owner == s.owner[r := Root(r)]
    requires o.Table() && o.r == r
    ensures Val(t, o) == 0
  {
    hide Lookup, TableEntry, Flags, IsValid;
    if Val(t, o) != 0 {
      var b := Val(t, o);
      assert t.owner[b] == o;
      NoPagesOf(s, r, b);
    }
  }

  lemma MappedGave(s: Vm, t: Vm, r: nat, first: nat, n: nat, ppn: nat, flags: nat)
    requires flags < 1024 && Mapped(s, t, r, first, n, ppn, flags) && (n == 0 || (n == 1 && ppn !in s.mem))
    ensures OnlyGave(s, t, r)
  {
    hide MappedPages;
  }

  lemma GaveTrans(s: Vm, t: Vm, u: Vm, r: nat)
    requires OnlyGave(s, t, r) && OnlyGave(t, u, r)
    ensures OnlyGave(s, u, r)
  {
  }

  /** A space that is freed at once leaves everything as it was. */
  lemma Restored(s: Vm, t: Vm, z: Vm, r: nat)
    requires Inv(s) && !IsRoot(s, r) && OnlyGave(s, t, r) && SpaceFreed(t, z, r)
    ensures z.owner == s.owner
    ensures forall b | b in s.mem && s.owner[b].Plain() && s.owner[b] != Free :: z.mem[b] == s.mem[b]
  {
    hide Inv;
    forall b | b in s.mem
      ensures z.owner[b] == s.owner[b]
      ensures s.owner[b].Plain() && s.owner[b] != Free ==> z.mem[b] == s.mem[b]
    {
      NoPagesOf(s, r, b);
    }
  }

  /** Both pages at the top of a space hang off the same tables. */
  lemma TopTables(r: nat)
    ensures Mid(r, Px2(TRAPFRAME)) == Mid(r, Px2(TRAMPOLINE)) && LowOf(r, TRAPFRAME) == LowOf(r, TRAMPOLINE)
    ensures TRAPFRAME < TRAMPOLINE < MAXPAGE
  {
  }

  /** A space with the trampoline and a trapframe, and nothing else. */
  ghost predicate TopOnly(s: Vm, t: Vm, r: nat, tramp: nat, frame: nat) {
    forall q: nat, w: nat :: Lookup(t, q, w) ==
      if q != r then Lookup(s, q, w)
      else if w == TRAMPOLINE then MakePte(tramp, 11)
      else if w == TRAPFRAME then MakePte(frame, 7)
      else 0
  }

  /** What was given to space r, with page `frame` as its trapframe. */
  ghost predicate GaveWithFrame(s: Vm, t: Vm, r: nat, frame: nat) {
    && t.mem.Keys == s.mem.Keys == s.owner.Keys == t.owner.Keys
    && forall b | b in s.mem :: if b == frame then t.owner[b] == Frame(r, TRAPFRAME)
        else t.owner[b] == s.owner[b] || (s.owner[b] == Free && t.owner[b].Of(r))
  }

  lemma TopMade(s: Vm, u: Vm, t: Vm, z: Vm, r: nat, tramp: nat, frame: nat)
    requires SameMap(s, u) && forall w :: Lookup(u, r, w) == 0
    requires Mapped(u, t, r, TRAMPOLINE, 1, tramp, 11) && Mapped(t, z, r, TRAPFRAME, 1, frame, 7)
    ensures forall w: nat :: Lookup(t, r, w) == if w == TRAMPOLINE then MakePte(tramp, 11) else 0
    ensures TopOnly(s, z, r, tramp, frame)
  {
    hide Lookup, MakePte, MappedOwners;
  }

  lemma FrameGiven(s: Vm, t: Vm, z: Vm, r: nat, frame: nat)
    requires OnlyGave(s, t, r) && frame in s.mem && s.owner[frame] == Pending
    requires Mapped(t, z, r, TRAPFRAME, 1, frame, 7)
    ensures GaveWithFrame(s, z, r, frame)
  {
    hide MappedPages;
    forall b | b in s.mem
      ensures if b == frame then z.owner[b] == Frame(r, TRAPFRAME)
              else z.owner[b] == s.owner[b] || (s.owner[b] == Free && z.owner[b].Of(r))
    {
      assert z.owner[b] == AfterMapping(t.owner[b], b, r, TRAPFRAME, 1, frame)
        || (t.owner[b] == Free && z.owner[b].TableOf(r));
    }
  }

  /** All pages of space r became free, except those at its top, which the caller holds now. */
  ghost predicate AllBack(s: Vm, t: Vm, r: nat) {
    && t.mem.Keys == s.mem.Keys == s.owner.Keys == t.owner.Keys
    && forall b | b in s.mem :: t.owner[b] ==
        if FrameIn(s.owner[b], r, TRAPFRAME, 2) then Pending else if s.owner[b].Of(r) then Free else s.owner[b]
  }

  /** What proc_freepagetable asks of a space: its first n pages, the two at the top, no others. */
  ghost predicate WholeSpace(s: Vm, r: nat, n: nat) {
    && Removable(s, r, TRAMPOLINE, false) && Removable(s, r, TRAPFRAME, false) && n <= TRAPFRAME
    && AllRemovable(s, r, 0, n, true)
    && forall w: nat | w >= n && w != TRAMPOLINE && w != TRAPFRAME :: Lookup(s, r, w) == 0
  }

  lemma TopGone(s: Vm, t: Vm, u: Vm, r: nat)
    requires Unmapped(s, t, r, TRAMPOLINE, 1, Pending) && Unmapped(t, u, r, TRAPFRAME, 1, Pending)
    ensures Removable(t, r, TRAPFRAME, false) == Removable(s, r, TRAPFRAME, false)
    ensures forall q: nat, w: nat ::
      Lookup(u, q, w) == if q == r && (w == TRAMPOLINE || w == TRAPFRAME) then 0 else Lookup(s, q, w)
    ensures u.mem.Keys == s.mem.Keys
  {
    hide Lookup, Ppn, Flags;
    assert Lookup(t, r, TRAPFRAME) == Lookup(s, r, TRAPFRAME);
  }

  lemma RestWhole(s: Vm, u: Vm, r: nat, n: nat)
    requires u.mem.Keys == s.mem.Keys && forall q: nat, w: nat ::
      Lookup(u, q, w) == if q == r && (w == TRAMPOLINE || w == TRAPFRAME) then 0 else Lookup(s, q, w)
    requires Removable(s, r, TRAMPOLINE, false) && Removable(s, r, TRAPFRAME, false)
    ensures AllRemovable(u, r, 0, n, true) && (forall w: nat | w >= n :: Lookup(u, r, w) == 0) <==> WholeSpace(s, r, n)
  {
    hide Lookup, Ppn, Flags;
    forall w: nat
      ensures Removable(u, r, w, true) <==> Removable(s, r, w, true) && w != TRAMPOLINE && w != TRAPFRAME
    {
      assert Lookup(u, r, w) == if w == TRAMPOLINE || w == TRAPFRAME then 0 else Lookup(s, r, w);
    }
    if n > TRAPFRAME {
      Blocked(u, r, n, TRAPFRAME);
    }
  }

  lemma Blocked(u: Vm, r: nat, n: nat, w: nat)
    requires w < n && !Removable(u, r, w, true)
    ensures !AllRemovable(u, r, 0, n, true)
  {
    hide Removable;
  }

  lemma TopBack(s: Vm, t: Vm, u: Vm, z: Vm, r: nat)
    requires Unmapped(s, t, r, TRAMPOLINE, 1, Pending) && Unmapped(t, u, r, TRAPFRAME, 1, Pending)
    requires SpaceFreed(u, z, r)
    ensures AllBack(s, z, r)
  {
    hide Lookup, UnmappedPages, FrameIn;
    forall b | b in s.mem
      ensures z.owner[b] ==
        if FrameIn(s.owner[b], r, TRAPFRAME, 2) then Pending else if s.owner[b].Of(r) then Free else s.owner[b]
    {
      OwnerBack(s.owner[b], t.owner[b], u.owner[b], z.owner[b], r);
    }
  }

  lemma OwnerBack(s: Owner, t: Owner, u: Owner, z: Owner, r: nat)
    requires t == if FrameIn(s, r, TRAMPOLINE, 1) then Pending else s
    requires u == if FrameIn(t, r, TRAPFRAME, 1) then Pending else t
    requires z == if u.Of(r) then Free else u
    ensures z == if FrameIn(s, r, TRAPFRAME, 2) then Pending else if s.Of(r) then Free else s
  {
  }

  // ---------------------------------------------------------------- conservation of pages

  /** A leaf of space r at page w leads to page b of physical memory. */
  ghost predicate Maps(s: Vm, r: nat, w: nat, b: nat) {
    Lookup(s, r, w) != 0 && Ppn(Lookup(s, r, w)) == b
  }

  ghost predicate MappedByUser(s: Vm, users: set<nat>, b: nat) {
    exists r: nat, w: nat :: r in users && Maps(s, r, w, b)
  }

  ghost predicate InTree(s: Vm, b: nat) {
    IsRoot(s, b) || exists o: Owner :: Val(s, o) == b
  }

  /** Held by kernel code, or mapped in the kernel's own space. */
  ghost predicate HeldByKernel(s: Vm, users: set<nat>, b: nat)
    requires b in s.owner
  {
    s.owner[b] == Other || s.owner[b] == Pending || (s.owner[b].Frame? && s.owner[b].r !in users)
  }

  /** Exactly the owner of a page has it mapped in a user space. */
  lemma MappedIffOwned(s: Vm, users: set<nat>, b: nat, r: nat, w: nat)
    requires Inv(s) && Spaces(s, users) && b in s.mem && r in users
    ensures Maps(s, r, w, b) <==> s.owner[b] == Frame(r, w)
  {
    hide Lookup, Ppn, Val, Flags, IsValid;
    assert Closed(s, r) && OwnLeaf(s, r, w);
  }

  /** Every page is of exactly one of four kinds: on the free list; in a page-table tree, at one
      place; mapped by user spaces, by one leaf of one of them; held by the kernel. */
  lemma PagesPartitioned(s: Vm, users: set<nat>, freelist: nat, free: seq<nat>, b: nat)
    requires Inv(s) && FreeList(s, freelist, free) && Spaces(s, users) && b in s.mem
    ensures b in free || InTree(s, b) || MappedByUser(s, users, b) || HeldByKernel(s, users, b)
    ensures b in free ==> !InTree(s, b) && !MappedByUser(s, users, b) && !HeldByKernel(s, users, b)
    ensures InTree(s, b) ==> !MappedByUser(s, users, b) && !HeldByKernel(s, users, b)
    ensures MappedByUser(s, users, b) ==> !HeldByKernel(s, users, b)
    ensures forall o: Owner, p: Owner | Val(s, o) == b && Val(s, p) == b :: o == p && !IsRoot(s, b)
    ensures forall r, w, q, v | r in users && q in users && Maps(s, r, w, b) && Maps(s, q, v, b) :: r == q && w == v
  {
    hide Inv, Spaces, Listed, IsValid, Maps, TableEntry;
    OneTable(s, b);
    forall r: nat, w: nat | r in users
      ensures Maps(s, r, w, b) <==> s.owner[b] == Frame(r, w)
    {
      MappedIffOwned(s, users, b, r, w);
    }
    if s.owner[b].Frame? && s.owner[b].r in users {
      assert Maps(s, s.owner[b].r, s.owner[b].v, b);
    }
  }

  lemma OneTable(s: Vm, b: nat)
    requires Inv(s) && b in s.mem
    ensures s.owner.Keys == s.mem.Keys
    ensures forall o: Owner | Val(s, o) == b :: o == s.owner[b] && o.Table()
    ensures s.owner[b].Table() ==> Val(s, s.owner[b]) == b
    ensures s.owner[b].Root? ==> IsRoot(s, b)
  {
    hide Lookup, IsValid, Ppn, MidEntry, LowEntry;
    forall o: Owner | Val(s, o) == b
      ensures o == s.owner[b] && o.Table()
    {
      NotPending(s, o);
      ZeroInvalid();
    }
  }
}
