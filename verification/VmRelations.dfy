/** The free list of physical pages, and how mapping, unmapping, growing and copying an address
    space change the state of memory. */
module VmRelations {
  import opened PageTable
  import opened TableTree

  const TWO64: nat := 0x1_0000_0000_0000_0000
  const USER_FLAGS: nat := 30            // R, W, X, U

  /** A page filled with one byte, as 64-bit words. */
  function Fill(c: nat): (p: Page)
    requires c < 256
    ensures forall i | 0 <= i < ENTRIES :: p[i] == 0x0101_0101_0101_0101 * c
  {
    seq(512, _ => 0x0101_0101_0101_0101 * c)
  }

  function RoundUp(a: nat): nat {
    (a + PGSIZE - 1) / PGSIZE
  }

  // ---------------------------------------------------------------- the free list

  /** Address stored in the first word of the i-th free page. */
  function NextAddr(free: seq<nat>, i: nat): nat {
    if i + 1 < |free| then PGSIZE * free[i + 1] else 0
  }

  ghost predicate Link(mem: map<nat, Page>, free: seq<nat>, i: nat)
    requires i < |free|
  {
    free[i] in mem && mem[free[i]][0] == NextAddr(free, i)
  }

  ghost predicate Listed(mem: map<nat, Page>, freelist: nat, free: seq<nat>) {
    && freelist == (if free == [] then 0 else free[0])
    && (forall i | 0 <= i < |free| :: Link(mem, free, i))
    && (forall i, j | 0 <= i < j < |free| :: free[i] != free[j])
  }

  /** The list holds exactly the pages owned by nobody. */
  ghost predicate FreeList(s: Vm, freelist: nat, free: seq<nat>) {
    && s.owner.Keys == s.mem.Keys && 0 !in s.mem
    && Listed(s.mem, freelist, free)
    && (forall b | b in s.mem :: s.owner[b] == Free <==> b in free)
  }

  lemma EmptyList(s: Vm, freelist: nat, free: seq<nat>)
    requires FreeList(s, freelist, free)
    ensures freelist == 0 <==> free == []
  {
    if free != [] {
      assert Link(s.mem, free, 0);
    }
  }

  lemma FreeKeys(s: Vm, freelist: nat, free: seq<nat>)
    requires FreeList(s, freelist, free)
    ensures s.owner.Keys == s.mem.Keys && 0 !in s.mem
  {
  }

  /** The list looks at free pages only. */
  lemma FreeFrame(s: Vm, t: Vm, freelist: nat, free: seq<nat>)
    requires FreeList(s, freelist, free)
    requires t.mem.Keys == s.mem.Keys == t.owner.Keys
    requires forall b | b in s.mem :: t.owner[b] == Free <==> s.owner[b] == Free
    requires forall b | b in s.mem && s.owner[b] == Free :: t.mem[b] == s.mem[b]
    ensures FreeList(t, freelist, free)
  {
    forall i | 0 <= i < |free|
      ensures Link(t.mem, free, i)
    {
      assert Link(s.mem, free, i);
    }
  }

  lemma PopFree(s: Vm, freelist: nat, free: seq<nat>, page: Page)
    requires FreeList(s, freelist, free) && freelist != 0
    ensures freelist in s.mem && s.owner[freelist] == Free && free != [] && free[0] == freelist
    ensures FreeList(Vm(s.mem[freelist := page], s.owner[freelist := Pending]), s.mem[freelist][0] / PGSIZE, free[1..])
  {
    var t, fewer := Vm(s.mem[freelist := page], s.owner[freelist := Pending]), free[1..];
    assert free == [freelist] + fewer;
    assert Link(s.mem, free, 0);
    forall i | 0 <= i < |fewer|
      ensures Link(t.mem, fewer, i)
    {
      assert Link(s.mem, free, i + 1) && free[i + 1] == fewer[i];
    }
  }

  lemma PushFree(s: Vm, freelist: nat, free: seq<nat>, p: nat, page: Page)
    requires FreeList(s, freelist, free) && p in s.mem && s.owner[p] != Free
    requires page[0] == PGSIZE * freelist
    ensures FreeList(Vm(s.mem[p := page], s.owner[p := Free]), p, [p] + free)
  {
    var t, more := Vm(s.mem[p := page], s.owner[p := Free]), [p] + free;
    forall i | 0 <= i < |more|
      ensures Link(t.mem, more, i)
    {
      if i > 0 {
        assert Link(s.mem, free, i - 1) && more[i] == free[i - 1];
      }
    }
  }

  /** Freeing a page that is on the list already makes it a cycle: no list is left. */
  lemma DoubleFree(s: Vm, freelist: nat, free: seq<nat>, p: nat, page: Page, f: seq<nat>)
    requires FreeList(s, freelist, free) && p in s.mem && s.owner[p] == Free
    requires page[0] == PGSIZE * freelist
    ensures !FreeList(Vm(s.mem[p := page], s.owner[p := Free]), p, f)
  {
    hide Link;
    var t := Vm(s.mem[p := page], s.owner[p := Free]);
    if FreeList(t, p, f) {
      var k :| 0 <= k < |free| && free[k] == p;
      FollowList(s, t, freelist, free, p, f, k, k);
    }
  }

  lemma {:induction false} FollowList(s: Vm, t: Vm, freelist: nat, free: seq<nat>, p: nat, f: seq<nat>, k: nat, i: nat)
    requires FreeList(s, freelist, free) && FreeList(t, p, f) && i <= k < |free| && free[k] == p
    requires p in t.mem && t.mem[p][0] == PGSIZE * freelist
    requires forall b | b in s.mem && b != p :: b in t.mem && t.mem[b] == s.mem[b]
    ensures i + 1 < |f| && f[i + 1] == free[i]
  {
    if i == 0 {
      assert Link(t.mem, f, 0) && Link(s.mem, free, 0);
    } else {
      FollowList(s, t, freelist, free, p, f, k, i - 1);
      assert Link(s.mem, free, i - 1) && Link(s.mem, free, i) && Link(t.mem, f, i);
    }
  }

  // ---------------------------------------------------------------- relations between states

  /** Only tables of space r were added: every address map, and every page that was not
      free, is as before. */
  ghost predicate Grown(s: Vm, t: Vm, r: nat) {
    && t.mem.Keys == s.mem.Keys == s.owner.Keys == t.owner.Keys
    && SameMap(s, t)
    && (forall b | b in s.mem :: t.owner[b] == s.owner[b] || (s.owner[b] == Free && t.owner[b].TableOf(r)))
    && (forall b | b in s.mem && s.owner[b].Plain() && s.owner[b] != Free :: t.mem[b] == s.mem[b])
  }

  /** Owner after n pages from `first` were mapped to the pages from `ppn`: fresh
      pages become frames. */
  function AfterMapping(o: Owner, b: nat, r: nat, first: nat, n: nat, ppn: nat): Owner {
    if o == Pending && ppn <= b < ppn + n then Frame(r, first + (b - ppn)) else o
  }

  /** Exactly n pages from `first` were mapped, to consecutive physical pages. */
  ghost predicate Mapped(s: Vm, t: Vm, r: nat, first: nat, n: nat, ppn: nat, flags: nat)
    requires flags < 1024
  {
    MappedPages(s, t, r, first, n, ppn, flags) && MappedOwners(s, t, r, first, n, ppn)
  }

  ghost predicate MappedPages(s: Vm, t: Vm, r: nat, first: nat, n: nat, ppn: nat, flags: nat)
    requires flags < 1024
  {
    forall q: nat, w: nat :: Lookup(t, q, w) ==
      if q == r && first <= w < first + n then MakePte(ppn + (w - first), flags) else Lookup(s, q, w)
  }

  /** Nothing else changed hands, except free pages that became tables, and no page
      of memory in use was written. */
  ghost predicate MappedOwners(s: Vm, t: Vm, r: nat, first: nat, n: nat, ppn: nat) {
    && t.mem.Keys == s.mem.Keys == s.owner.Keys == t.owner.Keys
    && (forall b | b in s.mem :: t.owner[b] == AfterMapping(s.owner[b], b, r, first, n, ppn)
         || (s.owner[b] == Free && t.owner[b].TableOf(r)))
    && (forall b | b in s.mem && s.owner[b].Plain() && s.owner[b] != Free :: t.mem[b] == s.mem[b])
  }

  /** Owned by space r at one of the n pages from `first`. */
  predicate FrameIn(o: Owner, r: nat, first: nat, n: nat) {
    o.Frame? && o.r == r && first <= o.v < first + n
  }

  /** Exactly n pages from `first` were unmapped; their own frames went to `to`. */
  ghost predicate Unmapped(s: Vm, t: Vm, r: nat, first: nat, n: nat, to: Owner) {
    UnmappedPages(s, t, r, first, n) && UnmappedOwners(s, t, r, first, n, to)
  }

  ghost predicate UnmappedPages(s: Vm, t: Vm, r: nat, first: nat, n: nat) {
    forall q: nat, w: nat :: Lookup(t, q, w) == if q == r && first <= w < first + n then 0 else Lookup(s, q, w)
  }

  ghost predicate UnmappedOwners(s: Vm, t: Vm, r: nat, first: nat, n: nat, to: Owner) {
    && t.mem.Keys == s.mem.Keys == s.owner.Keys == t.owner.Keys
    && (forall b | b in s.mem :: t.owner[b] == if FrameIn(s.owner[b], r, first, n) then to else s.owner[b])
    && (forall b | b in s.mem && t.owner[b] != Free && !t.owner[b].TreeOf(r) :: t.mem[b] == s.mem[b])
  }

  /** The page is mapped by a leaf, which can be released if asked. */
  ghost predicate Removable(s: Vm, r: nat, w: nat, release: bool) {
    && w < MAXPAGE && Lookup(s, r, w) != 0 && Flags(Lookup(s, r, w)) != PTE_V
    && (release ==> Ppn(Lookup(s, r, w)) in s.mem)
  }

  ghost predicate AllRemovable(s: Vm, r: nat, first: nat, n: nat, release: bool) {
    forall w | first <= w < first + n :: Removable(s, r, w, release)
  }

  /** Every mapped page of the range leads to a frame the space owns, or outside RAM. */
  ghost predicate OwnFrames(s: Vm, r: nat, first: nat, n: nat) {
    forall w | first <= w < first + n && Lookup(s, r, w) != 0 && Ppn(Lookup(s, r, w)) in s.owner ::
      s.owner[Ppn(Lookup(s, r, w))] == Frame(r, w)
  }

  datatype WalkResult = Slot(page: nat, index: nat) | Missing | WalkPanic
  datatype MapResult = Done | NoMemory | Panic

  /** Position of the table that `walk` reads at a level. */
  function PosAt(r: nat, v: nat, level: nat): Owner {
    if level >= 2 then Root(r) else if level == 1 then Mid(r, Px2(v)) else LowOf(r, v)
  }

  function Px(level: nat, v: nat): (i: nat)
    ensures i < ENTRIES
  {
    if level >= 2 then Px2(v) else if level == 1 then Px1(v) else Px0(v)
  }

  /** Entry i of page `table` is the one that leads to position o. */
  ghost predicate EntryAt(s: Vm, o: Owner, table: nat, i: nat) {
    match o
    case Mid(r, i') => IsRoot(s, r) && table == r && i == i'
    case Low(r, i', j) => table == Val(s, Mid(r, i')) && table != 0 && i == j
    case _ => false
  }

  lemma EntryOf(s: Vm, o: Owner, table: nat, i: nat)
    requires Inv(s) && i < ENTRIES && EntryAt(s, o, table, i)
    ensures s.owner.Keys == s.mem.Keys && 0 !in s.mem && o.Table()
    ensures table in s.mem && !s.owner[table].Plain() && TableEntry(s, o) == s.mem[table][i]
    ensures IsValid(s.mem[table][i]) ==> Val(s, o) != 0
  {
    hide IsValid, Ppn, Flags, Lookup;
    if o.Low? {
      assert s.owner[Val(s, Mid(o.r, o.i))] == Mid(o.r, o.i);
    }
  }

  lemma GrownRefl(s: Vm, r: nat)
    requires s.owner.Keys == s.mem.Keys
    ensures Grown(s, s, r)
  {
    hide Lookup;
  }

  lemma SelfGrown(s: Vm, r: nat)
    requires Inv(s)
    ensures Grown(s, s, r)
  {
    hide Lookup, Val;
  }

  lemma RootStays(s: Vm, t: Vm, r: nat)
    requires Grown(s, t, r) && IsRoot(s, r)
    ensures IsRoot(t, r)
  {
    hide SameMap;
  }

  /** A missing table hides everything below it. */
  lemma MissingBelow(s: Vm, r: nat, v: nat, level: nat)
    requires level < 2 && Val(s, PosAt(r, v, level)) == 0
    ensures Val(s, LowOf(r, v)) == 0
  {
    hide IsValid, Ppn, Px2, Px1, Px0, IsRoot;
    ZeroInvalid();
  }

  lemma GrownTrans(s: Vm, t: Vm, u: Vm, r: nat)
    requires Grown(s, t, r) && Grown(t, u, r)
    ensures Grown(s, u, r)
  {
    hide Lookup;
  }

  /** Taking a free page, clearing it, and linking it as the table at o. */
  lemma LinkTable(s: Vm, o: Owner, table: nat, i: nat, p: nat)
    requires Inv(s) && i < ENTRIES && EntryAt(s, o, table, i)
    requires p in s.mem && s.owner[p] == Free && !IsValid(TableEntry(s, o))
    ensures table in s.mem && table != p
    ensures var t := Vm(s.mem[p := ZeroPage()][table := s.mem[table][i := MakePte(p, PTE_V)]], s.owner[p := o]);
      Inv(t) && Grown(s, t, o.r) && Val(t, o) == p && SameTables(s, t, o)
  {
    hide IsValid, Ppn, Flags, MakePte, MidEntry, LowEntry, Lookup, Inv;
    EntryOf(s, o, table, i);
    var u := Vm(s.mem[p := ZeroPage()], s.owner[p := Pending]);
    PlainKeeps(s, p, ZeroPage(), Pending);
    assert SameMap(s, u);
    var t := Vm(s.mem[p := ZeroPage()][table := s.mem[table][i := MakePte(p, PTE_V)]], s.owner[p := o]);
    assert t.owner == u.owner[p := o];
    if o.Mid? {
      LinkMid(u, o.r, i, p);
    } else {
      assert Val(u, Mid(o.r, o.i)) == Val(s, Mid(o.r, o.i));
      LinkLow(u, o.r, o.i, i, p);
    }
    assert SameMap(s, t);
  }

  lemma LinkFree(s: Vm, o: Owner, table: nat, p: nat, junk: Page, page: Page, freelist: nat, free: seq<nat>)
    requires table in s.mem && table in s.owner && p in s.mem && table != p && s.owner[table] != Free && o != Free
    requires FreeList(Vm(s.mem[p := junk], s.owner[p := Pending]), freelist, free)
    ensures FreeList(Vm(s.mem[p := ZeroPage()][table := page], s.owner[p := o]), freelist, free)
  {
    hide Listed, ZeroPage;
    FreeFrame(Vm(s.mem[p := junk], s.owner[p := Pending]),
              Vm(s.mem[p := ZeroPage()][table := page], s.owner[p := o]), freelist, free);
  }

  /** What a slot of page v holds, and what its absence means. */
  lemma LeafEntry(s: Vm, r: nat, v: nat)
    requires Inv(s) && v < ALLPAGES
    ensures var low := Val(s, LowOf(r, v));
      && (low == 0 ==> Lookup(s, r, v) == 0)
      && (low != 0 ==> low in s.mem && s.owner[low] == LowOf(r, v)
                       && Lookup(s, r, v) == if IsValid(s.mem[low][Px0(v)]) then s.mem[low][Px0(v)] else 0)
  {
    hide IsValid, Ppn, Flags, MidEntry, LowEntry;
  }

  lemma NextLevel(s: Vm, r: nat, v: nat, level: nat, table: nat)
    requires IsRoot(s, r) && 1 <= level <= 2
    requires if level == 2 then table == r else table == Val(s, PosAt(r, v, 1)) && table != 0
    ensures EntryAt(s, PosAt(r, v, level - 1), table, Px(level, v))
  {
    hide Val, Px2, Px1, Px0;
  }

  /** State after entry i of page p was written. */
  function WithEntry(s: Vm, p: nat, i: nat, pte: nat): Vm {
    if p in s.mem && i < ENTRIES then s.(mem := s.mem[p := s.mem[p][i := pte]]) else s
  }

  /** State after page b was rewritten and changed hands. */
  function WithPage(s: Vm, b: nat, page: Page, o: Owner): Vm {
    Vm(s.mem[b := page], s.owner[b := o])
  }

  function Taken(s: Vm, b: nat, o: Owner): Vm {
    if b in s.owner && s.owner[b] == Pending then s.(owner := s.owner[b := o]) else s
  }

  lemma MappedNone(s: Vm, r: nat, first: nat, ppn: nat, flags: nat)
    requires Inv(s) && flags < 1024
    ensures Mapped(s, s, r, first, 0, ppn, flags)
  {
    hide Lookup, Val, MakePte;
  }

  /** One iteration of mappages. */
  lemma MapStep(s: Vm, u: Vm, r: nat, first: nat, n: nat, ppn: nat, flags: nat)
    requires flags < 1024 && flags % 2 == 1 && Inv(u)
    requires Mapped(s, u, r, first, n, ppn, flags)
    requires first + n < MAXPAGE && Val(u, LowOf(r, first + n)) != 0 && Lookup(u, r, first + n) == 0
    ensures var v, pte := first + n, MakePte(ppn + n, flags);
      var z := Taken(WithEntry(u, Val(u, LowOf(r, v)), Px0(v), pte), ppn + n, Frame(r, v));
      Inv(z) && Mapped(s, z, r, first, n + 1, ppn, flags) && forall o: Owner :: Val(z, o) == Val(u, o)
  {
    hide Lookup, Val, MakePte, Px0, Px1, Px2, Inv, IsValid, Ppn, Flags, MappedPages, MappedOwners;
    var v, pte := first + n, MakePte(ppn + n, flags);
    LeafEntry(u, r, v);
    MapKeeps(u, r, v, pte);
    var low := Val(u, LowOf(r, v));
    var z := Taken(WithEntry(u, low, Px0(v), pte), ppn + n, Frame(r, v));
    MapPagesStep(s, u, z, r, first, n, ppn, flags);
    MapOwnersStep(s, u, z, r, first, n, ppn);
    EntriesGiveVals(u, z);
  }

  lemma EntriesGiveVals(s: Vm, t: Vm)
    requires forall o: Owner :: TableEntry(t, o) == TableEntry(s, o)
    ensures forall o: Owner :: Val(t, o) == Val(s, o)
  {
    hide TableEntry;
  }

  lemma MapPagesStep(s: Vm, u: Vm, z: Vm, r: nat, first: nat, n: nat, ppn: nat, flags: nat)
    requires flags < 1024 && MappedPages(s, u, r, first, n, ppn, flags)
    requires forall q, w ::
      Lookup(z, q, w) == if q == r && w == first + n then MakePte(ppn + n, flags) else Lookup(u, q, w)
    ensures MappedPages(s, z, r, first, n + 1, ppn, flags)
  {
    hide Lookup, MakePte;
  }

  lemma MapOwnersStep(s: Vm, u: Vm, z: Vm, r: nat, first: nat, n: nat, ppn: nat)
    requires MappedOwners(s, u, r, first, n, ppn)
    requires z.owner == Taken(u, ppn + n, Frame(r, first + n)).owner && z.mem.Keys == u.mem.Keys
    requires forall b | b in u.mem && u.owner[b].Plain() :: z.mem[b] == u.mem[b]
    ensures MappedOwners(s, z, r, first, n + 1, ppn)
  {
    forall b | b in s.mem
      ensures z.owner[b] == AfterMapping(s.owner[b], b, r, first, n + 1, ppn)
        || (s.owner[b] == Free && z.owner[b].TableOf(r))
      ensures s.owner[b].Plain() && s.owner[b] != Free ==> z.mem[b] == s.mem[b]
    {
      OwnerStep(s.owner[b], u.owner[b], b, r, first, n, ppn);
    }
  }

  lemma OwnerStep(o: Owner, u: Owner, b: nat, r: nat, first: nat, n: nat, ppn: nat)
    requires u == AfterMapping(o, b, r, first, n, ppn) || (o == Free && u.TableOf(r))
    ensures var z := if b == ppn + n && u == Pending then Frame(r, first + n) else u;
      z == AfterMapping(o, b, r, first, n + 1, ppn) || (o == Free && z.TableOf(r))
  {
  }

  /** Page of the last byte of [va, va + size), in 64-bit arithmetic. */
  function LastPage(va: nat, size: nat): nat {
    (va + size + TWO64 - 1) % TWO64 / PGSIZE
  }

  /** Iterations of uvmunmap's loop over npages pages from va, in 64-bit arithmetic. */
  function Steps(va: nat, npages: nat): nat {
    var limit := (va + npages * PGSIZE) % TWO64;
    if limit <= va then 0 else RoundUp(limit - va)
  }

  lemma StepsExact(va: nat, npages: nat)
    requires va + npages * PGSIZE < TWO64
    ensures Steps(va, npages) == npages
  {
  }

  /** The loop runs as long as there are steps left. */
  lemma NotYet(va: nat, npages: nat, n: nat)
    requires va + n * PGSIZE < (va + npages * PGSIZE) % TWO64
    ensures n < Steps(va, npages)
  {
    BelowRoundUp(n, (va + npages * PGSIZE) % TWO64 - va);
  }

  lemma AllSteps(va: nat, npages: nat, n: nat)
    requires va + n * PGSIZE >= (va + npages * PGSIZE) % TWO64 && n <= Steps(va, npages)
    ensures n == Steps(va, npages)
  {
    var limit := (va + npages * PGSIZE) % TWO64;
    if limit > va {
      AtRoundUp(n, limit - va);
    }
  }

  /** A page count converted to int, then to a 64-bit number. */
  function AsInt(n: nat): nat {
    var k := n % 0x1_0000_0000;
    if k < 0x8000_0000 then k else TWO64 - 0x1_0000_0000 + k
  }

  /** Pages that uvmdealloc removes. */
  function Removed(newsz: nat, oldsz: nat): nat {
    Steps(RoundUp(newsz) * PGSIZE, AsInt(Span(newsz, oldsz)))
  }

  /** They are the pages between the two sizes iff their number, as a 52-bit number, fits an int. */
  lemma RemovedIsSpan(newsz: nat, oldsz: nat)
    requires oldsz <= TWO64 - PGSIZE && newsz <= TWO64 - PGSIZE
    ensures Removed(newsz, oldsz) == Span(newsz, oldsz) <==>
      Span(newsz, oldsz) < 0x8000_0000 || Span(newsz, oldsz) >= 0x10_0000_0000_0000 - 0x8000_0000
  {
    hide RoundUp;
    SizeBound(newsz, oldsz);
    ConvertedCount(RoundUp(newsz), Span(newsz, oldsz));
  }

  lemma RemovedAll(first: nat, v: nat)
    requires first <= v < 0x10_0000_0000_0000 && v - first < 0x8000_0000
    ensures Removed(first * PGSIZE, v * PGSIZE) == v - first
    ensures RoundUp(first * PGSIZE) == first && RoundUp(v * PGSIZE) == v
  {
    assert RoundUp(first * PGSIZE) == first && RoundUp(v * PGSIZE) == v;
    ConvertedCount(first, v - first);
  }

  lemma SizeBound(newsz: nat, oldsz: nat)
    requires oldsz <= TWO64 - PGSIZE && newsz <= TWO64 - PGSIZE
    ensures RoundUp(newsz) + Span(newsz, oldsz) < 0x10_0000_0000_0000
  {
  }

  lemma ConvertedCount(first: nat, n: nat)
    requires first + n < 0x10_0000_0000_0000
    ensures Steps(first * PGSIZE, AsInt(n)) == n <==> n < 0x8000_0000 || n >= 0x10_0000_0000_0000 - 0x8000_0000
  {
    var k := n % 0x1_0000_0000;
    if k < 0x8000_0000 {
      StepsExact(first * PGSIZE, k);
    } else {
      var back := 0x1_0000_0000 - k;
      assert first * PGSIZE + AsInt(n) * PGSIZE == first * PGSIZE - back * PGSIZE + TWO64 * PGSIZE;
      if first >= back {
        StepsBack(first, back);
      } else {
        StepsRound(first, back);
      }
    }
  }

  lemma StepsBack(first: nat, back: nat)
    requires back <= first < 0x10_0000_0000_0000 && back > 0
    ensures Steps(first * PGSIZE, TWO64 - back) == 0
  {
    assert (first * PGSIZE + (TWO64 - back) * PGSIZE) == (first - back) * PGSIZE + TWO64 * PGSIZE;
  }

  lemma StepsRound(first: nat, back: nat)
    requires first < back <= 0x8000_0000
    ensures Steps(first * PGSIZE, TWO64 - back) == 0x10_0000_0000_0000 - back
  {
    assert (first * PGSIZE + (TWO64 - back) * PGSIZE) == TWO64 - (back - first) * PGSIZE + TWO64 * (PGSIZE - 1);
  }

  lemma MappedGrown(s: Vm, t: Vm, u: Vm, r: nat, first: nat, n: nat, ppn: nat, flags: nat)
    requires flags < 1024 && Mapped(s, t, r, first, n, ppn, flags) && Grown(t, u, r)
    ensures Mapped(s, u, r, first, n, ppn, flags)
    ensures forall q | IsRoot(t, q) :: IsRoot(u, q)
  {
    hide Lookup, MakePte, MappedOwners;
    MappedGrownOwners(s, t, u, r, first, n, ppn);
  }

  lemma MappedGrownOwners(s: Vm, t: Vm, u: Vm, r: nat, first: nat, n: nat, ppn: nat)
    requires MappedOwners(s, t, r, first, n, ppn) && Grown(t, u, r)
    ensures MappedOwners(s, u, r, first, n, ppn)
  {
    hide SameMap;
    forall b | b in s.mem
      ensures u.owner[b] == AfterMapping(s.owner[b], b, r, first, n, ppn)
        || (s.owner[b] == Free && u.owner[b].TableOf(r))
      ensures s.owner[b].Plain() && s.owner[b] != Free ==> u.mem[b] == s.mem[b]
    {
      assert t.owner[b] == AfterMapping(s.owner[b], b, r, first, n, ppn)
        || (s.owner[b] == Free && t.owner[b].TableOf(r));
    }
  }

  lemma StillUnmapped(s: Vm, u: Vm, r: nat, first: nat, n: nat, ppn: nat, flags: nat)
    requires flags < 1024 && Mapped(s, u, r, first, n, ppn, flags)
    ensures Lookup(u, r, first + n) == Lookup(s, r, first + n)
  {
    hide Lookup, MakePte;
  }

  lemma ListAfterMap(u: Vm, page: nat, i: nat, pte: nat, b: nat, o: Owner, freelist: nat, free: seq<nat>)
    requires FreeList(u, freelist, free) && page in u.mem && u.owner[page] != Free && o.Frame?
    ensures FreeList(Taken(WithEntry(u, page, i, pte), b, o), freelist, free)
    ensures forall q | IsRoot(u, q) :: IsRoot(Taken(WithEntry(u, page, i, pte), b, o), q)
  {
    hide Listed;
    FreeFrame(u, Taken(WithEntry(u, page, i, pte), b, o), freelist, free);
  }

  lemma UnmappedNone(s: Vm, r: nat, first: nat, to: Owner)
    requires Inv(s)
    ensures Unmapped(s, s, r, first, 0, to)
  {
    hide Lookup, Val;
  }

  /** The frame behind page v of space r is let go of, if the space owned it. */
  function Released(t: Vm, b: nat, o: Owner, page: Page, to: Owner): Vm {
    if b in t.mem && b in t.owner && t.owner[b] == o then WithPage(t, b, page, to) else t
  }

  /** State after page v of space r was unmapped. */
  ghost function Cleared(t: Vm, r: nat, v: nat, page: Page, to: Owner): Vm {
    WithEntry(Released(t, Ppn(Lookup(t, r, v)), Frame(r, v), page, to), Val(t, LowOf(r, v)), Px0(v), 0)
  }

  lemma RootKept(t: Vm, r: nat, v: nat, page: Page, to: Owner)
    requires Inv(t) && IsRoot(t, r) && Val(t, LowOf(r, v)) in t.mem
    ensures IsRoot(Cleared(t, r, v, page, to), r)
  {
    hide Val, Lookup, Ppn, Px0;
  }

  /** What is left to unmap is still as it was. */
  lemma UnmappedRest(s: Vm, t: Vm, r: nat, first: nat, n: nat, npages: nat, to: Owner, release: bool)
    requires Unmapped(s, t, r, first, n, to) && n < npages
    requires release ==> OwnFrames(s, r, first, npages)
    ensures Removable(t, r, first + n, release) == Removable(s, r, first + n, release)
    ensures Removable(t, r, first + n, release) ==> first + n < MAXPAGE && Lookup(t, r, first + n) != 0
    ensures release ==> OwnFrames(t, r, first + n, 1)
  {
    hide Lookup, Ppn, Flags;
    assert Lookup(t, r, first + n) == Lookup(s, r, first + n);
  }

  /** One iteration of uvmunmap. */
  lemma UnmapStep(s: Vm, t: Vm, r: nat, first: nat, n: nat, to: Owner, page: Page)
    requires Inv(s) && Inv(t) && Unmapped(s, t, r, first, n, to)
    requires first + n < MAXPAGE && Lookup(t, r, first + n) != 0
    requires to == Free || to == Pending
    requires to == Pending && Ppn(Lookup(t, r, first + n)) in t.mem ==> page == t.mem[Ppn(Lookup(t, r, first + n))]
    ensures var z := Cleared(t, r, first + n, page, to);
      Inv(z) && Unmapped(s, z, r, first, n + 1, to)
    ensures Val(t, LowOf(r, first + n)) in t.mem
  {
    hide Val, Px0, Px1, Px2, IsValid, Ppn, Flags, Lookup, UnmappedPages, UnmappedOwners, Inv;
    var v := first + n;
    var b := Ppn(Lookup(t, r, v));
    var u := Released(t, b, Frame(r, v), page, to);
    LeafEntry(t, r, v);
    ReleaseKeeps(t, r, v, page, to);
    var low := Val(t, LowOf(r, v));
    UnmapKeeps(u, r, v);
    var z := WithEntry(u, low, Px0(v), 0);
    UnmapPagesStep(s, t, u, z, r, first, n);
    SoleFrame(t, r, v);
    UnmapOwnersStep(s, t, u, z, r, first, n, to, b, page);
  }

  /** At most one page is the frame of page v of space r: the one mapped there. */
  lemma SoleFrame(t: Vm, r: nat, v: nat)
    requires Inv(t)
    ensures forall b | b in t.mem && t.owner[b] == Frame(r, v) :: b == Ppn(Lookup(t, r, v))
  {
    hide Val, Ppn, Lookup;
  }

  lemma ReleaseKeeps(t: Vm, r: nat, v: nat, page: Page, to: Owner)
    requires Inv(t) && (to == Free || to == Pending)
    ensures var u := Released(t, Ppn(Lookup(t, r, v)), Frame(r, v), page, to);
      && Inv(u) && SameMap(t, u)
      && (forall o: Owner :: Val(u, o) == Val(t, o))
      && (forall b | b in u.mem :: u.owner[b] != Frame(r, v))
  {
    hide MidEntry, LowEntry, TableEntry, IsValid, Ppn, Lookup, Inv;
    var b := Ppn(Lookup(t, r, v));
    SoleFrame(t, r, v);
    KeysOf(t);
    if b in t.mem && t.owner[b] == Frame(r, v) {
      PlainKeeps(t, b, page, to);
    }
  }

  lemma KeysOf(s: Vm)
    requires Inv(s)
    ensures s.owner.Keys == s.mem.Keys && 0 !in s.mem
  {
    hide Val, Lookup;
  }

  lemma UnmapPagesStep(s: Vm, t: Vm, u: Vm, z: Vm, r: nat, first: nat, n: nat)
    requires UnmappedPages(s, t, r, first, n) && SameMap(t, u)
    requires forall q, w :: Lookup(z, q, w) == if q == r && w == first + n then 0 else Lookup(u, q, w)
    ensures UnmappedPages(s, z, r, first, n + 1)
  {
    hide Lookup;
  }

  lemma UnmapOwnersStep(s: Vm, t: Vm, u: Vm, z: Vm, r: nat, first: nat, n: nat, to: Owner, b: nat, page: Page)
    requires UnmappedOwners(s, t, r, first, n, to) && (to == Free || to == Pending)
    requires u == Released(t, b, Frame(r, first + n), page, to)
    requires to == Pending && b in t.mem ==> page == t.mem[b]
    requires forall c | c in t.mem && t.owner[c] == Frame(r, first + n) :: c == b
    requires z.owner == u.owner && z.mem.Keys == u.mem.Keys
    requires forall c | c in u.mem && !u.owner[c].TreeOf(r) :: z.mem[c] == u.mem[c]
    ensures UnmappedOwners(s, z, r, first, n + 1, to)
  {
    forall c | c in s.mem
      ensures z.owner[c] == if FrameIn(s.owner[c], r, first, n + 1) then to else s.owner[c]
      ensures z.owner[c] != Free && !z.owner[c].TreeOf(r) ==> z.mem[c] == s.mem[c]
    {
      assert t.owner[c] == if FrameIn(s.owner[c], r, first, n) then to else s.owner[c];
    }
  }

  // ---------------------------------------------------------------- growing and copying

  datatype Content = Content(flags: nat, page: Page)

  /** Page v of space r is mapped to a frame of its own, taken from the free list, with
      the given flags and contents. */
  ghost predicate Fresh(s: Vm, t: Vm, r: nat, v: nat, c: Content) {
    var pte := Lookup(t, r, v);
    && pte != 0 && Flags(pte) == c.flags
    && Ppn(pte) in t.mem && t.mem[Ppn(pte)] == c.page
    && Ppn(pte) in s.owner && s.owner[Ppn(pte)] == Free
    && Ppn(pte) in t.owner && t.owner[Ppn(pte)] == Frame(r, v)
  }

  ghost predicate FreshAt(s: Vm, t: Vm, r: nat, first: nat, want: seq<Content>, w: nat)
    requires first <= w < first + |want|
  {
    Fresh(s, t, r, w, want[w - first])
  }

  /** Exactly the |want| pages from `first` were given fresh frames. */
  ghost predicate Allocated(s: Vm, t: Vm, r: nat, first: nat, want: seq<Content>) {
    && AllocatedPages(s, t, r, first, |want|)
    && (forall w | first <= w < first + |want| :: FreshAt(s, t, r, first, want, w))
    && AllocatedOwners(s, t, r, first, |want|)
  }

  ghost predicate AllocatedPages(s: Vm, t: Vm, r: nat, first: nat, n: nat) {
    forall q: nat, w: nat :: !(q == r && first <= w < first + n) ==> Lookup(t, q, w) == Lookup(s, q, w)
  }

  /** Pages in use stay in use and keep their contents. */
  ghost predicate AllocatedOwners(s: Vm, t: Vm, r: nat, first: nat, n: nat) {
    && t.mem.Keys == s.mem.Keys == s.owner.Keys == t.owner.Keys
    && (forall b | b in s.mem :: t.owner[b] == s.owner[b]
         || (s.owner[b] == Free && (t.owner[b].TableOf(r) || FrameIn(t.owner[b], r, first, n))))
    && (forall b | b in s.mem && s.owner[b].Plain() && s.owner[b] != Free :: t.mem[b] == s.mem[b])
  }

  lemma AllocatedNone(s: Vm, r: nat, first: nat)
    requires Inv(s)
    ensures Allocated(s, s, r, first, [])
  {
    hide Lookup, Val;
  }

  /** A page taken from the free list and filled, then mapped as the next page. */
  lemma AllocStep(s: Vm, t: Vm, z: Vm, r: nat, first: nat, want: seq<Content>, c: Content, p: nat)
    requires Allocated(s, t, r, first, want) && p in t.mem && t.owner[p] == Free && c.flags < 1024 && c.flags % 2 == 1
    requires SameMap(t, WithPage(t, p, c.page, Pending))
    requires Mapped(WithPage(t, p, c.page, Pending), z, r, first + |want|, 1, p, c.flags)
    ensures Allocated(s, z, r, first, want + [c])
  {
    hide Lookup, Ppn, Flags, MakePte, MappedPages, MappedOwners, AllocatedPages, AllocatedOwners, Fresh, SameMap;
    AllocPagesStep(s, t, z, r, first, |want|, c, p);
    AllocOwnersStep(s, t, z, r, first, |want|, c, p);
    assert p in t.owner && c == (want + [c])[|want|] by {
      KeysOfAlloc(s, t, r, first, |want|);
    }
    forall w | first <= w < first + |want + [c]|
      ensures FreshAt(s, z, r, first, want + [c], w)
    {
      if w < first + |want| {
        assert FreshAt(s, t, r, first, want, w) && (want + [c])[w - first] == want[w - first];
        FreshStays(s, t, z, r, first + |want|, w, want[w - first], c, p);
      } else {
        FreshMade(s, t, z, r, first, |want|, c, p);
      }
    }
  }

  lemma AllocPagesStep(s: Vm, t: Vm, z: Vm, r: nat, first: nat, n: nat, c: Content, p: nat)
    requires c.flags < 1024 && AllocatedPages(s, t, r, first, n) && SameMap(t, WithPage(t, p, c.page, Pending))
    requires MappedPages(WithPage(t, p, c.page, Pending), z, r, first + n, 1, p, c.flags)
    ensures AllocatedPages(s, z, r, first, n + 1)
  {
    hide Lookup, MakePte, WithPage;
  }

  lemma AllocOwnersStep(s: Vm, t: Vm, z: Vm, r: nat, first: nat, n: nat, c: Content, p: nat)
    requires AllocatedOwners(s, t, r, first, n) && p in t.mem && t.owner[p] == Free
    requires MappedOwners(WithPage(t, p, c.page, Pending), z, r, first + n, 1, p)
    ensures AllocatedOwners(s, z, r, first, n + 1)
  {
    hide AfterMapping, FrameIn;
    var u := WithPage(t, p, c.page, Pending);
    assert u.owner.Keys == t.owner.Keys && u.mem.Keys == t.mem.Keys;
    forall b | b in s.mem
      ensures z.owner[b] == s.owner[b]
        || (s.owner[b] == Free && (z.owner[b].TableOf(r) || FrameIn(z.owner[b], r, first, n + 1)))
      ensures s.owner[b].Plain() && s.owner[b] != Free ==> z.mem[b] == s.mem[b]
    {
      AllocOwner(s.owner[b], t.owner[b], u.owner[b], z.owner[b], b, r, first, n, p);
    }
  }

  lemma AllocOwner(s: Owner, t: Owner, u: Owner, z: Owner, b: nat, r: nat, first: nat, n: nat, p: nat)
    requires t == s || (s == Free && (t.TableOf(r) || FrameIn(t, r, first, n)))
    requires u == if b == p then Pending else t
    requires b == p ==> t == Free
    requires z == AfterMapping(u, b, r, first + n, 1, p) || (u == Free && z.TableOf(r))
    ensures z == s || (s == Free && (z.TableOf(r) || FrameIn(z, r, first, n + 1)))
  {
  }

  lemma KeysOfAlloc(s: Vm, t: Vm, r: nat, first: nat, n: nat)
    requires AllocatedOwners(s, t, r, first, n)
    ensures t.owner.Keys == t.mem.Keys
  {
  }

  lemma FreshStays(s: Vm, t: Vm, z: Vm, r: nat, next: nat, w: nat, d: Content, c: Content, p: nat)
    requires w < next && Fresh(s, t, r, w, d) && p in t.mem && p in t.owner && t.owner[p] == Free && c.flags < 1024
    requires SameMap(t, WithPage(t, p, c.page, Pending))
    requires Mapped(WithPage(t, p, c.page, Pending), z, r, next, 1, p, c.flags)
    ensures Fresh(s, z, r, w, d)
  {
    hide Ppn, Flags, MakePte, Lookup;
    var u := WithPage(t, p, c.page, Pending);
    assert Lookup(z, r, w) == Lookup(u, r, w) == Lookup(t, r, w);
  }

  lemma FreshMade(s: Vm, t: Vm, z: Vm, r: nat, first: nat, n: nat, c: Content, p: nat)
    requires AllocatedOwners(s, t, r, first, n) && p in t.mem && t.owner[p] == Free
    requires c.flags < 1024 && c.flags % 2 == 1
    requires Mapped(WithPage(t, p, c.page, Pending), z, r, first + n, 1, p, c.flags)
    ensures Fresh(s, z, r, first + n, c)
  {
    hide Ppn, Flags, MakePte, Lookup, IsValid;
    ZeroInvalid();
    assert Lookup(z, r, first + n) == MakePte(p, c.flags);
  }

  /** A page taken but not mapped goes back to the free list. */
  lemma AllocDrop(s: Vm, t: Vm, z: Vm, r: nat, first: nat, want: seq<Content>, c: Content, p: nat, junk: Page)
    requires Allocated(s, t, r, first, want) && p in t.mem && t.owner[p] == Free && c.flags < 1024
    requires SameMap(t, WithPage(t, p, c.page, Pending))
    requires Mapped(WithPage(t, p, c.page, Pending), z, r, first + |want|, 0, p, c.flags)
    requires SameMap(z, WithPage(z, p, junk, Free))
    ensures p in z.mem && z.owner[p] == Pending
    ensures Allocated(s, WithPage(z, p, junk, Free), r, first, want)
  {
    hide Lookup, Ppn, Flags, MakePte, Fresh;
    var u, y := WithPage(t, p, c.page, Pending), WithPage(z, p, junk, Free);
    assert AllocatedPages(s, y, r, first, |want|);
    DropOwners(s, t, z, r, first, |want|, c, p, junk);
    forall w | first <= w < first + |want|
      ensures FreshAt(s, y, r, first, want, w)
    {
      assert FreshAt(s, t, r, first, want, w);
      FreshKept(s, t, z, r, first + |want|, w, want[w - first], c, p, junk);
    }
  }

  lemma FreshKept(s: Vm, t: Vm, z: Vm, r: nat, next: nat, w: nat, d: Content, c: Content, p: nat, junk: Page)
    requires w < next && Fresh(s, t, r, w, d) && p in t.mem && p in t.owner && t.owner[p] == Free && c.flags < 1024
    requires SameMap(t, WithPage(t, p, c.page, Pending)) && SameMap(z, WithPage(z, p, junk, Free))
    requires Mapped(WithPage(t, p, c.page, Pending), z, r, next, 0, p, c.flags)
    ensures Fresh(s, WithPage(z, p, junk, Free), r, w, d)
  {
    hide Ppn, Flags, MakePte, Lookup;
    var u, y := WithPage(t, p, c.page, Pending), WithPage(z, p, junk, Free);
    assert Lookup(y, r, w) == Lookup(z, r, w) == Lookup(u, r, w) == Lookup(t, r, w);
  }

  lemma DropOwners(s: Vm, t: Vm, z: Vm, r: nat, first: nat, n: nat, c: Content, p: nat, junk: Page)
    requires AllocatedOwners(s, t, r, first, n) && p in t.mem && t.owner[p] == Free
    requires MappedOwners(WithPage(t, p, c.page, Pending), z, r, first + n, 0, p)
    ensures p in z.mem && z.owner[p] == Pending
    ensures AllocatedOwners(s, WithPage(z, p, junk, Free), r, first, n)
  {
    var u, y := WithPage(t, p, c.page, Pending), WithPage(z, p, junk, Free);
    forall b | b in s.mem
      ensures y.owner[b] == s.owner[b]
        || (s.owner[b] == Free && (y.owner[b].TableOf(r) || FrameIn(y.owner[b], r, first, n)))
      ensures s.owner[b].Plain() && s.owner[b] != Free ==> y.mem[b] == s.mem[b]
    {
      assert z.owner[b] == AfterMapping(u.owner[b], b, r, first + n, 0, p)
        || (u.owner[b] == Free && z.owner[b].TableOf(r));
    }
  }

  /** Fresh frames can be unmapped and freed again. */
  lemma FreshRemovable(s: Vm, t: Vm, r: nat, first: nat, want: seq<Content>)
    requires Allocated(s, t, r, first, want) && forall w | first <= w < first + |want| :: Mappable(s, r, w)
    ensures OwnFrames(t, r, first, |want|)
    ensures (forall k | 0 <= k < |want| :: want[k].flags != PTE_V) ==>
      forall w | first <= w < first + |want| :: Removable(t, r, w, true)
  {
    hide Ppn, Flags, Lookup, AllocatedPages, AllocatedOwners;
    forall w | first <= w < first + |want|
      ensures Ppn(Lookup(t, r, w)) in t.owner && t.owner[Ppn(Lookup(t, r, w))] == Frame(r, w)
      ensures want[w - first].flags != PTE_V ==> Removable(t, r, w, true)
    {
      assert FreshAt(s, t, r, first, want, w) && Mappable(s, r, w);
    }
  }

  /** Giving all fresh frames back restores every address map and every page in use. */
  lemma AllocUndo(s: Vm, t: Vm, z: Vm, r: nat, first: nat, n: nat)
    requires Inv(s) && AllocatedPages(s, t, r, first, n) && AllocatedOwners(s, t, r, first, n)
    requires Unmapped(t, z, r, first, n, Free)
    requires forall w | first <= w < first + n :: Mappable(s, r, w)
    ensures Grown(s, z, r)
  {
    hide Lookup, AllocatedOwners, UnmappedOwners, Inv;
    forall q: nat, w: nat
      ensures Lookup(z, q, w) == Lookup(s, q, w)
    {
      assert first <= w < first + n ==> Mappable(s, r, w);
    }
    UndoOwners(s, t, z, r, first, n);
  }

  lemma UndoOwners(s: Vm, t: Vm, z: Vm, r: nat, first: nat, n: nat)
    requires Inv(s) && AllocatedOwners(s, t, r, first, n) && UnmappedOwners(t, z, r, first, n, Free)
    requires forall w | first <= w < first + n :: Mappable(s, r, w)
    ensures z.mem.Keys == s.mem.Keys == s.owner.Keys == z.owner.Keys
    ensures forall b | b in s.mem :: z.owner[b] == s.owner[b] || (s.owner[b] == Free && z.owner[b].TableOf(r))
    ensures forall b | b in s.mem && s.owner[b].Plain() && s.owner[b] != Free :: z.mem[b] == s.mem[b]
  {
    hide Lookup, Inv;
    forall b | b in s.mem
      ensures z.owner[b] == s.owner[b] || (s.owner[b] == Free && z.owner[b].TableOf(r))
      ensures s.owner[b].Plain() && s.owner[b] != Free ==> z.mem[b] == s.mem[b]
    {
      NotOwnedThere(s, b, r, first, n);
    }
  }

  lemma NotOwnedThere(s: Vm, b: nat, r: nat, first: nat, n: nat)
    requires Inv(s) && b in s.mem && forall w | first <= w < first + n :: Mappable(s, r, w)
    ensures !FrameIn(s.owner[b], r, first, n)
  {
    hide Lookup, Val, Ppn, Flags;
    if s.owner[b].Frame? {
      assert first <= s.owner[b].v < first + n ==> Mappable(s, r, s.owner[b].v);
    }
  }

  lemma SameBeyond(s: Vm, t: Vm, r: nat, first: nat, want: seq<Content>)
    requires Allocated(s, t, r, first, want)
    ensures Lookup(t, r, first + |want|) == Lookup(s, r, first + |want|)
  {
    hide Lookup, AllocatedOwners, FreshAt;
  }

  lemma RootsAfterPage(t: Vm, p: nat, page: Page, o: Owner)
    requires p in t.owner && t.owner[p].Plain()
    ensures forall q | IsRoot(t, q) :: IsRoot(WithPage(t, p, page, o), q)
  {
  }

  lemma GiveBack(t: Vm, z: Vm, r: nat, v: nat, c: Content, p: nat)
    requires c.flags < 1024 && Mapped(WithPage(t, p, c.page, Pending), z, r, v, 0, p, c.flags)
    ensures p in z.mem && p in z.owner && z.owner[p] == Pending
  {
    hide MappedPages;
  }

  lemma OnePage(v: nat)
    requires v < MAXPAGE
    ensures LastPage(v * PGSIZE, PGSIZE) == v
  {
    assert v * PGSIZE + PGSIZE + TWO64 - 1 == TWO64 + (v * PGSIZE + PGSIZE - 1);
  }

  lemma RootMapped(u: Vm, z: Vm, q: nat, r: nat, first: nat, n: nat, ppn: nat, flags: nat)
    requires flags < 1024 && Mapped(u, z, r, first, n, ppn, flags) && IsRoot(u, q)
    ensures IsRoot(z, q)
  {
    hide MappedPages;
  }

  /** Pages between two sizes. */
  function Span(small: nat, large: nat): nat {
    if RoundUp(small) < RoundUp(large) then RoundUp(large) - RoundUp(small) else 0
  }

  /** n pages of zeroes with user permissions. */
  function Zeroed(n: nat): (z: seq<Content>)
    ensures |z| == n && forall k | 0 <= k < n :: z[k] == Content(31, ZeroPage())
  {
    if n == 0 then [] else Zeroed(n - 1) + [Content(31, ZeroPage())]
  }

  ghost predicate Mappable(s: Vm, r: nat, w: nat) {
    w < MAXPAGE && Lookup(s, r, w) == 0
  }

  lemma RoundUpMonotone(a: nat, b: nat)
    requires a <= b
    ensures RoundUp(a) <= RoundUp(b)
  {
  }

  lemma BelowRoundUp(v: nat, size: nat)
    requires v * PGSIZE < size
    ensures v < RoundUp(size)
  {
  }

  lemma AtRoundUp(v: nat, size: nat)
    requires v * PGSIZE >= size
    ensures v >= RoundUp(size)
  {
  }

  lemma ZeroedNext(n: nat)
    ensures Zeroed(n) + [Content(WithValid(USER_FLAGS), ZeroPage())] == Zeroed(n + 1)
  {
  }

  lemma AllocParts(s: Vm, t: Vm, r: nat, first: nat, want: seq<Content>)
    requires Allocated(s, t, r, first, want)
    ensures AllocatedPages(s, t, r, first, |want|) && AllocatedOwners(s, t, r, first, |want|)
  {
  }

  /** The frame behind page w is memory in use, so it is not written by the copy. */
  ghost predicate Backed(s: Vm, r: nat, w: nat) {
    var b := Ppn(Lookup(s, r, w));
    b in s.mem && b in s.owner && s.owner[b].Plain() && s.owner[b] != Free
  }

  ghost predicate Copyable(s: Vm, src: nat, dst: nat, w: nat) {
    Mappable(s, dst, w) && Lookup(s, src, w) != 0 && Backed(s, src, w)
  }

  /** Copying page w meets no panic, and neither does undoing it. */
  ghost predicate CleanlyCopyable(s: Vm, src: nat, dst: nat, w: nat) {
    Copyable(s, src, dst, w) && Flags(Lookup(s, src, w)) != PTE_V
  }

  /** Flags and contents of page w of a space. */
  ghost function PageAt(s: Vm, r: nat, w: nat): Content {
    var pte := Lookup(s, r, w);
    Content(Flags(pte), if Ppn(pte) in s.mem then s.mem[Ppn(pte)] else ZeroPage())
  }

  /** The first n pages of a space. */
  ghost function CopyOf(s: Vm, src: nat, n: nat): (c: seq<Content>)
    ensures |c| == n && forall w | 0 <= w < n :: c[w] == PageAt(s, src, w)
  {
    if n == 0 then [] else CopyOf(s, src, n - 1) + [PageAt(s, src, n - 1)]
  }

  lemma ValidFlags(pte: nat)
    requires IsValid(pte)
    ensures Flags(pte) < 1024 && WithValid(Flags(pte)) == Flags(pte) && pte != 0
  {
    assert pte % 1024 % 2 == pte % 2;
  }

  /** The copy has not touched the page to be copied next. */
  lemma SourceSame(s: Vm, t: Vm, src: nat, dst: nat, v: nat, want: seq<Content>)
    requires src != dst && Allocated(s, t, dst, 0, want)
    requires Lookup(s, src, v) != 0 ==> Backed(s, src, v)
    ensures Lookup(t, src, v) == Lookup(s, src, v)
    ensures Lookup(s, src, v) != 0 ==>
      Ppn(Lookup(s, src, v)) in t.mem && t.mem[Ppn(Lookup(s, src, v))] == s.mem[Ppn(Lookup(s, src, v))]
  {
    hide Lookup, Ppn, FreshAt;
  }

  lemma UndoCopy(s: Vm, u: Vm, src: nat, dst: nat, v: nat)
    requires forall w | 0 <= w < v :: Copyable(s, src, dst, w)
    requires Allocated(s, u, dst, 0, CopyOf(s, src, v))
    ensures OwnFrames(u, dst, 0, v)
    ensures forall w | 0 <= w < v :: Mappable(s, dst, w)
    ensures (forall w | 0 <= w < v :: CleanlyCopyable(s, src, dst, w)) ==>
      forall w | 0 <= w < v :: Removable(u, dst, w, true)
  {
    hide Lookup, Ppn, Flags, Allocated, Fresh, OwnFrames, Removable;
    forall w | 0 <= w < v
      ensures Mappable(s, dst, w)
    {
      assert Copyable(s, src, dst, w);
    }
    FreshRemovable(s, u, dst, 0, CopyOf(s, src, v));
    assert forall k | 0 <= k < v :: CleanlyCopyable(s, src, dst, k) ==> CopyOf(s, src, v)[k].flags != PTE_V;
  }

  lemma RestUnmapped(s: Vm, t: Vm, r: nat, n: nat)
    requires Unmapped(s, t, r, 0, n, Free)
    ensures (forall w :: Lookup(t, r, w) == 0) <==> (forall w: nat | w >= n :: Lookup(s, r, w) == 0)
  {
    hide Lookup, UnmappedOwners;
  }

  /** Freed frames and freed tables together are all pages of the space. */
  lemma AllFreed(s: Vm, t: Vm, u: Vm, z: Vm, r: nat, n: nat)
    requires Inv(t) && IsRoot(t, r) && Unmapped(s, t, r, 0, n, Free) && u == Vm(t.mem, t.owner[r := Pending])
    requires Emptied(u, z, r, Root(r)) && forall w :: Lookup(t, r, w) == 0
    ensures SpaceFreed(s, z, r)
  {
    hide Lookup, UnmappedPages, Inv, FrameIn, Below;
    assert r in s.mem;
    forall b | b in s.mem
      ensures z.owner[b] == if s.owner[b].Of(r) then Free else s.owner[b]
      ensures z.owner[b] != Free ==> z.mem[b] == s.mem[b]
    {
      NoFrameLeft(t, r, b);
      FreedOwner(s.owner[b], t.owner[b], u.owner[b], z.owner[b], b, r, n);
    }
  }

  lemma FreedOwner(s: Owner, t: Owner, u: Owner, z: Owner, b: nat, r: nat, n: nat)
    requires t == if FrameIn(s, r, 0, n) then Free else s
    requires u == if b == r then Pending else t
    requires z == if b == r || Below(Root(r), u, 0) then Free else u
    requires (t.Frame? ==> t.r != r) && (t == Root(r) <==> b == r)
    ensures z == if s.Of(r) then Free else s
    ensures z != Free ==> b != r && !Below(Root(r), u, 0) && !t.TreeOf(r)
  {
  }

  lemma NoFrameLeft(t: Vm, r: nat, b: nat)
    requires Inv(t) && IsRoot(t, r) && b in t.mem && forall w :: Lookup(t, r, w) == 0
    ensures t.owner[b].Frame? ==> t.owner[b].r != r
    ensures t.owner[b] == Root(r) ==> b == r
  {
    hide Lookup, Val;
  }

  /** A cleared free page can serve as the root of a new, empty address space. */
  lemma NewRoot(s: Vm, r: nat)
    requires Inv(s) && r in s.mem && s.owner[r] == Free
    ensures var t := WithPage(s, r, ZeroPage(), Root(r));
      Inv(t) && IsRoot(t, r) && SameMap(s, t) && (forall w :: Lookup(t, r, w) == 0)
  {
    hide IsValid, Ppn, Flags, Px0, Px1, Px2, Inv, Lookup;
    var u, t := WithPage(s, r, ZeroPage(), Pending), WithPage(s, r, ZeroPage(), Root(r));
    PlainKeeps(s, r, ZeroPage(), Pending);
    RootTables(u, t, r);
    assert SameMap(u, t);
  }

  lemma RootTables(u: Vm, t: Vm, r: nat)
    requires Inv(u) && r in u.mem && u.owner[r] == Pending && u.mem[r] == ZeroPage()
    requires t.mem == u.mem && t.owner == u.owner[r := Root(r)]
    ensures Inv(t) && SameMap(u, t) && (forall w :: Lookup(t, r, w) == 0)
  {
    hide IsValid, Ppn, Flags, Px0, Px1, Px2;
    ZeroInvalid();
    assert forall q :: IsRoot(t, q) <==> IsRoot(u, q) || q == r;
    forall o: Owner
      ensures TableEntry(t, o) == TableEntry(u, o) && (o.Of(r) ==> TableEntry(t, o) == 0)
    {
    }
    RootInv(u, t, r);
  }

  lemma RootInv(u: Vm, t: Vm, r: nat)
    requires Inv(u) && r in u.mem && u.owner[r] == Pending
    requires t.mem == u.mem && t.owner == u.owner[r := Root(r)]
    requires forall o: Owner :: TableEntry(t, o) == TableEntry(u, o)
    ensures Inv(t)
  {
    hide IsValid, Ppn, Flags, Px0, Px1, Px2, MidEntry, LowEntry, TableEntry;
    SameEverywhere(u, t);
    assert forall o: Owner :: Val(t, o) == Val(u, o);
    forall b | b in t.mem && t.owner[b].Frame?
      ensures Lookup(t, t.owner[b].r, t.owner[b].v) != 0 && Ppn(Lookup(t, t.owner[b].r, t.owner[b].v)) == b
    {
      assert t.owner[b] == u.owner[b];
    }
    forall o: Owner
      ensures Val(t, o) != 0 ==> Val(t, o) in t.mem && t.owner[Val(t, o)] == o && Flags(TableEntry(t, o)) == PTE_V
      ensures IsValid(TableEntry(t, o)) ==> Val(t, o) != 0
    {
      assert TableEntry(t, o) == TableEntry(u, o);
      NotPending(u, o);
    }
  }

  lemma NotPending(u: Vm, o: Owner)
    requires Inv(u)
    ensures Val(u, o) != 0 ==> Val(u, o) in u.mem && u.owner[Val(u, o)] == o && o != Pending
  {
    hide IsValid, Ppn, Flags, MidEntry, LowEntry, Lookup;
    ZeroInvalid();
  }

  lemma SameEverywhere(u: Vm, t: Vm)
    requires t.mem == u.mem && forall o: Owner :: TableEntry(t, o) == TableEntry(u, o)
    ensures SameMap(u, t)
  {
    hide IsValid, Ppn, TableEntry, Px0, Px1, Px2;
  }

  lemma NothingFree(s: Vm)
    requires s.owner.Keys == s.mem.Keys && 0 !in s.mem && forall b | b in s.mem :: s.owner[b] == Pending
    ensures FreeList(s, 0, [])
  {
  }

  /** Without roots there are no tables and no mappings. */
  lemma AllPlain(s: Vm)
    requires s.owner.Keys == s.mem.Keys && 0 !in s.mem && forall b | b in s.mem :: s.owner[b] == Free
    ensures Inv(s)
  {
    hide Ppn, Flags, Px0, Px1, Px2;
    ZeroInvalid();
  }
}
