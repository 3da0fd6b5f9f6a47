/** Sv39 page tables in physical memory: entries, the three-level tree, and the
    ownership of every physical page. */
module PageTable {
  const PGSIZE: nat := 4096
  const ENTRIES: nat := 512
  const PTE_V: nat := 1
  const MAXVA: nat := 0x40_0000_0000
  /** Pages below MAXVA. */
  const MAXPAGE: nat := 0x400_0000
  /** Pages that the three levels can express. */
  const ALLPAGES: nat := 0x800_0000

  /** A page of physical memory as 64-bit words. */
  type Page = p: seq<nat> | |p| == 512 witness seq(512, _ => 0)

  function ZeroPage(): (p: Page)
    ensures forall i | 0 <= i < ENTRIES :: p[i] == 0
  {
    seq(512, _ => 0)
  }

  // ---------------------------------------------------------------- entries

  predicate IsValid(pte: nat) {
    pte % 2 == 1
  }

  /** Physical page number of an entry: PTE2PA without the shift back. */
  function Ppn(pte: nat): nat {
    pte / 1024
  }

  function Flags(pte: nat): nat {
    pte % 1024
  }

  /** `PA2PTE(pa) | flags`. */
  function MakePte(ppn: nat, flags: nat): (pte: nat)
    requires flags < 1024
    ensures Ppn(pte) == ppn && Flags(pte) == flags
    ensures IsValid(pte) <==> flags % 2 == 1
  {
    1024 * ppn + flags
  }

  /** `perm | PTE_V`. */
  function WithValid(perm: nat): (f: nat)
    requires perm < 1024
    ensures f < 1024 && f % 2 == 1
    ensures perm % 2 == 1 ==> f == perm
  {
    if perm % 2 == 1 then perm else perm + 1
  }

  // ---------------------------------------------------------------- virtual pages

  /** The three 9-bit indices of a page number (PX of its address). */
  function Px2(v: nat): (i: nat)
    ensures i < ENTRIES
  {
    v / 0x4_0000 % ENTRIES
  }

  function Px1(v: nat): (i: nat)
    ensures i < ENTRIES
  {
    v / ENTRIES % ENTRIES
  }

  function Px0(v: nat): (i: nat)
    ensures i < ENTRIES
  {
    v % ENTRIES
  }

  /** Page number with the given indices. */
  function PageOf(i: nat, j: nat, k: nat): nat {
    0x4_0000 * i + ENTRIES * j + k
  }

  /** Below MAXVA the indices determine the page and the page the indices. */
  lemma IndicesRoundTrip(v: nat)
    requires v < ALLPAGES
    ensures PageOf(Px2(v), Px1(v), Px0(v)) == v
  {
    assert v / ENTRIES / ENTRIES == v / 0x4_0000;
  }

  lemma PageOfRoundTrip(i: nat, j: nat, k: nat)
    requires i < ENTRIES && j < ENTRIES && k < ENTRIES
    ensures Px2(PageOf(i, j, k)) == i && Px1(PageOf(i, j, k)) == j && Px0(PageOf(i, j, k)) == k
  {
    DivMod(ENTRIES * i + j, k);
    DivMod(i, j);
    ThirdIndex(i, ENTRIES * j + k);
    assert PageOf(i, j, k) == ENTRIES * (ENTRIES * i + j) + k;
  }

  lemma DivMod(a: nat, b: nat)
    requires b < ENTRIES
    ensures (ENTRIES * a + b) / ENTRIES == a && (ENTRIES * a + b) % ENTRIES == b
  {
  }

  lemma ThirdIndex(i: nat, rest: nat)
    requires i < ENTRIES && rest < 0x4_0000
    ensures (0x4_0000 * i + rest) / 0x4_0000 % ENTRIES == i
  {
  }

  // ---------------------------------------------------------------- physical pages

  /** What a physical page is for. Address spaces are named by their root page. */
  datatype Owner =
    | Free
    | Other                              // outside this model: kernel stacks, pipes
    | Pending                            // allocated, not yet linked
    | Root(r: nat)
    | Mid(r: nat, i: nat)                // table behind entry i of the root
    | Low(r: nat, i: nat, j: nat)        // table behind entry j of Mid(r, i)
    | Frame(r: nat, v: nat)              // memory mapped at page v
  {
    predicate Table() {
      Mid? || Low?
    }

    /** A table of space q below its root. */
    predicate TableOf(q: nat) {
      Table() && r == q
    }

    /** Not part of a page-table tree. */
    predicate Plain() {
      !Root? && !Mid? && !Low?
    }

    /** A page of the tree of space q. */
    predicate TreeOf(q: nat) {
      (Root? || Mid? || Low?) && r == q
    }

    /** Belongs to address space q. */
    predicate Of(q: nat) {
      (Root? || Mid? || Low? || Frame?) && r == q
    }
  }

  datatype Vm = Vm(mem: map<nat, Page>, owner: map<nat, Owner>)

  ghost predicate IsRoot(s: Vm, r: nat) {
    r in s.mem && r in s.owner && s.owner[r] == Root(r)
  }

  function Entry(s: Vm, p: nat, i: nat): nat {
    if p in s.mem && i < ENTRIES then s.mem[p][i] else 0
  }

  /** The page an entry leads to, 0 when it is not valid. */
  function Target(pte: nat): nat {
    if IsValid(pte) then Ppn(pte) else 0
  }

  /** Entry i of the root of space r. */
  ghost function MidEntry(s: Vm, r: nat, i: nat): nat {
    if IsRoot(s, r) then Entry(s, r, i) else 0
  }

  /** Entry j of the table behind entry i of the root. */
  ghost function LowEntry(s: Vm, r: nat, i: nat, j: nat): nat {
    var m := Target(MidEntry(s, r, i));
    if m == 0 then 0 else Entry(s, m, j)
  }

  /** The entry that leads to a position of the tree. */
  ghost function TableEntry(s: Vm, o: Owner): nat {
    match o
    case Mid(r, i) => MidEntry(s, r, i)
    case Low(r, i, j) => LowEntry(s, r, i, j)
    case _ => 0
  }

  /** The table page at a position of the tree, 0 when there is none. */
  ghost function Val(s: Vm, o: Owner): nat {
    Target(TableEntry(s, o))
  }

  /** Position of the last-level table for page v of space r. */
  function LowOf(r: nat, v: nat): Owner {
    Low(r, Px2(v), Px1(v))
  }

  /** The address map of space r: the valid leaf entry of page v, 0 if unmapped. */
  ghost function Lookup(s: Vm, r: nat, v: nat): nat {
    var low := Val(s, LowOf(r, v));
    if low == 0 || v >= ALLPAGES then 0
    else
      var pte := Entry(s, low, Px0(v));
      if IsValid(pte) then pte else 0
  }

  /** Every page has one owner; every table page sits at the position that owns it,
      behind an entry without permission bits; every owned frame is mapped where its
      owner says. */
  ghost predicate Inv(s: Vm) {
    && s.owner.Keys == s.mem.Keys
    && 0 !in s.mem
    && (forall o: Owner :: Val(s, o) != 0 ==> Val(s, o) in s.mem && s.owner[Val(s, o)] == o)
    && (forall o: Owner :: Val(s, o) != 0 ==> Flags(TableEntry(s, o)) == PTE_V)
    && (forall o: Owner :: IsValid(TableEntry(s, o)) ==> Val(s, o) != 0)
    && (forall b | b in s.mem && s.owner[b].Table() :: Val(s, s.owner[b]) == b)
    && (forall b | b in s.mem && s.owner[b].Root? :: s.owner[b].r == b)
    && (forall b | b in s.mem && s.owner[b].Frame? ::
         Lookup(s, s.owner[b].r, s.owner[b].v) != 0 && Ppn(Lookup(s, s.owner[b].r, s.owner[b].v)) == b)
  }

  // ---------------------------------------------------------------- what the invariant means

  /** Distinct pages of distinct or equal address spaces never share an entry. */
  lemma EntriesDistinct(s: Vm, r: nat, v: nat, q: nat, w: nat)
    requires Inv(s) && v < ALLPAGES && w < ALLPAGES
    requires Val(s, LowOf(r, v)) != 0 && (r, v) != (q, w)
    ensures (Val(s, LowOf(r, v)), Px0(v)) != (Val(s, LowOf(q, w)), Px0(w))
  {
    hide Val;
    IndicesRoundTrip(v);
    IndicesRoundTrip(w);
  }

  // ---------------------------------------------------------------- changing the tree

  /** Two states with the same tables, except at position o. */
  ghost predicate SameTables(s: Vm, t: Vm, o: Owner) {
    forall p: Owner | p != o :: TableEntry(t, p) == TableEntry(s, p)
  }

  /** Linking a fresh table page p at the empty position o. */
  lemma LinkKeeps(s: Vm, t: Vm, o: Owner, p: nat)
    requires Inv(s) && o.Table() && Val(s, o) == 0
    requires p in s.mem && s.owner[p] == Pending
    requires t.mem.Keys == s.mem.Keys && t.owner == s.owner[p := o]
    requires Val(t, o) == p && Flags(TableEntry(t, o)) == PTE_V
    requires SameTables(s, t, o)
    requires forall q, w :: Lookup(t, q, w) == Lookup(s, q, w)
    ensures Inv(t)
  {
    hide MidEntry, LowEntry, Lookup, IsValid, Ppn, Flags;
    ZeroInvalid();
    forall q: Owner
      ensures Val(t, q) != 0 ==> Val(t, q) in t.mem && t.owner[Val(t, q)] == q && Flags(TableEntry(t, q)) == PTE_V
      ensures IsValid(TableEntry(t, q)) ==> Val(t, q) != 0
    {
      if q != o {
        assert TableEntry(t, q) == TableEntry(s, q);
        assert Val(s, q) != 0 ==> Val(s, q) in s.mem && s.owner[Val(s, q)] == q;
      }
    }
    forall b | b in t.mem && t.owner[b].Table()
      ensures Val(t, t.owner[b]) == b
    {
      if b != p {
        assert Val(s, s.owner[b]) == b;
        assert TableEntry(t, s.owner[b]) == TableEntry(s, s.owner[b]);
      }
    }
    forall b | b in t.mem && t.owner[b].Frame?
      ensures Lookup(t, t.owner[b].r, t.owner[b].v) != 0 && Ppn(Lookup(t, t.owner[b].r, t.owner[b].v)) == b
    {
      assert s.owner[b] == t.owner[b];
    }
  }

  /** A new second-level table behind entry i of the root. */
  lemma LinkMid(s: Vm, r: nat, i: nat, p: nat)
    requires Inv(s) && IsRoot(s, r) && i < ENTRIES && !IsValid(s.mem[r][i])
    requires p in s.mem && s.owner[p] == Pending && s.mem[p] == ZeroPage()
    ensures var t := Vm(s.mem[r := s.mem[r][i := MakePte(p, PTE_V)]], s.owner[p := Mid(r, i)]);
      && Inv(t) && Val(t, Mid(r, i)) == p && SameTables(s, t, Mid(r, i))
      && (forall q, w :: Lookup(t, q, w) == Lookup(s, q, w))
  {
    hide IsValid, Ppn, Flags, MakePte, Px2, Px1, Px0;
    var t := Vm(s.mem[r := s.mem[r][i := MakePte(p, PTE_V)]], s.owner[p := Mid(r, i)]);
    assert forall q :: IsRoot(t, q) == IsRoot(s, q);
    assert Val(t, Mid(r, i)) == p;
    ZeroInvalid();
    forall o: Owner | o != Mid(r, i)
      ensures TableEntry(t, o) == TableEntry(s, o)
    {
      if o.Low? {
        LowEntryAfterMid(s, t, r, i, p, o.r, o.i, o.j);
      }
    }
    forall q: nat, w: nat
      ensures Lookup(t, q, w) == Lookup(s, q, w)
    {
      var o := LowOf(q, w);
      assert TableEntry(t, o) == TableEntry(s, o);
      if Val(s, o) != 0 {
        assert s.owner[Val(s, o)] == o;
      }
    }
    LinkKeeps(s, t, Mid(r, i), p);
  }

  lemma ZeroInvalid()
    ensures !IsValid(0) && Target(0) == 0
  {
  }

  lemma LowEntryAfterMid(s: Vm, t: Vm, r: nat, i: nat, p: nat, q: nat, i': nat, j: nat)
    requires Inv(s) && IsRoot(s, r) && i < ENTRIES && !IsValid(s.mem[r][i])
    requires p in s.mem && s.owner[p] == Pending && s.mem[p] == ZeroPage()
    requires t == Vm(s.mem[r := s.mem[r][i := MakePte(p, PTE_V)]], s.owner[p := Mid(r, i)])
    ensures Target(LowEntry(t, q, i', j)) == Target(LowEntry(s, q, i', j))
    ensures LowEntry(t, q, i', j) == LowEntry(s, q, i', j)
  {
    hide IsValid, Ppn, Flags, MakePte;
    ZeroInvalid();
    if IsRoot(s, q) {
      assert Val(s, Mid(q, i')) == Target(MidEntry(s, q, i'));
    }
  }

  /** A new last-level table behind entry j of the table at Mid(r, i). */
  lemma LinkLow(s: Vm, r: nat, i: nat, j: nat, p: nat)
    requires Inv(s) && j < ENTRIES && Val(s, Mid(r, i)) != 0
    requires !IsValid(s.mem[Val(s, Mid(r, i))][j])
    requires p in s.mem && s.owner[p] == Pending && s.mem[p] == ZeroPage()
    ensures var m := Val(s, Mid(r, i));
      var t := Vm(s.mem[m := s.mem[m][j := MakePte(p, PTE_V)]], s.owner[p := Low(r, i, j)]);
      && Inv(t) && Val(t, Low(r, i, j)) == p && SameTables(s, t, Low(r, i, j))
      && (forall q, w :: Lookup(t, q, w) == Lookup(s, q, w))
  {
    hide IsValid, Ppn, Flags, MakePte, Px2, Px1, Px0;
    var m := Val(s, Mid(r, i));
    var t := Vm(s.mem[m := s.mem[m][j := MakePte(p, PTE_V)]], s.owner[p := Low(r, i, j)]);
    ZeroInvalid();
    TablesAfterLow(s, t, r, i, j, p);
    MapAfterLow(s, t, r, i, j, p);
    LinkKeeps(s, t, Low(r, i, j), p);
  }

  lemma MapAfterLow(s: Vm, t: Vm, r: nat, i: nat, j: nat, p: nat)
    requires Inv(s) && p in s.mem && s.owner[p] == Pending && s.mem[p] == ZeroPage()
    requires Val(s, Low(r, i, j)) == 0 && Val(t, Low(r, i, j)) == p && SameTables(s, t, Low(r, i, j))
    requires t.mem.Keys == s.mem.Keys
    requires forall b | b in s.mem && s.owner[b] != Mid(r, i) :: t.mem[b] == s.mem[b]
    ensures forall q, w :: Lookup(t, q, w) == Lookup(s, q, w)
  {
    hide IsValid, Ppn, Flags, MakePte, Px2, Px1, Px0, MidEntry, LowEntry;
    ZeroInvalid();
    forall q: nat, w: nat
      ensures Lookup(t, q, w) == Lookup(s, q, w)
    {
      var o := LowOf(q, w);
      if o != Low(r, i, j) {
        assert TableEntry(t, o) == TableEntry(s, o);
        assert Val(s, o) != 0 ==> s.owner[Val(s, o)] == o;
      }
    }
  }

  lemma TablesAfterLow(s: Vm, t: Vm, r: nat, i: nat, j: nat, p: nat)
    requires Inv(s) && j < ENTRIES && Val(s, Mid(r, i)) != 0
    requires p in s.mem && s.owner[p] == Pending
    requires var m := Val(s, Mid(r, i));
      t == Vm(s.mem[m := s.mem[m][j := MakePte(p, PTE_V)]], s.owner[p := Low(r, i, j)])
    ensures TableEntry(t, Low(r, i, j)) == MakePte(p, PTE_V) && SameTables(s, t, Low(r, i, j))
  {
    hide IsValid, Ppn, Flags, MakePte, LowEntry, Inv;
    forall o: Owner
      ensures o.Mid? ==> TableEntry(t, o) == TableEntry(s, o)
      ensures o.Low? ==> TableEntry(t, o) == if o == Low(r, i, j) then MakePte(p, PTE_V) else TableEntry(s, o)
    {
      if o.Mid? || o.Low? {
        MidEntryAfterLow(s, t, r, i, j, p, o.r, o.i);
      }
      if o.Low? {
        LowEntryAfterLow(s, t, r, i, j, p, o.r, o.i, o.j);
      }
    }
  }

  lemma MidEntryAfterLow(s: Vm, t: Vm, r: nat, i: nat, j: nat, p: nat, q: nat, i': nat)
    requires Inv(s) && j < ENTRIES && Val(s, Mid(r, i)) != 0
    requires p in s.mem && s.owner[p] == Pending
    requires var m := Val(s, Mid(r, i));
      t == Vm(s.mem[m := s.mem[m][j := MakePte(p, PTE_V)]], s.owner[p := Low(r, i, j)])
    ensures MidEntry(t, q, i') == MidEntry(s, q, i')
  {
    hide IsValid, Ppn, Flags, MakePte, LowEntry, Lookup;
    assert IsRoot(s, q) ==> q != Val(s, Mid(r, i));
  }

  lemma LowEntryAfterLow(s: Vm, t: Vm, r: nat, i: nat, j: nat, p: nat, q: nat, i': nat, j': nat)
    requires Inv(s) && j < ENTRIES && Val(s, Mid(r, i)) != 0
    requires p in s.mem && s.owner[p] == Pending
    requires var m := Val(s, Mid(r, i));
      t == Vm(s.mem[m := s.mem[m][j := MakePte(p, PTE_V)]], s.owner[p := Low(r, i, j)])
    requires MidEntry(t, q, i') == MidEntry(s, q, i')
    ensures LowEntry(t, q, i', j') == if (q, i', j') == (r, i, j) then MakePte(p, PTE_V) else LowEntry(s, q, i', j')
  {
    hide IsValid, Ppn, Flags, MakePte, MidEntry, Lookup;
    ZeroInvalid();
    assert s.owner[Val(s, Mid(r, i))] == Mid(r, i);
    assert Val(s, Mid(q, i')) == Target(MidEntry(s, q, i'));
  }

  /** The tree depends on the roots and on the pages of its upper two levels. */
  lemma TablesFrame(s: Vm, t: Vm)
    requires Inv(s) && t.mem.Keys == s.mem.Keys
    requires forall q :: IsRoot(t, q) == IsRoot(s, q)
    requires forall b | b in s.mem && (s.owner[b].Root? || s.owner[b].Mid?) :: t.mem[b] == s.mem[b]
    ensures forall o: Owner :: TableEntry(t, o) == TableEntry(s, o)
  {
    hide IsValid, Ppn, Flags, Lookup;
    ZeroInvalid();
    forall o: Owner
      ensures TableEntry(t, o) == TableEntry(s, o)
    {
      if o.Low? {
        assert Val(s, Mid(o.r, o.i)) == Target(MidEntry(s, o.r, o.i));
      }
    }
  }

  /** The address maps depend on the tree and on the pages of its last level. */
  lemma LookupFrame(s: Vm, t: Vm)
    requires Inv(s) && t.mem.Keys == s.mem.Keys
    requires forall o: Owner :: TableEntry(t, o) == TableEntry(s, o)
    requires forall b | b in s.mem && s.owner[b].Low? :: t.mem[b] == s.mem[b]
    ensures SameMap(s, t)
  {
    hide IsValid, Ppn, Flags, TableEntry, Px0, Px1, Px2;
    forall q: nat, w: nat
      ensures Lookup(t, q, w) == Lookup(s, q, w)
    {
      var o := LowOf(q, w);
      assert TableEntry(t, o) == TableEntry(s, o);
      assert Val(s, o) != 0 ==> s.owner[Val(s, o)] == o;
    }
  }

  /** Changing the leaf entry of page v of space r. */
  lemma SetLeaf(s: Vm, r: nat, v: nat, pte: nat)
    requires Inv(s) && v < ALLPAGES && Val(s, LowOf(r, v)) != 0
    ensures var low := Val(s, LowOf(r, v));
      var t := Vm(s.mem[low := s.mem[low][Px0(v) := pte]], s.owner);
      && (forall o: Owner :: TableEntry(t, o) == TableEntry(s, o))
      && (forall q, w :: Lookup(t, q, w) ==
           if q == r && w == v then (if IsValid(pte) then pte else 0) else Lookup(s, q, w))
  {
    hide IsValid, Ppn, Flags, MakePte, Px2, Px1;
    var low := Val(s, LowOf(r, v));
    var t := Vm(s.mem[low := s.mem[low][Px0(v) := pte]], s.owner);
    ZeroInvalid();
    assert s.owner[low] == LowOf(r, v);
    TablesFrame(s, t);
    forall q: nat, w: nat
      ensures Lookup(t, q, w) == if q == r && w == v then (if IsValid(pte) then pte else 0) else Lookup(s, q, w)
    {
      assert Val(t, LowOf(q, w)) == Val(s, LowOf(q, w));
      if w < ALLPAGES && (q, w) != (r, v) {
        EntriesDistinct(s, r, v, q, w);
      }
    }
  }

  /** Mapping page v, so far unmapped, to a page that becomes the space's frame
      there if it was freshly allocated, and stays what it is otherwise. */
  lemma MapKeeps(s: Vm, r: nat, v: nat, pte: nat)
    requires Inv(s) && v < ALLPAGES && Val(s, LowOf(r, v)) != 0 && Lookup(s, r, v) == 0
    requires IsValid(pte)
    ensures var low := Val(s, LowOf(r, v));
      var unlinked := Ppn(pte) in s.owner && s.owner[Ppn(pte)] == Pending;
      var owner := if unlinked then s.owner[Ppn(pte) := Frame(r, v)] else s.owner;
      var t := Vm(s.mem[low := s.mem[low][Px0(v) := pte]], owner);
      && Inv(t) && (forall o: Owner :: TableEntry(t, o) == TableEntry(s, o))
      && (forall q, w :: Lookup(t, q, w) == if q == r && w == v then pte else Lookup(s, q, w))
  {
    hide Ppn, Flags, MakePte, Px2, Px1, Px0, MidEntry, LowEntry;
    SetLeaf(s, r, v, pte);
    var low := Val(s, LowOf(r, v));
    var u := Vm(s.mem[low := s.mem[low][Px0(v) := pte]], s.owner);
    var unlinked := Ppn(pte) in s.owner && s.owner[Ppn(pte)] == Pending;
    var owner := if unlinked then s.owner[Ppn(pte) := Frame(r, v)] else s.owner;
    var t := Vm(u.mem, owner);
    OwnerIrrelevant(u, t);
    RetargetKeeps(s, t);
  }

  /** Tables and maps depend on ownership only through which pages are roots. */
  lemma OwnerIrrelevant(s: Vm, t: Vm)
    requires t.mem == s.mem && forall q :: IsRoot(t, q) == IsRoot(s, q)
    ensures forall o: Owner :: TableEntry(t, o) == TableEntry(s, o)
    ensures forall q, w :: Lookup(t, q, w) == Lookup(s, q, w)
  {
    hide IsValid, Ppn, Px2, Px1, Px0;
  }

  /** A state with the same tables, where every frame is mapped as it says. */
  lemma RetargetKeeps(s: Vm, t: Vm)
    requires Inv(s) && t.mem.Keys == s.mem.Keys == t.owner.Keys
    requires forall o: Owner :: TableEntry(t, o) == TableEntry(s, o)
    requires forall b | b in s.mem ::
      t.owner[b] == s.owner[b] || (!s.owner[b].Table() && !t.owner[b].Table() && !t.owner[b].Root?)
    requires forall b | b in s.mem && t.owner[b].Frame? ::
      Lookup(t, t.owner[b].r, t.owner[b].v) != 0 && Ppn(Lookup(t, t.owner[b].r, t.owner[b].v)) == b
    ensures Inv(t)
  {
    hide Ppn, Flags, MidEntry, LowEntry, Lookup, IsValid;
    ZeroInvalid();
    forall o: Owner
      ensures Val(t, o) != 0 ==> Val(t, o) in t.mem && t.owner[Val(t, o)] == o && Flags(TableEntry(t, o)) == PTE_V
      ensures IsValid(TableEntry(t, o)) ==> Val(t, o) != 0
    {
      assert TableEntry(t, o) == TableEntry(s, o);
      assert Val(s, o) != 0 ==> Val(s, o) in s.mem && s.owner[Val(s, o)] == o;
    }
    forall b | b in t.mem && t.owner[b].Table()
      ensures Val(t, t.owner[b]) == b
    {
      assert Val(s, s.owner[b]) == b;
      assert TableEntry(t, s.owner[b]) == TableEntry(s, s.owner[b]);
    }
  }

  /** Clearing the leaf entry of a page whose frame is no longer owned there. */
  lemma UnmapKeeps(s: Vm, r: nat, v: nat)
    requires Inv(s) && v < ALLPAGES && Val(s, LowOf(r, v)) != 0
    requires forall b | b in s.mem :: s.owner[b] != Frame(r, v)
    ensures var low := Val(s, LowOf(r, v));
      var t := Vm(s.mem[low := s.mem[low][Px0(v) := 0]], s.owner);
      && Inv(t)
      && (forall q, w :: Lookup(t, q, w) == if q == r && w == v then 0 else Lookup(s, q, w))
  {
    hide Ppn, Flags, MakePte, Px2, Px1, Px0, MidEntry, LowEntry;
    SetLeaf(s, r, v, 0);
    var low := Val(s, LowOf(r, v));
    RetargetKeeps(s, Vm(s.mem[low := s.mem[low][Px0(v) := 0]], s.owner));
  }

  /** Two states with the same address maps. */
  ghost predicate SameMap(s: Vm, t: Vm) {
    forall q, w :: Lookup(t, q, w) == Lookup(s, q, w)
  }

  /** A page that is not part of any tree may be rewritten, and may change hands,
      without an address map changing. */
  lemma PlainKeeps(s: Vm, b: nat, page: Page, o: Owner)
    requires Inv(s) && b in s.mem && s.owner[b].Plain()
    requires o.Plain() && (o.Frame? ==> o == s.owner[b])
    ensures var t := Vm(s.mem[b := page], s.owner[b := o]);
      Inv(t) && SameMap(s, t) && (forall p: Owner :: TableEntry(t, p) == TableEntry(s, p))
  {
    hide IsValid, Ppn, Flags, MakePte, Px2, Px1, Px0;
    var t := Vm(s.mem[b := page], s.owner[b := o]);
    TablesFrame(s, t);
    LookupFrame(s, t);
    RetargetKeeps(s, t);
  }
}
