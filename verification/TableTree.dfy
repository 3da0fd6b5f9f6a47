/** The tree of table pages below a root, as freewalk sees it. */
module TableTree {
  import opened PageTable

  /** Levels of tables below a position. */
  function Level(o: Owner): nat {
    if o.Root? then 2 else if o.Mid? then 1 else 0
  }

  /** Position behind entry i of the table at position o. */
  function Child(o: Owner, i: nat): Owner {
    match o
    case Root(r) => Mid(r, i)
    case Mid(r, j) => Low(r, j, i)
    case _ => Other
  }

  /** Position q lies below entry i of position o, for some i from `from` on. */
  predicate Below(o: Owner, q: Owner, from: nat) {
    match o
    case Root(r) => q.Table() && q.r == r && q.i >= from
    case Mid(r, i) => q.Low? && q.r == r && q.i == i && q.j >= from
    case _ => false
  }

  /** R, W or X is set. */
  predicate Permits(pte: nat) {
    pte / 2 % 8 != 0
  }

  /** The page an entry leads to holds a table at the right position. */
  ghost predicate ChildAt(s: Vm, pte: nat, o: Owner) {
    Flags(pte) == PTE_V && Ppn(pte) in s.mem && Ppn(pte) in s.owner && s.owner[Ppn(pte)] == o
  }

  /** From entry `from` on, page p is the table at position o: its valid entries lead to
      the tables below, or, at the last level, carry a permission; and no table that
      claims to be below is missing. */
  ghost predicate Ready(s: Vm, p: nat, o: Owner, from: nat)
    decreases Level(o)
  {
    && p in s.mem && s.owner.Keys == s.mem.Keys
    && (forall i | from <= i < ENTRIES && IsValid(s.mem[p][i]) ::
         if Level(o) == 0 then Permits(s.mem[p][i])
         else ChildAt(s, s.mem[p][i], Child(o, i)) && Ready(s, Ppn(s.mem[p][i]), Child(o, i), 0))
    && (forall b | b in s.mem && Below(o, s.owner[b], from) :: Hangs(s, p, o, b))
  }

  /** Table page b hangs below page p at the entry its owner names. */
  ghost predicate Hangs(s: Vm, p: nat, o: Owner, b: nat)
    requires p in s.mem && b in s.owner
  {
    var q := s.owner[b];
    q.Table() &&
    var i := if Level(o) == 1 && q.Low? then q.j else q.i;
    i < ENTRIES && IsValid(s.mem[p][i]) && (q == Child(o, i) ==> Ppn(s.mem[p][i]) == b)
  }

  /** No leaf is mapped below the entries from `from` on. */
  ghost predicate LeafFree(s: Vm, p: nat, o: Owner, from: nat)
    decreases Level(o)
  {
    p in s.mem && forall i | from <= i < ENTRIES && IsValid(s.mem[p][i]) ::
      Level(o) > 0 && LeafFree(s, Ppn(s.mem[p][i]), Child(o, i), 0)
  }

  /** The same tables hang below p from entry `from` on. */
  ghost predicate Alike(s: Vm, t: Vm, p: nat, o: Owner, from: nat) {
    && t.mem.Keys == s.mem.Keys == s.owner.Keys == t.owner.Keys
    && p in s.mem && (forall i | from <= i < ENTRIES :: t.mem[p][i] == s.mem[p][i])
    && (forall b | b in s.mem :: Below(o, s.owner[b], from) || Below(o, t.owner[b], from) ==>
                                 t.owner[b] == s.owner[b] && t.mem[b] == s.mem[b])
  }

  lemma {:induction false} ReadyFrame(s: Vm, t: Vm, p: nat, o: Owner, from: nat)
    requires Ready(s, p, o, from) && Alike(s, t, p, o, from)
    ensures Ready(t, p, o, from) && LeafFree(t, p, o, from) == LeafFree(s, p, o, from)
    decreases Level(o)
  {
    hide IsValid, Ppn, Flags, Permits;
    forall i | from <= i < ENTRIES && IsValid(t.mem[p][i])
      ensures if Level(o) == 0 then Permits(t.mem[p][i])
              else ChildAt(t, t.mem[p][i], Child(o, i)) && Ready(t, Ppn(t.mem[p][i]), Child(o, i), 0)
                   && LeafFree(t, Ppn(t.mem[p][i]), Child(o, i), 0) == LeafFree(s, Ppn(s.mem[p][i]), Child(o, i), 0)
    {
      assert t.mem[p][i] == s.mem[p][i];
      if Level(o) > 0 {
        ReadyFrame(s, t, Ppn(s.mem[p][i]), Child(o, i), 0);
      }
    }
    forall b | b in t.mem && Below(o, t.owner[b], from)
      ensures Hangs(t, p, o, b)
    {
      assert Hangs(s, p, o, b);
    }
  }

  /** Everything below the entries before i was freed; nothing else but p was written. */
  ghost predicate EmptiedTo(s: Vm, t: Vm, p: nat, o: Owner, i: nat) {
    && t.mem.Keys == s.mem.Keys == s.owner.Keys == t.owner.Keys
    && (forall b | b in s.mem :: t.owner[b] == if Passed(o, s.owner[b], i) then Free else s.owner[b])
    && (forall b | b in s.mem && b != p && !Passed(o, s.owner[b], i) :: t.mem[b] == s.mem[b])
  }

  predicate Passed(o: Owner, q: Owner, i: nat) {
    Below(o, q, 0) && !Below(o, q, i)
  }

  /** Page p and everything below it was freed; nothing else was written. */
  ghost predicate Emptied(s: Vm, t: Vm, p: nat, o: Owner) {
    && t.mem.Keys == s.mem.Keys == s.owner.Keys == t.owner.Keys
    && (forall b | b in s.mem :: t.owner[b] == if b == p || Below(o, s.owner[b], 0) then Free else s.owner[b])
    && (forall b | b in s.mem && b != p && !Below(o, s.owner[b], 0) :: t.mem[b] == s.mem[b])
  }

  /** Entry i is not valid: nothing hangs there. */
  lemma SkipEntry(s: Vm, p: nat, o: Owner, i: nat)
    requires Ready(s, p, o, i) && i < ENTRIES && !IsValid(s.mem[p][i])
    ensures Ready(s, p, o, i + 1) && LeafFree(s, p, o, i) == LeafFree(s, p, o, i + 1)
    ensures forall b | b in s.mem && Below(o, s.owner[b], i) :: Below(o, s.owner[b], i + 1)
  {
    hide IsValid, Ppn, Flags, Permits;
    forall b | b in s.mem && Below(o, s.owner[b], i)
      ensures Below(o, s.owner[b], i + 1)
    {
      assert Hangs(s, p, o, b);
    }
  }

  /** Entry i leads to a table: what is known about it. */
  lemma EnterEntry(s: Vm, p: nat, o: Owner, i: nat)
    requires Ready(s, p, o, i) && i < ENTRIES && IsValid(s.mem[p][i]) && p in s.owner && s.owner[p] == Pending
    ensures !Permits(s.mem[p][i]) <==> Level(o) > 0
    ensures Level(o) == 0 ==> !LeafFree(s, p, o, i)
    ensures Level(o) > 0 ==>
      var c := Ppn(s.mem[p][i]);
      var u := Vm(s.mem, s.owner[c := Pending]);
      && c in s.mem && c != p && s.owner[c] == Child(o, i) && Ready(u, c, Child(o, i), 0)
      && (LeafFree(s, p, o, i) <==> LeafFree(u, c, Child(o, i), 0) && LeafFree(s, p, o, i + 1))
  {
    hide IsValid;
    if Level(o) > 0 {
      var c := Ppn(s.mem[p][i]);
      assert ChildAt(s, s.mem[p][i], Child(o, i)) && Ready(s, c, Child(o, i), 0);
      TableFlags(s.mem[p][i]);
      var u := Vm(s.mem, s.owner[c := Pending]);
      ReadyFrame(s, u, c, Child(o, i), 0);
    }
  }

  lemma TableFlags(pte: nat)
    requires Flags(pte) == PTE_V
    ensures !Permits(pte)
  {
    assert pte / 2 % 8 == pte % 16 / 2;
  }

  /** After the subtree behind entry i was freed and the entry cleared. */
  lemma LeaveEntry(s: Vm, t: Vm, v: Vm, w: Vm, p: nat, o: Owner, i: nat)
    requires EmptiedTo(s, t, p, o, i) && Ready(t, p, o, i) && i < ENTRIES && IsValid(t.mem[p][i]) && Level(o) > 0
    requires p in s.owner && s.owner[p] == Pending && Ppn(t.mem[p][i]) in t.mem
    requires t.owner[Ppn(t.mem[p][i])] == Child(o, i)
    requires Emptied(Vm(t.mem, t.owner[Ppn(t.mem[p][i]) := Pending]), v, Ppn(t.mem[p][i]), Child(o, i))
    requires v.mem[p] == t.mem[p] && w == Vm(v.mem[p := v.mem[p][i := 0]], v.owner)
    ensures EmptiedTo(s, w, p, o, i + 1) && Ready(w, p, o, i + 1)
    ensures LeafFree(w, p, o, i + 1) == LeafFree(t, p, o, i + 1)
  {
    hide IsValid, Ppn, Flags, Permits, Ready, LeafFree;
    var c := Ppn(t.mem[p][i]);
    var u := Vm(t.mem, t.owner[c := Pending]);
    forall b | b in s.mem
      ensures w.owner[b] == if Passed(o, s.owner[b], i + 1) then Free else s.owner[b]
      ensures b != p && !Passed(o, s.owner[b], i + 1) ==> w.mem[b] == s.mem[b]
      ensures Below(o, t.owner[b], i + 1) || Below(o, w.owner[b], i + 1) ==>
        w.owner[b] == t.owner[b] && w.mem[b] == t.mem[b]
    {
      SoleChild(t, p, o, i, b);
      OwnerAfterChild(s.owner[b], t.owner[b], u.owner[b], w.owner[b], b, c, o, i);
    }
    LaterReady(t, p, o, i);
    ReadyFrame(t, w, p, o, i + 1);
  }

  lemma LaterReady(t: Vm, p: nat, o: Owner, i: nat)
    requires Ready(t, p, o, i)
    ensures Ready(t, p, o, i + 1)
  {
    hide IsValid, Ppn, Flags, Permits;
  }

  /** The table at position Child(o, i) is the one behind entry i. */
  lemma SoleChild(t: Vm, p: nat, o: Owner, i: nat, b: nat)
    requires Ready(t, p, o, i) && i < ENTRIES && b in t.mem && Level(o) > 0
    ensures t.owner[b] == Child(o, i) ==> Ppn(t.mem[p][i]) == b
  {
    hide IsValid, Ppn, Flags, Permits;
    if t.owner[b] == Child(o, i) {
      assert Hangs(t, p, o, b);
    }
  }

  lemma OwnerAfterChild(s: Owner, t: Owner, u: Owner, w: Owner, b: nat, c: nat, o: Owner, i: nat)
    requires Level(o) > 0
    requires t == if Passed(o, s, i) then Free else s
    requires u == if b == c then Pending else t
    requires b == c <==> t == Child(o, i)
    requires w == if b == c || Below(Child(o, i), u, 0) then Free else u
    ensures w == if Passed(o, s, i + 1) then Free else s
    ensures Below(o, t, i + 1) || Below(o, w, i + 1) ==> w == t && b != c && !Below(Child(o, i), u, 0)
    ensures !Passed(o, s, i + 1) ==> b != c && !Below(Child(o, i), u, 0) && !Passed(o, s, i)
  {
  }

  lemma AllPassed(s: Vm, t: Vm, p: nat, o: Owner)
    requires EmptiedTo(s, t, p, o, ENTRIES) && Ready(s, p, o, 0)
    ensures forall b | b in s.mem && Below(o, s.owner[b], 0) :: Passed(o, s.owner[b], ENTRIES)
  {
    hide IsValid, Ppn, Flags, Permits;
    forall b | b in s.mem && Below(o, s.owner[b], 0)
      ensures Passed(o, s.owner[b], ENTRIES)
    {
      assert Hangs(s, p, o, b);
    }
  }

  lemma NoneEmptied(s: Vm, p: nat, o: Owner)
    requires s.owner.Keys == s.mem.Keys
    ensures EmptiedTo(s, s, p, o, 0)
  {
  }

  lemma SkipEmptied(s: Vm, t: Vm, p: nat, o: Owner, i: nat)
    requires EmptiedTo(s, t, p, o, i)
    requires forall b | b in t.mem && Below(o, t.owner[b], i) :: Below(o, t.owner[b], i + 1)
    ensures EmptiedTo(s, t, p, o, i + 1)
  {
  }

  lemma OutsideSame(u: Vm, v: Vm, c: nat, o: Owner, p: nat)
    requires Emptied(u, v, c, o) && p in u.mem && u.owner[p] == Pending && p != c
    ensures p in v.mem && v.mem[p] == u.mem[p] && p in v.owner && v.owner[p] == Pending
    ensures v.owner.Keys == v.mem.Keys
  {
  }

  lemma NothingLeft(t: Vm, p: nat, o: Owner)
    requires Ready(t, p, o, ENTRIES)
    ensures LeafFree(t, p, o, ENTRIES)
  {
  }

  lemma LastFreed(s: Vm, t: Vm, z: Vm, p: nat, o: Owner)
    requires EmptiedTo(s, t, p, o, ENTRIES) && p in t.mem && s.owner[p] == Pending
    requires forall b | b in s.mem && Below(o, s.owner[b], 0) :: Passed(o, s.owner[b], ENTRIES)
    requires z.owner == t.owner[p := Free] && z.mem.Keys == t.mem.Keys
    requires forall b | b in t.mem && b != p :: z.mem[b] == t.mem[b]
    ensures Emptied(s, z, p, o)
  {
  }

  // ---------------------------------------------------------------- whole address spaces

  /** Every leaf of space r carries a permission. */
  ghost predicate LeavesPermit(s: Vm, r: nat) {
    forall w :: Lookup(s, r, w) != 0 ==> Permits(Lookup(s, r, w))
  }

  /** The tree of an address space, once the root was given up. */
  lemma TreeReady(s: Vm, r: nat)
    requires Inv(s) && IsRoot(s, r) && LeavesPermit(s, r)
    ensures var u := Vm(s.mem, s.owner[r := Pending]);
      && Ready(u, r, Root(r), 0)
      && (LeafFree(u, r, Root(r), 0) <==> forall w :: Lookup(s, r, w) == 0)
  {
    hide IsValid, Ppn, Flags, Permits, Px0, Px1, Px2, PageOf;
    var u := Vm(s.mem, s.owner[r := Pending]);
    forall i | 0 <= i < ENTRIES && IsValid(s.mem[r][i])
      ensures ChildAt(u, s.mem[r][i], Mid(r, i)) && Ready(u, Ppn(s.mem[r][i]), Mid(r, i), 0)
    {
      MidReady(s, r, i);
    }
    forall b | b in u.mem && Below(Root(r), u.owner[b], 0)
      ensures Hangs(u, r, Root(r), b)
    {
      RootHangs(s, r, b);
    }
    if LeafFree(u, r, Root(r), 0) {
      forall w: nat
        ensures Lookup(s, r, w) == 0
      {
        NoLeaf(s, r, w);
      }
    }
    if forall w :: Lookup(s, r, w) == 0 {
      forall i | 0 <= i < ENTRIES && IsValid(s.mem[r][i])
        ensures LeafFree(u, Ppn(s.mem[r][i]), Mid(r, i), 0)
      {
        MidLeafFree(s, r, i);
      }
    }
  }

  lemma RootHangs(s: Vm, r: nat, b: nat)
    requires Inv(s) && IsRoot(s, r) && b in s.mem && Below(Root(r), s.owner[b], 0)
    ensures Hangs(Vm(s.mem, s.owner[r := Pending]), r, Root(r), b)
  {
    hide IsValid, Ppn, Flags, Lookup;
    ZeroInvalid();
    assert Val(s, s.owner[b]) == b;
  }

  /** The second-level table behind entry i. */
  lemma MidReady(s: Vm, r: nat, i: nat)
    requires Inv(s) && IsRoot(s, r) && LeavesPermit(s, r) && i < ENTRIES && IsValid(s.mem[r][i])
    ensures var u := Vm(s.mem, s.owner[r := Pending]);
      ChildAt(u, s.mem[r][i], Mid(r, i)) && Ready(u, Ppn(s.mem[r][i]), Mid(r, i), 0)
  {
    hide IsValid, Ppn, Flags, Permits, Lookup, LeavesPermit;
    ZeroInvalid();
    var u := Vm(s.mem, s.owner[r := Pending]);
    var m := Ppn(s.mem[r][i]);
    assert TableEntry(s, Mid(r, i)) == s.mem[r][i] && Val(s, Mid(r, i)) == m;
    forall j | 0 <= j < ENTRIES && IsValid(s.mem[m][j])
      ensures ChildAt(u, s.mem[m][j], Low(r, i, j)) && Ready(u, Ppn(s.mem[m][j]), Low(r, i, j), 0)
    {
      LowReady(s, r, i, j);
    }
    forall b | b in u.mem && Below(Mid(r, i), u.owner[b], 0)
      ensures Hangs(u, m, Mid(r, i), b)
    {
      assert Val(s, s.owner[b]) == b;
    }
  }

  /** The last-level table behind entry j of the table behind entry i. */
  lemma LowReady(s: Vm, r: nat, i: nat, j: nat)
    requires Inv(s) && IsRoot(s, r) && LeavesPermit(s, r) && i < ENTRIES && j < ENTRIES
    requires Val(s, Mid(r, i)) != 0 && IsValid(s.mem[Val(s, Mid(r, i))][j])
    ensures var u, pte := Vm(s.mem, s.owner[r := Pending]), s.mem[Val(s, Mid(r, i))][j];
      ChildAt(u, pte, Low(r, i, j)) && Ready(u, Ppn(pte), Low(r, i, j), 0)
  {
    hide IsValid, Ppn, Flags, Permits, Px0, Px1, Px2, PageOf;
    ZeroInvalid();
    var pte := s.mem[Val(s, Mid(r, i))][j];
    assert TableEntry(s, Low(r, i, j)) == pte;
    assert Val(s, Low(r, i, j)) == Ppn(pte);
    forall k | 0 <= k < ENTRIES && IsValid(s.mem[Ppn(pte)][k])
      ensures Permits(s.mem[Ppn(pte)][k])
    {
      LeafAt(s, r, i, j, k);
    }
  }

  /** The leaf at indices (i, j, k). */
  lemma LeafAt(s: Vm, r: nat, i: nat, j: nat, k: nat)
    requires Inv(s) && i < ENTRIES && j < ENTRIES && k < ENTRIES && Val(s, Low(r, i, j)) != 0
    ensures PageOf(i, j, k) < ALLPAGES
    ensures var pte := s.mem[Val(s, Low(r, i, j))][k];
      Lookup(s, r, PageOf(i, j, k)) == if IsValid(pte) then pte else 0
  {
    hide IsValid, Ppn, Flags, Val, Px0, Px1, Px2;
    PageOfRoundTrip(i, j, k);
  }

  lemma NoLeaf(s: Vm, r: nat, w: nat)
    requires Inv(s) && IsRoot(s, r) && LeafFree(Vm(s.mem, s.owner[r := Pending]), r, Root(r), 0)
    ensures Lookup(s, r, w) == 0
  {
    hide IsValid, Ppn, Flags, Px0, Px1, Px2;
    ZeroInvalid();
    var u := Vm(s.mem, s.owner[r := Pending]);
    var m, low := Val(s, Mid(r, Px2(w))), Val(s, LowOf(r, w));
    if low != 0 {
      assert IsValid(s.mem[r][Px2(w)]) && m == Ppn(s.mem[r][Px2(w)]);
      assert LeafFree(u, m, Mid(r, Px2(w)), 0);
      assert IsValid(s.mem[m][Px1(w)]) && low == Ppn(s.mem[m][Px1(w)]);
      assert LeafFree(u, low, LowOf(r, w), 0);
    }
  }

  lemma MidLeafFree(s: Vm, r: nat, i: nat)
    requires Inv(s) && IsRoot(s, r) && i < ENTRIES && IsValid(s.mem[r][i])
    requires forall w :: Lookup(s, r, w) == 0
    ensures LeafFree(Vm(s.mem, s.owner[r := Pending]), Ppn(s.mem[r][i]), Mid(r, i), 0)
  {
    hide IsValid, Ppn, Flags, Px0, Px1, Px2, PageOf, Lookup;
    ZeroInvalid();
    var u := Vm(s.mem, s.owner[r := Pending]);
    var m := Ppn(s.mem[r][i]);
    assert TableEntry(s, Mid(r, i)) == s.mem[r][i] && Val(s, Mid(r, i)) == m;
    forall j | 0 <= j < ENTRIES && IsValid(s.mem[m][j])
      ensures LeafFree(u, Ppn(s.mem[m][j]), Low(r, i, j), 0)
    {
      assert TableEntry(s, Low(r, i, j)) == s.mem[m][j] && Val(s, Low(r, i, j)) == Ppn(s.mem[m][j]);
      forall k | 0 <= k < ENTRIES && IsValid(s.mem[Ppn(s.mem[m][j])][k])
        ensures false
      {
        LeafAt(s, r, i, j, k);
      }
    }
  }

  /** All pages of space r, and only those, became free. */
  ghost predicate SpaceFreed(s: Vm, t: Vm, r: nat) {
    && t.mem.Keys == s.mem.Keys == s.owner.Keys == t.owner.Keys
    && (forall b | b in s.mem :: t.owner[b] == if s.owner[b].Of(r) then Free else s.owner[b])
    && (forall b | b in s.mem && t.owner[b] != Free :: t.mem[b] == s.mem[b])
  }

  /** Freeing a space leaves the other spaces alone. */
  lemma FreedKeeps(s: Vm, t: Vm, r: nat)
    requires Inv(s) && SpaceFreed(s, t, r)
    ensures Inv(t)
    ensures forall q: nat, w: nat :: Lookup(t, q, w) == if q == r then 0 else Lookup(s, q, w)
  {
    hide Inv, Lookup, TableEntry, SpaceFreed;
    FreedTables(s, t, r);
    FreedLookups(s, t, r);
    FreedInv(s, t, r);
  }

  lemma FreedTables(s: Vm, t: Vm, r: nat)
    requires Inv(s) && SpaceFreed(s, t, r)
    ensures forall o: Owner :: TableEntry(t, o) == if o.Of(r) then 0 else TableEntry(s, o)
  {
    hide IsValid, Ppn, Flags, Lookup;
    ZeroInvalid();
    assert forall q :: IsRoot(t, q) <==> IsRoot(s, q) && q != r;
    forall o: Owner
      ensures TableEntry(t, o) == if o.Of(r) then 0 else TableEntry(s, o)
    {
      if o.Low? && o.r != r {
        assert Val(s, Mid(o.r, o.i)) == Target(MidEntry(s, o.r, o.i));
      }
    }
  }

  lemma FreedLookups(s: Vm, t: Vm, r: nat)
    requires Inv(s) && SpaceFreed(s, t, r)
    requires forall o: Owner :: TableEntry(t, o) == if o.Of(r) then 0 else TableEntry(s, o)
    ensures forall q: nat, w: nat :: Lookup(t, q, w) == if q == r then 0 else Lookup(s, q, w)
  {
    hide IsValid, Ppn, Flags, Px0, Px1, Px2, MidEntry, LowEntry, TableEntry;
    ZeroInvalid();
    forall q: nat, w: nat
      ensures Lookup(t, q, w) == if q == r then 0 else Lookup(s, q, w)
    {
      var o := LowOf(q, w);
      assert TableEntry(t, o) == if q == r then 0 else TableEntry(s, o);
      assert Val(s, o) != 0 ==> s.owner[Val(s, o)] == o;
    }
  }

  lemma FreedInv(s: Vm, t: Vm, r: nat)
    requires Inv(s) && SpaceFreed(s, t, r)
    requires forall o: Owner :: TableEntry(t, o) == if o.Of(r) then 0 else TableEntry(s, o)
    requires forall q: nat, w: nat :: Lookup(t, q, w) == if q == r then 0 else Lookup(s, q, w)
    ensures Inv(t)
  {
    hide IsValid, Ppn, Flags, MidEntry, LowEntry, Lookup;
    ZeroInvalid();
    forall o: Owner
      ensures Val(t, o) != 0 ==> Val(t, o) in t.mem && t.owner[Val(t, o)] == o && Flags(TableEntry(t, o)) == PTE_V
      ensures IsValid(TableEntry(t, o)) ==> Val(t, o) != 0
    {
      assert TableEntry(t, o) == if o.Of(r) then 0 else TableEntry(s, o);
      assert Val(s, o) != 0 ==> Val(s, o) in s.mem && s.owner[Val(s, o)] == o;
    }
    forall b | b in t.mem && t.owner[b].Table()
      ensures Val(t, t.owner[b]) == b
    {
      assert Val(s, s.owner[b]) == b;
    }
  }
}
