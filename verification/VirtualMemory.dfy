/** Physical page allocator and address spaces: kernel/kalloc.c and kernel/vm.c. */
module VirtualMemory {
  import opened PageTable
  import opened TableTree
  import opened VmRelations
  import opened VmSpaces
  import opened VmCounts

  lemma CreateGave(s: Vm, u: Vm, r: nat)
    requires s.owner.Keys == s.mem.Keys == u.mem.Keys && r in s.mem && s.owner[r] == Free
    requires u.owner == s.owner[r := Root(r)] && forall b | b in s.mem && b != r :: u.mem[b] == s.mem[b]
    ensures OnlyGave(s, u, r)
  {
  }

  /** A new space needs two tables for the page at its top. */
  lemma FreshMissing(s: Vm, u: Vm, r: nat)
    requires Inv(s) && Inv(u) && r in s.mem && s.owner[r] == Free && u.owner == s.owner[r := Root(r)]
    ensures |MissingTables(u, r, TRAMPOLINE, 1)| == 2
  {
    hide Val, Inv, MissingTables;
    FreshRoot(s, u, r, Mid(r, Px2(TRAMPOLINE)));
    FreshRoot(s, u, r, LowOf(r, TRAMPOLINE));
    MissingOne(u, r, TRAMPOLINE);
  }

  /** And none for the page below. */
  lemma TopPresent(u: Vm, t: Vm, r: nat)
    requires TablesAfter(u, t, r, TRAMPOLINE, 1)
    ensures |MissingTables(t, r, TRAPFRAME, 1)| == 0
  {
    hide Val, MissingTables;
    TopTables(r);
    MissingOne(u, r, TRAMPOLINE);
    MissingOne(t, r, TRAPFRAME);
  }

  lemma StillPending(s: Vm, t: Vm, r: nat, b: nat)
    requires OnlyGave(s, t, r) && b in s.mem && s.owner[b] == Pending
    ensures b in t.mem && b in t.owner && t.owner[b] == Pending
  {
  }

  lemma NothingMapped(u: Vm, t: Vm, r: nat, tramp: nat)
    requires Mapped(u, t, r, TRAMPOLINE, 0, tramp, 11) && forall w :: Lookup(u, r, w) == 0
    ensures forall w: nat :: Lookup(t, r, w) == 0
  {
    hide Lookup, MappedOwners, MakePte;
  }

  lemma RestoredMap(s: Vm, u: Vm, t: Vm, z: Vm, r: nat, tramp: nat)
    requires SameMap(s, u) && Mapped(u, t, r, TRAMPOLINE, 0, tramp, 11) && forall w :: Lookup(u, r, w) == 0
    requires forall q: nat, w: nat :: Lookup(z, q, w) == if q == r then 0 else Lookup(t, q, w)
    ensures SameMap(s, z)
  {
    hide Lookup, MappedOwners, MakePte;
  }

  lemma NotUser(s: Vm, users: set<nat>, r: nat)
    requires Spaces(s, users) && r in s.owner && s.owner[r] == Free
    ensures r !in users && !IsRoot(s, r)
  {
    hide Spaces;
    if r in users {
      UserRoot(s, users, r);
    }
  }

  lemma OneRemovable(s: Vm, r: nat, w: nat, release: bool)
    ensures AllRemovable(s, r, w, 1, release) == Removable(s, r, w, release)
  {
    hide Removable;
  }

  lemma NotWhole(s: Vm, r: nat, n: nat)
    ensures WholeSpace(s, r, n) ==> Removable(s, r, TRAMPOLINE, false) && Removable(s, r, TRAPFRAME, false)
  {
    hide Removable, Lookup;
  }

  lemma SameTrapframe(s: Vm, t: Vm, r: nat)
    requires Unmapped(s, t, r, TRAMPOLINE, 1, Pending)
    ensures Removable(t, r, TRAPFRAME, false) == Removable(s, r, TRAPFRAME, false)
  {
    hide Lookup, Ppn, Flags;
    assert Lookup(t, r, TRAPFRAME) == Lookup(s, r, TRAPFRAME);
  }

  lemma TrampolineOnly(u: Vm, t: Vm, r: nat, tramp: nat)
    requires Mapped(u, t, r, TRAMPOLINE, 1, tramp, 11) && forall w :: Lookup(u, r, w) == 0
    ensures Lookup(t, r, TRAPFRAME) == 0
  {
    hide Lookup, MappedOwners, MakePte;
  }

  /** Both pages may be mapped in a user space. */
  lemma TopBindable(s: Vm, users: set<nat>, r: nat, n: nat, tramp: nat)
    requires tramp !in s.mem && n <= 1
    ensures MayMap(s, users, r, TRAMPOLINE, n, tramp, 11) && Permits(7)
  {
  }

  class Memory {
    var mem: map<nat, Page>
    var freelist: nat
    ghost var owner: map<nat, Owner>
    ghost var free: seq<nat>
    ghost var users: set<nat>            // roots of user address spaces

    ghost function State(): Vm
      reads this
    {
      Vm(mem, owner)
    }

    /** The free list holds exactly the free pages, each once. */
    ghost predicate FreeOk()
      reads this
    {
      FreeList(State(), freelist, free)
    }

    ghost predicate Valid()
      reads this
    {
      FreeOk() && Inv(State())
    }

    /** Besides, user spaces map nothing but frames of their own. */
    ghost predicate Sound()
      reads this
    {
      Valid() && Spaces(State(), users)
    }

    /** kalloc: the first free page, filled with junk; 0 when there is none. */
    method KAlloc() returns (p: nat)
      requires FreeOk()
      modifies this`mem, this`freelist, this`owner, this`free
      ensures FreeOk()
      ensures p == 0 <==> old(free) == []
      ensures p == 0 ==> mem == old(mem) && owner == old(owner) && free == old(free)
      ensures p != 0 ==> p in old(mem) && old(owner)[p] == Free
      ensures p != 0 ==> mem == old(mem)[p := Fill(5)] && owner == old(owner)[p := Pending] && free == old(free)[1..]
    {
      hide Listed, Fill;
      p := freelist;
      EmptyList(State(), freelist, free);
      if p != 0 {
        PopFree(State(), freelist, free, Fill(5));
        freelist := mem[p][0] / PGSIZE;
        mem := mem[p := Fill(5)];
        free := free[1..];
        owner := owner[p := Pending];
      }
    }

    /** kfree: a page of RAM goes to the front of the list; anything else panics. The list stays
        one iff the page was not on it already. */
    method KFree(p: nat) returns (ok: bool)
      requires FreeOk()
      modifies this`mem, this`freelist, this`owner, this`free
      ensures ok == (p in old(mem))
      ensures !ok ==> FreeOk() && mem == old(mem) && owner == old(owner) && free == old(free)
      ensures ok && old(owner)[p] != Free ==> FreeOk()
      ensures ok && old(owner)[p] == Free ==> forall f :: !FreeList(State(), freelist, f)
      ensures ok ==> mem == old(mem)[p := Fill(1)[0 := PGSIZE * old(freelist)]] && owner == old(owner)[p := Free]
      ensures ok ==> free == [p] + old(free)
    {
      hide Listed, Fill, FreeList;
      if p !in mem {
        return false;
      }
      ghost var s, junk := State(), Fill(1)[0 := PGSIZE * freelist];
      FreeKeys(s, freelist, free);
      if owner[p] == Free {
        ghost var t := Vm(s.mem[p := junk], s.owner[p := Free]);
        forall f
          ensures !FreeList(t, p, f)
        {
          DoubleFree(s, freelist, free, p, junk, f);
        }
      } else {
        PushFree(s, freelist, free, p, junk);
      }
      mem := mem[p := Fill(1)];
      mem := mem[p := mem[p][0 := PGSIZE * freelist]];
      assert mem == old(mem)[p := Fill(1)[0 := PGSIZE * old(freelist)]];
      freelist := p;
      free := [p] + free;
      owner := owner[p := Free];
      return true;
    }

    /** One level of walk: the table behind an entry, added if asked. */
    method Descend(table: nat, i: nat, alloc: bool, ghost o: Owner) returns (child: nat)
      requires Valid() && i < ENTRIES && EntryAt(State(), o, table, i)
      modifies this`mem, this`freelist, this`owner, this`free
      ensures Valid() && Grown(old(State()), State(), o.r)
      ensures child == Val(State(), o) && forall p: Owner | p != o :: Val(State(), p) == Val(old(State()), p)
      ensures !alloc ==> State() == old(State()) && free == old(free)
      ensures alloc && child == 0 ==> old(free) == [] && free == []
      ensures alloc && child != 0 ==> |free| == |old(free)| - OneIf(Val(old(State()), o) == 0)
      ensures child == 0 ==> Val(old(State()), o) == 0
    {
      hide IsValid, Ppn, Flags, MakePte, MidEntry, LowEntry, TableEntry, FreeList, Inv, Grown, EntryAt, ZeroPage;
      hide Fill;
      ghost var s := State();
      EntryOf(s, o, table, i);
      GrownRefl(s, o.r);
      var pte := mem[table][i];
      if IsValid(pte) {
        child := Ppn(pte);
      } else if !alloc {
        child := 0;
      } else {
        child := KAlloc();
        if child != 0 {
          LinkTable(s, o, table, i, child);
          mem := mem[child := ZeroPage()];
          mem := mem[table := mem[table][i := MakePte(child, PTE_V)]];
          owner := owner[child := o];
          assert mem == s.mem[child := ZeroPage()][table := s.mem[table][i := MakePte(child, PTE_V)]];
          assert owner == s.owner[child := o];
          LinkFree(s, o, table, child, Fill(5), mem[table], freelist, free);
        }
      }
    }

    /** walk: the slot of the leaf entry for va, adding missing tables if asked. No
        address map changes, even when memory runs out halfway. */
    method Walk(r: nat, va: nat, alloc: bool) returns (res: WalkResult)
      requires Valid() && IsRoot(State(), r)
      modifies this`mem, this`freelist, this`owner, this`free
      ensures Valid() && Grown(old(State()), State(), r)
      ensures !alloc ==> State() == old(State()) && free == old(free)
      ensures res.WalkPanic? <==> va >= MAXVA
      ensures res.Slot? ==> res.page == Val(State(), LowOf(r, va / PGSIZE)) != 0 && res.index == Px0(va / PGSIZE)
      ensures res.Missing? ==> if alloc then free == [] else Val(State(), LowOf(r, va / PGSIZE)) == 0
      ensures alloc && res.Slot? ==> TablesAfter(old(State()), State(), r, va / PGSIZE, 1)
      ensures alloc && res.Slot? ==> |free| == |old(free)| - |MissingTables(old(State()), r, va / PGSIZE, 1)|
      ensures alloc && res.Missing? ==> |old(free)| < |MissingTables(old(State()), r, va / PGSIZE, 1)|
    {
      hide Inv, FreeList, Grown, Val, Px2, Px1, Px0, TablesAfter, MissingTables;
      ghost var s := State();
      ghost var v := va / PGSIZE;
      SelfGrown(s, r);
      if va >= MAXVA {
        return WalkPanic;
      }
      var table, level := r, 2;
      ghost var mid, low := Mid(r, Px2(v)), LowOf(r, v);
      ghost var m := s;
      MissingOne(s, r, v);
      while level > 0
        invariant 0 <= level <= 2
        invariant Valid() && IsRoot(State(), r) && Grown(s, State(), r)
        invariant !alloc ==> State() == s && free == old(free)
        invariant if level == 2 then table == r else table == Val(State(), PosAt(r, v, level)) && table != 0
        invariant level == 2 ==> State() == s && |free| == |old(free)|
        invariant level <= 1 ==> forall o: Owner | o != mid :: Val(m, o) == Val(s, o)
        invariant level <= 1 ==> Val(m, mid) != 0
        invariant level == 1 ==> State() == m && (alloc ==> |free| == |old(free)| - OneIf(Val(s, mid) == 0))
        invariant level == 0 ==> forall o: Owner | o != low :: Val(State(), o) == Val(m, o)
        invariant level == 0 && alloc ==>
          |free| == |old(free)| - OneIf(Val(s, mid) == 0) - OneIf(Val(s, low) == 0)
      {
        ghost var t := State();
        NextLevel(t, r, v, level, table);
        table := Descend(table, Px(level, va / PGSIZE), alloc, PosAt(r, v, level - 1));
        GrownTrans(s, t, State(), r);
        RootStays(t, State(), r);
        level := level - 1;
        if table == 0 {
          MissingBelow(State(), r, v, level);
          return Missing;
        }
        if level == 1 {
          m := State();
        }
      }
      WalkTables(s, m, State(), r, v);
      return Slot(table, Px(0, va / PGSIZE));
    }

    /** mappages: maps the pages of [va, va + size) in order to consecutive physical
        pages; n of them were mapped when it stops. */
    method MapPages(r: nat, va: nat, size: nat, pa: nat, perm: nat) returns (res: MapResult, ghost n: nat)
      requires Valid() && IsRoot(State(), r) && perm < 1024
      modifies this`mem, this`freelist, this`owner, this`free
      ensures Valid() && Mapped(old(State()), State(), r, va / PGSIZE, n, pa / PGSIZE, WithValid(perm))
      ensures forall w | va / PGSIZE <= w < va / PGSIZE + n :: w < MAXPAGE && Lookup(old(State()), r, w) == 0
      ensures res.Done? ==> va / PGSIZE + n == LastPage(va, size) + 1
      ensures !res.Done? && va / PGSIZE <= LastPage(va, size) ==> va / PGSIZE + n <= LastPage(va, size)
      ensures res.Done? ==> TablesAfter(old(State()), State(), r, va / PGSIZE, n)
      ensures res.Done? ==> |free| == |old(free)| - |MissingTables(old(State()), r, va / PGSIZE, n)|
      ensures res.NoMemory? ==> |old(free)| < |MissingTables(old(State()), r, va / PGSIZE, n + 1)|
      ensures res.Panic? ==> va / PGSIZE + n >= MAXPAGE || Lookup(old(State()), r, va / PGSIZE + n) != 0
      ensures old(Sound()) && MayMap(old(State()), users, r, va / PGSIZE, n, pa / PGSIZE, WithValid(perm)) ==> Sound()
    {
      hide Inv, FreeList, Grown, Val, Lookup, Mapped, Px0, Px1, Px2, IsValid, Ppn, MakePte, WithValid;
      hide Spaces, MayMap, TablesAfter, MissingTables;
      ghost var s := State();
      ghost var first, ppn := va / PGSIZE, pa / PGSIZE;
      var flags := WithValid(perm);
      n := 0;
      var a, last, b := va / PGSIZE, LastPage(va, size), pa / PGSIZE;
      MappedNone(s, r, first, ppn, flags);
      NoTables(s, r, first);
      while true
        invariant Valid() && IsRoot(State(), r)
        invariant a == first + n && b == ppn + n
        invariant first <= last ==> a <= last
        invariant n > 0 ==> a <= MAXPAGE
        invariant Mapped(s, State(), r, first, n, ppn, flags)
        invariant TablesAfter(s, State(), r, first, n) && |free| == |old(free)| - |MissingTables(s, r, first, n)|
        invariant forall w | first <= w < a :: w < MAXPAGE && Lookup(s, r, w) == 0
        decreases MAXPAGE - a
      {
        ghost var t := State();
        var slot := Walk(r, a * PGSIZE, true);
        assert a * PGSIZE / PGSIZE == a;
        ghost var u := State();
        MappedGrown(s, t, u, r, first, n, ppn, flags);
        NextMissing(s, t, r, first, n);
        MappedSound(s, u, users, r, first, n, ppn, flags);
        if slot.WalkPanic? {
          return Panic, n;
        }
        if slot.Missing? {
          return NoMemory, n;
        }
        LeafEntry(u, r, a);
        StillUnmapped(s, u, r, first, n, ppn, flags);
        ZeroInvalid();
        if IsValid(mem[slot.page][slot.index]) {
          return Panic, n;
        }
        MapStep(s, u, r, first, n, ppn, flags);
        mem := mem[slot.page := mem[slot.page][slot.index := MakePte(b, flags)]];
        owner := Taken(State(), b, Frame(r, a)).owner;
        assert State() == Taken(WithEntry(u, slot.page, slot.index, MakePte(b, flags)), b, Frame(r, a));
        ListAfterMap(u, slot.page, slot.index, MakePte(b, flags), b, Frame(r, a), freelist, free);
        TablesStep(s, t, u, r, first, n);
        TablesSame(s, u, State(), r, first, n + 1);
        n := n + 1;
        if a == last {
          break;
        }
        a, b := a + 1, b + 1;
      }
      MappedSound(s, State(), users, r, first, n, ppn, flags);
      return Done, n;
    }

    /** One iteration of uvmunmap: the frame is freed before the entry is cleared. */
    method UnmapOne(r: nat, a: nat, release: bool) returns (ok: bool, ghost page: Page)
      requires Valid() && IsRoot(State(), r) && a % PGSIZE == 0
      requires release ==> OwnFrames(State(), r, a / PGSIZE, 1)
      modifies this`mem, this`freelist, this`owner, this`free
      ensures FreeOk()
      ensures ok <==> Removable(old(State()), r, a / PGSIZE, release)
      ensures !ok ==> State() == old(State())
      ensures ok ==> State() == Cleared(old(State()), r, a / PGSIZE, page, if release then Free else Pending)
      ensures |free| == |old(free)| + OneIf(ok && release)
      ensures ok && !release && Ppn(Lookup(old(State()), r, a / PGSIZE)) in old(mem) ==>
                page == old(mem)[Ppn(Lookup(old(State()), r, a / PGSIZE))]
    {
      hide Inv, FreeList, Grown, Val, Px0, Px1, Px2, IsValid, Ppn, Flags, IsRoot, Lookup;
      ghost var s := State();
      ghost var v := a / PGSIZE;
      KeysOf(s);
      ZeroInvalid();
      page := ZeroPage();
      var slot := Walk(r, a, false);
      if slot.WalkPanic? {
        return false, page;
      }
      LeafEntry(s, r, v);
      if slot.Missing? {
        return false, page;
      }
      var pte := mem[slot.page][slot.index];
      if !IsValid(pte) || Flags(pte) == PTE_V {
        return false, page;
      }
      var b := Ppn(pte);
      if release {
        if b !in mem {
          return false, page;
        }
        owner := owner[b := Pending];
        FreeFrame(s, State(), freelist, free);
        ok := KFree(b);
        page := mem[b];
        assert State() == WithPage(s, b, page, Free);
      } else if b in mem && owner[b] == Frame(r, v) {
        page := mem[b];
        owner := owner[b := Pending];
        FreeFrame(s, State(), freelist, free);
        assert State() == WithPage(s, b, page, Pending);
      } else if b in mem {
        page := mem[b];
      }
      ghost var u := State();
      assert u == Released(s, b, Frame(r, v), page, if release then Free else Pending);
      mem := mem[slot.page := mem[slot.page][slot.index := 0]];
      FreeFrame(u, State(), freelist, free);
      return true, page;
    }

    /** uvmunmap: removes the mappings of npages pages from va, and frees their frames
        if asked; n of them were removed when it stops. */
    method UvmUnmap(r: nat, va: nat, npages: nat, release: bool) returns (ok: bool, ghost n: nat)
      requires Sound() && IsRoot(State(), r) && va < TWO64
      requires release ==> r in users
      modifies this`mem, this`freelist, this`owner, this`free
      ensures Sound() && IsRoot(State(), r) && n <= Steps(va, npages)
      ensures Unmapped(old(State()), State(), r, va / PGSIZE, n, if release then Free else Pending)
      ensures |free| == |old(free)| + if release then n else 0
      ensures ok ==> n == Steps(va, npages)
      ensures ok <==> va % PGSIZE == 0 && AllRemovable(old(State()), r, va / PGSIZE, Steps(va, npages), release)
    {
      hide Inv, FreeList, Val, Lookup, Unmapped, Px0, Px1, Px2, Ppn, Removable, IsRoot, OwnFrames, Cleared;
      hide Spaces, Closed;
      ghost var s := State();
      ghost var first := va / PGSIZE;
      ghost var to := if release then Free else Pending;
      n := 0;
      UnmappedNone(s, r, first, to);
      if va % PGSIZE != 0 {
        return false, n;
      }
      var a, limit := va, (va + npages * PGSIZE) % TWO64;
      ghost var all := Steps(va, npages);
      if release {
        KeysOf(s);
        assert Closed(s, r) by {
          UserClosed(s, users, r);
        }
        ClosedFrames(s, r, first, all);
      }
      while a < limit
        invariant a == va + n * PGSIZE && n <= all
        invariant Valid() && IsRoot(State(), r)
        invariant Unmapped(s, State(), r, first, n, to)
        invariant |free| == |old(free)| + if release then n else 0
        invariant forall w | first <= w < first + n :: Removable(s, r, w, release)
        decreases limit - a
      {
        ghost var t := State();
        NotYet(va, npages, n);
        assert a / PGSIZE == first + n && a % PGSIZE == 0;
        UnmappedRest(s, t, r, first, n, all, to, release);
        UnmappedSpaces(s, t, users, r, first, n, to);
        var more, page := UnmapOne(r, a, release);
        if !more {
          return false, n;
        }
        UnmapStep(s, t, r, first, n, to, page);
        RootKept(t, r, first + n, page, to);
        a, n := a + PGSIZE, n + 1;
      }
      AllSteps(va, npages, n);
      UnmappedSpaces(s, State(), users, r, first, n, to);
      return true, n;
    }

    /** The loop body shared by uvmalloc and uvmcopy: a page is taken, filled and
        mapped at page v, or given back if mapping runs out of memory. */
    method GrowOne(r: nat, v: nat, page: Page, perm: nat, ghost s: Vm, ghost first: nat, ghost want: seq<Content>)
        returns (res: MapResult)
      requires Sound() && r in users && IsRoot(State(), r) && perm < 1024 && Permits(WithValid(perm))
      requires Allocated(s, State(), r, first, want) && v == first + |want|
      modifies this`mem, this`freelist, this`owner, this`free
      ensures Sound() && (forall q | IsRoot(old(State()), q) :: IsRoot(State(), q))
      ensures res.Done? ==> Allocated(s, State(), r, first, want + [Content(WithValid(perm), page)])
      ensures res.Done? ==> v < MAXPAGE && Lookup(s, r, v) == 0
      ensures res.Done? ==> TablesAfter(old(State()), State(), r, v, 1)
      ensures res.Done? ==> |free| == |old(free)| - 1 - |MissingTables(old(State()), r, v, 1)|
      ensures res.NoMemory? ==> Allocated(s, State(), r, first, want)
      ensures res.NoMemory? ==> |old(free)| < 1 + |MissingTables(old(State()), r, v, 1)|
      ensures res.Panic? ==> v >= MAXPAGE || Lookup(s, r, v) != 0
    {
      hide Inv, FreeList, Lookup, WithValid, Mapped, Fill, Allocated, IsRoot, Fresh, Spaces, TablesAfter, MissingTables;
      hide Permits;
      ghost var t := State();
      ghost var c := Content(WithValid(perm), page);
      SameBeyond(s, t, r, first, want);
      KeysOf(t);
      var p := KAlloc();
      if p == 0 {
        return NoMemory;
      }
      mem := mem[p := page];
      ghost var u := State();
      assert u == WithPage(t, p, page, Pending);
      PlainKeeps(t, p, page, Pending);
      EntriesGiveVals(t, u);
      PlainSpaces(t, p, page, Pending, users);
      FreeFrame(WithPage(t, p, Fill(5), Pending), u, freelist, free);
      RootsAfterPage(t, p, page, Pending);
      ghost var n;
      res, n := MapPages(r, v * PGSIZE, PGSIZE, p * PGSIZE, perm);
      assert v * PGSIZE / PGSIZE == v && p * PGSIZE / PGSIZE == p;
      ghost var z := State();
      SameMissing(t, u, z, r, v, 1);
      forall q | IsRoot(u, q)
        ensures IsRoot(z, q)
      {
        RootMapped(u, z, q, r, v, n, p, c.flags);
      }
      assert Lookup(u, r, v) == Lookup(s, r, v);
      if v < MAXPAGE {
        OnePage(v);
      }
      assert n <= 1;
      OneBindable(u, users, r, v, n, p, c.flags);
      if res.Done? {
        assert n == 1;
        AllocStep(s, t, z, r, first, want, c, p);
      } else if res.NoMemory? {
        assert n == 0;
        GiveBack(t, z, r, v, c, p);
        var ok := KFree(p);
        PlainKeeps(z, p, mem[p], Free);
        assert State() == WithPage(z, p, mem[p], Free);
        KeysOf(z);
        PlainSpaces(z, p, mem[p], Free, users);
        AllocDrop(s, t, z, r, first, want, c, p, mem[p]);
        RootsAfterPage(z, p, mem[p], Free);
      }
    }

    /** uvmdealloc: shrinks a space from oldsz to newsz bytes. */
    method UvmDealloc(r: nat, oldsz: nat, newsz: nat) returns (ok: bool, sz: nat)
      requires Sound() && r in users && IsRoot(State(), r) && newsz <= TWO64 - PGSIZE
      modifies this`mem, this`freelist, this`owner, this`free
      ensures Sound()
      ensures sz == if newsz < oldsz then newsz else oldsz
      ensures ok <==> AllRemovable(old(State()), r, RoundUp(newsz), Removed(newsz, oldsz), true)
      ensures ok ==> Unmapped(old(State()), State(), r, RoundUp(newsz), Removed(newsz, oldsz), Free)
      ensures ok ==> |free| == |old(free)| + Removed(newsz, oldsz)
    {
      hide Inv, FreeList, Unmapped, Removable, OwnFrames, IsRoot, Spaces;
      UnmappedNone(State(), r, RoundUp(newsz), Free);
      StepsExact(RoundUp(newsz) * PGSIZE, 0);
      if newsz >= oldsz {
        RoundUpMonotone(oldsz, newsz);
        return true, oldsz;
      }
      ok := true;
      if RoundUp(newsz) < RoundUp(oldsz) {
        var npages := AsInt(RoundUp(oldsz) - RoundUp(newsz));
        ghost var n;
        assert RoundUp(newsz) * PGSIZE / PGSIZE == RoundUp(newsz) && RoundUp(newsz) * PGSIZE % PGSIZE == 0;
        ok, n := UvmUnmap(r, RoundUp(newsz) * PGSIZE, npages, true);
      }
      return ok, newsz;
    }

    /** uvmalloc: grows a space from oldsz to newsz bytes with zeroed frames, or leaves
        every address map and every page in use as it was, because too few pages were free. */
    method UvmAlloc(r: nat, oldsz: nat, newsz: nat) returns (res: MapResult, sz: nat)
      requires Sound() && r in users && IsRoot(State(), r) && oldsz <= TWO64 - PGSIZE
      modifies this`mem, this`freelist, this`owner, this`free
      ensures Sound()
      ensures sz == if newsz < oldsz then oldsz else if res.Done? then newsz else 0
      ensures res.Done? ==> Allocated(old(State()), State(), r, RoundUp(oldsz), Zeroed(Span(oldsz, newsz)))
      ensures res.Done? ==>
        |free| == |old(free)| - PagesNeeded(old(State()), r, RoundUp(oldsz), Span(oldsz, newsz))
      ensures res.NoMemory? ==> Grown(old(State()), State(), r)
      ensures res.NoMemory? ==> |old(free)| < PagesNeeded(old(State()), r, RoundUp(oldsz), Span(oldsz, newsz))
      ensures res.Panic? ==> exists w :: RoundUp(oldsz) <= w < RoundUp(newsz) && !Mappable(old(State()), r, w)
      ensures res.Done? ==> forall w | RoundUp(oldsz) <= w < RoundUp(newsz) :: Mappable(old(State()), r, w)
    {
      hide Inv, FreeList, Allocated, Unmapped, Removable, Grown, OwnFrames, IsRoot, Lookup, Spaces, Closed;
      hide TablesAfter, MissingTables;
      ghost var s := State();
      ghost var first := RoundUp(oldsz);
      AllocatedNone(s, r, first);
      NoTables(s, r, first);
      if newsz < oldsz {
        RoundUpMonotone(newsz, oldsz);
        return Done, oldsz;
      }
      RoundUpMonotone(oldsz, newsz);
      var a := RoundUp(oldsz) * PGSIZE;
      ghost var v := first;
      while a < newsz
        invariant a == v * PGSIZE && first <= v <= RoundUp(newsz)
        invariant Sound() && IsRoot(State(), r)
        invariant Allocated(s, State(), r, first, Zeroed(v - first))
        invariant TablesAfter(s, State(), r, first, v - first)
        invariant |free| == |old(free)| - PagesNeeded(s, r, first, v - first)
        invariant forall w | first <= w < v :: Mappable(s, r, w)
      {
        BelowRoundUp(v, newsz);
        ghost var t := State();
        NextMissing(s, t, r, first, v - first);
        UserPermits();
        res := GrowOne(r, a / PGSIZE, ZeroPage(), USER_FLAGS, s, first, Zeroed(v - first));
        ZeroedNext(v - first);
        if res.Panic? {
          assert !Mappable(s, r, v);
          return res, 0;
        }
        if res.NoMemory? {
          MoreNeeded(s, r, first, v + 1 - first, Span(oldsz, newsz));
          ghost var y := State();
          FreshRemovable(s, y, r, first, Zeroed(v - first));
          assert v > first ==> Mappable(s, r, v - 1);
          RemovedAll(first, v);
          var ok, back := UvmDealloc(r, a, RoundUp(oldsz) * PGSIZE);
          AllocUndo(s, y, State(), r, first, v - first) by {
            AllocParts(s, y, r, first, Zeroed(v - first));
          }
          return res, 0;
        }
        TablesStep(s, t, State(), r, first, v - first);
        a := a + PGSIZE;
        v := v + 1;
      }
      AtRoundUp(v, newsz);
      return Done, newsz;
    }

    /** uvmcopy: gives space dst a copy of the first sz bytes of space src, in frames of its own, or
        leaves every address map and every page in use as it was, because too few pages were free.
        Undoing a copy never panics. */
    method UvmCopy(src: nat, dst: nat, sz: nat) returns (res: MapResult)
      requires Sound() && src in users && dst in users && src != dst && RoundUp(sz) <= TRAMPOLINE
      modifies this`mem, this`freelist, this`owner, this`free
      ensures Sound()
      ensures res.Done? ==> (forall w | 0 <= w < RoundUp(sz) :: Copyable(old(State()), src, dst, w))
      ensures res.Done? ==> Allocated(old(State()), State(), dst, 0, CopyOf(old(State()), src, RoundUp(sz)))
      ensures res.Done? ==> |free| == |old(free)| - PagesNeeded(old(State()), dst, 0, RoundUp(sz))
      ensures res.NoMemory? ==> Grown(old(State()), State(), dst)
      ensures res.NoMemory? ==> |old(free)| < PagesNeeded(old(State()), dst, 0, RoundUp(sz))
      ensures res.Panic? ==> exists w :: 0 <= w < RoundUp(sz) && !Copyable(old(State()), src, dst, w)
    {
      hide Inv, FreeList, Allocated, Unmapped, Removable, Grown, OwnFrames, IsRoot, Lookup, Val, Px0, Px1, Px2, Fresh;
      hide Spaces, Closed, TablesAfter, MissingTables, Permits;
      ghost var s := State();
      var i := 0;
      ghost var v := 0;
      AllocatedNone(s, dst, 0);
      NoTables(s, dst, 0);
      UserRoot(s, users, src);
      UserRoot(s, users, dst);
      while i < sz
        invariant i == v * PGSIZE && 0 <= v <= RoundUp(sz)
        invariant Sound() && IsRoot(State(), src) && IsRoot(State(), dst)
        invariant forall w | 0 <= w < v :: Copyable(s, src, dst, w)
        invariant Allocated(s, State(), dst, 0, CopyOf(s, src, v))
        invariant TablesAfter(s, State(), dst, 0, v)
        invariant |free| == |old(free)| - PagesNeeded(s, dst, 0, v)
      {
        BelowRoundUp(v, sz);
        ghost var t := State();
        UserBacked(s, users, src, v);
        SourceSame(s, t, src, dst, v, CopyOf(s, src, v));
        NextMissing(s, t, dst, 0, v);
        var slot := Walk(src, i, false);
        assert i / PGSIZE == v;
        LeafEntry(t, src, v);
        if !slot.Slot? {
          assert !Copyable(s, src, dst, v);
          return Panic;
        }
        var pte := mem[slot.page][slot.index];
        if !IsValid(pte) {
          assert !Copyable(s, src, dst, v);
          return Panic;
        }
        ValidFlags(pte);
        PermitsFlags(pte);
        res := GrowOne(dst, i / PGSIZE, mem[Ppn(pte)], Flags(pte), s, 0, CopyOf(s, src, v));
        if res.Panic? {
          assert !Copyable(s, src, dst, v);
          return;
        }
        if res.NoMemory? {
          ghost var u := State();
          MoreNeeded(s, dst, 0, v + 1, RoundUp(sz));
          UserClean(s, users, src, dst, v);
          UndoCopy(s, u, src, dst, v);
          StepsExact(0, v);
          var ok; ghost var n;
          ok, n := UvmUnmap(dst, 0, i / PGSIZE, true);
          AllocUndo(s, u, State(), dst, 0, v) by {
            AllocParts(s, u, dst, 0, CopyOf(s, src, v));
          }
          return;
        }
        assert CopyOf(s, src, v + 1) == CopyOf(s, src, v) + [Content(Flags(pte), s.mem[Ppn(pte)])];
        assert Copyable(s, src, dst, v);
        TablesStep(s, t, State(), dst, 0, v);
        i := i + PGSIZE;
        v := v + 1;
      }
      AtRoundUp(v, sz);
      return Done;
    }

    /** freewalk: frees the table page p and all tables below it; a leaf mapping found on
        the way is a panic. */
    method FreeWalk(p: nat, ghost o: Owner) returns (ok: bool)
      requires FreeOk() && p in mem && owner[p] == Pending && Ready(State(), p, o, 0)
      modifies this`mem, this`freelist, this`owner, this`free
      ensures FreeOk()
      ensures ok <==> LeafFree(old(State()), p, o, 0)
      ensures ok ==> Emptied(old(State()), State(), p, o)
      decreases Level(o)
    {
      hide IsValid, Ppn, Ready, LeafFree, FreeList, EmptiedTo, Emptied, Permits;
      ghost var s := State();
      FreeKeys(s, freelist, free);
      NoneEmptied(s, p, o);
      var i := 0;
      while i < ENTRIES
        invariant 0 <= i <= ENTRIES
        invariant FreeOk() && p in mem && p in owner && owner[p] == Pending
        invariant Ready(State(), p, o, i) && EmptiedTo(s, State(), p, o, i)
        invariant LeafFree(s, p, o, 0) <==> LeafFree(State(), p, o, i)
      {
        ghost var t := State();
        FreeKeys(t, freelist, free);
        var pte := mem[p][i];
        if !IsValid(pte) {
          SkipEntry(t, p, o, i);
          SkipEmptied(s, t, p, o, i);
        } else {
          EnterEntry(t, p, o, i);
          if Permits(pte) {
            return false;
          }
          var child := Ppn(pte);
          owner := owner[child := Pending];
          ghost var u := State();
          FreeFrame(t, u, freelist, free);
          ok := FreeWalk(child, Child(o, i));
          if !ok {
            return false;
          }
          ghost var v := State();
          OutsideSame(u, v, child, Child(o, i), p);
          mem := mem[p := mem[p][i := 0]];
          FreeFrame(v, State(), freelist, free);
          LeaveEntry(s, t, v, State(), p, o, i);
        }
        i := i + 1;
      }
      NothingLeft(State(), p, o);
      AllPassed(s, State(), p, o);
      ghost var t := State();
      ok := KFree(p);
      LastFreed(s, t, State(), p, o);
    }

    /** uvmfree: unmaps and frees the first sz bytes, then frees all page tables. It goes
        through iff exactly those pages were mapped, and then every page of the space is
        back on the free list and no other space changed. */
    method UvmFree(r: nat, sz: nat) returns (ok: bool)
      requires Sound() && r in users && sz <= TWO64 - PGSIZE
      modifies this
      ensures ok <==> AllRemovable(old(State()), r, 0, RoundUp(sz), true)
                      && (forall w: nat | w >= RoundUp(sz) :: Lookup(old(State()), r, w) == 0)
      ensures ok ==> Sound() && SpaceFreed(old(State()), State(), r) && users == old(users) - {r}
      ensures ok ==> forall q: nat, w: nat :: Lookup(State(), q, w) == if q == r then 0 else Lookup(old(State()), q, w)
    {
      hide Inv, FreeList, OwnFrames, Lookup, Unmapped, Ready, LeafFree, Emptied, LeavesPermit, Removable;
      hide Spaces, Closed, IsRoot;
      ghost var s := State();
      UserRoot(s, users, r);
      ok := true;
      ghost var n := 0;
      UnmappedNone(s, r, 0, Free);
      assert RoundUp(sz) * PGSIZE < TWO64;
      StepsExact(0, RoundUp(sz));
      if sz > 0 {
        ok, n := UvmUnmap(r, 0, RoundUp(sz), true);
        if !ok {
          return;
        }
      }
      assert n == RoundUp(sz);
      ghost var t := State();
      KeysOf(t);
      UserClosed(t, users, r);
      ClosedFrames(t, r, 0, 0);
      TreeReady(t, r);
      FreeKeys(t, freelist, free);
      owner := owner[r := Pending];
      ghost var u := State();
      assert t.owner[r] == Root(r) by {
        RootOwned(t, r);
      }
      FreeFrame(t, u, freelist, free);
      ok := FreeWalk(r, Root(r));
      RestUnmapped(s, t, r, n);
      if ok {
        AllFreed(s, t, u, State(), r, n);
        FreedKeeps(s, State(), r);
        FreedSpaces(s, State(), users, r);
        users := users - {r};
      }
    }

    /** uvmcreate: an empty address space, or 0 when memory has run out. */
    method UvmCreate() returns (r: nat)
      requires Sound()
      modifies this
      ensures Sound() && users == if r == 0 then old(users) else old(users) + {r}
      ensures r == 0 <==> old(free) == []
      ensures r == 0 ==> State() == old(State()) && free == []
      ensures r != 0 ==> IsRoot(State(), r) && SameMap(old(State()), State())
      ensures r != 0 ==> forall w :: Lookup(State(), r, w) == 0
      ensures r != 0 ==> r in old(mem) && old(owner)[r] == Free && owner == old(owner)[r := Root(r)]
      ensures r != 0 ==> free == old(free)[1..] && forall b | b in old(mem) && b != r :: mem[b] == old(mem)[b]
    {
      hide Inv, FreeList, Lookup, Fill, Spaces;
      ghost var s := State();
      FreeKeys(s, freelist, free);
      r := KAlloc();
      if r != 0 {
        ghost var u := State();
        mem := mem[r := ZeroPage()];
        owner := owner[r := Root(r)];
        assert State() == WithPage(s, r, ZeroPage(), Root(r));
        NewRoot(s, r);
        FreeFrame(u, State(), freelist, free);
        NewSpace(s, State(), users, r);
        users := users + {r};
      }
    }

    /** proc_pagetable: a space with nothing but the trampoline, which lies outside RAM, and a
        trapframe; or nothing, and everything as it was, iff fewer than three pages are free. */
    method ProcPagetable(tramp: nat, frame: nat) returns (r: nat)
      requires Sound() && tramp !in mem && frame in mem && owner[frame] == Pending
      modifies this
      ensures Sound() && users == if r == 0 then old(users) else old(users) + {r}
      ensures r == 0 <==> |old(free)| < 3
      ensures r == 0 ==> SameMap(old(State()), State()) && owner == old(owner)
      ensures r != 0 ==> r in old(mem) && old(owner)[r] == Free && |free| == |old(free)| - 3
      ensures r != 0 ==> TopOnly(old(State()), State(), r, tramp, frame)
      ensures r != 0 ==> GaveWithFrame(old(State()), State(), r, frame)
    {
      hide Inv, FreeList, Lookup, Spaces, MakePte, TablesAfter, MissingTables, Mapped, SpaceFreed, Permits, TopOnly;
      hide OnlyGave, GaveWithFrame, Px2, Px1, Removable;
      ghost var s := State();
      KeysOf(s);
      r := UvmCreate();
      if r == 0 {
        return;
      }
      ghost var u := State();
      KeysOf(u);
      CreateGave(s, u, r);
      NotUser(s, old(users), r);
      ghost var n;
      var res;
      TopTables(r);
      OnePage(TRAMPOLINE);
      res, n := MapPages(r, TRAMPOLINE * PGSIZE, PGSIZE, tramp * PGSIZE, 10);
      FreshMissing(s, u, r);
      ghost var t := State();
      assert n == if res.Done? then 1 else 0;
      TopBindable(u, users, r, n, tramp);
      RootMapped(u, t, r, r, TRAMPOLINE, n, tramp, 11);
      MappedGave(u, t, r, TRAMPOLINE, n, tramp, 11);
      GaveTrans(s, u, t, r);
      assert frame in t.mem && t.owner[frame] == Pending by {
        StillPending(s, t, r, frame);
      }
      if !res.Done? {
        NothingMapped(u, t, r, tramp);
        var ok := UvmFree(r, 0);
        Restored(s, t, State(), r);
        RestoredMap(s, u, t, State(), r, tramp);
        r := 0;
        return;
      }
      OnePage(TRAPFRAME);
      TopPresent(u, t, r);
      TrampolineOnly(u, t, r, tramp);
      res, n := MapPages(r, TRAPFRAME * PGSIZE, PGSIZE, frame * PGSIZE, 6);
      if !res.Done? {
        assert false;
      }
      OneBindable(t, users, r, TRAPFRAME, n, frame, 7);
      TopMade(s, u, t, State(), r, tramp, frame);
      FrameGiven(s, t, State(), r, frame);
    }

    /** proc_freepagetable: goes through iff the space holds its first sz bytes, the trampoline and
        the trapframe, and nothing else; then every page of the space is free again, except that
        the trapframe is left to the caller. */
    method ProcFreePagetable(r: nat, sz: nat) returns (ok: bool)
      requires Sound() && r in users && sz <= TWO64 - PGSIZE
      modifies this
      ensures ok <==> WholeSpace(old(State()), r, RoundUp(sz))
      ensures ok ==> Sound() && users == old(users) - {r} && AllBack(old(State()), State(), r)
      ensures ok ==> forall q: nat, w: nat :: Lookup(State(), q, w) == if q == r then 0 else Lookup(old(State()), q, w)
    {
      hide Inv, FreeList, Lookup, Spaces, Removable, SpaceFreed, Unmapped, IsRoot, WholeSpace, AllBack, AllRemovable;
      ghost var s := State();
      ghost var n;
      UserRoot(s, users, r);
      StepsExact(TRAMPOLINE * PGSIZE, 1);
      StepsExact(TRAPFRAME * PGSIZE, 1);
      ok, n := UvmUnmap(r, TRAMPOLINE * PGSIZE, 1, false);
      OneRemovable(s, r, TRAMPOLINE, false);
      NotWhole(s, r, RoundUp(sz));
      if !ok {
        return;
      }
      ghost var t := State();
      ok, n := UvmUnmap(r, TRAPFRAME * PGSIZE, 1, false);
      OneRemovable(t, r, TRAPFRAME, false);
      SameTrapframe(s, t, r);
      if !ok {
        return;
      }
      ghost var u := State();
      TopGone(s, t, u, r);
      RestWhole(s, u, r, RoundUp(sz));
      ok := UvmFree(r, sz);
      if ok {
        TopBack(s, t, u, State(), r);
      }
    }

    /** freerange: every whole page of [start, end) goes on the free list. */
    method FreeRange(start: nat, end: nat)
      requires FreeOk()
      requires forall b: nat | RoundUp(start) <= b < end / PGSIZE :: b in mem && owner[b] == Pending
      modifies this`mem, this`freelist, this`owner, this`free
      ensures FreeOk() && mem.Keys == old(mem).Keys == owner.Keys
      ensures forall b | b in mem :: owner[b] == if RoundUp(start) <= b < end / PGSIZE then Free else old(owner)[b]
    {
      hide Fill, FreeList, RoundUp;
      FreeKeys(State(), freelist, free);
      var p := RoundUp(start);
      while (p + 1) * PGSIZE <= end
        invariant RoundUp(start) <= p
        invariant p <= end / PGSIZE || p == RoundUp(start)
        invariant FreeOk() && mem.Keys == old(mem).Keys == owner.Keys
        invariant forall b | b in mem :: owner[b] == if RoundUp(start) <= b < p then Free else old(owner)[b]
        decreases end - p * PGSIZE
      {
        var ok := KFree(p);
        p := p + 1;
      }
    }

    /** kinit: all of RAM starts out on the free list. */
    constructor (start: nat, end: nat, ram: map<nat, Page>)
      requires 0 < RoundUp(start) && forall b: nat :: b in ram <==> RoundUp(start) <= b < end / PGSIZE
      ensures Sound() && mem.Keys == ram.Keys && users == {}
      ensures forall b | b in mem :: owner[b] == Free
    {
      mem := ram;
      owner := map b | b in ram :: Pending;
      freelist := 0;
      free := [];
      users := {};
      new;
      hide FreeList, Inv, RoundUp;
      NothingFree(State());
      FreeRange(start, end);
      FreeKeys(State(), freelist, free);
      AllPlain(State());
    }
  }
}
