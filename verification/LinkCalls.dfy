/** The system calls on directory entries as they run. */
module LinkCalls {
  import opened Options
  import opened Links
  import opened LinkRuns

  datatype Outcome = Ok | Refused | Panic
  datatype Made = New(i: nat) | Existing(i: nat) | NotMade | MakePanic

  predicate Is(e: Entry, name: string) {
    e.inum != 0 && e.name == Trunc(name)
  }

  /** Slot k is the first entry in use with this name. */
  predicate FirstNamed(es: seq<Entry>, name: string, k: nat) {
    k < |es| && Is(es[k], name) && forall j | 0 <= j < k :: !Is(es[j], name)
  }

  predicate Named(es: seq<Entry>, name: string) {
    exists k :: 0 <= k < |es| && Is(es[k], name)
  }

  /** The inode that the name leads to, 0 if none. */
  ghost function Target(s: Tree, d: nat, name: string): (i: nat)
    requires d < |s.inodes|
    ensures i == 0 <==> !Named(s.inodes[d].entries, name)
    ensures forall k: nat | FirstNamed(s.inodes[d].entries, name, k) :: i == s.inodes[d].entries[k].inum
  {
    var es := s.inodes[d].entries;
    if k :| 0 <= k < |es| && FirstNamed(es, name, k) then es[k].inum
    else FirstOf(es, name); 0
  }

  lemma FirstOf(es: seq<Entry>, name: string)
    ensures Named(es, name) ==> exists k: nat :: FirstNamed(es, name, k)
  {
    if Named(es, name) {
      var k := 0;
      while !Is(es[k], name)
        decreases |es| - k
        invariant 0 <= k < |es| && forall j | 0 <= j < k :: !Is(es[j], name)
      {
        k := k + 1;
      }
      assert FirstNamed(es, name, k);
    }
  }

  predicate IsDots(name: string) {
    Trunc(name) == "." || Trunc(name) == ".."
  }

  /** No slot is free and the directory has the largest size. */
  predicate Full(es: seq<Entry>) {
    |es| >= MAXENTRIES && forall j | 0 <= j < MAXENTRIES :: es[j].inum != 0
  }

  predicate IsDir(s: Tree, d: nat) {
    d < |s.inodes| && s.inodes[d].kind == Dir
  }

  /** The file has a name but no count left. */
  ghost predicate UnlinkPanic(s: Tree, d: nat, name: string)
    requires Shape(s) && IsDir(s, d)
  {
    assert DirShape(s, d);
    var i := Target(s, d, name);
    !IsDots(name) && 0 < i < |s.inodes| && s.inodes[i].nlink < 1
  }

  /** A dot, no such name, or a directory that is not empty. */
  ghost predicate UnlinkRefused(s: Tree, d: nat, name: string)
    requires Shape(s) && IsDir(s, d)
  {
    var i := Target(s, d, name);
    || IsDots(name) || i == 0
    || (i < |s.inodes| && s.inodes[i].nlink >= 1 && s.inodes[i].kind == Dir && !OnlyDots(s, i))
  }

  /** A new name, and the directory is full or no inode is free. */
  ghost predicate CreatePanic(s: Tree, d: nat, name: string)
    requires IsDir(s, d)
  {
    && !Named(s.inodes[d].entries, name)
    && (Full(s.inodes[d].entries) || forall i | 1 <= i < |s.inodes| :: s.inodes[i].kind != FreeInode)
  }

  class Directories {
    var inodes: seq<Inode>
    ghost var home: map<nat, (nat, nat)>
    ghost var depth: map<nat, nat>

    ghost function State(): Tree
      reads this
    {
      Tree(inodes, home, depth)
    }

    /** The directory tree of a new image; it is in order iff the names differ. */
    constructor (names: seq<string>)
      requires |names| + 2 <= NINODES
      ensures State() == MkfsTree(names) && Shape(State())
      ensures Inv(State()) <==> GoodNames(names)
    {
      inodes := seq(NINODES, i requires i >= 0 => MkfsInode(names, i));
      home := map[];
      depth := map[ROOT := 0];
      new;
      assert inodes == MkfsTree(names).inodes;
      MkfsInOrderIff(names);
      RunShape(names, Run([State()], []), 0);
    }

    /** dirlookup. */
    method DirLookup(d: nat, name: string) returns (k: int)
      requires d < |inodes|
      ensures k == -1 <==> !Named(inodes[d].entries, name)
      ensures k != -1 ==> k >= 0 && FirstNamed(inodes[d].entries, name, k)
    {
      var es := inodes[d].entries;
      k := 0;
      while k < |es|
        invariant 0 <= k <= |es|
        invariant forall j | 0 <= j < k :: !Is(es[j], name)
      {
        if es[k].inum != 0 && es[k].name == Trunc(name) {
          return;
        }
        k := k + 1;
      }
      return -1;
    }

    /** dirlink: refuses a name that is taken, else fills the first free slot; panics iff there is
        none and the directory cannot grow. */
    method DirLink(d: nat, name: string, i: nat) returns (r: Outcome, ghost k: nat)
      requires d < |inodes| && i != 0
      modifies this`inodes
      ensures r.Refused? <==> Named(old(inodes[d].entries), name)
      ensures r.Panic? <==> !Named(old(inodes[d].entries), name) && Full(old(inodes[d].entries))
      ensures !r.Ok? ==> inodes == old(inodes)
      ensures r.Ok? ==> FirstFreeSlot(old(inodes[d].entries), k) && k < MAXENTRIES
      ensures r.Ok? ==> inodes == old(WithEntry(State(), d, k, Entry(i, Trunc(name)))).inodes
    {
      k := 0;
      var at := DirLookup(d, name);
      if at >= 0 {
        return Refused, k;
      }
      var es := inodes[d].entries;
      var j := 0;
      while j < |es| && es[j].inum != 0
        invariant 0 <= j <= |es| && forall m | 0 <= m < j :: es[m].inum != 0
      {
        j := j + 1;
      }
      k := j;
      if j >= MAXENTRIES {
        return Panic, k;
      }
      inodes := inodes[d := inodes[d].(entries := PutEntry(es, j, Entry(i, Trunc(name))))];
      return Ok, k;
    }

    /** isdirempty. */
    method IsDirEmpty(d: nat) returns (empty: bool)
      requires d < |inodes|
      ensures empty <==> OnlyDots(State(), d)
    {
      var es := inodes[d].entries;
      var k := 2;
      while k < |es|
        invariant 2 <= k && forall j | 2 <= j < k && j < |es| :: es[j].inum == 0
      {
        if es[k].inum != 0 {
          return false;
        }
        k := k + 1;
      }
      return true;
    }

    /** sys_link: a new name for a file, with its count; a failure leaves all as it was. Panics iff
        the directory is full. */
    method SysLink(i: nat, dir: Option<nat>, name: string) returns (r: Outcome, ghost k: nat)
      requires Shape(State()) && i < |inodes| && inodes[i].kind != FreeInode
      requires dir.Some? ==> IsDir(State(), dir.value)
      modifies this
      ensures r.Refused? <==>
        old(inodes[i].kind) == Dir || dir.None? || Named(old(inodes[dir.value].entries), name)
      ensures r.Refused? ==> State() == old(State())
      ensures r.Panic? <==> !r.Refused? && Full(old(inodes[dir.value].entries))
      ensures r.Ok? ==> Next(old(State()), AddName(i, dir.value, k, Trunc(name)), State())
      ensures r.Ok? && old(Inv(State())) ==>
        (Inv(State()) <==> old(Linked(State(), dir.value) && inodes[i].nlink < MAXLINK))
    {
      hide Inv;
      ghost var s := State();
      k := 0;
      if inodes[i].kind == Dir {
        return Refused, k;
      }
      inodes := inodes[i := inodes[i].(nlink := Wrap(inodes[i].nlink + 1))];
      if dir.Some? {
        r, k := DirLink(dir.value, name, i);
        if r.Panic? {
          return;
        }
        if r.Ok? {
          SlotIsNew(s, dir.value, name, k);
          assert State() == Link(s, i, dir.value, k, Trunc(name));
          if Inv(s) {
            NextKeepsIff(s, AddName(i, dir.value, k, Trunc(name)), State());
          }
          return;
        }
      }
      inodes := inodes[i := inodes[i].(nlink := Wrap(inodes[i].nlink - 1))];
      assert inodes == s.inodes;
      return Refused, k;
    }

    /** sys_unlink: the entry goes and with it a link, and the inode if nothing else refers to it.
        Panics iff the count is below one, which cannot happen while counts equal names. */
    method SysUnlink(d: nat, name: string, last: bool) returns (r: Outcome)
      requires Shape(State()) && IsDir(State(), d)
      modifies this
      ensures r.Panic? <==> UnlinkPanic(old(State()), d, name)
      ensures r.Refused? <==> UnlinkRefused(old(State()), d, name)
      ensures !r.Ok? ==> State() == old(State())
      ensures r.Ok? ==> exists k :: Removes(old(State()), State(), d, k, name, last)
      ensures old(Inv(State())) ==> Inv(State()) && !r.Panic?
    {
      hide Inv;
      ghost var s := State();
      if Trunc(name) == "." || Trunc(name) == ".." {
        return Refused;
      }
      var k := DirLookup(d, name);
      if k < 0 {
        return Refused;
      }
      var i := inodes[d].entries[k].inum;
      assert i == Target(s, d, name) && DirShape(s, d);
      if Inv(s) {
        NamedCounts(s, d, k);
      }
      if inodes[i].nlink < 1 {
        return Panic;
      }
      if inodes[i].kind == Dir {
        var empty := IsDirEmpty(i);
        if !empty {
          return Refused;
        }
      }
      Drop(i, d, k, last);
      Removed(s, State(), d, k, name, last);
      return Ok;
    }

    /** The second half of unlink: the entry is cleared and the counts go down. */
    method Drop(i: nat, d: nat, k: nat, last: bool)
      requires i < |inodes| && d < |inodes| && i != d && k < |inodes[d].entries|
      modifies this`inodes
      ensures var u := old(Unlink(State(), i, d, k));
        State() == if last && u.inodes[i].nlink == 0 then FreeIt(u, i) else u
    {
      var isdir := inodes[i].kind == Dir;
      inodes := inodes[d := inodes[d].(entries := PutEntry(inodes[d].entries, k, Entry(0, "")))];
      if isdir {
        inodes := inodes[d := inodes[d].(nlink := Wrap(inodes[d].nlink - 1))];
      }
      inodes := inodes[i := inodes[i].(nlink := Wrap(inodes[i].nlink - 1))];
      if inodes[i].nlink == 0 && last {
        inodes := inodes[i := Inode(FreeInode, 0, [])];
      }
    }

    /** ialloc: the first free inode. */
    method IAlloc() returns (i: nat)
      requires |inodes| > 0
      ensures i == 0 <==> forall j | 1 <= j < |inodes| :: inodes[j].kind != FreeInode
      ensures i != 0 ==> i < |inodes| && inodes[i].kind == FreeInode
      ensures i != 0 ==> forall j | 1 <= j < i :: inodes[j].kind != FreeInode
    {
      i := 1;
      while i < |inodes|
        invariant 1 <= i && forall j | 1 <= j < i && j < |inodes| :: inodes[j].kind != FreeInode
      {
        if inodes[i].kind == FreeInode {
          return;
        }
        i := i + 1;
      }
      return 0;
    }

    /** create: a file that exists is returned, anything else that exists is refused; a new
        inode gets one link, and a new directory its dots and a link from its parent. Panics iff
        no inode is free or the directory is full. */
    method Create(d: nat, name: string, kind: Kind) returns (r: Made, ghost k: nat)
      requires Shape(State()) && IsDir(State(), d) && kind != FreeInode
      modifies this
      ensures r.Existing? || r.NotMade? <==> Named(old(inodes[d].entries), name)
      ensures r.Existing? || r.NotMade? ==> State() == old(State())
      ensures r.Existing? ==> r.i == Target(old(State()), d, name)
      ensures Named(old(inodes[d].entries), name) ==>
        (r.Existing? <==> kind == File && IsFile(old(State()), Target(old(State()), d, name)))
      ensures r.MakePanic? <==> CreatePanic(old(State()), d, name)
      ensures r.New? ==> Next(old(State()), MakeOp(r.i, kind, d, k, name), State())
      ensures r.New? && old(Inv(State())) ==> (Inv(State()) <==> old(Linked(State(), d)))
    {
      hide Inv;
      ghost var s := State();
      k := 0;
      var at := DirLookup(d, name);
      if at >= 0 {
        var i := inodes[d].entries[at].inum;
        assert i == Target(s, d, name) && DirShape(s, d);
        if kind == File && (inodes[i].kind == File || inodes[i].kind == Device) {
          return Existing(i), k;
        }
        return NotMade, k;
      }
      var i := IAlloc();
      if i == 0 {
        return MakePanic, k;
      }
      r, k := Enter(d, name, kind, i);
    }

    /** The second half of create, with a free inode in hand. */
    method Enter(d: nat, name: string, kind: Kind, i: nat) returns (r: Made, ghost k: nat)
      requires Shape(State()) && IsDir(State(), d) && kind != FreeInode && !Named(inodes[d].entries, name)
      requires IsFree(State(), i)
      modifies this
      ensures r == if Full(old(inodes[d].entries)) then MakePanic else New(i)
      ensures r.New? ==> Next(old(State()), MakeOp(i, kind, d, k, name), State())
      ensures r.New? && old(Inv(State())) ==> (Inv(State()) <==> old(Linked(State(), d)))
    {
      hide Inv;
      ghost var s := State();
      k := 0;
      inodes := inodes[i := Inode(kind, 1, [])];
      if kind == Dir {
        AddDots(i, d);
      }
      var o: Outcome;
      o, k := DirLink(d, name, i);
      if !o.Ok? {
        return MakePanic, k;
      }
      SlotIsNew(s, d, name, k);
      if kind == Dir {
        home := home[i := (d, k)];
        depth := depth[i := (if d in depth then depth[d] else 0) + 1];
        assert State() == CreateDir(s, i, d, k, Trunc(name));
      } else {
        assert State() == CreateFile(s, i, kind, d, k, Trunc(name));
      }
      if Inv(s) {
        NextKeepsIff(s, MakeOp(i, kind, d, k, name), State());
      }
      return New(i), k;
    }

    /** A link for the parent, then `.` and `..` in the new directory. */
    method AddDots(i: nat, d: nat)
      requires 0 < i < |inodes| && 0 < d < |inodes| && i != d && inodes[i] == Inode(Dir, 1, [])
      modifies this`inodes
      ensures inodes == old(AddLinks(State(), d, 1)).inodes[i := Inode(Dir, 1, [Entry(i, "."), Entry(d, "..")])]
    {
      inodes := inodes[d := inodes[d].(nlink := Wrap(inodes[d].nlink + 1))];
      ghost var k;
      var o: Outcome;
      o, k := DirLink(i, ".", i);
      assert inodes[i].entries == [Entry(i, ".")];
      o, k := DirLink(i, "..", d);
      assert inodes[i].entries == [Entry(i, "."), Entry(d, "..")];
    }
  }

  ghost function MakeOp(i: nat, kind: Kind, d: nat, k: nat, name: string): Op {
    if kind == Dir then MakeDir(i, d, k, Trunc(name)) else MakeFile(i, kind, d, k, Trunc(name))
  }

  /** Entry k of d was removed, and what it named freed if that had no link left. */
  ghost predicate Removes(s: Tree, t: Tree, d: nat, k: nat, name: string, last: bool) {
    && IsDir(s, d) && k >= 2 && FirstNamed(s.inodes[d].entries, name, k)
    && var i := s.inodes[d].entries[k].inum;
       && Removable(s, i, d, k)
       && var u := Unlink(s, i, d, k);
          t == if last && u.inodes[i].nlink == 0 then FreeIt(u, i) else u
  }

  lemma Removed(s: Tree, t: Tree, d: nat, k: nat, name: string, last: bool)
    requires Removes(s, t, d, k, name, last)
    ensures Inv(s) ==> Inv(t)
  {
    hide Inv, FirstNamed;
    if Inv(s) {
      var i := s.inodes[d].entries[k].inum;
      var u := Unlink(s, i, d, k);
      NextKeepsIff(s, Remove(i, d, k), u);
      if t != u {
        NextKeepsIff(u, Release(i), t);
      }
    }
  }

  /** A free slot found by dirlink, for a name that is not there, is past the dots. */
  lemma SlotIsNew(s: Tree, d: nat, name: string, k: nat)
    requires Shape(s) && IsDir(s, d) && !Named(s.inodes[d].entries, name)
    requires FirstFreeSlot(s.inodes[d].entries, k) && k < MAXENTRIES
    ensures Enters(s, d, k, Trunc(name)) && d != 0
  {
    assert DirShape(s, d);
  }

  /** While counts equal names, whatever is named has a link. */
  lemma NamedCounts(s: Tree, d: nat, k: nat)
    requires Inv(s) && IsDir(s, d) && 2 <= k < |s.inodes[d].entries| && s.inodes[d].entries[k].inum != 0
    ensures s.inodes[d].entries[k].inum < |s.inodes| && s.inodes[s.inodes[d].entries[k].inum].nlink >= 1
  {
    hide Names, Counted, DirOk, HomeOk;
    InLinked(s, d, k);
    EnteredLinks(s, d, k, s.inodes[d].entries[k].inum);
  }

  /** From the image without files, calls that all succeed lead to a tree where unlink of a file
      panics. */
  lemma UnlinkCanPanic() returns (s: Tree)
    ensures Reachable(s) && Shape(s) && IsDir(s, ROOT) && UnlinkPanic(s, ROOT, "f")
  {
    hide Next, MkfsTree;
    s := CountWraps();
    var r :| IsRun([], r) && r.states[|r.ops|] == s;
    RunShape([], r, |r.ops|);
    assert DirShape(s, ROOT);
    assert FirstNamed(s.inodes[ROOT].entries, "f", 2);
  }
}
