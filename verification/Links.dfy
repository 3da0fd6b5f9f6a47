/** Directory entries and link counts: create, link and unlink (kernel/sysfile.c, with
    dirlookup and dirlink of kernel/fs.c). */
module Links {
  const DIRSIZ: nat := 14
  const MAXENTRIES: nat := 17152         // entries in a directory of MAXFILE blocks
  const NINODES: nat := 200              // inodes mkfs lays out
  const ROOT: nat := 1
  const MAXLINK: int := 0x7fff

  datatype Kind = FreeInode | File | Device | Dir

  datatype Entry = Entry(inum: nat, name: string)

  /** nlink is a 16-bit signed number; adding to it wraps around. */
  type Short = n: int | -0x8000 <= n <= MAXLINK

  function Wrap(n: int): Short {
    (n + 0x8000) % 0x10000 - 0x8000
  }

  datatype Inode = Inode(kind: Kind, nlink: Short, entries: seq<Entry>)

  /** All inodes by number; where each directory other than the root is entered, and how far
      it is from the root. */
  datatype Tree = Tree(inodes: seq<Inode>, home: map<nat, (nat, nat)>, depth: map<nat, nat>)

  function Trunc(name: string): string {
    if |name| > DIRSIZ then name[..DIRSIZ] else name
  }

  /** A directory that has not been removed. */
  predicate Linked(s: Tree, d: nat) {
    d < |s.inodes| && s.inodes[d].kind == Dir && s.inodes[d].nlink > 0
  }

  /** The inode that slot k of directory d names, 0 if none. */
  function SlotAt(s: Tree, d: nat, k: nat): nat {
    if Linked(s, d) && k < |s.inodes[d].entries| then s.inodes[d].entries[k].inum else 0
  }

  /** The entries other than `.` that name inode i in linked directories. */
  function Names(s: Tree, i: nat): set<(nat, nat)> {
    set d, k | 0 <= d < |s.inodes| && 1 <= k < |s.inodes[d].entries| && SlotAt(s, d, k) == i
      :: (d, k)
  }

  // ---------------------------------------------------------------- the invariant

  /** A linked directory starts with `.` and `..`, has no name twice, and names only inodes
      in use; below it, directories are at home. */
  ghost predicate DirOk(s: Tree, d: nat)
    requires Linked(s, d)
  {
    var es := s.inodes[d].entries;
    && |es| >= 2 && es[0] == Entry(d, ".") && es[1].name == ".." && Linked(s, es[1].inum)
    && (forall j, k | 0 <= j < k < |es| && es[j].inum != 0 && es[k].inum != 0 :: es[j].name != es[k].name)
    && (forall k | 2 <= k < |es| && es[k].inum != 0 :: EntryOk(s, d, k))
  }

  ghost predicate EntryOk(s: Tree, d: nat, k: nat)
    requires Linked(s, d) && k < |s.inodes[d].entries|
  {
    var i := s.inodes[d].entries[k].inum;
    && i < |s.inodes| && i != ROOT && s.inodes[i].kind != FreeInode
    && (s.inodes[i].kind == Dir ==> Linked(s, i) && i in s.home && s.home[i] == (d, k))
  }

  /** A linked directory is entered once, in the directory its `..` names. */
  ghost predicate HomeOk(s: Tree, e: nat)
    requires Linked(s, e)
  {
    e == ROOT ||
    (e in s.home &&
     var (d, k) := s.home[e];
     && Linked(s, d) && 2 <= k < |s.inodes[d].entries| && s.inodes[d].entries[k].inum == e
     && SlotAt(s, e, 1) == d
     && d in s.depth && e in s.depth && s.depth[e] == s.depth[d] + 1)
  }

  ghost predicate InOrder(s: Tree, d: nat) {
    Linked(s, d) ==> DirOk(s, d) && HomeOk(s, d)
  }

  /** A directory that was removed while somebody was in it holds nothing but dots. */
  ghost predicate Gone(s: Tree, d: nat)
    requires d < |s.inodes|
  {
    var es := s.inodes[d].entries;
    && |es| >= 2 && es[0] == Entry(d, ".") && es[1].name == ".." && 0 < es[1].inum < |s.inodes|
    && OnlyDots(s, d)
  }

  /** Nothing but dots. */
  predicate OnlyDots(s: Tree, i: nat) {
    i < |s.inodes| && forall k | 2 <= k < |s.inodes[i].entries| :: s.inodes[i].entries[k].inum == 0
  }

  ghost predicate Counted(s: Tree) {
    forall i | 1 <= i < |s.inodes| :: s.inodes[i].nlink == |Names(s, i)|
  }

  ghost predicate Inv(s: Tree) {
    && ROOT < |s.inodes| <= NINODES && Linked(s, ROOT) && SlotAt(s, ROOT, 1) == ROOT
    && s.inodes[0].kind == FreeInode && ROOT in s.depth
    && (forall d | 0 <= d < |s.inodes| && s.inodes[d].kind == Dir && !Linked(s, d) :: Gone(s, d))
    && (forall d | 0 <= d < |s.inodes| :: InOrder(s, d))
    && (forall i | 0 <= i < |s.inodes| && s.inodes[i].kind == FreeInode :: s.inodes[i].nlink == 0)
    && Counted(s)
  }

  // ---------------------------------------------------------------- how names change

  /** A slot of a directory that stays linked changes from one inode to another. */
  lemma NamesChange(s: Tree, t: Tree, d: nat, k: nat, i: nat)
    requires |t.inodes| == |s.inodes| && d < |s.inodes| && k >= 1 && i >= 1
    requires forall e: nat, j: nat | j >= 1 && (e, j) != (d, k) :: SlotAt(t, e, j) == SlotAt(s, e, j)
    ensures Names(t, i) == (Names(s, i) - {(d, k)}) + (if SlotAt(t, d, k) == i then {(d, k)} else {})
  {
    forall e: nat, j: nat
      ensures (e, j) in Names(t, i) <==>
        (e, j) in (Names(s, i) - {(d, k)}) + (if SlotAt(t, d, k) == i then {(d, k)} else {})
    {
      SlotIn(s, e, j, i);
      SlotIn(t, e, j, i);
    }
  }

  lemma SlotIn(s: Tree, d: nat, k: nat, i: nat)
    requires i >= 1
    ensures (d, k) in Names(s, i) <==> k >= 1 && SlotAt(s, d, k) == i
  {
  }

  /** The number of names of i after a change of one slot. */
  lemma CountChange(s: Tree, t: Tree, d: nat, k: nat, i: nat)
    requires |t.inodes| == |s.inodes| && d < |s.inodes| && k >= 1 && i >= 1
    requires forall e: nat, j: nat | j >= 1 && (e, j) != (d, k) :: SlotAt(t, e, j) == SlotAt(s, e, j)
    ensures |Names(t, i)| ==
      |Names(s, i)| - (if SlotAt(s, d, k) == i then 1 else 0) + (if SlotAt(t, d, k) == i then 1 else 0)
  {
    NamesChange(s, t, d, k, i);
    SlotIn(s, d, k, i);
    assert |Names(s, i) - {(d, k)}| == |Names(s, i)| - if (d, k) in Names(s, i) then 1 else 0;
  }

  // ---------------------------------------------------------------- entering and clearing names

  /** Slot k of the entries, which may be the next one, is written. */
  function PutEntry(es: seq<Entry>, k: nat, e: Entry): seq<Entry>
    requires k <= |es|
  {
    if k < |es| then es[k := e] else es + [e]
  }

  function WithEntry(s: Tree, d: nat, k: nat, e: Entry): Tree
    requires d < |s.inodes| && k <= |s.inodes[d].entries|
  {
    s.(inodes := s.inodes[d := s.inodes[d].(entries := PutEntry(s.inodes[d].entries, k, e))])
  }

  function AddLinks(s: Tree, i: nat, n: int): Tree
    requires i < |s.inodes|
  {
    s.(inodes := s.inodes[i := s.inodes[i].(nlink := Wrap(s.inodes[i].nlink + n))])
  }

  /** Slot k of directory d, past the dots, is empty or the next one, and the name is new. The
      directory may have been removed while somebody was in it. */
  predicate Enterable(s: Tree, d: nat, k: nat, name: string) {
    && d < |s.inodes| && s.inodes[d].kind == Dir
    && var es := s.inodes[d].entries;
       && 2 <= k <= |es| && (k < |es| ==> es[k].inum == 0)
       && forall j | 0 <= j < |es| && es[j].inum != 0 :: es[j].name != name
  }

  /** Directories of t are in order, except that slot (d, k) is new and e is its home. */
  ghost predicate Same(s: Tree, t: Tree, d: nat, k: nat) {
    && |t.inodes| == |s.inodes|
    && (forall e | 0 <= e < |s.inodes| && Linked(s, e) ::
         Linked(t, e) && |t.inodes[e].entries| >= |s.inodes[e].entries|
         && (forall j | 0 <= j < |s.inodes[e].entries| && (e, j) != (d, k) ::
               t.inodes[e].entries[j] == s.inodes[e].entries[j])
         && (e != d ==> t.inodes[e].entries == s.inodes[e].entries))
    && (forall i | 0 <= i < |s.inodes| && s.inodes[i].kind != FreeInode :: t.inodes[i].kind == s.inodes[i].kind)
    && (forall e | 0 <= e < |s.inodes| && s.inodes[e].kind == Dir && !Linked(s, e) :: t.inodes[e] == s.inodes[e])
    && (forall e | 0 <= e < |t.inodes| && t.inodes[e].kind == Dir && !Linked(t, e) :: s.inodes[e].kind == Dir)
    && (forall e | e in s.home && Linked(s, e) :: e in t.home && t.home[e] == s.home[e])
    && (forall e | e in s.depth && Linked(s, e) :: e in t.depth && t.depth[e] == s.depth[e])
  }

  lemma SameDir(s: Tree, t: Tree, d: nat, k: nat, e: nat)
    requires Same(s, t, d, k) && Linked(s, e) && e != d && DirOk(s, e)
    ensures Linked(t, e) && DirOk(t, e)
  {
    forall j | 2 <= j < |t.inodes[e].entries| && t.inodes[e].entries[j].inum != 0
      ensures EntryOk(t, e, j)
    {
      assert EntryOk(s, e, j);
    }
  }

  lemma SameHome(s: Tree, t: Tree, d: nat, k: nat, e: nat)
    requires Same(s, t, d, k) && Linked(s, e) && HomeOk(s, e) && SlotAt(s, d, k) == 0 && k >= 2
    requires |s.inodes[e].entries| >= 2 && e != 0
    ensures Linked(t, e) && HomeOk(t, e)
  {
    if e != ROOT {
      var (c, j) := s.home[e];
      assert s.inodes[c].entries[j].inum == e;
    }
  }

  /** The directory that gets the new entry. */
  lemma EnteredDir(s: Tree, t: Tree, d: nat, k: nat, i: nat, name: string)
    requires Same(s, t, d, k) && Linked(s, d) && Enterable(s, d, k, name) && DirOk(s, d)
    requires t.inodes[d].entries == PutEntry(s.inodes[d].entries, k, Entry(i, name)) && i != 0
    requires Linked(t, d) && EntryOk(t, d, k)
    ensures DirOk(t, d)
  {
    forall j | 2 <= j < |t.inodes[d].entries| && t.inodes[d].entries[j].inum != 0
      ensures EntryOk(t, d, j)
    {
      if j != k {
        assert EntryOk(s, d, j);
      }
    }
  }

  /** Slots after an entry was made in a linked directory. */
  lemma EnteredSlots(s: Tree, t: Tree, d: nat, k: nat, i: nat, name: string, e: nat, j: nat)
    requires Linked(s, d) && k <= |s.inodes[d].entries| && |t.inodes| == |s.inodes|
    requires t.inodes[d].entries == PutEntry(s.inodes[d].entries, k, Entry(i, name)) && Linked(t, d)
    requires e != d && e < |s.inodes| ==>
      Linked(t, e) == Linked(s, e) && (Linked(s, e) ==> t.inodes[e].entries == s.inodes[e].entries)
    ensures SlotAt(t, e, j) == if (e, j) == (d, k) then i else SlotAt(s, e, j)
  {
  }

  // ---------------------------------------------------------------- link

  function Link(s: Tree, i: nat, d: nat, k: nat, name: string): Tree
    requires i < |s.inodes| && d < |s.inodes| && k <= |s.inodes[d].entries|
  {
    WithEntry(AddLinks(s, i, 1), d, k, Entry(i, name))
  }

  /** Counts stay equal to names iff the directory is still linked and the count does not wrap. */
  lemma LinkKeeps(s: Tree, i: nat, d: nat, k: nat, name: string)
    requires Inv(s) && Enterable(s, d, k, name) && i < |s.inodes|
    requires s.inodes[i].kind == File || s.inodes[i].kind == Device
    ensures Inv(Link(s, i, d, k, name)) <==> Linked(s, d) && s.inodes[i].nlink < MAXLINK
  {
    hide Names, Counted, DirOk, HomeOk;
    if s.inodes[i].nlink == MAXLINK {
      NotCounted(Link(s, i, d, k, name), i);
    } else if !Linked(s, d) {
      LinkInRemoved(s, i, d, k, name);
    } else {
      LinkInOrder(s, i, d, k, name);
    }
  }

  /** A count that is not the number of names. */
  lemma NotCounted(t: Tree, i: nat)
    requires 1 <= i < |t.inodes| && t.inodes[i].nlink != |Names(t, i)|
    ensures !Inv(t)
  {
    hide Names, DirOk, HomeOk;
  }

  /** The entry in a removed directory counts for nothing, the link does. */
  lemma LinkInRemoved(s: Tree, i: nat, d: nat, k: nat, name: string)
    requires Inv(s) && Enterable(s, d, k, name) && !Linked(s, d) && i < |s.inodes|
    requires s.inodes[i].kind != Dir && s.inodes[i].kind != FreeInode && s.inodes[i].nlink < MAXLINK
    ensures !Inv(Link(s, i, d, k, name))
  {
    hide Names, DirOk, HomeOk;
    var t := Link(s, i, d, k, name);
    forall e: nat, j: nat
      ensures SlotAt(t, e, j) == SlotAt(s, e, j)
    {
    }
    CountChange(s, t, d, 1, i);
    NotCounted(t, i);
  }

  lemma LinkInOrder(s: Tree, i: nat, d: nat, k: nat, name: string)
    requires Inv(s) && Linked(s, d) && Enterable(s, d, k, name) && i < |s.inodes|
    requires (s.inodes[i].kind == File || s.inodes[i].kind == Device) && s.inodes[i].nlink < MAXLINK
    ensures Inv(Link(s, i, d, k, name))
  {
    hide Names, Counted, DirOk, HomeOk;
    var t := Link(s, i, d, k, name);
    NotSpecial(s, i, d);
    assert Same(s, t, d, k);
    LinkCounts(s, i, d, k, name);
    forall e | 0 <= e < |t.inodes| && Linked(t, e)
      ensures InOrder(t, e)
    {
      assert InOrder(s, e) && Linked(s, e);
      TwoEntries(s, e);
      SameHome(s, t, d, k, e);
      if e != d {
        SameDir(s, t, d, k, e);
      } else {
        EnteredDir(s, t, d, k, i, name);
      }
    }
    DotDot(s, t, d, k);
  }

  /** A file is neither the root nor a directory. */
  lemma NotSpecial(s: Tree, i: nat, d: nat)
    requires Inv(s) && i < |s.inodes| && s.inodes[i].kind != Dir && s.inodes[i].kind != FreeInode && Linked(s, d)
    ensures i != ROOT && i != d && i != 0
  {
    hide Names, Counted, DirOk, HomeOk;
  }

  lemma TwoEntries(s: Tree, e: nat)
    requires Linked(s, e) && DirOk(s, e)
    ensures |s.inodes[e].entries| >= 2
  {
  }

  /** The root keeps its `..`. */
  lemma DotDot(s: Tree, t: Tree, d: nat, k: nat)
    requires Inv(s) && Same(s, t, d, k) && k >= 2
    ensures Linked(t, ROOT) && SlotAt(t, ROOT, 1) == ROOT
  {
    hide Names, Counted, HomeOk;
    assert InOrder(s, ROOT);
  }

  lemma LinkCounts(s: Tree, i: nat, d: nat, k: nat, name: string)
    requires Inv(s) && Linked(s, d) && Enterable(s, d, k, name) && i < |s.inodes| && i != 0 && i != d
    requires s.inodes[i].kind != Dir && s.inodes[i].nlink < MAXLINK
    ensures Counted(Link(s, i, d, k, name))
  {
    hide Names, DirOk, HomeOk;
    var t := Link(s, i, d, k, name);
    forall e: nat, j: nat
      ensures SlotAt(t, e, j) == if (e, j) == (d, k) then i else SlotAt(s, e, j)
    {
      EnteredSlots(s, t, d, k, i, name, e, j);
    }
    forall c | 1 <= c < |t.inodes|
      ensures t.inodes[c].nlink == |Names(t, c)|
    {
      CountChange(s, t, d, k, c);
    }
  }

  // ---------------------------------------------------------------- create

  function CreateFile(s: Tree, i: nat, kind: Kind, d: nat, k: nat, name: string): Tree
    requires i < |s.inodes| && d < |s.inodes| && d != i && k <= |s.inodes[d].entries|
  {
    WithEntry(s.(inodes := s.inodes[i := Inode(kind, 1, [])]), d, k, Entry(i, name))
  }

  /** Counts stay equal to names iff the directory is still linked. */
  lemma CreateFileKeeps(s: Tree, i: nat, kind: Kind, d: nat, k: nat, name: string)
    requires Inv(s) && Enterable(s, d, k, name) && 0 < i < |s.inodes| && s.inodes[i].kind == FreeInode
    requires kind == File || kind == Device
    ensures d != i && (Inv(CreateFile(s, i, kind, d, k, name)) <==> Linked(s, d))
  {
    hide Names, Counted, DirOk, HomeOk;
    if Linked(s, d) {
      CreateFileInOrder(s, i, kind, d, k, name);
    } else {
      CreateFileInRemoved(s, i, kind, d, k, name);
    }
  }

  lemma CreateFileInRemoved(s: Tree, i: nat, kind: Kind, d: nat, k: nat, name: string)
    requires Inv(s) && Enterable(s, d, k, name) && !Linked(s, d) && 0 < i < |s.inodes|
    requires s.inodes[i].kind == FreeInode && i != d && (kind == File || kind == Device)
    ensures !Inv(CreateFile(s, i, kind, d, k, name))
  {
    hide Names, DirOk, HomeOk;
    var t := CreateFile(s, i, kind, d, k, name);
    forall e: nat, j: nat
      ensures SlotAt(t, e, j) == SlotAt(s, e, j)
    {
    }
    CountChange(s, t, d, 1, i);
    NotCounted(t, i);
  }

  lemma CreateFileInOrder(s: Tree, i: nat, kind: Kind, d: nat, k: nat, name: string)
    requires Inv(s) && Linked(s, d) && Enterable(s, d, k, name) && 0 < i < |s.inodes|
    requires s.inodes[i].kind == FreeInode && i != d && (kind == File || kind == Device)
    ensures Inv(CreateFile(s, i, kind, d, k, name))
  {
    hide Names, Counted, DirOk, HomeOk;
    var t := CreateFile(s, i, kind, d, k, name);
    assert Same(s, t, d, k);
    CreateFileCounts(s, i, kind, d, k, name);
    forall e | 0 <= e < |t.inodes| && Linked(t, e)
      ensures InOrder(t, e)
    {
      assert InOrder(s, e) && Linked(s, e);
      TwoEntries(s, e);
      SameHome(s, t, d, k, e);
      if e != d {
        SameDir(s, t, d, k, e);
      } else {
        EnteredDir(s, t, d, k, i, name);
      }
    }
    DotDot(s, t, d, k);
  }

  lemma CreateFileCounts(s: Tree, i: nat, kind: Kind, d: nat, k: nat, name: string)
    requires Inv(s) && Linked(s, d) && Enterable(s, d, k, name) && 0 < i < |s.inodes|
    requires s.inodes[i].kind == FreeInode && kind != Dir && i != d
    ensures Counted(CreateFile(s, i, kind, d, k, name))
  {
    hide Names, DirOk, HomeOk;
    var t := CreateFile(s, i, kind, d, k, name);
    forall e: nat, j: nat
      ensures SlotAt(t, e, j) == if (e, j) == (d, k) then i else SlotAt(s, e, j)
    {
      EnteredSlots(s, t, d, k, i, name, e, j);
    }
    forall c | 1 <= c < |t.inodes|
      ensures t.inodes[c].nlink == |Names(t, c)|
    {
      CountChange(s, t, d, k, c);
    }
  }

  /** mkdir: the new directory with its dots, one more link for the parent, then the entry. */
  function NewDir(s: Tree, i: nat, d: nat, k: nat): Tree
    requires i < |s.inodes| && d < |s.inodes| && d != i
  {
    var t := AddLinks(s, d, 1);
    Tree(t.inodes[i := Inode(Dir, 1, [Entry(i, "."), Entry(d, "..")])],
         s.home[i := (d, k)], s.depth[i := (if d in s.depth then s.depth[d] else 0) + 1])
  }

  function CreateDir(s: Tree, i: nat, d: nat, k: nat, name: string): Tree
    requires i < |s.inodes| && d < |s.inodes| && d != i && k <= |s.inodes[d].entries|
  {
    WithEntry(NewDir(s, i, d, k), d, k, Entry(i, name))
  }

  /** The tree stays in order iff the directory is still linked. */
  lemma CreateDirKeeps(s: Tree, i: nat, d: nat, k: nat, name: string)
    requires Inv(s) && Enterable(s, d, k, name) && 0 < i < |s.inodes| && s.inodes[i].kind == FreeInode
    ensures d != i && (Inv(CreateDir(s, i, d, k, name)) <==> Linked(s, d))
  {
    hide Names, Counted, DirOk, HomeOk;
    if Linked(s, d) {
      FewNames(s, d);
      CreateDirInOrder(s, i, d, k, name);
    } else {
      CreateDirInRemoved(s, i, d, k, name);
    }
  }

  /** A link for `..` brings a removed directory back, at no place in the tree. */
  lemma CreateDirInRemoved(s: Tree, i: nat, d: nat, k: nat, name: string)
    requires Inv(s) && Enterable(s, d, k, name) && !Linked(s, d) && 0 < i < |s.inodes|
    requires s.inodes[i].kind == FreeInode && i != d
    ensures !Inv(CreateDir(s, i, d, k, name))
  {
    hide Names, Counted, DirOk;
    var t := CreateDir(s, i, d, k, name);
    CountNotNegative(s, d);
    assert Linked(t, d) && d != ROOT;
    if HomeOk(t, d) {
      var (e, j) := s.home[d];
      assert e != i && e != d && Linked(s, e);
      assert InOrder(s, e);
      RemovedNotEntered(s, d, e, j);
    } else {
      assert !InOrder(t, d);
    }
  }

  lemma CountNotNegative(s: Tree, i: nat)
    requires Inv(s) && i < |s.inodes|
    ensures s.inodes[i].nlink >= 0
  {
    hide Names, DirOk, HomeOk;
  }

  lemma RemovedNotEntered(s: Tree, d: nat, e: nat, j: nat)
    requires d < |s.inodes| && s.inodes[d].kind == Dir && !Linked(s, d) && Linked(s, e) && DirOk(s, e) && d != 0
    requires 2 <= j < |s.inodes[e].entries|
    ensures s.inodes[e].entries[j].inum != d
  {
    assert s.inodes[e].entries[j].inum != 0 ==> EntryOk(s, e, j);
  }

  /** A directory has at most one name per directory in it and one of its own. */
  lemma FewNames(s: Tree, d: nat)
    requires Inv(s) && Linked(s, d)
    ensures s.inodes[d].nlink <= NINODES + 1
  {
    hide DirOk, HomeOk;
    var ups := UpsBelow(|s.inodes|);
    var own := if d in s.home then {s.home[d]} else {};
    DepthKnown(s, d);
    forall x | x in Names(s, d)
      ensures x in ups + own
    {
      UpOrOwn(s, d, x.0, x.1);
    }
    Subset(Names(s, d), ups + own);
    UpsCount(|s.inodes|);
  }

  function UpsBelow(n: nat): set<(nat, nat)> {
    set e: nat | e < n :: (e, 1)
  }

  lemma {:induction false} UpsCount(n: nat)
    ensures |UpsBelow(n)| == n
  {
    if n > 0 {
      UpsCount(n - 1);
      assert UpsBelow(n) == UpsBelow(n - 1) + {(n - 1, 1)};
    }
  }

  lemma UpOrOwn(s: Tree, d: nat, e: nat, k: nat)
    requires Inv(s) && Linked(s, d) && d != 0 && SlotAt(s, e, k) == d && k >= 1
    ensures e < |s.inodes| && (k == 1 || (d in s.home && (e, k) == s.home[d]))
  {
    hide Names, Counted, HomeOk;
    assert InOrder(s, e);
    if k >= 2 {
      assert EntryOk(s, e, k);
    }
  }

  lemma CreateDirInOrder(s: Tree, i: nat, d: nat, k: nat, name: string)
    requires Inv(s) && Linked(s, d) && Enterable(s, d, k, name) && 0 < i < |s.inodes|
    requires s.inodes[i].kind == FreeInode && i != d && s.inodes[d].nlink < MAXLINK
    ensures Inv(CreateDir(s, i, d, k, name))
  {
    hide Names, Counted, DirOk, HomeOk;
    var t := CreateDir(s, i, d, k, name);
    assert Same(s, t, d, k);
    CreateDirCounts(s, i, d, k, name);
    forall e | 0 <= e < |t.inodes| && Linked(t, e)
      ensures InOrder(t, e)
    {
      if e == i {
        DepthKnown(s, d);
        NewDirOk(s, i, d, k, name);
      } else {
        assert InOrder(s, e) && Linked(s, e);
        TwoEntries(s, e);
        SameHome(s, t, d, k, e);
        if e != d {
          SameDir(s, t, d, k, e);
        } else {
          EnteredDir(s, t, d, k, i, name);
        }
      }
    }
    DotDot(s, t, d, k);
  }

  lemma NewDirOk(s: Tree, i: nat, d: nat, k: nat, name: string)
    requires Linked(s, d) && Enterable(s, d, k, name) && 0 < i < |s.inodes| && i != d && d in s.depth
    requires s.inodes[d].nlink < MAXLINK
    ensures var t := CreateDir(s, i, d, k, name);
      Linked(t, i) && DirOk(t, i) && HomeOk(t, i)
  {
  }

  lemma CreateDirCounts(s: Tree, i: nat, d: nat, k: nat, name: string)
    requires Inv(s) && Linked(s, d) && Enterable(s, d, k, name) && 0 < i < |s.inodes|
    requires s.inodes[i].kind == FreeInode && i != d && s.inodes[d].nlink < MAXLINK
    ensures Counted(CreateDir(s, i, d, k, name))
  {
    hide Names, DirOk, HomeOk;
    var u, t := NewDir(s, i, d, k), CreateDir(s, i, d, k, name);
    forall e: nat, j: nat | j >= 1
      ensures SlotAt(u, e, j) == if (e, j) == (i, 1) then d else SlotAt(s, e, j)
      ensures SlotAt(t, e, j) == if (e, j) == (d, k) then i else SlotAt(u, e, j)
    {
    }
    forall c | 1 <= c < |t.inodes|
      ensures t.inodes[c].nlink == |Names(t, c)|
    {
      CountChange(s, u, i, 1, c);
      CountChange(u, t, d, k, c);
    }
  }

  lemma DepthKnown(s: Tree, d: nat)
    requires Inv(s) && Linked(s, d)
    ensures d in s.depth && d != 0
  {
    hide Names, Counted, DirOk;
    assert InOrder(s, d);
  }

  // ---------------------------------------------------------------- unlink

  function Unlink(s: Tree, i: nat, d: nat, k: nat): Tree
    requires i < |s.inodes| && d < |s.inodes| && k < |s.inodes[d].entries|
  {
    var t := WithEntry(s, d, k, Entry(0, ""));
    var u := if s.inodes[i].kind == Dir then AddLinks(t, d, -1) else t;
    AddLinks(u, i, -1)
  }

  /** An entry past the dots, with what it names. */
  ghost predicate Entered(s: Tree, d: nat, k: nat, i: nat) {
    Linked(s, d) && 2 <= k < |s.inodes[d].entries| && s.inodes[d].entries[k].inum == i && i != 0
  }

  /** A directory is not entered in itself. */
  lemma NotInItself(s: Tree, d: nat, k: nat, i: nat)
    requires Inv(s) && Entered(s, d, k, i)
    ensures i < |s.inodes| && i != ROOT && i != d && s.inodes[i].kind != FreeInode
    ensures s.inodes[i].kind == Dir ==> Linked(s, i) && i in s.home && s.home[i] == (d, k) && SlotAt(s, i, 1) == d
  {
    hide Names, Counted;
    assert InOrder(s, d) && EntryOk(s, d, k);
    if s.inodes[i].kind == Dir {
      assert InOrder(s, i);
    }
  }

  /** Whatever is entered has a link; a directory gives its parent a second one; an empty
      directory has no other. */
  lemma EnteredLinks(s: Tree, d: nat, k: nat, i: nat)
    requires Inv(s) && Entered(s, d, k, i)
    ensures i < |s.inodes| && i != ROOT && i != d && s.inodes[i].nlink > 0 && s.inodes[i].kind != FreeInode
    ensures s.inodes[i].kind == Dir ==> Linked(s, i) && s.inodes[d].nlink > 1
    ensures s.inodes[i].kind == Dir && OnlyDots(s, i) ==> s.inodes[i].nlink == 1
  {
    hide Names, DirOk, HomeOk;
    NotInItself(s, d, k, i);
    SlotIn(s, d, k, i);
    SomeName(s, i, (d, k));
    if s.inodes[i].kind == Dir {
      TwoNames(s, d, k, i);
      if OnlyDots(s, i) {
        OneName(s, d, k, i);
      }
    }
  }

  lemma SomeName(s: Tree, i: nat, x: (nat, nat))
    requires x in Names(s, i)
    ensures |Names(s, i)| > 0
  {
    assert Names(s, i) == (Names(s, i) - {x}) + {x};
  }

  lemma TwoNames(s: Tree, d: nat, k: nat, i: nat)
    requires Inv(s) && Entered(s, d, k, i) && Linked(s, i) && SlotAt(s, i, 1) == d && i != ROOT
    ensures |Names(s, d)| > 1
  {
    hide Names, Counted, DirOk;
    assert InOrder(s, d);
    DepthKnown(s, d);
    var x := if d == ROOT then (ROOT, 1) else s.home[d];
    SlotIn(s, x.0, x.1, d);
    SlotIn(s, i, 1, d);
    var both: set<(nat, nat)> := {x, (i, 1)};
    assert both <= Names(s, d);
    Subset(both, Names(s, d));
  }

  lemma Subset<T>(a: set<T>, b: set<T>)
    requires a <= b
    ensures |a| <= |b|
  {
    assert b == a + (b - a);
  }

  /** Nobody's `..` names an empty directory. */
  lemma NoChildren(s: Tree, i: nat, e: nat)
    requires Inv(s) && Linked(s, i) && i != ROOT && OnlyDots(s, i) && Linked(s, e)
    ensures SlotAt(s, e, 1) != i && (e in s.home && e != ROOT ==> s.home[e].0 != i)
  {
    hide Names, Counted, DirOk;
    assert InOrder(s, e);
    DepthKnown(s, e);
  }

  lemma OneName(s: Tree, d: nat, k: nat, i: nat)
    requires Inv(s) && Entered(s, d, k, i) && Linked(s, i) && i != ROOT && OnlyDots(s, i)
    requires i in s.home && s.home[i] == (d, k)
    ensures |Names(s, i)| == 1
  {
    hide Names, Counted, HomeOk;
    forall x: (nat, nat)
      ensures x in Names(s, i) <==> x == (d, k)
    {
      var (e, j) := x;
      SlotIn(s, e, j, i);
      if Linked(s, e) {
        NoChildren(s, i, e);
        assert InOrder(s, e);
        if j >= 2 && SlotAt(s, e, j) == i {
          assert EntryOk(s, e, j);
        }
      }
    }
    assert Names(s, i) == {(d, k)};
  }

  // ---------------------------------------------------------------- unlink keeps the tree

  lemma UnlinkFileKeeps(s: Tree, i: nat, d: nat, k: nat)
    requires Inv(s) && Entered(s, d, k, i) && i < |s.inodes| && i != d && s.inodes[i].nlink > 0
    requires s.inodes[i].kind != Dir
    ensures Inv(Unlink(s, i, d, k))
  {
    hide Names, Counted, DirOk, HomeOk;
    var t := Unlink(s, i, d, k);
    NotInItself(s, d, k, i);
    UnlinkFileCounts(s, i, d, k);
    forall e | 0 <= e < |t.inodes| && Linked(t, e)
      ensures InOrder(t, e)
    {
      assert InOrder(s, e) && Linked(s, e);
      FileGoneDir(s, i, d, k, e);
    }
    assert InOrder(s, ROOT);
    FileGoneDir(s, i, d, k, ROOT);
    RootDots(s, t);
  }

  lemma FileGoneDir(s: Tree, i: nat, d: nat, k: nat, e: nat)
    requires Entered(s, d, k, i) && i < |s.inodes| && i != d && s.inodes[i].nlink > 0 && s.inodes[i].kind != Dir
    requires Linked(s, e) && DirOk(s, e) && HomeOk(s, e)
    ensures var t := Unlink(s, i, d, k);
      Linked(t, e) && DirOk(t, e) && HomeOk(t, e) && t.inodes[e].entries[1] == s.inodes[e].entries[1]
  {
    var t := Unlink(s, i, d, k);
    forall j | 2 <= j < |t.inodes[e].entries| && t.inodes[e].entries[j].inum != 0
      ensures EntryOk(t, e, j)
    {
      assert EntryOk(s, e, j);
    }
  }

  lemma RootDots(s: Tree, t: Tree)
    requires Inv(s) && Linked(t, ROOT) && DirOk(t, ROOT) && t.inodes[ROOT].entries[1] == s.inodes[ROOT].entries[1]
    ensures SlotAt(t, ROOT, 1) == ROOT
  {
    hide Names, Counted, HomeOk;
    assert InOrder(s, ROOT);
  }

  lemma UnlinkFileCounts(s: Tree, i: nat, d: nat, k: nat)
    requires Inv(s) && Entered(s, d, k, i) && i < |s.inodes| && i != d && s.inodes[i].nlink > 0
    requires s.inodes[i].kind != Dir
    ensures Counted(Unlink(s, i, d, k))
  {
    hide Names, DirOk, HomeOk;
    var t := Unlink(s, i, d, k);
    forall e: nat, j: nat
      ensures SlotAt(t, e, j) == if (e, j) == (d, k) then 0 else SlotAt(s, e, j)
    {
    }
    forall c | 1 <= c < |t.inodes|
      ensures t.inodes[c].nlink == |Names(t, c)|
    {
      CountChange(s, t, d, k, c);
    }
  }

  lemma UnlinkDirKeeps(s: Tree, i: nat, d: nat, k: nat)
    requires Inv(s) && Entered(s, d, k, i) && Linked(s, i) && OnlyDots(s, i)
    ensures i != d && Inv(Unlink(s, i, d, k)) && Unlink(s, i, d, k).inodes[i].nlink == 0
  {
    hide Names, Counted, DirOk, HomeOk;
    EnteredLinks(s, d, k, i);
    NotInItself(s, d, k, i);
    var t := Unlink(s, i, d, k);
    UnlinkDirCounts(s, i, d, k);
    NowGone(s, i, d, k);
    forall e | 0 <= e < |t.inodes| && Linked(t, e)
      ensures InOrder(t, e)
    {
      assert InOrder(s, e) && Linked(s, e);
      NoChildren(s, i, e);
      DirGoneDir(s, i, d, k, e);
    }
    DirGoneRoot(s, i, d, k);
  }

  lemma NowGone(s: Tree, i: nat, d: nat, k: nat)
    requires Inv(s) && Entered(s, d, k, i) && Linked(s, i) && OnlyDots(s, i) && i != d
    ensures Gone(Unlink(s, i, d, k), i)
  {
    hide Names, Counted, HomeOk;
    assert InOrder(s, i);
  }

  lemma DirGoneRoot(s: Tree, i: nat, d: nat, k: nat)
    requires Inv(s) && Entered(s, d, k, i) && Linked(s, i) && OnlyDots(s, i) && i != d && i != ROOT
    requires s.inodes[i].nlink == 1 && s.inodes[d].nlink > 1 && i in s.home && s.home[i] == (d, k)
    ensures var t := Unlink(s, i, d, k);
      Linked(t, ROOT) && SlotAt(t, ROOT, 1) == ROOT
  {
    hide Names, Counted, DirOk, HomeOk;
    assert InOrder(s, ROOT);
    NoChildren(s, i, ROOT);
    DirGoneDir(s, i, d, k, ROOT);
    RootDots(s, Unlink(s, i, d, k));
  }

  lemma DirGoneDir(s: Tree, i: nat, d: nat, k: nat, e: nat)
    requires Entered(s, d, k, i) && Linked(s, i) && i != d && s.inodes[i].nlink == 1 && s.inodes[d].nlink > 1
    requires Linked(s, e) && DirOk(s, e) && HomeOk(s, e) && e != i && e != 0
    requires SlotAt(s, e, 1) != i && (e in s.home && e != ROOT ==> s.home[e].0 != i)
    requires i in s.home && s.home[i] == (d, k)
    ensures var t := Unlink(s, i, d, k);
      Linked(t, e) && DirOk(t, e) && HomeOk(t, e) && t.inodes[e].entries[1] == s.inodes[e].entries[1]
  {
    var t := Unlink(s, i, d, k);
    forall j | 2 <= j < |t.inodes[e].entries| && t.inodes[e].entries[j].inum != 0
      ensures EntryOk(t, e, j)
    {
      assert EntryOk(s, e, j);
    }
  }

  lemma UnlinkDirCounts(s: Tree, i: nat, d: nat, k: nat)
    requires Inv(s) && Entered(s, d, k, i) && Linked(s, i) && OnlyDots(s, i) && i != d && s.inodes[i].nlink == 1
    requires s.inodes[d].nlink > 1 && SlotAt(s, i, 1) == d && i != ROOT
    ensures Counted(Unlink(s, i, d, k))
  {
    hide Names, DirOk, HomeOk;
    var t := Unlink(s, i, d, k);
    var u := WithEntry(s, d, k, Entry(0, ""));
    forall e: nat, j: nat | j >= 1
      ensures SlotAt(u, e, j) == if (e, j) == (d, k) then 0 else SlotAt(s, e, j)
      ensures SlotAt(t, e, j) == if (e, j) == (i, 1) then 0 else SlotAt(u, e, j)
    {
    }
    forall c | 1 <= c < |t.inodes|
      ensures t.inodes[c].nlink == |Names(t, c)|
    {
      CountChange(s, u, d, k, c);
      CountChange(u, t, i, 1, c);
    }
  }

  // ---------------------------------------------------------------- freeing

  /** iput of the last reference to an inode without links. */
  function FreeIt(s: Tree, i: nat): Tree
    requires i < |s.inodes|
  {
    s.(inodes := s.inodes[i := Inode(FreeInode, 0, [])])
  }

  lemma FreeKeeps(s: Tree, i: nat)
    requires Inv(s) && i < |s.inodes| && s.inodes[i].nlink == 0
    ensures Inv(FreeIt(s, i))
  {
    hide Names, DirOk, HomeOk;
    var t := FreeIt(s, i);
    assert forall e :: Linked(t, e) == Linked(s, e);
    FreeCounts(s, i);
    forall e | 0 <= e < |t.inodes| && Linked(t, e)
      ensures InOrder(t, e)
    {
      assert InOrder(s, e) && Linked(s, e);
      FreeDir(s, i, e);
    }
  }

  lemma FreeCounts(s: Tree, i: nat)
    requires Inv(s) && i < |s.inodes| && s.inodes[i].nlink == 0
    ensures Counted(FreeIt(s, i))
  {
    hide DirOk, HomeOk;
    var t := FreeIt(s, i);
    forall c | 1 <= c < |t.inodes|
      ensures t.inodes[c].nlink == |Names(t, c)|
    {
      forall e: nat, j: nat
        ensures (e, j) in Names(t, c) <==> (e, j) in Names(s, c)
      {
        SlotIn(s, e, j, c);
        SlotIn(t, e, j, c);
      }
      assert Names(t, c) == Names(s, c);
    }
  }

  lemma FreeDir(s: Tree, i: nat, e: nat)
    requires Inv(s) && i < |s.inodes| && s.inodes[i].nlink == 0 && Linked(s, e) && DirOk(s, e) && HomeOk(s, e)
    ensures var t := FreeIt(s, i);
      Linked(t, e) && DirOk(t, e) && HomeOk(t, e)
  {
    hide Names, Counted;
    var t := FreeIt(s, i);
    forall j | 2 <= j < |t.inodes[e].entries| && t.inodes[e].entries[j].inum != 0
      ensures EntryOk(t, e, j)
    {
      assert EntryOk(s, e, j);
      EnteredLinks(s, e, j, s.inodes[e].entries[j].inum);
    }
  }
}
