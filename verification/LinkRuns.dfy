/** Runs of create, link, unlink and the freeing of inodes, from the tree that mkfs makes. */
module LinkRuns {
  import opened Links

  // ---------------------------------------------------------------- the tree mkfs makes

  /** Entries of the root directory: the dots, one entry for each file, then the empty ones that
      rounding its size up adds. */
  function RootEntry(names: seq<string>, k: nat): Entry {
    if k == 0 then Entry(ROOT, ".")
    else if k == 1 then Entry(ROOT, "..")
    else if k - 2 < |names| then Entry(k, Trunc(names[k - 2]))
    else Entry(0, "")
  }

  function RootSlots(n: nat): nat {
    ((n + 2) / 64 + 1) * 64
  }

  function MkfsInode(names: seq<string>, i: nat): Inode {
    if i == ROOT then Inode(Dir, 1, seq(RootSlots(|names|), k requires k >= 0 => RootEntry(names, k)))
    else if 2 <= i < |names| + 2 then Inode(File, 1, [])
    else Inode(FreeInode, 0, [])
  }

  function MkfsTree(names: seq<string>): Tree {
    Tree(seq(NINODES, i requires i >= 0 => MkfsInode(names, i)), map[], map[ROOT := 0])
  }

  /** The names of the files differ, as entries, from each other and from the dots. */
  predicate GoodNames(names: seq<string>) {
    && (forall j, k | 0 <= j < k < |names| :: Trunc(names[j]) != Trunc(names[k]))
    && (forall j | 0 <= j < |names| :: Trunc(names[j]) != "." && Trunc(names[j]) != "..")
  }

  /** mkfs makes a tree in order iff it is given good names. */
  lemma MkfsInOrderIff(names: seq<string>)
    requires |names| + 2 <= NINODES
    ensures Inv(MkfsTree(names)) <==> GoodNames(names)
  {
    hide Names, Counted;
    var s := MkfsTree(names);
    var es := s.inodes[ROOT].entries;
    assert Linked(s, ROOT) && es[1] == Entry(ROOT, "..");
    MkfsCounted(names);
    if GoodNames(names) {
      MkfsRoot(names);
      forall d | 0 <= d < |s.inodes|
        ensures InOrder(s, d)
      {
      }
    } else {
      BadRoot(names);
      assert !InOrder(s, ROOT);
    }
  }

  lemma BadRoot(names: seq<string>)
    requires |names| + 2 <= NINODES && !GoodNames(names)
    ensures var s := MkfsTree(names); Linked(s, ROOT) && !DirOk(s, ROOT)
  {
    hide DirOk, MkfsTree, Linked, Trunc;
    if j, k :| 0 <= j < k < |names| && Trunc(names[j]) == Trunc(names[k]) {
      RootRepeats(names, j + 2, k + 2);
    } else {
      var j :| 0 <= j < |names| && (Trunc(names[j]) == "." || Trunc(names[j]) == "..");
      RootRepeats(names, if Trunc(names[j]) == "." then 0 else 1, j + 2);
    }
  }

  lemma RootRepeats(names: seq<string>, j: nat, k: nat)
    requires |names| + 2 <= NINODES && j < k < |names| + 2
    requires RootEntry(names, j).name == RootEntry(names, k).name
    ensures var s := MkfsTree(names); Linked(s, ROOT) && !DirOk(s, ROOT)
  {
    hide DirOk, Trunc;
    SameName(MkfsTree(names), ROOT, j, k);
  }

  lemma SameName(s: Tree, d: nat, j: nat, k: nat)
    requires Linked(s, d) && j < k < |s.inodes[d].entries|
    requires var es := s.inodes[d].entries; es[j].inum != 0 && es[k].inum != 0 && es[j].name == es[k].name
    ensures !DirOk(s, d)
  {
  }

  lemma MkfsRoot(names: seq<string>)
    requires |names| + 2 <= NINODES && GoodNames(names)
    ensures var s := MkfsTree(names); Linked(s, ROOT) && DirOk(s, ROOT)
  {
    var s := MkfsTree(names);
    var es := s.inodes[ROOT].entries;
    forall j, k | 0 <= j < k < |es| && es[j].inum != 0 && es[k].inum != 0
      ensures es[j].name != es[k].name
    {
      assert es[j] == RootEntry(names, j) && es[k] == RootEntry(names, k);
      if j >= 2 {
        assert Trunc(names[j - 2]) != Trunc(names[k - 2]);
      }
    }
  }

  lemma MkfsCounted(names: seq<string>)
    requires |names| + 2 <= NINODES
    ensures Counted(MkfsTree(names))
  {
    hide Names;
    var s := MkfsTree(names);
    forall i | 1 <= i < |s.inodes|
      ensures s.inodes[i].nlink == |Names(s, i)|
    {
      var only: set<(nat, nat)> := if i < |names| + 2 then {(ROOT, i)} else {};
      forall x: (nat, nat)
        ensures x in Names(s, i) <==> x in only
      {
        SlotIn(s, x.0, x.1, i);
        if x.1 >= 1 {
          RootSlotAt(names, x.0, x.1);
        }
      }
      assert Names(s, i) == only;
    }
  }

  lemma RootSlotAt(names: seq<string>, d: nat, k: nat)
    requires |names| + 2 <= NINODES && k >= 1
    ensures SlotAt(MkfsTree(names), d, k) == if d == ROOT && k < |names| + 2 then k else 0
  {
    var s := MkfsTree(names);
    if d == ROOT {
      assert |s.inodes[d].entries| >= |names| + 2;
    }
  }

  // ---------------------------------------------------------------- steps

  /** A file or device made, a directory made, a name added, a name removed, and an inode
      without links released. */
  datatype Op =
    | MakeFile(i: nat, kind: Kind, d: nat, k: nat, name: string)
    | MakeDir(i: nat, d: nat, k: nat, name: string)
    | AddName(i: nat, d: nat, k: nat, name: string)
    | Remove(i: nat, d: nat, k: nat)
    | Release(i: nat)

  /** Slot k is the first one not in use, or the next one. */
  predicate FirstFreeSlot(es: seq<Entry>, k: nat) {
    k <= |es| && (k < |es| ==> es[k].inum == 0) && forall j | 0 <= j < k :: es[j].inum != 0
  }

  /** A new entry goes to the first free slot of a directory that has one. */
  predicate Enters(s: Tree, d: nat, k: nat, name: string) {
    Enterable(s, d, k, name) && FirstFreeSlot(s.inodes[d].entries, k) && k < MAXENTRIES && |name| <= DIRSIZ
  }

  predicate IsFree(s: Tree, i: nat) {
    0 < i < |s.inodes| && s.inodes[i].kind == FreeInode
  }

  predicate IsFile(s: Tree, i: nat) {
    i < |s.inodes| && (s.inodes[i].kind == File || s.inodes[i].kind == Device)
  }

  /** What unlink asks for before it removes an entry. */
  predicate Removable(s: Tree, i: nat, d: nat, k: nat) {
    && d < |s.inodes| && s.inodes[d].kind == Dir && 2 <= k < |s.inodes[d].entries|
    && s.inodes[d].entries[k].inum == i && 0 < i < |s.inodes| && s.inodes[i].nlink >= 1
    && (s.inodes[i].kind == Dir ==> OnlyDots(s, i))
  }

  predicate Next(s: Tree, op: Op, t: Tree) {
    match op
    case MakeFile(i, kind, d, k, name) =>
      && Enters(s, d, k, name) && IsFree(s, i) && (kind == File || kind == Device)
      && t == CreateFile(s, i, kind, d, k, name)
    case MakeDir(i, d, k, name) => Enters(s, d, k, name) && IsFree(s, i) && t == CreateDir(s, i, d, k, name)
    case AddName(i, d, k, name) => Enters(s, d, k, name) && IsFile(s, i) && t == Link(s, i, d, k, name)
    case Remove(i, d, k) => Removable(s, i, d, k) && t == Unlink(s, i, d, k)
    case Release(i) => i < |s.inodes| && s.inodes[i].nlink == 0 && t == FreeIt(s, i)
  }

  /** The directory has not been removed, and a count that goes up does not wrap. */
  predicate Safe(s: Tree, op: Op) {
    match op
    case MakeFile(_, _, d, _, _) => Linked(s, d)
    case MakeDir(_, d, _, _) => Linked(s, d)
    case AddName(i, d, _, _) => Linked(s, d) && i < |s.inodes| && s.inodes[i].nlink < MAXLINK
    case Remove(_, _, _) => true
    case Release(_) => true
  }

  /** A step keeps the tree in order iff it is safe. */
  lemma NextKeepsIff(s: Tree, op: Op, t: Tree)
    requires Inv(s) && Next(s, op, t)
    ensures Inv(t) <==> Safe(s, op)
  {
    hide Inv, Linked, Enterable;
    match op
    case MakeFile(i, kind, d, k, name) => CreateFileKeeps(s, i, kind, d, k, name);
    case MakeDir(i, d, k, name) => CreateDirKeeps(s, i, d, k, name);
    case AddName(i, d, k, name) => LinkKeeps(s, i, d, k, name);
    case Remove(i, d, k) => RemoveKeeps(s, i, d, k);
    case Release(i) => FreeKeeps(s, i);
  }

  lemma RemoveKeeps(s: Tree, i: nat, d: nat, k: nat)
    requires Inv(s) && Removable(s, i, d, k)
    ensures Inv(Unlink(s, i, d, k))
  {
    hide Names, Counted, DirOk, HomeOk;
    InLinked(s, d, k);
    NotInItself(s, d, k, i);
    if s.inodes[i].kind == Dir {
      UnlinkDirKeeps(s, i, d, k);
    } else {
      UnlinkFileKeeps(s, i, d, k);
    }
  }

  /** Only linked directories name anything but dots. */
  lemma InLinked(s: Tree, d: nat, k: nat)
    requires Inv(s) && d < |s.inodes| && s.inodes[d].kind == Dir && 2 <= k < |s.inodes[d].entries|
    requires s.inodes[d].entries[k].inum != 0
    ensures Linked(s, d)
  {
    hide Names, Counted, DirOk, HomeOk;
  }

  // ---------------------------------------------------------------- the shape of directories

  /** What every step keeps, safe or not: a directory starts with its dots, and its other entries
      name inodes other than itself. */
  ghost predicate Shape(s: Tree) {
    && |s.inodes| > ROOT && s.inodes[0].kind == FreeInode
    && forall d | 0 <= d < |s.inodes| && s.inodes[d].kind == Dir :: DirShape(s, d)
  }

  ghost predicate DirShape(s: Tree, d: nat)
    requires d < |s.inodes|
  {
    var es := s.inodes[d].entries;
    && |es| >= 2 && es[0] == Entry(d, ".") && es[1].name == ".." && 0 < es[1].inum < |s.inodes|
    && forall k | 2 <= k < |es| :: es[k].inum < |s.inodes| && es[k].inum != d
  }

  lemma ShapeKeeps(s: Tree, op: Op, t: Tree)
    requires Shape(s) && Next(s, op, t)
    ensures Shape(t)
  {
    hide DirShape;
    forall e | 0 <= e < |t.inodes| && t.inodes[e].kind == Dir
      ensures DirShape(t, e)
    {
      if op.MakeDir? && e == op.i {
        NewShape(s, op, t);
      } else if op.Release? {
        Unwritten(s, t, e);
      } else {
        assert s.inodes[e].kind == Dir;
        EntryKept(s, t, e, op.d, op.k, if op.Remove? then 0 else op.i);
      }
    }
  }

  lemma NewShape(s: Tree, op: Op, t: Tree)
    requires op.MakeDir? && Next(s, op, t) && op.d != 0
    ensures DirShape(t, op.i)
  {
    assert t.inodes[op.i].entries == [Entry(op.i, "."), Entry(op.d, "..")];
  }

  lemma Unwritten(s: Tree, t: Tree, e: nat)
    requires |t.inodes| == |s.inodes| && e < |s.inodes| && t.inodes[e] == s.inodes[e] && DirShape(s, e)
    ensures DirShape(t, e)
  {
  }

  /** A directory in which at most slot k was written. */
  lemma EntryKept(s: Tree, t: Tree, e: nat, d: nat, k: nat, i: nat)
    requires |t.inodes| == |s.inodes| && e < |s.inodes| && e > 0 && DirShape(s, e) && k >= 2 && i < |s.inodes|
    requires var es, fs := s.inodes[e].entries, t.inodes[e].entries;
      fs == es || (i != e && k <= |es| && exists name :: fs == PutEntry(es, k, Entry(i, name)))
    ensures DirShape(t, e)
  {
  }

  lemma InvShape(s: Tree)
    requires Inv(s)
    ensures Shape(s)
  {
    hide Names, Counted;
    forall d | 0 <= d < |s.inodes| && s.inodes[d].kind == Dir
      ensures DirShape(s, d)
    {
      if Linked(s, d) {
        assert InOrder(s, d);
        forall k | 2 <= k < |s.inodes[d].entries|
          ensures s.inodes[d].entries[k].inum < |s.inodes| && s.inodes[d].entries[k].inum != d
        {
          if s.inodes[d].entries[k].inum != 0 {
            NotInItself(s, d, k, s.inodes[d].entries[k].inum);
          }
        }
      } else {
        assert Gone(s, d);
      }
    }
  }

  // ---------------------------------------------------------------- runs

  datatype Run = Run(states: seq<Tree>, ops: seq<Op>)

  predicate IsRun(names: seq<string>, r: Run) {
    && |r.states| == |r.ops| + 1 && r.states[0] == MkfsTree(names)
    && forall j | 0 <= j < |r.ops| :: Next(r.states[j], r.ops[j], r.states[j + 1])
  }

  /** In every run from a good image, counts equal names in all states iff every step is safe. */
  lemma RunInvIff(names: seq<string>, r: Run)
    requires |names| + 2 <= NINODES && GoodNames(names) && IsRun(names, r)
    ensures (forall j | 0 <= j < |r.states| :: Inv(r.states[j]))
       <==> (forall j | 0 <= j < |r.ops| :: Safe(r.states[j], r.ops[j]))
  {
    hide Inv, Safe, Next;
    if forall j | 0 <= j < |r.states| :: Inv(r.states[j]) {
      forall j | 0 <= j < |r.ops|
        ensures Safe(r.states[j], r.ops[j])
      {
        NextKeepsIff(r.states[j], r.ops[j], r.states[j + 1]);
      }
    }
    if forall j | 0 <= j < |r.ops| :: Safe(r.states[j], r.ops[j]) {
      forall j | 0 <= j < |r.states|
        ensures Inv(r.states[j])
      {
        SafeRun(names, r, j);
      }
    }
  }

  lemma {:induction false} SafeRun(names: seq<string>, r: Run, n: nat)
    requires |names| + 2 <= NINODES && GoodNames(names) && IsRun(names, r) && n < |r.states|
    requires forall j | 0 <= j < |r.ops| :: Safe(r.states[j], r.ops[j])
    ensures Inv(r.states[n])
  {
    hide Inv, Safe, Next;
    if n == 0 {
      MkfsInOrderIff(names);
    } else {
      SafeRun(names, r, n - 1);
      NextKeepsIff(r.states[n - 1], r.ops[n - 1], r.states[n]);
    }
  }

  /** Every run, safe or not, keeps directories in shape. */
  lemma {:induction false} RunShape(names: seq<string>, r: Run, n: nat)
    requires |names| + 2 <= NINODES && IsRun(names, r) && n < |r.states|
    ensures Shape(r.states[n])
  {
    hide Next;
    if n == 0 {
      assert |r.states[0].inodes[ROOT].entries| >= |names| + 2;
    } else {
      RunShape(names, r, n - 1);
      ShapeKeeps(r.states[n - 1], r.ops[n - 1], r.states[n]);
    }
  }

  /** Unlink of what an entry names panics. */
  predicate UnlinkPanics(s: Tree, d: nat, k: nat) {
    && d < |s.inodes| && s.inodes[d].kind == Dir && 2 <= k < |s.inodes[d].entries|
    && var i := s.inodes[d].entries[k].inum;
       0 < i < |s.inodes| && s.inodes[i].nlink < 1
  }

  /** In a run of safe steps no unlink panics on a count below one. */
  lemma NoPanic(names: seq<string>, r: Run, j: nat, d: nat, k: nat)
    requires |names| + 2 <= NINODES && GoodNames(names) && IsRun(names, r) && j < |r.states|
    requires forall m | 0 <= m < |r.ops| :: Safe(r.states[m], r.ops[m])
    ensures !UnlinkPanics(r.states[j], d, k)
  {
    hide Names, Counted, DirOk, HomeOk, Safe, Next;
    SafeRun(names, r, j);
    var s := r.states[j];
    if UnlinkPanics(s, d, k) {
      InLinked(s, d, k);
      EnteredLinks(s, d, k, s.inodes[d].entries[k].inum);
    }
  }

  // ---------------------------------------------------------------- a count that wraps

  ghost predicate Reachable(s: Tree) {
    exists r :: IsRun([], r) && r.states[|r.ops|] == s
  }

  lemma StepOn(s: Tree, op: Op, t: Tree)
    requires Reachable(s) && Next(s, op, t)
    ensures Reachable(t)
  {
    hide Next;
    var r :| IsRun([], r) && r.states[|r.ops|] == s;
    assert IsRun([], Run(r.states + [t], r.ops + [op]));
  }

  /** Two-byte names, none of them with a dot or a slash. */
  function Num(n: nat): string
    requires n < 20000
  {
    [(48 + n / 200) as char, (48 + n % 200) as char]
  }

  lemma NumDiffers(m: nat, n: nat)
    requires m < 20000 && n < 20000 && m != n
    ensures Num(m) != Num(n)
  {
    assert m == m / 200 * 200 + m % 200 && n == n / 200 * 200 + n % 200;
  }

  /** The first m slots of directory d are in use, none with a name from Num(m) on, and the others
      are not. */
  predicate FilledTo(s: Tree, d: nat, m: nat) {
    && Linked(s, d)
    && var es := s.inodes[d].entries;
       && 2 <= m <= |es| && m <= MAXENTRIES
       && (forall j | 0 <= j < m :: es[j].inum != 0 && forall n: nat | m <= n < 20000 :: es[j].name != Num(n))
       && (forall j | m <= j < |es| :: es[j].inum == 0)
  }

  /** One more name for file i, in the next slot of d. */
  lemma FillOne(s: Tree, i: nat, d: nat, m: nat) returns (t: Tree)
    requires Reachable(s) && FilledTo(s, d, m) && m < MAXENTRIES && IsFile(s, i)
    ensures t == Link(s, i, d, m, Num(m)) && Reachable(t)
    ensures i > 0 ==> FilledTo(t, d, m + 1)
  {
    hide Reachable;
    t := Link(s, i, d, m, Num(m));
    var es := s.inodes[d].entries;
    assert forall j | 0 <= j < |es| && es[j].inum != 0 :: j < m;
    assert Enters(s, d, m, Num(m));
    StepOn(s, AddName(i, d, m, Num(m)), t);
    forall n: nat | m < n < 20000
      ensures Num(m) != Num(n)
    {
      NumDiffers(m, n);
    }
  }

  /** What filling d with names of i leaves alone. */
  predicate OnlyLinked(s: Tree, t: Tree, i: nat, d: nat, m: nat) {
    && |t.inodes| == |s.inodes| && i < |s.inodes| && d < |s.inodes| && m <= |s.inodes[d].entries|
    && t.inodes[i].kind == s.inodes[i].kind
    && m <= |t.inodes[d].entries| && t.inodes[d].entries[..m] == s.inodes[d].entries[..m]
    && (forall e | 0 <= e < |s.inodes| && e != i && e != d :: t.inodes[e] == s.inodes[e])
  }

  lemma {:induction false} Fill(s: Tree, i: nat, d: nat, m: nat, n: nat) returns (t: Tree)
    requires Reachable(s) && FilledTo(s, d, m) && m <= n <= MAXENTRIES && IsFile(s, i) && i > 0
    requires 0 < s.inodes[i].nlink <= MAXLINK - (n - m)
    ensures Reachable(t) && FilledTo(t, d, n) && OnlyLinked(s, t, i, d, m)
    ensures t.inodes[i].nlink == s.inodes[i].nlink + (n - m)
    decreases n - m
  {
    hide Reachable, FilledTo;
    t := s;
    assert Linked(s, d) && m <= |s.inodes[d].entries| by {
      FilledBounds(s, d, m);
    }
    if m < n {
      var u := FillOne(s, i, d, m);
      t := Fill(u, i, d, m + 1, n);
      assert t.inodes[d].entries[..m] == t.inodes[d].entries[..m + 1][..m];
    }
  }

  lemma FilledBounds(s: Tree, d: nat, m: nat)
    requires FilledTo(s, d, m)
    ensures Linked(s, d) && 2 <= m <= |s.inodes[d].entries|
  {
  }

  /** The image without files, then a file f and a directory d in the root. */
  lemma Start() returns (s: Tree)
    ensures Reachable(s) && |s.inodes| == NINODES && s.inodes[2] == Inode(File, 1, [])
    ensures FilledTo(s, 1, 4) && FilledTo(s, 3, 2) && s.inodes[1].entries[2] == Entry(2, "f")
  {
    var s0 := MkfsTree([]);
    assert Reachable(s0) by {
      assert IsRun([], Run([s0], []));
    }
    hide Reachable;
    var es := s0.inodes[1].entries;
    assert |es| == 64 && es[0] == Entry(1, ".") && es[1] == Entry(1, "..");
    assert forall j | 2 <= j < 64 :: es[j] == Entry(0, "");
    var s1 := CreateFile(s0, 2, File, 1, 2, "f");
    StepOn(s0, MakeFile(2, File, 1, 2, "f"), s1);
    s := CreateDir(s1, 3, 1, 3, "d");
    StepOn(s1, MakeDir(3, 1, 3, "d"), s);
    assert s.inodes[1].entries == es[2 := Entry(2, "f")][3 := Entry(3, "d")];
    assert s.inodes[3].entries == [Entry(3, "."), Entry(1, "..")];
  }

  /** A file gets 32768 names in two directories. Then its count has wrapped and unlink of any of
      its names panics. */
  lemma CountWraps() returns (s: Tree)
    ensures Reachable(s) && !Inv(s) && |s.inodes| > 2 && s.inodes[2].nlink == -0x8000
    ensures UnlinkPanics(s, ROOT, 2) && s.inodes[ROOT].entries[2] == Entry(2, "f")
  {
    hide Reachable, FilledTo;
    var s0 := Start();
    var s1 := Fill(s0, 2, 3, 2, MAXENTRIES);
    assert FilledTo(s1, 1, 4) by {
      Unfilled(s0, s1, 3, 1, 4);
    }
    var s2 := Fill(s1, 2, 1, 4, 15620);
    FilledBounds(s2, 1, 15620);
    assert s2.inodes[2].nlink == MAXLINK;
    assert s2.inodes[1].entries[2] == s2.inodes[1].entries[..4][2] == s1.inodes[1].entries[..4][2];
    s := FillOne(s2, 2, 1, 15620);
    CountNotPositive(s);
  }

  lemma Unfilled(s: Tree, t: Tree, d: nat, e: nat, m: nat)
    requires FilledTo(s, e, m) && OnlyLinked(s, t, 2, d, 2) && e != 2 && e != d
    ensures FilledTo(t, e, m)
  {
  }

  lemma CountNotPositive(s: Tree)
    requires |s.inodes| > 2 && s.inodes[2].nlink < 0
    ensures !Inv(s)
  {
    hide DirOk, HomeOk, Names;
  }
}
