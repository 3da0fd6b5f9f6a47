/** How many pages mapping takes: the tables that are missing on the way to the leaves. */
module VmCounts {
  import opened PageTable
  import opened TableTree
  import opened VmRelations

  /** Positions of the tables that walk passes below the root, for n pages from `first`. */
  ghost function TablePlaces(r: nat, first: nat, n: nat): set<Owner> {
    (set w | first <= w < first + n :: Mid(r, Px2(w))) + (set w | first <= w < first + n :: LowOf(r, w))
  }

  ghost function MissingTables(s: Vm, r: nat, first: nat, n: nat): set<Owner> {
    set o | o in TablePlaces(r, first, n) && Val(s, o) == 0
  }

  /** Pages that n fresh pages from `first` take: themselves and their tables. */
  ghost function PagesNeeded(s: Vm, r: nat, first: nat, n: nat): nat {
    n + |MissingTables(s, r, first, n)|
  }

  /** Exactly the tables missing for the n pages from `first` were added. */
  ghost predicate TablesAfter(s: Vm, t: Vm, r: nat, first: nat, n: nat) {
    forall o: Owner :: Val(t, o) == 0 <==> Val(s, o) == 0 && o !in MissingTables(s, r, first, n)
  }

  ghost predicate SameVals(s: Vm, t: Vm) {
    forall o: Owner :: Val(t, o) == Val(s, o)
  }

  lemma NextPlaces(r: nat, first: nat, n: nat)
    ensures TablePlaces(r, first, n + 1) == TablePlaces(r, first, n) + TablePlaces(r, first + n, 1)
    ensures TablePlaces(r, first + n, 1) == {Mid(r, Px2(first + n)), LowOf(r, first + n)}
  {
    hide Px2, Px1;
    assert TablePlaces(r, first, n + 1) == TablePlaces(r, first, n) + TablePlaces(r, first + n, 1);
  }

  lemma NoTables(s: Vm, r: nat, first: nat)
    ensures TablesAfter(s, s, r, first, 0) && MissingTables(s, r, first, 0) == {}
  {
    hide Val, Px2, Px1;
    assert TablePlaces(r, first, 0) == {};
  }

  /** After n pages, the tables missing for the next page are the ones not yet counted. */
  lemma NextMissing(s: Vm, t: Vm, r: nat, first: nat, n: nat)
    requires TablesAfter(s, t, r, first, n)
    ensures |MissingTables(s, r, first, n + 1)| == |MissingTables(s, r, first, n)| + |MissingTables(t, r, first + n, 1)|
  {
    hide Val, TablePlaces;
    var a, b := MissingTables(s, r, first, n), MissingTables(t, r, first + n, 1);
    NextPlaces(r, first, n);
    assert MissingTables(s, r, first, n + 1) == a + b;
    assert a !! b;
  }

  lemma TablesStep(s: Vm, t: Vm, u: Vm, r: nat, first: nat, n: nat)
    requires TablesAfter(s, t, r, first, n) && TablesAfter(t, u, r, first + n, 1)
    ensures TablesAfter(s, u, r, first, n + 1)
  {
    hide Val, TablePlaces;
    NextPlaces(r, first, n);
  }

  lemma TablesSame(s: Vm, t: Vm, u: Vm, r: nat, first: nat, n: nat)
    requires TablesAfter(s, t, r, first, n) && SameVals(t, u)
    ensures TablesAfter(s, u, r, first, n)
  {
    hide Val, MissingTables;
  }

  lemma SameMissing(s: Vm, t: Vm, u: Vm, r: nat, first: nat, n: nat)
    requires SameVals(s, t)
    ensures MissingTables(t, r, first, n) == MissingTables(s, r, first, n)
    ensures TablesAfter(t, u, r, first, n) ==> TablesAfter(s, u, r, first, n)
  {
    hide Val, TablePlaces;
  }

  lemma MoreNeeded(s: Vm, r: nat, first: nat, n: nat, m: nat)
    requires n <= m
    ensures PagesNeeded(s, r, first, n) <= PagesNeeded(s, r, first, m)
  {
    hide Val, Px2, Px1;
    var a, b := MissingTables(s, r, first, n), MissingTables(s, r, first, m);
    assert a <= b;
    assert b == a + (b - a);
  }

  function OneIf(b: bool): nat {
    if b then 1 else 0
  }

  /** A walk passes two tables below the root. */
  lemma MissingOne(s: Vm, r: nat, v: nat)
    ensures |MissingTables(s, r, v, 1)| == OneIf(Val(s, Mid(r, Px2(v))) == 0) + OneIf(Val(s, LowOf(r, v)) == 0)
    ensures forall o: Owner ::
      o in MissingTables(s, r, v, 1) <==> Val(s, o) == 0 && (o == Mid(r, Px2(v)) || o == LowOf(r, v))
  {
    hide Val, TablePlaces, Px2, Px1;
    NextPlaces(r, v, 0);
    var mid: set<Owner> := if Val(s, Mid(r, Px2(v))) == 0 then {Mid(r, Px2(v))} else {};
    var low: set<Owner> := if Val(s, LowOf(r, v)) == 0 then {LowOf(r, v)} else {};
    assert MissingTables(s, r, v, 1) == mid + low;
    assert mid !! low;
  }

  /** Tables added one level at a time, on the way to page v. */
  lemma WalkTables(s: Vm, t: Vm, u: Vm, r: nat, v: nat)
    requires forall o: Owner | o != Mid(r, Px2(v)) :: Val(t, o) == Val(s, o)
    requires forall o: Owner | o != LowOf(r, v) :: Val(u, o) == Val(t, o)
    requires Val(u, Mid(r, Px2(v))) != 0 && Val(u, LowOf(r, v)) != 0
    ensures TablesAfter(s, u, r, v, 1)
  {
    hide Val, Px2, Px1, MissingTables;
    MissingOne(s, r, v);
  }
}
