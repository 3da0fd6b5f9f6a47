/** The descriptor table of the virtio disk driver: allocation and chains
    (kernel/virtio_disk.c). */
module VirtioDesc {
  const NUM: nat := 8
  const F_NEXT: nat := 1
  const F_WRITE: nat := 2

  /** What a descriptor can point at: a request header, a buffer, a status byte. */
  datatype Addr = Nowhere | OpAddr(i: nat) | DataAddr(b: nat) | StatusAddr(i: nat)

  datatype Desc = Desc(addr: Addr, len: nat, flags: nat, next: nat)

  const BLANK := Desc(Nowhere, 0, 0, 0)

  /** Index of the first free descriptor, |free| if there is none. */
  function FirstFree(free: seq<bool>): (i: nat)
    ensures i <= |free| && (i < |free| ==> free[i])
    ensures forall j | 0 <= j < i :: !free[j]
  {
    if |free| == 0 then 0 else if free[0] then 0 else FirstFree(free[1..]) + 1
  }

  function CountFree(free: seq<bool>): (n: nat)
    ensures n <= |free|
  {
    if |free| == 0 then 0 else CountFree(free[1..]) + if free[0] then 1 else 0
  }

  lemma {:induction false} CountUpdate(free: seq<bool>, i: nat, x: bool)
    requires i < |free|
    ensures CountFree(free[i := x]) == CountFree(free) - (if free[i] then 1 else 0) + (if x then 1 else 0)
  {
    if i == 0 {
      assert free[i := x][1..] == free[1..];
    } else {
      assert free[i := x][1..] == free[1..][i - 1 := x];
      CountUpdate(free[1..], i - 1, x);
    }
  }

  lemma {:induction false} CountZero(free: seq<bool>)
    ensures CountFree(free) == 0 <==> FirstFree(free) == |free|
  {
    if |free| > 0 && !free[0] {
      CountZero(free[1..]);
    }
  }

  /** Free descriptors are blank. */
  ghost predicate FreeBlank(free: seq<bool>, desc: seq<Desc>) {
    |free| == |desc| == NUM && forall i | 0 <= i < NUM && free[i] :: desc[i] == BLANK
  }

  /** The free list and the table after a chain was freed; None is a panic. */
  datatype Outcome = Panic | Freed(free: seq<bool>, desc: seq<Desc>)

  function FreeOne(free: seq<bool>, desc: seq<Desc>, i: nat): Outcome
    requires |free| == |desc| == NUM
  {
    if i >= NUM || free[i] then Panic else Freed(free[i := true], desc[i := BLANK])
  }

  /** Following the chain from i, freeing as it goes. */
  function FreeFrom(free: seq<bool>, desc: seq<Desc>, i: nat): Outcome
    requires |free| == |desc| == NUM
    decreases NUM - CountFree(free)
  {
    if i >= NUM || free[i] then Panic
    else
      CountUpdate(free, i, true);
      var flags, next := desc[i].flags, desc[i].next;
      if flags % 2 == 1 then FreeFrom(free[i := true], desc[i := BLANK], next)
      else Freed(free[i := true], desc[i := BLANK])
  }

  /** Freeing a chain of three used descriptors frees exactly those and blanks them. */
  lemma FreeThree(free: seq<bool>, desc: seq<Desc>, a: nat, b: nat, c: nat)
    requires |free| == |desc| == NUM && a < NUM && b < NUM && c < NUM && a != b && b != c && a != c
    requires !free[a] && !free[b] && !free[c]
    requires desc[a].flags % 2 == 1 && desc[a].next == b && desc[b].flags % 2 == 1 && desc[b].next == c
    requires desc[c].flags % 2 == 0
    ensures FreeFrom(free, desc, a) ==
            Freed(free[a := true][b := true][c := true], desc[a := BLANK][b := BLANK][c := BLANK])
  {
    var free1, desc1 := free[a := true], desc[a := BLANK];
    var free2, desc2 := free1[b := true], desc1[b := BLANK];
    assert FreeFrom(free2, desc2, c) == Freed(free2[c := true], desc2[c := BLANK]);
    assert FreeFrom(free1, desc1, b) == FreeFrom(free2, desc2, c);
  }

  class Descriptors {
    const free: array<bool>
    const desc: array<Desc>

    ghost predicate Valid()
      reads this, free, desc
    {
      free.Length == desc.Length == NUM
    }

    constructor ()
      ensures Valid() && fresh(free) && fresh(desc)
      ensures CountFree(free[..]) == NUM && FreeBlank(free[..], desc[..])
    {
      free := new bool[NUM](_ => true);
      desc := new Desc[NUM](_ => BLANK);
      new;
      AllFree(free[..]);
    }

    /** alloc_desc: the first free descriptor, or -1. */
    method AllocDesc() returns (i: int)
      requires Valid()
      modifies free
      ensures i == -1 ==> CountFree(old(free[..])) == 0 && free[..] == old(free[..])
      ensures i != -1 ==> i == FirstFree(old(free[..])) < NUM && free[..] == old(free[..])[i := false]
      ensures i != -1 ==> CountFree(free[..]) == CountFree(old(free[..])) - 1
    {
      CountZero(free[..]);
      for k := 0 to NUM
        invariant forall j | 0 <= j < k :: !free[j]
        invariant free[..] == old(free[..])
      {
        if free[k] {
          CountUpdate(free[..], k, false);
          free[k] := false;
          return k;
        }
      }
      return -1;
    }

    /** free_desc: blanks and frees; a number out of range or a free descriptor is a
        panic. */
    method FreeDesc(i: nat) returns (ok: bool)
      requires Valid()
      modifies free, desc
      ensures !ok ==> FreeOne(old(free[..]), old(desc[..]), i).Panic?
      ensures !ok ==> free[..] == old(free[..]) && desc[..] == old(desc[..])
      ensures ok ==> FreeOne(old(free[..]), old(desc[..]), i) == Freed(free[..], desc[..])
    {
      if i >= NUM || free[i] {
        return false;
      }
      desc[i] := BLANK;
      free[i] := true;
      return true;
    }

    /** free_chain: follows next while the flag says so, and always stops. */
    method FreeChain(head: nat) returns (ok: bool)
      requires Valid()
      modifies free, desc
      ensures ok ==> FreeFrom(old(free[..]), old(desc[..]), head) == Freed(free[..], desc[..])
      ensures !ok ==> FreeFrom(old(free[..]), old(desc[..]), head).Panic?
    {
      var i: nat := head;
      while true
        invariant Valid()
        invariant FreeFrom(free[..], desc[..], i) == FreeFrom(old(free[..]), old(desc[..]), head)
        decreases NUM - CountFree(free[..])
      {
        if i >= NUM || free[i] {
          return false;
        }
        ghost var f, d := free[..], desc[..];
        CountUpdate(f, i, true);
        var flag, nxt := desc[i].flags, desc[i].next;
        ok := FreeDesc(i);
        assert free[..] == f[i := true] && desc[..] == d[i := BLANK];
        if flag % 2 == 1 {
          i := nxt;
        } else {
          return true;
        }
      }
    }

    /** alloc3_desc: three free descriptors, or none at all; a failure leaves the table
        as it was. */
    method Alloc3Desc(idx: array<int>) returns (ok: bool)
      requires Valid() && FreeBlank(free[..], desc[..]) && idx.Length == 3
      modifies free, desc, idx
      ensures FreeBlank(free[..], desc[..]) && desc[..] == old(desc[..])
      ensures ok <==> CountFree(old(free[..])) >= 3
      ensures !ok ==> free[..] == old(free[..])
      ensures ok ==> free[..] == Taking(old(free[..]), 3)
      ensures ok ==> forall j | 0 <= j < 3 :: idx[j] == Pick(old(free[..]), j) < NUM
    {
      hide FreeBlank;
      ghost var f, d := free[..], desc[..];
      var i := 0;
      while i < 3
        invariant 0 <= i <= 3 && Valid() && desc[..] == d
        invariant i <= CountFree(f) && free[..] == Taking(f, i)
        invariant forall j | 0 <= j < i :: idx[j] == Pick(f, j) < NUM
      {
        TakingCount(f, i);
        idx[i] := AllocDesc();
        if idx[i] < 0 {
          Undo(idx, i, f, d);
          return false;
        }
        i := i + 1;
      }
      TakingBlank(f, d, 3);
      return true;
    }

    /** The inner loop of alloc3_desc: gives back the first i descriptors it took. */
    method Undo(idx: array<int>, i: nat, ghost f: seq<bool>, ghost d: seq<Desc>)
      requires Valid() && FreeBlank(f, d) && i < idx.Length && i <= CountFree(f)
      requires free[..] == Taking(f, i) && desc[..] == d && forall j | 0 <= j < i :: idx[j] == Pick(f, j) < NUM
      modifies free, desc
      ensures free[..] == f && desc[..] == d
    {
      hide FreeBlank, Holding, Taking, Pick, CountFree, FirstFree;
      TakingHolding(f, i, 0);
      HoldingNone(f, i);
      var j := 0;
      while j < i
        invariant 0 <= j <= i && Valid() && desc[..] == d && free[..] == Holding(f, i, j)
        invariant forall k | 0 <= k < i :: idx[k] == Pick(f, k) < NUM
      {
        GiveBack(f, d, i, j);
        var ok := FreeDesc(idx[j]);
        j := j + 1;
      }
    }
  }

  // ---------------------------------------------------------------- taking several

  lemma {:induction false} AllFree(free: seq<bool>)
    requires forall i | 0 <= i < |free| :: free[i]
    ensures CountFree(free) == |free|
  {
    if |free| > 0 {
      AllFree(free[1..]);
    }
  }

  /** The free flags after n descriptors were taken, lowest first. */
  function Taking(free: seq<bool>, n: nat): (t: seq<bool>)
    ensures |t| == |free|
  {
    if n == 0 then free
    else
      var t := Taking(free, n - 1);
      if FirstFree(t) < |t| then t[FirstFree(t) := false] else t
  }

  /** The n-th descriptor taken. */
  function Pick(free: seq<bool>, n: nat): nat {
    FirstFree(Taking(free, n))
  }

  lemma {:induction false} TakingCount(free: seq<bool>, n: nat)
    requires n <= CountFree(free)
    ensures CountFree(Taking(free, n)) == CountFree(free) - n
    ensures Pick(free, n) < |free| <==> n < CountFree(free)
  {
    if n > 0 {
      TakingCount(free, n - 1);
      CountUpdate(Taking(free, n - 1), Pick(free, n - 1), false);
    }
    CountZero(Taking(free, n));
  }

  lemma {:induction false} TakingLess(free: seq<bool>, n: nat, i: nat)
    requires i < |free| && Taking(free, n)[i]
    ensures free[i]
  {
    if n > 0 {
      TakingLess(free, n - 1, i);
    }
  }

  lemma TakingBlank(free: seq<bool>, desc: seq<Desc>, n: nat)
    requires FreeBlank(free, desc)
    ensures FreeBlank(Taking(free, n), desc)
  {
    forall i | 0 <= i < NUM && Taking(free, n)[i]
      ensures desc[i] == BLANK
    {
      TakingLess(free, n, i);
    }
  }

  /** Descriptors picked before the n-th are taken, so the n-th differs from them. */
  lemma {:induction false} PickDistinct(free: seq<bool>, j: nat, n: nat)
    requires j < n <= CountFree(free)
    ensures Pick(free, j) < |free| && free[Pick(free, j)] && !Taking(free, n)[Pick(free, j)]
    ensures n < CountFree(free) ==> Pick(free, n) != Pick(free, j)
  {
    TakingCount(free, j);
    TakingLess(free, j, Pick(free, j));
    TakingCount(free, n);
    if j < n - 1 {
      PickDistinct(free, j, n - 1);
    }
  }

  /** The flags while descriptors j to n - 1 of those picked are still taken. */
  function Holding(free: seq<bool>, n: nat, j: nat): (t: seq<bool>)
    ensures |t| == |free|
    decreases n - j
  {
    if j >= n then free
    else
      var t := Holding(free, n, j + 1);
      if Pick(free, j) < |t| then t[Pick(free, j) := false] else t
  }

  lemma HoldingNone(free: seq<bool>, n: nat)
    ensures Holding(free, n, n) == free
  {
  }

  lemma {:induction false} HoldingAt(free: seq<bool>, n: nat, j: nat, m: nat)
    requires n <= CountFree(free) && m < |free|
    ensures Holding(free, n, j)[m] <==> free[m] && forall k | j <= k < n :: Pick(free, k) != m
    decreases n - j
  {
    hide Pick, Taking, CountFree, FirstFree;
    if j < n {
      HoldingAt(free, n, j + 1, m);
      TakingCount(free, j);
    }
  }

  lemma {:induction false} TakingAt(free: seq<bool>, n: nat, m: nat)
    requires n <= CountFree(free) && m < |free|
    ensures Taking(free, n)[m] <==> free[m] && forall k | 0 <= k < n :: Pick(free, k) != m
  {
    hide CountFree, FirstFree;
    if n > 0 {
      TakingAt(free, n - 1, m);
      TakingCount(free, n - 1);
    }
  }

  lemma TakingHolding(free: seq<bool>, n: nat, z: nat)
    requires n <= CountFree(free) && z == 0
    ensures Taking(free, n) == Holding(free, n, z)
  {
    forall m | 0 <= m < |free|
      ensures Taking(free, n)[m] == Holding(free, n, z)[m]
    {
      TakingAt(free, n, m);
      HoldingAt(free, n, z, m);
    }
  }

  /** Freeing the j-th picked descriptor restores it and touches no other. */
  lemma GiveBack(free: seq<bool>, desc: seq<Desc>, n: nat, j: nat)
    requires FreeBlank(free, desc) && j < n <= CountFree(free)
    ensures FreeOne(Holding(free, n, j), desc, Pick(free, j)) == Freed(Holding(free, n, j + 1), desc)
  {
    hide Pick, Holding, Taking, CountFree, FirstFree;
    PickDistinct(free, j, n);
    var p := Pick(free, j);
    HoldingAt(free, n, j, p);
    var t, u := Holding(free, n, j)[p := true], Holding(free, n, j + 1);
    forall m | 0 <= m < |free|
      ensures t[m] == u[m]
    {
      HoldingAt(free, n, j, m);
      HoldingAt(free, n, j + 1, m);
      if m == p {
        forall k | j + 1 <= k < n
          ensures Pick(free, k) != m
        {
          PickDistinct(free, j, k);
        }
      }
    }
    assert t == u;
    assert desc[p := BLANK] == desc;
  }
}
