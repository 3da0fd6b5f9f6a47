/** The buffer cache: a doubly linked ring of buffers in order of last use, and the
    critical sections of bget and brelse that search and reorder it. */
module BufferCache {
  import opened Options
  import opened Blocks

  const NBUF: nat := 30

  /** Ring index of the list head, which is not a buffer. */
  const HEAD: nat := NBUF

  datatype Buf = Buf(dev: nat, blockno: nat, refcnt: nat, valid: bool, data: Block) {
    predicate Holds(d: nat, b: nat) {
      dev == d && blockno == b
    }
  }

  // ---------------------------------------------------------------- the ring as a list

  /** Buffer indices without repetition. */
  ghost predicate Distinct(order: seq<nat>) {
    && (forall i | 0 <= i < |order| :: order[i] < NBUF)
    && (forall i, j | 0 <= i < j < |order| :: order[i] != order[j])
  }

  /** Element i of the ring; the head is both before the first and after the last. */
  ghost function At(order: seq<nat>, i: int): nat {
    if 0 <= i < |order| then order[i] else HEAD
  }

  /** Pointers and list agree: following next visits `order` from front to back and
      following prev visits it from back to front. */
  ghost predicate Linked(next: seq<nat>, prev: seq<nat>, order: seq<nat>) {
    && |next| == |prev| == NBUF + 1
    && Distinct(order)
    && (forall i | -1 <= i < |order| :: next[At(order, i)] == At(order, i + 1))
    && (forall i | 0 <= i <= |order| :: prev[At(order, i)] == At(order, i - 1))
  }

  ghost function IndexOf(order: seq<nat>, b: nat): (i: nat)
    requires b in order
    ensures i < |order| && order[i] == b
  {
    if order[0] == b then 0 else 1 + IndexOf(order[1..], b)
  }

  ghost function Without(order: seq<nat>, b: nat): seq<nat>
    requires b in order
  {
    order[..IndexOf(order, b)] + order[IndexOf(order, b) + 1..]
  }

  /** The list with b moved to the most recently used end. */
  ghost function ToFront(order: seq<nat>, b: nat): seq<nat>
    requires b in order
  {
    [b] + Without(order, b)
  }

  // ---------------------------------------------------------------- searches

  /** The first position from i on whose buffer holds the block, or |order|. */
  ghost function FirstHolder(bufs: seq<Buf>, order: seq<nat>, i: nat, dev: nat, blockno: nat): (r: nat)
    requires |bufs| == NBUF && Distinct(order) && i <= |order|
    ensures i <= r <= |order|
    ensures r < |order| ==> bufs[order[r]].Holds(dev, blockno)
    ensures forall j | i <= j < r :: !bufs[order[j]].Holds(dev, blockno)
    decreases |order| - i
  {
    if i == |order| || bufs[order[i]].Holds(dev, blockno) then i
    else FirstHolder(bufs, order, i + 1, dev, blockno)
  }

  /** One past the last position below i whose buffer is unreferenced, or 0. */
  ghost function LastUnused(bufs: seq<Buf>, order: seq<nat>, i: nat): (r: nat)
    requires |bufs| == NBUF && Distinct(order) && i <= |order|
    ensures r <= i
    ensures r > 0 ==> bufs[order[r - 1]].refcnt == 0
    ensures forall j | r <= j < i :: bufs[order[j]].refcnt != 0
  {
    if i == 0 || bufs[order[i - 1]].refcnt == 0 then i else LastUnused(bufs, order, i - 1)
  }

  /** bget's critical section: the buffer it settles on and the buffers after it,
      or None where it panics for lack of an unreferenced buffer. */
  ghost function Get(bufs: seq<Buf>, order: seq<nat>, dev: nat, blockno: nat): (r: Option<(nat, seq<Buf>)>)
    requires |bufs| == NBUF && Distinct(order)
    ensures r.Some? ==> r.value.0 < NBUF && |r.value.1| == NBUF
  {
    var h := FirstHolder(bufs, order, 0, dev, blockno);
    if h < |order| then
      var b := order[h];
      Some((b, bufs[b := bufs[b].(refcnt := bufs[b].refcnt + 1)]))
    else
      var u := LastUnused(bufs, order, |order|);
      if u == 0 then None
      else
        var b := order[u - 1];
        Some((b, bufs[b := Buf(dev, blockno, 1, false, bufs[b].data)]))
  }

  /** brelse's critical section. */
  ghost function Put(bufs: seq<Buf>, order: seq<nat>, b: nat): (r: (seq<Buf>, seq<nat>))
    requires |bufs| == NBUF && Distinct(order) && b in order && b < NBUF && bufs[b].refcnt > 0
    ensures |r.0| == NBUF
  {
    var n := bufs[b].refcnt - 1;
    (bufs[b := bufs[b].(refcnt := n)], if n == 0 then ToFront(order, b) else order)
  }

  /** The most recently used end first, after binit: the buffers in reverse. */
  ghost function Descending(n: nat): (order: seq<nat>)
    requires n <= NBUF
    ensures |order| == n && forall i | 0 <= i < n :: order[i] == n - 1 - i
  {
    if n == 0 then [] else [n - 1] + Descending(n - 1)
  }

  // ---------------------------------------------------------------- pointer surgery

  lemma WithoutDistinct(order: seq<nat>, b: nat)
    requires Distinct(order) && b in order
    ensures Distinct(Without(order, b)) && b !in Without(order, b)
    ensures forall c | c in order && c != b :: c in Without(order, b)
  {
    var k, w := IndexOf(order, b), Without(order, b);
    forall c | c in order && c != b
      ensures c in w
    {
      var i :| 0 <= i < |order| && order[i] == c;
      assert w[if i < k then i else i - 1] == c;
    }
  }

  /** Splicing b out of its place in the ring. */
  lemma UnlinkLinked(next: seq<nat>, prev: seq<nat>, order: seq<nat>, b: nat)
    requires Linked(next, prev, order) && b in order
    ensures next[b] < |prev| && prev[b] < |next|
    ensures Linked(next[prev[b] := next[b]], prev[next[b] := prev[b]], Without(order, b))
  {
    var k: int := IndexOf(order, b);
    assert At(order, k) == b && next[b] == At(order, k + 1) && prev[b] == At(order, k - 1);
    WithoutDistinct(order, b);
    UnlinkNext(next, order, k);
    UnlinkPrev(prev, order, k);
  }

  lemma UnlinkNext(next: seq<nat>, order: seq<nat>, k: nat)
    requires |next| == NBUF + 1 && Distinct(order) && k < |order|
    requires forall i | -1 <= i < |order| :: next[At(order, i)] == At(order, i + 1)
    ensures var w := order[..k] + order[k + 1..];
      forall i | -1 <= i < |w| :: next[At(order, k - 1) := At(order, k + 1)][At(w, i)] == At(w, i + 1)
  {
    var w := order[..k] + order[k + 1..];
    forall i | -1 <= i < |w|
      ensures next[At(order, k - 1) := At(order, k + 1)][At(w, i)] == At(w, i + 1)
    {
      var j := if i < k then i else i + 1;
      assert At(w, i) == At(order, j);
      assert next[At(order, j)] == At(order, j + 1);
    }
  }

  lemma UnlinkPrev(prev: seq<nat>, order: seq<nat>, k: nat)
    requires |prev| == NBUF + 1 && Distinct(order) && k < |order|
    requires forall i | 0 <= i <= |order| :: prev[At(order, i)] == At(order, i - 1)
    ensures var w := order[..k] + order[k + 1..];
      forall i | 0 <= i <= |w| :: prev[At(order, k + 1) := At(order, k - 1)][At(w, i)] == At(w, i - 1)
  {
    var w := order[..k] + order[k + 1..];
    forall i | 0 <= i <= |w|
      ensures prev[At(order, k + 1) := At(order, k - 1)][At(w, i)] == At(w, i - 1)
    {
      var j := if i < k then i else i + 1;
      assert At(w, i) == At(order, j);
      assert prev[At(order, j)] == At(order, j - 1);
    }
  }

  /** Splicing b in just after the head. */
  lemma PushLinked(next: seq<nat>, prev: seq<nat>, order: seq<nat>, b: nat)
    requires Linked(next, prev, order) && b < NBUF && b !in order
    ensures next[HEAD] < |prev|
    ensures Linked(next[b := next[HEAD]][HEAD := b], prev[b := HEAD][next[HEAD] := b], [b] + order)
  {
    var first, o := next[HEAD], [b] + order;
    assert next[At(order, -1)] == At(order, 0);
    var next', prev' := next[b := first][HEAD := b], prev[b := HEAD][first := b];
    forall i | -1 <= i < |o|
      ensures next'[At(o, i)] == At(o, i + 1)
    {
      if i > 0 {
        assert At(o, i) == At(order, i - 1) && next[At(order, i - 1)] == At(order, i);
      }
    }
    forall i | 0 <= i <= |o|
      ensures prev'[At(o, i)] == At(o, i - 1)
    {
      if i > 1 {
        assert At(o, i) == At(order, i - 1) && prev[At(order, i - 1)] == At(order, i - 2);
      }
    }
  }

  // ---------------------------------------------------------------- the cache itself

  class Bcache {
    var next: seq<nat>
    var prev: seq<nat>
    var bufs: seq<Buf>
    ghost var order: seq<nat>

    ghost predicate Valid()
      reads this
    {
      && Linked(next, prev, order)
      && |order| == |bufs| == NBUF
    }

    /** binit. */
    constructor (data: Block)
      ensures Valid() && order == Descending(NBUF)
      ensures bufs == seq(NBUF, _ => Buf(0, 0, 0, false, data))
    {
      bufs := seq(NBUF, _ => Buf(0, 0, 0, false, data));
      next, prev, order := seq(NBUF + 1, _ => HEAD), seq(NBUF + 1, _ => HEAD), [];
      new;
      var b := 0;
      while b < NBUF
        invariant b <= NBUF && Linked(next, prev, order) && order == Descending(b)
        invariant bufs == seq(NBUF, _ => Buf(0, 0, 0, false, data))
      {
        PushFront(b);
        b := b + 1;
      }
    }

    /** The four assignments that put b behind the head. */
    method PushFront(b: nat)
      requires Linked(next, prev, order) && b < NBUF && b !in order
      modifies this`next, this`prev, this`order
      ensures Linked(next, prev, order) && order == [b] + old(order)
    {
      PushLinked(next, prev, order, b);
      next := next[b := next[HEAD]];
      prev := prev[b := HEAD];
      prev := prev[next[HEAD] := b];
      next := next[HEAD := b];
      order := [b] + order;
    }

    /** bget between acquire and release of bcache.lock: both searches of the ring. */
    method Bget(dev: nat, blockno: nat) returns (r: Option<nat>)
      requires Valid()
      modifies this`bufs
      ensures Valid()
      ensures match Get(old(bufs), order, dev, blockno)
              case Some(g) => r == Some(g.0) && bufs == g.1
              case None => r == None && bufs == old(bufs)
    {
      ghost var i := 0;
      assert next[At(order, -1)] == At(order, 0);
      var b := next[HEAD];
      while b != HEAD
        invariant 0 <= i <= |order| && b == At(order, i)
        invariant FirstHolder(bufs, order, i, dev, blockno) == FirstHolder(bufs, order, 0, dev, blockno)
        decreases |order| - i
      {
        if bufs[b].dev == dev && bufs[b].blockno == blockno {
          bufs := bufs[b := bufs[b].(refcnt := bufs[b].refcnt + 1)];
          return Some(b);
        }
        assert next[At(order, i)] == At(order, i + 1);
        b := next[b];
        i := i + 1;
      }
      assert prev[At(order, |order|)] == At(order, |order| - 1);
      b := prev[HEAD];
      i := |order|;
      while b != HEAD
        invariant 0 <= i <= |order| && b == At(order, i - 1)
        invariant LastUnused(bufs, order, i) == LastUnused(bufs, order, |order|)
        decreases i
      {
        if bufs[b].refcnt == 0 {
          bufs := bufs[b := Buf(dev, blockno, 1, false, bufs[b].data)];
          return Some(b);
        }
        assert prev[At(order, i - 1)] == At(order, i - 2);
        b := prev[b];
        i := i - 1;
      }
      return None;
    }

    /** brelse between acquire and release of bcache.lock. */
    method Brelse(b: nat)
      requires Valid() && b in order && bufs[b].refcnt > 0
      modifies this
      ensures Valid() && (bufs, order) == Put(old(bufs), old(order), b)
    {
      bufs := bufs[b := bufs[b].(refcnt := bufs[b].refcnt - 1)];
      if bufs[b].refcnt == 0 {
        UnlinkLinked(next, prev, order, b);
        WithoutDistinct(order, b);
        prev := prev[next[b] := prev[b]];
        next := next[prev[b] := next[b]];
        order := Without(order, b);
        PushFront(b);
      }
    }
  }
}
