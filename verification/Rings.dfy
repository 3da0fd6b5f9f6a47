/** Byte rings with 32-bit counters that wrap: the pipe of kernel/pipe.c and the console
    input buffer of kernel/console.c. */
module Rings {
  import opened Options

  const TWO32: nat := 0x1_0000_0000
  const PIPESIZE: nat := 512
  const INPUT_BUF: nat := 128

  /** Adding to a counter. */
  function Plus(a: nat, b: nat): nat {
    (a + b) % TWO32
  }

  /** Unsigned difference of two counters. */
  function Minus(a: nat, b: nat): nat
    requires a < TWO32 && b < TWO32
  {
    if a >= b then a - b else a + TWO32 - b
  }

  /** Counters that stand for x and y, at most a ring apart, compare and subtract as x and y
      do, and name the same slots. */
  lemma Counters(x: nat, y: nat, size: nat)
    requires x <= y <= x + size && (size == PIPESIZE || size == INPUT_BUF)
    ensures x % TWO32 == y % TWO32 <==> x == y
    ensures Plus(x % TWO32, size) == y % TWO32 <==> y == x + size
    ensures Minus(y % TWO32, x % TWO32) == y - x
    ensures y % TWO32 % size == y % size && x % TWO32 % size == x % size
    ensures Plus(y % TWO32, 1) == (y + 1) % TWO32 && Plus(x % TWO32, 1) == (x + 1) % TWO32
  {
    hide Plus, Minus;
    Same(x, y);
    Full(x, y, size);
    Distance(x, y);
    Slot(x, size);
    Slot(y, size);
    Successor(x);
    Successor(y);
  }

  lemma Same(x: nat, y: nat)
    requires x <= y <= x + PIPESIZE
    ensures x % TWO32 == y % TWO32 <==> x == y
  {
  }

  lemma Full(x: nat, y: nat, size: nat)
    requires x <= y <= x + size <= x + PIPESIZE
    ensures Plus(x % TWO32, size) == y % TWO32 <==> y == x + size
  {
    AddWrapped(x, size);
    Same(y, x + size);
  }

  lemma AddWrapped(x: nat, d: nat)
    ensures Plus(x % TWO32, d) == (x + d) % TWO32
  {
    var q := x / TWO32;
    assert x == TWO32 * q + x % TWO32;
    assert x + d == TWO32 * q + (x % TWO32 + d);
  }

  lemma Distance(x: nat, y: nat)
    requires x <= y <= x + PIPESIZE
    ensures Minus(y % TWO32, x % TWO32) == y - x
  {
    var q := x / TWO32;
    assert x == TWO32 * q + x % TWO32;
    if x % TWO32 + (y - x) < TWO32 {
      assert y % TWO32 == x % TWO32 + (y - x);
    } else {
      assert y % TWO32 == x % TWO32 + (y - x) - TWO32;
    }
  }

  lemma Slot(x: nat, size: nat)
    requires size == PIPESIZE || size == INPUT_BUF
    ensures x % TWO32 % size == x % size
  {
    if size == PIPESIZE {
      assert x % TWO32 % 512 == x % 512;
    } else {
      assert x % TWO32 % 128 == x % 128;
    }
  }

  lemma Successor(x: nat)
    ensures Plus(x % TWO32, 1) == (x + 1) % TWO32
  {
    AddWrapped(x, 1);
  }

  /** Slots less than a ring apart differ. */
  lemma SlotsDiffer(j: nat, k: nat, size: nat)
    requires j < k < j + size && (size == PIPESIZE || size == INPUT_BUF)
    ensures j % size != k % size
  {
    if size == PIPESIZE {
      assert j % 512 != k % 512;
    } else {
      assert j % 128 != k % 128;
    }
  }

  /** The ring holds stream[from..to]. */
  ghost predicate Holds(ring: seq<char>, stream: seq<char>, from: nat, to: nat, size: nat) {
    && |ring| == size > 0 && from <= to <= |stream| && to <= from + size
    && forall k | from <= k < to :: ring[k % size] == stream[k]
  }

  lemma Put(ring: seq<char>, stream: seq<char>, from: nat, to: nat, size: nat, c: char)
    requires Holds(ring, stream, from, to, size) && to < from + size && (size == PIPESIZE || size == INPUT_BUF)
    ensures Holds(ring[to % size := c], stream[..to] + [c], from, to + 1, size)
  {
    forall k | from <= k < to + 1
      ensures ring[to % size := c][k % size] == (stream[..to] + [c])[k]
    {
      if k < to {
        SlotsDiffer(k, to, size);
      }
    }
  }

  // ---------------------------------------------------------------- pipes

  class Pipe {
    const data: array<char>
    var nread: nat
    var nwrite: nat
    var readopen: bool
    var writeopen: bool
    ghost var stored: seq<char>          // every byte ever written
    ghost var taken: seq<char>           // every byte ever read

    /** What was read is a prefix of what was written; the ring holds the rest, and the
        counters are the two lengths, wrapped. */
    ghost predicate Valid()
      reads this, data
    {
      && data.Length == PIPESIZE
      && taken <= stored && Holds(data[..], stored, |taken|, |stored|, PIPESIZE)
      && nread == |taken| % TWO32 && nwrite == |stored| % TWO32
    }

    constructor ()
      ensures Valid() && fresh(data) && stored == taken == [] && readopen && writeopen
    {
      data := new char[PIPESIZE](_ => '\0');
      nread, nwrite, readopen, writeopen, stored, taken := 0, 0, true, true, [], [];
    }

    /** pipeclose. */
    method Close(writable: bool) returns (freed: bool)
      requires Valid()
      modifies this
      ensures Valid() && stored == old(stored) && taken == old(taken)
      ensures writeopen == (old(writeopen) && !writable) && readopen == (old(readopen) && writable)
      ensures freed <==> !readopen && !writeopen
    {
      if writable {
        writeopen := false;
      } else {
        readopen := false;
      }
      return !readopen && !writeopen;
    }

    /** pipewrite from one sleep to the next: bytes from buf[i] on are stored until all are, or copyin
        fails at byte `bad`, and their number is the result; -1 when the reader has gone or the
        writer is killed; no result yet when the pipe is full. */
    method Write(buf: seq<char>, i: nat, bad: nat, killed: bool) returns (j: nat, result: Option<int>)
      requires Valid() && i <= |buf|
      modifies this, data
      ensures Valid() && taken == old(taken) && i <= j <= |buf|
      ensures stored == old(stored) + buf[i..j]
      ensures result == Some(-1) <==> i < |buf| && (!readopen || killed)
      ensures result == Some(-1) ==> j == i
      ensures result == None ==> j < |buf| && |stored| == |taken| + PIPESIZE
      ensures result.Some? && result != Some(-1) ==> result.value == j && (j == |buf| || j == bad)
      ensures unchanged(`readopen) && unchanged(`writeopen)
    {
      j := i;
      while j < |buf|
        invariant Valid() && taken == old(taken) && i <= j <= |buf|
        invariant stored == old(stored) + buf[i..j]
        invariant j > i ==> readopen && !killed
        invariant unchanged(`readopen) && unchanged(`writeopen)
      {
        Counters(|taken|, |stored|, PIPESIZE);
        if !readopen || killed {
          return j, Some(-1);
        }
        if nwrite == Plus(nread, PIPESIZE) {
          return j, None;
        }
        if j == bad {
          break;
        }
        Put(data[..], stored, |taken|, |stored|, PIPESIZE, buf[j]);
        assert stored[..|stored|] == stored;
        data[nwrite % PIPESIZE] := buf[j];
        nwrite := Plus(nwrite, 1);
        stored := stored + [buf[j]];
        assert buf[i..j + 1] == buf[i..j] + [buf[j]];
        j := j + 1;
      }
      result := Some(j);
    }

    /** piperead once it does not have to wait: takes up to n bytes; a byte whose copyout
        fails, after `bad` good ones, is lost. A result of no bytes means the end of the
        file: the writer is gone and all was read. */
    method Read(n: nat, bad: nat) returns (out: seq<char>, ghost lost: seq<char>)
      requires Valid() && (nread == nwrite ==> !writeopen)
      modifies this
      ensures Valid() && stored == old(stored) && unchanged(`readopen) && unchanged(`writeopen)
      ensures taken == old(taken) + out + lost && |out| <= n && |lost| <= 1
      ensures lost != [] ==> |out| == bad < n
      ensures |out| < n && lost == [] ==> taken == stored
      ensures n > 0 && out == [] && lost == [] ==> !writeopen && taken == stored
    {
      out, lost := [], [];
      Counters(|taken|, |stored|, PIPESIZE);
      while |out| < n
        invariant Valid() && stored == old(stored) && unchanged(`readopen) && unchanged(`writeopen)
        invariant taken == old(taken) + out && |out| <= n && lost == []
        invariant nwrite == old(nwrite)
      {
        Counters(|taken|, |stored|, PIPESIZE);
        if nread == nwrite {
          return;
        }
        var ch := data[nread % PIPESIZE];
        assert data[..][|taken| % PIPESIZE] == stored[|taken|];
        assert stored[..|taken| + 1] == taken + [ch];
        nread := Plus(nread, 1);
        taken := taken + [ch];
        if |out| == bad {
          lost := [ch];
          return;
        }
        out := out + [ch];
      }
    }

    /** Whether piperead has to wait. */
    predicate MustWait()
      reads this
    {
      nread == nwrite && writeopen
    }

    /** A reader waits exactly when nothing is buffered and a writer may still come. */
    lemma WaitsOnlyWhenEmpty()
      requires Valid()
      ensures MustWait() <==> taken == stored && writeopen
    {
      Counters(|taken|, |stored|, PIPESIZE);
    }
  }

  // ---------------------------------------------------------------- the console

  const CTRL_D: char := '\U{0004}'
  const CTRL_H: char := '\U{0008}'
  const CTRL_P: char := '\U{0010}'
  const CTRL_U: char := '\U{0015}'
  const DELETE: char := '\U{007F}'

  /** Line editing: what was committed, and the line being typed. */
  datatype Edit = Edit(done: seq<char>, line: seq<char>)

  function Stored(c: char): char {
    if c == '\r' then '\n' else c
  }

  /** One key, with so many places left in the buffer. */
  function Key(ed: Edit, c: char, room: nat): Edit {
    if c == CTRL_P then ed
    else if c == CTRL_U then ed.(line := [])
    else if c == CTRL_H || c == DELETE then
      (if ed.line == [] then ed else ed.(line := ed.line[..|ed.line| - 1]))
    else if c == '\0' || room == 0 then ed
    else
      var line := ed.line + [Stored(c)];
      if Stored(c) == '\n' || Stored(c) == CTRL_D || room == 1 then Edit(ed.done + line, []) else ed.(line := line)
  }

  /** What happens at the console: a key is typed, or readers move on by n characters. */
  datatype Happening = Typed(c: char) | Passed(n: nat)

  /** What was typed, and how far the readers have come. */
  datatype Input = Input(edit: Edit, taken: nat)

  /** The console as a fold over all that happened; a key finds what room the readers left. */
  function After(h: seq<Happening>): Input {
    if h == [] then Input(Edit([], []), 0)
    else
      var was := After(h[..|h| - 1]);
      match h[|h| - 1]
      case Typed(c) => was.(edit := Key(was.edit, c, RoomIn(was)))
      case Passed(n) => was.(taken := was.taken + n)
  }

  function RoomIn(was: Input): nat {
    var used := |was.edit.done| + |was.edit.line|;
    if used > was.taken + INPUT_BUF then 0
    else if used < was.taken then INPUT_BUF
    else was.taken + INPUT_BUF - used
  }

  lemma AfterMore(h: seq<Happening>, x: Happening)
    ensures var was := After(h);
      After(h + [x]) == if x.Typed? then was.(edit := Key(was.edit, x.c, RoomIn(was)))
                        else was.(taken := was.taken + x.n)
  {
    assert (h + [x])[..|h|] == h;
  }

  /** What a read of n more bytes takes from the committed stream, of `target` in all, when `room` of
      them can be copied out: the bytes delivered, and how far it moves. */
  datatype Chunk = Chunk(bytes: seq<char>, moved: nat)

  function Deliver(s: seq<char>, n: nat, target: nat, room: nat): (r: Chunk)
    requires n <= target
    ensures |r.bytes| <= r.moved <= |s| && |r.bytes| <= n && r.bytes == s[..|r.bytes|] && r.moved <= |r.bytes| + 1
    decreases n
  {
    if n == 0 || s == [] then Chunk([], 0)
    else if s[0] == CTRL_D then Chunk([], if n < target then 0 else 1)
    else if room == 0 then Chunk([], 1)
    else if s[0] == '\n' then Chunk([s[0]], 1)
    else
      var r := Deliver(s[1..], n - 1, target, room - 1);
      Chunk([s[0]] + r.bytes, r.moved + 1)
  }

  /** Delivered bytes hold no end-of-file mark, and a newline only at their end; a mark is
      skipped only by a read that delivers nothing, any other character only when it could not be
      copied out. */
  lemma DeliverLine(s: seq<char>, n: nat, target: nat, room: nat)
    requires n <= target
    ensures var r := Deliver(s, n, target, room);
      && CTRL_D !in r.bytes && (forall k | 0 <= k < |r.bytes| - 1 :: r.bytes[k] != '\n')
      && (|| r.moved == |r.bytes|
          || (n == target && r.bytes == [] && s != [] && s[0] == CTRL_D)
          || |r.bytes| == room)
      && (r.moved < |s| && |r.bytes| < n && |r.bytes| < room ==>
            s[r.moved] == CTRL_D || (r.moved > 0 && s[r.moved - 1] in {'\n', CTRL_D}))
  {
    hide Deliver;
    DeliverClean(s, n, target, room);
    DeliverSkips(s, n, target, room);
    DeliverStops(s, n, target, room);
  }

  lemma {:induction false} DeliverClean(s: seq<char>, n: nat, target: nat, room: nat)
    requires n <= target
    ensures var r := Deliver(s, n, target, room);
      CTRL_D !in r.bytes && (forall k | 0 <= k < |r.bytes| - 1 :: r.bytes[k] != '\n')
    decreases n
  {
    if n > 0 && s != [] && s[0] != CTRL_D && s[0] != '\n' && room > 0 {
      DeliverClean(s[1..], n - 1, target, room - 1);
    }
  }

  lemma {:induction false} DeliverSkips(s: seq<char>, n: nat, target: nat, room: nat)
    requires n <= target
    ensures var r := Deliver(s, n, target, room);
      || r.moved == |r.bytes|
      || (n == target && r.bytes == [] && s != [] && s[0] == CTRL_D)
      || |r.bytes| == room
    decreases n
  {
    if n > 0 && s != [] && s[0] != CTRL_D && s[0] != '\n' && room > 0 {
      DeliverSkips(s[1..], n - 1, target, room - 1);
    }
  }

  lemma {:induction false} DeliverStops(s: seq<char>, n: nat, target: nat, room: nat)
    requires n <= target
    ensures var r := Deliver(s, n, target, room);
      r.moved < |s| && |r.bytes| < n && |r.bytes| < room ==>
        s[r.moved] == CTRL_D || (r.moved > 0 && s[r.moved - 1] in {'\n', CTRL_D})
    decreases n
  {
    if n > 0 && s != [] && s[0] != CTRL_D && s[0] != '\n' && room > 0 {
      DeliverStops(s[1..], n - 1, target, room - 1);
      var r := Deliver(s[1..], n - 1, target, room - 1);
      assert r.moved < |s[1..]| ==> s[1..][r.moved] == s[r.moved + 1];
      assert r.moved > 0 ==> s[1..][r.moved - 1] == s[r.moved];
    }
  }

  class Console {
    const buf: array<char>
    var r: nat
    var w: nat
    var e: nat
    ghost var edit: Edit
    ghost var taken: nat                 // bytes of edit.done the readers have passed
    ghost var history: seq<Happening>    // all that happened at this console

    /** The counters follow the stream; the line holds nothing that commits; a full buffer
        is committed. */
    ghost predicate Valid()
      reads this, buf
    {
      && buf.Length == INPUT_BUF && taken <= |edit.done|
      && Holds(buf[..], edit.done + edit.line, taken, |edit.done| + |edit.line|, INPUT_BUF)
      && r == taken % TWO32 && w == |edit.done| % TWO32 && e == (|edit.done| + |edit.line|) % TWO32
      && '\n' !in edit.line && CTRL_D !in edit.line
      && (|edit.done| + |edit.line| == taken + INPUT_BUF ==> edit.line == [])
    }

    /** The state is what the history folds to. */
    ghost predicate Recorded()
      reads this
    {
      After(history) == Input(edit, taken)
    }

    ghost function Room(): nat
      reads this, buf
      requires Valid()
    {
      INPUT_BUF - (|edit.done| + |edit.line| - taken)
    }

    constructor ()
      ensures Valid() && Recorded() && fresh(buf) && history == []
    {
      buf := new char[INPUT_BUF](_ => '\0');
      r, w, e, edit, taken, history := 0, 0, 0, Edit([], []), 0, [];
    }

    /** A full buffer always has something for a reader, who then makes room. */
    lemma FullIsReadable()
      requires Valid() && Room() == 0
      ensures r != w && taken < |edit.done|
    {
      Editing();
    }

    /** Whether something typed is not yet committed. */
    lemma Editing()
      requires Valid()
      ensures e != w <==> edit.line != []
      ensures Minus(e, r) == |edit.done| + |edit.line| - taken
      ensures r != w <==> taken < |edit.done|
    {
      Counters(taken, |edit.done| + |edit.line|, INPUT_BUF);
      Counters(|edit.done|, |edit.done| + |edit.line|, INPUT_BUF);
      Counters(taken, |edit.done|, INPUT_BUF);
    }

    /** cons.e--: the last character typed goes. */
    method Erase()
      requires Valid() && edit.line != []
      modifies this`e, this`edit
      ensures Valid() && edit == old(edit).(line := old(edit.line)[..|old(edit.line)| - 1])
      ensures taken == old(taken) && w == old(w)
    {
      hide Holds;
      Shrink(buf[..], edit, taken);
      Back(|edit.done| + |edit.line|);
      e := Minus(e, 1);
      edit := edit.(line := edit.line[..|edit.line| - 1]);
    }

    /** cons.buf[cons.e++ % INPUT_BUF] = ch, and the commit if it is due. */
    method Append(ch: char)
      requires Valid() && Room() > 0
      modifies this`e, this`w, this`edit, buf
      ensures Valid() && taken == old(taken)
      ensures var line := old(edit.line) + [ch];
        edit == if ch == '\n' || ch == CTRL_D || old(Room()) == 1 then Edit(old(edit.done) + line, [])
                else Edit(old(edit.done), line)
    {
      hide Holds;
      ghost var ed := edit;
      ghost var all := |ed.done| + |ed.line|;
      Counters(taken, all, INPUT_BUF) by {
        HoldsBounds(buf[..], ed.done + ed.line, taken, all, INPUT_BUF);
      }
      Put(buf[..], ed.done + ed.line, taken, all, INPUT_BUF, ch);
      assert (ed.done + ed.line)[..all] + [ch] == ed.done + (ed.line + [ch]);
      buf[e % INPUT_BUF] := ch;
      e := Plus(e, 1);
      edit := edit.(line := edit.line + [ch]);
      Counters(taken, all + 1, INPUT_BUF);
      if ch == '\n' || ch == CTRL_D || e == Plus(r, INPUT_BUF) {
        w := e;
        edit := Edit(edit.done + edit.line, []);
        assert edit.done + edit.line == edit.done;
      }
    }

    /** consoleintr: one key. After any number of keys and reads, the committed stream and the line
        are what the fold over them says. */
    method Intr(c: char)
      requires Valid() && Recorded()
      modifies this, buf
      ensures Valid() && Recorded() && history == old(history) + [Typed(c)]
      ensures edit == Key(old(edit), c, old(Room())) && taken == old(taken)
    {
      hide Holds, After;
      Editing();
      AfterMore(history, Typed(c));
      history := history + [Typed(c)];
      if c == CTRL_P {
      } else if c == CTRL_U {
        KillLine();
      } else if c == CTRL_H || c == DELETE {
        if e != w {
          Erase();
        }
      } else if c != '\0' && Minus(e, r) < INPUT_BUF {
        Append(Stored(c));
      }
    }

    /** ^U: the loop stops at the start of the line, since no newline is left to edit. */
    method KillLine()
      requires Valid()
      modifies this`e, this`edit
      ensures Valid() && edit == old(edit).(line := []) && taken == old(taken)
    {
      hide Holds;
      Editing();
      LastOne();
      while e != w && buf[Minus(e, 1) % INPUT_BUF] != '\n'
        invariant Valid() && edit.done == old(edit.done) && taken == old(taken)
        invariant e != w <==> edit.line != []
        invariant edit.line != [] ==> buf[Minus(e, 1) % INPUT_BUF] != '\n'
        decreases |edit.line|
      {
        Erase();
        Editing();
        LastOne();
      }
    }

    /** The last character typed is not a newline. */
    lemma LastOne()
      requires Valid()
      ensures edit.line != [] ==> buf[Minus(e, 1) % INPUT_BUF] != '\n'
    {
      if edit.line != [] {
        LastTyped(buf[..], edit, taken);
        Back(|edit.done| + |edit.line|);
      }
    }

    /** cons.r++. */
    method Advance() returns (c: char)
      requires Valid() && taken < |edit.done|
      modifies this`r, this`taken
      ensures Valid() && edit == old(edit) && taken == old(taken) + 1 && c == edit.done[old(taken)]
      ensures w == old(w)
    {
      ghost var all := |edit.done| + |edit.line|;
      Counters(taken, all, INPUT_BUF);
      assert (edit.done + edit.line)[taken] == edit.done[taken];
      c := buf[r % INPUT_BUF];
      r := Plus(r, 1);
      taken := taken + 1;
    }

    /** cons.r--: the character is left for the next read. */
    method Unread(ghost was: nat)
      requires Valid() && taken == was + 1 && was < |edit.done| && buf.Length == INPUT_BUF
      requires |edit.done| + |edit.line| <= was + INPUT_BUF
      requires |edit.done| + |edit.line| == was + INPUT_BUF ==> edit.line == []
      requires buf[was % INPUT_BUF] == edit.done[was]
      modifies this`r, this`taken
      ensures Valid() && edit == old(edit) && taken == was
    {
      r := Minus(r, 1);
      Back(taken);
      taken := was;
    }

    /** consoleread from one sleep to the next, when `room` bytes can be copied out. */
    method Read(n: nat, target: nat, room: nat) returns (bytes: seq<char>)
      requires Valid() && Recorded() && n <= target
      modifies this`r, this`taken, this`history
      ensures Valid() && Recorded()
      ensures taken >= old(taken) && history == old(history) + [Passed(taken - old(taken))]
      ensures var d := Deliver(old(edit.done[taken..]), n, target, room);
        bytes == d.bytes && taken == old(taken) + d.moved
    {
      hide After;
      bytes := Take(n, target, room);
      AfterMore(history, Passed(taken - old(taken)));
      history := history + [Passed(taken - old(taken))];
    }

    /** The loop of consoleread. */
    method Take(n: nat, target: nat, room: nat) returns (bytes: seq<char>)
      requires Valid() && n <= target
      modifies this`r, this`taken
      ensures Valid()
      ensures var d := Deliver(old(edit.done[taken..]), n, target, room);
        bytes == d.bytes && taken == old(taken) + d.moved
    {
      hide Deliver, Holds, Onward, Valid;
      bytes := [];
      ghost var start := taken;
      TakenBound();
      ghost var all := Deliver(edit.done[start..], n, target, room);
      OnwardNone(all);
      while |bytes| < n
        invariant Valid() && |bytes| <= n && |bytes| <= room && taken == start + |bytes| <= |edit.done|
        invariant Onward(all, bytes, Deliver(edit.done[taken..], n - |bytes|, target, room - |bytes|))
      {
        Editing();
        ghost var s := edit.done[taken..];
        if r == w {
          DeliverNone(all, s, n - |bytes|, target, room - |bytes|, bytes);
          return;
        }
        DeliverOne(all, s, n - |bytes|, target, room - |bytes|, bytes);
        assert s[1..] == edit.done[taken + 1..];
        ghost var was := taken;
        Slots(was);
        var c := Advance();
        if c == CTRL_D {
          if n - |bytes| < target {
            Unread(was);
          }
          return;
        }
        if |bytes| == room {
          return;
        }
        bytes := bytes + [c];
        if c == '\n' {
          return;
        }
      }
      DeliverNone(all, edit.done[taken..], 0, target, room - |bytes|, bytes);
    }

    lemma Slots(k: nat)
      requires Valid() && taken <= k < |edit.done|
      ensures buf.Length == INPUT_BUF && buf[k % INPUT_BUF] == edit.done[k]
      ensures |edit.done| + |edit.line| <= taken + INPUT_BUF
      ensures |edit.done| + |edit.line| == taken + INPUT_BUF ==> edit.line == []
    {
      assert (edit.done + edit.line)[k] == edit.done[k];
    }

    lemma TakenBound()
      requires Valid()
      ensures taken <= |edit.done|
    {
    }
  }

  /** A chunk of which some bytes were already delivered. */
  predicate Onward(all: Chunk, bytes: seq<char>, rest: Chunk) {
    all.bytes == bytes + rest.bytes && all.moved == |bytes| + rest.moved
  }

  lemma OnwardNone(all: Chunk)
    ensures Onward(all, [], all)
  {
  }

  /** Nothing more to deliver. */
  lemma DeliverNone(all: Chunk, s: seq<char>, n: nat, target: nat, room: nat, bytes: seq<char>)
    requires n <= target && (n == 0 || s == []) && Onward(all, bytes, Deliver(s, n, target, room))
    ensures all == Chunk(bytes, |bytes|)
  {
  }

  /** One more character, with the ways in which it may be the last. */
  lemma DeliverOne(all: Chunk, s: seq<char>, n: nat, target: nat, room: nat, bytes: seq<char>)
    requires 0 < n <= target && s != [] && Onward(all, bytes, Deliver(s, n, target, room))
    ensures s[0] == CTRL_D ==> all == Chunk(bytes, |bytes| + if n < target then 0 else 1)
    ensures s[0] != CTRL_D && room == 0 ==> all == Chunk(bytes, |bytes| + 1)
    ensures s[0] == '\n' && room > 0 ==> all == Chunk(bytes + [s[0]], |bytes| + 1)
    ensures s[0] != CTRL_D && s[0] != '\n' && room > 0 ==>
      Onward(all, bytes + [s[0]], Deliver(s[1..], n - 1, target, room - 1))
  {
  }

  lemma HoldsBounds(ring: seq<char>, stream: seq<char>, from: nat, to: nat, size: nat)
    requires Holds(ring, stream, from, to, size)
    ensures |ring| == size > 0 && from <= to <= |stream| && to <= from + size
  {
  }

  /** Counting back by one. */
  lemma Back(x: nat)
    requires x > 0
    ensures Minus(x % TWO32, 1) == (x - 1) % TWO32 && (x - 1) % TWO32 % INPUT_BUF == (x - 1) % INPUT_BUF
  {
    Slot(x - 1, INPUT_BUF);
  }

  lemma Shrink(ring: seq<char>, ed: Edit, taken: nat)
    requires ed.line != [] && taken <= |ed.done|
    requires Holds(ring, ed.done + ed.line, taken, |ed.done| + |ed.line|, INPUT_BUF)
    ensures Holds(ring, ed.done + ed.line[..|ed.line| - 1], taken, |ed.done| + |ed.line| - 1, INPUT_BUF)
    ensures |ed.done| + |ed.line| <= taken + INPUT_BUF
  {
  }

  lemma LastTyped(ring: seq<char>, ed: Edit, taken: nat)
    requires ed.line != [] && taken <= |ed.done|
    requires Holds(ring, ed.done + ed.line, taken, |ed.done| + |ed.line|, INPUT_BUF)
    ensures ring[(|ed.done| + |ed.line| - 1) % INPUT_BUF] == ed.line[|ed.line| - 1]
  {
    assert (ed.done + ed.line)[|ed.done| + |ed.line| - 1] == ed.line[|ed.line| - 1];
  }
}
