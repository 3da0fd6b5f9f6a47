/** grep's loop over a buffer that is filled in chunks of any size. */
module GrepLines {
  import opened Grep

  const BUFSIZE: nat := 1024

  /** Index of the first newline, the length if there is none. */
  function Newline(s: string): (i: nat)
    ensures i <= |s| && (i < |s| ==> s[i] == '\n') && forall k | 0 <= k < i :: s[k] != '\n'
  {
    if s == "" || s[0] == '\n' then 0 else Newline(s[1..]) + 1
  }

  /** Index of the first newline or NUL, the length if there is none: where strchr stops. */
  function Stop(s: string): (i: nat)
    ensures i <= |s| && (i < |s| ==> Stops(s[i])) && forall k | 0 <= k < i :: !Stops(s[k])
  {
    if s == "" || Stops(s[0]) then 0 else Stop(s[1..]) + 1
  }

  predicate Stops(c: char) {
    c == '\n' || c == '\0'
  }

  lemma {:induction false} StopIs(s: string, i: nat)
    requires i <= |s| && (i < |s| ==> Stops(s[i])) && forall k | 0 <= k < i :: !Stops(s[k])
    ensures Stop(s) == i
  {
    if i > 0 {
      StopIs(s[1..], i - 1);
    }
  }

  /** A newline before any NUL is the first newline. */
  lemma {:induction false} StopIsNewline(s: string)
    requires Stop(s) == |s| || s[Stop(s)] == '\n'
    ensures Newline(s) == Stop(s)
  {
    if s != "" && !Stops(s[0]) {
      StopIsNewline(s[1..]);
    }
  }

  /** The matching lines, in order, each with its newline. */
  ghost function Wanted(re: string, input: string): string
    decreases |input|
  {
    var i := Newline(input);
    if i == |input| then ""
    else (if Contains(re, input[..i]) then input[..i + 1] else "") + Wanted(re, input[i + 1..])
  }

  /** The same, up to the first line that holds a NUL or does not fit the buffer. */
  ghost function Written(re: string, input: string): string
    decreases |input|
  {
    var i := Stop(input);
    if i == |input| || input[i] == '\0' || i + 1 >= BUFSIZE then ""
    else (if Contains(re, input[..i]) then input[..i + 1] else "") + Written(re, input[i + 1..])
  }

  /** No line holds a NUL, and every line, with its newline, fits the buffer. */
  ghost predicate LinesFit(input: string)
    decreases |input|
  {
    var i := Stop(input);
    i == |input| || (input[i] == '\n' && i + 1 < BUFSIZE && LinesFit(input[i + 1..]))
  }

  lemma {:induction false} FittingLinesAllWritten(re: string, input: string)
    requires LinesFit(input)
    ensures Written(re, input) == Wanted(re, input)
    decreases |input|
  {
    hide Contains, Stop, Newline;
    var i := Stop(input);
    StopIsNewline(input);
    if i < |input| {
      FittingLinesAllWritten(re, input[i + 1..]);
    }
  }

  /** The first line of what is written. */
  lemma WrittenLine(re: string, input: string, i: nat)
    requires i < |input| && Stops(input[i]) && forall k | 0 <= k < i :: !Stops(input[k])
    ensures Stop(input) == i
    ensures Written(re, input) ==
            if input[i] == '\0' || i + 1 >= BUFSIZE then ""
            else (if Contains(re, input[..i]) then input[..i + 1] else "") + Written(re, input[i + 1..])
  {
    StopIs(input, i);
  }

  lemma NothingWanted(re: string)
    ensures Wanted(re, "") == ""
  {
  }

  lemma FirstLine(re: string, input: string)
    requires LinesFit(input) && input != "" && input[|input| - 1] == '\n'
    ensures var i := Stop(input);
      && i < |input| && i + 1 < BUFSIZE && LinesFit(input[i + 1..]) && input[i] == '\n'
      && (forall k | 0 <= k < i :: !Stops(input[k]))
      && (input[i + 1..] == "" || input[i + 1..][|input| - i - 2] == '\n')
      && Wanted(re, input) == (if Contains(re, input[..i]) then input[..i + 1] else "") + Wanted(re, input[i + 1..])
  {
    hide Contains;
    StopIsNewline(input);
  }

  /** A line ends the output, with nothing from it on written, if it does not fit or holds a NUL. */
  lemma {:induction false} BadLineEndsOutput(re: string, before: string, line: string, after: string)
    requires LinesFit(before) && (before == "" || before[|before| - 1] == '\n')
    requires '\n' !in line && (|line| + 1 >= BUFSIZE || '\0' in line)
    ensures Written(re, before + line + "\n" + after) == Wanted(re, before)
    decreases |before|
  {
    hide Contains, Written, Wanted, LinesFit, Stop;
    var all := before + line + "\n" + after;
    if before == "" {
      BadFirstLine(re, line, after);
      assert all == line + "\n" + after;
      NothingWanted(re);
    } else {
      var i := Stop(before);
      FirstLine(re, before);
      assert forall k | 0 <= k < |before| :: all[k] == before[k];
      assert all[..i] == before[..i] && all[..i + 1] == before[..i + 1];
      WrittenLine(re, all, i);
      assert all[i + 1..] == before[i + 1..] + line + "\n" + after;
      BadLineEndsOutput(re, before[i + 1..], line, after);
    }
  }

  lemma BadFirstLine(re: string, line: string, after: string)
    requires '\n' !in line && (|line| + 1 >= BUFSIZE || '\0' in line)
    ensures Written(re, line + "\n" + after) == ""
  {
    hide Contains, Written, Stop;
    var all := line + "\n" + after;
    LineStops(line);
    assert forall k | 0 <= k < |line| :: all[k] == line[k];
    WrittenLine(re, all, Stop(line));
  }

  lemma LineStops(line: string)
    requires '\n' !in line
    ensures var i := Stop(line);
      && (i < |line| ==> line[i] == '\0') && (i == |line| ==> '\0' !in line)
      && (forall k | 0 <= k < i :: !Stops(line[k]))
  {
  }

  /** Bytes a read may return: some, unless the buffer is full or the input at its end. */
  predicate ValidRead(n: nat, room: nat, left: nat) {
    if room == 0 || left == 0 then n == 0 else 1 <= n <= room && n <= left
  }

  /** strchr: the first newline at or after p, or the first NUL if that comes earlier. */
  method FindNewline(buf: array<char>, p: nat, m: nat) returns (q: nat)
    requires p <= m < buf.Length && buf[m] == '\0'
    ensures p <= q <= m && q == p + Stop(buf[p..m])
  {
    q := p;
    while buf[q] != '\0' && buf[q] != '\n'
      invariant p <= q <= m && forall k | p <= k < q :: !Stops(buf[k])
      decreases m - q
    {
      q := q + 1;
    }
    StopIs(buf[p..m], q - p);
  }

  /** memmove of n characters at p to the front. */
  method MoveFront(buf: array<char>, p: nat, n: nat)
    requires p + n <= buf.Length
    modifies buf
    ensures buf[..n] == old(buf[p..p + n])
  {
    var k := 0;
    while k < n
      invariant 0 <= k <= n
      invariant forall j | 0 <= j < k :: buf[j] == old(buf[p + j])
      invariant forall j | k <= j < buf.Length :: buf[j] == old(buf[j])
    {
      buf[k] := buf[p + k];
      k := k + 1;
    }
  }

  /** What the loop over lines knows: buf[p..m] is the input from `at` up to `end`, and
      the output so far is what was owed for everything before `at`. */
  ghost predicate Scanning(re: string, buf: seq<char>, p: nat, m: nat, input: string, at: nat, end: nat, out: string) {
    && p <= m < |buf| == BUFSIZE && at + (m - p) == end <= |input|
    && buf[p..m] == input[at..end] && buf[m] == '\0'
    && out + Written(re, input[at..]) == Written(re, input)
  }

  /** One line, from p up to the newline at q. */
  method ScanLine(re: string, buf: array<char>, p: nat, q: nat, m: nat,
                  ghost input: string, ghost at: nat, ghost end: nat, out: string) returns (out': string)
    requires Scanning(re, buf[..], p, m, input, at, end, out)
    requires p <= q < m && q == p + Stop(buf[p..m]) && buf[q] == '\n'
    modifies buf
    ensures Scanning(re, buf[..], q + 1, m, input, at + (q + 1 - p), end, out')
  {
    hide Contains, Written;
    ghost var window := buf[p..m];
    LineStep(re, input, at, end, q - p);
    assert buf[p..q] == window[..q - p] && buf[p..q + 1] == window[..q - p + 1];
    assert buf[q + 1..m] == window[q + 1 - p..];
    var line := buf[p..q];
    buf[q] := '\0';
    var found := Match(re, buf[p..q]);
    assert buf[p..q] == line;
    out' := out;
    if found {
      buf[q] := '\n';
      assert buf[p..q + 1] == line + ['\n'];
      out' := out + buf[p..q + 1];
    }
    assert buf[q + 1..m] == window[q + 1 - p..];
    assert window[q + 1 - p..] == input[at + (q + 1 - p)..end];
  }

  /** What is owed for the line that starts at `at`. */
  lemma LineStep(re: string, input: string, at: nat, end: nat, i: nat)
    requires at <= end <= |input| && end - at < BUFSIZE && i == Stop(input[at..end]) < end - at
    requires input[at + i] == '\n'
    ensures input[at..end][..i + 1] == input[at..end][..i] + "\n"
    ensures Written(re, input[at..]) ==
            (if Contains(re, input[at..end][..i]) then input[at..end][..i + 1] else "")
            + Written(re, input[at + i + 1..])
  {
    hide Contains, Written;
    var window, rest := input[at..end], input[at..];
    assert forall k | 0 <= k < |window| :: rest[k] == window[k];
    assert rest[..i] == window[..i] && rest[..i + 1] == window[..i + 1];
    WrittenLine(re, rest, i);
    assert rest[i + 1..] == input[at + i + 1..];
  }

  /** No newline before the first NUL. */
  predicate Unfinished(s: string) {
    Stop(s) == |s| || s[Stop(s)] == '\0'
  }

  /** Between reads: the buffer holds the unfinished line, which stands at `at`. */
  ghost predicate Waiting(re: string, buf: seq<char>, m: nat, input: string, at: nat, pos: nat, out: string) {
    && m < |buf| == BUFSIZE && at + m == pos <= |input|
    && buf[..m] == input[at..pos] && Unfinished(buf[..m])
    && out + Written(re, input[at..]) == Written(re, input)
  }

  /** All complete lines in the buffer; the unfinished one moves to the front. */
  method ScanBuffer(re: string, buf: array<char>, m: nat, ghost input: string, ghost start: nat, ghost pos: nat,
                    out0: string)
      returns (out: string, rest: nat, ghost at: nat)
    requires Scanning(re, buf[..], 0, m, input, start, pos, out0)
    modifies buf
    ensures Waiting(re, buf[..], rest, input, at, pos, out)
  {
    hide Contains, Written, Stop;
    out, at := out0, start;
    var p := 0;
    var q := FindNewline(buf, p, m);
    while buf[q] == '\n'
      invariant Scanning(re, buf[..], p, m, input, at, pos, out)
      invariant p <= q <= m && q == p + Stop(buf[p..m])
      decreases m - p
    {
      out := ScanLine(re, buf, p, q, m, input, at, pos, out);
      at := at + (q + 1 - p);
      p := q + 1;
      q := FindNewline(buf, p, m);
    }
    rest := m - p;
    ghost var window := buf[p..m];
    MoveFront(buf, p, rest);
    assert buf[..][..rest] == window;
  }

  /** n more bytes of the input, and the terminating NUL. */
  method ReadMore(re: string, buf: array<char>, m: nat, input: string, ghost at: nat, pos: nat, n: nat,
                  ghost out: string)
    requires Waiting(re, buf[..], m, input, at, pos, out) && m + n < BUFSIZE && pos + n <= |input|
    modifies buf
    ensures Scanning(re, buf[..], 0, m + n, input, at, pos + n, out)
  {
    hide Contains, Written, Stop;
    ghost var first := buf[..m];
    Fill(buf, m, input[pos..pos + n]);
    assert first == input[at..pos];
    assert buf[0..m + n] == input[at..pos + n];
    buf[m + n] := '\0';
    assert buf[..][0..m + n] == input[at..pos + n];
  }

  /** grep: whatever sizes the reads return, the output is the matching lines in order, up
      to the first line that holds a NUL or does not fit the buffer. */
  method GrepInput(re: string, input: string) returns (out: string)
    ensures out == Written(re, input)
  {
    hide Contains, Written, Stop, Scanning;
    var buf := new char[BUFSIZE](_ => '\0');
    var m: nat, pos: nat := 0, 0;
    ghost var at: nat := 0;
    out := "";
    assert input[0..] == input && buf[..][..0] == "";
    assert Stop("") == 0 by {
      StopIs("", 0);
    }
    var n := ReadSize(BUFSIZE - m - 1, |input| - pos);
    while n > 0
      invariant Waiting(re, buf[..], m, input, at, pos, out)
      invariant ValidRead(n, BUFSIZE - m - 1, |input| - pos)
      decreases |input| - pos
    {
      ReadMore(re, buf, m, input, at, pos, n, out);
      m, pos := m + n, pos + n;
      out, m, at := ScanBuffer(re, buf, m, input, at, pos, out);
      n := ReadSize(BUFSIZE - m - 1, |input| - pos);
    }
    NothingOwed(re, input, at, pos);
  }

  /** A read of any size that the buffer and the file allow. */
  method ReadSize(room: nat, left: nat) returns (n: nat)
    ensures ValidRead(n, room, left)
  {
    if room == 0 || left == 0 {
      return 0;
    }
    n :| 1 <= n <= room && n <= left;
  }

  method Fill(buf: array<char>, m: nat, data: string)
    requires m + |data| <= buf.Length
    modifies buf
    ensures buf[..m + |data|] == old(buf[..m]) + data
  {
    var k := 0;
    while k < |data|
      invariant 0 <= k <= |data|
      invariant forall j | 0 <= j < m :: buf[j] == old(buf[j])
      invariant forall j | 0 <= j < k :: buf[m + j] == data[j]
    {
      buf[m + k] := data[k];
      k := k + 1;
    }
  }

  /** At the end of the input, or with a full buffer, the unfinished line owes nothing. */
  lemma NothingOwed(re: string, input: string, at: nat, pos: nat)
    requires at <= pos <= |input| && pos - at < BUFSIZE && Unfinished(input[at..pos])
    requires pos == |input| || pos - at == BUFSIZE - 1
    ensures Written(re, input[at..]) == ""
  {
    hide Contains;
    var window, rest := input[at..pos], input[at..];
    assert forall k | 0 <= k < |window| :: rest[k] == window[k];
    if Stop(window) < |window| {
      WrittenLine(re, rest, Stop(window));
    }
  }
}
