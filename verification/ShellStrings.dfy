/** nulterminate: the words of a parsed command become C strings in the line buffer. */
module ShellStrings {
  import opened Shell
  import opened ShellParser

  /** The words of a command. */
  ghost function Spans(c: Cmd): set<Span> {
    match c
    case Exec(argv) => set w | w in argv
    case Redir(b, file, _, _) => Spans(b) + {file}
    case Pipe(l, r) => Spans(l) + Spans(r)
    case List(l, r) => Spans(l) + Spans(r)
    case Back(b) => Spans(b)
  }

  ghost predicate SpansOk(s: string, c: Cmd) {
    forall w | w in Spans(c) :: IsToken(s, w)
  }

  ghost predicate RedirsOk(s: string, list: seq<Redirection>) {
    forall k | 0 <= k < |list| :: IsToken(s, list[k].file)
  }

  // ---------------------------------------------------------------- parsed words are words of the line

  lemma {:induction false} RedirSpans(s: string, i: nat)
    requires Line(s) && i <= |s|
    ensures var r := PRedirs(s, i); r.RDone? ==> RedirsOk(s, r.list)
    decreases |s| - i
  {
    hide Tok, Skip, IsToken;
    if Peek(s, i, "<>") {
      var t := Tok(s, i);
      PeekAdvances(s, i, "<>");
      RedirSpans(s, Tok(s, t.next).next);
    }
  }

  lemma PeekAdvances(s: string, i: nat, toks: string)
    requires Line(s) && i <= |s| && Peek(s, i, toks)
    ensures i < Tok(s, i).next
  {
  }

  lemma {:induction false} ArgSpans(s: string, i: nat, n: nat)
    requires Line(s) && i <= |s|
    ensures var a := PArgs(s, i, n);
      a.ADone? ==> RedirsOk(s, a.redirs) && forall k | 0 <= k < |a.argv| :: IsToken(s, a.argv[k])
    decreases |s| - i
  {
    hide Tok, Skip, IsToken, PRedirs;
    var t := Tok(s, i);
    if !Peek(s, i, "|)&;") && t.kind == 'a' && n + 1 < MAXARGS {
      RedirSpans(s, t.next);
      var r := PRedirs(s, t.next);
      if r.RDone? {
        ArgSpans(s, r.p, n + 1);
      }
    }
  }

  lemma {:induction false} WrapSpans(s: string, c: Cmd, list: seq<Redirection>)
    requires SpansOk(s, c) && RedirsOk(s, list)
    ensures SpansOk(s, Wrap(c, list))
    decreases |list|
  {
    hide IsToken;
    if list != [] {
      WrapSpans(s, Redir(c, list[0].file, list[0].mode, list[0].fd), list[1..]);
    }
  }

  lemma {:induction false} ExecSpans(s: string, i: nat)
    requires Line(s) && i <= |s|
    ensures var r := PExec(s, i); r.Parsed? ==> SpansOk(s, r.cmd)
    decreases |s| - i, 1
  {
    hide Tok, Skip, IsToken, PRedirs, PArgs;
    if Peek(s, i, "(") {
      BlockSpans(s, i);
    } else {
      RedirSpans(s, i);
      var r := PRedirs(s, i);
      if r.RDone? {
        ArgSpans(s, r.p, 0);
        var a := PArgs(s, r.p, 0);
        if a.ADone? {
          WrapSpans(s, Exec(a.argv), r.list + a.redirs);
        }
      }
    }
  }

  lemma {:induction false} BlockSpans(s: string, i: nat)
    requires Line(s) && i <= |s|
    ensures var r := PBlock(s, i); r.Parsed? ==> SpansOk(s, r.cmd)
    decreases |s| - i, 0
  {
    hide Tok, Skip, IsToken, PRedirs, PLine;
    if Peek(s, i, "(") {
      PeekAdvances(s, i, "(");
      LineSpans(s, Tok(s, i).next);
      var body := PLine(s, Tok(s, i).next);
      if body.Parsed? && Peek(s, body.p, ")") {
        RedirSpans(s, Tok(s, body.p).next);
        var r := PRedirs(s, Tok(s, body.p).next);
        if r.RDone? {
          WrapSpans(s, body.cmd, r.list);
        }
      }
    }
  }

  lemma {:induction false} PipeSpans(s: string, i: nat)
    requires Line(s) && i <= |s|
    ensures var r := PPipe(s, i); r.Parsed? ==> SpansOk(s, r.cmd)
    decreases |s| - i, 2
  {
    hide Tok, Skip, IsToken, PExec;
    ExecSpans(s, i);
    var left := PExec(s, i);
    if left.Parsed? && Peek(s, left.p, "|") {
      PeekAdvances(s, left.p, "|");
      PipeSpans(s, Tok(s, left.p).next);
    }
  }

  lemma {:induction false} BackSpans(s: string, c: Cmd, i: nat)
    requires Line(s) && i <= |s| && SpansOk(s, c)
    ensures SpansOk(s, PBacks(s, c, i).cmd)
    decreases |s| - i
  {
    hide Tok, Skip, IsToken;
    if Peek(s, i, "&") {
      PeekAdvances(s, i, "&");
      BackSpans(s, Back(c), Tok(s, i).next);
    }
  }

  lemma {:induction false} LineSpans(s: string, i: nat)
    requires Line(s) && i <= |s|
    ensures var r := PLine(s, i); r.Parsed? ==> SpansOk(s, r.cmd)
    decreases |s| - i, 3
  {
    hide Tok, Skip, IsToken, PPipe, PBacks;
    PipeSpans(s, i);
    var first := PPipe(s, i);
    if first.Parsed? {
      BackSpans(s, first.cmd, first.p);
      var b := PBacks(s, first.cmd, first.p);
      if Peek(s, b.p, ";") {
        PeekAdvances(s, b.p, ";");
        LineSpans(s, Tok(s, b.p).next);
      }
    }
  }

  // ---------------------------------------------------------------- writing NULs

  /** Ends of the words of a command. */
  ghost function Ends(c: Cmd): set<nat> {
    set w | w in Spans(c) :: w.eq
  }

  /** The buffer with a NUL at each of the given places. */
  ghost predicate Cut(before: seq<char>, after: seq<char>, at: set<nat>) {
    |after| == |before| && forall k | 0 <= k < |before| :: after[k] == if k in at then '\0' else before[k]
  }

  lemma CutTwice(a: seq<char>, b: seq<char>, c: seq<char>, x: set<nat>, y: set<nat>)
    requires Cut(a, b, x) && Cut(b, c, y)
    ensures Cut(a, c, x + y)
  {
  }

  method NulTerminate(buf: array<char>, c: Cmd)
    requires forall w | w in Spans(c) :: w.eq < buf.Length
    modifies buf
    ensures Cut(old(buf[..]), buf[..], Ends(c))
    decreases c
  {
    hide Cut;
    ghost var was := buf[..];
    match c {
      case Exec(argv) =>
        CutWords(buf, argv);
        assert Ends(c) == set w | w in argv :: w.eq;
      case Redir(b, file, _, _) =>
        NulTerminate(buf, b);
        ghost var mid := buf[..];
        assert file in Spans(c);
        buf[file.eq] := '\0';
        CutOne(mid, file.eq);
        CutTwice(was, mid, buf[..], Ends(b), {file.eq});
        assert Ends(c) == Ends(b) + {file.eq};
      case Pipe(l, r) =>
        NulTerminate(buf, l);
        ghost var mid := buf[..];
        NulTerminate(buf, r);
        CutTwice(was, mid, buf[..], Ends(l), Ends(r));
        assert Ends(c) == Ends(l) + Ends(r);
      case List(l, r) =>
        NulTerminate(buf, l);
        ghost var mid := buf[..];
        NulTerminate(buf, r);
        CutTwice(was, mid, buf[..], Ends(l), Ends(r));
        assert Ends(c) == Ends(l) + Ends(r);
      case Back(b) =>
        NulTerminate(buf, b);
        assert Ends(c) == Ends(b);
    }
  }

  lemma CutOne(a: seq<char>, k: nat)
    requires k < |a|
    ensures Cut(a, a[k := '\0'], {k})
  {
  }

  /** The loop over the arguments of a simple command. */
  method CutWords(buf: array<char>, argv: seq<Span>)
    requires forall w | w in argv :: w.eq < buf.Length
    modifies buf
    ensures Cut(old(buf[..]), buf[..], set w | w in argv :: w.eq)
  {
    var i := 0;
    while i < |argv|
      invariant 0 <= i <= |argv|
      invariant Cut(old(buf[..]), buf[..], set w | w in argv[..i] :: w.eq)
    {
      ghost var mid := buf[..];
      assert argv[i] in argv;
      buf[argv[i].eq] := '\0';
      CutOne(mid, argv[i].eq);
      CutTwice(old(buf[..]), mid, buf[..], set w | w in argv[..i] :: w.eq, {argv[i].eq});
      assert argv[..i + 1] == argv[..i] + [argv[i]];
      assert (set w | w in argv[..i + 1] :: w.eq) == (set w | w in argv[..i] :: w.eq) + {argv[i].eq};
      i := i + 1;
    }
    assert argv[..i] == argv;
  }

  // ---------------------------------------------------------------- reading them back

  /** The C string at a place of the buffer. */
  function CString(buf: seq<char>, i: nat): string
    decreases |buf| - i
  {
    if i >= |buf| || buf[i] == '\0' then "" else [buf[i]] + CString(buf, i + 1)
  }

  lemma {:induction false} CStringIs(buf: seq<char>, i: nat, e: nat)
    requires i <= e < |buf| && buf[e] == '\0' && forall k | i <= k < e :: buf[k] != '\0'
    ensures CString(buf, i) == buf[i..e]
    decreases e - i
  {
    if i < e {
      CStringIs(buf, i + 1, e);
      assert buf[i..e] == [buf[i]] + buf[i + 1..e];
    }
  }

  /** After nulterminate every word reads back as exactly its text: the end of one word is
      never inside another. */
  lemma WordsReadBack(s: string, c: Cmd, buf: seq<char>, w: Span)
    requires Line(s) && SpansOk(s, c) && Cut(s + ['\0'], buf, Ends(c)) && w in Spans(c)
    ensures IsToken(s, w) && CString(buf, w.q) == s[w.q..w.eq]
  {
    assert w.eq in Ends(c);
    forall k | w.q <= k < w.eq
      ensures buf[k] == s[k] != '\0'
    {
      assert IsWord(s[k]);
      assert k !in Ends(c);
    }
    assert buf[w.eq] == '\0';
    CStringIs(buf, w.q, w.eq);
    assert buf[w.q..w.eq] == s[w.q..w.eq];
  }

  /** The same for whatever line the shell accepts. */
  lemma AcceptedWordsReadBack(s: string, buf: seq<char>, w: Span)
    requires Line(s) && PCmd(s).Parsed? && Cut(s + ['\0'], buf, Ends(PCmd(s).cmd)) && w in Spans(PCmd(s).cmd)
    ensures IsToken(s, w) && CString(buf, w.q) == s[w.q..w.eq]
  {
    hide PLine;
    LineSpans(s, 0);
    WordsReadBack(s, PCmd(s).cmd, buf, w);
  }

  /** parsecmd: parses the line and cuts the buffer that holds it into the words. */
  method ParseLineBuffer(line: string) returns (r: Parse, buf: array<char>)
    requires Line(line)
    ensures fresh(buf) && r == PCmd(line)
    ensures r.Parsed? ==> forall w | w in Spans(r.cmd) :: IsToken(line, w) && CString(buf[..], w.q) == line[w.q..w.eq]
  {
    hide PCmd, Cut, IsToken;
    buf := new char[|line| + 1](i requires 0 <= i <= |line| => if i < |line| then line[i] else '\0');
    assert buf[..] == line + ['\0'];
    var parser := new Parser(line);
    r := parser.ParseCmd();
    if r.Parsed? {
      AcceptedSpans(line);
      NulTerminate(buf, r.cmd);
      forall w | w in Spans(r.cmd)
        ensures IsToken(line, w) && CString(buf[..], w.q) == line[w.q..w.eq]
      {
        AcceptedWordsReadBack(line, buf[..], w);
      }
    }
  }

  lemma AcceptedSpans(s: string)
    requires Line(s) && PCmd(s).Parsed?
    ensures forall w | w in Spans(PCmd(s).cmd) :: w.q < w.eq <= |s|
  {
    hide PLine;
    LineSpans(s, 0);
  }
}
