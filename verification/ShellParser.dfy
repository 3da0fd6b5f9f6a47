/** The parser of user/sh.c as it runs: a position that moves along the line. */
module ShellParser {
  import opened Shell

  class Parser {
    const s: string
    var p: nat                           // *ps

    ghost predicate Valid()
      reads this
    {
      Line(s) && p <= |s|
    }

    constructor (line: string)
      requires Line(line)
      ensures Valid() && s == line && p == 0
    {
      s := line;
      p := 0;
    }

    method SkipSpaces(i: nat) returns (j: nat)
      requires Valid() && i <= |s|
      ensures j == Skip(s, i)
    {
      j := i;
      while j < |s| && IsSpace(s[j])
        invariant j <= |s| && Skip(s, j) == Skip(s, i)
      {
        j := j + 1;
      }
    }

    method GetToken() returns (t: Token)
      requires Valid()
      modifies this
      ensures Valid() && t == Tok(s, old(p)) && p == t.next
    {
      var i := SkipSpaces(p);
      var q := i;
      var kind := At(s, i);
      if kind == '\0' {
      } else if kind == '>' {
        i := i + 1;
        if At(s, i) == '>' {
          kind := '+';
          i := i + 1;
        }
      } else if IsSymbol(kind) {
        i := i + 1;
      } else {
        kind := 'a';
        while i < |s| && !IsSpace(s[i]) && !IsSymbol(s[i])
          invariant q <= i <= |s| && WordEnd(s, i) == WordEnd(s, q)
        {
          i := i + 1;
        }
      }
      var eq := i;
      i := SkipSpaces(i);
      p := i;
      return Token(kind, q, eq, i);
    }

    method PeekFor(toks: string) returns (found: bool)
      requires Valid()
      modifies this
      ensures Valid() && p == Skip(s, old(p)) && found == Peek(s, old(p), toks)
    {
      p := SkipSpaces(p);
      return At(s, p) != '\0' && At(s, p) in toks;
    }

    /** parseredirs: the redirections at p, in order; fails where the shell panics. */
    method ParseRedirs() returns (r: Redirs)
      requires Valid()
      modifies this
      ensures Valid() && r == PRedirs(s, old(p)) && (r.RDone? ==> p == r.p)
    {
      hide PRedirs, Tok, Skip, Peek, Then;
      ghost var start := p;
      var list: seq<Redirection> := [];
      var more := PeekFor("<>");
      SkipTwice(s, start, "<>");
      ThenNone(PRedirs(s, p));
      while more
        invariant Valid() && more == Peek(s, p, "<>") && start <= p && Skip(s, p) == p
        invariant Then(list, PRedirs(s, p)) == PRedirs(s, start)
        decreases |s| - p
      {
        ghost var done := list;
        RedirsStep(s, p);
        var t := GetToken();
        var f := GetToken();
        if f.kind != 'a' {
          ThenFail(list);
          return RFail;
        }
        var one := Redirection(Span(f.q, f.eq), ModeOf(t.kind), FdOf(t.kind));
        list := list + [one];
        ThenStep(done, one, PRedirs(s, p));
        ghost var j := p;
        more := PeekFor("<>");
        SkipTwice(s, j, "<>");
      }
      RedirsEnd(s, p, list);
      return RDone(list, p);
    }

    /** parseexec: words and redirections of a simple command, or a block. */
    method ParseExec() returns (r: Parse)
      requires Valid()
      modifies this
      ensures Valid() && r == PExec(s, old(p)) && (r.Parsed? ==> p == r.p)
      decreases |s| - p, 1
    {
      hide PRedirs, PArgs, PExec, PBlock, Tok, Skip, Peek, Wrap;
      ghost var start := p;
      SkipTwice(s, start, "(");
      ExecCases(s, start);
      var block := PeekFor("(");
      if block {
        r := ParseBlock();
        return;
      }
      var first := ParseRedirs();
      if first.RFail? {
        return Fail;
      }
      var a := ParseArgs(first.list);
      if a.AFail? {
        return Fail;
      }
      return Parsed(Wrap(Exec(a.argv), a.redirs), a.p);
    }

    /** The loop of parseexec. */
    method ParseArgs(first: seq<Redirection>) returns (a: Args)
      requires Valid()
      modifies this
      ensures Valid() && a == Glue([], first, PArgs(s, old(p), 0)) && (a.ADone? ==> p == a.p)
    {
      hide PRedirs, PArgs, Tok, Skip, Peek, Glue;
      ghost var start := p;
      var argv: seq<Span>, redirs := [], first;
      var stop := PeekFor("|)&;");
      SkipTwice(s, start, "|)&;");
      ArgsSkip(s, start, 0);
      while !stop
        invariant Valid() && Skip(s, p) == p && stop == Peek(s, p, "|)&;")
        invariant Glue(argv, redirs, PArgs(s, p, |argv|)) == Glue([], first, PArgs(s, start, 0))
        decreases |s| - p
      {
        ArgsStep(s, p, argv, redirs);
        var t := GetToken();
        if t.kind == '\0' {
          return ADone(argv, redirs, p);
        }
        if t.kind != 'a' {
          return AFail;
        }
        argv := argv + [Span(t.q, t.eq)];
        if |argv| >= MAXARGS {
          return AFail;
        }
        var more := ParseRedirs();
        if more.RFail? {
          return AFail;
        }
        redirs := redirs + more.list;
        ghost var j := p;
        stop := PeekFor("|)&;");
        SkipTwice(s, j, "|)&;");
        ArgsSkip(s, j, |argv|);
      }
      ArgsEnd(s, p, argv, redirs);
      return ADone(argv, redirs, p);
    }

    /** parseblock: a line in parentheses, then redirections. */
    method ParseBlock() returns (r: Parse)
      requires Valid()
      modifies this
      ensures Valid() && r == PBlock(s, old(p)) && (r.Parsed? ==> p == r.p)
      decreases |s| - p, 0
    {
      hide PRedirs, PLine, Skip, Wrap;
      ghost var start := p;
      SkipTwice(s, start, "(");
      var open := PeekFor("(");
      if !open {
        return Fail;
      }
      var t := GetToken();
      var body := ParseLine();
      if body.Fail? {
        return Fail;
      }
      SkipTwice(s, p, ")");
      var close := PeekFor(")");
      if !close {
        return Fail;
      }
      t := GetToken();
      var rs := ParseRedirs();
      if rs.RFail? {
        return Fail;
      }
      return Parsed(Wrap(body.cmd, rs.list), p);
    }

    /** parsepipe. */
    method ParsePipe() returns (r: Parse)
      requires Valid()
      modifies this
      ensures Valid() && r == PPipe(s, old(p)) && (r.Parsed? ==> p == r.p)
      decreases |s| - p, 2
    {
      hide PExec, Skip;
      var left := ParseExec();
      if left.Fail? {
        return Fail;
      }
      SkipTwice(s, p, "|");
      var more := PeekFor("|");
      if !more {
        return Parsed(left.cmd, p);
      }
      var t := GetToken();
      var right := ParsePipe();
      if right.Fail? {
        return Fail;
      }
      return Parsed(Pipe(left.cmd, right.cmd), p);
    }

    /** parseline. */
    method ParseLine() returns (r: Parse)
      requires Valid()
      modifies this
      ensures Valid() && r == PLine(s, old(p)) && (r.Parsed? ==> p == r.p)
      decreases |s| - p, 3
    {
      hide PPipe, Skip, PBacks;
      var first := ParsePipe();
      if first.Fail? {
        return Fail;
      }
      var cmd := ParseBacks(first.cmd);
      SkipTwice(s, p, ";");
      var more := PeekFor(";");
      if !more {
        return Parsed(cmd, p);
      }
      var t := GetToken();
      var rest := ParseLine();
      if rest.Fail? {
        return Fail;
      }
      return Parsed(List(cmd, rest.cmd), p);
    }

    /** The loop of parseline. */
    method ParseBacks(first: Cmd) returns (cmd: Cmd)
      requires Valid()
      modifies this
      ensures Valid() && PBacks(s, first, old(p)) == Parsed(cmd, p)
    {
      hide Tok, Skip, Peek, PBacks;
      ghost var start := p;
      cmd := first;
      var more := PeekFor("&");
      SkipTwice(s, start, "&");
      BacksSkip(s, cmd, start);
      while more
        invariant Valid() && Skip(s, p) == p && more == Peek(s, p, "&") && start <= p
        invariant PBacks(s, cmd, p) == PBacks(s, first, start)
        decreases |s| - p
      {
        BacksStep(s, cmd, p);
        var t := GetToken();
        cmd := Back(cmd);
        ghost var j := p;
        more := PeekFor("&");
        SkipTwice(s, j, "&");
        BacksSkip(s, cmd, j);
      }
      BacksEnd(s, cmd, p);
    }

    /** parsecmd up to nulterminate. */
    method ParseCmd() returns (r: Parse)
      requires Valid() && p == 0
      modifies this
      ensures Valid() && r == PCmd(s)
    {
      hide PLine, Skip;
      var line := ParseLine();
      if line.Fail? {
        return Fail;
      }
      var found := PeekFor("");
      if p != |s| {
        return Fail;
      }
      return Parsed(line.cmd, p);
    }
  }

  /** Redirections read so far, then the rest. */
  function Then(list: seq<Redirection>, rest: Redirs): Redirs {
    if rest.RFail? then RFail else RDone(list + rest.list, rest.p)
  }

  lemma ThenNone(rest: Redirs)
    ensures Then([], rest) == rest
  {
  }

  lemma ThenFail(list: seq<Redirection>)
    ensures Then(list, RFail) == RFail
  {
  }

  lemma RedirsEnd(s: string, i: nat, list: seq<Redirection>)
    requires Line(s) && i <= |s| && !Peek(s, i, "<>") && Skip(s, i) == i
    ensures Then(list, PRedirs(s, i)) == RDone(list, i)
  {
  }

  lemma RedirsStep(s: string, i: nat)
    requires Line(s) && i <= |s| && Peek(s, i, "<>")
    ensures var t := Tok(s, i);
      var f := Tok(s, t.next);
      && i < t.next
      && PRedirs(s, i) == if f.kind != 'a' then RFail
                          else Then([Redirection(Span(f.q, f.eq), ModeOf(t.kind), FdOf(t.kind))], PRedirs(s, f.next))
  {
  }

  lemma ThenStep(list: seq<Redirection>, one: Redirection, rest: Redirs)
    ensures Then(list, Then([one], rest)) == Then(list + [one], rest)
  {
    if rest.RDone? {
      assert list + ([one] + rest.list) == list + [one] + rest.list;
    }
  }

  /** Skipping white space twice changes nothing. */
  lemma SkipTwice(s: string, i: nat, toks: string)
    requires Line(s) && i <= |s|
    ensures Skip(s, Skip(s, i)) == Skip(s, i) && Peek(s, Skip(s, i), toks) == Peek(s, i, toks)
    ensures Tok(s, Skip(s, i)) == Tok(s, i) && PRedirs(s, Skip(s, i)) == PRedirs(s, i)
  {
  }

  /** Arguments and redirections read so far, then the rest. */
  function Glue(argv: seq<Span>, redirs: seq<Redirection>, rest: Args): Args {
    if rest.AFail? then AFail else ADone(argv + rest.argv, redirs + rest.redirs, rest.p)
  }

  lemma BlockSkip(s: string, i: nat)
    requires Line(s) && i <= |s|
    ensures PBlock(s, Skip(s, i)) == PBlock(s, i)
  {
    hide Tok, Skip, Peek, PRedirs, PLine;
    SkipTwice(s, i, "(");
  }

  lemma ExecCases(s: string, i: nat)
    requires Line(s) && i <= |s|
    ensures Peek(s, i, "(") ==> PExec(s, i) == PBlock(s, Skip(s, i))
    ensures !Peek(s, i, "(") ==>
      var r := PRedirs(s, Skip(s, i));
      if r.RFail? then PExec(s, i) == Fail
      else var a := Glue([], r.list, PArgs(s, r.p, 0));
        PExec(s, i) == if a.AFail? then Fail else Parsed(Wrap(Exec(a.argv), a.redirs), a.p)
  {
    hide Tok, Skip, Peek, PRedirs, PArgs, PBlock;
    SkipTwice(s, i, "(");
    BlockSkip(s, i);
    if !Peek(s, i, "(") && PRedirs(s, i).RDone? {
      var a := PArgs(s, PRedirs(s, i).p, 0);
      assert a.ADone? ==> [] + a.argv == a.argv;
    }
  }

  lemma ArgsSkip(s: string, i: nat, n: nat)
    requires Line(s) && i <= |s|
    ensures PArgs(s, Skip(s, i), n) == PArgs(s, i, n)
  {
    SkipTwice(s, i, "|)&;");
  }

  lemma ArgsEnd(s: string, i: nat, argv: seq<Span>, redirs: seq<Redirection>)
    requires Line(s) && i <= |s| && Peek(s, i, "|)&;") && Skip(s, i) == i
    ensures Glue(argv, redirs, PArgs(s, i, |argv|)) == ADone(argv, redirs, i)
  {
  }

  lemma ArgsUnfold(s: string, i: nat, n: nat)
    requires Line(s) && i <= |s| && !Peek(s, i, "|)&;")
    ensures var t := Tok(s, i);
      if t.kind == '\0' then PArgs(s, i, n) == ADone([], [], t.next)
      else if t.kind != 'a' || n + 1 >= MAXARGS then PArgs(s, i, n) == AFail
      else var r := PRedirs(s, t.next);
        if r.RFail? then PArgs(s, i, n) == AFail
        else var rest := PArgs(s, r.p, n + 1);
          PArgs(s, i, n) ==
            if rest.AFail? then AFail else ADone([Span(t.q, t.eq)] + rest.argv, r.list + rest.redirs, rest.p)
  {
    hide Tok, Skip, Peek, PRedirs;
  }

  /** One round of the loop of parseexec. */
  lemma ArgsStep(s: string, i: nat, argv: seq<Span>, redirs: seq<Redirection>)
    requires Line(s) && i <= |s| && !Peek(s, i, "|)&;")
    ensures var t := Tok(s, i);
      var all := Glue(argv, redirs, PArgs(s, i, |argv|));
      if t.kind == '\0' then all == ADone(argv, redirs, t.next)
      else if t.kind != 'a' || |argv| + 1 >= MAXARGS then all == AFail
      else var r := PRedirs(s, t.next);
        if r.RFail? then all == AFail
        else i < r.p && all == Glue(argv + [Span(t.q, t.eq)], redirs + r.list, PArgs(s, r.p, |argv| + 1))
  {
    hide Tok, Skip, Peek, PRedirs, PArgs;
    ArgsUnfold(s, i, |argv|);
    var t := Tok(s, i);
    if t.kind == 'a' && |argv| + 1 < MAXARGS && PRedirs(s, t.next).RDone? {
      var r := PRedirs(s, t.next);
      var rest := PArgs(s, r.p, |argv| + 1);
      if rest.ADone? {
        assert argv + ([Span(t.q, t.eq)] + rest.argv) == argv + [Span(t.q, t.eq)] + rest.argv;
        assert redirs + (r.list + rest.redirs) == redirs + r.list + rest.redirs;
      }
    }
  }

  lemma BacksSkip(s: string, c: Cmd, i: nat)
    requires Line(s) && i <= |s|
    ensures PBacks(s, c, Skip(s, i)) == PBacks(s, c, i)
  {
    SkipTwice(s, i, "&");
  }

  lemma BacksStep(s: string, c: Cmd, i: nat)
    requires Line(s) && i <= |s| && Peek(s, i, "&")
    ensures i < Tok(s, i).next && PBacks(s, c, i) == PBacks(s, Back(c), Tok(s, i).next)
  {
  }

  lemma BacksEnd(s: string, c: Cmd, i: nat)
    requires Line(s) && i <= |s| && !Peek(s, i, "&") && Skip(s, i) == i
    ensures PBacks(s, c, i) == Parsed(c, i)
  {
  }
}
