/** The grammar of user/sh.c as functions on positions of the input line. */
module Shell {
  const MAXARGS: nat := 10
  const O_RDONLY: nat := 0x000
  const O_WRONLY: nat := 0x001
  const O_CREATE: nat := 0x200
  const O_TRUNC: nat := 0x400

  /** A word of the line: from q up to eq. */
  datatype Span = Span(q: nat, eq: nat)

  datatype Cmd =
    | Exec(argv: seq<Span>)
    | Redir(cmd: Cmd, file: Span, mode: nat, fd: nat)
    | Pipe(left: Cmd, right: Cmd)
    | List(left: Cmd, right: Cmd)
    | Back(cmd: Cmd)

  // ---------------------------------------------------------------- tokens

  predicate IsSpace(c: char) {
    c == ' ' || c == '\t' || c == '\r' || c == '\n' || c == '\U{000B}'
  }

  predicate IsSymbol(c: char) {
    c == '<' || c == '|' || c == '>' || c == '&' || c == ';' || c == '(' || c == ')'
  }

  /** Characters that words are made of. */
  predicate IsWord(c: char) {
    c != '\0' && !IsSpace(c) && !IsSymbol(c)
  }

  /** A C string: no NUL before its end. */
  predicate Line(s: string) {
    forall i | 0 <= i < |s| :: s[i] != '\0'
  }

  /** The character at a position; NUL at the end. */
  function At(s: string, i: nat): char {
    if i < |s| then s[i] else '\0'
  }

  function Skip(s: string, i: nat): (j: nat)
    requires i <= |s|
    ensures i <= j <= |s| && (j < |s| ==> !IsSpace(s[j])) && forall k | i <= k < j :: IsSpace(s[k])
    decreases |s| - i
  {
    if i < |s| && IsSpace(s[i]) then Skip(s, i + 1) else i
  }

  function WordEnd(s: string, i: nat): (j: nat)
    requires i <= |s|
    ensures i <= j <= |s| && (j < |s| ==> IsSpace(s[j]) || IsSymbol(s[j]))
    ensures forall k | i <= k < j :: !IsSpace(s[k]) && !IsSymbol(s[k])
    decreases |s| - i
  {
    if i < |s| && !IsSpace(s[i]) && !IsSymbol(s[i]) then WordEnd(s, i + 1) else i
  }

  /** gettoken: kind of the token, where it starts and ends, and where to go on. */
  datatype Token = Token(kind: char, q: nat, eq: nat, next: nat)

  function Tok(s: string, i: nat): (t: Token)
    requires Line(s) && i <= |s|
    ensures i <= t.q <= t.eq <= t.next <= |s| && t.q == Skip(s, i) && t.next == Skip(s, t.eq)
    ensures t.kind == '\0' <==> t.q == |s|
    ensures t.kind != '\0' ==> t.q < t.eq
    ensures t.kind == 'a' <==> t.q < |s| && IsWord(s[t.q])
    ensures t.kind == 'a' ==> IsToken(s, Span(t.q, t.eq))
  {
    var q := Skip(s, i);
    var c := At(s, q);
    if c == '\0' then Token('\0', q, q, Skip(s, q))
    else if c == '>' then
      if At(s, q + 1) == '>' then Token('+', q, q + 2, Skip(s, q + 2)) else Token('>', q, q + 1, Skip(s, q + 1))
    else if IsSymbol(c) then Token(c, q, q + 1, Skip(s, q + 1))
    else Token('a', q, WordEnd(s, q), Skip(s, WordEnd(s, q)))
  }

  /** A whole word of the line. */
  predicate IsToken(s: string, w: Span) {
    && w.q < w.eq <= |s| && (forall k | w.q <= k < w.eq :: IsWord(s[k]))
    && (w.eq < |s| ==> !IsWord(s[w.eq]))
  }

  /** peek: the next character that is not white space is one of these. */
  predicate Peek(s: string, i: nat, toks: string)
    requires i <= |s|
  {
    At(s, Skip(s, i)) != '\0' && At(s, Skip(s, i)) in toks
  }

  // ---------------------------------------------------------------- redirections

  datatype Redirection = Redirection(file: Span, mode: nat, fd: nat)
  datatype Redirs = RFail | RDone(list: seq<Redirection>, p: nat)

  function ModeOf(kind: char): nat {
    if kind == '<' then O_RDONLY else if kind == '>' then O_WRONLY + O_CREATE + O_TRUNC else O_WRONLY + O_CREATE
  }

  function FdOf(kind: char): nat {
    if kind == '<' then 0 else 1
  }

  function PRedirs(s: string, i: nat): (r: Redirs)
    requires Line(s) && i <= |s|
    ensures r.RDone? ==> i <= r.p <= |s|
    ensures r.RDone? && r.list != [] ==> i < r.p
    decreases |s| - i
  {
    if !Peek(s, i, "<>") then RDone([], Skip(s, i))
    else
      var t := Tok(s, i);
      var f := Tok(s, t.next);
      if f.kind != 'a' then RFail
      else
        var rest := PRedirs(s, f.next);
        if rest.RFail? then RFail
        else RDone([Redirection(Span(f.q, f.eq), ModeOf(t.kind), FdOf(t.kind))] + rest.list, rest.p)
  }

  /** Redirections wrap the command from the inside out. */
  function Wrap(c: Cmd, list: seq<Redirection>): Cmd
    decreases |list|
  {
    if list == [] then c else Wrap(Redir(c, list[0].file, list[0].mode, list[0].fd), list[1..])
  }

  // ---------------------------------------------------------------- commands

  datatype Args = AFail | ADone(argv: seq<Span>, redirs: seq<Redirection>, p: nat)
  datatype Parse = Fail | Parsed(cmd: Cmd, p: nat)

  /** The words of a simple command, n of which were read before. */
  function PArgs(s: string, i: nat, n: nat): (r: Args)
    requires Line(s) && i <= |s|
    ensures r.ADone? ==> i <= r.p <= |s|
    decreases |s| - i
  {
    if Peek(s, i, "|)&;") then ADone([], [], Skip(s, i))
    else
      var t := Tok(s, i);
      if t.kind == '\0' then ADone([], [], t.next)
      else if t.kind != 'a' || n + 1 >= MAXARGS then AFail
      else
        var r := PRedirs(s, t.next);
        if r.RFail? then AFail
        else
          var rest := PArgs(s, r.p, n + 1);
          if rest.AFail? then AFail else ADone([Span(t.q, t.eq)] + rest.argv, r.list + rest.redirs, rest.p)
  }

  function PExec(s: string, i: nat): (r: Parse)
    requires Line(s) && i <= |s|
    ensures r.Parsed? ==> i <= r.p <= |s|
    decreases |s| - i, 1
  {
    if Peek(s, i, "(") then PBlock(s, i)
    else
      var r := PRedirs(s, i);
      if r.RFail? then Fail
      else
        var a := PArgs(s, r.p, 0);
        if a.AFail? then Fail else Parsed(Wrap(Exec(a.argv), r.list + a.redirs), a.p)
  }

  function PBlock(s: string, i: nat): (r: Parse)
    requires Line(s) && i <= |s|
    ensures r.Parsed? ==> i <= r.p <= |s|
    decreases |s| - i, 0
  {
    if !Peek(s, i, "(") then Fail
    else
      var body := PLine(s, Tok(s, i).next);
      if body.Fail? || !Peek(s, body.p, ")") then Fail
      else
        var r := PRedirs(s, Tok(s, body.p).next);
        if r.RFail? then Fail else Parsed(Wrap(body.cmd, r.list), r.p)
  }

  function PPipe(s: string, i: nat): (r: Parse)
    requires Line(s) && i <= |s|
    ensures r.Parsed? ==> i <= r.p <= |s|
    decreases |s| - i, 2
  {
    var left := PExec(s, i);
    if left.Fail? then Fail
    else if !Peek(s, left.p, "|") then Parsed(left.cmd, Skip(s, left.p))
    else
      var right := PPipe(s, Tok(s, left.p).next);
      if right.Fail? then Fail else Parsed(Pipe(left.cmd, right.cmd), right.p)
  }

  /** Any number of `&` after a command. */
  function PBacks(s: string, c: Cmd, i: nat): (r: Parse)
    requires Line(s) && i <= |s|
    ensures r.Parsed? && i <= r.p <= |s|
    decreases |s| - i
  {
    if !Peek(s, i, "&") then Parsed(c, Skip(s, i)) else PBacks(s, Back(c), Tok(s, i).next)
  }

  function PLine(s: string, i: nat): (r: Parse)
    requires Line(s) && i <= |s|
    ensures r.Parsed? ==> i <= r.p <= |s|
    decreases |s| - i, 3
  {
    var first := PPipe(s, i);
    if first.Fail? then Fail
    else
      var b := PBacks(s, first.cmd, first.p);
      if !Peek(s, b.p, ";") then Parsed(b.cmd, Skip(s, b.p))
      else
        var rest := PLine(s, Tok(s, b.p).next);
        if rest.Fail? then Fail else Parsed(List(b.cmd, rest.cmd), rest.p)
  }

  /** parsecmd, before nulterminate: the whole line is one command. */
  function PCmd(s: string): (r: Parse)
    requires Line(s)
  {
    var r := PLine(s, 0);
    if r.Fail? || Skip(s, r.p) != |s| then Fail else Parsed(r.cmd, |s|)
  }
}
