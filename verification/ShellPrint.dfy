/** Command trees, their fully parenthesised printing, and what parsing makes of it. */
module ShellPrint {
  import opened Shell

  /** How a redirection opens its file, and for which descriptor. */
  datatype Kind = Kind(mode: nat, fd: nat)

  const IN := Kind(0x000, 0)
  const OUT := Kind(0x601, 1)            // create, truncate, write
  const APPEND := Kind(0x201, 1)         // create, write

  datatype Tree =
    | TExec(args: seq<string>)
    | TRedir(cmd: Tree, file: string, kind: Kind)
    | TPipe(left: Tree, right: Tree)
    | TList(left: Tree, right: Tree)
    | TBack(cmd: Tree)

  predicate Word(w: string) {
    w != "" && forall i | 0 <= i < |w| :: IsWord(w[i])
  }

  /** At most nine words per command, all of them words. */
  predicate ValidTree(t: Tree) {
    match t
    case TExec(args) => |args| < MAXARGS && forall i | 0 <= i < |args| :: Word(args[i])
    case TRedir(c, f, k) => ValidTree(c) && Word(f) && (k == IN || k == OUT || k == APPEND)
    case TPipe(l, r) => ValidTree(l) && ValidTree(r)
    case TList(l, r) => ValidTree(l) && ValidTree(r)
    case TBack(c) => ValidTree(c)
  }

  function Join(args: seq<string>): string {
    if |args| == 0 then "" else if |args| == 1 then args[0] else args[0] + " " + Join(args[1..])
  }

  function Mark(k: Kind): string {
    if k == IN then "<" else if k == OUT then ">" else ">>"
  }

  function Show(t: Tree): string {
    match t
    case TExec(args) => Join(args)
    case TRedir(c, f, k) => "(" + Show(c) + ")" + Mark(k) + f
    case TPipe(l, r) => "(" + Show(l) + ")|(" + Show(r) + ")"
    case TList(l, r) => "(" + Show(l) + ");(" + Show(r) + ")"
    case TBack(c) => "(" + Show(c) + ")&"
  }

  // ---------------------------------------------------------------- reading a parsed command

  function Text(s: string, w: Span): string {
    if w.q <= w.eq <= |s| then s[w.q..w.eq] else ""
  }

  function Texts(s: string, argv: seq<Span>): (r: seq<string>)
    ensures |r| == |argv| && forall i | 0 <= i < |argv| :: r[i] == Text(s, argv[i])
  {
    if argv == [] then [] else [Text(s, argv[0])] + Texts(s, argv[1..])
  }

  /** The tree a parsed command stands for. */
  function Read(s: string, c: Cmd): Tree {
    match c
    case Exec(argv) => TExec(Texts(s, argv))
    case Redir(b, file, mode, fd) => TRedir(Read(s, b), Text(s, file), Kind(mode, fd))
    case Pipe(l, r) => TPipe(Read(s, l), Read(s, r))
    case List(l, r) => TList(Read(s, l), Read(s, r))
    case Back(b) => TBack(Read(s, b))
  }

  // ---------------------------------------------------------------- text in place

  /** The text stands in s from i on. */
  predicate Has(s: string, i: nat, text: string) {
    i + |text| <= |s| && s[i..i + |text|] == text
  }

  lemma HasSplit(s: string, i: nat, a: string, b: string)
    requires Has(s, i, a + b)
    ensures Has(s, i, a) && Has(s, i + |a|, b)
  {
    assert s[i..i + |a|] == (a + b)[..|a|];
    assert s[i + |a|..i + |a| + |b|] == (a + b)[|a|..];
  }

  lemma HasChar(s: string, i: nat, text: string, k: nat)
    requires Has(s, i, text) && k < |text|
    ensures s[i + k] == text[k]
  {
    assert s[i..i + |text|][k] == text[k];
  }

  /** A symbol stands for itself. */
  lemma SymbolAt(s: string, i: nat, c: char)
    requires Line(s) && Has(s, i, [c]) && IsSymbol(c) && c != '>'
    ensures i < |s| && s[i] == c && Skip(s, i) == i && Tok(s, i) == Token(c, i, i + 1, Skip(s, i + 1))
    ensures forall toks :: Peek(s, i, toks) <==> c in toks
  {
    HasChar(s, i, [c], 0);
  }

  /** A word, followed by something that is not one, is one token. */
  lemma WordAt(s: string, i: nat, w: string)
    requires Line(s) && Has(s, i, w) && Word(w) && (i + |w| < |s| ==> !IsWord(s[i + |w|]))
    ensures Skip(s, i) == i && Tok(s, i) == Token('a', i, i + |w|, Skip(s, i + |w|))
    ensures IsWord(s[i]) && !Peek(s, i, "<>") && !Peek(s, i, "|)&;") && !Peek(s, i, "(")
  {
    forall k | i <= k < i + |w|
      ensures IsWord(s[k])
    {
      HasChar(s, i, w, k - i);
    }
    WordEnds(s, i, i + |w|);
  }

  lemma {:induction false} WordEnds(s: string, i: nat, e: nat)
    requires Line(s) && i <= e <= |s| && (forall k | i <= k < e :: IsWord(s[k])) && (e < |s| ==> !IsWord(s[e]))
    ensures WordEnd(s, i) == e
    decreases e - i
  {
    if i < e {
      WordEnds(s, i + 1, e);
    }
  }

  /** The end of the line, or a closing parenthesis. */
  predicate Closes(s: string, e: nat) {
    e == |s| || (e < |s| && s[e] == ')')
  }

  lemma CloseFacts(s: string, e: nat)
    requires Line(s) && Closes(s, e)
    ensures Skip(s, e) == e && !Peek(s, e, "<>")
    ensures !Peek(s, e, "(") && !Peek(s, e, "&") && !Peek(s, e, "|") && !Peek(s, e, ";")
    ensures PRedirs(s, e) == RDone([], e)
    ensures forall n :: PArgs(s, e, n) == ADone([], [], e)
  {
  }

  // ---------------------------------------------------------------- simple commands

  /** The words from i to e read back as args. */
  ghost predicate ReadsArgs(s: string, i: nat, n: nat, args: seq<string>, e: nat)
    requires Line(s) && i <= |s|
  {
    var r := PArgs(s, i, n);
    r.ADone? && r.redirs == [] && r.p == e && Texts(s, r.argv) == args
  }

  lemma {:induction false} ArgsAt(s: string, i: nat, args: seq<string>, n: nat)
    requires Line(s) && Has(s, i, Join(args)) && Closes(s, i + |Join(args)|)
    requires n + |args| < MAXARGS && forall k | 0 <= k < |args| :: Word(args[k])
    ensures ReadsArgs(s, i, n, args, i + |Join(args)|)
    decreases |args|
  {
    hide PRedirs, PArgs, Skip, Tok, Peek, Word, Closes, Has, ReadsArgs;
    if |args| == 0 {
      NoArgs(s, i, n);
      assert args == [];
    } else {
      var w := args[0];
      if |args| == 1 {
        assert args == [w];
        NoArgs(s, i + |w|, n + 1);
        CloseFacts(s, i + |w|);
        CloseWord(s, i + |w|);
        FirstArg(s, i, w, n, [], i + |w|);
        assert [w] + [] == args;
      } else {
        var rest := Join(args[1..]);
        assert Join(args) == w + (" " + rest);
        HasSplit(s, i, w, " " + rest);
        HasSplit(s, i + |w|, " ", rest);
        SpaceAfter(s, i, w, args[1..]);
        ArgsAt(s, i + |w| + 1, args[1..], n + 1);
        FirstArg(s, i, w, n, args[1..], i + |Join(args)|);
        assert [w] + args[1..] == args;
      }
    }
  }

  lemma NoArgs(s: string, i: nat, n: nat)
    requires Line(s) && Closes(s, i)
    ensures ReadsArgs(s, i, n, [], i)
  {
    hide PArgs;
    CloseFacts(s, i);
  }

  lemma CloseWord(s: string, e: nat)
    requires Closes(s, e)
    ensures e < |s| ==> !IsWord(s[e])
  {
  }

  /** A space ends the word; the next token is the next word. */
  lemma SpaceAfter(s: string, i: nat, w: string, rest: seq<string>)
    requires Line(s) && |rest| > 0 && Word(rest[0]) && Has(s, i + |w|, " ") && Has(s, i + |w| + 1, Join(rest))
    ensures i + |w| < |s| && !IsWord(s[i + |w|]) && Skip(s, i + |w|) == i + |w| + 1
    ensures PRedirs(s, i + |w| + 1) == RDone([], i + |w| + 1)
  {
    HasChar(s, i + |w|, " ", 0);
    HasChar(s, i + |w| + 1, Join(rest), 0);
    assert IsWord(s[i + |w| + 1]);
  }

  lemma FirstArg(s: string, i: nat, w: string, n: nat, args: seq<string>, e: nat)
    requires Line(s) && Has(s, i, w) && Word(w) && (i + |w| < |s| ==> !IsWord(s[i + |w|])) && n + 1 < MAXARGS
    requires var j := Skip(s, i + |w|); PRedirs(s, j) == RDone([], j) && ReadsArgs(s, j, n + 1, args, e)
    ensures ReadsArgs(s, i, n, [w] + args, e)
  {
    hide PRedirs, Skip, Tok, Peek, Word;
    WordAt(s, i, w);
    var rest := PArgs(s, Skip(s, i + |w|), n + 1);
    FirstUnfold(s, i, w, n);
    assert PArgs(s, i, n).argv[1..] == rest.argv;
    assert Texts(s, PArgs(s, i, n).argv) == [w] + args;
  }

  lemma FirstUnfold(s: string, i: nat, w: string, n: nat)
    requires Line(s) && i < i + |w| <= |s| && n + 1 < MAXARGS && !Peek(s, i, "|)&;")
    requires Tok(s, i) == Token('a', i, i + |w|, Skip(s, i + |w|))
    requires var j := Skip(s, i + |w|); PRedirs(s, j) == RDone([], j) && PArgs(s, j, n + 1).ADone?
    ensures var rest := PArgs(s, Skip(s, i + |w|), n + 1);
      PArgs(s, i, n) == ADone([Span(i, i + |w|)] + rest.argv, rest.redirs, rest.p)
  {
    hide PRedirs, Skip, Tok, Peek;
  }

  /** A simple command, up to its end. */
  lemma ExecAt(s: string, i: nat, args: seq<string>)
    requires Line(s) && Has(s, i, Join(args)) && Closes(s, i + |Join(args)|) && ValidTree(TExec(args))
    ensures var r := PExec(s, i);
      r.Parsed? && r.p == i + |Join(args)| && Read(s, r.cmd) == TExec(args)
  {
    hide PRedirs, PArgs, Skip, Tok, Peek, Word;
    ArgsAt(s, i, args, 0);
    ExecStart(s, i, args);
  }

  lemma ExecStart(s: string, i: nat, args: seq<string>)
    requires Line(s) && Has(s, i, Join(args)) && Closes(s, i + |Join(args)|) && ValidTree(TExec(args))
    ensures !Peek(s, i, "(") && PRedirs(s, i) == RDone([], i)
  {
    if |args| == 0 {
      CloseFacts(s, i);
    } else {
      HasChar(s, i, Join(args), 0);
      assert IsWord(s[i]) by {
        assert Word(args[0]);
        assert Join(args)[0] == args[0][0];
      }
    }
  }

  // ---------------------------------------------------------------- blocks

  /** What may follow a block: the end, or a symbol. */
  predicate Ends(s: string, e: nat) {
    e == |s| || (e < |s| && IsSymbol(s[e]))
  }

  lemma EndFacts(s: string, e: nat)
    requires Line(s) && Ends(s, e)
    ensures Skip(s, e) == e
    ensures forall toks :: Peek(s, e, toks) <==> e < |s| && s[e] in toks
    ensures (e < |s| ==> s[e] != '<' && s[e] != '>') ==> PRedirs(s, e) == RDone([], e)
  {
  }

  /** A block whose body parses: its redirections decide the rest. */
  lemma BlockAt(s: string, i: nat, t: Tree)
    requires Line(s) && Has(s, i, "(" + Show(t) + ")") && Ends(s, i + |Show(t)| + 2)
    requires var b := PLine(s, i + 1); b.Parsed? && b.p == i + 1 + |Show(t)| && Read(s, b.cmd) == t
    requires Skip(s, i + 1) == i + 1
    ensures Peek(s, i, "(") && Skip(s, i) == i
    ensures var r := PRedirs(s, i + |Show(t)| + 2);
      PExec(s, i) == if r.RFail? then Fail else Parsed(Wrap(PLine(s, i + 1).cmd, r.list), r.p)
  {
    hide PRedirs, PLine, Wrap, Show, Read, Peek, Skip, Tok;
    var e := i + 1 + |Show(t)|;
    HasSplit(s, i, "(" + Show(t), ")");
    HasSplit(s, i, "(", Show(t));
    SymbolAt(s, i, '(');
    SymbolAt(s, e, ')');
    EndFacts(s, e + 1);
    ExecIsBlock(s, i);
  }

  lemma ExecIsBlock(s: string, i: nat)
    requires Line(s) && i <= |s| && Peek(s, i, "(")
    ensures PExec(s, i) == PBlock(s, i)
  {
    hide PRedirs, PLine;
  }

  // ---------------------------------------------------------------- whole commands

  /** The line from i on parses as t and ends where its printing ends. */
  ghost predicate Parses(s: string, i: nat, t: Tree)
    requires Line(s) && i <= |s|
  {
    var r := PLine(s, i);
    r.Parsed? && r.p == i + |Show(t)| && Read(s, r.cmd) == t
  }

  /** Printings start with a parenthesis or a word, or are empty. */
  lemma ShowStart(s: string, i: nat, t: Tree)
    requires Line(s) && Has(s, i, Show(t)) && Closes(s, i + |Show(t)|) && ValidTree(t)
    ensures Skip(s, i) == i
  {
    if Show(t) == "" {
      CloseFacts(s, i);
    } else {
      HasChar(s, i, Show(t), 0);
      if t.TExec? {
        ShowWord(t.args);
      }
    }
  }

  lemma ShowWord(args: seq<string>)
    requires |args| > 0 && Word(args[0])
    ensures Join(args) != "" && IsWord(Join(args)[0])
  {
  }

  /** A command that ends the line or the block. */
  lemma SimpleLine(s: string, i: nat, c: Cmd, e: nat)
    requires Line(s) && i <= |s| && PExec(s, i) == Parsed(c, e) && Closes(s, e)
    ensures PPipe(s, i) == Parsed(c, e) && PLine(s, i) == Parsed(c, e)
  {
    hide PExec, PRedirs, Skip, Tok, Peek;
    CloseFacts(s, e);
  }

  /** One redirection at the end. */
  lemma RedirAt(s: string, j: nat, k: Kind, f: string)
    requires k == IN || k == OUT || k == APPEND
    requires Line(s) && Has(s, j, Mark(k) + f) && Word(f) && Closes(s, j + |Mark(k) + f|)
    ensures j < |s| && IsSymbol(s[j])
    ensures var r := PRedirs(s, j);
      && r.RDone? && r.p == j + |Mark(k) + f| && |r.list| == 1
      && Text(s, r.list[0].file) == f && Kind(r.list[0].mode, r.list[0].fd) == k
  {
    hide Word, PRedirs, Tok, Skip, Peek, Closes;
    var n, e := |Mark(k)|, j + |Mark(k) + f|;
    HasSplit(s, j, Mark(k), f);
    MarkAt(s, j, k);
    CloseWord(s, e);
    CloseFacts(s, e);
    RedirWord(s, j, k, f);
  }

  lemma MarkAt(s: string, j: nat, k: Kind)
    requires k == IN || k == OUT || k == APPEND
    requires Has(s, j, Mark(k))
    ensures j < |s| && s[j] == Mark(k)[0] && IsSymbol(s[j]) && (k == APPEND ==> j + 1 < |s| && s[j + 1] == '>')
  {
    HasChar(s, j, Mark(k), 0);
    if k == APPEND {
      HasChar(s, j, Mark(k), 1);
    }
  }

  lemma RedirWord(s: string, j: nat, k: Kind, f: string)
    requires k == IN || k == OUT || k == APPEND
    requires Line(s) && j < |s| && s[j] == Mark(k)[0] && (k == APPEND ==> j + 1 < |s| && s[j + 1] == '>')
    requires var i, e := j + |Mark(k)|, j + |Mark(k)| + |f|;
      Has(s, i, f) && Word(f) && (e < |s| ==> !IsWord(s[e])) && Skip(s, e) == e && PRedirs(s, e) == RDone([], e)
    ensures var r := PRedirs(s, j);
      && r.RDone? && r.p == j + |Mark(k)| + |f| && |r.list| == 1
      && Text(s, r.list[0].file) == f && Kind(r.list[0].mode, r.list[0].fd) == k
  {
    hide Word, PRedirs, Tok, Skip, Peek, Mark, ModeOf, FdOf;
    WordAt(s, j + |Mark(k)|, f);
    MarkTok(s, j, k);
    OneRedir(s, j, j + |Mark(k)| + |f|);
  }

  lemma OneRedir(s: string, j: nat, e: nat)
    requires Line(s) && j <= |s| && e <= |s| && Peek(s, j, "<>")
    requires var f := Tok(s, Tok(s, j).next); f.kind == 'a' && f.next == e && PRedirs(s, e) == RDone([], e)
    ensures var t := Tok(s, j);
      var f := Tok(s, t.next);
      PRedirs(s, j) == RDone([Redirection(Span(f.q, f.eq), ModeOf(t.kind), FdOf(t.kind))], e)
  {
    hide Tok, Skip, Peek;
  }

  lemma MarkTok(s: string, j: nat, k: Kind)
    requires k == IN || k == OUT || k == APPEND
    requires Line(s) && j + |Mark(k)| < |s| && s[j] == Mark(k)[0] && (k == APPEND ==> s[j + 1] == '>')
    requires IsWord(s[j + |Mark(k)|])
    ensures Peek(s, j, "<>")
    ensures var t := Tok(s, j);
      t.next == j + |Mark(k)| && Kind(ModeOf(t.kind), FdOf(t.kind)) == k
  {
  }

  lemma {:induction false} LineAt(s: string, i: nat, t: Tree)
    requires Line(s) && Has(s, i, Show(t)) && Closes(s, i + |Show(t)|) && ValidTree(t)
    ensures Parses(s, i, t)
    decreases t
  {
    hide Has, Closes, Parses;
    match t {
      case TExec(args) => ExecLine(s, i, args);
      case TRedir(c, f, k) =>
        assert Show(t) == "(" + Show(c) + ")" + (Mark(k) + f);
        Opening(s, i, c, Mark(k) + f);
        LineAt(s, i + 1, c);
        RedirLine(s, i, c, f, k);
      case TPipe(l, r) =>
        assert Show(t) == "(" + Show(l) + ")" + ("|" + "(" + Show(r) + ")");
        TwoBlocks(s, i, l, "|", r);
        LineAt(s, i + 1, l);
        LineAt(s, i + |Show(l)| + 4, r);
        PipeLine(s, i, l, r);
      case TList(l, r) =>
        assert Show(t) == "(" + Show(l) + ")" + (";" + "(" + Show(r) + ")");
        TwoBlocks(s, i, l, ";", r);
        LineAt(s, i + 1, l);
        LineAt(s, i + |Show(l)| + 4, r);
        ListLine(s, i, l, r);
      case TBack(c) =>
        assert Show(t) == "(" + Show(c) + ")" + "&";
        Opening(s, i, c, "&");
        LineAt(s, i + 1, c);
        BackLine(s, i, c);
    }
  }

  lemma ExecLine(s: string, i: nat, args: seq<string>)
    requires Line(s) && Has(s, i, Join(args)) && Closes(s, i + |Join(args)|) && ValidTree(TExec(args))
    ensures Parses(s, i, TExec(args))
  {
    hide Has, Closes, PExec, PLine, PPipe;
    ExecAt(s, i, args);
    SimpleLine(s, i, PExec(s, i).cmd, i + |Join(args)|);
  }

  lemma TwoBlocks(s: string, i: nat, l: Tree, op: string, r: Tree)
    requires Line(s) && ValidTree(l) && ValidTree(r) && |op| == 1
    requires Has(s, i, "(" + Show(l) + ")" + (op + "(" + Show(r) + ")"))
    ensures Has(s, i, "(" + Show(l) + ")") && Has(s, i + 1, Show(l)) && Closes(s, i + 1 + |Show(l)|)
    ensures var j := i + |Show(l)| + 2;
      Has(s, j, op) && Has(s, j + 1, "(" + Show(r) + ")") && Has(s, j + 2, Show(r)) && Closes(s, j + 2 + |Show(r)|)
  {
    hide Has, Closes, ValidTree, Show;
    Opening(s, i, l, op + "(" + Show(r) + ")");
    SecondBlock(s, i + |Show(l)| + 2, op, r);
  }

  /** A block and what follows it. */
  lemma Opening(s: string, i: nat, c: Tree, rest: string)
    requires Line(s) && ValidTree(c)
    requires Has(s, i, "(" + Show(c) + ")" + rest)
    ensures Has(s, i, "(" + Show(c) + ")") && Has(s, i + |Show(c)| + 2, rest)
    ensures Has(s, i + 1, Show(c)) && Closes(s, i + 1 + |Show(c)|)
  {
    hide Show, ValidTree;
    HasSplit(s, i, "(" + Show(c) + ")", rest);
    HasSplit(s, i, "(" + Show(c), ")");
    HasSplit(s, i, "(", Show(c));
    HasChar(s, i + 1 + |Show(c)|, ")", 0);
  }

  /** The second block after an operator. */
  lemma SecondBlock(s: string, j: nat, op: string, r: Tree)
    requires Line(s) && ValidTree(r) && |op| == 1 && Has(s, j, op + "(" + Show(r) + ")")
    ensures Has(s, j, op) && Has(s, j + 1, "(" + Show(r) + ")") && Has(s, j + 2, Show(r))
    ensures Closes(s, j + 2 + |Show(r)|)
  {
    hide Show, ValidTree;
    assert op + "(" + Show(r) + ")" == op + ("(" + Show(r) + ")");
    HasSplit(s, j, op, "(" + Show(r) + ")");
    HasSplit(s, j + 1, "(" + Show(r), ")");
    HasSplit(s, j + 1, "(", Show(r));
    HasChar(s, j + 2 + |Show(r)|, ")", 0);
  }

  lemma RedirLine(s: string, i: nat, c: Tree, f: string, k: Kind)
    requires k == IN || k == OUT || k == APPEND
    requires Line(s) && Has(s, i, "(" + Show(c) + ")") && Has(s, i + |Show(c)| + 2, Mark(k) + f)
    requires Closes(s, i + |Show(c)| + 2 + |Mark(k) + f|) && ValidTree(c) && Word(f)
    requires Has(s, i + 1, Show(c)) && Closes(s, i + 1 + |Show(c)|) && Parses(s, i + 1, c)
    ensures Parses(s, i, TRedir(c, f, k))
  {
    hide PExec, PRedirs, PLine, Word, ValidTree, Has, Closes, Mark;
    var j := i + |Show(c)| + 2;
    ShowStart(s, i + 1, c);
    RedirAt(s, j, k, f);
    BlockAt(s, i, c);
    var r := PRedirs(s, j);
    assert r.list == [r.list[0]];
    SimpleLine(s, i, Wrap(PLine(s, i + 1).cmd, r.list), r.p);
  }

  /** A block alone, before an operator or at the end. */
  lemma PlainBlock(s: string, i: nat, c: Tree)
    requires Line(s) && Has(s, i, "(" + Show(c) + ")") && ValidTree(c)
    requires Ends(s, i + |Show(c)| + 2)
    requires (i + |Show(c)| + 2 < |s| ==> s[i + |Show(c)| + 2] != '<' && s[i + |Show(c)| + 2] != '>')
    requires Has(s, i + 1, Show(c)) && Closes(s, i + 1 + |Show(c)|) && Parses(s, i + 1, c)
    ensures var r := PExec(s, i);
      r.Parsed? && r.p == i + |Show(c)| + 2 && Read(s, r.cmd) == c
    ensures Skip(s, i) == i
  {
    hide PExec, PRedirs, PLine, ValidTree, Has, Closes;
    ShowStart(s, i + 1, c);
    BlockAt(s, i, c);
    EndFacts(s, i + |Show(c)| + 2);
  }

  lemma CloseEnds(s: string, e: nat)
    requires Closes(s, e)
    ensures Ends(s, e) && (e < |s| ==> s[e] != '<' && s[e] != '>')
  {
  }

  lemma PipeNone(s: string, i: nat, c: Cmd, j: nat)
    requires Line(s) && i <= |s| && j <= |s| && PExec(s, i) == Parsed(c, j) && !Peek(s, j, "|") && Skip(s, j) == j
    ensures PPipe(s, i) == Parsed(c, j)
  {
    hide PExec, Skip, Tok, Peek;
  }

  lemma PipeMore(s: string, i: nat, c: Cmd, j: nat, d: Cmd, e: nat)
    requires Line(s) && i <= |s| && j <= |s| && PExec(s, i) == Parsed(c, j) && Peek(s, j, "|")
    requires PPipe(s, Tok(s, j).next) == Parsed(d, e)
    ensures PPipe(s, i) == Parsed(Pipe(c, d), e)
  {
    hide PExec, Skip, Tok, Peek;
  }

  lemma LineNone(s: string, i: nat, c: Cmd, j: nat, b: Cmd, k: nat)
    requires Line(s) && i <= |s| && j <= |s| && PPipe(s, i) == Parsed(c, j) && PBacks(s, c, j) == Parsed(b, k)
    requires !Peek(s, k, ";") && Skip(s, k) == k
    ensures PLine(s, i) == Parsed(b, k)
  {
    hide PPipe, PBacks, Skip, Tok, Peek;
  }

  lemma LineMore(s: string, i: nat, c: Cmd, j: nat, d: Cmd, e: nat)
    requires Line(s) && i <= |s| && j <= |s| && PPipe(s, i) == Parsed(c, j) && PBacks(s, c, j) == Parsed(c, j)
    requires Peek(s, j, ";") && PLine(s, Tok(s, j).next) == Parsed(d, e)
    ensures PLine(s, i) == Parsed(List(c, d), e)
  {
    hide PPipe, PBacks, Skip, Tok, Peek;
  }

  lemma NoBacks(s: string, c: Cmd, j: nat)
    requires Line(s) && j <= |s| && !Peek(s, j, "&") && Skip(s, j) == j
    ensures PBacks(s, c, j) == Parsed(c, j)
  {
    hide Skip, Tok, Peek;
  }

  lemma OneBack(s: string, c: Cmd, j: nat, e: nat)
    requires Line(s) && j <= |s| && Peek(s, j, "&") && Tok(s, j).next == e && !Peek(s, e, "&") && Skip(s, e) == e
    ensures PBacks(s, c, j) == Parsed(Back(c), e)
  {
    hide Skip, Tok, Peek;
    assert PBacks(s, Back(c), e) == Parsed(Back(c), e);
  }

  /** A block at i whose body parses as c. */
  ghost predicate Block(s: string, i: nat, c: Tree)
    requires Line(s)
  {
    && ValidTree(c) && Has(s, i, "(" + Show(c) + ")")
    && Has(s, i + 1, Show(c)) && Closes(s, i + 1 + |Show(c)|) && Parses(s, i + 1, c)
  }

  lemma BlockParses(s: string, i: nat, c: Tree)
    requires Line(s) && Block(s, i, c) && Ends(s, i + |Show(c)| + 2)
    requires i + |Show(c)| + 2 < |s| ==> s[i + |Show(c)| + 2] != '<' && s[i + |Show(c)| + 2] != '>'
    ensures var r := PExec(s, i);
      r.Parsed? && r.p == i + |Show(c)| + 2 && Read(s, r.cmd) == c
    ensures i < |s| && Skip(s, i) == i
  {
    hide PExec, Skip, Parses, Closes;
    PlainBlock(s, i, c);
  }

  /** A parsed line, read as a tree. */
  lemma ParsesAs(s: string, i: nat, t: Tree, c: Cmd, e: nat)
    requires Line(s) && i <= |s| && PLine(s, i) == Parsed(c, e) && Read(s, c) == t && e == i + |Show(t)|
    ensures Parses(s, i, t)
  {
  }

  lemma ReadPair(s: string, l: Cmd, r: Cmd)
    ensures Read(s, Pipe(l, r)) == TPipe(Read(s, l), Read(s, r)) && Read(s, List(l, r)) == TList(Read(s, l), Read(s, r))
    ensures Read(s, Back(l)) == TBack(Read(s, l))
  {
  }

  lemma ShowLength(l: Tree, r: Tree)
    ensures |Show(TPipe(l, r))| == |Show(TList(l, r))| == |Show(l)| + |Show(r)| + 5
    ensures |Show(TBack(l))| == |Show(l)| + 3
  {
  }

  lemma PipeLine(s: string, i: nat, l: Tree, r: Tree)
    requires Line(s) && Block(s, i, l)
    requires var j := i + |Show(l)| + 2; Has(s, j, "|") && Block(s, j + 1, r) && Closes(s, j + 3 + |Show(r)|)
    ensures Parses(s, i, TPipe(l, r))
  {
    hide PExec, PPipe, PLine, Skip, Tok, Peek, Has, Closes, Block, Show, Read, Parses;
    var j := i + |Show(l)| + 2;
    var e := j + 3 + |Show(r)|;
    SymbolAt(s, j, '|');
    BlockParses(s, i, l);
    CloseEnds(s, e);
    BlockParses(s, j + 1, r);
    SimpleLine(s, j + 1, PExec(s, j + 1).cmd, e);
    var c := Pipe(PExec(s, i).cmd, PExec(s, j + 1).cmd);
    PipeMore(s, i, PExec(s, i).cmd, j, PExec(s, j + 1).cmd, e);
    CloseFacts(s, e);
    NoBacks(s, c, e);
    LineNone(s, i, c, e, c, e);
    ReadPair(s, PExec(s, i).cmd, PExec(s, j + 1).cmd);
    ShowLength(l, r);
    ParsesAs(s, i, TPipe(l, r), c, e);
  }

  lemma ListLine(s: string, i: nat, l: Tree, r: Tree)
    requires Line(s) && Block(s, i, l)
    requires var j := i + |Show(l)| + 2; Has(s, j, ";") && Block(s, j + 1, r) && Closes(s, j + 3 + |Show(r)|)
    ensures Parses(s, i, TList(l, r))
  {
    hide PExec, PPipe, PLine, Skip, Tok, Peek, Has, Closes, Block, Show, Read, Parses;
    var j := i + |Show(l)| + 2;
    var e := j + 3 + |Show(r)|;
    SymbolAt(s, j, ';');
    BlockParses(s, i, l);
    CloseEnds(s, e);
    BlockParses(s, j + 1, r);
    SimpleLine(s, j + 1, PExec(s, j + 1).cmd, e);
    var c := PExec(s, i).cmd;
    PipeNone(s, i, c, j);
    NoBacks(s, c, j);
    LineMore(s, i, c, j, PExec(s, j + 1).cmd, e);
    ReadPair(s, c, PExec(s, j + 1).cmd);
    ShowLength(l, r);
    ParsesAs(s, i, TList(l, r), List(c, PExec(s, j + 1).cmd), e);
  }

  lemma BackLine(s: string, i: nat, c: Tree)
    requires Line(s) && Block(s, i, c) && Has(s, i + |Show(c)| + 2, "&") && Closes(s, i + |Show(c)| + 3)
    ensures Parses(s, i, TBack(c))
  {
    hide PExec, PPipe, PLine, PBacks, Skip, Tok, Peek, Has, Closes, Block, Show, Read, Parses;
    var j := i + |Show(c)| + 2;
    SymbolAt(s, j, '&');
    BlockParses(s, i, c);
    CloseFacts(s, j + 1);
    var d := PExec(s, i).cmd;
    PipeNone(s, i, d, j);
    OneBack(s, d, j, j + 1);
    LineNone(s, i, d, j, Back(d), j + 1);
    ReadPair(s, d, d);
    ShowLength(c, c);
    ParsesAs(s, i, TBack(c), Back(d), j + 1);
  }

  // ---------------------------------------------------------------- the round trip

  lemma {:induction false} ShowIsLine(t: Tree)
    requires ValidTree(t)
    ensures Line(Show(t))
  {
    match t {
      case TExec(args) => JoinIsLine(args);
      case TRedir(c, _, _) => ShowIsLine(c);
      case TPipe(l, r) => ShowIsLine(l); ShowIsLine(r);
      case TList(l, r) => ShowIsLine(l); ShowIsLine(r);
      case TBack(c) => ShowIsLine(c);
    }
  }

  lemma {:induction false} JoinIsLine(args: seq<string>)
    requires forall i | 0 <= i < |args| :: Word(args[i])
    ensures Line(Join(args))
  {
    if |args| > 1 {
      JoinIsLine(args[1..]);
    }
  }

  /** Parsing what is printed for a tree gives that tree back, for every tree. */
  lemma PrintParse(t: Tree)
    requires ValidTree(t)
    ensures Line(Show(t))
    ensures var r := PCmd(Show(t));
      r.Parsed? && Read(Show(t), r.cmd) == t
  {
    hide PLine, Skip, Show, ValidTree;
    ShowIsLine(t);
    LineAt(Show(t), 0, t);
    CloseFacts(Show(t), |Show(t)|);
  }
}
