/** The pattern matcher and the line reader of user/grep.c. */
module Grep {
  // ---------------------------------------------------------------- what patterns mean

  /** A pattern after an optional leading `^`. */
  datatype Pattern = Empty | End | One(c: char, rest: Pattern) | Star(c: char, rest: Pattern)

  function Compile(re: string): Pattern {
    if re == "" then Empty
    else if |re| > 1 && re[1] == '*' then Star(re[0], Compile(re[2..]))
    else if re == "$" then End
    else One(re[0], Compile(re[1..]))
  }

  predicate Fits(c: char, x: char) {
    c == '.' || c == x
  }

  /** The string w, which ends the text iff `last`, is in the language of the pattern. */
  ghost predicate Lang(p: Pattern, w: string, last: bool)
    decreases p
  {
    match p
    case Empty => w == ""
    case End => w == "" && last
    case One(c, rest) => w != "" && Fits(c, w[0]) && Lang(rest, w[1..], last)
    case Star(c, rest) =>
      exists n :: 0 <= n <= |w| && (forall k | 0 <= k < n :: Fits(c, w[k])) && Lang(rest, w[n..], last)
  }

  /** Some part of the text that starts at i is in the language. */
  ghost predicate LangFrom(p: Pattern, text: string, i: nat)
    requires i <= |text|
  {
    exists j :: i <= j <= |text| && Lang(p, text[i..j], j == |text|)
  }

  /** The text contains a match: anywhere, or at its start if the pattern says so. */
  ghost predicate Contains(re: string, text: string) {
    if re != "" && re[0] == '^' then LangFrom(Compile(re[1..]), text, 0)
    else exists i :: 0 <= i <= |text| && LangFrom(Compile(re), text, i)
  }

  // ---------------------------------------------------------------- one step of matching

  lemma FromEmpty(text: string, i: nat)
    requires i <= |text|
    ensures LangFrom(Empty, text, i)
  {
    assert Lang(Empty, text[i..i], i == |text|);
  }

  lemma FromEnd(text: string, i: nat)
    requires i <= |text|
    ensures LangFrom(End, text, i) <==> i == |text|
  {
    if i == |text| {
      assert Lang(End, text[i..i], true);
    }
  }

  lemma FromOne(c: char, rest: Pattern, text: string, i: nat)
    requires i <= |text|
    ensures LangFrom(One(c, rest), text, i) <==> i < |text| && Fits(c, text[i]) && LangFrom(rest, text, i + 1)
  {
    if LangFrom(One(c, rest), text, i) {
      var j :| i <= j <= |text| && Lang(One(c, rest), text[i..j], j == |text|);
      assert text[i..j][1..] == text[i + 1..j];
    }
    if i < |text| && Fits(c, text[i]) && LangFrom(rest, text, i + 1) {
      var j :| i + 1 <= j <= |text| && Lang(rest, text[i + 1..j], j == |text|);
      assert text[i..j][1..] == text[i + 1..j];
      assert Lang(One(c, rest), text[i..j], j == |text|);
    }
  }

  /** A star matches from i iff the rest matches after some run of fitting characters. */
  lemma FromStar(c: char, rest: Pattern, text: string, i: nat)
    requires i <= |text|
    ensures LangFrom(Star(c, rest), text, i) <==> StarFrom(c, rest, text, i, |text|)
  {
    hide Lang, RunTo;
    if LangFrom(Star(c, rest), text, i) {
      var j :| i <= j <= |text| && Lang(Star(c, rest), text[i..j], j == |text|);
      StarSplits(c, rest, text, i, j);
    }
    if StarFrom(c, rest, text, i, |text|) {
      var m :| i <= m <= |text| && RunTo(c, rest, text, i, m);
      StarJoins(c, rest, text, i, m);
    }
  }

  lemma StarSplits(c: char, rest: Pattern, text: string, i: nat, j: nat)
    requires i <= j <= |text| && Lang(Star(c, rest), text[i..j], j == |text|)
    ensures StarFrom(c, rest, text, i, |text|)
  {
    var w := text[i..j];
    var n :| 0 <= n <= |w| && (forall k | 0 <= k < n :: Fits(c, w[k])) && Lang(rest, w[n..], j == |text|);
    assert w[n..] == text[i + n..j];
    forall k | i <= k < i + n
      ensures Fits(c, text[k])
    {
      assert w[k - i] == text[k];
    }
    assert RunTo(c, rest, text, i, i + n);
  }

  lemma StarJoins(c: char, rest: Pattern, text: string, i: nat, m: nat)
    requires i <= m <= |text| && RunTo(c, rest, text, i, m)
    ensures LangFrom(Star(c, rest), text, i)
  {
    var j :| m <= j <= |text| && Lang(rest, text[m..j], j == |text|);
    var w := text[i..j];
    assert w[m - i..] == text[m..j];
    assert forall k | 0 <= k < m - i :: Fits(c, w[k]);
    assert Lang(Star(c, rest), w, j == |text|);
  }

  /** Characters i to m - 1 fit c and the rest matches from m. */
  ghost predicate RunTo(c: char, rest: Pattern, text: string, i: nat, m: nat)
    requires i <= m <= |text|
  {
    (forall k | i <= k < m :: Fits(c, text[k])) && LangFrom(rest, text, m)
  }

  ghost predicate StarFrom(c: char, rest: Pattern, text: string, i: nat, limit: nat)
    requires i <= |text| && limit <= |text|
  {
    exists m :: i <= m <= limit && RunTo(c, rest, text, i, m)
  }

  // ---------------------------------------------------------------- the matcher

  /** matchhere: the pattern from r on matches the text from i on. */
  method MatchHere(re: string, r: nat, text: string, i: nat) returns (found: bool)
    requires r <= |re| && i <= |text|
    ensures found <==> LangFrom(Compile(re[r..]), text, i)
    decreases |re| - r, |text| - i, 1
  {
    hide LangFrom, Lang;
    if r == |re| {
      FromEmpty(text, i);
      return true;
    }
    if r + 1 < |re| && re[r + 1] == '*' {
      assert re[r..][2..] == re[r + 2..];
      found := MatchStar(re[r], re, r + 2, text, i);
      FromStar(re[r], Compile(re[r + 2..]), text, i);
      return;
    }
    if re[r] == '$' && r + 1 == |re| {
      assert re[r..] == "$";
      FromEnd(text, i);
      return i == |text|;
    }
    assert re[r..] != "$" && re[r..][1..] == re[r + 1..];
    FromOne(re[r], Compile(re[r + 1..]), text, i);
    if i < |text| && (re[r] == '.' || re[r] == text[i]) {
      found := MatchHere(re, r + 1, text, i + 1);
      return;
    }
    return false;
  }

  /** matchstar: any number of c, then the pattern from r on. */
  method MatchStar(c: char, re: string, r: nat, text: string, i: nat) returns (found: bool)
    requires r <= |re| && i <= |text|
    ensures found <==> StarFrom(c, Compile(re[r..]), text, i, |text|)
    decreases |re| - r, |text| - i, 2
  {
    hide LangFrom, Lang, Compile;
    var m := i;
    while true
      invariant i <= m <= |text|
      invariant forall k | i <= k < m :: Fits(c, text[k])
      invariant forall k | i <= k < m :: !LangFrom(Compile(re[r..]), text, k)
      decreases |text| - m
    {
      found := MatchHere(re, r, text, m);
      if found {
        assert RunTo(c, Compile(re[r..]), text, i, m);
        return;
      }
      if m == |text| || !(text[m] == c || c == '.') {
        return false;
      }
      m := m + 1;
    }
  }

  /** match: finds a match exactly when there is one. */
  method Match(re: string, text: string) returns (found: bool)
    ensures found <==> Contains(re, text)
  {
    hide LangFrom, Lang, Compile;
    if re != "" && re[0] == '^' {
      found := MatchHere(re, 1, text, 0);
      return;
    }
    assert re[0..] == re;
    var i := 0;
    while true
      invariant 0 <= i <= |text|
      invariant forall k | 0 <= k < i :: !LangFrom(Compile(re), text, k)
      decreases |text| - i
    {
      found := MatchHere(re, 0, text, i);
      if found {
        return;
      }
      if i == |text| {
        return false;
      }
      i := i + 1;
    }
  }
}
