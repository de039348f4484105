/** SR/Projet/readcmd.c, split_in_words: a command line cut into words. */
module Lexer {

  /** The characters of a C string, before its terminating zero. */
  predicate CString(s: string) { '\0' !in s }

  predicate Blank(c: char) { c == ' ' || c == '\t' }

  predicate Operator(c: char) { c == '<' || c == '>' || c == '|' || c == '&' }

  /** What ends a word; & is not in the list, so it may stand inside a word but not begin one. */
  predicate Stop(c: char) { Blank(c) || c == '<' || c == '>' || c == '|' }

  predicate PlainWord(w: string) {
    && w != [] && !Blank(w[0]) && !Operator(w[0])
    && forall k :: 0 <= k < |w| ==> !Stop(w[k])
  }

  predicate OperatorWord(w: string) {
    |w| == 1 && Operator(w[0])
  }

  /** The end of the word that starts before i. */
  function WordEnd(s: string, i: nat): (e: nat)
    requires i <= |s|
    ensures i <= e <= |s|
    ensures forall k :: i <= k < e ==> !Stop(s[k])
    ensures e < |s| ==> Stop(s[e])
    decreases |s| - i
  {
    if i == |s| || Stop(s[i]) then i else WordEnd(s, i + 1)
  }

  function Lex(s: string): seq<string>
    decreases |s|
  {
    if s == [] then []
    else if Blank(s[0]) then Lex(s[1..])
    else if Operator(s[0]) then [[s[0]]] + Lex(s[1..])
    else [s[..WordEnd(s, 1)]] + Lex(s[WordEnd(s, 1)..])
  }

  lemma Shift(before: seq<string>, w: string, after: seq<string>)
    ensures before + ([w] + after) == before + [w] + after
  {
  }

  method SplitInWords(line: string) returns (tab: seq<string>)
    requires CString(line)
    ensures tab == Lex(line)
  {
    var cur := 0;
    tab := [];
    while cur < |line|
      invariant cur <= |line| && tab + Lex(line[cur..]) == Lex(line)
    {
      ghost var rest, before := line[cur..], tab;
      var c := line[cur];
      if Blank(c) {
        assert rest[1..] == line[cur + 1..];
        cur := cur + 1;
      } else if Operator(c) {
        assert rest[1..] == line[cur + 1..];
        cur := cur + 1;
        tab := tab + [[c]];
        Shift(before, [c], Lex(line[cur..]));
      } else {
        var start := cur;
        cur := cur + 1;
        while cur < |line| && !Stop(line[cur])
          invariant start < cur <= |line|
          invariant WordEnd(rest, 1) == WordEnd(rest, cur - start)
        {
          cur := cur + 1;
        }
        assert rest[..cur - start] == line[start..cur] && rest[cur - start..] == line[cur..];
        tab := tab + [line[start..cur]];
        Shift(before, line[start..cur], Lex(line[cur..]));
      }
    }
  }

  // ---- what the words are ----

  function Concat(words: seq<string>): string {
    if words == [] then [] else words[0] + Concat(words[1..])
  }

  function NonBlanks(s: string): string {
    if s == [] then [] else (if Blank(s[0]) then [] else [s[0]]) + NonBlanks(s[1..])
  }

  lemma {:induction false} NonBlanksSplit(a: string, b: string)
    requires forall k :: 0 <= k < |a| ==> !Blank(a[k])
    ensures NonBlanks(a + b) == a + NonBlanks(b)
  {
    if a == [] {
      assert a + b == b;
    } else {
      assert (a + b)[1..] == a[1..] + b;
      NonBlanksSplit(a[1..], b);
    }
  }

  /** The words hold every non-blank character of the line, in order, and nothing else. */
  lemma {:induction false} LexConserves(s: string)
    ensures Concat(Lex(s)) == NonBlanks(s)
    decreases |s|
  {
    if s == [] {
    } else if Blank(s[0]) || Operator(s[0]) {
      LexConserves(s[1..]);
    } else {
      var e := WordEnd(s, 1);
      LexConserves(s[e..]);
      assert s == s[..e] + s[e..];
      NonBlanksSplit(s[..e], s[e..]);
    }
  }

  /** Each word is one operator, or a run without stops that does not start with one. */
  lemma {:induction false} LexShapes(s: string)
    ensures forall k :: 0 <= k < |Lex(s)| ==> OperatorWord(Lex(s)[k]) || PlainWord(Lex(s)[k])
    decreases |s|
  {
    if s == [] {
    } else if Blank(s[0]) || Operator(s[0]) {
      LexShapes(s[1..]);
    } else {
      LexShapes(s[WordEnd(s, 1)..]);
    }
  }

  // ---- where the words are ----

  /** The line made of these words between these gaps. */
  function Line(gaps: seq<string>, words: seq<string>): string {
    if gaps == [] then []
    else if words == [] then gaps[0]
    else gaps[0] + (words[0] + Line(gaps[1..], words[1..]))
  }

  predicate AllBlank(s: string) {
    forall k :: 0 <= k < |s| ==> Blank(s[k])
  }

  /** Where a word that is not an operator may end. */
  predicate Boundary(rest: string) {
    rest == [] || Stop(rest[0])
  }

  /** Blank gaps, words of the two shapes, and no word that could have been longer. */
  ghost predicate Cuts(gaps: seq<string>, words: seq<string>) {
    && |gaps| == |words| + 1
    && AllBlank(gaps[0])
    && (words != [] ==>
          && (OperatorWord(words[0]) || (PlainWord(words[0]) && Boundary(Line(gaps[1..], words[1..]))))
          && Cuts(gaps[1..], words[1..]))
  }

  ghost predicate CutInto(s: string, words: seq<string>) {
    exists gaps :: Cuts(gaps, words) && Line(gaps, words) == s
  }

  lemma WordEndIs(s: string, i: nat, e: nat)
    requires i <= e < |s| && Stop(s[e]) && forall k :: i <= k < e ==> !Stop(s[k])
    ensures WordEnd(s, i) == e
  {
  }

  lemma {:induction false} LexBlanks(b: string, rest: string)
    requires AllBlank(b)
    ensures Lex(b + rest) == Lex(rest)
  {
    if b == [] {
      assert b + rest == rest;
    } else {
      assert (b + rest)[1..] == b[1..] + rest;
      LexBlanks(b[1..], rest);
    }
  }

  lemma LexRun(w: string, rest: string)
    requires PlainWord(w) && Boundary(rest)
    ensures Lex(w + rest) == [w] + Lex(rest)
  {
    var s := w + rest;
    assert s[..|w|] == w && s[|w|..] == rest;
    if rest != [] { WordEndIs(s, 1, |w|); }
  }

  lemma LexOperator(w: string, rest: string)
    requires OperatorWord(w)
    ensures Lex(w + rest) == [w] + Lex(rest)
  {
    assert (w + rest)[1..] == rest && w == [w[0]];
  }

  lemma {:induction false} CutIsLex(gaps: seq<string>, words: seq<string>)
    requires Cuts(gaps, words)
    ensures Lex(Line(gaps, words)) == words
    decreases |words|
  {
    if words == [] {
      assert gaps[0] + [] == gaps[0];
      LexBlanks(gaps[0], []);
    } else {
      var rest := Line(gaps[1..], words[1..]);
      CutIsLex(gaps[1..], words[1..]);
      LexBlanks(gaps[0], words[0] + rest);
      if OperatorWord(words[0]) { LexOperator(words[0], rest); } else { LexRun(words[0], rest); }
      assert words == [words[0]] + words[1..];
    }
  }

  /** One more blank in front of the first gap. */
  lemma CutBlank(s: string, gaps: seq<string>, words: seq<string>) returns (more: seq<string>)
    requires s != [] && Blank(s[0]) && Cuts(gaps, words) && Line(gaps, words) == s[1..]
    ensures Cuts(more, words) && Line(more, words) == s
  {
    more := [[s[0]] + gaps[0]] + gaps[1..];
    assert more[1..] == gaps[1..];
    assert [s[0]] + s[1..] == s;
    if words != [] {
      assert [s[0]] + gaps[0] + (words[0] + Line(gaps[1..], words[1..])) == [s[0]] + Line(gaps, words);
    }
  }

  /** One more word, of e characters, in front of the others. */
  lemma CutWord(s: string, e: nat, gaps: seq<string>, words: seq<string>)
    requires 0 < e <= |s| && Cuts(gaps, words) && Line(gaps, words) == s[e..]
    requires OperatorWord(s[..e]) || (PlainWord(s[..e]) && Boundary(s[e..]))
    ensures Cuts([[]] + gaps, [s[..e]] + words) && Line([[]] + gaps, [s[..e]] + words) == s
  {
    assert ([[]] + gaps)[1..] == gaps && ([s[..e]] + words)[1..] == words;
    assert [] + (s[..e] + s[e..]) == s;
  }

  lemma FirstWord(s: string) returns (e: nat)
    requires s != [] && !Blank(s[0])
    ensures 0 < e <= |s| && Lex(s) == [s[..e]] + Lex(s[e..])
    ensures OperatorWord(s[..e]) || (PlainWord(s[..e]) && Boundary(s[e..]))
  {
    e := if Operator(s[0]) then 1 else WordEnd(s, 1);
    assert Operator(s[0]) ==> s[..1] == [s[0]];
  }

  lemma {:induction false} LexCuts(s: string) returns (gaps: seq<string>)
    ensures Cuts(gaps, Lex(s)) && Line(gaps, Lex(s)) == s
    decreases |s|
  {
    if s == [] {
      gaps := [[]];
    } else if Blank(s[0]) {
      var rest := LexCuts(s[1..]);
      gaps := CutBlank(s, rest, Lex(s[1..]));
    } else {
      var e := FirstWord(s);
      var rest := LexCuts(s[e..]);
      CutWord(s, e, rest, Lex(s[e..]));
      gaps := [[]] + rest;
    }
  }

  /** The words are the only way to cut the line: blanks alone in the gaps, and every word as long as it can be. */
  lemma LexIff(s: string, words: seq<string>)
    ensures words == Lex(s) <==> CutInto(s, words)
  {
    if words == Lex(s) { var gaps := LexCuts(s); }
    if gaps :| Cuts(gaps, words) && Line(gaps, words) == s { CutIsLex(gaps, words); }
  }

  /** The characters the grammar names; & ends no word. */
  lemma Characters(c: char)
    ensures Blank(c) <==> c in {' ', '\t'}
    ensures Operator(c) <==> c in {'<', '>', '|', '&'}
    ensures Stop(c) <==> c in {' ', '\t', '<', '>', '|'}
  {
  }

  // ---- lexing printed words ----

  lemma LexWord(w: string, rest: string)
    requires PlainWord(w)
    ensures Lex(w + " " + rest) == [w] + Lex(rest)
  {
    LexRun(w, " " + rest);
    assert w + " " + rest == w + (" " + rest);
    LexBlanks(" ", rest);
  }

  lemma LexPipe(rest: string)
    ensures Lex(" | " + rest) == ["|"] + Lex(rest)
  {
    assert " | " + rest == " " + ("|" + (" " + rest));
    LexBlanks(" ", "|" + (" " + rest));
    LexOperator("|", " " + rest);
    LexBlanks(" ", rest);
  }
}
