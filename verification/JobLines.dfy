/** SR/Projet/shell.c, lines 138-152: the job string, and its reading back by readcmd. */
module JobLines {
  import opened Decoupes
  import opened Lexer
  import opened Options
  import opened ReadCmds

  function Spaced(cmd: Commande): string {
    if cmd == [] then [] else Spaced(cmd[..|cmd| - 1]) + cmd[|cmd| - 1] + " "
  }

  /** Commands separated by " | ", every word followed by a blank. */
  function JobLine(s: seq<Commande>): string {
    if s == [] then []
    else JobLine(s[..|s| - 1]) + (if |s| > 1 then " | " else "") + Spaced(s[|s| - 1])
  }

  /** The strcat calls, on a buffer that starts empty and never fills. */
  method BuildJob(s: seq<Commande>) returns (cmd: string)
    ensures cmd == JobLine(s)
  {
    cmd := "";
    assert s[..0] == [];
    for i := 0 to |s|
      invariant cmd == JobLine(s[..i])
    {
      if i != 0 {
        cmd := cmd + " | ";
      }
      ghost var base := cmd;
      assert base + Spaced(s[i][..0]) == base;
      for j := 0 to |s[i]|
        invariant cmd == base + Spaced(s[i][..j])
      {
        assert s[i][..j + 1][..j] == s[i][..j];
        cmd := cmd + s[i][j];
        cmd := cmd + " ";
      }
      assert s[i][..|s[i]|] == s[i];
      assert s[..i + 1][..i] == s[..i];
    }
    assert s[..|s|] == s;
  }

  // ---- the text of a job string ----

  /** What stands between the blanks of a job string: behind each command an empty piece, and a pipe before the next. */
  function Morceaux(s: seq<Commande>): seq<string> {
    if s == [] then [""]
    else if |s| == 1 then s[0] + [""]
    else Morceaux(s[..|s| - 1]) + (["|"] + s[|s| - 1] + [""])
  }

  lemma {:induction false} SpacedIsJoin(cmd: Commande)
    ensures Spaced(cmd) == Join(cmd + [""], ' ')
    decreases |cmd|
  {
    if cmd == [] {
      assert cmd + [""] == [""];
    } else {
      var init, w := cmd[..|cmd| - 1], cmd[|cmd| - 1];
      SpacedIsJoin(init);
      JoinEnd(init, w, ' ');
      assert cmd + [""] == init + [w, ""];
      assert Spaced(init) + (w + " ") == Spaced(init) + w + " ";
    }
  }

  /** One blank behind every word, and a pipe between two blanks from one command to the next. */
  lemma {:induction false} JobLineIsJoin(s: seq<Commande>)
    ensures Morceaux(s) != [] && JobLine(s) == Join(Morceaux(s), ' ')
    decreases |s|
  {
    if s != [] {
      var init, cmd := s[..|s| - 1], s[|s| - 1];
      JobLineIsJoin(init);
      SpacedIsJoin(cmd);
      if |s| == 1 {
        assert init == [] && JobLine(init) + "" == [];
      } else {
        JoinFirst("|", cmd, ' ');
        JoinConcat(Morceaux(init), ["|"] + cmd + [""], ' ');
        Pipe(JobLine(init), Spaced(cmd));
      }
    }
  }

  lemma Pipe(a: string, b: string)
    ensures a + [' '] + ("|" + [' '] + b) == a + " | " + b
  {
  }

  function Lettres(cmd: Commande): nat {
    if cmd == [] then 0 else Lettres(cmd[..|cmd| - 1]) + |cmd[|cmd| - 1]| + 1
  }

  function ToutesLettres(s: seq<Commande>): nat {
    if s == [] then 0 else ToutesLettres(s[..|s| - 1]) + Lettres(s[|s| - 1])
  }

  lemma {:induction false} SpacedLength(cmd: Commande)
    ensures |Spaced(cmd)| == Lettres(cmd)
    decreases |cmd|
  {
    if cmd != [] { SpacedLength(cmd[..|cmd| - 1]); }
  }

  /** A word takes one character more than its letters, and each further command three more. */
  lemma {:induction false} JobLineLength(s: seq<Commande>)
    ensures |JobLine(s)| == ToutesLettres(s) + if s == [] then 0 else 3 * (|s| - 1)
    decreases |s|
  {
    if s != [] {
      JobLineLength(s[..|s| - 1]);
      SpacedLength(s[|s| - 1]);
    }
  }

  // ---- the words of a job string ----

  predicate PlainWords(cmd: Commande) {
    forall k :: 0 <= k < |cmd| ==> PlainWord(cmd[k])
  }

  predicate PlainCommands(s: seq<Commande>) {
    forall k :: 0 <= k < |s| ==> s[k] != [] && PlainWords(s[k])
  }

  /** The commands' words with a pipe between one command and the next. */
  function Piped(s: seq<Commande>): seq<string> {
    if s == [] then []
    else Piped(s[..|s| - 1]) + (if |s| > 1 then ["|"] else []) + s[|s| - 1]
  }

  lemma Regroup<T>(a: seq<T>, b: seq<T>, c: seq<T>, d: seq<T>)
    ensures a + b + c + d == a + (b + (c + d))
  {
  }

  lemma {:induction false} LexSpaced(cmd: Commande, rest: string)
    requires PlainWords(cmd)
    ensures Lex(Spaced(cmd) + rest) == cmd + Lex(rest)
    decreases |cmd|
  {
    if cmd == [] {
      assert Spaced(cmd) + rest == rest;
    } else {
      var init, w := cmd[..|cmd| - 1], cmd[|cmd| - 1];
      Regroup(Spaced(init), w, " ", rest);
      assert w + (" " + rest) == w + " " + rest;
      LexSpaced(init, w + " " + rest);
      LexWord(w, rest);
      assert init + ([w] + Lex(rest)) == cmd + Lex(rest);
    }
  }

  lemma {:induction false} LexJob(s: seq<Commande>, rest: string)
    requires PlainCommands(s)
    ensures Lex(JobLine(s) + rest) == Piped(s) + Lex(rest)
    decreases |s|
  {
    if s == [] {
      assert JobLine(s) + rest == rest;
    } else {
      var init, cmd := s[..|s| - 1], s[|s| - 1];
      var sep, pipe := if |s| > 1 then " | " else "", if |s| > 1 then ["|"] else [];
      Regroup(JobLine(init), sep, Spaced(cmd), rest);
      LexJob(init, sep + (Spaced(cmd) + rest));
      LexSeparator(|s| > 1, Spaced(cmd) + rest);
      LexSpaced(cmd, rest);
      Regroup(Piped(init), pipe, cmd, Lex(rest));
    }
  }

  lemma LexSeparator(b: bool, rest: string)
    ensures Lex((if b then " | " else "") + rest) == (if b then ["|"] else []) + Lex(rest)
  {
    if b { LexPipe(rest); } else { assert "" + rest == rest; }
  }

  // ---- parsing them ----

  lemma {:induction false} SuiteArgs(e: Etat, args: seq<string>, rest: seq<string>)
    requires PlainWords(args)
    ensures Suite(e, args + rest) == Suite(e.(cmd := e.cmd + args), rest)
    decreases |args|
  {
    if args == [] {
      assert args + rest == rest && e.cmd + args == e.cmd;
    } else {
      assert (args + rest)[1..] == args[1..] + rest;
      SuiteArgs(e.(cmd := e.cmd + [args[0]]), args[1..], rest);
      assert e.cmd + [args[0]] + args[1..] == e.cmd + args;
    }
  }

  lemma SuiteOnePipe(done: seq<Commande>, cmd: Commande, next: Commande, rest: seq<string>)
    requires cmd != [] && PlainWords(next)
    ensures Suite(DEBUT.(seq_ := done, cmd := cmd), ["|"] + (next + rest)) == Suite(DEBUT.(seq_ := done + [cmd], cmd := next), rest)
  {
    assert (["|"] + (next + rest))[1..] == next + rest;
    SuiteArgs(DEBUT.(seq_ := done + [cmd]), next, rest);
    assert [] + next == next;
  }

  /** Just after the words of s, the last command is still open. */
  lemma {:induction false} SuitePiped(s: seq<Commande>, rest: seq<string>)
    requires PlainCommands(s) && s != []
    ensures Suite(DEBUT, Piped(s) + rest) == Suite(DEBUT.(seq_ := s[..|s| - 1], cmd := s[|s| - 1]), rest)
    decreases |s|
  {
    var init, cmd := s[..|s| - 1], s[|s| - 1];
    if |s| == 1 {
      assert Piped(s) == cmd;
      SuiteArgs(DEBUT, cmd, rest);
      assert [] + cmd == cmd && init == [];
    } else {
      Regroup(Piped(init), ["|"], cmd, rest);
      SuitePiped(init, ["|"] + (cmd + rest));
      SuiteOnePipe(init[..|init| - 1], init[|init| - 1], cmd, rest);
      assert init[..|init| - 1] + [init[|init| - 1]] == init;
    }
  }

  /** Printing then parsing is the identity on commands of plain words. */
  lemma JobReadsBack(s: seq<Commande>)
    requires PlainCommands(s)
    ensures Parse(Lex(JobLine(s))) == Fin(Etat(None, None, s, [], false))
  {
    LexJob(s, []);
    assert JobLine(s) + [] == JobLine(s) && Piped(s) + Lex([]) == Piped(s);
    if s == [] {
      assert Piped(s) == [];
    } else {
      SuitePiped(s, []);
      assert Piped(s) + [] == Piped(s);
      assert s[..|s| - 1] + [s[|s| - 1]] == s;
    }
  }

  // ---- what a read line gathers ----

  predicate LexerWords(words: seq<string>) {
    forall k :: 0 <= k < |words| ==> OperatorWord(words[k]) || PlainWord(words[k])
  }

  lemma {:induction false} SuiteGathers(e: Etat, words: seq<string>)
    requires LexerWords(words) && PlainCommands(e.seq_) && PlainWords(e.cmd) && Suite(e, words).Fin?
    ensures PlainCommands(Suite(e, words).e.seq_)
    decreases |words|
  {
    if words != [] {
      var w := words[0];
      assert OperatorWord(w) || PlainWord(w);
      if Tete(w) == '<' {
        SuiteGathers(e.(entree := Some(words[1])), words[2..]);
      } else if Tete(w) == '>' {
        SuiteGathers(e.(sortie := Some(words[1])), words[2..]);
      } else if Tete(w) == '|' {
        SuiteGathers(e.(seq_ := e.seq_ + [e.cmd], cmd := []), words[1..]);
      } else if Tete(w) == '&' {
        SuiteGathers(e.(background := true), words[1..]);
      } else {
        SuiteGathers(e.(cmd := e.cmd + [w]), words[1..]);
      }
    }
  }

  /**
    * Whatever line readcmd accepts, the job string built from its commands is read back
    * as the same commands, without redirections or background flag.
    */
  lemma JobRoundTrip(line: string)
    requires Parse(Lex(line)).Fin?
    ensures Parse(Lex(JobLine(Parse(Lex(line)).e.seq_))) == Fin(Etat(None, None, Parse(Lex(line)).e.seq_, [], false))
  {
    LexShapes(line);
    SuiteGathers(DEBUT, Lex(line));
    JobReadsBack(Parse(Lex(line)).e.seq_);
  }
}
