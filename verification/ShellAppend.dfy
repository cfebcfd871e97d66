/** sh.c scans >> as a token of its own and then does with it what it does with >. */
module ShellAppend {
  import opened ShellModel

  /** A >> at k that does not itself follow a >: the scanner meets it as one token, or not at all. */
  predicate Doubled(s: string, k: nat) {
    k + 1 < |s| && s[k] == '>' && s[k + 1] == '>' && (k > 0 ==> s[k - 1] != '>')
  }

  /** The text with that >> made a > and a blank. */
  function Single(s: string, k: nat): (r: string)
    requires Doubled(s, k)
    ensures |r| == |s| && r[k + 1] == ' ' && forall j :: 0 <= j < |s| && j != k + 1 ==> r[j] == s[j]
  {
    s[k + 1 := ' ']
  }

  lemma {:induction false} SkipSame(s: string, k: nat, i: nat)
    requires Doubled(s, k) && i != k + 1
    ensures Skip(Single(s, k), i) == Skip(s, i) != k + 1
    decreases |s| - i
  {
    if i < |s| && Blank(s[i]) {
      SkipSame(s, k, i + 1);
    }
  }

  lemma {:induction false} WordEndSame(s: string, k: nat, i: nat)
    requires Doubled(s, k) && i != k + 1
    ensures WordEnd(Single(s, k), i) == WordEnd(s, i) != k + 1
    decreases |s| - i
  {
    if i < |s| && WordChar(s[i]) {
      WordEndSame(s, k, i + 1);
    }
  }

  /** A token of the one text is that token of the other, but for >> and >. */
  lemma TokSame(s: string, k: nat, i: nat)
    requires Doubled(s, k) && i != k + 1 && i <= |s|
    ensures var t, u := Tok(s, i), Tok(Single(s, k), i);
            t.next == u.next != k + 1 &&
            if t.kind == u.kind then t.kind == 'a' ==> t.at == u.at else t.kind == '+' && u.kind == '>'
  {
    hide Skip, WordEnd;
    SkipSame(s, k, i);
    var q := Skip(s, i);
    SkipBounds(s, i);
    if q == k {
      SkipBlank(Single(s, k), k + 1);
      SkipSame(s, k, k + 2);
    } else {
      WordEndSame(s, k, q);
      SkipSame(s, k, Tok(s, i).at.eq);
    }
  }

  lemma SkipBlank(s: string, i: nat)
    requires i < |s| && Blank(s[i])
    ensures Skip(s, i) == Skip(s, i + 1)
  {
  }

  lemma PeekSame(s: string, k: nat, i: nat, toks: string)
    requires Doubled(s, k) && i != k + 1 && i <= |s|
    ensures Peek(Single(s, k), i, toks) == Peek(s, i, toks) && Skip(Single(s, k), i) == Skip(s, i) != k + 1
  {
    SkipSame(s, k, i);
  }

  lemma {:induction false} RedirsSame(s: string, k: nat, i: nat)
    requires Doubled(s, k) && i != k + 1 && i <= |s|
    ensures Redirs(Single(s, k), i) == Redirs(s, i) && (Redirs(s, i).RdsOk? ==> Redirs(s, i).pos != k + 1)
    decreases |s| - i
  {
    hide Tok, Skip, Peek;
    PeekSame(s, k, i, "<>");
    if Peek(s, i, "<>") {
      TokAfter(s, i, "<>");
      TokAfter(Single(s, k), i, "<>");
      SkipBounds(s, i);
      TokSame(s, k, Skip(s, i));
      var f := Tok(s, Skip(s, i)).next;
      TokSame(s, k, f);
      TokBounds(s, f);
      if Tok(s, f).kind == 'a' {
        RedirsSame(s, k, Tok(s, f).next);
      }
    }
  }

  lemma {:induction false} ArgsSame(s: string, k: nat, i: nat, argc: nat)
    requires Doubled(s, k) && i != k + 1 && i <= |s|
    ensures Args(Single(s, k), i, argc) == Args(s, i, argc)
    ensures Args(s, i, argc).ArgvOk? ==> Args(s, i, argc).pos != k + 1
    decreases |s| - i
  {
    hide Tok, Skip, Peek, Redirs;
    PeekSame(s, k, i, "|)&;");
    if !Peek(s, i, "|)&;") {
      SkipBounds(s, i);
      var t := Tok(s, Skip(s, i));
      TokSame(s, k, Skip(s, i));
      TokBounds(s, Skip(s, i));
      if t.kind == 'a' && argc + 1 < MAXARGS {
        RedirsSame(s, k, t.next);
        RedirsBounds(s, t.next);
        if Redirs(s, t.next).RdsOk? {
          ArgsSame(s, k, Redirs(s, t.next).pos, argc + 1);
        }
      }
    }
  }

  lemma {:induction false} BacksSame(s: string, k: nat, cmd: Cmd, i: nat)
    requires Doubled(s, k) && i != k + 1 && i <= |s|
    ensures Backs(Single(s, k), cmd, i) == Backs(s, cmd, i) && Backs(s, cmd, i).1 != k + 1
    decreases |s| - i
  {
    hide Tok, Skip, Peek;
    PeekSame(s, k, i, "&");
    if Peek(s, i, "&") {
      SkipBounds(s, i);
      TokAfter(s, i, "&");
      TokSame(s, k, Skip(s, i));
      BacksSame(s, k, Back(cmd), Tok(s, Skip(s, i)).next);
    }
  }

  /** Parsing from i on, the one text and the other give the same. */
  ghost predicate Same(r: Result, r': Result, k: nat) {
    r == r' && (r.Ok? ==> r.pos != k + 1)
  }

  lemma {:induction false} ExecSame(s: string, k: nat, i: nat)
    requires Doubled(s, k) && i != k + 1 && i <= |s|
    ensures Same(ParseExec(s, i), ParseExec(Single(s, k), i), k)
    decreases |s| - i, 0
  {
    hide Tok, Skip, Peek, Redirs, Args, ParseLine;
    PeekSame(s, k, i, "(");
    SkipBounds(s, i);
    if Peek(s, i, "(") {
      TokAfter(s, i, "(");
      TokSame(s, k, Skip(s, i));
      var inner := Tok(s, Skip(s, i)).next;
      LineSame(s, k, inner);
      LineEnd(s, inner);
      if ParseLine(s, inner).Ok? {
        CloseSame(s, k, ParseLine(s, inner).pos);
      }
    } else {
      RedirsSame(s, k, Skip(s, i));
      RedirsBounds(s, Skip(s, i));
      if Redirs(s, Skip(s, i)).RdsOk? {
        ArgsSame(s, k, Redirs(s, Skip(s, i)).pos, 0);
      }
    }
  }

  /** The closing parenthesis and what is redirected after it. */
  lemma CloseSame(s: string, k: nat, pos: nat)
    requires Doubled(s, k) && pos != k + 1 && pos <= |s|
    ensures Peek(Single(s, k), pos, ")") == Peek(s, pos, ")")
    ensures Peek(s, pos, ")") ==>
              var end := Tok(s, Skip(s, pos)).next;
              pos < end <= |s| && Tok(Single(s, k), Skip(Single(s, k), pos)).next == end &&
              Redirs(Single(s, k), end) == Redirs(s, end) && (Redirs(s, end).RdsOk? ==> Redirs(s, end).pos != k + 1)
  {
    hide Tok, Skip, Peek, Redirs;
    PeekSame(s, k, pos, ")");
    if Peek(s, pos, ")") {
      SkipBounds(s, pos);
      TokAfter(s, pos, ")");
      TokSame(s, k, Skip(s, pos));
      RedirsSame(s, k, Tok(s, Skip(s, pos)).next);
    }
  }

  lemma {:induction false} PipeSame(s: string, k: nat, i: nat)
    requires Doubled(s, k) && i != k + 1 && i <= |s|
    ensures Same(ParsePipe(s, i), ParsePipe(Single(s, k), i), k)
    decreases |s| - i, 1
  {
    hide Tok, Skip, Peek, ParseExec;
    ExecSame(s, k, i);
    ExecEnd(s, i);
    var r := ParseExec(s, i);
    if r.Ok? {
      PeekSame(s, k, r.pos, "|");
      SkipBounds(s, r.pos);
      if Peek(s, r.pos, "|") {
        TokAfter(s, r.pos, "|");
        TokSame(s, k, Skip(s, r.pos));
        PipeSame(s, k, Tok(s, Skip(s, r.pos)).next);
      }
    }
  }

  lemma {:induction false} LineSame(s: string, k: nat, i: nat)
    requires Doubled(s, k) && i != k + 1 && i <= |s|
    ensures Same(ParseLine(s, i), ParseLine(Single(s, k), i), k)
    decreases |s| - i, 2
  {
    hide Tok, Skip, Peek, ParsePipe, Backs;
    PipeSame(s, k, i);
    PipeEnd(s, i);
    var r := ParsePipe(s, i);
    if r.Ok? {
      BacksSame(s, k, r.cmd, r.pos);
      BacksBounds(s, r.cmd, r.pos);
      var pos := Backs(s, r.cmd, r.pos).1;
      PeekSame(s, k, pos, ";");
      SkipBounds(s, pos);
      if Peek(s, pos, ";") {
        TokAfter(s, pos, ";");
        TokSame(s, k, Skip(s, pos));
        LineSame(s, k, Tok(s, Skip(s, pos)).next);
      }
    }
  }

  /** Any text with a >> parses as the text with > in its place does: to the same command, words and file names in
      the same places, or to the same panic. sh.c opens the file the same way for both. */
  lemma AppendIsTruncate(s: string, k: nat)
    requires Doubled(s, k)
    ensures ParseCmd(Single(s, k)) == ParseCmd(s)
  {
    hide ParseLine, Skip;
    LineSame(s, k, 0);
    LineEnd(s, 0);
    if ParseLine(s, 0).Ok? {
      SkipSame(s, k, ParseLine(s, 0).pos);
    }
  }

  /** A redirection is an input exactly when < begins it, wherever it stands in whatever text. */
  lemma InputIffLess(s: string, i: nat)
    requires i <= |s| && Redirs(s, i).RdsOk?
    ensures Redirs(s, i).rds != [] <==> At(s, Skip(s, i)) == '<' || At(s, Skip(s, i)) == '>'
    ensures Redirs(s, i).rds != [] ==> (Redirs(s, i).rds[0].input <==> At(s, Skip(s, i)) == '<')
  {
  }

  const EXAMPLE: string := "a>>b"

  lemma ExampleTokens()
    ensures Tok(EXAMPLE, 0) == Token('a', Span(0, 1), 1) && Tok(EXAMPLE, 1) == Token('+', Span(1, 3), 3)
    ensures Tok(EXAMPLE, 3) == Token('a', Span(3, 4), 4) && Tok(EXAMPLE, 4) == Token('\0', Span(4, 4), 4)
    ensures forall i :: 0 <= i <= 4 ==> Skip(EXAMPLE, i) == i
  {
  }

  lemma ExampleArgs()
    ensures Redirs(EXAMPLE, 0) == RdsOk([], 0)
    ensures Args(EXAMPLE, 0, 0) == ArgvOk([Span(0, 1)], [Rd(Span(3, 4), false)], 4)
  {
    hide Tok, Skip;
    ExampleTokens();
    assert Redirs(EXAMPLE, 4) == RdsOk([], 4);
    assert Redirs(EXAMPLE, 1) == RdsOk([Rd(Span(3, 4), false)], 4);
    assert Args(EXAMPLE, 4, 1) == ArgvOk([], [], 4);
  }

  lemma AppendExample()
    ensures Doubled(EXAMPLE, 1) && ParseCmd(EXAMPLE) == Ok(Redir(Exec([Span(0, 1)]), Span(3, 4), false), 4)
  {
    hide Tok, Skip, Redirs, Args;
    ExampleTokens();
    ExampleArgs();
    var rd := Rd(Span(3, 4), false);
    assert [] + [rd] == [rd];
    var c := Redir(Exec([Span(0, 1)]), Span(3, 4), false);
    assert Wrap(Exec([Span(0, 1)]), [rd]) == c;
    assert ParseExec(EXAMPLE, 0) == Ok(c, 4);
    assert ParsePipe(EXAMPLE, 0) == Ok(c, 4) && Backs(EXAMPLE, c, 4) == (c, 4);
  }
}
