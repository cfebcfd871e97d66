/** The parser of sh.c with its moving cursor. */
module ShellCode {
  import opened ShellModel

  lemma ExecSkip(s: string, i: nat)
    requires i <= |s|
    ensures i <= Skip(s, i) <= |s| && ParseExec(s, Skip(s, i)) == ParseExec(s, i) &&
            Peek(s, Skip(s, i), "(") == Peek(s, i, "(")
  {
  }

  lemma RedirectedIs(s: string, cmd: Cmd, i: nat)
    requires i <= |s|
    ensures Redirected(s, cmd, i) == if Redirs(s, i).RdsPanic? then Panic(Redirs(s, i).msg)
            else Ok(Wrap(cmd, Redirs(s, i).rds), Redirs(s, i).pos)
  {
  }

  lemma PeekSkip(s: string, i: nat, toks: string)
    ensures Peek(s, Skip(s, i), toks) == Peek(s, i, toks)
  {
  }

  lemma BacksNext(s: string, cmd: Cmd, i: nat)
    requires i <= |s| && Peek(s, i, "&")
    ensures var t := Tok(s, Skip(s, i));
            i < t.next <= |s| && t.next <= Skip(s, t.next) <= |s| && Backs(s, cmd, i) == Backs(s, Back(cmd), t.next)
  {
  }

  lemma BacksEnd(s: string, cmd: Cmd, i: nat)
    requires i <= |s| && !Peek(s, i, "&")
    ensures Backs(s, cmd, i) == (cmd, Skip(s, i)) && Skip(s, Skip(s, i)) == Skip(s, i) <= |s|
  {
  }

  lemma RedirsStart(s: string, i: nat)
    requires i <= |s|
    ensures RedirsFrom(s, i, [], i) && i <= Skip(s, i) <= |s|
  {
  }

  /** One turn of parseredirs' loop. */
  lemma RedirsNext(s: string, i0: nat, rds: seq<Rd>, i: nat)
    requires i0 <= |s| && i <= |s| && RedirsFrom(s, i0, rds, i) && Peek(s, i, "<>")
    ensures Skip(s, i) <= |s|
    ensures var t := Tok(s, Skip(s, i));
            var f := Tok(s, t.next);
            i < t.next <= f.next <= |s| && f.next <= Skip(s, f.next) <= |s| &&
            if f.kind == 'a' then RedirsFrom(s, i0, rds + [Rd(f.at, t.kind == '<')], f.next)
            else Redirs(s, i0) == RdsPanic("missing file for redirection")
  {
    hide Skip, WordEnd;
    SkipBounds(s, i);
    var t := Tok(s, Skip(s, i));
    var f := Tok(s, t.next);
    TokBounds(s, Skip(s, i));
    TokBounds(s, t.next);
    SkipBounds(s, f.next);
    hide Tok;
    if f.kind == 'a' && Redirs(s, f.next).RdsOk? {
      assert rds + [Rd(f.at, t.kind == '<')] + Redirs(s,
          f.next).rds == rds + ([Rd(f.at, t.kind == '<')] + Redirs(s, f.next).rds);
    }
  }

  lemma RedirsEnd(s: string, i0: nat, rds: seq<Rd>, i: nat)
    requires i0 <= |s| && i <= |s| && RedirsFrom(s, i0, rds, i) && !Peek(s, i, "<>")
    ensures Redirs(s, i0) == RdsOk(rds, Skip(s, i))
  {
  }

  /** A command's words and redirections from i0 on are these, and then those from i on. */
  ghost predicate WordsFrom(s: string, i0: nat, args: seq<Span>, rds: seq<Rd>, i: nat)
    requires i0 <= |s| && i <= |s|
  {
    match Args(s, i, |args|)
    case ArgvPanic(msg) => ParseExec(s, i0) == Panic(msg)
    case ArgvOk(more, rds', pos) => ParseExec(s, i0) == Ok(Wrap(Exec(args + more), rds + rds'), pos)
  }

  lemma WordsStart(s: string, i: nat)
    requires i <= |s| && !Peek(s, i, "(")
    ensures var r := Redirs(s, i);
            if r.RdsPanic? then ParseExec(s, i) == Panic(r.msg)
            else i <= r.pos <= |s| && WordsFrom(s, i, [], r.rds, r.pos) && r.pos <= Skip(s, r.pos) <= |s|
  {
    SkipBounds(s, i);
    assert Redirs(s, Skip(s, i)) == Redirs(s, i);
    var r := Redirs(s, i);
    if r.RdsOk? {
      SkipBounds(s, r.pos);
      var rest := Args(s, r.pos, 0);
      assert rest.ArgvOk? ==> [] + rest.args == rest.args;
    }
  }

  /** One turn of parseexec's loop. */
  lemma WordsNext(s: string, i0: nat, args: seq<Span>, rds: seq<Rd>, i: nat)
    requires i0 <= |s| && i <= |s| && WordsFrom(s, i0, args, rds, i) && !Peek(s, i, "|)&;")
    ensures Skip(s, i) <= |s|
    ensures var t := Tok(s, Skip(s, i));
            i <= t.next <= |s| &&
            if t.kind == '\0' then ParseExec(s, i0) == Ok(Wrap(Exec(args), rds), t.next)
            else i < t.next && if t.kind != 'a' then ParseExec(s, i0) == Panic("syntax")
            else if |args| + 1 >= MAXARGS then ParseExec(s, i0) == Panic("too many args")
            else
              var r := Redirs(s, t.next);
              if r.RdsPanic? then ParseExec(s, i0) == Panic(r.msg)
              else t.next <= r.pos <= |s| && r.pos <= Skip(s, r.pos) <= |s| &&
                   WordsFrom(s, i0, args + [t.at], rds + r.rds, r.pos)
  {
    hide Skip, Tok, ParseExec, Peek, Redirs, Wrap;
    SkipBounds(s, i);
    TokBounds(s, Skip(s, i));
    var t := Tok(s, Skip(s, i));
    assert args + [] == args && rds + [] == rds;
    if t.kind == 'a' && |args| + 1 < MAXARGS && Redirs(s, t.next).RdsOk? {
      var r := Redirs(s, t.next);
      RedirsBounds(s, t.next);
      SkipBounds(s, r.pos);
      var rest := Args(s, r.pos, |args| + 1);
      if rest.ArgvOk? {
        assert args + [t.at] + rest.args == args + ([t.at] + rest.args);
        assert rds + r.rds + rest.rds == rds + (r.rds + rest.rds);
      }
    }
  }

  lemma WordsEnd(s: string, i0: nat, args: seq<Span>, rds: seq<Rd>, i: nat)
    requires i0 <= |s| && i <= |s| && WordsFrom(s, i0, args, rds, i) && Peek(s, i, "|)&;")
    ensures ParseExec(s, i0) == Ok(Wrap(Exec(args), rds), Skip(s, i))
  {
    assert args + [] == args && rds + [] == rds;
  }

  /** The redirections from i on are rds and then those from j on. */
  ghost predicate RedirsFrom(s: string, i: nat, rds: seq<Rd>, j: nat)
    requires i <= |s| && j <= |s|
  {
    match Redirs(s, j)
    case RdsPanic(msg) => Redirs(s, i) == RdsPanic(msg)
    case RdsOk(more, pos) => Redirs(s, i) == RdsOk(rds + more, pos)
  }

  // ---------------------------------------------------------------- the code

  class Parser {
    const s: string
    var ps: nat

    constructor (s: string)
      ensures this.s == s && ps == 0
    {
      this.s, ps := s, 0;
    }

    method SkipBlanks(i: nat) returns (j: nat)
      ensures j == Skip(s, i)
    {
      j := i;
      while j < |s| && Blank(s[j])
        invariant Skip(s, i) == Skip(s, j)
        decreases |s| - j
      {
        j := j + 1;
      }
    }

    method Gettoken() returns (kind: char, at: Span)
      requires ps <= |s|
      modifies this`ps
      ensures Tok(s, old(ps)) == Token(kind, at, ps) && old(ps) <= ps <= |s|
    {
      var i := SkipBlanks(ps);
      var q := i;
      kind := At(s, i);
      if kind == '\0' {
      } else if kind == '|' || kind == '(' || kind == ')' || kind == ';' || kind == '&' || kind == '<' {
        i := i + 1;
      } else if kind == '>' {
        i := i + 1;
        if At(s, i) == '>' {
          kind := '+';
          i := i + 1;
        }
      } else {
        kind := 'a';
        while i < |s| && !Blank(s[i]) && !Symbol(s[i])
          invariant q <= i && WordEnd(s, q) == WordEnd(s, i)
          decreases |s| - i
        {
          i := i + 1;
        }
      }
      at := Span(q, i);
      ps := SkipBlanks(i);
    }

    method PeekFor(toks: string) returns (b: bool)
      requires ps <= |s|
      modifies this`ps
      ensures b == Peek(s, old(ps), toks) && ps == Skip(s, old(ps)) <= |s|
    {
      ps := SkipBlanks(ps);
      b := At(s, ps) != '\0' && At(s, ps) in toks;
    }

    /** parseredirs: the redirections that come next, which the caller wraps around its command. */
    method Parseredirs() returns (ok: bool, rds: seq<Rd>, msg: string)
      requires ps <= |s|
      modifies this`ps
      ensures Redirs(s, old(ps)) == if ok then RdsOk(rds, ps) else RdsPanic(msg)
      ensures old(ps) <= ps <= |s|
    {
      hide Redirs, RedirsFrom, Peek, Tok, Skip;
      rds, msg := [], "";
      ghost var i := ps;
      RedirsStart(s, i);
      var more := PeekFor("<>");
      while more
        invariant old(ps) <= i <= |s| && i <= ps == Skip(s, i) <= |s| && more == Peek(s, i, "<>") &&
                  RedirsFrom(s, old(ps), rds, i)
        decreases |s| - i
      {
        RedirsNext(s, old(ps), rds, i);
        var tok, at := Gettoken();
        var kind;
        kind, at := Gettoken();
        if kind != 'a' {
          return false, [], "missing file for redirection";
        }
        rds := rds + [Rd(at, tok == '<')];
        i := ps;
        more := PeekFor("<>");
      }
      RedirsEnd(s, old(ps), rds, i);
      ok := true;
    }

    /** parseexec, for a command that is not in parentheses: words and redirections up to a symbol that ends it. */
    method Parsewords() returns (ok: bool, cmd: Cmd, msg: string)
      requires ps <= |s| && !Peek(s, ps, "(")
      modifies this`ps
      ensures ParseExec(s, old(ps)) == if ok then Ok(cmd, ps) else Panic(msg)
      ensures old(ps) <= ps <= |s|
    {
      hide Redirs, Args, Peek, Tok, Skip, ParseExec, WordsFrom;
      WordsStart(s, ps);
      var args, rds, argc: nat := [], [], 0;
      cmd := Exec([]);
      ok, rds, msg := Parseredirs();
      if !ok {
        return;
      }
      ghost var i := ps;
      var stop := PeekFor("|)&;");
      while !stop
        invariant old(ps) <= i <= |s| && i <= ps == Skip(s, i) <= |s| && stop == Peek(s, i, "|)&;") && argc == |args|
        invariant WordsFrom(s, old(ps), args, rds, i)
        decreases |s| - i
      {
        WordsNext(s, old(ps), args, rds, i);
        var kind, at := Gettoken();
        if kind == '\0' {
          return true, Wrap(Exec(args), rds), "";
        }
        if kind != 'a' {
          return false, cmd, "syntax";
        }
        args, argc := args + [at], argc + 1;
        if argc >= MAXARGS {
          return false, cmd, "too many args";
        }
        var more;
        ok, more, msg := Parseredirs();
        if !ok {
          return;
        }
        rds := rds + more;
        i := ps;
        stop := PeekFor("|)&;");
      }
      WordsEnd(s, old(ps), args, rds, i);
      ok, cmd := true, Wrap(Exec(args), rds);
    }

    method Parseexec() returns (ok: bool, cmd: Cmd, msg: string)
      requires ps <= |s|
      modifies this`ps
      ensures ParseExec(s, old(ps)) == if ok then Ok(cmd, ps) else Panic(msg)
      ensures old(ps) <= ps <= |s|
      decreases |s| - ps, 0
    {
      hide Redirs, Args, Tok, Skip, ParseLine, Redirected;
      ExecSkip(s, ps);
      var block := PeekFor("(");
      if !block {
        ok, cmd, msg := Parsewords();
        return;
      }
      TokAfter(s, old(ps), "(");
      var kind, at := Gettoken();
      ok, cmd, msg := Parseline();
      if !ok {
        return;
      }
      ghost var end := ps;
      var close := PeekFor(")");
      if !close {
        return false, cmd, "syntax - missing )";
      }
      SkipBounds(s, end);
      kind, at := Gettoken();
      var rds;
      RedirectedIs(s, cmd, ps);
      ok, rds, msg := Parseredirs();
      cmd := Wrap(cmd, rds);
    }

    method Parsepipe() returns (ok: bool, cmd: Cmd, msg: string)
      requires ps <= |s|
      modifies this`ps
      ensures ParsePipe(s, old(ps)) == if ok then Ok(cmd, ps) else Panic(msg)
      ensures old(ps) <= ps <= |s|
      decreases |s| - ps, 1
    {
      hide Tok, Skip, ParseExec, Peek;
      ok, cmd, msg := Parseexec();
      if !ok {
        return;
      }
      ghost var end := ps;
      SkipBounds(s, end);
      TokBounds(s, Skip(s, end));
      PeekSkip(s, end, "|");
      var bar := PeekFor("|");
      if bar {
        var kind, at := Gettoken();
        var right;
        ok, right, msg := Parsepipe();
        cmd := Pipe(cmd, right);
      }
    }

    method Parseline() returns (ok: bool, cmd: Cmd, msg: string)
      requires ps <= |s|
      modifies this`ps
      ensures ParseLine(s, old(ps)) == if ok then Ok(cmd, ps) else Panic(msg)
      ensures old(ps) <= ps <= |s|
      decreases |s| - ps, 2
    {
      hide Tok, Skip, ParsePipe, Peek, Backs;
      ok, cmd, msg := Parsepipe();
      if !ok {
        return;
      }
      ghost var c0, i0 := cmd, ps;
      BacksBounds(s, c0, i0);
      ghost var i := ps;
      var amp := PeekFor("&");
      while amp
        invariant i0 <= i <= |s| && i <= ps == Skip(s, i) <= |s| && amp == Peek(s, i, "&") &&
                  Backs(s, c0, i0) == Backs(s, cmd, i)
        decreases |s| - i
      {
        BacksNext(s, cmd, i);
        var kind, at := Gettoken();
        cmd := Back(cmd);
        i := ps;
        amp := PeekFor("&");
      }
      BacksEnd(s, cmd, i);
      var semi := PeekFor(";");
      if semi {
        PeekSkip(s, Skip(s, i), ";");
        TokBounds(s, Skip(s, i));
        var kind, at := Gettoken();
        var right;
        ok, right, msg := Parseline();
        cmd := List(cmd, right);
      }
    }

    /** parsecmd up to nulterminate */
    method Parsecmd() returns (ok: bool, cmd: Cmd, msg: string)
      requires ps == 0
      modifies this`ps
      ensures ParseCmd(s) == if ok then Ok(cmd, ps) else Panic(msg)
    {
      hide ParseLine, Skip;
      ok, cmd, msg := Parseline();
      if !ok {
        return;
      }
      var b := PeekFor("");
      if ps != |s| {
        return false, cmd, "syntax";
      }
    }
  }
}
