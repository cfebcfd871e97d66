/** Every text the parser of sh.c accepts is a phrase of the grammar, and so it accepts that language and no other. */
module ShellAccepts {
  import opened ShellModel
  import opened ShellGrammar

  lemma {:induction false} RdrsSound(s: string, i: nat) returns (rs: seq<Rdr>)
    requires i <= |s| && Redirs(s, i).RdsOk?
    ensures Redirs(s, i).pos <= |s| && LegalRdrs(rs) && Scan(s, i) == TkRdrs(rs) + Scan(s, Redirs(s, i).pos)
    decreases |s| - i
  {
    hide Tok, Skip, Peek, Scan;
    PeekRedir(s, i);
    TokSkip(s, i);
    RedirsBounds(s, i);
    if Peek(s, i, "<>") {
      RedirsMore(s, i);
      ScanStep(s, i);
      var t := Tok(s, Skip(s, i));
      var f := Tok(s, t.next);
      ScanStep(s, t.next);
      TokSkip(s, t.next);
      var more := RdrsSound(s, f.next);
      var r := Rdr(t.kind, Text(s, f.at));
      rs := [r] + more;
      assert rs[1..] == more;
      assert Scan(s, i) == [Sym(r.op), Word(r.file)] + Scan(s, f.next);
    } else {
      rs := [];
    }
  }

  lemma {:induction false} ItemsSound(s: string, i: nat, argc: nat) returns (items: seq<Item>)
    requires i <= |s| && Args(s, i, argc).ArgvOk? && argc < MAXARGS
    ensures var end := Args(s, i, argc).pos;
            end <= |s| && LegalItems(items) && argc + |items| < MAXARGS && Scan(s, i) == TkItems(items) + Scan(s, end)
    decreases |s| - i
  {
    hide Tok, Skip, Peek, Scan, Redirs, Args;
    TokSkip(s, i);
    ScanStep(s, i);
    ArgsIs(s, i, argc);
    var t := Tok(s, Skip(s, i));
    if Peek(s, i, "|)&;") || t.kind == '\0' {
      items := [];
    } else {
      var rds := RdrsSound(s, t.next);
      var r := Redirs(s, t.next);
      RedirsBounds(s, t.next);
      var more := ItemsSound(s, r.pos, argc + 1);
      items := [Item(Text(s, t.at), rds)] + more;
      assert items[1..] == more;
      var end := Scan(s, Args(s, i, argc).pos);
      assert Scan(s, i) == [Word(Text(s, t.at))] + (TkRdrs(rds) + (TkItems(more) + end));
      assert TkItems(items) + end == [Word(Text(s, t.at))] + (TkRdrs(rds) + (TkItems(more) + end));
    }
  }

  lemma {:induction false} PrimSound(s: string, i: nat) returns (p: Prim)
    requires i <= |s| && ParseExec(s, i).Ok?
    ensures ParseExec(s, i).pos <= |s| && LegalPrim(p) && Scan(s, i) == TkPrim(p) + Scan(s, ParseExec(s, i).pos)
    decreases |s| - i, 0
  {
    hide Tok, Skip, Peek, Scan, Redirs, Args, ParseExec, ParseLine, TkLine, Wrap;
    PeekScan(s, i, "(");
    TokSkip(s, i);
    ExecIs(s, i);
    if Peek(s, i, "(") {
      ScanStep(s, i);
      var t := Tok(s, Skip(s, i));
      var line := LineSound(s, t.next);
      var r := ParseLine(s, t.next);
      PeekScan(s, r.pos, ")");
      ScanStep(s, r.pos);
      var u := Tok(s, Skip(s, r.pos));
      var rds := RdrsSound(s, u.next);
      p := Block(line, rds);
      BlockTokens(line, rds, Scan(s, Redirs(s, u.next).pos));
    } else {
      var rds := RdrsSound(s, Skip(s, i));
      var r := Redirs(s, Skip(s, i));
      var items := ItemsSound(s, r.pos, 0);
      p := Words(rds, items);
      var end := Scan(s, Args(s, r.pos, 0).pos);
      assert TkRdrs(rds) + (TkItems(items) + end) == TkPrim(p) + end;
    }
  }

  lemma BlockTokens(line: Line, rds: seq<Rdr>, rest: seq<Tk>)
    ensures TkPrim(Block(line, rds)) + rest ==
              [Sym('(')] + (TkLine(line) + ([Sym(')')] + (TkRdrs(rds) + rest)))
  {
  }

  lemma {:induction false} PipeSound(s: string, i: nat) returns (p: Pipeline)
    requires i <= |s| && ParsePipe(s, i).Ok?
    ensures ParsePipe(s, i).pos <= |s| && LegalPipe(p) && Scan(s, i) == TkPipe(p) + Scan(s, ParsePipe(s, i).pos)
    decreases |s| - i, 1
  {
    hide Tok, Skip, Peek, Scan, ParseExec, ParsePipe, TkPrim;
    PipeIs(s, i);
    var prim := PrimSound(s, i);
    var r := ParseExec(s, i);
    PeekScan(s, r.pos, "|");
    TokSkip(s, r.pos);
    if Peek(s, r.pos, "|") {
      ScanStep(s, r.pos);
      var t := Tok(s, Skip(s, r.pos));
      var right := PipeSound(s, t.next);
      p := Bar(prim, right);
      var end := Scan(s, ParsePipe(s, i).pos);
      assert TkPrim(prim) + ([Sym('|')] + (TkPipe(right) + end)) == TkPipe(p) + end;
    } else {
      p := One(prim);
    }
  }

  lemma {:induction false} AmpsSound(s: string, cmd: Cmd, i: nat) returns (n: nat)
    requires i <= |s|
    ensures Backs(s, cmd, i).1 <= |s| && Scan(s, i) == TkAmps(n) + Scan(s, Backs(s, cmd, i).1)
    decreases |s| - i
  {
    hide Tok, Skip, Peek, Scan, Backs;
    PeekScan(s, i, "&");
    TokSkip(s, i);
    BacksIs(s, cmd, i);
    if Peek(s, i, "&") {
      ScanStep(s, i);
      var m := AmpsSound(s, Back(cmd), Tok(s, Skip(s, i)).next);
      n := m + 1;
    } else {
      n := 0;
    }
  }

  lemma {:induction false} LineSound(s: string, i: nat) returns (l: Line)
    requires i <= |s| && ParseLine(s, i).Ok?
    ensures ParseLine(s, i).pos <= |s| && LegalLine(l) && Scan(s, i) == TkLine(l) + Scan(s, ParseLine(s, i).pos)
    decreases |s| - i, 2
  {
    hide Tok, Skip, Peek, Scan, ParsePipe, ParseLine, Backs, TkPipe;
    LineIs(s, i);
    var pipe := PipeSound(s, i);
    var r := ParsePipe(s, i);
    var n := AmpsSound(s, r.cmd, r.pos);
    var b := Backs(s, r.cmd, r.pos);
    PeekScan(s, b.1, ";");
    TokSkip(s, b.1);
    var end := Scan(s, ParseLine(s, i).pos);
    if Peek(s, b.1, ";") {
      ScanStep(s, b.1);
      var rest := LineSound(s, Tok(s, Skip(s, b.1)).next);
      l := Semi(pipe, n, rest);
      assert TkPipe(pipe) + (TkAmps(n) + ([Sym(';')] + (TkLine(rest) + end))) == TkLine(l) + end;
    } else {
      l := Last(pipe, n);
      assert TkPipe(pipe) + (TkAmps(n) + end) == TkLine(l) + end;
    }
  }

  // ---------------------------------------------------------------- the language

  lemma ScanEnd(s: string, i: nat)
    requires NoNul(s) && i <= |s|
    ensures Skip(s, i) == |s| <==> Scan(s, i) == []
  {
    SkipBounds(s, i);
  }

  ghost predicate Phrase(s: string, l: Line) {
    LegalLine(l) && TkLine(l) == Scan(s, 0)
  }

  /** parsecmd accepts a text exactly if its tokens are a phrase of the grammar; all other texts panic. */
  lemma Accepts(s: string)
    requires NoNul(s)
    ensures ParseCmd(s).Ok? <==> exists l :: Phrase(s, l)
  {
    hide Skip, Scan, ParseLine, LegalLine, TkLine;
    if ParseCmd(s).Ok? {
      var l := LineSound(s, 0);
      ScanEnd(s, ParseLine(s, 0).pos);
      assert Phrase(s, l);
    }
    if l :| Phrase(s, l) {
      Means(s, l);
    }
  }

  /** And the command it builds is what the phrase means, whatever blanks the text has: redirections nest with the last
      one outermost, pipes and lists to the right, & applies to the pipeline before it. */
  lemma Means(s: string, l: Line)
    requires NoNul(s) && Phrase(s, l)
    ensures ParseCmd(s).Ok? && TreeOf(s, ParseCmd(s).cmd) == MeanLine(l)
  {
    hide Skip, Scan, ParseLine, LegalLine, TkLine;
    assert TkLine(l) + [] == TkLine(l);
    LineFound(s, 0, l, []);
    ScanEnd(s, ParseLine(s, 0).pos);
  }
}
