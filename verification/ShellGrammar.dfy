/** The language sh.c accepts, as a grammar over tokens with a meaning for each phrase, and the proof that the parser
    accepts exactly the texts of that language and builds exactly those meanings. */
module ShellGrammar {
  import opened ShellModel

  // ---------------------------------------------------------------- tokens

  /** A word, or a symbol; the symbol + stands for >>. */
  datatype Tk = Word(w: string) | Sym(c: char)

  function Text(s: string, w: Span): string {
    if w.q <= w.eq <= |s| then s[w.q..w.eq] else []
  }

  function TkOf(s: string, t: Token): Tk {
    if t.kind == 'a' then Word(Text(s, t.at)) else Sym(t.kind)
  }

  /** The tokens of the text from i on. */
  function Scan(s: string, i: nat): seq<Tk>
    requires i <= |s|
    decreases |s| - i
  {
    var t := Tok(s, i);
    if t.kind == '\0' then [] else [TkOf(s, t)] + Scan(s, t.next)
  }

  predicate Begins(tks: seq<Tk>, cs: string) {
    tks != [] && tks[0].Sym? && tks[0].c in cs
  }

  lemma TokSkip(s: string, i: nat)
    requires i <= |s|
    ensures i <= Skip(s, i) <= |s| && Tok(s, Skip(s, i)) == Tok(s, i) && Scan(s, Skip(s, i)) == Scan(s, i)
  {
    SkipBounds(s, i);
  }

  /** peek sees the first token. */
  lemma PeekScan(s: string, i: nat, cs: string)
    requires i <= |s| && (forall k :: 0 <= k < |cs| ==> Symbol(cs[k])) && '>' !in cs
    ensures Peek(s, i, cs) <==> Begins(Scan(s, i), cs)
  {
    hide WordEnd;
    TokBounds(s, i);
  }

  lemma PeekRedir(s: string, i: nat)
    requires i <= |s|
    ensures Peek(s, i, "<>") <==> Begins(Scan(s, i), "<>+")
  {
    hide WordEnd;
    TokBounds(s, i);
  }

  /** gettoken takes the first token off. */
  lemma ScanStep(s: string, i: nat)
    requires i <= |s|
    ensures i <= Skip(s, i) <= |s| && i <= Tok(s, Skip(s, i)).next <= |s|
    ensures var t := Tok(s, Skip(s, i));
            if t.kind == '\0' then Scan(s, i) == [] && Scan(s, t.next) == []
            else i < t.next && Scan(s, i) == [TkOf(s, t)] + Scan(s, t.next)
  {
    TokSkip(s, i);
    TokBounds(s, i);
    var t := Tok(s, i);
    if t.kind == '\0' {
      EndStays(s, i);
    }
  }

  lemma EndStays(s: string, i: nat)
    requires i <= |s| && Tok(s, i).kind == '\0'
    ensures Tok(s, Tok(s, i).next).kind == '\0'
  {
    hide WordEnd;
    SkipBounds(s, i);
  }

  // ---------------------------------------------------------------- phrases

  datatype Rdr = Rdr(op: char, file: string)

  /** A word and the redirections after it. */
  datatype Item = Item(word: string, rds: seq<Rdr>)

  datatype Prim = Words(rds: seq<Rdr>, items: seq<Item>) | Block(line: Line, rds: seq<Rdr>)

  datatype Pipeline = One(prim: Prim) | Bar(prim: Prim, rest: Pipeline)

  /** Pipelines, each with a number of & after it, and ; between them. */
  datatype Line = Last(pipe: Pipeline, amps: nat) | Semi(pipe: Pipeline, amps: nat, rest: Line)

  function TkRdrs(rds: seq<Rdr>): seq<Tk> {
    if rds == [] then [] else [Sym(rds[0].op), Word(rds[0].file)] + TkRdrs(rds[1..])
  }

  function TkItems(items: seq<Item>): seq<Tk> {
    if items == [] then [] else [Word(items[0].word)] + (TkRdrs(items[0].rds) + TkItems(items[1..]))
  }

  function TkPrim(p: Prim): seq<Tk> {
    match p
    case Words(rds, items) => TkRdrs(rds) + TkItems(items)
    case Block(line, rds) => [Sym('(')] + (TkLine(line) + ([Sym(')')] + TkRdrs(rds)))
  }

  function TkPipe(p: Pipeline): seq<Tk> {
    match p
    case One(prim) => TkPrim(prim)
    case Bar(prim, rest) => TkPrim(prim) + ([Sym('|')] + TkPipe(rest))
  }

  function TkAmps(n: nat): seq<Tk> {
    if n == 0 then [] else [Sym('&')] + TkAmps(n - 1)
  }

  function TkLine(l: Line): seq<Tk> {
    match l
    case Last(pipe, amps) => TkPipe(pipe) + TkAmps(amps)
    case Semi(pipe, amps, rest) => TkPipe(pipe) + (TkAmps(amps) + ([Sym(';')] + TkLine(rest)))
  }

  predicate LegalRdrs(rds: seq<Rdr>) {
    forall k :: 0 <= k < |rds| ==> rds[k].op == '<' || rds[k].op == '>' || rds[k].op == '+'
  }

  predicate LegalItems(items: seq<Item>) {
    forall k :: 0 <= k < |items| ==> LegalRdrs(items[k].rds)
  }

  /** Redirections are made with <, > or >>, and no command has more words than parseexec has room for. */
  predicate LegalPrim(p: Prim) {
    match p
    case Words(rds, items) => LegalRdrs(rds) && LegalItems(items) && |items| < MAXARGS
    case Block(line, rds) => LegalLine(line) && LegalRdrs(rds)
  }

  predicate LegalPipe(p: Pipeline) {
    match p
    case One(prim) => LegalPrim(prim)
    case Bar(prim, rest) => LegalPrim(prim) && LegalPipe(rest)
  }

  predicate LegalLine(l: Line) {
    match l
    case Last(pipe, amps) => LegalPipe(pipe)
    case Semi(pipe, amps, rest) => LegalPipe(pipe) && LegalLine(rest)
  }

  // ---------------------------------------------------------------- what a phrase means

  /** A command with its words as strings. */
  datatype Tree =
    | TExec(words: seq<string>)
    | TRedir(t: Tree, file: string, input: bool)
    | TPipe(l: Tree, r: Tree)
    | TList(l: Tree, r: Tree)
    | TBack(t: Tree)

  /** The last redirection is the outermost one: runcmd opens its file first, so that of two redirections of the same
      descriptor the one written first is in force. */
  function Around(t: Tree, rds: seq<Rdr>): Tree {
    if rds == [] then t
    else
      var n := |rds| - 1;
      TRedir(Around(t, rds[..n]), rds[n].file, rds[n].op == '<')
  }

  function WordsOf(items: seq<Item>): seq<string> {
    if items == [] then [] else [items[0].word] + WordsOf(items[1..])
  }

  function RdrsOf(items: seq<Item>): seq<Rdr> {
    if items == [] then [] else items[0].rds + RdrsOf(items[1..])
  }

  function MeanPrim(p: Prim): Tree {
    match p
    case Words(rds, items) => Around(TExec(WordsOf(items)), rds + RdrsOf(items))
    case Block(line, rds) => Around(MeanLine(line), rds)
  }

  function MeanPipe(p: Pipeline): Tree {
    match p
    case One(prim) => MeanPrim(prim)
    case Bar(prim, rest) => TPipe(MeanPrim(prim), MeanPipe(rest))
  }

  function Behind(t: Tree, n: nat): Tree {
    if n == 0 then t else TBack(Behind(t, n - 1))
  }

  function MeanLine(l: Line): Tree {
    match l
    case Last(pipe, amps) => Behind(MeanPipe(pipe), amps)
    case Semi(pipe, amps, rest) => TList(Behind(MeanPipe(pipe), amps), MeanLine(rest))
  }

  function Texts(s: string, args: seq<Span>): seq<string> {
    if args == [] then [] else [Text(s, args[0])] + Texts(s, args[1..])
  }

  /** What the parser built, with its words read off the text. */
  function TreeOf(s: string, cmd: Cmd): Tree {
    match cmd
    case Exec(args) => TExec(Texts(s, args))
    case Redir(c, file, input) => TRedir(TreeOf(s, c), Text(s, file), input)
    case Pipe(l, r) => TPipe(TreeOf(s, l), TreeOf(s, r))
    case List(l, r) => TList(TreeOf(s, l), TreeOf(s, r))
    case Back(c) => TBack(TreeOf(s, c))
  }

  // ---------------------------------------------------------------- redirections

  predicate Reads(s: string, rds: seq<Rd>, rs: seq<Rdr>) {
    |rds| == |rs| && forall k :: 0 <= k < |rs| ==> ReadsAs(s, rds[k], rs[k])
  }

  predicate ReadsAs(s: string, rd: Rd, r: Rdr) {
    Text(s, rd.file) == r.file && (rd.input <==> r.op == '<')
  }

  lemma {:induction false} WrapLast(cmd: Cmd, rds: seq<Rd>, rd: Rd)
    ensures Wrap(cmd, rds + [rd]) == Redir(Wrap(cmd, rds), rd.file, rd.input)
    decreases |rds|
  {
    if rds != [] {
      assert (rds + [rd])[1..] == rds[1..] + [rd];
      WrapLast(Redir(cmd, rds[0].file, rds[0].input), rds[1..], rd);
    }
  }

  /** The parser's wrapping, first redirection first, is the grammar's nesting, last redirection outermost. */
  lemma {:induction false} WrapAround(s: string, cmd: Cmd, rds: seq<Rd>, rs: seq<Rdr>)
    requires Reads(s, rds, rs)
    ensures TreeOf(s, Wrap(cmd, rds)) == Around(TreeOf(s, cmd), rs)
    decreases |rds|
  {
    if rds != [] {
      var n := |rds| - 1;
      WrapAround(s, cmd, rds[..n], rs[..n]);
      WrapLast(cmd, rds[..n], rds[n]);
      assert rds == rds[..n] + [rds[n]];
      assert ReadsAs(s, rds[n], rs[n]);
    }
  }

  lemma ReadsJoin(s: string, a: seq<Rd>, x: seq<Rdr>, b: seq<Rd>, y: seq<Rdr>)
    requires Reads(s, a, x) && Reads(s, b, y)
    ensures Reads(s, a + b, x + y)
  {
    forall k | 0 <= k < |x + y|
      ensures ReadsAs(s, (a + b)[k], (x + y)[k])
    {
      assert k < |x| ==> ReadsAs(s, a[k], x[k]);
      assert k >= |x| ==> ReadsAs(s, b[k - |x|], y[k - |x|]);
    }
  }

  // ---------------------------------------------------------------- every phrase is parsed as what it means

  lemma {:induction false} RdrsFound(s: string, i: nat, rs: seq<Rdr>, rest: seq<Tk>)
    requires i <= |s| && LegalRdrs(rs) && Scan(s, i) == TkRdrs(rs) + rest && !Begins(rest, "<>+")
    ensures var r := Redirs(s, i); r.RdsOk? && r.pos <= |s| && Reads(s, r.rds, rs) && Scan(s, r.pos) == rest
    decreases |rs|
  {
    hide Tok, Skip, Peek, Scan;
    PeekRedir(s, i);
    TokSkip(s, i);
    if rs != [] {
      var t := Tok(s, Skip(s, i));
      ScanStep(s, i);
      var more := [Word(rs[0].file)] + (TkRdrs(rs[1..]) + rest);
      assert Scan(s, i) == [Sym(rs[0].op)] + more;
      assert Scan(s, t.next) == Scan(s, i)[1..] == more;
      NextWord(s, t.next, rs[0].file, TkRdrs(rs[1..]) + rest);
      var f := Tok(s, t.next);
      RdrsFound(s, f.next, rs[1..], rest);
      RedirsMore(s, i);
      ReadsJoin(s, [Rd(f.at, t.kind == '<')], [rs[0]], Redirs(s, f.next).rds, rs[1..]);
      assert [rs[0]] + rs[1..] == rs;
    }
  }

  lemma NextWord(s: string, i: nat, w: string, rest: seq<Tk>)
    requires i <= |s| && Scan(s, i) == [Word(w)] + rest
    ensures var t := Tok(s, i);
            t.kind == 'a' && Text(s, t.at) == w && i < t.next <= |s| && Scan(s, t.next) == rest &&
            Tok(s, Skip(s, i)) == t
  {
    hide Tok, Skip, Scan;
    TokSkip(s, i);
    ScanStep(s, i);
    var t := Tok(s, i);
    assert Scan(s, i)[0] == TkOf(s, t) && Scan(s, i)[1..] == Scan(s, t.next);
  }

  lemma RedirsMore(s: string, i: nat)
    requires i <= |s| && Peek(s, i, "<>") && Skip(s, i) <= |s|
    ensures var t := Tok(s, Skip(s, i));
            t.next <= |s| && var f := Tok(s, t.next);
            i < f.next <= |s| &&
            Redirs(s, i) == if f.kind != 'a' then RdsPanic("missing file for redirection")
              else if Redirs(s, f.next).RdsPanic? then Redirs(s, f.next)
              else RdsOk([Rd(f.at, t.kind == '<')] + Redirs(s, f.next).rds, Redirs(s, f.next).pos)
  {
    hide Tok, Skip;
    TokAfter(s, i, "<>");
    TokBounds(s, Tok(s, Skip(s, i)).next);
  }

  predicate Ends(tks: seq<Tk>, cs: string) {
    tks == [] || Begins(tks, cs)
  }

  lemma {:induction false} ItemsFound(s: string, i: nat, items: seq<Item>, rest: seq<Tk>, argc: nat)
    requires i <= |s| && LegalItems(items) && argc + |items| < MAXARGS
    requires Scan(s, i) == TkItems(items) + rest && Ends(rest, "|)&;")
    ensures var r := Args(s, i, argc);
            r.ArgvOk? && r.pos <= |s| && Texts(s, r.args) == WordsOf(items) && Reads(s, r.rds, RdrsOf(items)) &&
            Scan(s, r.pos) == rest
    decreases |items|
  {
    hide Tok, Skip, Peek, Scan, Redirs, Args, Reads;
    if items == [] {
      NoItems(s, i, rest, argc);
    } else {
      PeekScan(s, i, "|)&;");
      TokSkip(s, i);
      ArgsIs(s, i, argc);
      var first, more := items[0], TkItems(items[1..]) + rest;
      assert Scan(s, i) == [Word(first.word)] + (TkRdrs(first.rds) + more);
      NextWord(s, i, first.word, TkRdrs(first.rds) + more);
      var t := Tok(s, i);
      RdrsFound(s, t.next, first.rds, more);
      var r := Redirs(s, t.next);
      ItemsFound(s, r.pos, items[1..], rest, argc + 1);
      var a := Args(s, r.pos, argc + 1);
      ReadsJoin(s, r.rds, first.rds, a.rds, RdrsOf(items[1..]));
      TextsCons(s, t.at, a.args);
    }
  }

  lemma NoItems(s: string, i: nat, rest: seq<Tk>, argc: nat)
    requires i <= |s| && Scan(s, i) == rest && Ends(rest, "|)&;")
    ensures var r := Args(s, i, argc);
            r.ArgvOk? && r.pos <= |s| && r.args == [] && r.rds == [] && Reads(s, [], []) && Scan(s, r.pos) == rest
  {
    hide Tok, Skip, Peek, Scan, Redirs, Args;
    PeekScan(s, i, "|)&;");
    TokSkip(s, i);
    ScanStep(s, i);
    ArgsIs(s, i, argc);
  }

  lemma TextsCons(s: string, w: Span, args: seq<Span>)
    ensures Texts(s, [w] + args) == [Text(s, w)] + Texts(s, args)
  {
  }

  lemma ArgsIs(s: string, i: nat, argc: nat)
    requires i <= |s| && Skip(s, i) <= |s|
    ensures var t := Tok(s, Skip(s, i));
            t.next <= |s| &&
            Args(s, i, argc) ==
              if Peek(s, i, "|)&;") then ArgvOk([], [], Skip(s, i))
              else if t.kind == '\0' then ArgvOk([], [], t.next)
              else if t.kind != 'a' then ArgvPanic("syntax")
              else if argc + 1 >= MAXARGS then ArgvPanic("too many args")
              else
                var r := Redirs(s, t.next);
                if r.RdsPanic? then ArgvPanic(r.msg)
                else
                  var a := Args(s, r.pos, argc + 1);
                  if a.ArgvPanic? then a else ArgvOk([t.at] + a.args, r.rds + a.rds, a.pos)
  {
    hide Tok, Skip, Redirs;
    TokBounds(s, Skip(s, i));
    RedirsBounds(s, Tok(s, Skip(s, i)).next);
  }

  /** Parsing gave tree t and left these tokens. */
  ghost predicate Gives(s: string, r: Result, t: Tree, rest: seq<Tk>) {
    r.Ok? && r.pos <= |s| && TreeOf(s, r.cmd) == t && Scan(s, r.pos) == rest
  }

  lemma {:induction false} PrimFound(s: string, i: nat, p: Prim, rest: seq<Tk>)
    requires i <= |s| && LegalPrim(p) && Scan(s, i) == TkPrim(p) + rest && Ends(rest, "|)&;")
    ensures Gives(s, ParseExec(s, i), MeanPrim(p), rest)
    decreases p
  {
    hide Tok, Skip, Peek, Scan, Redirs, Args, ParseExec, ParseLine, TkLine, MeanLine;
    PeekScan(s, i, "(");
    TokSkip(s, i);
    ExecIs(s, i);
    match p
    case Words(rds, items) =>
      WordsFound(s, i, p, rest);
    case Block(line, rds) =>
      ScanStep(s, i);
      var t := Tok(s, Skip(s, i));
      var tail := [Sym(')')] + (TkRdrs(rds) + rest);
      assert TkPrim(p) + rest == [Sym('(')] + (TkLine(line) + tail);
      assert Scan(s, t.next) == Scan(s, i)[1..] == TkLine(line) + tail;
      LineFound(s, t.next, line, tail);
      var r := ParseLine(s, t.next);
      PeekScan(s, r.pos, ")");
      ScanStep(s, r.pos);
      var u := Tok(s, Skip(s, r.pos));
      assert Scan(s, u.next) == Scan(s, r.pos)[1..] == TkRdrs(rds) + rest;
      RdrsFound(s, u.next, rds, rest);
      WrapAround(s, r.cmd, Redirs(s, u.next).rds, rds);
  }

  lemma WordsFound(s: string, i: nat, p: Prim, rest: seq<Tk>)
    requires p.Words? && i <= |s| && LegalPrim(p) && Scan(s, i) == TkPrim(p) + rest && Ends(rest, "|)&;")
    ensures Gives(s, ParseExec(s, i), MeanPrim(p), rest)
  {
    hide Tok, Skip, Peek, Scan, Redirs, Args, ParseExec, ParseLine;
    PeekScan(s, i, "(");
    TokSkip(s, i);
    ExecIs(s, i);
    var more := TkItems(p.items) + rest;
    assert Scan(s, Skip(s, i)) == TkRdrs(p.rds) + more;
    RdrsFound(s, Skip(s, i), p.rds, more);
    var r := Redirs(s, Skip(s, i));
    ItemsFound(s, r.pos, p.items, rest, 0);
    var a := Args(s, r.pos, 0);
    ReadsJoin(s, r.rds, p.rds, a.rds, RdrsOf(p.items));
    WrapAround(s, Exec(a.args), r.rds + a.rds, p.rds + RdrsOf(p.items));
  }

  lemma ExecIs(s: string, i: nat)
    requires i <= |s| && Skip(s, i) <= |s|
    ensures Peek(s, i, "(") ==>
              var t := Tok(s, Skip(s, i));
              i < t.next <= |s| && var r := ParseLine(s, t.next);
              if r.Panic? then ParseExec(s, i) == r
              else t.next <= r.pos <= |s| && Skip(s, r.pos) <= |s| &&
                   if !Peek(s, r.pos, ")") then ParseExec(s, i) == Panic("syntax - missing )")
                   else
                     var u := Tok(s, Skip(s, r.pos));
                     u.next <= |s| && var rd := Redirs(s, u.next);
                     ParseExec(s, i) == if rd.RdsPanic? then Panic(rd.msg) else Ok(Wrap(r.cmd, rd.rds), rd.pos)
    ensures !Peek(s, i, "(") ==>
              var rd := Redirs(s, Skip(s, i));
              if rd.RdsPanic? then ParseExec(s, i) == Panic(rd.msg)
              else rd.pos <= |s| && var a := Args(s, rd.pos, 0);
                   ParseExec(s, i) ==
                     if a.ArgvPanic? then Panic(a.msg) else Ok(Wrap(Exec(a.args), rd.rds + a.rds), a.pos)
  {
    hide Tok, Skip, Redirs, Args, ParseLine, Peek, Wrap;
    if Peek(s, i, "(") {
      TokAfter(s, i, "(");
      var t := Tok(s, Skip(s, i));
      LineEnd(s, t.next);
      var r := ParseLine(s, t.next);
      if r.Ok? {
        SkipBounds(s, r.pos);
        TokBounds(s, Skip(s, r.pos));
        RedirsBounds(s, Tok(s, Skip(s, r.pos)).next);
      }
    } else {
      RedirsBounds(s, Skip(s, i));
    }
  }

  lemma {:induction false} PipeFound(s: string, i: nat, p: Pipeline, rest: seq<Tk>)
    requires i <= |s| && LegalPipe(p) && Scan(s, i) == TkPipe(p) + rest && Ends(rest, ")&;")
    ensures Gives(s, ParsePipe(s, i), MeanPipe(p), rest)
    decreases p
  {
    hide Tok, Skip, Peek, Scan, ParseExec, ParsePipe, TkPrim, MeanPrim;
    PipeIs(s, i);
    match p
    case One(prim) =>
      PrimFound(s, i, prim, rest);
      PeekScan(s, ParseExec(s, i).pos, "|");
      TokSkip(s, ParseExec(s, i).pos);
    case Bar(prim, right) =>
      var tail := [Sym('|')] + (TkPipe(right) + rest);
      assert TkPipe(p) + rest == TkPrim(prim) + tail;
      PrimFound(s, i, prim, tail);
      var r := ParseExec(s, i);
      PeekScan(s, r.pos, "|");
      ScanStep(s, r.pos);
      var t := Tok(s, Skip(s, r.pos));
      assert Scan(s, t.next) == Scan(s, r.pos)[1..] == TkPipe(right) + rest;
      PipeFound(s, t.next, right, rest);
  }

  lemma PipeIs(s: string, i: nat)
    requires i <= |s|
    ensures var r := ParseExec(s, i);
            if r.Panic? then ParsePipe(s, i) == r
            else i <= r.pos <= |s| && r.pos <= Skip(s, r.pos) <= |s| &&
                 if !Peek(s, r.pos, "|") then ParsePipe(s, i) == Ok(r.cmd, Skip(s, r.pos))
                 else
                   var t := Tok(s, Skip(s, r.pos));
                   r.pos < t.next <= |s| && var q := ParsePipe(s, t.next);
                   ParsePipe(s, i) == if q.Panic? then q else Ok(Pipe(r.cmd, q.cmd), q.pos)
  {
    hide Tok, Skip, Peek, ParseExec;
    ExecEnd(s, i);
    var r := ParseExec(s, i);
    if r.Ok? {
      SkipBounds(s, r.pos);
      if Peek(s, r.pos, "|") {
        TokAfter(s, r.pos, "|");
      }
    }
  }

  lemma {:induction false} BehindBack(t: Tree, n: nat)
    ensures Behind(TBack(t), n) == TBack(Behind(t, n))
  {
    if n > 0 {
      BehindBack(t, n - 1);
    }
  }

  lemma {:induction false} AmpsFound(s: string, cmd: Cmd, i: nat, n: nat, rest: seq<Tk>)
    requires i <= |s| && Scan(s, i) == TkAmps(n) + rest && !Begins(rest, "&")
    ensures var r := Backs(s, cmd, i);
            r.1 <= |s| && TreeOf(s, r.0) == Behind(TreeOf(s, cmd), n) && Scan(s, r.1) == rest
    decreases n
  {
    hide Tok, Skip, Peek, Scan, Backs;
    PeekScan(s, i, "&");
    TokSkip(s, i);
    BacksIs(s, cmd, i);
    if n > 0 {
      ScanStep(s, i);
      var t := Tok(s, Skip(s, i));
      assert Scan(s, i) == [Sym('&')] + (TkAmps(n - 1) + rest);
      assert Scan(s, t.next) == Scan(s, i)[1..] == TkAmps(n - 1) + rest;
      AmpsFound(s, Back(cmd), t.next, n - 1, rest);
      BehindBack(TreeOf(s, cmd), n - 1);
    }
  }

  lemma BacksIs(s: string, cmd: Cmd, i: nat)
    requires i <= |s| && Skip(s, i) <= |s|
    ensures Backs(s, cmd, i) ==
              if Peek(s, i, "&") then Backs(s, Back(cmd), Tok(s, Skip(s, i)).next) else (cmd, Skip(s, i))
  {
    hide Tok, Skip, Peek;
    if Peek(s, i, "&") {
      TokAfter(s, i, "&");
    }
  }

  lemma {:induction false} LineFound(s: string, i: nat, l: Line, rest: seq<Tk>)
    requires i <= |s| && LegalLine(l) && Scan(s, i) == TkLine(l) + rest && Ends(rest, ")")
    ensures Gives(s, ParseLine(s, i), MeanLine(l), rest)
    decreases l
  {
    hide Tok, Skip, Peek, Scan, ParsePipe, ParseLine, Backs, TkPipe, MeanPipe;
    LineIs(s, i);
    var tail := if l.Last? then rest else [Sym(';')] + (TkLine(l.rest) + rest);
    assert TkLine(l) + rest == TkPipe(l.pipe) + (TkAmps(l.amps) + tail);
    PipeFound(s, i, l.pipe, TkAmps(l.amps) + tail);
    var r := ParsePipe(s, i);
    AmpsFound(s, r.cmd, r.pos, l.amps, tail);
    var b := Backs(s, r.cmd, r.pos);
    PeekScan(s, b.1, ";");
    if l.Last? {
      TokSkip(s, b.1);
    } else {
      ScanStep(s, b.1);
      var t := Tok(s, Skip(s, b.1));
      assert Scan(s, t.next) == Scan(s, b.1)[1..] == TkLine(l.rest) + rest;
      LineFound(s, t.next, l.rest, rest);
    }
  }

  lemma LineIs(s: string, i: nat)
    requires i <= |s|
    ensures var r := ParsePipe(s, i);
            if r.Panic? then ParseLine(s, i) == r
            else i <= r.pos <= |s| && var b := Backs(s, r.cmd, r.pos);
                 r.pos <= b.1 <= |s| && b.1 <= Skip(s, b.1) <= |s| &&
                 if !Peek(s, b.1, ";") then ParseLine(s, i) == Ok(b.0, Skip(s, b.1))
                 else
                   var t := Tok(s, Skip(s, b.1));
                   b.1 < t.next <= |s| && var q := ParseLine(s, t.next);
                   ParseLine(s, i) == if q.Panic? then q else Ok(List(b.0, q.cmd), q.pos)
  {
    hide Tok, Skip, Peek, ParsePipe, Backs;
    PipeEnd(s, i);
    var r := ParsePipe(s, i);
    if r.Ok? {
      BacksBounds(s, r.cmd, r.pos);
      var b := Backs(s, r.cmd, r.pos);
      SkipBounds(s, b.1);
      if Peek(s, b.1, ";") {
        TokAfter(s, b.1, ";");
      }
    }
  }
}
