/** Writing commands down: every token sequence can be spelled, every command tree can be printed, and the parser reads
    back what was printed. */
module ShellPrint {
  import opened ShellModel
  import opened ShellGrammar
  import opened ShellAccepts

  const WHITESPACE: string := [' ', '\t', '\r', '\n', 11 as char]
  const SYMBOLS: string := "<|>&;()"

  /** Any characters but blanks, symbols and NUL make a word. */
  predicate LegalWord(w: string) {
    w != [] && forall k :: 0 <= k < |w| ==> w[k] !in WHITESPACE && w[k] !in SYMBOLS && w[k] != '\0'
  }

  /** What the scanner can produce. */
  predicate LegalTk(t: Tk) {
    match t
    case Word(w) => LegalWord(w)
    case Sym(c) => c in SYMBOLS || c == '+'
  }

  predicate LegalTks(tks: seq<Tk>) {
    forall k :: 0 <= k < |tks| ==> LegalTk(tks[k])
  }

  function Sign(t: Tk): string {
    match t
    case Word(w) => w
    case Sym(c) => if c == '+' then ">>" else [c]
  }

  /** The tokens with a blank after each. */
  function Spell(tks: seq<Tk>): string {
    if tks == [] then [] else Sign(tks[0]) + " " + Spell(tks[1..])
  }

  // ---------------------------------------------------------------- scanning what was spelled

  predicate Starts(s: string, i: nat, w: string) {
    i + |w| <= |s| && s[i..i + |w|] == w
  }

  lemma StartsSplit(s: string, i: nat, a: string, b: string)
    requires Starts(s, i, a + b)
    ensures Starts(s, i, a) && Starts(s, i + |a|, b)
  {
    assert s[i..i + |a + b|][..|a|] == s[i..i + |a|];
    assert s[i..i + |a + b|][|a|..] == s[i + |a|..i + |a| + |b|];
  }

  lemma StartsChar(s: string, i: nat, w: string, k: nat)
    requires Starts(s, i, w) && k < |w|
    ensures i + k < |s| && s[i + k] == w[k]
  {
    assert s[i..i + |w|][k] == s[i + k];
  }

  lemma {:induction false} WordEndIs(s: string, i: nat, w: string)
    requires Starts(s, i, w) && (forall k :: 0 <= k < |w| ==> WordChar(w[k])) &&
             (i + |w| < |s| ==> !WordChar(s[i + |w|]))
    ensures WordEnd(s, i) == i + |w|
    decreases |w|
  {
    if w != [] {
      StartsChar(s, i, w, 0);
      assert s[i + 1..i + 1 + |w[1..]|] == s[i..i + |w|][1..];
      WordEndIs(s, i + 1, w[1..]);
    }
  }

  lemma SkipSpace(s: string, i: nat)
    requires i < |s| && s[i] == ' ' && !Blank(At(s, i + 1))
    ensures Skip(s, i) == i + 1
  {
  }

  lemma SkipNone(s: string, i: nat)
    requires i < |s| && !Blank(s[i])
    ensures Skip(s, i) == i
  {
  }

  lemma TokWord(s: string, i: nat, w: string)
    requires LegalWord(w) && Starts(s, i, w) && i + |w| < |s| && s[i + |w|] == ' ' && !Blank(At(s, i + |w| + 1))
    ensures Tok(s, i) == Token('a', Span(i, i + |w|), i + |w| + 1)
  {
    StartsChar(s, i, w, 0);
    WordEndIs(s, i, w);
    SkipSpace(s, i + |w|);
    SkipNone(s, i);
    hide Skip, WordEnd, Starts;
  }

  lemma TokSymbol(s: string, i: nat, c: char)
    requires c in SYMBOLS && i + 1 < |s| && s[i] == c && s[i + 1] == ' ' && !Blank(At(s, i + 2))
    ensures Tok(s, i) == Token(c, Span(i, i + 1), i + 2)
  {
    SkipSpace(s, i + 1);
    SkipNone(s, i);
    hide Skip, WordEnd;
  }

  lemma TokDouble(s: string, i: nat)
    requires i + 2 < |s| && s[i] == '>' && s[i + 1] == '>' && s[i + 2] == ' ' && !Blank(At(s, i + 3))
    ensures Tok(s, i) == Token('+', Span(i, i + 2), i + 3)
  {
    SkipSpace(s, i + 2);
    SkipNone(s, i);
    hide Skip, WordEnd;
  }

  /** A token and the blank after it are scanned as that token. */
  lemma TokSign(s: string, i: nat, t: Tk)
    requires LegalTk(t) && Starts(s, i, Sign(t) + " ") && !Blank(At(s, i + |Sign(t)| + 1))
    ensures var r := Tok(s, i); r.kind != '\0' && r.next == i + |Sign(t)| + 1 <= |s| && TkOf(s, r) == t
  {
    hide Tok, Skip;
    var w := Sign(t);
    StartsSplit(s, i, w, " ");
    StartsChar(s, i + |w|, " ", 0);
    StartsChar(s, i, w, 0);
    if t.Word? {
      TokWord(s, i, w);
    } else if t.c == '+' {
      StartsChar(s, i, w, 1);
      TokDouble(s, i);
    } else {
      TokSymbol(s, i, t.c);
    }
  }

  /** No spelling begins with a blank. */
  lemma SpellFirst(s: string, i: nat, tks: seq<Tk>)
    requires LegalTks(tks) && Starts(s, i, Spell(tks)) && i + |Spell(tks)| == |s|
    ensures !Blank(At(s, i))
  {
    if tks != [] {
      assert LegalTk(tks[0]);
      StartsChar(s, i, Spell(tks), 0);
    }
  }

  lemma {:induction false} ScanSpell(s: string, i: nat, tks: seq<Tk>)
    requires LegalTks(tks) && Starts(s, i, Spell(tks)) && i + |Spell(tks)| == |s|
    ensures Scan(s, i) == tks
    decreases |tks|
  {
    hide Tok, TkOf, Starts, Sign, LegalTk;
    if tks == [] {
      EndTok(s);
    } else {
      var w, rest := Sign(tks[0]) + " ", Spell(tks[1..]);
      assert Spell(tks) == w + rest;
      StartsSplit(s, i, w, rest);
      var j := i + |w|;
      SpellFirst(s, j, tks[1..]);
      TokSign(s, i, tks[0]);
      ScanSpell(s, j, tks[1..]);
      assert tks == [tks[0]] + tks[1..];
    }
  }

  lemma EndTok(s: string)
    ensures Tok(s, |s|).kind == '\0'
  {
  }

  lemma {:induction false} SpellNoNul(tks: seq<Tk>)
    requires LegalTks(tks)
    ensures NoNul(Spell(tks))
  {
    if tks != [] {
      assert LegalTk(tks[0]);
      SpellNoNul(tks[1..]);
    }
  }

  /** Every phrase whose words are words can be spelled, and is parsed as what it means. */
  lemma SpellMeans(l: Line)
    requires LegalLine(l) && LegalTks(TkLine(l))
    ensures ParseCmd(Spell(TkLine(l))).Ok?
    ensures TreeOf(Spell(TkLine(l)), ParseCmd(Spell(TkLine(l))).cmd) == MeanLine(l)
  {
    hide Scan, ParseCmd, Spell, TkLine, LegalLine, MeanLine;
    var s := Spell(TkLine(l));
    assert s[0..0 + |s|] == s;
    ScanSpell(s, 0, TkLine(l));
    SpellNoNul(TkLine(l));
    Means(s, l);
  }

  /** The grammar is unambiguous: phrases with the same tokens mean the same command. */
  lemma Unambiguous(l: Line, m: Line)
    requires LegalLine(l) && LegalLine(m) && TkLine(l) == TkLine(m) && LegalTks(TkLine(l))
    ensures MeanLine(l) == MeanLine(m)
  {
    SpellMeans(l);
    SpellMeans(m);
  }

  // ---------------------------------------------------------------- printing a command

  function Items(words: seq<string>): seq<Item> {
    if words == [] then [] else [Item(words[0], [])] + Items(words[1..])
  }

  function Boxed(t: Tree, rds: seq<Rdr>): Pipeline
    decreases t, 1
  {
    One(Block(LineOf(t), rds))
  }

  /** A phrase for a command, with its parts in parentheses. */
  function LineOf(t: Tree): Line
    decreases t, 0
  {
    match t
    case TExec(words) => Last(One(Words([], Items(words))), 0)
    case TRedir(t1, file, input) => Last(Boxed(t1, [Rdr(if input then '<' else '>', file)]), 0)
    case TPipe(l, r) => Last(Bar(Block(LineOf(l), []), Boxed(r, [])), 0)
    case TList(l, r) => Semi(Boxed(l, []), 0, LineOf(r))
    case TBack(t1) => Last(Boxed(t1, []), 1)
  }

  /** What can be printed: words that the scanner takes as words, and no more of them than parseexec has room for. */
  predicate Legal(t: Tree) {
    match t
    case TExec(words) => |words| < MAXARGS && forall k :: 0 <= k < |words| ==> LegalWord(words[k])
    case TRedir(t1, file, input) => Legal(t1) && LegalWord(file)
    case TPipe(l, r) => Legal(l) && Legal(r)
    case TList(l, r) => Legal(l) && Legal(r)
    case TBack(t1) => Legal(t1)
  }

  lemma {:induction false} ItemsAre(words: seq<string>)
    requires forall k :: 0 <= k < |words| ==> LegalWord(words[k])
    ensures WordsOf(Items(words)) == words && RdrsOf(Items(words)) == [] && |Items(words)| == |words|
    ensures LegalItems(Items(words)) && LegalTks(TkItems(Items(words)))
  {
    if words != [] {
      ItemsAre(words[1..]);
      var items := Items(words);
      assert items[1..] == Items(words[1..]);
      assert TkItems(items) == [Word(words[0])] + TkItems(items[1..]);
    }
  }

  lemma BoxedMeans(t: Tree, rds: seq<Rdr>)
    requires LegalLine(LineOf(t)) && LegalTks(TkLine(LineOf(t))) && LegalRdrs(rds) && LegalTks(TkRdrs(rds))
    ensures LegalPipe(Boxed(t, rds)) && LegalTks(TkPipe(Boxed(t, rds)))
    ensures MeanPipe(Boxed(t, rds)) == Around(MeanLine(LineOf(t)), rds)
  {
    hide LineOf;
  }

  lemma OneRedir(t: Tree, r: Rdr)
    requires LegalTk(Word(r.file)) && (r.op == '<' || r.op == '>')
    ensures LegalRdrs([r]) && LegalTks(TkRdrs([r])) && Around(t, [r]) == TRedir(t, r.file, r.op == '<')
  {
    assert TkRdrs([r][1..]) == [];
    assert Around(t, [r][..0]) == t;
  }

  lemma {:induction false} LineOfMeans(t: Tree)
    requires Legal(t)
    ensures LegalLine(LineOf(t)) && LegalTks(TkLine(LineOf(t))) && MeanLine(LineOf(t)) == t
  {
    hide Boxed, TkPrim, MeanPrim;
    match t
    case TExec(words) =>
      ExecMeans(words);
    case TRedir(t1, file, input) =>
      var r := Rdr(if input then '<' else '>', file);
      LineOfMeans(t1);
      OneRedir(t1, r);
      BoxedMeans(t1, [r]);
      LastTokens(Boxed(t1, [r]), 0);
    case TPipe(l, r) =>
      LineOfMeans(l);
      LineOfMeans(r);
      BarMeans(l, r);
    case TList(l, r) =>
      LineOfMeans(l);
      LineOfMeans(r);
      BoxedMeans(l, []);
      assert TkLine(LineOf(t)) == TkPipe(Boxed(l, [])) + ([Sym(';')] + TkLine(LineOf(r)));
    case TBack(t1) =>
      LineOfMeans(t1);
      BoxedMeans(t1, []);
      LastTokens(Boxed(t1, []), 1);
  }

  lemma LastTokens(p: Pipeline, n: nat)
    requires n <= 1
    ensures TkLine(Last(p, n)) == TkPipe(p) + if n == 0 then [] else [Sym('&')]
    ensures MeanLine(Last(p, n)) == if n == 0 then MeanPipe(p) else TBack(MeanPipe(p))
  {
    assert TkAmps(0) == [] && TkAmps(1) == [Sym('&')] + TkAmps(0);
    assert Behind(MeanPipe(p), 0) == MeanPipe(p);
  }

  lemma ExecMeans(words: seq<string>)
    requires Legal(TExec(words))
    ensures LegalLine(LineOf(TExec(words))) && LegalTks(TkLine(LineOf(TExec(words))))
    ensures MeanLine(LineOf(TExec(words))) == TExec(words)
  {
    var items := Items(words);
    var p := One(Words([], items));
    ItemsAre(words);
    assert TkPipe(p) == TkItems(items);
    assert [] + RdrsOf(items) == [];
    LastTokens(p, 0);
  }

  lemma BarMeans(l: Tree, r: Tree)
    requires LegalLine(LineOf(l)) && LegalTks(TkLine(LineOf(l))) && MeanLine(LineOf(l)) == l
    requires LegalLine(LineOf(r)) && LegalTks(TkLine(LineOf(r))) && MeanLine(LineOf(r)) == r
    ensures var t := TPipe(l, r);
            LegalLine(LineOf(t)) && LegalTks(TkLine(LineOf(t))) && MeanLine(LineOf(t)) == t
  {
    BoxedMeans(l, []);
    BoxedMeans(r, []);
    var p := Bar(Block(LineOf(l), []), Boxed(r, []));
    assert TkPipe(p) == TkPipe(Boxed(l, [])) + ([Sym('|')] + TkPipe(Boxed(r, [])));
    LastTokens(p, 0);
  }

  /** Parsing the print of any command gives that command back. */
  lemma RoundTrip(t: Tree)
    requires Legal(t)
    ensures var s := Spell(TkLine(LineOf(t))); ParseCmd(s).Ok? && TreeOf(s, ParseCmd(s).cmd) == t
  {
    LineOfMeans(t);
    SpellMeans(LineOf(t));
  }

  // ---------------------------------------------------------------- two examples

  lemma SimpleIs(a: string, rds: seq<Rdr>)
    requires LegalRdrs(rds)
    ensures LegalPrim(Words([], [Item(a, rds)]))
    ensures TkPrim(Words([], [Item(a, rds)])) == [Word(a)] + TkRdrs(rds)
    ensures MeanPrim(Words([], [Item(a, rds)])) == Around(TExec([a]), rds)
  {
    var items: seq<Item> := [Item(a, rds)];
    var none := items[1..];
    assert TkItems(none) == [] && WordsOf(none) == [] && RdrsOf(none) == [];
    assert TkItems(items) == [Word(a)] + (TkRdrs(rds) + TkItems(none));
    assert TkRdrs([]) == [];
    assert WordsOf(items) == [a] && RdrsOf(items) == rds;
    assert [] + RdrsOf(items) == rds;
  }

  lemma PairIs(t: Tree, x: Rdr, y: Rdr)
    ensures TkRdrs([x, y]) == [Sym(x.op), Word(x.file), Sym(y.op), Word(y.file)]
    ensures Around(t, [x, y]) == TRedir(TRedir(t, x.file, x.op == '<'), y.file, y.op == '<')
  {
    var rds, last, first := [x, y], [y], [x];
    assert rds[1..] == last && rds[..1] == first;
    assert TkRdrs(last[1..]) == [] && Around(t, first[..0]) == t;
    assert TkRdrs(last) == [Sym(y.op), Word(y.file)] + TkRdrs(last[1..]);
    assert Around(t, first) == TRedir(Around(t, first[..0]), x.file, x.op == '<');
  }

  /** `a > x > y`: the second redirection is around the first. */
  lemma ChainExample(a: string, x: string, y: string)
    requires LegalWord(a) && LegalWord(x) && LegalWord(y)
    ensures var s := Spell([Word(a), Sym('>'), Word(x), Sym('>'), Word(y)]);
            ParseCmd(s).Ok? &&
            TreeOf(s, ParseCmd(s).cmd) == TRedir(TRedir(TExec([a]), x, false), y, false)
  {
    hide TkPrim, MeanPrim, LegalPrim, Spell, ParseCmd, TkRdrs, Around;
    var rds := [Rdr('>', x), Rdr('>', y)];
    var p := One(Words([], [Item(a, rds)]));
    SimpleIs(a, rds);
    PairIs(TExec([a]), rds[0], rds[1]);
    LastTokens(p, 0);
    assert TkLine(Last(p, 0)) == [Word(a), Sym('>'), Word(x), Sym('>'), Word(y)];
    SpellMeans(Last(p, 0));
  }

  /** `c & ; d`: the & belongs to the command before it, inside the list. */
  lemma BackListExample(c: string, d: string)
    requires LegalWord(c) && LegalWord(d)
    ensures var s := Spell([Word(c), Sym('&'), Sym(';'), Word(d)]);
            ParseCmd(s).Ok? && TreeOf(s, ParseCmd(s).cmd) == TList(TBack(TExec([c])), TExec([d]))
  {
    hide TkPrim, MeanPrim, LegalPrim, Spell, ParseCmd;
    assert TkRdrs([]) == [] && Around(TExec([c]), []) == TExec([c]) && Around(TExec([d]), []) == TExec([d]);
    var p, q := One(Words([], [Item(c, [])])), One(Words([], [Item(d, [])]));
    SimpleIs(c, []);
    SimpleIs(d, []);
    LastTokens(p, 1);
    LastTokens(q, 0);
    var l := Semi(p, 1, Last(q, 0));
    assert TkLine(l) == TkLine(Last(p, 1)) + ([Sym(';')] + TkLine(Last(q, 0)));
    assert TkLine(l) == [Word(c), Sym('&'), Sym(';'), Word(d)];
    assert LegalPipe(p) && LegalLine(Last(q, 0));
    SpellMeans(l);
  }
}
