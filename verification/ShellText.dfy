/** What becomes of the text: nulterminate cuts it in place into the words and file names of the parsed command. */
module ShellText {
  import opened ShellModel
  import A = ShellAccepts
  import G = ShellGrammar
  import ShellCode

  /** The words and file names of a command. */
  function Spans(cmd: Cmd): set<Span> {
    match cmd
    case Exec(args) => set w | w in args
    case Redir(c, file, input) => Spans(c) + {file}
    case Pipe(l, r) => Spans(l) + Spans(r)
    case List(l, r) => Spans(l) + Spans(r)
    case Back(c) => Spans(c)
  }

  ghost predicate Words(s: string, spans: set<Span>) {
    forall w :: w in spans ==> WordAt(s, w)
  }

  ghost predicate RdWords(s: string, rds: seq<Rd>) {
    forall k :: 0 <= k < |rds| ==> WordAt(s, rds[k].file)
  }

  lemma {:induction false} WrapWords(s: string, cmd: Cmd, rds: seq<Rd>)
    requires Words(s, Spans(cmd)) && RdWords(s, rds)
    ensures Words(s, Spans(Wrap(cmd, rds)))
    decreases |rds|
  {
    if rds != [] {
      WrapWords(s, Redir(cmd, rds[0].file, rds[0].input), rds[1..]);
    }
  }

  lemma {:induction false} RedirsWords(s: string, i: nat)
    requires i <= |s| && NoNul(s) && Redirs(s, i).RdsOk?
    ensures RdWords(s, Redirs(s, i).rds)
    decreases |s| - i
  {
    hide Tok, WordAt;
    if Peek(s, i, "<>") {
      TokAfter(s, i, "<>");
      TokBounds(s, Tok(s, Skip(s, i)).next);
      RedirsWords(s, Tok(s, Tok(s, Skip(s, i)).next).next);
    }
  }

  lemma {:induction false} ArgsWords(s: string, i: nat, argc: nat)
    requires i <= |s| && NoNul(s) && Args(s, i, argc).ArgvOk?
    ensures RdWords(s, Args(s, i, argc).rds) && forall k :: 0 <= k < |Args(s, i, argc).args| ==>
            WordAt(s, Args(s, i, argc).args[k])
    decreases |s| - i
  {
    hide Tok, Redirs, Skip, WordAt;
    if !Peek(s, i, "|)&;") {
      SkipBounds(s, i);
      var t := Tok(s, Skip(s, i));
      TokBounds(s, Skip(s, i));
      if t.kind == 'a' && argc + 1 < MAXARGS {
        RedirsBounds(s, t.next);
        RedirsWords(s, t.next);
        ArgsWords(s, Redirs(s, t.next).pos, argc + 1);
      }
    }
  }

  lemma {:induction false} BacksWords(s: string, cmd: Cmd, i: nat)
    requires i <= |s| && Words(s, Spans(cmd))
    ensures Words(s, Spans(Backs(s, cmd, i).0))
    decreases |s| - i
  {
    if Peek(s, i, "&") {
      BacksWords(s, Back(cmd), Tok(s, Skip(s, i)).next);
    }
  }

  lemma {:induction false} ExecWords(s: string, i: nat)
    requires i <= |s| && NoNul(s) && ParseExec(s, i).Ok?
    ensures Words(s, Spans(ParseExec(s, i).cmd))
    decreases |s| - i, 0
  {
    hide Tok;
    if Peek(s, i, "(") {
      TokAfter(s, i, "(");
      var inner := ParseLine(s, Tok(s, Skip(s, i)).next);
      LineWords(s, Tok(s, Skip(s, i)).next);
      TokAfter(s, inner.pos, ")");
      var end := Tok(s, Skip(s, inner.pos)).next;
      RedirsWords(s, end);
      WrapWords(s, inner.cmd, Redirs(s, end).rds);
    } else {
      SkipBounds(s, i);
      var r := Redirs(s, Skip(s, i));
      RedirsWords(s, Skip(s, i));
      var a := Args(s, r.pos, 0);
      ArgsWords(s, r.pos, 0);
      WrapWords(s, Exec(a.args), r.rds + a.rds);
    }
  }

  lemma {:induction false} PipeWords(s: string, i: nat)
    requires i <= |s| && NoNul(s) && ParsePipe(s, i).Ok?
    ensures Words(s, Spans(ParsePipe(s, i).cmd))
    decreases |s| - i, 1
  {
    hide Tok, ParseExec;
    ExecWords(s, i);
    ExecEnd(s, i);
    var pos := ParseExec(s, i).pos;
    if Peek(s, pos, "|") {
      TokAfter(s, pos, "|");
      PipeWords(s, Tok(s, Skip(s, pos)).next);
    }
  }

  /** Every word and file name of a parsed command is a maximal run of word characters. */
  lemma {:induction false} LineWords(s: string, i: nat)
    requires i <= |s| && NoNul(s) && ParseLine(s, i).Ok?
    ensures Words(s, Spans(ParseLine(s, i).cmd))
    decreases |s| - i, 2
  {
    hide Tok, ParsePipe, Backs;
    PipeWords(s, i);
    PipeEnd(s, i);
    var p := ParsePipe(s, i);
    BacksWords(s, p.cmd, p.pos);
    BacksBounds(s, p.cmd, p.pos);
    var pos := Backs(s, p.cmd, p.pos).1;
    if Peek(s, pos, ";") {
      TokAfter(s, pos, ";");
      LineWords(s, Tok(s, Skip(s, pos)).next);
    }
  }

  // ---------------------------------------------------------------- cutting the text

  /** Ends of words. */
  function Ends(cmd: Cmd): set<nat> {
    set w | w in Spans(cmd) :: w.eq
  }

  /** The text with a NUL at each of these places. */
  function Cut(t: string, ends: set<nat>): (r: string)
    ensures |r| == |t| && forall k :: 0 <= k < |t| ==> r[k] == if k in ends then '\0' else t[k]
  {
    seq(|t|, k requires 0 <= k < |t| => if k in ends then '\0' else t[k])
  }

  /** nulterminate, on the buffer that holds the text and its NUL. */
  method Nulterminate(a: array<char>, cmd: Cmd)
    requires forall w :: w in Spans(cmd) ==> w.eq < a.Length
    modifies a
    ensures a[..] == Cut(old(a[..]), Ends(cmd))
    decreases cmd
  {
    match cmd
    case Exec(args) =>
      var i := 0;
      while i < |args|
        invariant i <= |args| && a[..] == Cut(old(a[..]), set w | w in args[..i] :: w.eq)
      {
        assert args[i] in Spans(cmd);
        assert args[..i + 1] == args[..i] + [args[i]];
        a[args[i].eq] := '\0';
        i := i + 1;
      }
      assert args[..i] == args;
    case Redir(c, file, input) =>
      Nulterminate(a, c);
      a[file.eq] := '\0';
    case Pipe(l, r) =>
      Nulterminate(a, l);
      Nulterminate(a, r);
    case List(l, r) =>
      Nulterminate(a, l);
      Nulterminate(a, r);
    case Back(c) =>
      Nulterminate(a, c);
  }

  /** The C string at position i. */
  function CString(t: string, i: nat): string
    decreases |t| - i
  {
    if i >= |t| || t[i] == '\0' then [] else [t[i]] + CString(t, i + 1)
  }

  /** The text in a buffer: what comes before the first NUL. */
  ghost predicate Holds(t: string, s: string) {
    |s| < |t| && t[..|s|] == s && t[|s|] == '\0' && NoNul(s)
  }

  /** After nulterminate each word and file name reads back as exactly its token: no cut falls inside another token. */
  lemma ReadsBack(t: string, s: string, cmd: Cmd, w: Span)
    requires Holds(t, s) && ParseCmd(s).Ok? && cmd == ParseCmd(s).cmd && w in Spans(cmd)
    ensures w.q < w.eq <= |s| && CString(Cut(t, Ends(cmd)), w.q) == s[w.q..w.eq]
  {
    LineWords(s, 0);
    assert WordAt(s, w);
    ReadsFrom(t, s, cmd, w, w.q);
  }

  lemma {:induction false} ReadsFrom(t: string, s: string, cmd: Cmd, w: Span, i: nat)
    requires Holds(t, s) && Words(s, Spans(cmd)) && w in Spans(cmd) && w.q <= i <= w.eq
    ensures w.eq <= |s| && CString(Cut(t, Ends(cmd)), i) == s[i..w.eq]
    decreases w.eq - i
  {
    assert WordAt(s, w);
    var cut := Cut(t, Ends(cmd));
    if i == w.eq {
      assert w.eq in Ends(cmd);
      assert cut[i] == '\0';
    } else {
      assert i !in Ends(cmd) by {
        forall x | x in Spans(cmd)
          ensures x.eq != i
        {
          assert WordAt(s, x);
        }
      }
      assert cut[i] == t[i] == t[..|s|][i] == s[i];
      ReadsFrom(t, s, cmd, w, i + 1);
    }
  }

  /** The command as runcmd sees it: each word and file name the string at its place in the buffer. */
  function StringsOf(t: string, cmd: Cmd): G.Tree {
    match cmd
    case Exec(args) => G.TExec(WordStrings(t, args))
    case Redir(c, file, input) => G.TRedir(StringsOf(t, c), CString(t, file.q), input)
    case Pipe(l, r) => G.TPipe(StringsOf(t, l), StringsOf(t, r))
    case List(l, r) => G.TList(StringsOf(t, l), StringsOf(t, r))
    case Back(c) => G.TBack(StringsOf(t, c))
  }

  function WordStrings(t: string, args: seq<Span>): seq<string> {
    if args == [] then [] else [CString(t, args[0].q)] + WordStrings(t, args[1..])
  }

  lemma {:induction false} WordStringsAre(t: string, s: string, cmd: Cmd, args: seq<Span>)
    requires Holds(t, s) && ParseCmd(s).Ok? && cmd == ParseCmd(s).cmd && forall w :: w in args ==> w in Spans(cmd)
    ensures WordStrings(Cut(t, Ends(cmd)), args) == G.Texts(s, args)
  {
    hide Cut, CString, ParseCmd, Holds, Spans;
    if args != [] {
      ReadsBack(t, s, cmd, args[0]);
      WordStringsAre(t, s, cmd, args[1..]);
    }
  }

  lemma {:induction false} StringsAre(t: string, s: string, cmd: Cmd, part: Cmd)
    requires Holds(t, s) && ParseCmd(s).Ok? && cmd == ParseCmd(s).cmd && Spans(part) <= Spans(cmd)
    ensures StringsOf(Cut(t, Ends(cmd)), part) == G.TreeOf(s, part)
    decreases part
  {
    hide Cut, CString, ParseCmd, Holds, WordStrings, G.Texts;
    match part
    case Exec(args) =>
      WordStringsAre(t, s, cmd, args);
    case Redir(c, file, input) =>
      StringsAre(t, s, cmd, c);
      ReadsBack(t, s, cmd, file);
    case Pipe(l, r) =>
      StringsAre(t, s, cmd, l);
      StringsAre(t, s, cmd, r);
    case List(l, r) =>
      StringsAre(t, s, cmd, l);
      StringsAre(t, s, cmd, r);
    case Back(c) =>
      StringsAre(t, s, cmd, c);
  }

  /** What runcmd sees after nulterminate is what the text means. */
  lemma SeesMeaning(t: string, s: string, l: G.Line)
    requires Holds(t, s) && A.Phrase(s, l)
    ensures ParseCmd(s).Ok? && StringsOf(Cut(t, Ends(ParseCmd(s).cmd)), ParseCmd(s).cmd) == G.MeanLine(l)
  {
    hide Cut, ParseCmd;
    A.Means(s, l);
    StringsAre(t, s, ParseCmd(s).cmd, ParseCmd(s).cmd);
  }

  method Strlen(a: array<char>) returns (n: nat)
    requires '\0' in a[..]
    ensures n < a.Length && Holds(a[..], a[..n])
  {
    n := 0;
    while a[n] != '\0'
      invariant n < a.Length && NoNul(a[..n]) && '\0' in a[n..]
      decreases a.Length - n
    {
      n := n + 1;
    }
  }

  /** parsecmd on the buffer: where it does not panic, every word and file name of the command has become a string
      there, and read so the command is what the text means. */
  method Parsecmd(a: array<char>) returns (ok: bool, cmd: Cmd, msg: string)
    requires '\0' in a[..]
    modifies a
    ensures exists n: nat ::
              n < a.Length && Holds(old(a[..]), old(a[..n])) &&
              (if ok then ParseCmd(old(a[..n])) == Ok(cmd, n) else ParseCmd(old(a[..n])) == Panic(msg)) &&
              (ok ==> forall w :: w in Spans(cmd) ==>
                w.q < w.eq <= n && CString(a[..], w.q) == old(a[..])[w.q..w.eq]) &&
              (ok <==> exists l :: A.Phrase(old(a[..n]), l)) &&
              forall l :: A.Phrase(old(a[..n]), l) ==> StringsOf(a[..], cmd) == G.MeanLine(l)
    ensures !ok ==> a[..] == old(a[..])
  {
    hide ParseCmd, CString, Cut, StringsOf, A.Phrase;
    var n := Strlen(a);
    ghost var t := a[..];
    var s := a[..n];
    var p := new ShellCode.Parser(s);
    ok, cmd, msg := p.Parsecmd();
    A.Accepts(s);
    if !ok {
      return;
    }
    forall l | A.Phrase(s, l)
      ensures StringsOf(Cut(t, Ends(cmd)), cmd) == G.MeanLine(l)
    {
      SeesMeaning(t, s, l);
    }
    ParsedEnd(s);
    forall w | w in Spans(cmd)
      ensures w.q < w.eq <= n && CString(Cut(t, Ends(cmd)), w.q) == t[w.q..w.eq]
    {
      ReadsBack(t, s, cmd, w);
    }
    Nulterminate(a, cmd);
  }

  lemma ParsedEnd(s: string)
    ensures ParseCmd(s).Ok? ==> ParseCmd(s).pos == |s|
  {
  }
}
