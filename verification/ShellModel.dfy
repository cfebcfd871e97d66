/** The command language of sh.c: tokens and the recursive-descent grammar as functions of the text and a position. */
module ShellModel {
  const MAXARGS: nat := 10

  predicate Blank(c: char) {
    c == ' ' || c == '\t' || c == '\r' || c == '\n' || c == 11 as char
  }

  predicate Symbol(c: char) {
    c == '<' || c == '|' || c == '>' || c == '&' || c == ';' || c == '(' || c == ')'
  }

  predicate WordChar(c: char) {
    !Blank(c) && !Symbol(c)
  }

  /** The character at i; the text ends with a NUL. */
  function At(s: string, i: nat): char {
    if i < |s| then s[i] else '\0'
  }

  function Skip(s: string, i: nat): (j: nat)
    ensures i <= j && (i <= |s| ==> j <= |s|) && !(j < |s| && Blank(s[j])) && forall k :: i <= k < j ==> Blank(At(s, k))
    decreases |s| - i
  {
    if i < |s| && Blank(s[i]) then Skip(s, i + 1) else i
  }

  function WordEnd(s: string, i: nat): (j: nat)
    ensures i <= j && (i <= |s| ==> j <= |s|) && !(j < |s| && WordChar(s[j])) && forall k :: i <= k < j ==>
            k < |s| && WordChar(s[k])
    decreases |s| - i
  {
    if i < |s| && WordChar(s[i]) then WordEnd(s, i + 1) else i
  }

  /** A stretch of the text. */
  datatype Span = Span(q: nat, eq: nat)

  datatype Token = Token(kind: char, at: Span, next: nat)

  /** gettoken: the kind is NUL at the end, 'a' for a word, '+' for >>, else the symbol itself. */
  function Tok(s: string, i: nat): (t: Token)
    ensures i <= |s| ==> i <= t.at.q <= t.at.eq <= t.next <= |s|
    ensures i <= |s| && t.kind != '\0' ==> i < t.next
    ensures t.kind == 'a' && i <= |s| && NoNul(s) ==> WordAt(s, t.at)
  {
    var q := Skip(s, i);
    var c := At(s, q);
    var kind := if c == '>' && At(s, q + 1) == '>' then '+' else if c == '\0' || Symbol(c) then c else 'a';
    var eq := if c == '\0' then q else if kind == '+' then q + 2 else if kind == 'a' then WordEnd(s, q) else q + 1;
    Token(kind, Span(q, eq), Skip(s, eq))
  }

  predicate NoNul(s: string) {
    forall k :: 0 <= k < |s| ==> s[k] != '\0'
  }

  /** A maximal run of word characters. */
  predicate WordAt(s: string, w: Span) {
    w.q < w.eq <= |s| && (forall k :: w.q <= k < w.eq ==> WordChar(s[k])) && (w.eq < |s| ==> !WordChar(s[w.eq]))
  }

  /** peek: does the next token start with one of these characters? */
  predicate Peek(s: string, i: nat, toks: string) {
    At(s, Skip(s, i)) != '\0' && At(s, Skip(s, i)) in toks
  }

  /** A parsed command; words and file names are places in the text. */
  datatype Cmd =
    | Exec(args: seq<Span>)
    | Redir(cmd: Cmd, file: Span, input: bool)
    | Pipe(left: Cmd, right: Cmd)
    | List(left: Cmd, right: Cmd)
    | Back(cmd: Cmd)

  datatype Result = Ok(cmd: Cmd, pos: nat) | Panic(msg: string)

  datatype Rd = Rd(file: Span, input: bool)

  /** The command with redirections wrapped around it, the first innermost. */
  function Wrap(cmd: Cmd, rds: seq<Rd>): Cmd
    decreases |rds|
  {
    if rds == [] then cmd else Wrap(Redir(cmd, rds[0].file, rds[0].input), rds[1..])
  }

  datatype Rds = RdsOk(rds: seq<Rd>, pos: nat) | RdsPanic(msg: string)

  /** The redirections parseredirs finds; > and >> are alike. */
  function Redirs(s: string, i: nat): (r: Rds)
    requires i <= |s|
    ensures r.RdsOk? ==> i <= r.pos <= |s|
    decreases |s| - i
  {
    if Peek(s, i, "<>") then
      var t := Tok(s, Skip(s, i));
      var f := Tok(s, t.next);
      if f.kind != 'a' then RdsPanic("missing file for redirection")
      else
        match Redirs(s, f.next)
        case RdsPanic(msg) => RdsPanic(msg)
        case RdsOk(rds, pos) => RdsOk([Rd(f.at, t.kind == '<')] + rds, pos)
    else RdsOk([], Skip(s, i))
  }

  datatype Argv = ArgvOk(args: seq<Span>, rds: seq<Rd>, pos: nat) | ArgvPanic(msg: string)

  /** The words of parseexec from the argc-th on, with the redirections between them. */
  function Args(s: string, i: nat, argc: nat): (r: Argv)
    requires i <= |s|
    ensures r.ArgvOk? ==> i <= r.pos <= |s|
    decreases |s| - i
  {
    if Peek(s, i, "|)&;") then ArgvOk([], [], Skip(s, i))
    else
      var t := Tok(s, Skip(s, i));
      if t.kind == '\0' then ArgvOk([], [], t.next)
      else if t.kind != 'a' then ArgvPanic("syntax")
      else if argc + 1 >= MAXARGS then ArgvPanic("too many args")
      else
        match Redirs(s, t.next)
        case RdsPanic(msg) => ArgvPanic(msg)
        case RdsOk(rds, pos) =>
          match Args(s, pos, argc + 1)
          case ArgvPanic(msg) => ArgvPanic(msg)
          case ArgvOk(args, more, end) => ArgvOk([t.at] + args, rds + more, end)
  }

  function Redirected(s: string, cmd: Cmd, i: nat): (r: Result)
    requires i <= |s|
    ensures r.Ok? ==> i <= r.pos <= |s|
  {
    match Redirs(s, i)
    case RdsPanic(msg) => Panic(msg)
    case RdsOk(rds, pos) => Ok(Wrap(cmd, rds), pos)
  }

  /** parseexec, and parseblock for a command in parentheses */
  function ParseExec(s: string, i: nat): (r: Result)
    requires i <= |s|
    ensures r.Ok? ==> i <= r.pos <= |s|
    decreases |s| - i, 0
  {
    if Peek(s, i, "(") then
      match ParseLine(s, Tok(s, Skip(s, i)).next)
      case Panic(msg) => Panic(msg)
      case Ok(cmd, pos) => if Peek(s, pos, ")") then Redirected(s, cmd, Tok(s, Skip(s, pos)).next)
        else Panic("syntax - missing )")
    else
      match Redirs(s, Skip(s, i))
      case RdsPanic(msg) => Panic(msg)
      case RdsOk(rds, pos) =>
        match Args(s, pos, 0)
        case ArgvPanic(msg) => Panic(msg)
        case ArgvOk(args, more, end) => Ok(Wrap(Exec(args), rds + more), end)
  }

  function ParsePipe(s: string, i: nat): (r: Result)
    requires i <= |s|
    ensures r.Ok? ==> i <= r.pos <= |s|
    decreases |s| - i, 1
  {
    match ParseExec(s, i)
    case Panic(msg) => Panic(msg)
    case Ok(cmd, pos) =>
      if Peek(s, pos, "|") then
        match ParsePipe(s, Tok(s, Skip(s, pos)).next)
        case Panic(msg) => Panic(msg)
        case Ok(right, end) => Ok(Pipe(cmd, right), end)
      else Ok(cmd, Skip(s, pos))
  }

  /** The & signs after a pipeline. */
  function Backs(s: string, cmd: Cmd, i: nat): (r: (Cmd, nat))
    requires i <= |s|
    ensures i <= r.1 <= |s|
    decreases |s| - i
  {
    if Peek(s, i, "&") then Backs(s, Back(cmd), Tok(s, Skip(s, i)).next) else (cmd, Skip(s, i))
  }

  function ParseLine(s: string, i: nat): (r: Result)
    requires i <= |s|
    ensures r.Ok? ==> i <= r.pos <= |s|
    decreases |s| - i, 2
  {
    match ParsePipe(s, i)
    case Panic(msg) => Panic(msg)
    case Ok(cmd, pos) =>
      var (cmd', pos') := Backs(s, cmd, pos);
      if Peek(s, pos', ";") then
        match ParseLine(s, Tok(s, Skip(s, pos')).next)
        case Panic(msg) => Panic(msg)
        case Ok(right, end) => Ok(List(cmd', right), end)
      else Ok(cmd', Skip(s, pos'))
  }

  /** parsecmd before nulterminate */
  function ParseCmd(s: string): Result {
    match ParseLine(s, 0)
    case Panic(msg) => Panic(msg)
    case Ok(cmd, pos) => if Skip(s, pos) == |s| then Ok(cmd, |s|) else Panic("syntax")
  }

  // ---------------------------------------------------------------- how far each of these gets

  lemma SkipBounds(s: string, i: nat)
    requires i <= |s|
    ensures i <= Skip(s, i) <= |s| && Skip(s, Skip(s, i)) == Skip(s, i)
  {
  }

  lemma TokBounds(s: string, i: nat)
    requires i <= |s|
    ensures i <= Tok(s, i).next <= |s| && (Tok(s, i).kind != '\0' ==> i < Tok(s, i).next) &&
            (NoNul(s) && Tok(s, i).kind == 'a' ==> WordAt(s, Tok(s, i).at))
    ensures forall toks :: Peek(s, i, toks) ==> Tok(s, i).kind != '\0'
  {
  }

  lemma TokAfter(s: string, i: nat, toks: string)
    requires i <= |s| && Peek(s, i, toks)
    ensures i < Tok(s, Skip(s, i)).next <= |s|
  {
  }

  lemma RedirsBounds(s: string, i: nat)
    requires i <= |s|
    ensures Redirs(s, i).RdsOk? ==> i <= Redirs(s, i).pos <= |s|
  {
  }

  lemma BacksBounds(s: string, cmd: Cmd, i: nat)
    requires i <= |s|
    ensures i <= Backs(s, cmd, i).1 <= |s| && i <= Skip(s, i) <= |s|
  {
  }

  lemma ExecEnd(s: string, i: nat)
    requires i <= |s|
    ensures ParseExec(s, i).Ok? ==> i <= ParseExec(s, i).pos <= |s|
  {
  }

  lemma PipeEnd(s: string, i: nat)
    requires i <= |s|
    ensures ParsePipe(s, i).Ok? ==> i <= ParsePipe(s, i).pos <= |s|
  {
  }

  lemma LineEnd(s: string, i: nat)
    requires i <= |s|
    ensures ParseLine(s, i).Ok? ==> i <= ParseLine(s, i).pos <= |s|
  {
  }
}
