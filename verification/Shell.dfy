/** The command language of user/sh.c: tokens, the recursive-descent parser on
    tokens, and the round trip from trees to text and back. */
module Shell {
  const MAXARGS := 10

  // ---- tokens

  /** '+' stands for ">>". */
  datatype Token<W> = Word(w: W) | Sym(c: char)

  /** A word of the text, from start up to end: the pointers q and eq. */
  datatype Span = Span(start: int, end: int)

  predicate IsSpace(c: char) {
    c == ' ' || c == '\t' || c == '\r' || c == '\n' || c == '\U{000B}'
  }

  predicate IsSymbol(c: char) {
    c == '<' || c == '|' || c == '>' || c == '&' || c == ';' || c == '(' || c == ')'
  }

  function Skip(s: string, i: int): (j: int)
    requires 0 <= i <= |s|
    ensures i <= j <= |s| && (j < |s| ==> !IsSpace(s[j]))
    ensures forall k :: i <= k < j ==> IsSpace(s[k])
    decreases |s| - i
  {
    if i < |s| && IsSpace(s[i]) then Skip(s, i + 1) else i
  }

  function WordEnd(s: string, i: int): (j: int)
    requires 0 <= i <= |s|
    ensures i <= j <= |s| && (j < |s| ==> IsSpace(s[j]) || IsSymbol(s[j]))
    ensures forall k :: i <= k < j ==> !IsSpace(s[k]) && !IsSymbol(s[k])
    decreases |s| - i
  {
    if i < |s| && !IsSpace(s[i]) && !IsSymbol(s[i]) then WordEnd(s, i + 1) else i
  }

  /** The end of the token that starts at i. */
  function TokenEnd(s: string, i: int): (j: int)
    requires 0 <= i < |s| && !IsSpace(s[i])
    ensures i < j <= |s|
  {
    if !IsSymbol(s[i]) then WordEnd(s, i)
    else if s[i] == '>' && i + 1 < |s| && s[i + 1] == '>' then i + 2
    else i + 1
  }

  function TokenAt(s: string, i: int): (t: Token<Span>)
    requires 0 <= i < |s| && !IsSpace(s[i])
  {
    if !IsSymbol(s[i]) then Word(Span(i, TokenEnd(s, i)))
    else Sym(if TokenEnd(s, i) == i + 2 then '+' else s[i])
  }

  function Tokens(s: string, i: int): (ts: seq<Token<Span>>)
    requires 0 <= i <= |s|
    decreases |s| - i
  {
    var j := Skip(s, i);
    if j == |s| then [] else [TokenAt(s, j)] + Tokens(s, TokenEnd(s, j))
  }

  lemma TokensSkip(s: string, i: int)
    requires 0 <= i <= |s|
    ensures Tokens(s, Skip(s, i)) == Tokens(s, i)
  {
    assert Skip(s, Skip(s, i)) == Skip(s, i);
  }

  // ---- the parser

  datatype Cmd<W> =
    | Exec(argv: seq<W>)
    | Redir(cmd: Cmd<W>, file: W, mode: int, fd: int)
    | Pipe(left: Cmd<W>, right: Cmd<W>)
    | List(left: Cmd<W>, right: Cmd<W>)
    | Back(cmd: Cmd<W>)

  datatype Parsed<W> = Ok(cmd: Cmd<W>, rest: seq<Token<W>>) | Fail

  /** The open modes of the three redirections: O_RDONLY, O_WRONLY | O_CREATE | O_TRUNC, O_WRONLY | O_CREATE. */
  function Mode(c: char): (m: int) {
    if c == '<' then 0 else if c == '>' then 0x601 else 0x201
  }

  function Fd(c: char): (fd: int) {
    if c == '<' then 0 else 1
  }

  predicate Next<W>(ts: seq<Token<W>>, c: char) {
    ts != [] && ts[0] == Sym(c)
  }

  predicate NextRedir<W>(ts: seq<Token<W>>) {
    Next(ts, '<') || Next(ts, '>') || Next(ts, '+')
  }

  /** parseredirs: every redirection wraps what is there already. */
  function Redirs<W>(c: Cmd<W>, ts: seq<Token<W>>): (r: Parsed<W>)
    ensures r.Ok? ==> |r.rest| <= |ts| && !NextRedir(r.rest)
    decreases |ts|
  {
    if !NextRedir(ts) then Ok(c, ts)
    else if |ts| == 1 || !ts[1].Word? then Fail
    else Redirs(Redir(c, ts[1].w, Mode(ts[0].c), Fd(ts[0].c)), ts[2..])
  }

  /** The tokens that end a simple command. */
  predicate ArgsEnd<W>(ts: seq<Token<W>>) {
    ts == [] || Next(ts, '|') || Next(ts, ')') || Next(ts, '&') || Next(ts, ';')
  }

  /** cmd->argv[argc++] = w, where redirections already wrap cmd. */
  function AddArg<W>(c: Cmd<W>, w: W): (r: Cmd<W>) {
    match c
    case Exec(argv) => Exec(argv + [w])
    case Redir(d, file, mode, fd) => Redir(AddArg(d, w), file, mode, fd)
    case _ => c
  }

  function Argc<W>(c: Cmd<W>): (n: int) {
    match c
    case Exec(argv) => |argv|
    case Redir(d, _, _, _) => Argc(d)
    case _ => 0
  }

  /** parseexec's loop. */
  function Args<W>(c: Cmd<W>, ts: seq<Token<W>>): (r: Parsed<W>)
    ensures r.Ok? ==> |r.rest| <= |ts| && ArgsEnd(r.rest)
    decreases |ts|
  {
    if ArgsEnd(ts) then Ok(c, ts)
    else if !ts[0].Word? then Fail
    else if Argc(AddArg(c, ts[0].w)) >= MAXARGS then Fail
    else
      match Redirs(AddArg(c, ts[0].w), ts[1..])
      case Fail => Fail
      case Ok(d, rest) => Args(d, rest)
  }

  function ParseExec<W>(ts: seq<Token<W>>): (r: Parsed<W>)
    ensures r.Ok? ==> |r.rest| <= |ts|
    decreases |ts|, 1
  {
    if Next(ts, '(') then ParseBlock(ts)
    else
      match Redirs(Exec([]), ts)
      case Fail => Fail
      case Ok(c, rest) => Args(c, rest)
  }

  function ParseBlock<W>(ts: seq<Token<W>>): (r: Parsed<W>)
    requires Next(ts, '(')
    ensures r.Ok? ==> |r.rest| <= |ts|
    decreases |ts|, 0
  {
    match ParseLine(ts[1..])
    case Fail => Fail
    case Ok(c, rest) => if !Next(rest, ')') then Fail else Redirs(c, rest[1..])
  }

  function ParsePipe<W>(ts: seq<Token<W>>): (r: Parsed<W>)
    ensures r.Ok? ==> |r.rest| <= |ts|
    decreases |ts|, 2
  {
    match ParseExec(ts)
    case Fail => Fail
    case Ok(c, rest) =>
      if !Next(rest, '|') then Ok(c, rest)
      else
        match ParsePipe(rest[1..])
        case Fail => Fail
        case Ok(d, rest2) => Ok(Pipe(c, d), rest2)
  }

  /** parseline's loop. */
  function Backs<W>(c: Cmd<W>, ts: seq<Token<W>>): (r: Parsed<W>)
    ensures r.Ok? && |r.rest| <= |ts| && !Next(r.rest, '&')
    decreases |ts|
  {
    if Next(ts, '&') then Backs(Back(c), ts[1..]) else Ok(c, ts)
  }

  function ParseLine<W>(ts: seq<Token<W>>): (r: Parsed<W>)
    ensures r.Ok? ==> |r.rest| <= |ts|
    decreases |ts|, 3
  {
    match ParsePipe(ts)
    case Fail => Fail
    case Ok(c, rest) =>
      var b := Backs(c, rest);
      if !Next(b.rest, ';') then b
      else
        match ParseLine(b.rest[1..])
        case Fail => Fail
        case Ok(d, rest2) => Ok(List(b.cmd, d), rest2)
  }

  /** parsecmd, up to nulterminate. */
  function ParseCmd<W>(ts: seq<Token<W>>): (r: Parsed<W>) {
    match ParseLine(ts)
    case Fail => Fail
    case Ok(c, rest) => if rest == [] then Ok(c, []) else Fail
  }

  // ---- from trees to tokens and back

  function Paren<W>(ts: seq<Token<W>>): (r: seq<Token<W>>) {
    [Sym('(')] + ts + [Sym(')')]
  }

  function Words<W>(argv: seq<W>): (ts: seq<Token<W>>)
    ensures |ts| == |argv| && forall i :: 0 <= i < |argv| ==> ts[i] == Word(argv[i])
  {
    if argv == [] then [] else [Word(argv[0])] + Words(argv[1..])
  }

  function Op(mode: int): (c: char) {
    if mode == 0 then '<' else if mode == 0x601 then '>' else '+'
  }

  /** The canonical rendering: every part in parentheses. */
  function Render<W>(c: Cmd<W>): (ts: seq<Token<W>>) {
    match c
    case Exec(argv) => Words(argv)
    case Redir(d, file, mode, _) => Paren(Render(d)) + [Sym(Op(mode)), Word(file)]
    case Pipe(l, r) => Paren(Render(l)) + [Sym('|')] + Paren(Render(r))
    case List(l, r) => Paren(Render(l)) + [Sym(';')] + Paren(Render(r))
    case Back(d) => Paren(Render(d)) + [Sym('&')]
  }

  /** The trees the shell can have. */
  predicate WellFormed<W>(c: Cmd<W>) {
    match c
    case Exec(argv) => |argv| < MAXARGS
    case Redir(d, _, mode, fd) => WellFormed(d) && mode == Mode(Op(mode)) && fd == Fd(Op(mode))
    case Pipe(l, r) => WellFormed(l) && WellFormed(r)
    case List(l, r) => WellFormed(l) && WellFormed(r)
    case Back(d) => WellFormed(d)
  }

  lemma ArgsStep<W>(argv: seq<W>, w: W, ts: seq<Token<W>>)
    requires |argv| + 1 < MAXARGS && !NextRedir(ts)
    ensures Args(Exec(argv), [Word(w)] + ts) == Args(Exec(argv + [w]), ts)
  {
    assert ([Word(w)] + ts)[1..] == ts;
  }

  lemma Assoc<T>(a: seq<T>, b: seq<T>, c: seq<T>)
    ensures a + b + c == a + (b + c)
  {}

  lemma {:induction false} WordsStep<W>(done: seq<W>, argv: seq<W>, rest: seq<Token<W>>)
    requires argv != []
    ensures Words(argv) + rest == [Word(argv[0])] + (Words(argv[1..]) + rest)
    ensures done + [argv[0]] + argv[1..] == done + argv
    ensures ArgsEnd(rest) ==> !NextRedir(Words(argv[1..]) + rest)
  {
    Assoc([Word(argv[0])], Words(argv[1..]), rest);
    Assoc(done, [argv[0]], argv[1..]);
    assert [argv[0]] + argv[1..] == argv;
    if |argv| == 1 {
      assert Words(argv[1..]) + rest == rest;
    }
  }

  lemma {:induction false} ArgsTrip<W>(done: seq<W>, argv: seq<W>, rest: seq<Token<W>>)
    requires |done| + |argv| < MAXARGS && ArgsEnd(rest)
    ensures Args(Exec(done), Words(argv) + rest) == Ok(Exec(done + argv), rest)
    decreases |argv|
  {
    if argv == [] {
      assert Words(argv) + rest == rest && done + argv == done;
    } else {
      WordsStep(done, argv, rest);
      ArgsStep(done, argv[0], Words(argv[1..]) + rest);
      ArgsTrip(done + [argv[0]], argv[1..], rest);
    }
  }

  predicate Closed<W>(rest: seq<Token<W>>) {
    rest == [] || Next(rest, ')')
  }

  lemma ExecTrip<W>(argv: seq<W>, rest: seq<Token<W>>)
    requires |argv| < MAXARGS && ArgsEnd(rest)
    ensures ParseExec(Words(argv) + rest) == Ok(Exec(argv), rest)
  {
    var ts := Words(argv) + rest;
    assert argv != [] ==> ts[0] == Word(argv[0]);
    assert Redirs(Exec([]), ts) == Ok(Exec([]), ts);
    ArgsTrip([], argv, rest);
    assert [] + argv == argv;
  }

  /** A command in parentheses, then its redirections. */
  lemma {:induction false} BlockTrip<W>(c: Cmd<W>, rest: seq<Token<W>>)
    requires WellFormed(c)
    ensures ParseExec(Paren(Render(c)) + rest) == Redirs(c, rest)
    decreases c, 1
  {
    var ts := Paren(Render(c)) + rest;
    var more := [Sym(')')] + rest;
    assert ts[0] == Sym('(') && ts[1..] == Render(c) + more;
    LineTrip(c, more);
    assert more[1..] == rest;
  }

  lemma LastTrip<W>(c: Cmd<W>, ts: seq<Token<W>>, rest: seq<Token<W>>)
    requires ParseExec(ts) == Ok(c, rest) && Closed(rest)
    ensures ParsePipe(ts) == Ok(c, rest) && ParseLine(ts) == Ok(c, rest)
  {}

  lemma PipeTrip<W>(l: Cmd<W>, r: Cmd<W>, rest: seq<Token<W>>)
    requires Closed(rest) && ParseExec(Paren(Render(r)) + rest) == Redirs(r, rest)
    requires var us := [Sym('|')] + (Paren(Render(r)) + rest); ParseExec(Paren(Render(l)) + us) == Redirs(l, us)
    ensures ParseLine(Render(Pipe(l, r)) + rest) == Ok(Pipe(l, r), rest)
  {
    var us := Paren(Render(r)) + rest;
    var more := [Sym('|')] + us;
    var ts := Render(Pipe(l, r)) + rest;
    Assoc(Paren(Render(l)) + [more[0]], Paren(Render(r)), rest);
    Assoc(Paren(Render(l)), [more[0]], us);
    assert ts == Paren(Render(l)) + more;
    LastTrip(r, us, rest);
    assert more[1..] == us;
    assert ParsePipe(ts) == Ok(Pipe(l, r), rest);
  }

  lemma ListTrip<W>(l: Cmd<W>, r: Cmd<W>, rest: seq<Token<W>>)
    requires Closed(rest) && ParseExec(Paren(Render(r)) + rest) == Redirs(r, rest)
    requires var us := [Sym(';')] + (Paren(Render(r)) + rest); ParseExec(Paren(Render(l)) + us) == Redirs(l, us)
    ensures ParseLine(Render(List(l, r)) + rest) == Ok(List(l, r), rest)
  {
    var us := Paren(Render(r)) + rest;
    var more := [Sym(';')] + us;
    var ts := Render(List(l, r)) + rest;
    Assoc(Paren(Render(l)) + [more[0]], Paren(Render(r)), rest);
    Assoc(Paren(Render(l)), [more[0]], us);
    assert ts == Paren(Render(l)) + more;
    LastTrip(r, us, rest);
    assert more[1..] == us;
    assert ParsePipe(ts) == Ok(l, more) && Backs(l, more) == Ok(l, more);
  }

  lemma BackTrip<W>(c: Cmd<W>, rest: seq<Token<W>>)
    requires Closed(rest)
    requires var more := [Sym('&')] + rest; ParseExec(Paren(Render(c)) + more) == Redirs(c, more)
    ensures ParseLine(Render(Back(c)) + rest) == Ok(Back(c), rest)
  {
    var more := [Sym('&')] + rest;
    var ts := Render(Back(c)) + rest;
    assert ts == Paren(Render(c)) + more;
    assert more[1..] == rest;
    assert ParsePipe(ts) == Ok(c, more) && Backs(c, more) == Backs(Back(c), rest);
  }

  /** Parsing a rendering gives the tree back. */
  lemma {:induction false} LineTrip<W>(c: Cmd<W>, rest: seq<Token<W>>)
    requires WellFormed(c) && Closed(rest)
    ensures ParseLine(Render(c) + rest) == Ok(c, rest)
    decreases c, 0
  {
    match c
    case Exec(argv) =>
      ExecTrip(argv, rest);
      LastTrip(c, Render(c) + rest, rest);
    case Redir(d, file, mode, fd) =>
      RedirTrip(d, file, mode, fd, rest);
    case Pipe(l, r) =>
      BlockTrip(l, [Sym('|')] + (Paren(Render(r)) + rest));
      BlockTrip(r, rest);
      PipeTrip(l, r, rest);
    case List(l, r) =>
      BlockTrip(l, [Sym(';')] + (Paren(Render(r)) + rest));
      BlockTrip(r, rest);
      ListTrip(l, r, rest);
    case Back(d) =>
      BlockTrip(d, [Sym('&')] + rest);
      BackTrip(d, rest);
  }

  lemma {:induction false} RedirTrip<W>(d: Cmd<W>, file: W, mode: int, fd: int, rest: seq<Token<W>>)
    requires WellFormed(d) && mode == Mode(Op(mode)) && fd == Fd(Op(mode)) && Closed(rest)
    ensures ParseLine(Render(Redir(d, file, mode, fd)) + rest) == Ok(Redir(d, file, mode, fd), rest)
    decreases d, 2
  {
    var c := Redir(d, file, mode, fd);
    var more := [Sym(Op(mode)), Word(file)] + rest;
    BlockTrip(d, more);
    assert Render(c) + rest == Paren(Render(d)) + more;
    assert more[2..] == rest;
    assert Redirs(d, more) == Redirs(c, rest) == Ok(c, rest);
    LastTrip(c, Render(c) + rest, rest);
  }

  // ---- nothing is lost or made up

  predicate IsParen<W>(t: Token<W>) {
    t == Sym('(') || t == Sym(')')
  }

  ghost function One<W>(u: Token<W>, t: Token<W>): (n: int) {
    if u == t then 1 else 0
  }

  /** How often t occurs in ts. */
  ghost function Count<W>(ts: seq<Token<W>>, t: Token<W>): (n: int) {
    if ts == [] then 0 else Count(ts[1..], t) + One(ts[0], t)
  }

  /** How often t occurs among the tokens that a tree stands for. */
  ghost function Parts<W>(c: Cmd<W>, t: Token<W>): (n: int) {
    match c
    case Exec(argv) => Count(Words(argv), t)
    case Redir(d, file, mode, _) => Parts(d, t) + One(Sym(Op(mode)), t) + One(Word(file), t)
    case Pipe(l, r) => Parts(l, t) + One(Sym('|'), t) + Parts(r, t)
    case List(l, r) => Parts(l, t) + One(Sym(';'), t) + Parts(r, t)
    case Back(d) => Parts(d, t) + One(Sym('&'), t)
  }

  /** A command with its redirections around it. */
  predicate Simple<W>(c: Cmd<W>) {
    c.Exec? || (c.Redir? && Simple(c.cmd))
  }

  lemma {:induction false} WordsAppend<W>(argv: seq<W>, w: W, t: Token<W>)
    ensures Count(Words(argv + [w]), t) == Count(Words(argv), t) + One(Word(w), t)
  {
    var more := argv + [w];
    assert Words(more) == [Word(more[0])] + Words(more[1..]);
    assert Words(more)[1..] == Words(more[1..]);
    if argv == [] {
      assert more[1..] == [];
    } else {
      WordsAppend(argv[1..], w, t);
      assert more[1..] == argv[1..] + [w] && Words(argv)[1..] == Words(argv[1..]);
    }
  }

  lemma {:induction false} AddArgParts<W>(c: Cmd<W>, w: W, t: Token<W>)
    requires Simple(c)
    ensures Simple(AddArg(c, w)) && Parts(AddArg(c, w), t) == Parts(c, t) + One(Word(w), t)
  {
    match c
    case Exec(argv) => WordsAppend(argv, w, t);
    case Redir(d, _, _, _) => AddArgParts(d, w, t);
  }

  /** Of n tokens t known before and those in ts, all are in the result or left over. */
  ghost predicate Accounts<W>(n: int, ts: seq<Token<W>>, r: Parsed<W>, t: Token<W>) {
    r.Ok? ==> n + Count(ts, t) == Parts(r.cmd, t) + Count(r.rest, t)
  }

  lemma {:induction false} RedirsParts<W>(c: Cmd<W>, ts: seq<Token<W>>, t: Token<W>)
    ensures Accounts(Parts(c, t), ts, Redirs(c, ts), t)
    ensures Redirs(c, ts).Ok? && Simple(c) ==> Simple(Redirs(c, ts).cmd)
    decreases |ts|
  {
    if NextRedir(ts) && |ts| > 1 && ts[1].Word? {
      RedirsParts(Redir(c, ts[1].w, Mode(ts[0].c), Fd(ts[0].c)), ts[2..], t);
      assert ts[1..][1..] == ts[2..];
    }
  }

  lemma {:induction false} ArgsParts<W>(c: Cmd<W>, ts: seq<Token<W>>, t: Token<W>)
    requires Simple(c)
    ensures Accounts(Parts(c, t), ts, Args(c, ts), t)
    decreases |ts|
  {
    if !ArgsEnd(ts) && ts[0].Word? {
      var d := AddArg(c, ts[0].w);
      AddArgParts(c, ts[0].w, t);
      RedirsParts(d, ts[1..], t);
      var r := Redirs(d, ts[1..]);
      if r.Ok? {
        ArgsParts(r.cmd, r.rest, t);
      }
    }
  }

  lemma {:induction false} BacksParts<W>(c: Cmd<W>, ts: seq<Token<W>>, t: Token<W>)
    ensures Accounts(Parts(c, t), ts, Backs(c, ts), t)
    decreases |ts|
  {
    if Next(ts, '&') {
      BacksParts(Back(c), ts[1..], t);
    }
  }

  lemma {:induction false} ExecParts<W>(ts: seq<Token<W>>, t: Token<W>)
    requires !IsParen(t)
    ensures Accounts(0, ts, ParseExec(ts), t)
    decreases |ts|, 1
  {
    if Next(ts, '(') {
      LineParts(ts[1..], t);
      var r := ParseLine<W>(ts[1..]);
      if r.Ok? && Next(r.rest, ')') {
        RedirsParts(r.cmd, r.rest[1..], t);
      }
    } else {
      RedirsParts(Exec([]), ts, t);
      var r: Parsed<W> := Redirs(Exec([]), ts);
      if r.Ok? {
        ArgsParts(r.cmd, r.rest, t);
      }
    }
  }

  lemma {:induction false} PipeParts<W>(ts: seq<Token<W>>, t: Token<W>)
    requires !IsParen(t)
    ensures Accounts(0, ts, ParsePipe(ts), t)
    decreases |ts|, 2
  {
    ExecParts(ts, t);
    var r := ParseExec<W>(ts);
    if r.Ok? && Next(r.rest, '|') {
      PipeParts(r.rest[1..], t);
    }
  }

  /** The tree has exactly the tokens that the parser used up, parentheses aside. */
  lemma {:induction false} LineParts<W>(ts: seq<Token<W>>, t: Token<W>)
    requires !IsParen(t)
    ensures Accounts(0, ts, ParseLine(ts), t)
    decreases |ts|, 3
  {
    PipeParts(ts, t);
    var r := ParsePipe<W>(ts);
    if r.Ok? {
      BacksParts(r.cmd, r.rest, t);
      var b := Backs(r.cmd, r.rest);
      if Next(b.rest, ';') {
        LineParts(b.rest[1..], t);
      }
    }
  }
}
