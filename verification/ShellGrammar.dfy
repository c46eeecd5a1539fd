/** The grammar of the shell's command lines, by rules on a tree and the tokens
    it is derived from, and the parser's agreement with it.

      line   ::= backs | backs ';' line
      backs  ::= pipe | backs '&'
      pipe   ::= exec | exec '|' pipe
      exec   ::= block | simple
      block  ::= '(' line ')' | block redir
      simple ::= (word | redir)*
      redir  ::= ('<' | '>' | '>>') word */
module ShellGrammar {
  import opened Shell

  // ---- simple commands

  /** A part of a simple command: an argument or a redirection. */
  datatype Item<W> = Arg(w: W) | To(op: char, file: W)

  predicate IsOp(c: char) {
    c == '<' || c == '>' || c == '+'
  }

  ghost predicate ItemsOk<W>(items: seq<Item<W>>) {
    forall i :: 0 <= i < |items| && items[i].To? ==> IsOp(items[i].op)
  }

  /** The tokens of the items, in order. */
  function Flat<W>(items: seq<Item<W>>): (ts: seq<Token<W>>) {
    if items == [] then []
    else (if items[0].Arg? then [Word(items[0].w)] else [Sym(items[0].op), Word(items[0].file)]) + Flat(items[1..])
  }

  /** The arguments among the items, in order. */
  function ArgsOf<W>(items: seq<Item<W>>): (argv: seq<W>) {
    if items == [] then []
    else (if items[0].Arg? then [items[0].w] else []) + ArgsOf(items[1..])
  }

  /** c inside the redirections among the items, the last one outermost. */
  function Wrapped<W>(c: Cmd<W>, items: seq<Item<W>>): (d: Cmd<W>)
    decreases |items|
  {
    if items == [] then c
    else if items[0].Arg? then Wrapped(c, items[1..])
    else Wrapped(Redir(c, items[0].file, Mode(items[0].op), Fd(items[0].op)), items[1..])
  }

  /** The items make up the simple command c. */
  ghost predicate Simply<W>(c: Cmd<W>, ts: seq<Token<W>>, items: seq<Item<W>>) {
    && ItemsOk(items) && ts == Flat(items) && |ArgsOf(items)| < MAXARGS
    && c == Wrapped(Exec(ArgsOf(items)), items)
  }

  ghost predicate DerivesSimple<W(!new)>(c: Cmd<W>, ts: seq<Token<W>>) {
    exists items :: Simply(c, ts, items)
  }

  // ---- the other rules

  predicate IsSym<W>(ts: seq<Token<W>>, i: int, c: char) {
    0 <= i < |ts| && ts[i] == Sym(c)
  }

  ghost predicate DerivesBlock<W(!new)>(c: Cmd<W>, ts: seq<Token<W>>)
    decreases |ts|, 0
  {
    || (|ts| >= 2 && ts[0] == Sym('(') && ts[|ts| - 1] == Sym(')') && DerivesLine(c, ts[1..|ts| - 1]))
    || (|ts| >= 2 && c.Redir? && ts[|ts| - 2].Sym? && IsOp(ts[|ts| - 2].c) && ts[|ts| - 1] == Word(c.file)
        && c.mode == Mode(ts[|ts| - 2].c) && c.fd == Fd(ts[|ts| - 2].c) && DerivesBlock(c.cmd, ts[..|ts| - 2]))
  }

  ghost predicate DerivesExec<W(!new)>(c: Cmd<W>, ts: seq<Token<W>>)
    decreases |ts|, 1
  {
    DerivesBlock(c, ts) || DerivesSimple(c, ts)
  }

  ghost predicate DerivesPipe<W(!new)>(c: Cmd<W>, ts: seq<Token<W>>)
    decreases |ts|, 2
  {
    || DerivesExec(c, ts)
    || (c.Pipe? && exists i :: IsSym(ts, i, '|') && DerivesExec(c.left, ts[..i]) && DerivesPipe(c.right, ts[i + 1..]))
  }

  ghost predicate DerivesBacks<W(!new)>(c: Cmd<W>, ts: seq<Token<W>>)
    decreases |ts|, 3
  {
    || DerivesPipe(c, ts)
    || (c.Back? && ts != [] && ts[|ts| - 1] == Sym('&') && DerivesBacks(c.cmd, ts[..|ts| - 1]))
  }

  ghost predicate DerivesLine<W(!new)>(c: Cmd<W>, ts: seq<Token<W>>)
    decreases |ts|, 4
  {
    || DerivesBacks(c, ts)
    || (c.List? && exists i :: IsSym(ts, i, ';') && DerivesBacks(c.left, ts[..i]) && DerivesLine(c.right, ts[i + 1..]))
  }

  // ---- simple commands and the parser's two loops

  /** parseredirs and then parseexec's loop. */
  function After<W>(c: Cmd<W>, ts: seq<Token<W>>): (r: Parsed<W>) {
    match Redirs(c, ts)
    case Fail => Fail
    case Ok(d, rest) => Args(d, rest)
  }

  /** The items one by one, as the loops take them. */
  function Fed<W>(c: Cmd<W>, items: seq<Item<W>>): (d: Cmd<W>)
    decreases |items|
  {
    if items == [] then c
    else if items[0].Arg? then Fed(AddArg(c, items[0].w), items[1..])
    else Fed(Redir(c, items[0].file, Mode(items[0].op), Fd(items[0].op)), items[1..])
  }

  function AddAll<W>(c: Cmd<W>, argv: seq<W>): (d: Cmd<W>)
    decreases |argv|
  {
    if argv == [] then c else AddAll(AddArg(c, argv[0]), argv[1..])
  }

  lemma {:induction false} AddAllExec<W>(done: seq<W>, argv: seq<W>)
    ensures AddAll(Exec(done), argv) == Exec(done + argv)
    decreases |argv|
  {
    if argv == [] {
      assert done + argv == done;
    } else {
      AddAllExec(done + [argv[0]], argv[1..]);
      assert done + [argv[0]] + argv[1..] == done + argv;
    }
  }

  lemma {:induction false} AddAllRedir<W>(c: Cmd<W>, file: W, mode: int, fd: int, argv: seq<W>)
    ensures AddAll(Redir(c, file, mode, fd), argv) == Redir(AddAll(c, argv), file, mode, fd)
    decreases |argv|
  {
    if argv != [] {
      AddAllRedir(AddArg(c, argv[0]), file, mode, fd, argv[1..]);
    }
  }

  /** The order of arguments among redirections does not matter. */
  lemma {:induction false} FedWrapped<W>(c: Cmd<W>, items: seq<Item<W>>)
    ensures Fed(c, items) == Wrapped(AddAll(c, ArgsOf(items)), items)
    decreases |items|
  {
    if items != [] {
      var it, rest := items[0], items[1..];
      if it.Arg? {
        FedWrapped(AddArg(c, it.w), rest);
        assert ArgsOf(items)[1..] == ArgsOf(rest);
      } else {
        FedWrapped(Redir(c, it.file, Mode(it.op), Fd(it.op)), rest);
        AddAllRedir(c, it.file, Mode(it.op), Fd(it.op), ArgsOf(rest));
        assert ArgsOf(items) == ArgsOf(rest);
      }
    }
  }

  lemma {:induction false} ArgcAdd<W>(c: Cmd<W>, w: W)
    requires Simple(c)
    ensures Simple(AddArg(c, w)) && Argc(AddArg(c, w)) == Argc(c) + 1
  {
    if c.Redir? {
      ArgcAdd(c.cmd, w);
    }
  }

  lemma AfterArg<W>(c: Cmd<W>, w: W, ts: seq<Token<W>>)
    ensures After(c, [Word(w)] + ts) == if Argc(AddArg(c, w)) >= MAXARGS then Fail else After(AddArg(c, w), ts)
  {
    assert ([Word(w)] + ts)[1..] == ts;
  }

  lemma AfterTo<W>(c: Cmd<W>, op: char, file: W, ts: seq<Token<W>>)
    requires IsOp(op)
    ensures After(c, [Sym(op), Word(file)] + ts) == After(Redir(c, file, Mode(op), Fd(op)), ts)
  {
    assert ([Sym(op), Word(file)] + ts)[2..] == ts;
  }

  /** The loops read the items and stop at the tokens that end a command. */
  lemma {:induction false} SimpleComplete<W>(c: Cmd<W>, items: seq<Item<W>>, rest: seq<Token<W>>)
    requires Simple(c) && ItemsOk(items) && Argc(c) + |ArgsOf(items)| < MAXARGS && ArgsEnd(rest)
    ensures After(c, Flat(items) + rest) == Ok(Fed(c, items), rest)
    decreases |items|
  {
    if items == [] {
      assert Flat(items) + rest == rest;
    } else {
      var it, more := items[0], Flat(items[1..]) + rest;
      if it.Arg? {
        Assoc([Word(it.w)], Flat(items[1..]), rest);
        AfterArg(c, it.w, more);
        ArgcAdd(c, it.w);
        SimpleComplete(AddArg(c, it.w), items[1..], rest);
      } else {
        Assoc([Sym(it.op), Word(it.file)], Flat(items[1..]), rest);
        AfterTo(c, it.op, it.file, more);
        SimpleComplete(Redir(c, it.file, Mode(it.op), Fd(it.op)), items[1..], rest);
      }
    }
  }

  /** One item more at the front. */
  lemma ItemsCons<W>(c: Cmd<W>, d: Cmd<W>, it: Item<W>, items: seq<Item<W>>, us: seq<Token<W>>, rest: seq<Token<W>>)
    requires us == Flat(items) + rest && (it.To? ==> IsOp(it.op)) && ItemsOk(items)
    requires d == if it.Arg? then AddArg(c, it.w) else Redir(c, it.file, Mode(it.op), Fd(it.op))
    ensures ItemsOk([it] + items) && Fed(c, [it] + items) == Fed(d, items)
    ensures |ArgsOf([it] + items)| == |ArgsOf(items)| + if it.Arg? then 1 else 0
    ensures Flat([it] + items) + rest == (if it.Arg? then [Word(it.w)] else [Sym(it.op), Word(it.file)]) + us
  {
    assert ([it] + items)[1..] == items;
    Assoc(if it.Arg? then [Word(it.w)] else [Sym(it.op), Word(it.file)], Flat(items), rest);
  }

  /** What the loops accept are items. */
  lemma {:induction false} SimpleSound<W>(c: Cmd<W>, ts: seq<Token<W>>) returns (items: seq<Item<W>>)
    requires Simple(c) && Argc(c) < MAXARGS && After(c, ts).Ok?
    ensures ItemsOk(items) && Argc(c) + |ArgsOf(items)| < MAXARGS
    ensures ts == Flat(items) + After(c, ts).rest && After(c, ts).cmd == Fed(c, items)
    decreases |ts|
  {
    if NextRedir(ts) {
      var op, file := ts[0].c, ts[1].w;
      var d := Redir(c, file, Mode(op), Fd(op));
      assert ts == [Sym(op), Word(file)] + ts[2..];
      AfterTo(c, op, file, ts[2..]);
      items := SimpleSound(d, ts[2..]);
      ItemsCons(c, d, To(op, file), items, ts[2..], After(c, ts).rest);
      items := [To(op, file)] + items;
    } else if ArgsEnd(ts) {
      items := [];
      assert Flat(items) + ts == ts;
    } else {
      var w := ts[0].w;
      assert ts == [Word(w)] + ts[1..];
      AfterArg(c, w, ts[1..]);
      ArgcAdd(c, w);
      items := SimpleSound(AddArg(c, w), ts[1..]);
      ItemsCons(c, AddArg(c, w), Arg(w), items, ts[1..], After(c, ts).rest);
      items := [Arg(w)] + items;
    }
  }

  // ---- every derived line is parsed

  lemma FlatNoParen<W>(items: seq<Item<W>>, rest: seq<Token<W>>)
    requires ItemsOk(items) && ArgsEnd(rest)
    ensures !Next(Flat(items) + rest, '(')
  {
    if items == [] {
      assert Flat(items) + rest == rest;
    }
  }

  lemma SimpleParsed<W(!new)>(c: Cmd<W>, ts: seq<Token<W>>, rest: seq<Token<W>>)
    requires DerivesSimple(c, ts) && ArgsEnd(rest)
    ensures ParseExec(ts + rest) == Ok(c, rest)
  {
    var items :| Simply(c, ts, items);
    FlatNoParen(items, rest);
    SimpleComplete(Exec([]), items, rest);
    FedWrapped(Exec([]), items);
    AddAllExec([], ArgsOf(items));
    assert [] + ArgsOf(items) == ArgsOf(items);
  }

  lemma RedirsNext<W>(c: Cmd<W>, op: char, file: W, ts: seq<Token<W>>)
    requires IsOp(op)
    ensures Redirs(c, [Sym(op), Word(file)] + ts) == Redirs(Redir(c, file, Mode(op), Fd(op)), ts)
  {
    assert ([Sym(op), Word(file)] + ts)[2..] == ts;
  }

  lemma Unparenthesised<W>(ts: seq<Token<W>>, rest: seq<Token<W>>, more: seq<Token<W>>)
    requires |ts| > 1 && ts[|ts| - 1] == Sym(')') && more == [Sym(')')] + rest
    ensures (ts + rest)[1..] == ts[1..|ts| - 1] + more && more[1..] == rest
  {}

  lemma BlockJoin<W>(c: Cmd<W>, ts: seq<Token<W>>, rest: seq<Token<W>>, more: seq<Token<W>>)
    requires Next(ts, '(') && ParseLine(ts[1..]) == Ok(c, more) && Next(more, ')') && more[1..] == rest
    ensures ParseExec(ts) == Redirs(c, rest)
  {}

  lemma {:induction false} BlockParsed<W(!new)>(c: Cmd<W>, ts: seq<Token<W>>, rest: seq<Token<W>>)
    requires DerivesBlock(c, ts)
    ensures ParseExec(ts + rest) == Redirs(c, rest)
    decreases |ts|, 0
  {
    var n := |ts|;
    if ts[0] == Sym('(') && ts[n - 1] == Sym(')') && DerivesLine(c, ts[1..n - 1]) {
      var more := [Sym(')')] + rest;
      LineParsed(c, ts[1..n - 1], more);
      Unparenthesised(ts, rest, more);
      BlockJoin(c, ts + rest, rest, more);
    } else {
      var more := [ts[n - 2], ts[n - 1]] + rest;
      BlockParsed(c.cmd, ts[..n - 2], more);
      assert ts + rest == ts[..n - 2] + more;
      RedirsNext(c.cmd, ts[n - 2].c, c.file, rest);
    }
  }

  lemma {:induction false} ExecParsed<W(!new)>(c: Cmd<W>, ts: seq<Token<W>>, rest: seq<Token<W>>)
    requires DerivesExec(c, ts) && ArgsEnd(rest)
    ensures ParseExec(ts + rest) == Ok(c, rest)
    decreases |ts|, 1
  {
    if DerivesBlock(c, ts) {
      BlockParsed(c, ts, rest);
    } else {
      SimpleParsed(c, ts, rest);
    }
  }

  lemma SplitAt<W>(ts: seq<Token<W>>, i: int, c: char, rest: seq<Token<W>>)
    requires IsSym(ts, i, c)
    ensures var us := ts[i + 1..] + rest; ts + rest == ts[..i] + ([Sym(c)] + us) && ([Sym(c)] + us)[1..] == us
  {}

  lemma PipeStop<W>(c: Cmd<W>, ts: seq<Token<W>>, rest: seq<Token<W>>)
    requires ParseExec(ts) == Ok(c, rest) && !Next(rest, '|')
    ensures ParsePipe(ts) == Ok(c, rest)
  {}

  lemma PipeJoin<W>(l: Cmd<W>, r: Cmd<W>, ts: seq<Token<W>>, us: seq<Token<W>>, rest: seq<Token<W>>)
    requires ParseExec(ts) == Ok(l, [Sym('|')] + us) && ParsePipe(us) == Ok(r, rest)
    ensures ParsePipe(ts) == Ok(Pipe(l, r), rest)
  {
    assert ([Sym('|')] + us)[1..] == us;
  }

  lemma {:induction false} PipeParsed<W(!new)>(c: Cmd<W>, ts: seq<Token<W>>, rest: seq<Token<W>>)
    requires DerivesPipe(c, ts) && ArgsEnd(rest) && !Next(rest, '|')
    ensures ParsePipe(ts + rest) == Ok(c, rest)
    decreases |ts|, 2
  {
    if DerivesExec(c, ts) {
      ExecParsed(c, ts, rest);
      PipeStop(c, ts + rest, rest);
    } else {
      var i :| IsSym(ts, i, '|') && DerivesExec(c.left, ts[..i]) && DerivesPipe(c.right, ts[i + 1..]);
      var us := ts[i + 1..] + rest;
      SplitAt(ts, i, '|', rest);
      ExecParsed(c.left, ts[..i], [Sym('|')] + us);
      PipeParsed(c.right, ts[i + 1..], rest);
      PipeJoin(c.left, c.right, ts + rest, us, rest);
    }
  }

  lemma BacksNext<W>(c: Cmd<W>, rest: seq<Token<W>>, more: seq<Token<W>>)
    requires more == [Sym('&')] + rest
    ensures Backs(c, more) == Backs(Back(c), rest)
  {
    assert more[1..] == rest;
  }

  lemma {:induction false} BacksParsed<W(!new)>(c: Cmd<W>, ts: seq<Token<W>>, rest: seq<Token<W>>)
    requires DerivesBacks(c, ts) && ArgsEnd(rest) && !Next(rest, '|')
    ensures var r := ParsePipe(ts + rest); r.Ok? && Backs(r.cmd, r.rest) == Backs(c, rest)
    decreases |ts|, 3
  {
    if DerivesPipe(c, ts) {
      PipeParsed(c, ts, rest);
    } else {
      var more := [Sym('&')] + rest;
      BacksParsed(c.cmd, ts[..|ts| - 1], more);
      assert ts + rest == ts[..|ts| - 1] + more;
      BacksNext(c.cmd, rest, more);
    }
  }

  lemma BacksStop<W>(c: Cmd<W>, rest: seq<Token<W>>)
    requires !Next(rest, '&')
    ensures Backs(c, rest) == Ok(c, rest)
  {}

  lemma LineStop<W>(c: Cmd<W>, ts: seq<Token<W>>, rest: seq<Token<W>>)
    requires Closed(rest)
    requires var r := ParsePipe(ts); r.Ok? && Backs(r.cmd, r.rest) == Backs(c, rest)
    ensures ParseLine(ts) == Ok(c, rest)
  {
    BacksStop(c, rest);
  }

  lemma LineJoin<W>(l: Cmd<W>, r: Cmd<W>, ts: seq<Token<W>>, us: seq<Token<W>>, rest: seq<Token<W>>)
    requires var p := ParsePipe(ts); p.Ok? && Backs(p.cmd, p.rest) == Ok(l, [Sym(';')] + us)
    requires ParseLine(us) == Ok(r, rest)
    ensures ParseLine(ts) == Ok(List(l, r), rest)
  {
    assert ([Sym(';')] + us)[1..] == us;
  }

  /** A derived line parses to its tree, up to the end or a closing parenthesis. */
  lemma {:induction false} LineParsed<W(!new)>(c: Cmd<W>, ts: seq<Token<W>>, rest: seq<Token<W>>)
    requires DerivesLine(c, ts) && Closed(rest)
    ensures ParseLine(ts + rest) == Ok(c, rest)
    decreases |ts|, 4
  {
    if DerivesBacks(c, ts) {
      BacksParsed(c, ts, rest);
      LineStop(c, ts + rest, rest);
    } else {
      var i :| IsSym(ts, i, ';') && DerivesBacks(c.left, ts[..i]) && DerivesLine(c.right, ts[i + 1..]);
      var us := ts[i + 1..] + rest;
      SplitAt(ts, i, ';', rest);
      BacksParsed(c.left, ts[..i], [Sym(';')] + us);
      BacksStop(c.left, [Sym(';')] + us);
      LineParsed(c.right, ts[i + 1..], rest);
      LineJoin(c.left, c.right, ts + rest, us, rest);
    }
  }

  // ---- every parsed line is derived

  lemma {:induction false} RedirsDerived<W(!new)>(c: Cmd<W>, used: seq<Token<W>>, ts: seq<Token<W>>)
    returns (more: seq<Token<W>>)
    requires DerivesBlock(c, used) && Redirs(c, ts).Ok?
    ensures ts == more + Redirs(c, ts).rest && DerivesBlock(Redirs(c, ts).cmd, used + more)
    decreases |ts|
  {
    if NextRedir(ts) {
      var d := Redir(c, ts[1].w, Mode(ts[0].c), Fd(ts[0].c));
      var now := used + [ts[0], ts[1]];
      assert now[..|now| - 2] == used;
      var tail := RedirsDerived(d, now, ts[2..]);
      more := [ts[0], ts[1]] + tail;
      Assoc(used, [ts[0], ts[1]], tail);
      Assoc([ts[0], ts[1]], tail, Redirs(c, ts).rest);
      assert ts == [ts[0], ts[1]] + ts[2..];
    } else {
      more := [];
      assert used + more == used && ts == more + ts;
    }
  }

  lemma {:induction false} ExecDerived<W(!new)>(ts: seq<Token<W>>) returns (used: seq<Token<W>>)
    requires ParseExec(ts).Ok?
    ensures ts == used + ParseExec(ts).rest && DerivesExec(ParseExec(ts).cmd, used)
    decreases |ts|, 1
  {
    if Next(ts, '(') {
      var inner := LineDerived(ts[1..]);
      var r := ParseLine<W>(ts[1..]);
      var block := [Sym('(')] + inner + [Sym(')')];
      assert block[1..|block| - 1] == inner;
      var more := RedirsDerived(r.cmd, block, r.rest[1..]);
      used := block + more;
      BlockTokens(ts, inner, r.rest, more, ParseExec(ts).rest);
    } else {
      var items := SimpleSound(Exec([]), ts);
      FedWrapped(Exec([]), items);
      AddAllExec([], ArgsOf(items));
      assert [] + ArgsOf(items) == ArgsOf(items);
      used := Flat(items);
      assert Simply(ParseExec(ts).cmd, used, items);
    }
  }

  lemma BlockTokens<W>(
    ts: seq<Token<W>>, inner: seq<Token<W>>, after: seq<Token<W>>, more: seq<Token<W>>, rest: seq<Token<W>>)
    requires Next(ts, '(') && ts[1..] == inner + after && Next(after, ')') && after[1..] == more + rest
    ensures ts == [Sym('(')] + inner + [Sym(')')] + more + rest
  {
    assert ts == [Sym('(')] + ts[1..] && after == [Sym(')')] + after[1..];
  }

  lemma {:induction false} PipeDerived<W(!new)>(ts: seq<Token<W>>) returns (used: seq<Token<W>>)
    requires ParsePipe(ts).Ok?
    ensures ts == used + ParsePipe(ts).rest && DerivesPipe(ParsePipe(ts).cmd, used)
    decreases |ts|, 2
  {
    used := ExecDerived(ts);
    var r := ParseExec<W>(ts);
    if Next(r.rest, '|') {
      var left := used;
      var right := PipeDerived(r.rest[1..]);
      used := left + [Sym('|')] + right;
      Joined(ts, left, '|', r.rest, right, ParsePipe(ts).rest);
      assert IsSym(used, |left|, '|');
    }
  }

  lemma Joined<W>(
    ts: seq<Token<W>>, left: seq<Token<W>>, c: char, after: seq<Token<W>>, right: seq<Token<W>>, rest: seq<Token<W>>)
    requires ts == left + after && Next(after, c) && after[1..] == right + rest
    ensures ts == left + [Sym(c)] + right + rest
    ensures (left + [Sym(c)] + right)[..|left|] == left && (left + [Sym(c)] + right)[|left| + 1..] == right
  {
    assert after == [Sym(c)] + after[1..];
  }

  lemma {:induction false} BacksDerived<W(!new)>(c: Cmd<W>, used: seq<Token<W>>, ts: seq<Token<W>>)
    returns (more: seq<Token<W>>)
    requires DerivesBacks(c, used)
    ensures ts == more + Backs(c, ts).rest && DerivesBacks(Backs(c, ts).cmd, used + more)
    decreases |ts|
  {
    if Next(ts, '&') {
      var now := used + [Sym('&')];
      assert now[..|now| - 1] == used;
      var tail := BacksDerived(Back(c), now, ts[1..]);
      more := [Sym('&')] + tail;
      Assoc(used, [Sym('&')], tail);
      Assoc([Sym('&')], tail, Backs(c, ts).rest);
      assert ts == [Sym('&')] + ts[1..];
    } else {
      more := [];
      assert used + more == used && ts == more + ts;
    }
  }

  /** What the parser took off the front is a line with the tree it returns. */
  lemma {:induction false} LineDerived<W(!new)>(ts: seq<Token<W>>) returns (used: seq<Token<W>>)
    requires ParseLine(ts).Ok?
    ensures ts == used + ParseLine(ts).rest && DerivesLine(ParseLine(ts).cmd, used)
    decreases |ts|, 3
  {
    var pipe := PipeDerived(ts);
    var r := ParsePipe<W>(ts);
    var more := BacksDerived(r.cmd, pipe, r.rest);
    used := pipe + more;
    var b := Backs(r.cmd, r.rest);
    Assoc(pipe, more, b.rest);
    if Next(b.rest, ';') {
      var left := used;
      var right := LineDerived(b.rest[1..]);
      used := left + [Sym(';')] + right;
      Joined(ts, left, ';', b.rest, right, ParseLine(ts).rest);
      assert IsSym(used, |left|, ';');
    }
  }

  // ---- the parser is the grammar

  /** For every token sequence: the parser accepts it with tree c if and only if
      the grammar derives c from it. */
  lemma ParserIsGrammar<W(!new)>(c: Cmd<W>, ts: seq<Token<W>>)
    ensures ParseCmd(ts) == Ok(c, []) <==> DerivesLine(c, ts)
  {
    assert ts + [] == ts;
    if DerivesLine(c, ts) {
      LineParsed(c, ts, []);
    }
    if ParseCmd(ts) == Ok(c, []) {
      var used := LineDerived(ts);
      assert used + [] == used;
    }
  }

  /** A line has at most one tree. */
  lemma Unambiguous<W(!new)>(c: Cmd<W>, d: Cmd<W>, ts: seq<Token<W>>)
    requires DerivesLine(c, ts) && DerivesLine(d, ts)
    ensures c == d
  {
    ParserIsGrammar(c, ts);
    ParserIsGrammar(d, ts);
  }

  /** A syntax error means that there is no tree. */
  lemma RefusedUnderived<W(!new)>(c: Cmd<W>, ts: seq<Token<W>>)
    requires ParseCmd(ts).Fail?
    ensures !DerivesLine(c, ts)
  {
    ParserIsGrammar(c, ts);
  }
}
