/** From text to words and back: the lexer undoes the rendering of a tree as
    text, and after nulterminate every word reads back as its token. */
module ShellText {
  import opened Shell

  // ---- trees with their words as strings

  function WordOf(s: string, w: Span): (t: string) {
    if 0 <= w.start <= w.end <= |s| then s[w.start..w.end] else ""
  }

  function StringToken(s: string, t: Token<Span>): (u: Token<string>) {
    match t
    case Word(w) => Word(WordOf(s, w))
    case Sym(c) => Sym(c)
  }

  function Strings(s: string, ts: seq<Token<Span>>): (us: seq<Token<string>>)
    ensures |us| == |ts| && forall i :: 0 <= i < |ts| ==> us[i] == StringToken(s, ts[i])
  {
    if ts == [] then [] else [StringToken(s, ts[0])] + Strings(s, ts[1..])
  }

  function Argv(s: string, argv: seq<Span>): (r: seq<string>)
    ensures |r| == |argv| && forall i :: 0 <= i < |argv| ==> r[i] == WordOf(s, argv[i])
  {
    if argv == [] then [] else [WordOf(s, argv[0])] + Argv(s, argv[1..])
  }

  function Spelled(s: string, c: Cmd<Span>): (d: Cmd<string>) {
    match c
    case Exec(argv) => Exec(Argv(s, argv))
    case Redir(d, file, mode, fd) => Redir(Spelled(s, d), WordOf(s, file), mode, fd)
    case Pipe(l, r) => Pipe(Spelled(s, l), Spelled(s, r))
    case List(l, r) => List(Spelled(s, l), Spelled(s, r))
    case Back(d) => Back(Spelled(s, d))
  }

  function SpelledResult(s: string, r: Parsed<Span>): (q: Parsed<string>) {
    match r
    case Ok(c, rest) => Ok(Spelled(s, c), Strings(s, rest))
    case Fail => Fail
  }

  lemma StringsTail(s: string, ts: seq<Token<Span>>, k: nat)
    requires k <= |ts|
    ensures Strings(s, ts)[k..] == Strings(s, ts[k..])
  {}

  lemma NextSame(s: string, ts: seq<Token<Span>>, c: char)
    ensures Next(Strings(s, ts), c) == Next(ts, c)
  {
    assert ts != [] ==> Strings(s, ts)[0] == StringToken(s, ts[0]);
  }

  lemma {:induction false} AddArgSpelled(s: string, c: Cmd<Span>, w: Span)
    ensures Spelled(s, AddArg(c, w)) == AddArg(Spelled(s, c), WordOf(s, w))
    ensures Argc(Spelled(s, c)) == Argc(c)
  {
    match c
    case Exec(argv) => assert Argv(s, argv + [w]) == Argv(s, argv) + [WordOf(s, w)];
    case Redir(d, _, _, _) => AddArgSpelled(s, d, w);
    case _ =>
  }

  /** The parser never looks into the words. */
  lemma {:induction false} RedirsSpelled(s: string, c: Cmd<Span>, ts: seq<Token<Span>>)
    ensures Redirs(Spelled(s, c), Strings(s, ts)) == SpelledResult(s, Redirs(c, ts))
    decreases |ts|
  {
    NextSame(s, ts, '<');
    NextSame(s, ts, '>');
    NextSame(s, ts, '+');
    if NextRedir(ts) && |ts| > 1 && ts[1].Word? {
      RedirsSpelled(s, Redir(c, ts[1].w, Mode(ts[0].c), Fd(ts[0].c)), ts[2..]);
      StringsTail(s, ts, 2);
    }
  }

  lemma EndSame(s: string, ts: seq<Token<Span>>)
    ensures ArgsEnd(Strings(s, ts)) == ArgsEnd(ts)
  {
    NextSame(s, ts, '|');
    NextSame(s, ts, ')');
    NextSame(s, ts, '&');
    NextSame(s, ts, ';');
  }

  lemma {:induction false} ArgsSpelled(s: string, c: Cmd<Span>, ts: seq<Token<Span>>)
    ensures Args(Spelled(s, c), Strings(s, ts)) == SpelledResult(s, Args(c, ts))
    decreases |ts|
  {
    EndSame(s, ts);
    if !ArgsEnd(ts) && ts[0].Word? {
      var d := AddArg(c, ts[0].w);
      AddArgSpelled(s, c, ts[0].w);
      AddArgSpelled(s, d, ts[0].w);
      StringsTail(s, ts, 1);
      RedirsSpelled(s, d, ts[1..]);
      var r := Redirs(d, ts[1..]);
      if r.Ok? {
        ArgsSpelled(s, r.cmd, r.rest);
      }
    }
  }

  lemma {:induction false} BacksSpelled(s: string, c: Cmd<Span>, ts: seq<Token<Span>>)
    ensures Backs(Spelled(s, c), Strings(s, ts)) == SpelledResult(s, Backs(c, ts))
    decreases |ts|
  {
    NextSame(s, ts, '&');
    if Next(ts, '&') {
      StringsTail(s, ts, 1);
      BacksSpelled(s, Back(c), ts[1..]);
    }
  }

  lemma {:induction false} ExecSpelled(s: string, ts: seq<Token<Span>>)
    ensures ParseExec(Strings(s, ts)) == SpelledResult(s, ParseExec(ts))
    decreases |ts|, 1
  {
    NextSame(s, ts, '(');
    if Next(ts, '(') {
      StringsTail(s, ts, 1);
      LineSpelled(s, ts[1..]);
      var r := ParseLine(ts[1..]);
      if r.Ok? {
        NextSame(s, r.rest, ')');
        if Next(r.rest, ')') {
          StringsTail(s, r.rest, 1);
          RedirsSpelled(s, r.cmd, r.rest[1..]);
        }
      }
    } else {
      RedirsSpelled(s, Exec([]), ts);
      var r: Parsed<Span> := Redirs(Exec([]), ts);
      if r.Ok? {
        ArgsSpelled(s, r.cmd, r.rest);
      }
    }
  }

  lemma {:induction false} PipeSpelled(s: string, ts: seq<Token<Span>>)
    ensures ParsePipe(Strings(s, ts)) == SpelledResult(s, ParsePipe(ts))
    decreases |ts|, 2
  {
    ExecSpelled(s, ts);
    var r := ParseExec(ts);
    if r.Ok? {
      NextSame(s, r.rest, '|');
      if Next(r.rest, '|') {
        StringsTail(s, r.rest, 1);
        PipeSpelled(s, r.rest[1..]);
      }
    }
  }

  lemma {:induction false} LineSpelled(s: string, ts: seq<Token<Span>>)
    ensures ParseLine(Strings(s, ts)) == SpelledResult(s, ParseLine(ts))
    decreases |ts|, 3
  {
    PipeSpelled(s, ts);
    var r := ParsePipe(ts);
    if r.Ok? {
      BacksSpelled(s, r.cmd, r.rest);
      var b := Backs(r.cmd, r.rest);
      NextSame(s, b.rest, ';');
      if Next(b.rest, ';') {
        StringsTail(s, b.rest, 1);
        LineSpelled(s, b.rest[1..]);
      }
    }
  }

  // ---- from trees to text and back

  predicate WordOk(w: string) {
    w != "" && forall k :: 0 <= k < |w| ==> !IsSpace(w[k]) && !IsSymbol(w[k])
  }

  predicate TokenOk(t: Token<string>) {
    if t.Word? then WordOk(t.w) else t.c == '+' || IsSymbol(t.c)
  }

  function TokenText(t: Token<string>): (w: string)
    requires TokenOk(t)
    ensures w != "" && !IsSpace(w[0])
  {
    match t
    case Word(w) => w
    case Sym(c) => if c == '+' then ">>" else [c]
  }

  ghost predicate TokensOk(ts: seq<Token<string>>) {
    forall i :: 0 <= i < |ts| ==> TokenOk(ts[i])
  }

  /** The tokens as text, a blank after each. */
  function Text(ts: seq<Token<string>>): (s: string)
    requires forall i :: 0 <= i < |ts| ==> TokenOk(ts[i])
  {
    if ts == [] then "" else TokenText(ts[0]) + " " + Text(ts[1..])
  }

  lemma {:induction false} WordEndIs(s: string, i: int, j: int)
    requires 0 <= i <= j <= |s| && (j < |s| ==> IsSpace(s[j]) || IsSymbol(s[j]))
    requires forall k :: i <= k < j ==> !IsSpace(s[k]) && !IsSymbol(s[k])
    ensures WordEnd(s, i) == j
    decreases j - i
  {
    if i < j {
      WordEndIs(s, i + 1, j);
    }
  }

  /** The lexer finds the token t that a blank follows. */
  lemma LexOne(s: string, i: int, t: Token<string>, w: string)
    requires TokenOk(t) && w == TokenText(t) && 0 <= i && i + |w| < |s| && s[i..i + |w|] == w && s[i + |w|] == ' '
    ensures !IsSpace(s[i]) && TokenEnd(s, i) == i + |w| && StringToken(s, TokenAt(s, i)) == t
  {
    assert forall k :: 0 <= k < |w| ==> s[i + k] == s[i..i + |w|][k] == w[k];
    if t.Word? {
      forall k | i <= k < i + |w| ensures !IsSpace(s[k]) && !IsSymbol(s[k]) {
        assert s[i + (k - i)] == w[k - i];
      }
      WordEndIs(s, i, i + |w|);
    } else {
      assert s[i + 0] == w[0] && (|w| > 1 ==> s[i + 1] == w[1]);
    }
  }

  lemma TextStep(s: string, i: nat, w: string, rest: string)
    requires i <= |s| && s[i..] == w + " " + rest
    ensures i + |w| < |s| && s[i..i + |w|] == w && s[i + |w|] == ' ' && s[i + |w| + 1..] == rest
  {
    var t := s[i..];
    assert t[..|w|] == w && t[|w|] == ' ' && t[|w| + 1..] == rest;
  }

  /** us are the tokens ts. */
  ghost predicate Spells(s: string, us: seq<Token<Span>>, ts: seq<Token<string>>) {
    |us| == |ts| && forall k :: 0 <= k < |ts| ==> StringToken(s, us[k]) == ts[k]
  }

  lemma SpellsCons(s: string, i: int, j: int, us: seq<Token<Span>>, t: Token<string>, ts: seq<Token<string>>)
    requires 0 <= i < |s| && !IsSpace(s[i]) && j == TokenEnd(s, i) + 1 <= |s| && s[j - 1] == ' '
    requires StringToken(s, TokenAt(s, i)) == t && us == Tokens(s, j) && Spells(s, us, ts)
    ensures Spells(s, Tokens(s, i), [t] + ts)
  {
    assert Skip(s, i) == i && Skip(s, j - 1) == Skip(s, j);
    assert Tokens(s, j - 1) == Tokens(s, j);
    assert Tokens(s, i) == [TokenAt(s, i)] + Tokens(s, j - 1);
  }

  /** The lexer undoes Text. */
  lemma {:induction false} LexTrip(s: string, i: nat, ts: seq<Token<string>>)
    requires TokensOk(ts) && i <= |s| && s[i..] == Text(ts)
    ensures Spells(s, Tokens(s, i), ts)
    decreases |ts|
  {
    if ts == [] {
      assert i == |s|;
    } else {
      var w, rest := TokenText(ts[0]), ts[1..];
      TextStep(s, i, w, Text(rest));
      var j := i + |w| + 1;
      var us := Tokens(s, j);
      LexTrip(s, j, rest);
      LexOne(s, i, ts[0], w);
      SpellsCons(s, i, j, us, ts[0], rest);
      assert [ts[0]] + rest == ts;
    }
  }

  predicate WordsOk(c: Cmd<string>) {
    match c
    case Exec(argv) => forall i :: 0 <= i < |argv| ==> WordOk(argv[i])
    case Redir(d, file, _, _) => WordsOk(d) && WordOk(file)
    case Pipe(l, r) => WordsOk(l) && WordsOk(r)
    case List(l, r) => WordsOk(l) && WordsOk(r)
    case Back(d) => WordsOk(d)
  }

  lemma {:induction false} RenderOk(c: Cmd<string>)
    requires WordsOk(c)
    ensures TokensOk(Render(c))
  {
    match c
    case Exec(_) =>
    case Redir(d, _, _, _) => RenderOk(d);
    case Pipe(l, r) =>
      RenderOk(l);
      RenderOk(r);
    case List(l, r) =>
      RenderOk(l);
      RenderOk(r);
    case Back(d) => RenderOk(d);
  }

  /** Parsing the text of any tree gives a tree whose words spell it. */
  lemma TextTrip(c: Cmd<string>)
    requires WellFormed(c) && WordsOk(c)
    ensures TokensOk(Render(c))
    ensures var s := Text(Render(c)); var r := ParseCmd(Tokens(s, 0)); r.Ok? && Spelled(s, r.cmd) == c
  {
    RenderOk(c);
    var s := Text(Render(c));
    LexTrip(s, 0, Render(c));
    var ts := Tokens(s, 0);
    LineSpelled(s, ts);
    assert Render(c) + [] == Render(c);
    LineTrip(c, []);
    assert Strings(s, ts) == Render(c);
  }

  // ---- nulterminate

  /** The words of a tree. */
  function Spans(c: Cmd<Span>): (ws: set<Span>) {
    match c
    case Exec(argv) => set w | w in argv
    case Redir(d, file, _, _) => Spans(d) + {file}
    case Pipe(l, r) => Spans(l) + Spans(r)
    case List(l, r) => Spans(l) + Spans(r)
    case Back(d) => Spans(d)
  }

  predicate EndsAt(ws: set<Span>, i: int) {
    exists w :: w in ws && w.end == i
  }

  /** *eargv[i] = 0 and *efile = 0, over the whole tree. */
  method Nulterminate(c: Cmd<Span>, buf: array<char>)
    requires forall w :: w in Spans(c) ==> 0 <= w.end < buf.Length
    modifies buf
    ensures forall i :: 0 <= i < buf.Length ==> buf[i] == if EndsAt(Spans(c), i) then '\0' else old(buf[i])
    decreases c
  {
    match c
    case Exec(argv) =>
      for i := 0 to |argv|
        invariant forall k :: 0 <= k < buf.Length ==>
          buf[k] == if exists j :: 0 <= j < i && argv[j].end == k then '\0' else old(buf[k])
      {
        assert argv[i] in Spans(c);
        buf[argv[i].end] := '\0';
      }
      assert forall k :: EndsAt(Spans(c), k) <==> exists j :: 0 <= j < |argv| && argv[j].end == k;
    case Redir(d, file, _, _) =>
      Nulterminate(d, buf);
      buf[file.end] := '\0';
    case Pipe(l, r) =>
      Nulterminate(l, buf);
      Nulterminate(r, buf);
    case List(l, r) =>
      Nulterminate(l, buf);
      Nulterminate(r, buf);
    case Back(d) =>
      Nulterminate(d, buf);
  }

  /** The C string that starts at i. */
  function CString(b: seq<char>, i: int): (w: string)
    requires 0 <= i
    decreases |b| - i
  {
    if i < |b| && b[i] != '\0' then [b[i]] + CString(b, i + 1) else []
  }

  lemma {:induction false} CStringIs(b: seq<char>, i: int, j: int)
    requires 0 <= i <= j < |b| && b[j] == '\0' && forall k :: i <= k < j ==> b[k] != '\0'
    ensures CString(b, i) == b[i..j]
    decreases j - i
  {
    if i < j {
      CStringIs(b, i + 1, j);
      assert b[i..j] == [b[i]] + b[i + 1..j];
    }
  }

  /** A word token covers neither blanks nor symbols, and one of these, or the end of the text, follows it. */
  predicate IsWordSpan(s: string, w: Span) {
    && 0 <= w.start < w.end <= |s| && (w.end < |s| ==> IsSpace(s[w.end]) || IsSymbol(s[w.end]))
    && forall k :: w.start <= k < w.end ==> !IsSpace(s[k]) && !IsSymbol(s[k])
  }

  lemma {:induction false} TokenSpans(s: string, i: int, w: Span)
    requires 0 <= i <= |s| && Count(Tokens(s, i), Word(w)) > 0
    ensures IsWordSpan(s, w)
    decreases |s| - i
  {
    var j := Skip(s, i);
    if j < |s| {
      var ts := Tokens(s, TokenEnd(s, j));
      assert ([TokenAt(s, j)] + ts)[1..] == ts;
      if TokenAt(s, j) != Word(w) {
        TokenSpans(s, TokenEnd(s, j), w);
      }
    }
  }

  lemma {:induction false} CountPositive(ts: seq<Token<Span>>, t: Token<Span>)
    ensures Count(ts, t) >= 0 && (t in ts ==> Count(ts, t) > 0)
  {
    if ts != [] {
      CountPositive(ts[1..], t);
    }
  }

  lemma {:induction false} SpanParts(c: Cmd<Span>, w: Span)
    ensures Parts(c, Word(w)) >= 0 && (w in Spans(c) ==> Parts(c, Word(w)) > 0)
  {
    match c
    case Exec(argv) =>
      CountPositive(Words(argv), Word(w));
      if w in argv {
        var i :| 0 <= i < |argv| && argv[i] == w;
        assert Words(argv)[i] == Word(w);
      }
    case Redir(d, _, _, _) => SpanParts(d, w);
    case Pipe(l, r) =>
      SpanParts(l, w);
      SpanParts(r, w);
    case List(l, r) =>
      SpanParts(l, w);
      SpanParts(r, w);
    case Back(d) => SpanParts(d, w);
  }

  /** The words of a parsed tree are words of the text. */
  lemma ParsedSpans(s: string, w: Span)
    requires var r := ParseCmd(Tokens(s, 0)); r.Ok? && w in Spans(r.cmd)
    ensures IsWordSpan(s, w)
  {
    var ts := Tokens(s, 0);
    LineParts(ts, Word(w));
    SpanParts(ParseLine(ts).cmd, w);
    CountPositive(ParseLine(ts).rest, Word(w));
    TokenSpans(s, 0, w);
  }

  /** After nulterminate, every word and file name reads back as its token. */
  lemma WordsReadBack(s: string, b: seq<char>, w: Span)
    requires (forall k :: 0 <= k < |s| ==> s[k] != '\0') && |b| == |s| + 1
    requires ParseCmd(Tokens(s, 0)).Ok? && w in Spans(ParseCmd(Tokens(s, 0)).cmd)
    requires forall i :: 0 <= i < |b| ==>
      b[i] == if EndsAt(Spans(ParseCmd(Tokens(s, 0)).cmd), i) then '\0' else (s + "\0")[i]
    ensures 0 <= w.start < w.end <= |s| && CString(b, w.start) == s[w.start..w.end]
  {
    var ws := Spans(ParseCmd(Tokens(s, 0)).cmd);
    ParsedSpans(s, w);
    assert EndsAt(ws, w.end);
    forall k | w.start <= k < w.end ensures b[k] == s[k] {
      forall v | v in ws ensures v.end != k {
        ParsedSpans(s, v);
      }
    }
    CStringIs(b, w.start, w.end);
    assert b[w.start..w.end] == s[w.start..w.end];
  }
}
