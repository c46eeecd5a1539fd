/** The tokens of user/sh.c's gettoken, declared without a cursor: how a text
    divides into blanks and tokens, each as long as it can be. */
module ShellLexer {
  import opened Shell

  /** Where a token is, from start up to end. */
  datatype Piece = Piece(start: int, end: int)

  predicate Blank(c: char) {
    c in " \t\r\n\U{000B}"
  }

  predicate Symbol(c: char) {
    c in "<|>&;()"
  }

  lemma SameChars(c: char)
    ensures IsSpace(c) <==> Blank(c)
    ensures IsSymbol(c) <==> Symbol(c)
  {
    var b, s := " \t\r\n\U{000B}", "<|>&;()";
    assert b[0] == ' ' && b[1] == '\t' && b[2] == '\r' && b[3] == '\n' && b[4] == '\U{000B}';
    assert s[0] == '<' && s[1] == '|' && s[2] == '>' && s[3] == '&' && s[4] == ';' && s[5] == '(' && s[6] == ')';
  }

  predicate AllBlank(s: string, i: int, j: int) {
    0 <= i <= j <= |s| && forall k :: i <= k < j ==> Blank(s[k])
  }

  predicate IsWord(s: string, x: Piece) {
    && 0 <= x.start < x.end <= |s|
    && (forall k :: x.start <= k < x.end ==> !Blank(s[k]) && !Symbol(s[k]))
    && (x.end == |s| || Blank(s[x.end]) || Symbol(s[x.end]))
  }

  predicate IsAppend(s: string, x: Piece) {
    0 <= x.start < x.end == x.start + 2 <= |s| && s[x.start] == '>' && s[x.start + 1] == '>'
  }

  /** One symbol; a > counts only if no other one follows. */
  predicate IsSingle(s: string, x: Piece) {
    && 0 <= x.start < x.end == x.start + 1 <= |s| && Symbol(s[x.start])
    && !(s[x.start] == '>' && x.end < |s| && s[x.end] == '>')
  }

  predicate IsToken(s: string, x: Piece, t: Token<Span>) {
    || (IsWord(s, x) && t == Word(Span(x.start, x.end)))
    || (IsAppend(s, x) && t == Sym('+'))
    || (IsSingle(s, x) && t == Sym(s[x.start]))
  }

  /** From i on the text is these tokens, at these pieces, and blanks. */
  ghost predicate Divides(s: string, i: int, ts: seq<Token<Span>>, xs: seq<Piece>)
    decreases |xs|
  {
    && |ts| == |xs|
    && if xs == [] then AllBlank(s, i, |s|)
       else AllBlank(s, i, xs[0].start) && IsToken(s, xs[0], ts[0]) && Divides(s, xs[0].end, ts[1..], xs[1..])
  }

  lemma {:induction false} SkipTo(s: string, i: int, j: int)
    requires AllBlank(s, i, j) && (j == |s| || !Blank(s[j]))
    ensures Skip(s, i) == j
  {
    var k := Skip(s, i);
    if k < j {
      SameChars(s[k]);
    } else if j < k {
      SameChars(s[j]);
    }
  }

  lemma SkippedBlanks(s: string, i: int)
    requires 0 <= i <= |s|
    ensures AllBlank(s, i, Skip(s, i)) && (Skip(s, i) < |s| ==> !Blank(s[Skip(s, i)]))
  {
    forall k | i <= k < Skip(s, i) ensures Blank(s[k]) {
      SameChars(s[k]);
    }
    if Skip(s, i) < |s| {
      SameChars(s[Skip(s, i)]);
    }
  }

  /** gettoken's token at j is one of the division. */
  lemma LexedToken(s: string, j: int)
    requires 0 <= j < |s| && !IsSpace(s[j])
    ensures IsToken(s, Piece(j, TokenEnd(s, j)), TokenAt(s, j))
  {
    var e := TokenEnd(s, j);
    forall k | j <= k <= e && k < |s| ensures (IsSpace(s[k]) <==> Blank(s[k])) && (IsSymbol(s[k]) <==> Symbol(s[k])) {
      SameChars(s[k]);
    }
  }

  /** And there is no other token at j. */
  lemma OnlyToken(s: string, x: Piece, t: Token<Span>)
    requires IsToken(s, x, t)
    ensures 0 <= x.start < |s| && !IsSpace(s[x.start]) && !Blank(s[x.start])
    ensures TokenEnd(s, x.start) == x.end && TokenAt(s, x.start) == t
  {
    var j := x.start;
    SameChars(s[j]);
    SameChars('>');
    if IsWord(s, x) {
      var e := WordEnd(s, j);
      if e < x.end {
        SameChars(s[e]);
      } else if x.end < e {
        SameChars(s[x.end]);
      }
    }
  }

  lemma {:induction false} Lexed(s: string, i: int) returns (xs: seq<Piece>)
    requires 0 <= i <= |s|
    ensures Divides(s, i, Tokens(s, i), xs)
    decreases |s| - i
  {
    var j := Skip(s, i);
    SkippedBlanks(s, i);
    if j == |s| {
      xs := [];
    } else {
      var x := Piece(j, TokenEnd(s, j));
      LexedToken(s, j);
      var rest := Lexed(s, x.end);
      xs := [x] + rest;
      assert Tokens(s, i)[1..] == Tokens(s, x.end) && xs[1..] == rest;
    }
  }

  lemma {:induction false} OnlyDivision(s: string, i: int, ts: seq<Token<Span>>, xs: seq<Piece>)
    requires Divides(s, i, ts, xs)
    ensures 0 <= i <= |s| && Tokens(s, i) == ts
    decreases |xs|
  {
    if xs == [] {
      SkipTo(s, i, |s|);
    } else {
      OnlyToken(s, xs[0], ts[0]);
      SkipTo(s, i, xs[0].start);
      OnlyDivision(s, xs[0].end, ts[1..], xs[1..]);
      assert ts == [ts[0]] + ts[1..];
    }
  }

  ghost predicate IsDivision(s: string, i: int, ts: seq<Token<Span>>, xs: seq<Piece>) {
    Divides(s, i, ts, xs)
  }

  /** The lexer finds the tokens of every text, and nothing else is a division of it. */
  lemma MaximalMunch(s: string, i: int, ts: seq<Token<Span>>)
    requires 0 <= i <= |s|
    ensures Tokens(s, i) == ts <==> exists xs :: IsDivision(s, i, ts, xs)
  {
    var xs := Lexed(s, i);
    if Tokens(s, i) == ts {
      assert IsDivision(s, i, ts, xs);
    }
    forall ys | IsDivision(s, i, ts, ys) ensures Tokens(s, i) == ts {
      OnlyDivision(s, i, ts, ys);
    }
  }

  /** The three redirections open their file for reading as standard input, for
      writing as standard output emptied first, and for writing without that. */
  lemma RedirectionModes<W>(c: Cmd<W>, file: W)
    ensures Redirs(c, [Sym('<'), Word(file)]) == Ok(Redir(c, file, 0, 0), [])
    ensures Redirs(c, [Sym('>'), Word(file)]) == Ok(Redir(c, file, 0x001 + 0x200 + 0x400, 1), [])
    ensures Redirs(c, [Sym('+'), Word(file)]) == Ok(Redir(c, file, 0x001 + 0x200, 1), [])
  {
    assert forall t: Token<W> :: [t, Word(file)][2..] == [];
  }
}
