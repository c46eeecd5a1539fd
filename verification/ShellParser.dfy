/** The parser of user/sh.c as the code has it: a cursor moved through the
    text, loops and recursive descent.  Every method is proved to do on the text
    what module Shell does on its tokens. */
module ShellParser {
  import opened Shell
  import opened ShellGrammar

  /** What a parsing method found agrees with r; the cursor is behind it. */
  ghost predicate Agrees(s: string, pos: int, ok: bool, cmd: Cmd<Span>, r: Parsed<Span>) {
    0 <= pos <= |s| && ok == r.Ok? && (ok ==> cmd == r.cmd && Tokens(s, pos) == r.rest)
  }

  /** The first character of a token. */
  function Lead(c: char): (d: char) {
    if c == '+' then '>' else c
  }

  class Parser {
    const s: string
    var pos: int

    predicate Valid()
      reads this
    {
      0 <= pos <= |s|
    }

    constructor (text: string)
      ensures Valid() && s == text && pos == 0
    {
      s, pos := text, 0;
    }

    method SkipFrom(i: int) returns (j: int)
      requires 0 <= i <= |s|
      ensures j == Skip(s, i)
    {
      j := i;
      while j < |s| && IsSpace(s[j])
        invariant i <= j <= |s| && Skip(s, j) == Skip(s, i)
      {
        j := j + 1;
      }
    }

    method WordFrom(i: int) returns (j: int)
      requires 0 <= i <= |s|
      ensures j == WordEnd(s, i)
    {
      j := i;
      while j < |s| && !IsSpace(s[j]) && !IsSymbol(s[j])
        invariant i <= j <= |s| && WordEnd(s, j) == WordEnd(s, i)
      {
        j := j + 1;
      }
    }

    /** gettoken; has is false at the end of the text. */
    method GetToken() returns (has: bool, t: Token<Span>)
      requires Valid()
      modifies this
      ensures Valid() && has == (Tokens(s, old(pos)) != [])
      ensures has ==> t == Tokens(s, old(pos))[0] && Tokens(s, pos) == Tokens(s, old(pos))[1..]
      ensures !has ==> Tokens(s, pos) == []
    {
      var i := SkipFrom(pos);
      if i == |s| {
        pos := i;
        return false, Sym(' ');
      }
      var j := i + 1;
      if !IsSymbol(s[i]) {
        j := WordFrom(i);
        t := Word(Span(i, j));
      } else if s[i] == '>' && j < |s| && s[j] == '>' {
        j := j + 1;
        t := Sym('+');
      } else {
        t := Sym(s[i]);
      }
      TokensSkip(s, j);
      pos := SkipFrom(j);
      has := true;
    }

    /** peek: does the next token start with one of these symbols? */
    method Peek(toks: set<char>) returns (yes: bool)
      requires Valid() && forall c :: c in toks ==> IsSymbol(c)
      modifies this
      ensures Valid() && pos == Skip(s, old(pos)) && Tokens(s, pos) == Tokens(s, old(pos))
      ensures yes <==> Tokens(s, pos) != [] && Tokens(s, pos)[0].Sym? && Lead(Tokens(s, pos)[0].c) in toks
    {
      TokensSkip(s, pos);
      pos := SkipFrom(pos);
      yes := pos < |s| && s[pos] in toks;
    }

    /** One round of parseredirs' loop. */
    method ParseRedir(c: Cmd<Span>) returns (ok: bool, cmd: Cmd<Span>)
      requires Valid() && NextRedir(Tokens(s, pos))
      modifies this
      ensures Valid() && |Tokens(s, pos)| < |Tokens(s, old(pos))|
      ensures if ok then Redirs(cmd, Tokens(s, pos)) == Redirs(c, Tokens(s, old(pos)))
              else Redirs(c, Tokens(s, old(pos))).Fail?
    {
      ghost var ts := Tokens(s, pos);
      cmd := c;
      var has, t := GetToken();
      var has2, w := GetToken();
      ok := has2 && w.Word?;
      if ok {
        assert ts[1..][1..] == ts[2..] && ts[1..][0] == ts[1];
        cmd := Redir(c, w.w, Mode(t.c), Fd(t.c));
      }
    }

    method ParseRedirs(c: Cmd<Span>) returns (ok: bool, cmd: Cmd<Span>)
      requires Valid()
      modifies this
      ensures Agrees(s, pos, ok, cmd, Redirs(c, Tokens(s, old(pos))))
    {
      cmd, ok := c, true;
      ghost var r := Redirs(c, Tokens(s, pos));
      while true
        invariant Valid() && Redirs(cmd, Tokens(s, pos)) == r
        decreases |Tokens(s, pos)|
      {
        var more := Peek({'<', '>'});
        if !more {
          return;
        }
        ok, cmd := ParseRedir(cmd);
        if !ok {
          return;
        }
      }
    }

    /** parseexec's loop. */
    method ParseArgs(c: Cmd<Span>) returns (ok: bool, cmd: Cmd<Span>)
      requires Valid()
      modifies this
      ensures Agrees(s, pos, ok, cmd, Args(c, Tokens(s, old(pos))))
    {
      cmd, ok := c, true;
      ghost var r := Args(c, Tokens(s, pos));
      while true
        invariant Valid() && Args(cmd, Tokens(s, pos)) == r
        decreases |Tokens(s, pos)|
      {
        var end := Peek({'|', ')', '&', ';'});
        if end {
          return;
        }
        ghost var ts := Tokens(s, pos);
        var has, t := GetToken();
        if !has {
          return;
        }
        if !t.Word? {
          return false, cmd;
        }
        cmd := AddArg(cmd, t.w);
        if Argc(cmd) >= MAXARGS {
          return false, cmd;
        }
        ok, cmd := ParseRedirs(cmd);
        if !ok {
          return;
        }
      }
    }

    method ParseExec() returns (ok: bool, cmd: Cmd<Span>)
      requires Valid()
      modifies this
      ensures Agrees(s, pos, ok, cmd, Shell.ParseExec(Tokens(s, old(pos))))
      decreases |Tokens(s, pos)|, 1
    {
      var block := Peek({'('});
      if block {
        ok, cmd := ParseBlock();
        return;
      }
      ok, cmd := ParseRedirs(Exec([]));
      if ok {
        ok, cmd := ParseArgs(cmd);
      }
    }

    method ParseBlock() returns (ok: bool, cmd: Cmd<Span>)
      requires Valid() && Next(Tokens(s, pos), '(')
      modifies this
      ensures Agrees(s, pos, ok, cmd, Shell.ParseBlock(Tokens(s, old(pos))))
      decreases |Tokens(s, pos)|, 0
    {
      var _, _ := GetToken();
      ok, cmd := ParseLine();
      if !ok {
        return;
      }
      ok := Peek({')'});
      if ok {
        var _, _ := GetToken();
        ok, cmd := ParseRedirs(cmd);
      }
    }

    method ParsePipe() returns (ok: bool, cmd: Cmd<Span>)
      requires Valid()
      modifies this
      ensures Agrees(s, pos, ok, cmd, Shell.ParsePipe(Tokens(s, old(pos))))
      decreases |Tokens(s, pos)|, 2
    {
      ok, cmd := ParseExec();
      if !ok {
        return;
      }
      var more := Peek({'|'});
      if more {
        var _, _ := GetToken();
        var right;
        ok, right := ParsePipe();
        cmd := Pipe(cmd, right);
      }
    }

    /** parseline's loop. */
    method ParseBacks(c: Cmd<Span>) returns (cmd: Cmd<Span>)
      requires Valid()
      modifies this
      ensures Agrees(s, pos, true, cmd, Backs(c, Tokens(s, old(pos))))
    {
      cmd := c;
      while true
        invariant Valid() && Backs(cmd, Tokens(s, pos)) == Backs(c, Tokens(s, old(pos)))
        decreases |Tokens(s, pos)|
      {
        var more := Peek({'&'});
        if !more {
          return;
        }
        var _, _ := GetToken();
        cmd := Back(cmd);
      }
    }

    method ParseLine() returns (ok: bool, cmd: Cmd<Span>)
      requires Valid()
      modifies this
      ensures Agrees(s, pos, ok, cmd, Shell.ParseLine(Tokens(s, old(pos))))
      decreases |Tokens(s, pos)|, 3
    {
      ok, cmd := ParsePipe();
      if !ok {
        return;
      }
      cmd := ParseBacks(cmd);
      var more := Peek({';'});
      if more {
        var _, _ := GetToken();
        var right;
        ok, right := ParseLine();
        cmd := List(cmd, right);
      }
    }

    /** parsecmd, up to nulterminate: the tree that the grammar derives from the
        line, or an error if it derives none. */
    method ParseCmd() returns (ok: bool, cmd: Cmd<Span>)
      requires Valid()
      modifies this
      ensures Agrees(s, pos, ok, cmd, Shell.ParseCmd(Tokens(s, old(pos))))
      ensures ok ==> DerivesLine(cmd, Tokens(s, old(pos)))
      ensures !ok ==> forall c :: !DerivesLine(c, Tokens(s, old(pos)))
    {
      ghost var ts := Tokens(s, pos);
      ok, cmd := ParseLine();
      if ok {
        var _ := Peek({});
        ok := pos == |s|;
      }
      if ok {
        ParserIsGrammar(cmd, ts);
      } else {
        forall c ensures !DerivesLine(c, ts) {
          RefusedUnderived(c, ts);
        }
      }
    }
  }
}
