/** sh.c's parser as it runs: positions advance through *ps, loops collect redirections and arguments,
    and nulterminate writes into the line. ok is false where the source panics. */
module Shell {
  import opened ShellParser

  /** gettoken. */
  method Gettoken(s: string, ps: int) returns (t: Token)
    requires 0 <= ps <= |s| && IsLine(s)
    ensures t == GetToken(s, ps)
  {
    var i := ps;
    while i < |s| && IsSpace(s[i])
      invariant ps <= i <= |s| && Skip(s, ps) == Skip(s, i)
    {
      i := i + 1;
    }
    var q, ret := i, NUL;
    if i < |s| {
      ret := s[i];
      if ret == '>' {
        i := i + 1;
        if i < |s| && s[i] == '>' {
          ret := '+';
          i := i + 1;
        }
      } else if IsSymbol(ret) {
        i := i + 1;
      } else {
        ret := 'a';
        while i < |s| && !IsSpace(s[i]) && !IsSymbol(s[i])
          invariant q <= i <= |s| && WordEnd(s, q) == WordEnd(s, i)
        {
          i := i + 1;
        }
      }
    }
    var eq := i;
    while i < |s| && IsSpace(s[i])
      invariant eq <= i <= |s| && Skip(s, eq) == Skip(s, i)
    {
      i := i + 1;
    }
    t := Token(ret, q, eq, i);
  }

  /** peek: skips white space, and looks at one character. */
  method Peek(s: string, ps: int, toks: string) returns (found: bool, pos: int)
    requires 0 <= ps <= |s|
    ensures found == PeekAt(s, ps, toks) && pos == Skip(s, ps)
  {
    pos := ps;
    while pos < |s| && IsSpace(s[pos])
      invariant ps <= pos <= |s| && Skip(s, ps) == Skip(s, pos)
    {
      pos := pos + 1;
    }
    found := pos < |s| && s[pos] in toks;
  }

  lemma {:induction false} SkipSkip(s: string, i: int)
    requires 0 <= i <= |s|
    ensures Skip(s, Skip(s, i)) == Skip(s, i)
    decreases |s| - i
  {
    if i < |s| && IsSpace(s[i]) {
      SkipSkip(s, i + 1);
    }
  }

  /** Looking again after peek gives the same. */
  lemma AtSkip(s: string, i: int, toks: string)
    requires 0 <= i <= |s| && IsLine(s)
    ensures Skip(s, Skip(s, i)) == Skip(s, i) && GetToken(s, Skip(s, i)) == GetToken(s, i)
    ensures PeekAt(s, Skip(s, i), toks) == PeekAt(s, i, toks)
    ensures PeekAt(s, i, toks) ==> Skip(s, i) < GetToken(s, i).pos
    ensures i <= Skip(s, i) <= |s|
  {
    SkipSkip(s, i);
  }

  lemma {:induction false} WrapWrap(c: Cmd, a: seq<Redirection>, b: seq<Redirection>)
    ensures Wrap(Wrap(c, a), b) == Wrap(c, a + b)
    decreases |a|
  {
    if a == [] {
      assert a + b == b;
    } else {
      WrapWrap(Redir(c, a[0].file, a[0].out), a[1..], b);
      assert (a + b)[1..] == a[1..] + b;
    }
  }

  /** parseredirs. */
  method Parseredirs(c: Cmd, s: string, ps: int) returns (ok: bool, cmd: Cmd, pos: int, rs: seq<Redirection>)
    requires 0 <= ps <= |s| && IsLine(s)
    ensures ok <==> RedirsFrom(s, ps).Redirs?
    ensures ok ==> RedirsFrom(s, ps) == Redirs(rs, pos) && cmd == Wrap(c, rs)
  {
    hide GetToken, Skip, PeekAt, IsLine, RedirsFrom, Wrap;
    cmd, pos, rs := c, ps, [];
    WrapNothing(c);
    while true
      invariant ps <= pos <= |s| && cmd == Wrap(c, rs)
      invariant RedirsFrom(s, ps) == After(rs, RedirsFrom(s, pos))
      decreases |s| - pos
    {
      var start, found := pos, false;
      found, pos := Peek(s, pos, "<>");
      AtSkip(s, start, "<>");
      RedirUnfold(s, start);
      if !found {
        ok := true;
        return;
      }
      var tok := Gettoken(s, pos);
      var f := Gettoken(s, tok.pos);
      if f.ret != 'a' {
        return false, cmd, pos, rs;
      }
      var r := Redirection(Word(f.q, f.eq), tok.ret != '<');
      WrapWrap(c, rs, [r]);
      WrapLast(cmd, r);
      AfterAfter(rs, r, RedirsFrom(s, f.pos));
      cmd := Redir(cmd, r.file, r.out);
      rs := rs + [r];
      pos := f.pos;
    }
  }

  /** What has been read, in front of what is still to be read. */
  function After(rs: seq<Redirection>, rest: RedirResult): RedirResult {
    match rest
    case BadRedir => BadRedir
    case Redirs(more, end) => Redirs(rs + more, end)
  }

  lemma AfterAfter(rs: seq<Redirection>, r: Redirection, rest: RedirResult)
    ensures After(rs, After([r], rest)) == After(rs + [r], rest)
  {
    if rest.Redirs? {
      assert rs + ([r] + rest.rs) == rs + [r] + rest.rs;
    }
  }

  lemma RedirUnfold(s: string, i: int)
    requires 0 <= i <= |s| && IsLine(s)
    ensures !PeekAt(s, i, "<>") ==> RedirsFrom(s, i) == Redirs([], Skip(s, i))
    ensures PeekAt(s, i, "<>") ==>
      var t := GetToken(s, i); var f := GetToken(s, t.pos);
      RedirsFrom(s, i) == if f.ret != 'a' then BadRedir
        else After([Redirection(Word(f.q, f.eq), t.ret != '<')], RedirsFrom(s, f.pos))
  {
    hide GetToken, Skip, IsLine;
  }

  lemma WrapNothing(c: Cmd)
    ensures Wrap(c, []) == c
  {
  }

  lemma WrapLast(c: Cmd, r: Redirection)
    ensures Wrap(c, [r]) == Redir(c, r.file, r.out)
  {
    assert [r][1..] == [];
  }

  /** parseexec. In the source the argument vector is filled in a node that redirections may already wrap;
      here the node is built last, around all the arguments. */
  method Parseexec(s: string, ps: int) returns (ok: bool, cmd: Cmd, pos: int)
    requires 0 <= ps <= |s| && IsLine(s)
    ensures ok <==> ParseExec(s, ps).Parsed?
    ensures ok ==> ParseExec(s, ps) == Parsed(cmd, pos)
    decreases |s| - ps, 1
  {
    hide GetToken, Skip, PeekAt, RedirsFrom, ArgsFrom, IsLine;
    var found;
    found, pos := Peek(s, ps, "(");
    AtSkip(s, ps, "(");
    if found {
      ok, cmd, pos := Parseblock(s, pos);
      return;
    }
    var redirs;
    ok, cmd, pos, redirs := Parseredirs(Exec([]), s, pos);
    if !ok {
      return;
    }
    var argv, more;
    ok, argv, more, pos := Parseargs(s, pos);
    cmd := Wrap(Exec(argv), redirs + more);
  }

  /** parseexec's loop, with the redirections it meets. */
  method Parseargs(s: string, ps: int) returns (ok: bool, argv: seq<Word>, redirs: seq<Redirection>, pos: int)
    requires 0 <= ps <= |s| && IsLine(s)
    ensures ok <==> ArgsFrom(s, ps, 0).Args?
    ensures ok ==> ArgsFrom(s, ps, 0) == Args(argv, redirs, pos)
    decreases |s| - ps, 0
  {
    hide GetToken, Skip, PeekAt, RedirsFrom, ArgsFrom, IsLine, Joined, Wrap;
    JoinedNothing(ArgsFrom(s, ps, 0));
    argv, redirs, pos := [], [], ps;
    var argc := 0;
    while true
      invariant ps <= pos <= |s| && argc == |argv|
      invariant ArgsFrom(s, ps, 0) == Joined(argv, redirs, ArgsFrom(s, pos, argc))
      decreases |s| - pos
    {
      var at, found := pos, false;
      found, pos := Peek(s, pos, "|)&;");
      AtSkip(s, at, "|)&;");
      ArgsUnfold(s, at, argc);
      JoinedEnd(argv, redirs, ArgsFrom(s, at, argc));
      if found {
        return true, argv, redirs, pos;
      }
      var t := Gettoken(s, pos);
      if t.ret == NUL {
        return true, argv, redirs, t.pos;
      }
      if t.ret != 'a' {
        return false, argv, redirs, pos;
      }
      TokenMoves(s, pos);
      ghost var argv0 := argv;
      argv := argv + [Word(t.q, t.eq)];
      argc := argc + 1;
      if argc >= MAXARGS {
        return false, argv, redirs, pos;
      }
      var c, rs;
      ok, c, pos, rs := Parseredirs(Wrap(Exec(argv), redirs), s, t.pos);
      if !ok {
        return;
      }
      JoinedStep(argv0, redirs, Word(t.q, t.eq), rs, ArgsFrom(s, pos, argc));
      redirs := redirs + rs;
    }
  }

  lemma ArgsUnfold(s: string, i: int, n: int)
    requires 0 <= i <= |s| && IsLine(s)
    ensures PeekAt(s, i, "|)&;") ==> ArgsFrom(s, i, n) == Args([], [], Skip(s, i))
    ensures !PeekAt(s, i, "|)&;") ==>
      var t := GetToken(s, i);
      && (t.ret == NUL ==> ArgsFrom(s, i, n) == Args([], [], t.pos))
      && (t.ret != NUL && (t.ret != 'a' || n + 1 >= MAXARGS) ==> ArgsFrom(s, i, n) == BadArgs)
      && (t.ret == 'a' && n + 1 < MAXARGS ==>
        ArgsFrom(s, i, n) == ArgsAfter(s, Word(t.q, t.eq), RedirsFrom(s, t.pos), n + 1))
  {
    hide GetToken, Skip, IsLine, RedirsFrom;
  }

  /** The rest of the arguments once a word and the redirections behind it have been read. */
  function ArgsAfter(s: string, w: Word, r: RedirResult, n: int): ArgsResult
    requires IsLine(s) && (r.Redirs? ==> 0 <= r.pos <= |s|)
  {
    match r
    case BadRedir => BadArgs
    case Redirs(rs, pos) => Joined([w], rs, ArgsFrom(s, pos, n))
  }

  lemma JoinedNothing(rest: ArgsResult)
    ensures Joined([], [], rest) == rest
  {
    if rest.Args? {
      assert [] + rest.argv == rest.argv && [] + rest.rs == rest.rs;
    }
  }

  /** Nothing more to read, or something wrong with it. */
  lemma JoinedEnd(argv: seq<Word>, rs: seq<Redirection>, rest: ArgsResult)
    ensures rest.BadArgs? <==> Joined(argv, rs, rest).BadArgs?
    ensures rest.Args? && rest.argv == [] && rest.rs == [] ==> Joined(argv, rs, rest) == Args(argv, rs, rest.pos)
  {
  }

  lemma TokenMoves(s: string, i: int)
    requires 0 <= i <= |s| && IsLine(s) && GetToken(s, i).ret != NUL
    ensures i < GetToken(s, i).pos
  {
  }

  /** What has been read, in front of what is still to be read. */
  function Joined(argv: seq<Word>, rs: seq<Redirection>, rest: ArgsResult): ArgsResult {
    match rest
    case BadArgs => BadArgs
    case Args(a, more, end) => Args(argv + a, rs + more, end)
  }

  lemma JoinedStep(argv: seq<Word>, rs: seq<Redirection>, w: Word, more: seq<Redirection>, rest: ArgsResult)
    ensures Joined(argv, rs, Joined([w], more, rest)) == Joined(argv + [w], rs + more, rest)
  {
    if rest.Args? {
      assert argv + ([w] + rest.argv) == argv + [w] + rest.argv;
      assert rs + (more + rest.rs) == rs + more + rest.rs;
    }
  }

  method Parseblock(s: string, ps: int) returns (ok: bool, cmd: Cmd, pos: int)
    requires 0 <= ps <= |s| && IsLine(s) && PeekAt(s, ps, "(")
    ensures ok <==> ParseBlock(s, ps).Parsed?
    ensures ok ==> ParseBlock(s, ps) == Parsed(cmd, pos)
    decreases |s| - ps, 0
  {
    hide GetToken, Skip, PeekAt, RedirsFrom, ParseLine, IsLine;
    var found;
    found, pos := Peek(s, ps, "(");
    AtSkip(s, ps, "(");
    var t := Gettoken(s, pos);
    ok, cmd, pos := Parseline(s, t.pos);
    if !ok {
      return;
    }
    var at := pos;
    found, pos := Peek(s, pos, ")");
    AtSkip(s, at, ")");
    if !found {
      return false, cmd, pos;
    }
    t := Gettoken(s, pos);
    var rs;
    ok, cmd, pos, rs := Parseredirs(cmd, s, t.pos);
  }

  method Parsepipe(s: string, ps: int) returns (ok: bool, cmd: Cmd, pos: int)
    requires 0 <= ps <= |s| && IsLine(s)
    ensures ok <==> ParsePipe(s, ps).Parsed?
    ensures ok ==> ParsePipe(s, ps) == Parsed(cmd, pos)
    decreases |s| - ps, 2
  {
    hide GetToken, Skip, PeekAt, ParseExec, IsLine;
    ok, cmd, pos := Parseexec(s, ps);
    if !ok {
      return;
    }
    var at := pos;
    var found;
    found, pos := Peek(s, pos, "|");
    AtSkip(s, at, "|");
    if found {
      var t := Gettoken(s, pos);
      var right;
      ok, right, pos := Parsepipe(s, t.pos);
      cmd := Pipe(cmd, right);
    }
  }

  method Parseline(s: string, ps: int) returns (ok: bool, cmd: Cmd, pos: int)
    requires 0 <= ps <= |s| && IsLine(s)
    ensures ok <==> ParseLine(s, ps).Parsed?
    ensures ok ==> ParseLine(s, ps) == Parsed(cmd, pos)
    decreases |s| - ps, 3
  {
    hide GetToken, Skip, PeekAt, ParsePipe, IsLine;
    ok, cmd, pos := Parsepipe(s, ps);
    if !ok {
      return;
    }
    ghost var c0, p0 := cmd, pos;
    var found, at := true, pos;
    while true
      invariant ps <= pos <= |s| && Backs(s, c0, p0) == Backs(s, cmd, pos)
      decreases |s| - pos
    {
      at := pos;
      found, pos := Peek(s, pos, "&");
      AtSkip(s, at, "&");
      if !found {
        break;
      }
      var t := Gettoken(s, pos);
      cmd, pos := Back(cmd), t.pos;
    }
    at := pos;
    found, pos := Peek(s, pos, ";");
    AtSkip(s, at, ";");
    if found {
      var t := Gettoken(s, pos);
      var right;
      ok, right, pos := Parseline(s, t.pos);
      cmd := List(cmd, right);
    }
  }

  /** parsecmd up to nulterminate. */
  method Parsecmd(s: string) returns (ok: bool, cmd: Cmd)
    requires IsLine(s)
    ensures ok <==> ParseCmd(s).Parsed?
    ensures ok ==> ParseCmd(s) == Parsed(cmd, |s|)
  {
    var pos;
    ok, cmd, pos := Parseline(s, 0);
    if !ok {
      return;
    }
    var _, end := Peek(s, pos, "");
    ok := end == |s|;
  }
}
