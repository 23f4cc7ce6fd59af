/** nulterminate cuts the line at exactly the right places. */
module ShellWords {
  import opened ShellParser
  import opened Shell

  /** The words of a command, in the order in which nulterminate cuts them off. */
  function Words(c: Cmd): seq<Word> {
    match c
    case Exec(argv) => argv
    case Redir(d, file, _) => Words(d) + [file]
    case Pipe(l, r) => Words(l) + Words(r)
    case List(l, r) => Words(l) + Words(r)
    case Back(d) => Words(d)
  }

  predicate EndsIn(ws: seq<Word>, n: int) {
    forall k :: 0 <= k < |ws| ==> 0 <= ws[k].eq < n
  }

  /** The buffer with a NUL behind each of the words. */
  function Cut(b: string, ws: seq<Word>): (r: string)
    requires EndsIn(ws, |b|)
    ensures |r| == |b|
    decreases |ws|
  {
    if ws == [] then b else Cut(b, ws[..|ws| - 1])[ws[|ws| - 1].eq := NUL]
  }

  lemma {:induction false} CutTwice(b: string, v: seq<Word>, w: seq<Word>)
    requires EndsIn(v, |b|) && EndsIn(w, |b|)
    ensures EndsIn(v + w, |b|)
    ensures Cut(b, v + w) == Cut(Cut(b, v), w)
    decreases |w|
  {
    if w == [] {
      assert v + w == v;
    } else {
      CutTwice(b, v, w[..|w| - 1]);
      assert (v + w)[..|v + w| - 1] == v + w[..|w| - 1];
    }
  }

  lemma {:induction false} CutAt(b: string, ws: seq<Word>, i: int)
    requires EndsIn(ws, |b|) && 0 <= i < |b|
    ensures Cut(b, ws)[i] == if exists k :: 0 <= k < |ws| && ws[k].eq == i then NUL else b[i]
    decreases |ws|
  {
    if ws != [] {
      CutAt(b, ws[..|ws| - 1], i);
      assert ws[|ws| - 1].eq != i ==> forall k :: 0 <= k < |ws| && ws[k].eq == i ==> ws[..|ws| - 1][k].eq == i;
    }
  }

  method Nulterminate(c: Cmd, b: array<char>)
    requires EndsIn(Words(c), b.Length)
    modifies b
    ensures b[..] == Cut(old(b[..]), Words(c))
    decreases c
  {
    match c
    case Exec(argv) =>
      var i := 0;
      while i < |argv|
        invariant 0 <= i <= |argv| && EndsIn(argv[..i], b.Length) && b[..] == Cut(old(b[..]), argv[..i])
      {
        ghost var b0 := b[..];
        CutNext(old(b[..]), argv, i);
        b[argv[i].eq] := NUL;
        assert b[..] == b0[argv[i].eq := NUL];
        i := i + 1;
      }
      assert argv[..i] == argv;
    case Redir(d, file, _) =>
      EndsSplit(Words(d), [file], b.Length);
      CutTwice(b[..], Words(d), [file]);
      Nulterminate(d, b);
      CutOne(b[..], file);
      ghost var b0 := b[..];
      b[file.eq] := NUL;
      assert b[..] == b0[file.eq := NUL];
    case Pipe(l, r) =>
      EndsSplit(Words(l), Words(r), b.Length);
      CutTwice(b[..], Words(l), Words(r));
      Nulterminate(l, b);
      Nulterminate(r, b);
    case List(l, r) =>
      EndsSplit(Words(l), Words(r), b.Length);
      CutTwice(b[..], Words(l), Words(r));
      Nulterminate(l, b);
      Nulterminate(r, b);
    case Back(d) => Nulterminate(d, b);
  }

  lemma CutNext(b: string, ws: seq<Word>, i: int)
    requires EndsIn(ws, |b|) && 0 <= i < |ws|
    ensures EndsIn(ws[..i], |b|) && EndsIn(ws[..i + 1], |b|) && 0 <= ws[i].eq < |b|
    ensures Cut(b, ws[..i + 1]) == Cut(b, ws[..i])[ws[i].eq := NUL]
  {
    hide Cut;
    assert ws[..i] + ws[i..] == ws;
    EndsSplit(ws[..i], ws[i..], |b|);
    assert ws[..i + 1] == ws[..i] + [ws[i]];
    assert ws[i] == ws[i..][0];
    CutTwice(b, ws[..i], [ws[i]]);
    CutOne(Cut(b, ws[..i]), ws[i]);
  }

  lemma CutOne(b: string, w: Word)
    requires 0 <= w.eq < |b|
    ensures EndsIn([w], |b|) && Cut(b, [w]) == b[w.eq := NUL]
  {
    assert [w][..0] == [];
  }

  lemma EndsSplit(v: seq<Word>, w: seq<Word>, n: int)
    requires EndsIn(v + w, n)
    ensures EndsIn(v, n) && EndsIn(w, n) && (|w| == 1 ==> 0 <= w[0].eq < n)
  {
    assert forall k :: 0 <= k < |v| ==> v[k] == (v + w)[k];
    assert forall k :: 0 <= k < |w| ==> w[k] == (v + w)[|v| + k];
  }

  // ----- Where the words of a parsed command are

  /** A whole word of the line: word characters, and none behind them. */
  predicate WholeWord(s: string, w: Word) {
    && 0 <= w.q <= w.eq <= |s|
    && (forall k :: w.q <= k < w.eq ==> IsWordChar(s[k]))
    && (w.eq < |s| ==> !IsWordChar(s[w.eq]))
  }

  predicate WholeWords(s: string, ws: seq<Word>) {
    forall k :: 0 <= k < |ws| ==> WholeWord(s, ws[k])
  }

  function Files(rs: seq<Redirection>): (r: seq<Word>)
    ensures |r| == |rs|
  {
    seq(|rs|, k requires 0 <= k < |rs| => rs[k].file)
  }

  lemma {:induction false} WrapWords(s: string, c: Cmd, rs: seq<Redirection>)
    requires WholeWords(s, Words(c)) && WholeWords(s, Files(rs))
    ensures WholeWords(s, Words(Wrap(c, rs)))
    decreases |rs|
  {
    if rs != [] {
      assert WholeWord(s, Files(rs)[0]);
      assert forall k :: 0 <= k < |rs[1..]| ==> Files(rs[1..])[k] == Files(rs)[k + 1];
      WrapWords(s, Redir(c, rs[0].file, rs[0].out), rs[1..]);
    }
  }

  lemma {:induction false} RedirWords(s: string, i: int)
    requires 0 <= i <= |s| && IsLine(s) && RedirsFrom(s, i).Redirs?
    ensures WholeWords(s, Files(RedirsFrom(s, i).rs))
    decreases |s| - i
  {
    hide GetToken, Skip, PeekAt, IsLine;
    AtSkip(s, i, "<>");
    if PeekAt(s, i, "<>") {
      var t := GetToken(s, i);
      var f := GetToken(s, t.pos);
      assert WholeWord(s, Word(f.q, f.eq));
      RedirWords(s, f.pos);
      var rest := RedirsFrom(s, f.pos);
      if rest.Redirs? {
        FilesJoin(s, [Redirection(Word(f.q, f.eq), t.ret != '<')], rest.rs);
      }
    }
  }

  lemma {:induction false} ArgWords(s: string, i: int, n: int)
    requires 0 <= i <= |s| && IsLine(s) && ArgsFrom(s, i, n).Args?
    ensures WholeWords(s, ArgsFrom(s, i, n).argv) && WholeWords(s, Files(ArgsFrom(s, i, n).rs))
    decreases |s| - i
  {
    hide GetToken, Skip, PeekAt, IsLine, RedirsFrom;
    var t := GetToken(s, i);
    if !PeekAt(s, i, "|)&;") && t.ret != NUL {
      TokenMoves(s, i);
      RedirWords(s, t.pos);
      var r := RedirsFrom(s, t.pos);
      ArgWords(s, r.pos, n + 1);
      var m := ArgsFrom(s, r.pos, n + 1);
      FilesJoin(s, r.rs, m.rs);
    }
  }

  lemma FilesJoin(s: string, a: seq<Redirection>, b: seq<Redirection>)
    requires WholeWords(s, Files(a)) && WholeWords(s, Files(b))
    ensures WholeWords(s, Files(a + b))
  {
    hide WholeWord;
    assert forall k :: 0 <= k < |a + b| ==> Files(a + b)[k] == if k < |a| then Files(a)[k] else Files(b)[k - |a|];
  }

  lemma {:induction false} ExecWords(s: string, i: int)
    requires 0 <= i <= |s| && IsLine(s) && ParseExec(s, i).Parsed?
    ensures WholeWords(s, Words(ParseExec(s, i).cmd))
    decreases |s| - i, 1
  {
    hide GetToken, Skip, PeekAt, IsLine, RedirsFrom, ArgsFrom, WholeWords, Files;
    if PeekAt(s, i, "(") {
      AtSkip(s, i, "(");
      BlockWords(s, i);
    } else {
      AtSkip(s, i, "(");
      RedirWords(s, Skip(s, i));
      var r := RedirsFrom(s, Skip(s, i));
      ArgWords(s, r.pos, 0);
      var a := ArgsFrom(s, r.pos, 0);
      FilesJoin(s, r.rs, a.rs);
      WrapWords(s, Exec(a.argv), r.rs + a.rs);
    }
  }

  lemma {:induction false} BlockWords(s: string, i: int)
    requires 0 <= i <= |s| && IsLine(s) && PeekAt(s, i, "(") && ParseBlock(s, i).Parsed?
    ensures WholeWords(s, Words(ParseBlock(s, i).cmd))
    decreases |s| - i, 0
  {
    hide GetToken, Skip, PeekAt, IsLine, RedirsFrom, ParseLine, WholeWords, Files;
    AtSkip(s, i, "(");
    LineWords(s, GetToken(s, i).pos);
    var r := ParseLine(s, GetToken(s, i).pos);
    RedirWords(s, GetToken(s, r.pos).pos);
    WrapWords(s, r.cmd, RedirsFrom(s, GetToken(s, r.pos).pos).rs);
  }

  lemma {:induction false} PipeWords(s: string, i: int)
    requires 0 <= i <= |s| && IsLine(s) && ParsePipe(s, i).Parsed?
    ensures WholeWords(s, Words(ParsePipe(s, i).cmd))
    decreases |s| - i, 2
  {
    hide GetToken, Skip, PeekAt, IsLine, ParseExec;
    ExecWords(s, i);
    var r := ParseExec(s, i);
    AtSkip(s, r.pos, "|");
    if PeekAt(s, r.pos, "|") {
      PipeWords(s, GetToken(s, r.pos).pos);
    }
  }

  lemma {:induction false} BackWords(s: string, c: Cmd, i: int)
    requires 0 <= i <= |s| && IsLine(s) && WholeWords(s, Words(c))
    ensures WholeWords(s, Words(Backs(s, c, i).0))
    decreases |s| - i
  {
    hide GetToken, Skip, PeekAt, IsLine, WholeWords;
    AtSkip(s, i, "&");
    if PeekAt(s, i, "&") {
      BackWords(s, Back(c), GetToken(s, i).pos);
    }
  }

  lemma {:induction false} LineWords(s: string, i: int)
    requires 0 <= i <= |s| && IsLine(s) && ParseLine(s, i).Parsed?
    ensures WholeWords(s, Words(ParseLine(s, i).cmd))
    decreases |s| - i, 3
  {
    hide GetToken, Skip, PeekAt, IsLine, ParsePipe, Backs;
    PipeWords(s, i);
    var r := ParsePipe(s, i);
    BackWords(s, r.cmd, r.pos);
    var b := Backs(s, r.cmd, r.pos);
    AtSkip(s, b.1, ";");
    if PeekAt(s, b.1, ";") {
      LineWords(s, GetToken(s, b.1).pos);
    }
  }

  lemma NotNul(c: char)
    requires IsWordChar(c)
    ensures c != NUL
  {
  }

  /** After nulterminate every word of the command is a string of its own, the same as before: no NUL lands in any
      word. */
  lemma WordsAreStrings(s: string, j: int)
    requires IsLine(s) && ParseCmd(s).Parsed? && 0 <= j < |Words(ParseCmd(s).cmd)|
    ensures EndsIn(Words(ParseCmd(s).cmd), |s| + 1)
    ensures var ws := Words(ParseCmd(s).cmd); var w, b := ws[j], Cut(s + [NUL], ws);
      && 0 <= w.q <= w.eq <= |s| && b[w.eq] == NUL && b[w.q..w.eq] == s[w.q..w.eq] && forall k :: w.q <= k < w.eq ==>
        b[k] != NUL
  {
    hide ParseLine, Words, IsLine, IsWordChar, IsSpace, IsSymbol, Cut;
    LineWords(s, 0);
    var ws := Words(ParseCmd(s).cmd);
    assert WholeWord(s, ws[j]);
    forall k | 0 <= k < |ws|
      ensures 0 <= ws[k].eq < |s| + 1
    {
      assert WholeWord(s, ws[k]);
    }
    var w, b := ws[j], Cut(s + [NUL], ws);
    CutAt(s + [NUL], ws, w.eq);
    forall i | w.q <= i < w.eq
      ensures b[i] == s[i] != NUL
    {
      CutAt(s + [NUL], ws, i);
      NotNul(s[i]);
      forall k | 0 <= k < |ws|
        ensures ws[k].eq != i
      {
        assert WholeWord(s, ws[k]);
      }
    }
  }
}
