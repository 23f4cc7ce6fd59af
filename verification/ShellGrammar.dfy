/** The shell's grammar, as users write it: sh.c parses exactly the lines whose tokens are in it, to its trees. */
module ShellGrammar {
  import opened ShellParser
  import opened Shell

  // ----- Commands as they are meant

  /** A command as one means it, with its words as strings. */
  datatype Tree =
    | TExec(args: seq<string>)
    | TRedir(t: Tree, file: string, out: bool)
    | TPipe(l: Tree, r: Tree)
    | TList(l: Tree, r: Tree)
    | TBack(t: Tree)

  predicate LegalWord(w: string) {
    w != [] && forall k :: 0 <= k < |w| ==> IsWordChar(w[k])
  }

  /** Words can be typed, and no command has more arguments than the parser takes. */
  predicate Legal(t: Tree) {
    match t
    case TExec(args) => |args| < MAXARGS && forall k :: 0 <= k < |args| ==> LegalWord(args[k])
    case TRedir(c, file, _) => Legal(c) && LegalWord(file)
    case TPipe(l, r) => Legal(l) && Legal(r)
    case TList(l, r) => Legal(l) && Legal(r)
    case TBack(c) => Legal(c)
  }
  predicate InLine(s: string, w: Word) {
    0 <= w.q <= w.eq <= |s|
  }

  function Text(s: string, w: Word): string {
    if InLine(s, w) then s[w.q..w.eq] else ""
  }

  function Texts(s: string, ws: seq<Word>): (r: seq<string>)
    ensures |r| == |ws|
  {
    seq(|ws|, k requires 0 <= k < |ws| => Text(s, ws[k]))
  }

  /** The command that a parsed one stands for. */
  function Meaning(s: string, c: Cmd): Tree {
    match c
    case Exec(argv) => TExec(Texts(s, argv))
    case Redir(d, file, out) => TRedir(Meaning(s, d), Text(s, file), out)
    case Pipe(l, r) => TPipe(Meaning(s, l), Meaning(s, r))
    case List(l, r) => TList(Meaning(s, l), Meaning(s, r))
    case Back(d) => TBack(Meaning(s, d))
  }
  // ----- Tokens

  /** A word, or a symbol; '+' stands for ">>". */
  datatype Tok = TWord(w: string) | TSym(c: char)

  /** The tokens of the line from position i on. */
  function Tokens(s: string, i: int): (ts: seq<Tok>)
    requires 0 <= i <= |s| && IsLine(s)
    decreases |s| - i
  {
    var t := GetToken(s, i);
    if t.ret == NUL then [] else [TokOf(s, t)] + Tokens(s, t.pos)
  }

  function TokOf(s: string, t: Token): Tok {
    if t.ret == 'a' then TWord(Text(s, Word(t.q, t.eq))) else TSym(t.ret)
  }

  /** The character that peek sees. */
  function Front(ts: seq<Tok>): char {
    if ts == [] then NUL else match ts[0]
      case TWord(w) => 'a'
      case TSym(c) => if c == '+' then '>' else c
  }

  lemma TokensSkip(s: string, i: int)
    requires 0 <= i <= |s| && IsLine(s)
    ensures Tokens(s, Skip(s, i)) == Tokens(s, i)
  {
    AtSkip(s, i, "");
  }

  /** The next token begins with the character that peek sees; a word begins with no symbol. */
  lemma FrontChar(s: string, i: int)
    requires 0 <= i <= |s| && IsLine(s)
    ensures var ts, j := Tokens(s, i), Skip(s, i);
      && (j == |s| <==> ts == [])
      && (j < |s| && IsSymbol(s[j]) ==> Front(ts) == s[j])
      && (j < |s| && !IsSymbol(s[j]) ==> Front(ts) == 'a')
  {
    hide Skip, WordEnd, IsLine;
  }

  lemma NextToken(s: string, i: int)
    requires 0 <= i <= |s| && IsLine(s)
    ensures var ts := Tokens(s, i);
      && (GetToken(s, i).ret == NUL <==> ts == [])
      && (ts != [] ==> ts[0] == TokOf(s, GetToken(s, i)) && ts[1..] == Tokens(s, GetToken(s, i).pos))
      && (ts != [] && ts[0].TSym? ==> ts[0].c in "<|>&;()+")
      && (ts != [] && ts[0].TWord? ==> GetToken(s, i).ret == 'a' && LegalWord(ts[0].w))
  {
    var t := GetToken(s, i);
    hide Skip, WordEnd, IsLine;
    if t.ret == 'a' {
      assert IsWordChar(s[t.q]);
    }
  }

  /** peek and gettoken, in terms of the tokens to come. */
  lemma TokensFront(s: string, i: int)
    requires 0 <= i <= |s| && IsLine(s)
    ensures var ts := Tokens(s, i);
      && (PeekAt(s, i, "(") <==> Front(ts) == '(') && (PeekAt(s, i, ")") <==> Front(ts) == ')')
      && (PeekAt(s, i, "|") <==> Front(ts) == '|') && (PeekAt(s, i, "&") <==> Front(ts) == '&')
      && (PeekAt(s, i, ";") <==> Front(ts) == ';') && (PeekAt(s, i, "<>") <==> Front(ts) == '<' || Front(ts) == '>')
      && (PeekAt(s, i, "|)&;") <==> Front(ts) in "|)&;")
      && (GetToken(s, i).ret == NUL <==> ts == [])
      && (ts != [] ==> ts[0] == TokOf(s, GetToken(s, i)) && ts[1..] == Tokens(s, GetToken(s, i).pos))
      && (ts != [] && ts[0].TSym? ==> ts[0].c in "<|>&;()+")
      && (ts != [] && ts[0].TWord? ==> GetToken(s, i).ret == 'a' && LegalWord(ts[0].w))
      && (Skip(s, i) == |s| <==> ts == [])
  {
    FrontChar(s, i);
    NextToken(s, i);
    hide Skip, IsLine, GetToken, Tokens, Front, LegalWord, TokOf;
  }

  // ----- The grammar

  datatype Redirect = Redirect(op: char, file: string)

  /** A word, and the redirections between it and the next. */
  datatype Arg = Arg(w: string, rs: seq<Redirect>)

  datatype Item = Simple(rs: seq<Redirect>, args: seq<Arg>) | Group(line: Line, rs: seq<Redirect>)

  datatype Pipeline = One(item: Item) | Piped(item: Item, rest: Pipeline)

  /** A pipeline, any number of '&', and perhaps ';' and another line. */
  datatype Line = Ends(p: Pipeline, amps: nat) | Goes(p: Pipeline, amps: nat, rest: Line)

  predicate LegalRedirs(rs: seq<Redirect>) {
    forall k :: 0 <= k < |rs| ==> rs[k].op in "<>+" && LegalWord(rs[k].file)
  }

  predicate LegalArgs(args: seq<Arg>) {
    forall k :: 0 <= k < |args| ==> LegalWord(args[k].w) && LegalRedirs(args[k].rs)
  }

  predicate LegalItem(x: Item) {
    match x
    case Simple(rs, args) => |args| < MAXARGS && LegalRedirs(rs) && LegalArgs(args)
    case Group(line, rs) => LegalLine(line) && LegalRedirs(rs)
  }

  predicate LegalPipeline(p: Pipeline) {
    LegalItem(p.item) && (p.Piped? ==> LegalPipeline(p.rest))
  }

  predicate LegalLine(l: Line) {
    LegalPipeline(l.p) && (l.Goes? ==> LegalLine(l.rest))
  }

  // ----- Its tokens

  function RedirToks(rs: seq<Redirect>): seq<Tok> {
    if rs == [] then [] else [TSym(rs[0].op)] + ([TWord(rs[0].file)] + RedirToks(rs[1..]))
  }

  function ArgToks(args: seq<Arg>): seq<Tok> {
    if args == [] then [] else [TWord(args[0].w)] + (RedirToks(args[0].rs) + ArgToks(args[1..]))
  }

  function ItemToks(x: Item): seq<Tok> {
    match x
    case Simple(rs, args) => RedirToks(rs) + ArgToks(args)
    case Group(line, rs) => [TSym('(')] + (LineToks(line) + ([TSym(')')] + RedirToks(rs)))
  }

  function PipeToks(p: Pipeline): seq<Tok> {
    match p
    case One(item) => ItemToks(item)
    case Piped(item, rest) => ItemToks(item) + ([TSym('|')] + PipeToks(rest))
  }

  function Amps(n: nat): seq<Tok> {
    if n == 0 then [] else [TSym('&')] + Amps(n - 1)
  }

  function LineToks(l: Line): seq<Tok> {
    match l
    case Ends(p, amps) => PipeToks(p) + Amps(amps)
    case Goes(p, amps, rest) => PipeToks(p) + (Amps(amps) + ([TSym(';')] + LineToks(rest)))
  }

  // ----- Its trees

  function ArgWordsOf(args: seq<Arg>): seq<string> {
    if args == [] then [] else [args[0].w] + ArgWordsOf(args[1..])
  }

  function ArgRedirs(args: seq<Arg>): seq<Redirect> {
    if args == [] then [] else args[0].rs + ArgRedirs(args[1..])
  }

  /** Each redirection goes around the command and the redirections before it; '>' and ">>" are for output. */
  function Around(t: Tree, rs: seq<Redirect>): Tree
    decreases |rs|
  {
    if rs == [] then t else Around(TRedir(t, rs[0].file, rs[0].op != '<'), rs[1..])
  }

  function BackTree(t: Tree, n: nat): Tree
    decreases n
  {
    if n == 0 then t else BackTree(TBack(t), n - 1)
  }

  function ItemTree(x: Item): Tree {
    match x
    case Simple(rs, args) => Around(TExec(ArgWordsOf(args)), rs + ArgRedirs(args))
    case Group(line, rs) => Around(LineTree(line), rs)
  }

  function PipeTree(p: Pipeline): Tree {
    match p
    case One(item) => ItemTree(item)
    case Piped(item, rest) => TPipe(ItemTree(item), PipeTree(rest))
  }

  function LineTree(l: Line): Tree {
    match l
    case Ends(p, amps) => BackTree(PipeTree(p), amps)
    case Goes(p, amps, rest) => TList(BackTree(PipeTree(p), amps), LineTree(rest))
  }

  // ----- Redirections

  /** The redirections of a parsed command are these. */
  predicate SameReds(s: string, got: seq<Redirection>, rs: seq<Redirect>) {
    |got| == |rs| && forall k :: 0 <= k < |rs| ==> Text(s, got[k].file) == rs[k].file && got[k].out == (rs[k].op != '<')
  }

  lemma SameRedsJoin(s: string, g: seq<Redirection>, a: seq<Redirect>, h: seq<Redirection>, b: seq<Redirect>)
    requires SameReds(s, g, a) && SameReds(s, h, b)
    ensures SameReds(s, g + h, a + b)
  {
    hide Text;
  }

  lemma SameRed(s: string, f: Word, out: bool, r: Redirect)
    requires Text(s, f) == r.file && out == (r.op != '<')
    ensures SameReds(s, [Redirection(f, out)], [r])
  {
  }

  lemma {:induction false} WrapAround(s: string, c: Cmd, t: Tree, got: seq<Redirection>, rs: seq<Redirect>)
    requires Meaning(s, c) == t && SameReds(s, got, rs)
    ensures Meaning(s, Wrap(c, got)) == Around(t, rs)
    decreases |rs|
  {
    if rs != [] {
      WrapAround(s, Redir(c, got[0].file, got[0].out), TRedir(t, rs[0].file, rs[0].op != '<'), got[1..], rs[1..]);
    }
  }

  lemma SplitFront(ts: seq<Tok>, a: Tok, b: seq<Tok>, rest: seq<Tok>)
    requires ts == [a] + b + rest
    ensures ts != [] && ts[0] == a && ts[1..] == b + rest
  {
  }

  predicate NoRedir(rest: seq<Tok>) {
    Front(rest) != '<' && Front(rest) != '>'
  }

  lemma {:induction false} RedirsAccepted(s: string, i: int, rs: seq<Redirect>, rest: seq<Tok>)
    requires 0 <= i <= |s| && IsLine(s) && Tokens(s, i) == RedirToks(rs) + rest && NoRedir(rest) && LegalRedirs(rs)
    ensures var r := RedirsFrom(s, i); r.Redirs? && SameReds(s, r.rs, rs) && Tokens(s, r.pos) == rest
    decreases |rs|
  {
    hide GetToken, Skip, PeekAt, Tokens, RedirsFrom, IsLine, LegalWord, SameReds, Text;
    TokensFront(s, i);
    TokensSkip(s, i);
    RedirUnfold(s, i);
    if rs != [] {
      var t, r := GetToken(s, i), rs[0];
      SplitFront(Tokens(s, i), TSym(r.op), [TWord(r.file)] + RedirToks(rs[1..]), rest);
      TokensFront(s, t.pos);
      var f := GetToken(s, t.pos);
      SplitFront(Tokens(s, t.pos), TWord(r.file), RedirToks(rs[1..]), rest);
      RedirsAccepted(s, f.pos, rs[1..], rest);
      SameRed(s, Word(f.q, f.eq), t.ret != '<', r);
      SameRedsJoin(s, [Redirection(Word(f.q, f.eq), t.ret != '<')], [r], RedirsFrom(s, f.pos).rs, rs[1..]);
      assert [r] + rs[1..] == rs;
    } else {
      assert RedirToks(rs) + rest == rest;
      SameNone(s);
    }
  }

  lemma SameNone(s: string)
    ensures SameReds(s, [], [])
  {
  }

  // ----- The parser accepts the grammar

  /** What may follow a simple command. */
  predicate Stops(rest: seq<Tok>) {
    rest == [] || (rest[0].TSym? && rest[0].c in "|)&;")
  }

  lemma ArgToksFront(args: seq<Arg>, rest: seq<Tok>)
    requires Stops(rest)
    ensures NoRedir(ArgToks(args) + rest) && Front(ArgToks(args) + rest) != '('
  {
    if args == [] {
      assert ArgToks(args) + rest == rest;
    }
  }

  ghost predicate ArgsGive(s: string, r: ArgsResult, args: seq<Arg>, rest: seq<Tok>)
    requires IsLine(s)
  {
    && r.Args? && 0 <= r.pos <= |s| && Texts(s, r.argv) == ArgWordsOf(args) && SameReds(s, r.rs, ArgRedirs(args))
    && Tokens(s, r.pos) == rest
  }

  lemma {:induction false} ArgsAccepted(s: string, i: int, n: nat, args: seq<Arg>, rest: seq<Tok>)
    requires 0 <= i <= |s| && IsLine(s) && Tokens(s, i) == ArgToks(args) + rest
    requires Stops(rest) && LegalArgs(args) && n + |args| < MAXARGS
    ensures ArgsGive(s, ArgsFrom(s, i, n), args, rest)
    decreases |args|
  {
    hide GetToken, Skip, PeekAt, Tokens, RedirsFrom, ArgsFrom, IsLine, LegalWord, LegalRedirs, SameReds, Text, Texts,
      RedirToks, ArgsGive, Stops, NoRedir;
    TokensFront(s, i);
    ArgsUnfold(s, i, n);
    if args == [] {
      assert ArgToks(args) + rest == rest;
      NoArgsGive(s, i, n, rest);
    } else {
      var a, t := args[0], GetToken(s, i);
      SplitFront(Tokens(s, i), TWord(a.w), RedirToks(a.rs) + ArgToks(args[1..]), rest);
      var more := ArgToks(args[1..]) + rest;
      assert Tokens(s, t.pos) == RedirToks(a.rs) + more;
      ArgToksFront(args[1..], rest);
      RedirsAccepted(s, t.pos, a.rs, more);
      var r := RedirsFrom(s, t.pos);
      assert LegalArgs(args[1..]);
      ArgsAccepted(s, r.pos, n + 1, args[1..], rest);
      ArgsJoin(s, Word(t.q, t.eq), r.rs, args, ArgsFrom(s, r.pos, n + 1), rest);
    }
  }

  lemma NoArgsGive(s: string, i: int, n: nat, rest: seq<Tok>)
    requires 0 <= i <= |s| && IsLine(s) && Tokens(s, i) == rest && Stops(rest)
    ensures ArgsGive(s, ArgsFrom(s, i, n), [], rest)
  {
    hide GetToken, Skip, PeekAt, Tokens, ArgsFrom, IsLine, LegalWord, Text;
    TokensFront(s, i);
    TokensSkip(s, i);
    ArgsUnfold(s, i, n);
    if rest == [] {
      NoTokens(s, i);
    }
  }

  lemma NoTokens(s: string, i: int)
    requires 0 <= i <= |s| && IsLine(s) && GetToken(s, i).ret == NUL
    ensures GetToken(s, i).pos == |s| && Tokens(s, |s|) == [] && Tokens(s, i) == []
  {
    assert Tokens(s, i) == [];
  }

  lemma TextsCons(s: string, w: Word, ws: seq<Word>)
    ensures Texts(s, [w] + ws) == [Text(s, w)] + Texts(s, ws)
  {
  }

  lemma ArgsJoin(s: string, w: Word, rs: seq<Redirection>, args: seq<Arg>, more: ArgsResult, rest: seq<Tok>)
    requires IsLine(s) && args != [] && Text(s, w) == args[0].w && SameReds(s, rs, args[0].rs)
    requires ArgsGive(s, more, args[1..], rest)
    ensures ArgsGive(s, Joined([w], rs, more), args, rest)
  {
    hide Text, Tokens, SameReds;
    TextsCons(s, w, more.argv);
    SameRedsJoin(s, rs, args[0].rs, more.rs, ArgRedirs(args[1..]));
  }

  /** The parse gives this tree, and leaves these tokens. */
  ghost predicate Gives(s: string, r: Parse, t: Tree, rest: seq<Tok>)
    requires IsLine(s)
  {
    r.Parsed? && 0 <= r.pos <= |s| && Meaning(s, r.cmd) == t && Tokens(s, r.pos) == rest
  }

  lemma SimpleAccepted(s: string, i: int, rs: seq<Redirect>, args: seq<Arg>, rest: seq<Tok>)
    requires 0 <= i <= |s| && IsLine(s) && Tokens(s, i) == ItemToks(Simple(rs, args)) + rest
    requires LegalItem(Simple(rs, args)) && Stops(rest)
    ensures Gives(s, ParseExec(s, i), ItemTree(Simple(rs, args)), rest)
  {
    hide GetToken, Skip, PeekAt, Tokens, RedirsFrom, ArgsFrom, IsLine, LegalRedirs, LegalArgs, SameReds, Text, Texts,
      RedirToks, ArgToks, ArgWordsOf, ArgRedirs, Wrap, Around, Meaning, Stops, NoRedir;
    var more := ArgToks(args) + rest;
    assert Tokens(s, i) == RedirToks(rs) + more;
    TokensFront(s, i);
    TokensSkip(s, i);
    ArgToksFront(args, rest);
    RedirsFront(rs, more);
    RedirsAccepted(s, Skip(s, i), rs, more);
    var r := RedirsFrom(s, Skip(s, i));
    ArgsAccepted(s, r.pos, 0, args, rest);
    var a := ArgsFrom(s, r.pos, 0);
    SameRedsJoin(s, r.rs, rs, a.rs, ArgRedirs(args));
    ExecMeans(s, a.argv);
    WrapAround(s, Exec(a.argv), TExec(ArgWordsOf(args)), r.rs + a.rs, rs + ArgRedirs(args));
  }

  lemma ExecMeans(s: string, argv: seq<Word>)
    ensures Meaning(s, Exec(argv)) == TExec(Texts(s, argv))
  {
  }

  lemma RedirsFront(rs: seq<Redirect>, more: seq<Tok>)
    requires LegalRedirs(rs) && Front(more) != '('
    ensures Front(RedirToks(rs) + more) != '('
  {
    if rs == [] {
      assert RedirToks(rs) + more == more;
    }
  }

  lemma {:induction false} ItemAccepted(s: string, i: int, x: Item, rest: seq<Tok>)
    requires 0 <= i <= |s| && IsLine(s) && Tokens(s, i) == ItemToks(x) + rest && LegalItem(x) && Stops(rest)
    ensures Gives(s, ParseExec(s, i), ItemTree(x), rest)
    decreases x
  {
    hide GetToken, Skip, PeekAt, Tokens, RedirsFrom, ArgsFrom, IsLine, LegalRedirs, LegalArgs, SameReds, Text, Texts,
      RedirToks, ArgToks, LineToks, ArgWordsOf, ArgRedirs, LineTree, Wrap, Around, Meaning, LegalLine, ParseLine;
    match x
    case Simple(rs, args) =>
      SimpleAccepted(s, i, rs, args, rest);
    case Group(line, rs) =>
      SplitFront(Tokens(s, i), TSym('('), LineToks(line) + ([TSym(')')] + RedirToks(rs)), rest);
      TokensFront(s, i);
      var k := GetToken(s, i).pos;
      var more := [TSym(')')] + RedirToks(rs) + rest;
      assert Tokens(s, k) == LineToks(line) + more;
      LineAccepted(s, k, line, more);
      var r := ParseLine(s, k);
      TokensFront(s, r.pos);
      SplitFront(more, TSym(')'), RedirToks(rs), rest);
      RedirsAccepted(s, GetToken(s, r.pos).pos, rs, rest);
      var q := RedirsFrom(s, GetToken(s, r.pos).pos);
      WrapAround(s, r.cmd, LineTree(line), q.rs, rs);
  }

  lemma {:induction false} PipeAccepted(s: string, i: int, p: Pipeline, rest: seq<Tok>)
    requires 0 <= i <= |s| && IsLine(s) && Tokens(s, i) == PipeToks(p) + rest && LegalPipeline(p)
    requires Stops(rest) && Front(rest) != '|'
    ensures Gives(s, ParsePipe(s, i), PipeTree(p), rest)
    decreases p
  {
    hide GetToken, Skip, PeekAt, Tokens, IsLine, ItemToks, ItemTree, LegalItem, ParseExec;
    match p
    case One(item) =>
      ItemAccepted(s, i, item, rest);
      var r := ParseExec(s, i);
      TokensFront(s, r.pos);
      TokensSkip(s, r.pos);
    case Piped(item, right) =>
      var more := [TSym('|')] + PipeToks(right) + rest;
      assert Tokens(s, i) == ItemToks(item) + more;
      ItemAccepted(s, i, item, more);
      var r := ParseExec(s, i);
      TokensFront(s, r.pos);
      SplitFront(more, TSym('|'), PipeToks(right), rest);
      PipeAccepted(s, GetToken(s, r.pos).pos, right, rest);
  }

  lemma {:induction false} BacksAccepted(s: string, c: Cmd, i: int, n: nat, t: Tree, rest: seq<Tok>)
    requires 0 <= i <= |s| && IsLine(s) && Tokens(s, i) == Amps(n) + rest && Front(rest) != '&' && Meaning(s, c) == t
    ensures var (d, k) := Backs(s, c, i); Meaning(s, d) == BackTree(t, n) && Tokens(s, k) == rest
    decreases n
  {
    hide GetToken, Skip, PeekAt, Tokens, IsLine, Text, Texts;
    TokensFront(s, i);
    TokensSkip(s, i);
    if n == 0 {
      assert Amps(n) + rest == rest;
    } else {
      SplitFront(Tokens(s, i), TSym('&'), Amps(n - 1), rest);
      BacksAccepted(s, Back(c), GetToken(s, i).pos, n - 1, TBack(t), rest);
    }
  }

  /** What may follow a line: nothing, or the parenthesis around it. */
  predicate Closes(rest: seq<Tok>) {
    rest == [] || rest[0] == TSym(')')
  }

  lemma AmpsFront(n: nat, rest: seq<Tok>)
    requires Stops(rest) && Front(rest) != '|'
    ensures Stops(Amps(n) + rest) && Front(Amps(n) + rest) != '|'
  {
    if n == 0 {
      assert Amps(n) + rest == rest;
    }
  }

  lemma {:induction false} LineAccepted(s: string, i: int, l: Line, rest: seq<Tok>)
    requires 0 <= i <= |s| && IsLine(s) && Tokens(s, i) == LineToks(l) + rest && LegalLine(l) && Closes(rest)
    ensures Gives(s, ParseLine(s, i), LineTree(l), rest)
    decreases l
  {
    hide GetToken, Skip, PeekAt, Tokens, IsLine, Amps, PipeToks, PipeTree, LegalPipeline, ParsePipe, Backs, BackTree;
    var more := if l.Ends? then rest else [TSym(';')] + LineToks(l.rest) + rest;
    assert Tokens(s, i) == PipeToks(l.p) + (Amps(l.amps) + more);
    AmpsFront(l.amps, more);
    PipeAccepted(s, i, l.p, Amps(l.amps) + more);
    var r := ParsePipe(s, i);
    BacksAccepted(s, r.cmd, r.pos, l.amps, PipeTree(l.p), more);
    var (c, k) := Backs(s, r.cmd, r.pos);
    TokensFront(s, k);
    TokensSkip(s, k);
    if l.Goes? {
      SplitFront(more, TSym(';'), LineToks(l.rest), rest);
      LineAccepted(s, GetToken(s, k).pos, l.rest, rest);
    }
  }

  // ----- The grammar has all that the parser accepts

  lemma Assoc(t: Tok, ts: seq<Tok>, a: seq<Tok>, b: seq<Tok>)
    requires ts == a + b
    ensures [t] + ts == ([t] + a) + b
  {
  }

  lemma Regroup(a: seq<Tok>, b: seq<Tok>, c: seq<Tok>)
    ensures a + (b + c) == (a + b) + c
  {
  }

  lemma {:induction false} RedirsRead(s: string, i: int) returns (rs: seq<Redirect>)
    requires 0 <= i <= |s| && IsLine(s) && RedirsFrom(s, i).Redirs?
    ensures LegalRedirs(rs) && SameReds(s, RedirsFrom(s, i).rs, rs)
    ensures Tokens(s, i) == RedirToks(rs) + Tokens(s, RedirsFrom(s, i).pos)
    decreases |s| - i
  {
    hide GetToken, Skip, PeekAt, Tokens, RedirsFrom, IsLine, LegalWord, SameReds, Text;
    TokensFront(s, i);
    TokensSkip(s, i);
    RedirUnfold(s, i);
    AtSkip(s, i, "<>");
    if PeekAt(s, i, "<>") {
      var t := GetToken(s, i);
      TokensFront(s, t.pos);
      var f := GetToken(s, t.pos);
      var more := RedirsRead(s, f.pos);
      var r := Redirect(t.ret, Text(s, Word(f.q, f.eq)));
      rs := [r] + more;
      SameRed(s, Word(f.q, f.eq), t.ret != '<', r);
      SameRedsJoin(s, [Redirection(Word(f.q, f.eq), t.ret != '<')], [r], RedirsFrom(s, f.pos).rs, more);
    } else {
      rs := [];
      SameNone(s);
    }
  }

  lemma {:induction false} ArgsRead(s: string, i: int, n: nat) returns (args: seq<Arg>)
    requires 0 <= i <= |s| && IsLine(s) && ArgsFrom(s, i, n).Args? && n < MAXARGS
    ensures n + |args| < MAXARGS && LegalArgs(args)
    ensures ArgsGive(s, ArgsFrom(s, i, n), args, Tokens(s, ArgsFrom(s, i, n).pos))
    ensures Tokens(s, i) == ArgToks(args) + Tokens(s, ArgsFrom(s, i, n).pos)
    decreases |s| - i
  {
    hide GetToken, Skip, PeekAt, Tokens, RedirsFrom, ArgsFrom, IsLine, LegalWord, LegalRedirs, SameReds, Text, Texts,
      RedirToks, ArgsGive;
    TokensFront(s, i);
    TokensSkip(s, i);
    ArgsUnfold(s, i, n);
    var t := GetToken(s, i);
    if PeekAt(s, i, "|)&;") || t.ret == NUL {
      args := [];
      NothingRead(s, i, n);
    } else {
      TokenMoves(s, i);
      var rs := RedirsRead(s, t.pos);
      var r := RedirsFrom(s, t.pos);
      var more := ArgsRead(s, r.pos, n + 1);
      args := [Arg(Text(s, Word(t.q, t.eq)), rs)] + more;
      assert args[1..] == more;
      var m := ArgsFrom(s, r.pos, n + 1);
      ArgsJoin(s, Word(t.q, t.eq), r.rs, args, m, Tokens(s, m.pos));
      Regroup(RedirToks(rs), ArgToks(more), Tokens(s, m.pos));
      Assoc(TWord(args[0].w), Tokens(s, t.pos), RedirToks(rs) + ArgToks(more), Tokens(s, m.pos));
    }
  }

  lemma NothingRead(s: string, i: int, n: nat)
    requires 0 <= i <= |s| && IsLine(s) && (PeekAt(s, i, "|)&;") || GetToken(s, i).ret == NUL)
    ensures ArgsGive(s, ArgsFrom(s, i, n), [], Tokens(s, i))
    ensures Tokens(s, ArgsFrom(s, i, n).pos) == Tokens(s, i)
  {
    hide GetToken, Skip, PeekAt, Tokens, ArgsFrom, IsLine, Text;
    TokensSkip(s, i);
    ArgsUnfold(s, i, n);
    if GetToken(s, i).ret == NUL {
      NoTokens(s, i);
    }
  }

  lemma SimpleRead(s: string, i: int) returns (x: Item)
    requires 0 <= i <= |s| && IsLine(s) && ParseExec(s, i).Parsed? && !PeekAt(s, i, "(")
    ensures LegalItem(x) && Tokens(s, i) == ItemToks(x) + Tokens(s, ParseExec(s, i).pos)
    ensures Meaning(s, ParseExec(s, i).cmd) == ItemTree(x)
  {
    hide GetToken, Skip, PeekAt, Tokens, RedirsFrom, ArgsFrom, IsLine, LegalRedirs, LegalArgs, SameReds, Text, Texts,
      RedirToks, ArgToks, ArgWordsOf, ArgRedirs, Wrap, Around, Meaning;
    TokensSkip(s, i);
    var rs := RedirsRead(s, Skip(s, i));
    var r := RedirsFrom(s, Skip(s, i));
    var args := ArgsRead(s, r.pos, 0);
    var a := ArgsFrom(s, r.pos, 0);
    x := Simple(rs, args);
    SameRedsJoin(s, r.rs, rs, a.rs, ArgRedirs(args));
    ExecMeans(s, a.argv);
    WrapAround(s, Exec(a.argv), TExec(ArgWordsOf(args)), r.rs + a.rs, rs + ArgRedirs(args));
  }

  lemma {:induction false} ItemRead(s: string, i: int) returns (x: Item)
    requires 0 <= i <= |s| && IsLine(s) && ParseExec(s, i).Parsed?
    ensures LegalItem(x) && Tokens(s, i) == ItemToks(x) + Tokens(s, ParseExec(s, i).pos)
    ensures Meaning(s, ParseExec(s, i).cmd) == ItemTree(x)
    decreases |s| - i, 1
  {
    hide GetToken, Skip, PeekAt, Tokens, RedirsFrom, ArgsFrom, IsLine, LegalRedirs, LegalArgs, SameReds, Text, Texts,
      RedirToks, ArgToks, LineToks, ArgWordsOf, ArgRedirs, LineTree, Wrap, Around, Meaning, LegalLine, ParseLine;
    if PeekAt(s, i, "(") {
      TokensFront(s, i);
      AtSkip(s, i, "(");
      var k := GetToken(s, i).pos;
      var line := LineRead(s, k);
      var r := ParseLine(s, k);
      TokensFront(s, r.pos);
      var e := GetToken(s, r.pos).pos;
      var rs := RedirsRead(s, e);
      x := Group(line, rs);
      WrapAround(s, r.cmd, LineTree(line), RedirsFrom(s, e).rs, rs);
      assert Tokens(s, i) == [TSym('(')] + Tokens(s, k);
      assert Tokens(s, r.pos) == [TSym(')')] + Tokens(s, e);
    } else {
      x := SimpleRead(s, i);
    }
  }

  lemma {:induction false} PipeRead(s: string, i: int) returns (p: Pipeline)
    requires 0 <= i <= |s| && IsLine(s) && ParsePipe(s, i).Parsed?
    ensures LegalPipeline(p) && Tokens(s, i) == PipeToks(p) + Tokens(s, ParsePipe(s, i).pos)
    ensures Meaning(s, ParsePipe(s, i).cmd) == PipeTree(p)
    decreases |s| - i, 2
  {
    hide GetToken, Skip, PeekAt, Tokens, IsLine, ItemToks, ItemTree, LegalItem, ParseExec;
    var item := ItemRead(s, i);
    var r := ParseExec(s, i);
    TokensFront(s, r.pos);
    TokensSkip(s, r.pos);
    AtSkip(s, r.pos, "|");
    if PeekAt(s, r.pos, "|") {
      var k := GetToken(s, r.pos).pos;
      var right := PipeRead(s, k);
      p := Piped(item, right);
      assert Tokens(s, r.pos) == [TSym('|')] + Tokens(s, k);
    } else {
      p := One(item);
    }
  }

  lemma {:induction false} BacksRead(s: string, c: Cmd, i: int) returns (n: nat)
    requires 0 <= i <= |s| && IsLine(s)
    ensures Tokens(s, i) == Amps(n) + Tokens(s, Backs(s, c, i).1)
    ensures Meaning(s, Backs(s, c, i).0) == BackTree(Meaning(s, c), n)
    decreases |s| - i
  {
    hide GetToken, Skip, PeekAt, Tokens, IsLine, Text, Texts;
    TokensFront(s, i);
    TokensSkip(s, i);
    AtSkip(s, i, "&");
    if PeekAt(s, i, "&") {
      var k := GetToken(s, i).pos;
      var m := BacksRead(s, Back(c), k);
      n := m + 1;
      Assoc(TSym('&'), Tokens(s, k), Amps(m), Tokens(s, Backs(s, Back(c), k).1));
    } else {
      n := 0;
    }
  }

  lemma {:induction false} LineRead(s: string, i: int) returns (l: Line)
    requires 0 <= i <= |s| && IsLine(s) && ParseLine(s, i).Parsed?
    ensures LegalLine(l) && Tokens(s, i) == LineToks(l) + Tokens(s, ParseLine(s, i).pos)
    ensures Meaning(s, ParseLine(s, i).cmd) == LineTree(l)
    decreases |s| - i, 3
  {
    hide GetToken, Skip, PeekAt, Tokens, IsLine, Amps, PipeToks, PipeTree, LegalPipeline, ParsePipe, Backs, BackTree;
    var p := PipeRead(s, i);
    var r := ParsePipe(s, i);
    var n := BacksRead(s, r.cmd, r.pos);
    var (c, k) := Backs(s, r.cmd, r.pos);
    TokensFront(s, k);
    TokensSkip(s, k);
    AtSkip(s, k, ";");
    if PeekAt(s, k, ";") {
      var e := GetToken(s, k).pos;
      var rest := LineRead(s, e);
      l := Goes(p, n, rest);
      assert Tokens(s, k) == [TSym(';')] + Tokens(s, e);
    } else {
      l := Ends(p, n);
    }
  }

  // ----- Whole lines

  /** A line in the grammar is parsed to its tree. */
  lemma LineParsesTo(s: string, l: Line)
    requires IsLine(s) && LegalLine(l) && Tokens(s, 0) == LineToks(l)
    ensures ParseCmd(s).Parsed? && Meaning(s, ParseCmd(s).cmd) == LineTree(l)
  {
    hide GetToken, Skip, PeekAt, Tokens, IsLine, ParseLine, LineToks, LineTree, LegalLine;
    assert Tokens(s, 0) == LineToks(l) + [];
    LineAccepted(s, 0, l, []);
    TokensFront(s, ParseLine(s, 0).pos);
  }

  /** The parser panics exactly on the lines whose tokens are no command in the grammar. */
  lemma ParsesIff(s: string)
    requires IsLine(s)
    ensures ParseCmd(s).Parsed? <==> exists l :: LegalLine(l) && Tokens(s, 0) == LineToks(l)
  {
    hide GetToken, Skip, PeekAt, Tokens, IsLine, ParseLine, LineToks, LineTree, LegalLine, Meaning;
    if ParseCmd(s).Parsed? {
      var l := LineRead(s, 0);
      TokensFront(s, ParseLine(s, 0).pos);
      assert Tokens(s, 0) == LineToks(l);
    }
    forall l | LegalLine(l) && Tokens(s, 0) == LineToks(l)
      ensures ParseCmd(s).Parsed?
    {
      LineParsesTo(s, l);
    }
  }

  // ----- Lines as they are typed

  predicate LegalTok(t: Tok) {
    match t
    case TWord(w) => LegalWord(w)
    case TSym(c) => c in "<|>&;()+"
  }

  function TokText(t: Tok): (r: string)
    requires LegalTok(t)
    ensures r != [] && !IsSpace(r[0])
  {
    match t
    case TWord(w) => w
    case TSym(c) => if c == '+' then ">>" else [c]
  }

  /** White space is needed between two words, and between two tokens that would otherwise begin with ">>". */
  predicate Sticks(a: Tok, b: Tok) {
    || (a.TWord? && b.TWord?)
    || (a == TSym('>') && (b == TSym('>') || b == TSym('+')))
  }

  predicate Blank(gap: string) {
    forall k :: 0 <= k < |gap| ==> IsSpace(gap[k])
  }

  predicate Proper(ts: seq<Tok>, gaps: seq<string>) {
    && |gaps| == |ts| + 1
    && (forall k :: 0 <= k < |gaps| ==> Blank(gaps[k]))
    && (forall k :: 0 <= k < |ts| ==> LegalTok(ts[k]))
    && (forall k :: 0 <= k < |ts| - 1 && Sticks(ts[k], ts[k + 1]) ==> gaps[k + 1] != "")
  }

  /** The tokens with white space before, between and behind them. */
  function Spell(ts: seq<Tok>, gaps: seq<string>): string
    requires Proper(ts, gaps)
    decreases |ts|
  {
    if ts == [] then gaps[0] else gaps[0] + (TokText(ts[0]) + Spell(ts[1..], gaps[1..]))
  }

  lemma SpellHead(ts: seq<Tok>, gaps: seq<string>)
    requires Proper(ts, gaps)
    ensures var p := Spell(ts, gaps);
      && (ts == [] && gaps[0] == "" ==> p == "")
      && (gaps[0] != "" ==> p != "" && IsSpace(p[0]))
      && (ts != [] && gaps[0] == "" ==> p != "" && p[0] == TokText(ts[0])[0])
  {
  }

  lemma {:induction false} SkipGap(s: string, i: int, j: int)
    requires 0 <= i <= j <= |s| && (forall k :: i <= k < j ==> IsSpace(s[k])) && (j < |s| ==> !IsSpace(s[j]))
    ensures Skip(s, i) == j
    decreases j - i
  {
    if i < j {
      SkipGap(s, i + 1, j);
    }
  }

  lemma {:induction false} WordEndsAt(s: string, i: int, e: int)
    requires IsLine(s) && 0 <= i <= e <= |s| && (forall k :: i <= k < e ==> IsWordChar(s[k]))
    requires e < |s| ==> !IsWordChar(s[e])
    ensures WordEnd(s, i) == e
    decreases e - i
  {
    if i < e {
      WordEndsAt(s, i + 1, e);
    }
  }

  lemma TextHere(s: string, i: int, p: string, q: string)
    requires 0 <= i <= |s| && s[i..] == p + q
    ensures i + |p| <= |s| && s[i..i + |p|] == p && s[i + |p|..] == q
    ensures forall k :: 0 <= k < |p| ==> s[i + k] == p[k]
  {
    assert |s[i..]| == |p| + |q|;
    assert s[i..i + |p|] == s[i..][..|p|];
    assert s[i + |p|..] == s[i..][|p|..];
    forall k | 0 <= k < |p|
      ensures s[i + k] == p[k]
    {
      assert s[i..][k] == (p + q)[k];
    }
  }

  /** gettoken at a token's first character, if what follows does not stick to it. */
  lemma TokenHere(s: string, j: int, t: Tok)
    requires 0 <= j < |s| && IsLine(s) && LegalTok(t)
    requires var e := j + |TokText(t)|;
      && e <= |s| && s[j..e] == TokText(t)
      && (e < |s| && t.TWord? ==> !IsWordChar(s[e])) && (e < |s| && t == TSym('>') ==> s[e] != '>')
    ensures var g := GetToken(s, j);
      g.ret != NUL && TokOf(s, g) == t && g.pos == Skip(s, j + |TokText(t)|)
  {
    var e := j + |TokText(t)|;
    assert forall k :: 0 <= k < |TokText(t)| ==> s[j..e][k] == s[j + k];
    assert s[j] == TokText(t)[0];
    SkipGap(s, j, j);
    if t.TWord? {
      assert forall k :: j <= k < e ==> s[k] == t.w[k - j];
      assert IsWordChar(t.w[0]);
      WordEndsAt(s, j, e);
    }
    hide WordEnd;
  }

  lemma SpellParts(ts: seq<Tok>, gaps: seq<string>)
    requires Proper(ts, gaps)
    ensures Blank(gaps[0]) && (ts == [] ==> Spell(ts, gaps) == gaps[0] + "")
    ensures ts != [] ==> LegalTok(ts[0]) && Proper(ts[1..], gaps[1..])
    ensures ts != [] ==> Spell(ts, gaps) == gaps[0] + (TokText(ts[0]) + Spell(ts[1..], gaps[1..]))
  {
    hide Blank, LegalTok, Sticks;
    if ts != [] {
      assert forall k :: 0 <= k < |ts[1..]| ==> ts[1..][k] == ts[k + 1];
      assert forall k :: 0 <= k < |gaps[1..]| ==> gaps[1..][k] == gaps[k + 1];
    }
  }

  /** White space, and a token that nothing sticks to. */
  lemma TokenBehind(s: string, i: int, gap: string, t: Tok, rest: string)
    requires 0 <= i <= |s| && IsLine(s) && Blank(gap) && LegalTok(t) && s[i..] == gap + (TokText(t) + rest)
    requires rest != "" && t.TWord? ==> !IsWordChar(rest[0])
    requires rest != "" && t == TSym('>') ==> rest[0] != '>'
    ensures var e := i + |gap| + |TokText(t)|;
      e <= |s| && s[e..] == rest && Tokens(s, i) == [t] + Tokens(s, e)
  {
    hide GetToken, Skip, IsLine, IsSpace, IsSymbol, TokText, LegalTok, TokOf;
    var j := i + |gap|;
    TextHere(s, i, gap, TokText(t) + rest);
    TextHere(s, j, TokText(t), rest);
    SkipGap(s, i, j);
    assert s[j] == TokText(t)[0];
    TokensSkip(s, i);
    assert rest != "" ==> s[j + |TokText(t)|] == rest[0];
    TokenHere(s, j, t);
    TokensSkip(s, j + |TokText(t)|);
  }

  lemma {:induction false} Lexed(s: string, i: int, ts: seq<Tok>, gaps: seq<string>)
    requires 0 <= i <= |s| && IsLine(s) && Proper(ts, gaps) && s[i..] == Spell(ts, gaps)
    ensures Tokens(s, i) == ts
    decreases |ts|
  {
    hide GetToken, Skip, IsLine, LegalTok, TokText, IsSpace, IsSymbol, Sticks, Proper, Spell, Tokens;
    SpellParts(ts, gaps);
    assert |gaps| == |ts| + 1 by { ProperLength(ts, gaps); }
    if ts == [] {
      TextHere(s, i, gaps[0], "");
      SkipGap(s, i, |s|);
      TokensSkip(s, i);
      AtEnd(s);
    } else {
      var rest := Spell(ts[1..], gaps[1..]);
      Unstuck(ts, gaps, rest);
      TokenBehind(s, i, gaps[0], ts[0], rest);
      Lexed(s, i + |gaps[0]| + |TokText(ts[0])|, ts[1..], gaps[1..]);
    }
  }

  lemma ProperLength(ts: seq<Tok>, gaps: seq<string>)
    requires Proper(ts, gaps)
    ensures |gaps| == |ts| + 1
  {
  }

  lemma AtEnd(s: string)
    requires IsLine(s)
    ensures Tokens(s, |s|) == []
  {
  }

  lemma Unstuck(ts: seq<Tok>, gaps: seq<string>, rest: string)
    requires Proper(ts, gaps) && ts != [] && Proper(ts[1..], gaps[1..]) && rest == Spell(ts[1..], gaps[1..])
    ensures rest != "" && ts[0].TWord? ==> !IsWordChar(rest[0])
    ensures rest != "" && ts[0] == TSym('>') ==> rest[0] != '>'
  {
    hide Spell;
    SpellHead(ts[1..], gaps[1..]);
    if |ts| > 1 && gaps[1] == "" {
      assert ts[1..][0] == ts[1];
      assert !Sticks(ts[0], ts[1]);
      assert LegalTok(ts[1]);
      HeadOf(ts[1]);
    }
  }

  lemma HeadOf(t: Tok)
    requires LegalTok(t)
    ensures var c := TokText(t)[0]; (t.TSym? ==> !IsWordChar(c)) && (c == '>' <==> t == TSym('>') || t == TSym('+'))
  {
    if t.TWord? {
      assert IsWordChar(t.w[0]);
    }
  }

  lemma {:induction false} SpellIsLine(ts: seq<Tok>, gaps: seq<string>)
    requires Proper(ts, gaps)
    ensures IsLine(Spell(ts, gaps))
    decreases |ts|
  {
    assert Blank(gaps[0]);
    if ts != [] {
      assert LegalTok(ts[0]);
      SpellIsLine(ts[1..], gaps[1..]);
    }
  }

  /** However its tokens are spaced, what is typed is read as those tokens. */
  lemma TypedTokens(ts: seq<Tok>, gaps: seq<string>)
    requires Proper(ts, gaps)
    ensures IsLine(Spell(ts, gaps)) && Tokens(Spell(ts, gaps), 0) == ts
  {
    hide Proper, Spell, Tokens;
    SpellIsLine(ts, gaps);
    var s := Spell(ts, gaps);
    assert s[0..] == s;
    Lexed(s, 0, ts, gaps);
  }

  /** And every line is its tokens, spaced. */
  lemma {:induction false} LineIsSpelled(s: string, i: int) returns (gaps: seq<string>)
    requires 0 <= i <= |s| && IsLine(s)
    ensures Proper(Tokens(s, i), gaps) && s[i..] == Spell(Tokens(s, i), gaps)
    decreases |s| - i
  {
    hide GetToken, Skip, IsLine, LegalTok, TokText, IsSpace, IsSymbol, Sticks;
    var t := GetToken(s, i);
    TokenText(s, i);
    var gap := s[i..t.q];
    if t.ret == NUL {
      gaps := [gap];
      assert s[i..] == gap;
    } else {
      var more := LineIsSpelled(s, t.eq);
      TokensSkip(s, t.eq);
      var ts := Tokens(s, i);
      assert ts == [TokOf(s, t)] + Tokens(s, t.eq);
      assert ts[1..] == Tokens(s, t.eq);
      gaps := [gap] + more;
      assert gaps[1..] == more;
      if ts[1..] != [] && more[0] == "" {
        SpellHead(ts[1..], more);
        assert s[t.eq..][0] == s[t.eq];
        assert LegalTok(ts[1..][0]);
        HeadOf(ts[1..][0]);
        StickOnly(s, t, ts[0], ts[1]);
      }
      ProperCons(ts, gaps);
      assert s[i..] == gap + (s[t.q..t.eq] + s[t.eq..]);
    }
  }

  lemma ProperCons(ts: seq<Tok>, gaps: seq<string>)
    requires ts != [] && gaps != [] && Blank(gaps[0]) && LegalTok(ts[0]) && Proper(ts[1..], gaps[1..])
    requires |ts| > 1 && Sticks(ts[0], ts[1]) ==> gaps[1] != ""
    ensures Proper(ts, gaps)
  {
    hide Blank, LegalTok, Sticks;
    forall k | 0 <= k < |gaps|
      ensures Blank(gaps[k])
    {
      assert k > 0 ==> gaps[k] == gaps[1..][k - 1];
    }
    forall k | 0 <= k < |ts|
      ensures LegalTok(ts[k])
    {
      assert k > 0 ==> ts[k] == ts[1..][k - 1];
    }
    forall k | 0 <= k < |ts| - 1 && Sticks(ts[k], ts[k + 1])
      ensures gaps[k + 1] != ""
    {
      if k > 0 {
        assert ts[k] == ts[1..][k - 1] && ts[k + 1] == ts[1..][k] && gaps[k + 1] == gaps[1..][k];
      }
    }
  }

  lemma StickOnly(s: string, t: Token, a: Tok, b: Tok)
    requires 0 <= t.eq < |s| && LegalTok(b)
    requires a.TWord? ==> !IsWordChar(s[t.eq])
    requires a == TSym('>') ==> s[t.eq] != '>'
    requires s[t.eq] == TokText(b)[0]
    ensures !Sticks(a, b)
  {
    HeadOf(b);
    if b.TWord? {
      assert IsWordChar(b.w[0]);
    }
  }

  /** What gettoken passes over, and the token it finds. */
  lemma TokenText(s: string, i: int)
    requires 0 <= i <= |s| && IsLine(s)
    ensures var t := GetToken(s, i);
      && i <= t.q <= t.eq <= t.pos <= |s| && Blank(s[i..t.q]) && (t.ret == NUL ==> t.q == |s|)
      && (t.ret != NUL ==> i < t.eq && t.pos == Skip(s, t.eq) && TokenIs(s, t))
  {
    hide GetToken, Skip, IsSpace, IsSymbol, IsLine, TokenIs, Blank;
    var t := GetToken(s, i);
    TokenGap(s, i);
    if t.ret != NUL {
      TokenIsIt(s, i);
    }
  }

  lemma TokenGap(s: string, i: int)
    requires 0 <= i <= |s| && IsLine(s)
    ensures var t := GetToken(s, i); Blank(s[i..t.q]) && (t.ret != NUL ==> t.pos == Skip(s, t.eq))
  {
    hide WordEnd, IsSpace, IsSymbol, IsLine, IsWordChar;
    var q := Skip(s, i);
    assert forall k :: 0 <= k < q - i ==> s[i..q][k] == s[i + k];
    assert Blank(s[i..q]);
    hide Skip;
  }

  predicate TokenIs(s: string, t: Token)
    requires 0 <= t.q <= t.eq <= |s|
  {
    && LegalTok(TokOf(s, t)) && TokText(TokOf(s, t)) == s[t.q..t.eq]
    && (t.eq < |s| && TokOf(s, t).TWord? ==> !IsWordChar(s[t.eq]))
    && (t.eq < |s| && TokOf(s, t) == TSym('>') ==> s[t.eq] != '>')
  }

  lemma TokenIsIt(s: string, i: int)
    requires 0 <= i <= |s| && IsLine(s) && GetToken(s, i).ret != NUL
    ensures TokenIs(s, GetToken(s, i))
  {
    hide Skip, WordEnd;
    var t := GetToken(s, i);
    if t.ret == 'a' {
      assert forall k :: t.q <= k < t.eq ==> IsWordChar(s[k]);
      assert LegalWord(s[t.q..t.eq]);
    } else if t.ret == '+' {
      assert s[t.q..t.eq] == ">>";
    } else {
      assert s[t.q..t.eq] == [t.ret];
    }
  }

  /** What is typed for a command of the grammar, with white space wherever one likes, is parsed to its tree. */
  lemma TypedLineParses(l: Line, gaps: seq<string>)
    requires LegalLine(l) && Proper(LineToks(l), gaps)
    ensures var s := Spell(LineToks(l), gaps);
      IsLine(s) && ParseCmd(s).Parsed? && Meaning(s, ParseCmd(s).cmd) == LineTree(l)
  {
    hide Proper, Spell, Tokens, LegalLine, LineToks, LineTree, ParseCmd, Meaning;
    TypedTokens(LineToks(l), gaps);
    LineParsesTo(Spell(LineToks(l), gaps), l);
  }

  /** The redirection typed last is outermost: it is set up first, and those before it after it. */
  lemma {:induction false} LastIsOutermost(t: Tree, rs: seq<Redirect>, r: Redirect)
    ensures Around(t, rs + [r]) == TRedir(Around(t, rs), r.file, r.op != '<')
    decreases |rs|
  {
    if rs == [] {
      assert (rs + [r])[1..] == [];
    } else {
      assert (rs + [r])[1..] == rs[1..] + [r];
      LastIsOutermost(TRedir(t, rs[0].file, rs[0].op != '<'), rs[1..], r);
    }
  }

  // ----- Every tree can be typed

  function PlainArgs(words: seq<string>): seq<Arg> {
    if words == [] then [] else [Arg(words[0], [])] + PlainArgs(words[1..])
  }

  function Grouped(t: Tree): Item
    decreases t, 1
  {
    Group(LineFor(t), [])
  }

  /** The line for a tree, with parentheses around every part. */
  function LineFor(t: Tree): Line
    decreases t, 0
  {
    match t
    case TExec(args) => Ends(One(Simple([], PlainArgs(args))), 0)
    case TRedir(c, file, out) => Ends(One(Group(LineFor(c), [Redirect(if out then '>' else '<', file)])), 0)
    case TPipe(l, r) => Ends(Piped(Grouped(l), One(Grouped(r))), 0)
    case TList(l, r) => Goes(One(Grouped(l)), 0, Ends(One(Grouped(r)), 0))
    case TBack(c) => Ends(One(Grouped(c)), 1)
  }

  lemma {:induction false} PlainArgsMean(words: seq<string>)
    ensures var args := PlainArgs(words); |args| == |words| && ArgWordsOf(args) == words && ArgRedirs(args) == []
    ensures (forall k :: 0 <= k < |words| ==> LegalWord(words[k])) ==> LegalArgs(PlainArgs(words))
    decreases |words|
  {
    if words != [] {
      PlainArgsMean(words[1..]);
      assert [words[0]] + words[1..] == words;
    }
  }

  lemma OneItem(x: Item, n: nat)
    requires LegalItem(x)
    ensures LegalLine(Ends(One(x), n)) && LineTree(Ends(One(x), n)) == BackTree(ItemTree(x), n)
  {
    hide LegalItem, ItemTree, BackTree;
  }

  lemma TwoItems(x: Item, y: Item)
    requires LegalItem(x) && LegalItem(y)
    ensures var l := Ends(Piped(x, One(y)), 0); LegalLine(l) && LineTree(l) == TPipe(ItemTree(x), ItemTree(y))
  {
    hide LegalItem, ItemTree;
    var p := Piped(x, One(y));
    assert LegalPipeline(One(y)) && PipeTree(One(y)) == ItemTree(y);
    assert LegalPipeline(p) && PipeTree(p) == TPipe(ItemTree(x), ItemTree(y));
  }

  lemma PlainItem(args: seq<string>)
    requires Legal(TExec(args))
    ensures var x := Simple([], PlainArgs(args)); LegalItem(x) && ItemTree(x) == TExec(args)
  {
    hide LegalArgs, PlainArgs, ArgWordsOf, ArgRedirs, LegalWord;
    PlainArgsMean(args);
    var none: seq<Redirect> := [];
    assert none + none == none;
  }

  lemma RedirItem(l: Line, file: string, out: bool)
    requires LegalLine(l) && LegalWord(file)
    ensures var x := Group(l, [Redirect(if out then '>' else '<', file)]);
      LegalItem(x) && ItemTree(x) == TRedir(LineTree(l), file, out)
  {
    hide LegalWord, LegalLine, LineTree;
    var r := Redirect(if out then '>' else '<', file);
    LastIsOutermost(LineTree(l), [], r);
    assert [] + [r] == [r];
  }

  lemma GroupItem(l: Line)
    requires LegalLine(l)
    ensures LegalItem(Group(l, [])) && ItemTree(Group(l, [])) == LineTree(l)
  {
    hide LegalLine, LineTree;
  }

  lemma {:induction false} LineForMeans(t: Tree)
    requires Legal(t)
    ensures LegalLine(LineFor(t)) && LineTree(LineFor(t)) == t
    decreases t
  {
    hide LegalWord, LegalItem, ItemTree;
    match t
    case TExec(args) =>
      PlainItem(args);
      OneItem(Simple([], PlainArgs(args)), 0);
    case TRedir(c, file, out) =>
      LineForMeans(c);
      RedirItem(LineFor(c), file, out);
      OneItem(Group(LineFor(c), [Redirect(if out then '>' else '<', file)]), 0);
    case TPipe(l, r) =>
      LineForMeans(l);
      LineForMeans(r);
      GroupItem(LineFor(l));
      GroupItem(LineFor(r));
      TwoItems(Grouped(l), Grouped(r));
    case TList(l, r) =>
      LineForMeans(l);
      LineForMeans(r);
      GroupItem(LineFor(l));
      GroupItem(LineFor(r));
      OneItem(Grouped(r), 0);
    case TBack(c) =>
      LineForMeans(c);
      GroupItem(LineFor(c));
      OneItem(Grouped(c), 1);
  }

  predicate LegalToks(ts: seq<Tok>) {
    forall k :: 0 <= k < |ts| ==> LegalTok(ts[k])
  }

  lemma {:induction false} RedirToksLegal(rs: seq<Redirect>)
    requires LegalRedirs(rs)
    ensures LegalToks(RedirToks(rs))
    decreases |rs|
  {
    hide LegalWord;
    if rs != [] {
      RedirToksLegal(rs[1..]);
    }
  }

  lemma {:induction false} ArgToksLegal(args: seq<Arg>)
    requires LegalArgs(args)
    ensures LegalToks(ArgToks(args))
    decreases |args|
  {
    hide LegalWord, LegalRedirs;
    if args != [] {
      RedirToksLegal(args[0].rs);
      ArgToksLegal(args[1..]);
    }
  }

  lemma {:induction false} ItemToksLegal(x: Item)
    requires LegalItem(x)
    ensures LegalToks(ItemToks(x))
    decreases x
  {
    hide LegalWord, LegalRedirs, LegalArgs;
    RedirToksLegal(x.rs);
    match x
    case Simple(_, args) => ArgToksLegal(args);
    case Group(line, _) => LineToksLegal(line);
  }

  lemma {:induction false} PipeToksLegal(p: Pipeline)
    requires LegalPipeline(p)
    ensures LegalToks(PipeToks(p))
    decreases p
  {
    hide LegalWord, LegalItem, ItemToks;
    ItemToksLegal(p.item);
    if p.Piped? {
      PipeToksLegal(p.rest);
    }
  }

  lemma {:induction false} AmpsLegal(n: nat)
    ensures LegalToks(Amps(n))
    decreases n
  {
    if n > 0 {
      AmpsLegal(n - 1);
    }
  }

  lemma {:induction false} LineToksLegal(l: Line)
    requires LegalLine(l)
    ensures LegalToks(LineToks(l))
    decreases l
  {
    hide LegalWord, LegalPipeline, PipeToks, Amps;
    PipeToksLegal(l.p);
    AmpsLegal(l.amps);
    if l.Goes? {
      LineToksLegal(l.rest);
    }
  }

  /** The tokens with a space around each. */
  function Spaces(n: nat): (gaps: seq<string>)
    ensures |gaps| == n
  {
    seq(n, _ => " ")
  }

  /** Every command there is can be typed, and parsing what was typed gives that command back. */
  lemma RoundTrip(t: Tree)
    requires Legal(t)
    ensures var ts := LineToks(LineFor(t));
      && Proper(ts, Spaces(|ts| + 1))
      && var s := Spell(ts, Spaces(|ts| + 1));
      IsLine(s) && ParseCmd(s).Parsed? && Meaning(s, ParseCmd(s).cmd) == t
  {
    hide LegalLine, LineToks, LineTree, LineFor, Spell, ParseCmd, Meaning, IsLine, LegalTok, Sticks;
    var ts := LineToks(LineFor(t));
    LineForMeans(t);
    LineToksLegal(LineFor(t));
    TypedLineParses(LineFor(t), Spaces(|ts| + 1));
  }
}
