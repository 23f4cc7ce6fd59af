/** The shell's recursive-descent parser (sh.c). Pointers into the line are positions in it;
    the line's terminating NUL is the position behind its last character. */
module ShellParser {

  const NUL := '\0'
  const MAXARGS := 10

  predicate IsSpace(c: char) {
    c in " \t\r\n\U{0B}"
  }

  predicate IsSymbol(c: char) {
    c in "<|>&;()"
  }

  predicate IsWordChar(c: char) {
    !IsSpace(c) && !IsSymbol(c) && c != NUL
  }

  /** A command line as gets leaves it. */
  predicate IsLine(s: string) {
    forall k :: 0 <= k < |s| ==> s[k] != NUL
  }

  /** A token's place in the line. */
  datatype Word = Word(q: int, eq: int)

  /** What a parsed command is; a redirection opens its file for writing (fd 1) or for reading (fd 0). */
  datatype Cmd =
    | Exec(argv: seq<Word>)
    | Redir(cmd: Cmd, file: Word, out: bool)
    | Pipe(left: Cmd, right: Cmd)
    | List(left: Cmd, right: Cmd)
    | Back(cmd: Cmd)

  // ----- gettoken and peek

  function Skip(s: string, i: int): (j: int)
    requires 0 <= i <= |s|
    ensures i <= j <= |s| && (j < |s| ==> !IsSpace(s[j]))
    ensures forall k :: i <= k < j ==> IsSpace(s[k])
    decreases |s| - i
  {
    if i < |s| && IsSpace(s[i]) then Skip(s, i + 1) else i
  }

  function WordEnd(s: string, i: int): (j: int)
    requires 0 <= i <= |s| && IsLine(s)
    ensures i <= j <= |s| && (j < |s| ==> !IsWordChar(s[j]))
    ensures forall k :: i <= k < j ==> IsWordChar(s[k])
    ensures i < |s| && IsWordChar(s[i]) ==> i < j
    decreases |s| - i
  {
    if i < |s| && !IsSpace(s[i]) && !IsSymbol(s[i]) then WordEnd(s, i + 1) else i
  }

  /** ret is 'a' for a word, '+' for ">>", NUL at the end, else the symbol itself. */
  datatype Token = Token(ret: char, q: int, eq: int, pos: int)

  function GetToken(s: string, i: int): (t: Token)
    requires 0 <= i <= |s| && IsLine(s)
    ensures i <= t.q <= t.eq <= t.pos <= |s|
    ensures t.ret == NUL <==> t.q == |s|
    ensures t.q < |s| ==> t.q < t.eq
    ensures t.ret == 'a' ==> forall k :: t.q <= k < t.eq ==> IsWordChar(s[k])
    ensures t.ret == 'a' && t.eq < |s| ==> !IsWordChar(s[t.eq])
  {
    var q := Skip(s, i);
    if q == |s| then Token(NUL, q, q, q)
    else if s[q] == '>' && q + 1 < |s| && s[q + 1] == '>' then Token('+', q, q + 2, Skip(s, q + 2))
    else if IsSymbol(s[q]) then Token(s[q], q, q + 1, Skip(s, q + 1))
    else
      var e := WordEnd(s, q);
      Token('a', q, e, Skip(s, e))
  }

  predicate PeekAt(s: string, i: int, toks: string)
    requires 0 <= i <= |s|
  {
    var j := Skip(s, i);
    j < |s| && s[j] in toks
  }

  // ----- What the parser computes

  datatype Redirection = Redirection(file: Word, out: bool)

  datatype RedirResult = Redirs(rs: seq<Redirection>, pos: int) | BadRedir

  datatype ArgsResult = Args(argv: seq<Word>, rs: seq<Redirection>, pos: int) | BadArgs

  datatype Parse = Parsed(cmd: Cmd, pos: int) | Panicked

  function Wrap(c: Cmd, rs: seq<Redirection>): Cmd
    decreases |rs|
  {
    if rs == [] then c else Wrap(Redir(c, rs[0].file, rs[0].out), rs[1..])
  }

  function RedirsFrom(s: string, i: int): (r: RedirResult)
    requires 0 <= i <= |s| && IsLine(s)
    ensures r.Redirs? ==> i <= r.pos <= |s| && Skip(s, r.pos) == r.pos
    decreases |s| - i
  {
    if PeekAt(s, i, "<>") then
      var t := GetToken(s, i);
      var f := GetToken(s, t.pos);
      if f.ret != 'a' then BadRedir
      else
        match RedirsFrom(s, f.pos)
        case BadRedir => BadRedir
        case Redirs(rs, pos) => Redirs([Redirection(Word(f.q, f.eq), t.ret != '<')] + rs, pos)
    else Redirs([], Skip(s, i))
  }

  /** parseexec's loop when n arguments have been read. */
  function ArgsFrom(s: string, i: int, n: int): (r: ArgsResult)
    requires 0 <= i <= |s| && IsLine(s)
    ensures r.Args? ==> i <= r.pos <= |s|
    decreases |s| - i
  {
    if PeekAt(s, i, "|)&;") then Args([], [], Skip(s, i))
    else
      var t := GetToken(s, i);
      if t.ret == NUL then Args([], [], t.pos)
      else if t.ret != 'a' || n + 1 >= MAXARGS then BadArgs
      else
        match RedirsFrom(s, t.pos)
        case BadRedir => BadArgs
        case Redirs(rs, pos) =>
          match ArgsFrom(s, pos, n + 1)
          case BadArgs => BadArgs
          case Args(argv, more, end) => Args([Word(t.q, t.eq)] + argv, rs + more, end)
  }

  function ParseExec(s: string, i: int): (r: Parse)
    requires 0 <= i <= |s| && IsLine(s)
    ensures r.Parsed? ==> i <= r.pos <= |s|
    decreases |s| - i, 1
  {
    if PeekAt(s, i, "(") then ParseBlock(s, i)
    else
      match RedirsFrom(s, Skip(s, i))
      case BadRedir => Panicked
      case Redirs(rs, pos) =>
        match ArgsFrom(s, pos, 0)
        case BadArgs => Panicked
        case Args(argv, more, end) => Parsed(Wrap(Exec(argv), rs + more), end)
  }

  function ParseBlock(s: string, i: int): (r: Parse)
    requires 0 <= i <= |s| && IsLine(s) && PeekAt(s, i, "(")
    ensures r.Parsed? ==> i < r.pos <= |s|
    decreases |s| - i, 0
  {
    match ParseLine(s, GetToken(s, i).pos)
    case Panicked => Panicked
    case Parsed(cmd, pos) =>
      if !PeekAt(s, pos, ")") then Panicked
      else
        match RedirsFrom(s, GetToken(s, pos).pos)
        case BadRedir => Panicked
        case Redirs(rs, end) => Parsed(Wrap(cmd, rs), end)
  }

  function ParsePipe(s: string, i: int): (r: Parse)
    requires 0 <= i <= |s| && IsLine(s)
    ensures r.Parsed? ==> i <= r.pos <= |s|
    decreases |s| - i, 2
  {
    match ParseExec(s, i)
    case Panicked => Panicked
    case Parsed(cmd, pos) =>
      if PeekAt(s, pos, "|") then
        match ParsePipe(s, GetToken(s, pos).pos)
        case Panicked => Panicked
        case Parsed(right, end) => Parsed(Pipe(cmd, right), end)
      else Parsed(cmd, Skip(s, pos))
  }

  /** parseline's loop over '&'. */
  function Backs(s: string, c: Cmd, i: int): (r: (Cmd, int))
    requires 0 <= i <= |s| && IsLine(s)
    ensures i <= r.1 <= |s| && !PeekAt(s, r.1, "&")
    decreases |s| - i
  {
    if PeekAt(s, i, "&") then Backs(s, Back(c), GetToken(s, i).pos) else (c, Skip(s, i))
  }

  function ParseLine(s: string, i: int): (r: Parse)
    requires 0 <= i <= |s| && IsLine(s)
    ensures r.Parsed? ==> i <= r.pos <= |s|
    decreases |s| - i, 3
  {
    match ParsePipe(s, i)
    case Panicked => Panicked
    case Parsed(cmd, pos) =>
      var (c, k) := Backs(s, cmd, pos);
      if PeekAt(s, k, ";") then
        match ParseLine(s, GetToken(s, k).pos)
        case Panicked => Panicked
        case Parsed(right, end) => Parsed(List(c, right), end)
      else Parsed(c, Skip(s, k))
  }

  /** parsecmd: everything must have been used up. */
  function ParseCmd(s: string): Parse
    requires IsLine(s)
  {
    match ParseLine(s, 0)
    case Panicked => Panicked
    case Parsed(cmd, pos) => if Skip(s, pos) != |s| then Panicked else Parsed(cmd, |s|)
  }
}
