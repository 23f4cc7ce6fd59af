/** The regular expression matcher of grep.c. Strings are C strings without their
    NUL: re[0] is NUL exactly when re is empty, and a pointer into a string is the
    suffix it points at. */
module Grep {

  // ----- What a pattern means

  /** One pattern element: a literal, any character, or a starred character ('.' stands for any). */
  datatype Item = Literal(c: char) | Any | Star(c: char)

  /** Elements in order, and whether a final '$' ties the match to the end of the text. */
  datatype Pattern = Pattern(items: seq<Item>, toEnd: bool)

  /** How the characters of a pattern without a leading '^' group into elements. */
  function Parse(re: string): Pattern {
    if re == "" then Pattern([], false)
    else if |re| > 1 && re[1] == '*' then
      var p := Parse(re[2..]);
      Pattern([Star(re[0])] + p.items, p.toEnd)
    else if re == "$" then Pattern([], true)
    else
      var p := Parse(re[1..]);
      Pattern([if re[0] == '.' then Any else Literal(re[0])] + p.items, p.toEnd)
  }

  predicate Accepts(c: char, x: char) {
    c == '.' || c == x
  }

  predicate AllAccepted(c: char, s: string) {
    forall i :: 0 <= i < |s| ==> Accepts(c, s[i])
  }

  /** s is in the language of the elements. */
  ghost predicate Denotes(items: seq<Item>, s: string) {
    if items == [] then s == ""
    else
      match items[0]
      case Literal(c) => s != "" && s[0] == c && Denotes(items[1..], s[1..])
      case Any => s != "" && Denotes(items[1..], s[1..])
      case Star(c) => exists k :: 0 <= k <= |s| && AllAccepted(c, s[..k]) && Denotes(items[1..], s[k..])
  }

  /** Some prefix of text is in the language, the whole text if the pattern is tied to its end. */
  ghost predicate PrefixMatches(p: Pattern, text: string) {
    exists k :: 0 <= k <= |text| && (p.toEnd ==> k == |text|) && Denotes(p.items, text[..k])
  }

  /** What match(re, text) promises: with a leading '^' the match starts at the
      beginning of the text, otherwise anywhere in it, the empty end included. */
  ghost predicate Matches(re: string, text: string) {
    if re != "" && re[0] == '^' then PrefixMatches(Parse(re[1..]), text)
    else exists i :: 0 <= i <= |text| && PrefixMatches(Parse(re), text[i..])
  }

  // ----- How patterns are written

  function ShowItem(item: Item): string {
    match item
    case Literal(c) => [c]
    case Any => "."
    case Star(c) => [c, '*']
  }

  function Show(items: seq<Item>, toEnd: bool): string {
    if items == [] then (if toEnd then "$" else "") else ShowItem(items[0]) + Show(items[1..], toEnd)
  }

  /** No literal is a dot, no star stands behind a single character, and a last '$' ties the pattern to the end. */
  predicate Writable(items: seq<Item>, toEnd: bool) {
    items != [] ==>
      && items[0] != Literal('.')
      && (!items[0].Star? ==> items[1..] == [] || ShowItem(items[1])[0] != '*')
      && (items == [Literal('$')] ==> toEnd)
      && Writable(items[1..], toEnd)
  }

  /** Every string is the writing of the pattern it is read as. */
  lemma {:induction false} ShowParse(re: string)
    ensures Show(Parse(re).items, Parse(re).toEnd) == re && Writable(Parse(re).items, Parse(re).toEnd)
    decreases |re|
  {
    if re != "" && re != "$" {
      var rest := if |re| > 1 && re[1] == '*' then re[2..] else re[1..];
      ShowParse(rest);
      var p, q := Parse(re), Parse(rest);
      assert p.items[1..] == q.items;
      assert re == ShowItem(p.items[0]) + rest;
      if q.items != [] {
        assert rest[0] == ShowItem(q.items[0])[0];
      }
    }
  }

  /** And a writable pattern is read back as itself. */
  lemma {:induction false} ParseShow(items: seq<Item>, toEnd: bool)
    requires Writable(items, toEnd)
    ensures Parse(Show(items, toEnd)) == Pattern(items, toEnd)
    decreases |items|
  {
    if items != [] {
      var re, rest := Show(items, toEnd), Show(items[1..], toEnd);
      ParseShow(items[1..], toEnd);
      assert items == [items[0]] + items[1..];
      if items[0].Star? {
        assert re[2..] == rest;
      } else {
        assert re[1..] == rest;
        assert items[1..] != [] ==> rest[0] == ShowItem(items[1])[0];
      }
    }
  }

  // ----- Plain text

  predicate IsPlain(w: string) {
    forall k :: 0 <= k < |w| ==> w[k] !in ".*$^"
  }

  function Literals(w: string): seq<Item> {
    if w == "" then [] else [Literal(w[0])] + Literals(w[1..])
  }

  lemma {:induction false} LiteralsDenote(w: string, s: string)
    ensures Denotes(Literals(w), s) <==> s == w
    decreases |w|
  {
    if w != "" {
      assert Literals(w)[1..] == Literals(w[1..]);
      if s != "" {
        LiteralsDenote(w[1..], s[1..]);
        assert s == [s[0]] + s[1..] && w == [w[0]] + w[1..];
      }
    }
  }

  lemma {:induction false} ParsePlain(w: string, toEnd: bool)
    requires IsPlain(w)
    ensures Parse(w + if toEnd then "$" else "") == Pattern(Literals(w), toEnd)
    decreases |w|
  {
    var re := w + if toEnd then "$" else "";
    if w != "" {
      ParsePlain(w[1..], toEnd);
      assert re[1..] == w[1..] + if toEnd then "$" else "";
    }
  }

  predicate IsAt(w: string, text: string, i: int) {
    0 <= i && i + |w| <= |text| && text[i..i + |w|] == w
  }

  lemma PlainPrefix(w: string, toEnd: bool, text: string)
    ensures PrefixMatches(Pattern(Literals(w), toEnd), text) <==>
            IsAt(w, text, 0) && (toEnd ==> |w| == |text|)
  {
    var p := Pattern(Literals(w), toEnd);
    forall k | 0 <= k <= |text|
      ensures Denotes(p.items, text[..k]) <==> text[..k] == w
    {
      LiteralsDenote(w, text[..k]);
    }
    if PrefixMatches(p, text) {
      var k :| 0 <= k <= |text| && (toEnd ==> k == |text|) && Denotes(p.items, text[..k]);
      assert text[..k] == w;
    }
    if IsAt(w, text, 0) && (toEnd ==> |w| == |text|) {
      assert Denotes(p.items, text[..|w|]);
    }
  }

  /** For plain text: somewhere in the text, at its beginning after '^', at its end before '$', all of it between
      both. */
  lemma PlainMatches(w: string, toEnd: bool, text: string)
    requires IsPlain(w)
    ensures var end := if toEnd then "$" else "";
      && (Matches(w + end, text) <==> exists i :: IsAt(w, text, i) && (toEnd ==> i + |w| == |text|))
      && (Matches("^" + w + end, text) <==> IsAt(w, text, 0) && (toEnd ==> w == text))
  {
    hide PrefixMatches, Parse;
    var end := if toEnd then "$" else "";
    ParsePlain(w, toEnd);
    assert ("^" + w + end)[1..] == w + end;
    PlainPrefix(w, toEnd, text);
    assert IsAt(w, text, 0) && |w| == |text| ==> w == text;
    forall i | 0 <= i <= |text|
      ensures PrefixMatches(Parse(w + end), text[i..]) <==> IsAt(w, text, i) && (toEnd ==> i + |w| == |text|)
    {
      PlainPrefix(w, toEnd, text[i..]);
      assert i + |w| <= |text| ==> text[i..][0..0 + |w|] == text[i..i + |w|];
    }
  }

  // ----- Steps of the search

  lemma StarSplits(c: char, rest: Pattern, text: string)
    ensures PrefixMatches(Pattern([Star(c)] + rest.items, rest.toEnd), text) <==>
            exists j :: 0 <= j <= |text| && AllAccepted(c, text[..j]) && PrefixMatches(rest, text[j..])
  {
    var p := Pattern([Star(c)] + rest.items, rest.toEnd);
    assert p.items[1..] == rest.items;
    if PrefixMatches(p, text) {
      var k :| 0 <= k <= |text| && (p.toEnd ==> k == |text|) && Denotes(p.items, text[..k]);
      var j :| 0 <= j <= k && AllAccepted(c, text[..k][..j]) && Denotes(rest.items, text[..k][j..]);
      assert text[..k][..j] == text[..j];
      assert text[..k][j..] == text[j..][..k - j];
      assert PrefixMatches(rest, text[j..]);
    }
    if j :| 0 <= j <= |text| && AllAccepted(c, text[..j]) && PrefixMatches(rest, text[j..]) {
      var m :| 0 <= m <= |text[j..]| && (rest.toEnd ==> m == |text[j..]|) && Denotes(rest.items, text[j..][..m]);
      var k := j + m;
      assert text[..k][..j] == text[..j];
      assert text[..k][j..] == text[j..][..m];
      assert Denotes(p.items, text[..k]);
    }
  }

  lemma SingleSplits(item: Item, rest: Pattern, text: string)
    requires !item.Star?
    ensures PrefixMatches(Pattern([item] + rest.items, rest.toEnd), text) <==>
            text != "" && (item.Any? || item.c == text[0]) && PrefixMatches(rest, text[1..])
  {
    var p := Pattern([item] + rest.items, rest.toEnd);
    assert p.items[1..] == rest.items;
    if PrefixMatches(p, text) {
      var k :| 0 <= k <= |text| && (p.toEnd ==> k == |text|) && Denotes(p.items, text[..k]);
      assert text[..k][1..] == text[1..][..k - 1];
    }
    if text != "" && (item.Any? || item.c == text[0]) && PrefixMatches(rest, text[1..]) {
      var m :| 0 <= m <= |text[1..]| && (rest.toEnd ==> m == |text[1..]|) && Denotes(rest.items, text[1..][..m]);
      assert text[..m + 1][1..] == text[1..][..m];
      assert Denotes(p.items, text[..m + 1]);
    }
  }

  lemma EmptyItems(toEnd: bool, text: string)
    ensures PrefixMatches(Pattern([], toEnd), text) <==> (toEnd ==> text == "")
  {
    assert Denotes([], text[..0]);
  }

  // ----- The matcher

  /** match: search for re anywhere in text. */
  method Match(re: string, text: string) returns (found: bool)
    ensures found <==> Matches(re, text)
  {
    if re != "" && re[0] == '^' {
      found := MatchHere(re[1..], text);
      return;
    }
    var i := 0;
    while true
      invariant 0 <= i <= |text|
      invariant forall h :: 0 <= h < i ==> !PrefixMatches(Parse(re), text[h..])
      decreases |text| - i
    {
      found := MatchHere(re, text[i..]);
      if found {
        return;
      }
      if i == |text| {
        break;
      }
      i := i + 1;
    }
    found := false;
  }

  /** matchhere: search for re at the beginning of text. */
  method MatchHere(re: string, text: string) returns (found: bool)
    ensures found <==> PrefixMatches(Parse(re), text)
    decreases |re|, 0
  {
    if re == "" {
      EmptyItems(false, text);
      return true;
    }
    if |re| > 1 && re[1] == '*' {
      StarSplits(re[0], Parse(re[2..]), text);
      found := MatchStar(re[0], re[2..], text);
      return;
    }
    if re[0] == '$' && |re| == 1 {
      EmptyItems(true, text);
      return text == "";
    }
    assert re != "$";
    SingleSplits(if re[0] == '.' then Any else Literal(re[0]), Parse(re[1..]), text);
    if text != "" && (re[0] == '.' || re[0] == text[0]) {
      found := MatchHere(re[1..], text[1..]);
      return;
    }
    return false;
  }

  /** matchstar: search for c*re at the beginning of text. */
  method MatchStar(c: char, re: string, text: string) returns (found: bool)
    ensures found <==> exists j :: 0 <= j <= |text| && AllAccepted(c, text[..j]) && PrefixMatches(Parse(re), text[j..])
    decreases |re|, 1
  {
    var j := 0;
    while true
      invariant 0 <= j <= |text| && AllAccepted(c, text[..j])
      invariant forall h :: 0 <= h < j ==> !PrefixMatches(Parse(re), text[h..])
      decreases |text| - j
    {
      found := MatchHere(re, text[j..]);
      if found {
        return;
      }
      if j == |text| || !(text[j] == c || c == '.') {
        break;
      }
      assert text[..j + 1] == text[..j] + [text[j]];
      j := j + 1;
    }
    forall h | j < h <= |text|
      ensures !AllAccepted(c, text[..h])
    {
      assert text[..h][j] == text[j];
    }
    found := false;
  }
}
