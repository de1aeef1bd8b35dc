/** Shell-style patterns, as Python's fnmatch reads and matches them on a case-sensitive system. */
module Glob {
  datatype Tok =
    | Star
    | AnyOne
    | Lit(c: char)
    | Class(negated: bool, ranges: seq<(char, char)>)

  /** The ranges of a character class body; a single character is a range of one. */
  function Ranges(body: string): seq<(char, char)> {
    if body == [] then []
    else if |body| >= 3 && body[1] == '-' then [(body[0], body[2])] + Ranges(body[3..])
    else [(body[0], body[0])] + Ranges(body[1..])
  }

  /** Where the class that opens at `pat[0]` closes, looking from `j`; |pat| if nowhere. */
  function Close(pat: string, j: nat): (k: nat)
    requires j <= |pat|
    ensures j <= k <= |pat|
    ensures k < |pat| ==> pat[k] == ']'
    decreases |pat| - j
  {
    if j == |pat| || pat[j] == ']' then j else Close(pat, j + 1)
  }

  /** The first place where the class that opens at `pat[0]` may close. */
  function FirstClose(pat: string): (j: nat)
    requires pat != []
    ensures 1 <= j <= |pat|
  {
    var j := if |pat| > 1 && pat[1] == '!' then 2 else 1;
    if j < |pat| && pat[j] == ']' then j + 1 else j
  }

  function Parse(pat: string): seq<Tok> {
    if pat == [] then []
    else if pat[0] == '*' then [Star] + Parse(pat[1..])
    else if pat[0] == '?' then [AnyOne] + Parse(pat[1..])
    else if pat[0] == '[' then
      var k := Close(pat, FirstClose(pat));
      if k == |pat| then [Lit('[')] + Parse(pat[1..])
      else
        var body := pat[1..k];
        [if body != [] && body[0] == '!' then Class(true, Ranges(body[1..])) else Class(false, Ranges(body))]
        + Parse(pat[k + 1..])
    else [Lit(pat[0])] + Parse(pat[1..])
  }

  predicate InRanges(ranges: seq<(char, char)>, c: char) {
    exists r :: r in ranges && r.0 <= c <= r.1
  }

  predicate One(t: Tok, c: char)
    requires !t.Star?
  {
    match t
    case AnyOne => true
    case Lit(x) => c == x
    case Class(negated, ranges) => InRanges(ranges, c) != negated
  }

  predicate Match(toks: seq<Tok>, s: string)
    decreases |toks| + |s|
  {
    if toks == [] then s == []
    else if toks[0].Star? then Match(toks[1..], s) || (s != [] && Match(toks, s[1..]))
    else s != [] && One(toks[0], s[0]) && Match(toks[1..], s[1..])
  }

  predicate Fnmatch(name: string, pat: string) {
    Match(Parse(pat), name)
  }

  /** The escaping the tool applies to a literal name: only `[` is quoted. */
  function GlobLiteral(text: string): string {
    if text == [] then [] else Quote(text[0]) + GlobLiteral(text[1..])
  }

  function Quote(c: char): string {
    if c == '[' then "[[]" else [c]
  }

  /** What an escaped character still means to the matcher. */
  function TokOf(c: char): Tok {
    if c == '*' then Star
    else if c == '?' then AnyOne
    else if c == '[' then Class(false, [('[', '[')])
    else Lit(c)
  }

  function Toks(text: string): seq<Tok> {
    seq(|text|, i requires 0 <= i < |text| => TokOf(text[i]))
  }

  /** A name that escaping makes fully literal. */
  predicate Plain(text: string) {
    '*' !in text && '?' !in text
  }

  lemma ParseQuotedBracket(rest: string)
    ensures Parse("[[]" + rest) == [Class(false, [('[', '[')])] + Parse(rest)
  {
    var pat := "[[]" + rest;
    assert pat[..3] == "[[]" && pat[1] == '[' && pat[2] == ']';
    assert Close(pat, 1) == 2;
    assert pat[1..2] == "[" && pat[3..] == rest;
    assert Ranges("[") == [('[', '[')];
  }

  lemma ParseQuote(c: char, rest: string)
    ensures Parse(Quote(c) + rest) == [TokOf(c)] + Parse(rest)
  {
    if c == '[' {
      ParseQuotedBracket(rest);
    } else {
      assert ([c] + rest)[0] == c && ([c] + rest)[1..] == rest;
    }
  }

  lemma ToksFirst(text: string)
    requires text != []
    ensures Toks(text) == [TokOf(text[0])] + Toks(text[1..])
  {
  }

  lemma JoinToks(a: seq<Tok>, b: seq<Tok>, c: seq<Tok>)
    ensures a + (b + c) == a + b + c
  {
  }

  lemma EscapedFirst(text: string, rest: string)
    requires text != []
    ensures GlobLiteral(text) + rest == Quote(text[0]) + (GlobLiteral(text[1..]) + rest)
  {
  }

  /** Escaped text parses to its own tokens, whatever follows it. */
  lemma {:induction false} ParseLiteral(text: string, rest: string)
    ensures Parse(GlobLiteral(text) + rest) == Toks(text) + Parse(rest)
  {
    if text == [] {
      assert GlobLiteral(text) + rest == rest;
      assert Toks(text) == [];
    } else {
      var c, tail := text[0], GlobLiteral(text[1..]) + rest;
      EscapedFirst(text, rest);
      ParseQuote(c, tail);
      ParseLiteral(text[1..], rest);
      ToksFirst(text);
      JoinToks([TokOf(c)], Toks(text[1..]), Parse(rest));
    }
  }

  lemma BracketClass(c: char)
    ensures One(Class(false, [('[', '[')]), c) <==> c == '['
  {
    assert ('[', '[') in [('[', '[')];
  }

  /** Any text matches its own tokens, with or without wildcards in it. */
  lemma {:induction false} TextMatchesItself(text: string, more: seq<Tok>, s: string)
    requires Match(more, s)
    ensures Match(Toks(text) + more, text + s)
  {
    if text == [] {
      assert Toks(text) + more == more && text + s == s;
    } else {
      TextMatchesItself(text[1..], more, s);
      BracketClass(text[0]);
      var toks := Toks(text) + more;
      assert toks[0] == TokOf(text[0]) && toks[1..] == Toks(text[1..]) + more;
      assert (text + s)[0] == text[0] && (text + s)[1..] == text[1..] + s;
      if text[0] == '*' {
        assert Match(toks[1..], (text + s)[1..]);
        StarSkips(toks, text + s);
      }
    }
  }

  lemma StarSkips(toks: seq<Tok>, s: string)
    requires toks != [] && toks[0].Star? && s != [] && Match(toks[1..], s[1..])
    ensures Match(toks, s)
  {
    assert Match(toks, s[1..]);
  }

  /** Plain text matches only itself. */
  lemma {:induction false} PlainMatchesOnlyItself(text: string, more: seq<Tok>, s: string)
    requires Plain(text)
    ensures Match(Toks(text) + more, s) <==> text <= s && Match(more, s[|text|..])
  {
    if text == [] {
      assert Toks(text) + more == more && s[0..] == s;
    } else {
      BracketClass(if s == [] then 'x' else s[0]);
      var toks := Toks(text) + more;
      assert toks[0] == TokOf(text[0]) && toks[1..] == Toks(text[1..]) + more;
      if s != [] {
        PlainMatchesOnlyItself(text[1..], more, s[1..]);
        assert text <= s <==> text[0] == s[0] && text[1..] <= s[1..];
        if text <= s {
          assert s[1..][|text[1..]|..] == s[|text|..];
        }
      }
    }
  }

  /** What is matched by a head and a star-free tail: the tail takes the last characters, one each. */
  ghost predicate Splits(head: seq<Tok>, tail: seq<Tok>, s: string) {
    |tail| <= |s| && Match(head, s[..|s| - |tail|]) && Match(tail, s[|s| - |tail|..])
  }

  lemma SplitsAfterOne(rest: seq<Tok>, tail: seq<Tok>, s: string)
    requires s != []
    ensures Splits(rest, tail, s[1..]) <==>
      |tail| < |s| && Match(rest, s[..|s| - |tail|][1..]) && Match(tail, s[|s| - |tail|..])
  {
    if |tail| < |s| {
      assert s[1..][..|s| - 1 - |tail|] == s[..|s| - |tail|][1..];
      assert s[1..][|s| - 1 - |tail|..] == s[|s| - |tail|..];
    }
  }

  lemma {:induction false} TailSplits(head: seq<Tok>, tail: seq<Tok>, s: string)
    requires forall t :: t in tail ==> !t.Star?
    ensures Match(head + tail, s) <==> Splits(head, tail, s)
    decreases |head| + |s|
  {
    if head == [] {
      assert head + tail == tail;
      if Match(tail, s) {
        OneEach(tail, s);
      }
      assert s[0..] == s;
    } else {
      assert (head + tail)[0] == head[0] && (head + tail)[1..] == head[1..] + tail;
      if head[0].Star? {
        TailSplits(head[1..], tail, s);
        if s != [] {
          TailSplits(head, tail, s[1..]);
          SplitsAfterOne(head, tail, s);
        }
      } else if s != [] {
        TailSplits(head[1..], tail, s[1..]);
        SplitsAfterOne(head[1..], tail, s);
      }
    }
  }

  lemma {:induction false} OneEach(toks: seq<Tok>, s: string)
    requires (forall t :: t in toks ==> !t.Star?) && Match(toks, s)
    ensures |s| == |toks| && forall i :: 0 <= i < |s| ==> One(toks[i], s[i])
  {
    if toks != [] {
      OneEach(toks[1..], s[1..]);
    }
  }

  lemma {:induction false} EachOne(toks: seq<Tok>, s: string)
    requires (forall t :: t in toks ==> !t.Star?) && |s| == |toks|
    requires forall i :: 0 <= i < |s| ==> One(toks[i], s[i])
    ensures Match(toks, s)
  {
    if toks != [] {
      EachOne(toks[1..], s[1..]);
    }
  }

  /** An escaped name parses to the tokens of the name. */
  lemma ParsesToToks(text: string)
    ensures Parse(GlobLiteral(text)) == Toks(text)
  {
    ParseLiteral(text, "");
    assert GlobLiteral(text) + "" == GlobLiteral(text) && Toks(text) + Parse("") == Toks(text);
  }

  /** An escaped name matches the name, with or without wildcards in it. */
  lemma MatchesItself(text: string)
    ensures Fnmatch(text, GlobLiteral(text))
  {
    ParsesToToks(text);
    TextMatchesItself(text, [], "");
    assert Toks(text) + [] == Toks(text) && text + "" == text;
  }

  /** A name without wildcards, escaped, matches itself and nothing else. */
  lemma PlainGlob(text: string, s: string)
    requires Plain(text)
    ensures Fnmatch(s, GlobLiteral(text)) <==> s == text
  {
    ParsesToToks(text);
    assert Toks(text) + [] == Toks(text);
    PlainMatchesOnlyItself(text, [], s);
  }
}
