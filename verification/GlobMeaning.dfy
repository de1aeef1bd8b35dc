/** What shell-style patterns match, in terms of the pieces of the text and of the pattern. */
module GlobMeaning {
  import opened Glob

  // ---- Matching, as a division of the text ----

  function Joined(parts: seq<string>): string {
    if parts == [] then [] else parts[0] + Joined(parts[1..])
  }

  /** A star takes any piece; everything else takes one character that it allows. */
  predicate Fits(t: Tok, piece: string) {
    t.Star? || (|piece| == 1 && One(t, piece[0]))
  }

  /** The text is cut into one fitting piece for each token. */
  ghost predicate CutTo(toks: seq<Tok>, parts: seq<string>, s: string) {
    |parts| == |toks| && Joined(parts) == s && forall i :: 0 <= i < |toks| ==> Fits(toks[i], parts[i])
  }

  ghost predicate Cuts(toks: seq<Tok>, s: string) {
    exists parts :: CutTo(toks, parts, s)
  }

  lemma CutsOneMore(t: Tok, toks: seq<Tok>, piece: string, s: string)
    requires Fits(t, piece) && Cuts(toks, s)
    ensures Cuts([t] + toks, piece + s)
  {
    var parts :| CutTo(toks, parts, s);
    var more := [piece] + parts;
    assert more[1..] == parts;
    forall i | 0 <= i < |more|
      ensures Fits(([t] + toks)[i], more[i])
    {
      assert i > 0 ==> more[i] == parts[i - 1] && ([t] + toks)[i] == toks[i - 1];
    }
    assert CutTo([t] + toks, more, piece + s);
  }

  lemma FirstPiece(toks: seq<Tok>, s: string) returns (piece: string, rest: string)
    requires toks != [] && Cuts(toks, s)
    ensures s == piece + rest && Fits(toks[0], piece) && Cuts(toks[1..], rest)
  {
    var parts :| CutTo(toks, parts, s);
    piece, rest := parts[0], Joined(parts[1..]);
    assert forall i :: 0 <= i < |parts[1..]| ==> parts[1..][i] == parts[i + 1] && toks[1..][i] == toks[i + 1];
    assert CutTo(toks[1..], parts[1..], rest);
  }

  lemma {:induction false} MatchIsCut(toks: seq<Tok>, s: string)
    requires Match(toks, s)
    ensures Cuts(toks, s)
    decreases |toks| + |s|
  {
    if toks == [] {
      assert CutTo(toks, [], s);
    } else if toks[0].Star? && !Match(toks[1..], s) {
      MatchIsCut(toks, s[1..]);
      var piece, rest := FirstPiece(toks, s[1..]);
      CutsOneMore(toks[0], toks[1..], [s[0]] + piece, rest);
      assert [toks[0]] + toks[1..] == toks && [s[0]] + piece + rest == s;
    } else {
      var piece := if toks[0].Star? then "" else [s[0]];
      MatchIsCut(toks[1..], s[|piece|..]);
      CutsOneMore(toks[0], toks[1..], piece, s[|piece|..]);
      assert [toks[0]] + toks[1..] == toks && piece + s[|piece|..] == s;
    }
  }

  lemma {:induction false} StarTakes(toks: seq<Tok>, piece: string, rest: string)
    requires toks != [] && toks[0].Star? && Match(toks[1..], rest)
    ensures Match(toks, piece + rest)
    decreases |piece|
  {
    if piece == "" {
      assert piece + rest == rest;
    } else {
      StarTakes(toks, piece[1..], rest);
      assert (piece + rest)[1..] == piece[1..] + rest;
    }
  }

  lemma {:induction false} CutIsMatch(toks: seq<Tok>, s: string)
    requires Cuts(toks, s)
    ensures Match(toks, s)
    decreases |toks|
  {
    if toks == [] {
      var parts :| CutTo(toks, parts, s);
    } else {
      var piece, rest := FirstPiece(toks, s);
      CutIsMatch(toks[1..], rest);
      if toks[0].Star? {
        StarTakes(toks, piece, rest);
      } else {
        assert (piece + rest)[0] == piece[0] && (piece + rest)[1..] == rest;
      }
    }
  }

  /** A pattern matches exactly the texts that can be cut into one fitting piece for each of its tokens. */
  lemma MatchIffCut(toks: seq<Tok>, s: string)
    ensures Match(toks, s) <==> Cuts(toks, s)
  {
    if Match(toks, s) {
      MatchIsCut(toks, s);
    }
    if Cuts(toks, s) {
      CutIsMatch(toks, s);
    }
  }

  // ---- The tokens of a pattern ----

  /** Outside classes: a star, a question mark, and everything but an opening bracket for itself. */
  lemma PlainToken(c: char, rest: string)
    requires c != '['
    ensures Parse([c] + rest) == [if c == '*' then Star else if c == '?' then AnyOne else Lit(c)] + Parse(rest)
  {
    assert ([c] + rest)[1..] == rest;
  }

  lemma {:induction false} ClosesAt(pat: string, j: nat, k: nat)
    requires j <= k < |pat| && pat[k] == ']' && forall i :: j <= i < k ==> pat[i] != ']'
    ensures Close(pat, j) == k
    decreases k - j
  {
    if j < k {
      ClosesAt(pat, j + 1, k);
    }
  }

  /** A class: its body closes at the first bracket that is not its first character. */
  lemma ClassToken(body: string, rest: string)
    requires body != "" && body[0] != '!' && ']' !in body[1..]
    ensures Parse("[" + body + "]" + rest) == [Class(false, Ranges(body))] + Parse(rest)
  {
    var pat := "[" + body + "]" + rest;
    var k := |body| + 1;
    forall i | 2 <= i < k
      ensures pat[i] != ']'
    {
      assert pat[i] == body[1..][i - 2] && body[1..][i - 2] in body[1..];
    }
    assert pat[0] == '[' && pat[1] == body[0] && pat[k] == ']';
    ClosesAt(pat, FirstClose(pat), k);
    assert pat[1..k] == body && pat[k + 1..] == rest;
  }

  /** A class of the characters that are not in its body. */
  lemma NegatedToken(body: string, rest: string)
    requires body != "" && ']' !in body[1..]
    ensures Parse("[!" + body + "]" + rest) == [Class(true, Ranges(body))] + Parse(rest)
  {
    var pat := "[!" + body + "]" + rest;
    var k := |body| + 2;
    forall i | 3 <= i < k
      ensures pat[i] != ']'
    {
      assert pat[i] == body[1..][i - 3] && body[1..][i - 3] in body[1..];
    }
    assert pat[0] == '[' && pat[1] == '!' && pat[2] == body[0] && pat[k] == ']';
    ClosesAt(pat, FirstClose(pat), k);
    assert pat[1..k] == "!" + body && ("!" + body)[1..] == body && pat[k + 1..] == rest;
  }

  lemma {:induction false} NeverCloses(pat: string, j: nat)
    requires j <= |pat| && forall i :: j <= i < |pat| ==> pat[i] != ']'
    ensures Close(pat, j) == |pat|
    decreases |pat| - j
  {
    if j < |pat| {
      NeverCloses(pat, j + 1);
    }
  }

  /** An opening bracket that nothing closes stands for itself. */
  lemma OpenBracket(rest: string)
    requires ']' !in rest
    ensures Parse("[" + rest) == [Lit('[')] + Parse(rest)
  {
    var pat := "[" + rest;
    forall i | 1 <= i < |pat|
      ensures pat[i] != ']'
    {
      assert pat[i] == rest[i - 1] && rest[i - 1] in rest;
    }
    NeverCloses(pat, FirstClose(pat));
    assert pat[1..] == rest;
  }

  /** In a class body: a range, and a character for itself. */
  lemma RangeInClass(lo: char, hi: char, rest: string, c: char)
    ensures InRanges(Ranges([lo] + "-" + [hi] + rest), c) <==> lo <= c <= hi || InRanges(Ranges(rest), c)
  {
    var body := [lo] + "-" + [hi] + rest;
    assert body[3..] == rest && body[0] == lo && body[1] == '-' && body[2] == hi;
    RangesJoin((lo, hi), Ranges(rest), c);
  }

  lemma CharInClass(x: char, rest: string, c: char)
    requires |rest| >= 2 ==> rest[0] != '-'
    ensures InRanges(Ranges([x] + rest), c) <==> c == x || InRanges(Ranges(rest), c)
  {
    var body := [x] + rest;
    assert body[1..] == rest && body[0] == x;
    RangesJoin((x, x), Ranges(rest), c);
  }

  lemma RangesJoin(r: (char, char), rest: seq<(char, char)>, c: char)
    ensures InRanges([r] + rest, c) <==> r.0 <= c <= r.1 || InRanges(rest, c)
  {
    if InRanges(rest, c) {
      var x :| x in rest && x.0 <= c <= x.1;
      assert x in [r] + rest;
    }
    assert r in [r] + rest;
  }

  lemma OneTokenMatches(t: Tok, c: char)
    requires !t.Star?
    ensures Match([t], [c]) <==> One(t, c)
  {
    assert [t][1..] == [] && [c][1..] == "";
  }

  lemma ClassPattern(pat: string, negated: bool, body: string, c: char)
    requires Parse(pat) == [Class(negated, Ranges(body))]
    ensures Fnmatch([c], pat) <==> if negated then !InRanges(Ranges(body), c) else InRanges(Ranges(body), c)
  {
    OneTokenMatches(Class(negated, Ranges(body)), c);
  }

  /** A class as the whole pattern matches the characters of its body, one at a time. */
  lemma ClassMatches(body: string, c: char)
    requires body != "" && body[0] != '!' && ']' !in body[1..]
    ensures Fnmatch([c], "[" + body + "]") <==> InRanges(Ranges(body), c)
  {
    var pat := "[" + body + "]";
    ClassToken(body, "");
    assert pat + "" == pat;
    ClassPattern(pat, false, body, c);
  }

  /** A negated class matches the other characters. */
  lemma NegatedMatches(body: string, c: char)
    requires body != "" && ']' !in body[1..]
    ensures Fnmatch([c], "[!" + body + "]") <==> !InRanges(Ranges(body), c)
  {
    var pat := "[!" + body + "]";
    NegatedToken(body, "");
    assert pat + "" == pat;
    ClassPattern(pat, true, body, c);
  }
}
