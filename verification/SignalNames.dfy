/** Names of coverage points, split into a base and a bit index. */
module SignalNames {
  import opened Options
  import opened Glob
  import opened BitGlobs
  import opened CombineBits

  /** How many digits the text ends with. */
  function TrailingDigits(s: string): (d: nat)
    ensures d <= |s| && AllDigits(s[|s| - d..])
    ensures d < |s| ==> !IsDigit(s[|s| - d - 1])
  {
    if s == [] || !IsDigit(s[|s| - 1]) then 0
    else
      var front := s[..|s| - 1];
      var d := TrailingDigits(front);
      assert s[|s| - d - 1..] == front[|front| - d..] + [s[|s| - 1]];
      d + 1
  }

  /** A name that ends with an index in brackets: what is before the index, and its digits. */
  datatype Index = Index(base: string, digits: string)

  function IndexOf(sig: string): (r: Option<Index>)
    ensures r.Some? ==>
      r.value.digits != "" && AllDigits(r.value.digits) && sig == r.value.base + "[" + r.value.digits + "]"
  {
    if sig == [] || sig[|sig| - 1] != ']' then None
    else
      var body := sig[..|sig| - 1];
      var d := TrailingDigits(body);
      if d > 0 && d < |body| && body[|body| - d - 1] == '[' then
        assert sig == body[..|body| - d - 1] + "[" + body[|body| - d..] + "]";
        Some(Index(body[..|body| - d - 1], body[|body| - d..]))
      else None
  }

  function BaseOf(sig: string): string {
    match IndexOf(sig) case Some(x) => x.base case None => sig
  }

  lemma LastOfJoined(head: string, tail: string)
    requires tail != ""
    ensures Front(head + tail) == head + Front(tail) && Last(head + tail) == Last(tail)
  {
  }

  lemma FrontIsDigits(digits: string)
    requires digits != "" && AllDigits(digits)
    ensures AllDigits(Front(digits)) && IsDigit(Last(digits))
  {
    assert Last(digits) in digits && forall c :: c in Front(digits) ==> c in digits;
  }

  lemma {:induction false} AllTrail(head: string, digits: string)
    requires AllDigits(digits) && (head == [] || !IsDigit(head[|head| - 1]))
    ensures TrailingDigits(head + digits) == |digits|
  {
    if digits == [] {
      assert head + digits == head;
    } else {
      LastOfJoined(head, digits);
      FrontIsDigits(digits);
      AllTrail(head, Front(digits));
    }
  }

  /** An indexed name is split at its last index, whatever its base looks like. */
  lemma SplitsAtLastIndex(base: string, digits: string)
    requires digits != "" && AllDigits(digits)
    ensures IndexOf(base + "[" + digits + "]") == Some(Index(base, digits))
  {
    var sig, body := base + "[" + digits + "]", base + "[" + digits;
    assert sig[..|sig| - 1] == body;
    AllTrail(base + "[", digits);
    assert body[..|body| - |digits| - 1] == base && body[|body| - |digits|..] == digits;
  }

  /** The index is written as `str` writes it, without leading zeros. */
  predicate Canonical(sig: string) {
    match IndexOf(sig)
    case Some(x) => Dec(IntOf(x.digits)) == x.digits
    case None => true
  }

  /** A name is canonical exactly if reading its index and printing it gives the name back. */
  lemma CanonicalNames(base: string, digits: string)
    requires digits != "" && AllDigits(digits)
    ensures Canonical(base + "[" + digits + "]") <==> base + "[" + digits + "]" == Name(base, IntOf(digits))
  {
    SplitsAtLastIndex(base, digits);
    var a, b := base + "[" + digits + "]", Name(base, IntOf(digits));
    if a == b {
      SplitsAtLastIndex(base, Dec(IntOf(digits)));
    }
  }

  lemma EmptyGlob(s: string)
    ensures Fnmatch(s, "") <==> s == ""
  {
  }

  // ---- How the tool spells a name ----

  /** The name a suggestion is written for: an index is read as a number and printed again. */
  function Spelled(sig: string): string {
    match IndexOf(sig)
    case Some(x) => Name(x.base, IntOf(x.digits))
    case None => sig
  }

  /** The escaped spelling of `sig` matches the name. */
  predicate Catches(sig: string, name: string) {
    Fnmatch(name, GlobLiteral(Spelled(sig)))
  }

  /** Names the tool writes with one glob: indices alike but for their last digit, or the very same name. */
  predicate SameGlob(a: string, b: string) {
    match (IndexOf(a), IndexOf(b))
    case (Some(x), Some(y)) => Front(Dec(IntOf(x.digits))) == Front(Dec(IntOf(y.digits)))
    case (None, None) => a == b
    case _ => false
  }

  lemma SpelledIsCanonical(sig: string)
    ensures Canonical(Spelled(sig)) && BaseOf(Spelled(sig)) == BaseOf(sig)
    ensures Canonical(sig) <==> Spelled(sig) == sig
  {
    if IndexOf(sig).Some? {
      var x := IndexOf(sig).value;
      CanonicalNames(x.base, x.digits);
      SplitsAtLastIndex(x.base, Dec(IntOf(x.digits)));
      IntOfDec(IntOf(x.digits));
    }
  }

  /** A spelling without wildcards catches itself and nothing else. */
  lemma PlainCatches(sig: string, name: string)
    requires Plain(Spelled(sig))
    ensures Catches(sig, name) <==> name == Spelled(sig)
  {
    PlainGlob(Spelled(sig), name);
  }

  lemma SpelledPlain(sig: string)
    ensures Plain(Spelled(sig)) <==> Plain(sig)
  {
    if IndexOf(sig).Some? {
      var x := IndexOf(sig).value;
      PlainIndexed(x.base, x.digits);
      PlainIndexed(x.base, Dec(IntOf(x.digits)));
    }
  }

  // ---- Wildcards in a name ----

  /** The name with an x in place of the character at `i`. */
  function Crossed(text: string, i: nat): string
    requires i < |text|
  {
    text[..i] + "x" + text[i + 1..]
  }

  lemma ToksSplit(text: string, i: nat)
    requires i < |text|
    ensures Toks(text) == Toks(text[..i]) + ([TokOf(text[i])] + Toks(text[i + 1..]))
  {
  }

  lemma StarTakesOne(toks: seq<Tok>, s: string)
    requires Match(toks, s)
    ensures Match([Star] + toks, "x" + s)
  {
    assert ([Star] + toks)[1..] == toks && ("x" + s)[1..] == s;
    assert Match([Star] + toks, s);
  }

  lemma WildcardTakesX(c: char, rest: string)
    requires c == '*' || c == '?'
    ensures Match([TokOf(c)] + Toks(rest), "x" + rest)
  {
    ParsesToToks(rest);
    MatchesItself(rest);
    if c == '*' {
      StarTakesOne(Toks(rest), rest);
    } else {
      assert ([TokOf(c)] + Toks(rest))[1..] == Toks(rest) && ("x" + rest)[1..] == rest;
    }
  }

  lemma CrossedParts(text: string, i: nat)
    requires i < |text| && text[i] != 'x'
    ensures text[..i] + ("x" + text[i + 1..]) == Crossed(text, i) != text
  {
    assert Crossed(text, i)[i] == 'x';
  }

  lemma MatchesCrossed(text: string, i: nat)
    requires i < |text| && (text[i] == '*' || text[i] == '?')
    ensures Match(Toks(text), text[..i] + ("x" + text[i + 1..]))
  {
    ToksSplit(text, i);
    WildcardTakesX(text[i], text[i + 1..]);
    TextMatchesItself(text[..i], [TokOf(text[i])] + Toks(text[i + 1..]), "x" + text[i + 1..]);
  }

  /** Where a name has a wildcard, the escaped name also matches an x. */
  lemma WildcardMatchesX(text: string, i: nat)
    requires i < |text| && (text[i] == '*' || text[i] == '?')
    ensures Fnmatch(Crossed(text, i), GlobLiteral(text)) && Crossed(text, i) != text
  {
    ParsesToToks(text);
    MatchesCrossed(text, i);
    CrossedParts(text, i);
  }

  lemma CrossedName(base: string, i: nat, bit: nat)
    requires i < |base|
    ensures Name(Crossed(base, i), bit) == Crossed(Name(base, bit), i) && Name(base, bit)[i] == base[i]
  {
  }

  lemma WildcardBase(base: string, bit: nat) returns (other: string)
    requires !Plain(base)
    ensures Fnmatch(other, GlobLiteral(Name(base, bit))) && BaseOf(other) != base
  {
    var i: nat :| i < |base| && (base[i] == '*' || base[i] == '?');
    CrossedName(base, i, bit);
    WildcardMatchesX(Name(base, bit), i);
    other := Name(Crossed(base, i), bit);
    assert Crossed(base, i)[i] == 'x';
    SplitsAtLastIndex(Crossed(base, i), Dec(bit));
  }

  lemma WildcardName(sig: string) returns (other: string)
    requires !Plain(sig)
    ensures Fnmatch(other, GlobLiteral(sig)) && BaseOf(other) != sig
  {
    var i: nat :| i < |sig| && (sig[i] == '*' || sig[i] == '?');
    WildcardMatchesX(sig, i);
    other := Crossed(sig, i);
    assert |other| == |sig|;
  }

  /** A name with a wildcard catches some name of another base. */
  lemma WildcardCatchesAnother(sig: string) returns (other: string)
    requires !Plain(sig)
    ensures Catches(sig, other) && BaseOf(other) != BaseOf(sig)
  {
    if IndexOf(sig).Some? {
      var x := IndexOf(sig).value;
      SpelledPlain(sig);
      PlainName(x.base, IntOf(x.digits));
      other := WildcardBase(x.base, IntOf(x.digits));
    } else {
      other := WildcardName(sig);
    }
  }
}
