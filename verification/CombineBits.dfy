/** The globs for a set of bit indices of one signal, and why they select exactly those bits. */
module CombineBits {
  import opened Glob
  import opened BitGlobs
  import opened Options
  import opened Sequences

  /** The name a coverage database gives to a bit of a signal. */
  function Name(base: string, bit: nat): string {
    base + "[" + Dec(bit) + "]"
  }

  lemma {:induction false} LiteralAppend(a: string, b: string)
    ensures GlobLiteral(a + b) == GlobLiteral(a) + GlobLiteral(b)
  {
    if a == [] {
      assert a + b == b;
    } else {
      assert (a + b)[1..] == a[1..] + b;
      LiteralAppend(a[1..], b);
    }
  }

  lemma {:induction false} DigitsAreLiteral(s: string)
    requires AllDigits(s)
    ensures GlobLiteral(s) == s
  {
    if s != [] {
      assert s[0] in s && forall c :: c in s[1..] ==> c in s;
      DigitsAreLiteral(s[1..]);
    }
  }

  /** The text of a glob: the escaped base, `[`, the leading digits, the last digit or a class. */
  function GlobText(base: string, prefix: string, last: string): string {
    GlobLiteral(base) + "[[]" + prefix + last + "]"
  }

  lemma GlobTextParses(base: string, prefix: string, last: string)
    requires AllDigits(prefix)
    ensures Parse(GlobText(base, prefix, last)) == Toks(base + "[" + prefix) + Parse(last + "]")
  {
    LiteralAppend(base, "[");
    LiteralAppend(base + "[", prefix);
    DigitsAreLiteral(prefix);
    ParseLiteral(base + "[" + prefix, last + "]");
    assert GlobLiteral("[") == "[[]";
    assert GlobText(base, prefix, last) == GlobLiteral(base + "[" + prefix) + (last + "]");
  }

  lemma OneDigitParses(c: char)
    requires IsDigit(c)
    ensures Parse([c] + "]") == [Lit(c), Lit(']')]
  {
    assert ([c] + "]")[1..] == "]";
    assert Parse("]") == [Lit(']')] + Parse("]"[1..]);
  }

  lemma {:induction false} CloseSkips(pat: string, j: nat, k: nat)
    requires j <= k < |pat| && pat[k] == ']' && forall i :: j <= i < k ==> pat[i] != ']'
    ensures Close(pat, j) == k
    decreases k - j
  {
    if j < k {
      CloseSkips(pat, j + 1, k);
    }
  }

  lemma ClassCloses(body: string)
    requires body != [] && forall x :: x in body ==> IsDigit(x) || x == '-'
    ensures Close("[" + body + "]]", 1) == |body| + 1
  {
    var pat := "[" + body + "]]";
    forall i | 1 <= i < |body| + 1
      ensures pat[i] != ']'
    {
      assert pat[i] == body[i - 1] && body[i - 1] in body;
    }
    CloseSkips(pat, 1, |body| + 1);
  }

  lemma ClassParses(body: string)
    requires body != [] && IsDigit(body[0]) && forall x :: x in body ==> IsDigit(x) || x == '-'
    ensures Parse("[" + body + "]]") == [Class(false, Ranges(body)), Lit(']')]
  {
    var pat := "[" + body + "]]";
    ClassCloses(body);
    assert pat[0] == '[' && pat[1] == body[0];
    assert FirstClose(pat) == 1;
    assert pat[1..|body| + 1] == body;
    assert pat[|body| + 2..] == "]";
    assert Parse("]") == [Lit(']')] + Parse("]"[1..]);
  }

  /** A glob for the bits whose decimal is `prefix` followed by one of `lasts`. */
  ghost predicate Selects(g: string, base: string, prefix: string, lasts: seq<char>) {
    exists t: Tok :: Ends(g, base, prefix, lasts, t)
  }

  ghost predicate Ends(g: string, base: string, prefix: string, lasts: seq<char>, t: Tok) {
    !t.Star? && Parse(g) == Toks(base + "[" + prefix) + [t, Lit(']')] && forall c :: One(t, c) <==> c in lasts
  }

  /** One glob of a group of bits that share all digits but the last. */
  method GroupGlob(base: string, prefix: string, lasts: seq<char>) returns (g: string)
    requires AllDigits(prefix) && lasts != [] && forall c :: c in lasts ==> IsDigit(c)
    ensures Selects(g, base, prefix, lasts)
    ensures (forall c :: c in lasts ==> c == lasts[0]) ==> g == GlobText(base, prefix, [lasts[0]])
  {
    if forall c :: c in lasts ==> c == lasts[0] {
      g := GlobText(base, prefix, [lasts[0]]);
      GlobTextParses(base, prefix, [lasts[0]]);
      OneDigitParses(lasts[0]);
      assert Ends(g, base, prefix, lasts, Lit(lasts[0]));
    } else {
      var body, runs := DigitClass(lasts);
      g := GlobText(base, prefix, "[" + body + "]");
      GlobTextParses(base, prefix, "[" + body + "]");
      ClassParses(body);
      assert "[" + body + "]" + "]" == "[" + body + "]]";
      assert forall c :: One(Class(false, Ranges(body)), c) <==> InClass(body, c);
      assert Ends(g, base, prefix, lasts, Class(false, Ranges(body)));
    }
  }

  /** What a glob selects among the bits of its own base, whatever characters the base has. */
  lemma SelectsBits(g: string, base: string, prefix: string, lasts: seq<char>, bit: nat)
    requires Selects(g, base, prefix, lasts)
    requires AllDigits(prefix) && forall c :: c in lasts ==> IsDigit(c)
    ensures Fnmatch(Name(base, bit), g) <==> exists c :: c in lasts && Dec(bit) == prefix + [c]
  {
    var t :| Ends(g, base, prefix, lasts, t);
    if Fnmatch(Name(base, bit), g) {
      SelectedBit(base, prefix, lasts, t, bit);
    }
    if exists c :: c in lasts && Dec(bit) == prefix + [c] {
      var c :| c in lasts && Dec(bit) == prefix + [c];
      EachOne([t, Lit(']')], [c, ']']);
      TextMatchesItself(base + "[" + prefix, [t, Lit(']')], [c, ']']);
      assert Name(base, bit) == (base + "[" + prefix) + [c, ']'];
    }
  }

  /** The tokens after the base are matched by the end of the name, character by character. */
  lemma SelectedBit(base: string, prefix: string, lasts: seq<char>, t: Tok, bit: nat)
    requires AllDigits(prefix) && !t.Star? && forall c :: One(t, c) ==> IsDigit(c)
    requires Match(Toks(base + "[" + prefix) + [t, Lit(']')], Name(base, bit))
    ensures exists c :: One(t, c) && Dec(bit) == prefix + [c]
  {
    var s, dec := Name(base, bit), Dec(bit);
    var tail := Toks("[" + prefix) + [t, Lit(']')];
    assert Toks(base + "[" + prefix) + [t, Lit(']')] == Toks(base) + tail;
    forall x | x in Toks("[" + prefix)
      ensures !x.Star?
    {
      DigitToks(prefix, x);
    }
    TailSplits(Toks(base), tail, s);
    var u := s[|s| - |tail|..];
    OneEach(tail, u);
    SuffixIsBit(base, prefix, t, bit, u);
  }

  lemma DigitToks(prefix: string, x: Tok)
    requires AllDigits(prefix) && x in Toks("[" + prefix)
    ensures !x.Star?
  {
    var i :| 0 <= i < |"[" + prefix| && x == Toks("[" + prefix)[i];
    if i > 0 {
      assert ("[" + prefix)[i] == prefix[i - 1] && prefix[i - 1] in prefix;
    }
  }

  /** A suffix of a bit's name that starts with `[` starts at the index bracket. */
  lemma SuffixIsBit(base: string, prefix: string, t: Tok, bit: nat, u: string)
    requires AllDigits(prefix) && !t.Star? && forall c :: One(t, c) ==> IsDigit(c)
    requires |u| == |prefix| + 3 <= |Name(base, bit)| && u == Name(base, bit)[|Name(base, bit)| - |u|..]
    requires forall x :: x in Toks("[" + prefix) ==> !x.Star?
    requires forall i :: 0 <= i < |u| ==> One((Toks("[" + prefix) + [t, Lit(']')])[i], u[i])
    ensures exists c :: One(t, c) && Dec(bit) == prefix + [c]
  {
    var dec := Dec(bit);
    var toks := Toks("[" + prefix) + [t, Lit(']')];
    BracketClass(u[0]);
    assert toks[0] == TokOf('[') && u[0] == '[';
    forall i | 0 <= i < |prefix|
      ensures u[i + 1] == prefix[i]
    {
      assert prefix[i] in prefix && toks[i + 1] == TokOf(prefix[i]);
    }
    var c := u[|prefix| + 1];
    assert toks[|prefix| + 1] == t && One(t, c);
    assert toks[|prefix| + 2] == Lit(']');
    assert u == "[" + prefix + [c] + "]";
    BracketPlace(base, bit, prefix, c, u);
  }

  lemma BracketPlace(base: string, bit: nat, prefix: string, c: char, u: string)
    requires AllDigits(prefix) && IsDigit(c) && u == "[" + prefix + [c] + "]"
    requires |u| <= |Name(base, bit)| && u == Name(base, bit)[|Name(base, bit)| - |u|..]
    ensures Dec(bit) == prefix + [c]
  {
    var s, dec := Name(base, bit), Dec(bit);
    var start := |s| - |u|;
    forall k | |base| < k < |s|
      ensures s[k] != '['
    {
      assert k < |s| - 1 ==> s[k] == dec[k - |base| - 1] && dec[k - |base| - 1] in dec;
    }
    forall k | 1 <= k < |u|
      ensures u[k] != '['
    {
      assert k <= |prefix| ==> u[k] == prefix[k - 1] && prefix[k - 1] in prefix;
    }
    assert s[|base|] == '[' && s[start] == u[0] == '[';
    assert forall k :: 0 <= k < |u| ==> u[k] == s[start + k];
    assert start >= |base| by {
      assert forall k :: start < k < |s| ==> s[k] == u[k - start];
    }
    assert s[|base|..] == "[" + dec + "]";
    assert dec == ("[" + dec + "]")[1..|dec| + 1] == u[1..|u| - 1] == prefix + [c];
  }

  lemma LastTwo(t: Tok, u: string)
    requires !t.Star?
    ensures Match([t, Lit(']')], u) <==> |u| == 2 && One(t, u[0]) && u[1] == ']'
  {
    if |u| == 2 && One(t, u[0]) && u[1] == ']' {
      EachOne([t, Lit(']')], u);
    } else if Match([t, Lit(']')], u) {
      OneEach([t, Lit(']')], u);
    }
  }

  lemma DigitEnds(text: string, c: char)
    requires IsDigit(c)
    ensures Toks(text + [c] + "]") == Toks(text) + [Lit(c), Lit(']')]
  {
  }

  /** What the escaped name of one bit matches, by its last two characters. */
  lemma NameEnds(text: string, c: char, s: string)
    requires IsDigit(c)
    ensures Fnmatch(s, GlobLiteral(text + [c] + "]")) <==>
      |s| >= 2 && Match(Toks(text), s[..|s| - 2]) && s[|s| - 2..] == [c, ']']
  {
    ParsesToToks(text + [c] + "]");
    DigitEnds(text, c);
    TailSplits(Toks(text), [Lit(c), Lit(']')], s);
    if |s| >= 2 {
      LastTwo(Lit(c), s[|s| - 2..]);
    }
  }

  /**
   * A group's glob matches what the escaped names of its bits match one by one, whatever
   * characters the base has and whatever is matched.
   */
  lemma SelectsOneByOne(g: string, base: string, prefix: string, lasts: seq<char>, s: string)
    requires Selects(g, base, prefix, lasts)
    requires AllDigits(prefix) && forall c :: c in lasts ==> IsDigit(c)
    ensures Fnmatch(s, g) <==> exists c :: c in lasts && Fnmatch(s, GlobLiteral(base + "[" + prefix + [c] + "]"))
  {
    var t :| Ends(g, base, prefix, lasts, t);
    var text := base + "[" + prefix;
    TailSplits(Toks(text), [t, Lit(']')], s);
    forall c | c in lasts
      ensures Fnmatch(s, GlobLiteral(text + [c] + "]")) <==>
        |s| >= 2 && Match(Toks(text), s[..|s| - 2]) && s[|s| - 2..] == [c, ']']
    {
      NameEnds(text, c, s);
    }
    if |s| >= 2 {
      LastTwo(t, s[|s| - 2..]);
    }
  }

  // ---- Grouping the wanted bits ----

  function Front(s: string): string
    requires s != []
  {
    s[..|s| - 1]
  }

  function Last(s: string): char
    requires s != []
  {
    s[|s| - 1]
  }

  ghost predicate Wanted(want: seq<nat>, s: string) {
    exists k :: 0 <= k < |want| && Dec(want[k]) == s
  }

  /** Every key is a group's, once. */
  ghost predicate Keyed(keys: seq<string>, groups: map<string, seq<char>>) {
    && (forall i, j :: 0 <= i < j < |keys| ==> keys[i] != keys[j])
    && (forall p :: p in keys <==> p in groups)
  }

  ghost predicate Sound(groups: map<string, seq<char>>, want: seq<nat>) {
    forall p :: p in groups ==> SoundGroup(p, groups[p], want)
  }

  ghost predicate SoundGroup(p: string, lasts: seq<char>, want: seq<nat>) {
    AllDigits(p) && lasts != [] && forall c :: c in lasts ==> IsDigit(c) && Wanted(want, p + [c])
  }

  predicate InGroup(groups: map<string, seq<char>>, b: nat) {
    var t := Dec(b);
    Front(t) in groups && Last(t) in groups[Front(t)]
  }

  /** The groups hold the last digits of the wanted bits under their leading digits. */
  ghost predicate Groups(groups: map<string, seq<char>>, want: seq<nat>) {
    Sound(groups, want) && forall b :: b in want ==> InGroup(groups, b)
  }

  lemma DecParts(b: nat)
    ensures AllDigits(Front(Dec(b))) && IsDigit(Last(Dec(b)))
    ensures Front(Dec(b)) + [Last(Dec(b))] == Dec(b)
  {
    forall c | c in Front(Dec(b))
      ensures IsDigit(c)
    {
      assert c in Dec(b);
    }
    assert Last(Dec(b)) in Dec(b);
  }

  lemma WantedGrows(want: seq<nat>, b: nat, s: string)
    requires Wanted(want, s) || s == Dec(b)
    ensures Wanted(want + [b], s)
  {
    var more := want + [b];
    if Wanted(want, s) {
      var k :| 0 <= k < |want| && Dec(want[k]) == s;
      assert Dec(more[k]) == s;
    } else {
      assert Dec(more[|want|]) == s;
    }
  }

  /** The groups with one more last digit under `p`. */
  function AddLast(groups: map<string, seq<char>>, p: string, c: char): map<string, seq<char>> {
    groups[p := (if p in groups then groups[p] else []) + [c]]
  }

  lemma SoundGrows(p: string, lasts: seq<char>, want: seq<nat>, b: nat)
    requires SoundGroup(p, lasts, want)
    ensures SoundGroup(p, lasts, want + [b])
  {
    forall c | c in lasts
      ensures Wanted(want + [b], p + [c])
    {
      WantedGrows(want, b, p + [c]);
    }
  }

  lemma SoundLonger(p: string, lasts: seq<char>, want: seq<nat>, c: char)
    requires AllDigits(p) && IsDigit(c) && Wanted(want, p + [c])
    requires lasts == [] || SoundGroup(p, lasts, want)
    ensures SoundGroup(p, lasts + [c], want)
  {
  }

  lemma GroupsGrow(groups: map<string, seq<char>>, want: seq<nat>, b: nat)
    requires Groups(groups, want)
    ensures Groups(AddLast(groups, Front(Dec(b)), Last(Dec(b))), want + [b])
  {
    DecParts(b);
    WantedGrows(want, b, Dec(b));
    var p, c := Front(Dec(b)), Last(Dec(b));
    var gs := AddLast(groups, p, c);
    forall q | q in gs
      ensures SoundGroup(q, gs[q], want + [b])
    {
      if q in groups {
        SoundGrows(q, groups[q], want, b);
      }
      if q == p {
        SoundLonger(p, if p in groups then groups[p] else [], want + [b], c);
      }
    }
    forall x | x in want + [b]
      ensures InGroup(gs, x)
    {
      assert x in want ==> InGroup(groups, x);
    }
  }

  /** The keys after a bit with leading digits `p`. */
  function AddKey(keys: seq<string>, groups: map<string, seq<char>>, p: string): seq<string> {
    if p in groups then keys else keys + [p]
  }

  lemma KeysGrow(keys: seq<string>, groups: map<string, seq<char>>, p: string, c: char)
    requires Keyed(keys, groups)
    ensures Keyed(AddKey(keys, groups, p), AddLast(groups, p, c))
  {
  }

  method GroupDigits(want: seq<nat>) returns (keys: seq<string>, groups: map<string, seq<char>>)
    ensures Keyed(keys, groups) && Groups(groups, want)
  {
    keys, groups := [], map[];
    for i := 0 to |want|
      invariant Keyed(keys, groups) && Groups(groups, want[..i])
    {
      var t := Dec(want[i]);
      GroupsGrow(groups, want[..i], want[i]);
      KeysGrow(keys, groups, Front(t), Last(t));
      TakeOneMore(want, i);
      keys, groups := AddKey(keys, groups, Front(t)), AddLast(groups, Front(t), Last(t));
    }
    TakeAll(want);
  }

  // ---- The globs of all groups ----

  predicate MatchesAny(globs: seq<string>, name: string) {
    exists i :: 0 <= i < |globs| && Fnmatch(name, globs[i])
  }

  /** One glob for each group, in order. */
  ghost predicate Built(globs: seq<string>, base: string, keys: seq<string>, groups: map<string, seq<char>>) {
    && |globs| == |keys|
    && (forall i :: 0 <= i < |keys| ==> keys[i] in groups && Selects(globs[i], base, keys[i], groups[keys[i]]))
  }

  lemma WantedBit(want: seq<nat>, b: nat)
    ensures Wanted(want, Dec(b)) <==> b in want
  {
    if Wanted(want, Dec(b)) {
      var k :| 0 <= k < |want| && Dec(want[k]) == Dec(b);
      DecInjective(want[k], b);
    }
    if b in want {
      var k :| 0 <= k < |want| && want[k] == b;
      assert Dec(want[k]) == Dec(b);
    }
  }

  /** A glob selects the wanted bits whose leading digits are its group's, and no others. */
  lemma GlobOfGroup(globs: seq<string>, base: string, keys: seq<string>, groups: map<string, seq<char>>,
                    want: seq<nat>, i: nat, b: nat)
    requires Keyed(keys, groups) && Groups(groups, want) && Built(globs, base, keys, groups) && i < |keys|
    ensures Fnmatch(Name(base, b), globs[i]) <==> b in want && Front(Dec(b)) == keys[i]
  {
    var p := keys[i];
    SelectsBits(globs[i], base, p, groups[p], b);
    WantedBit(want, b);
    if Fnmatch(Name(base, b), globs[i]) {
      var c :| c in groups[p] && Dec(b) == p + [c];
      assert Front(Dec(b)) == p;
    }
    if b in want && Front(Dec(b)) == p {
      DecParts(b);
      assert Last(Dec(b)) in groups[p];
    }
  }

  /** The bits the globs select, out of all natural numbers, and once each. */
  ghost predicate ExactOnBits(globs: seq<string>, base: string, want: seq<nat>) {
    && (forall b: nat :: MatchesAny(globs, Name(base, b)) <==> b in want)
    && (forall b: nat, i, j :: 0 <= i < j < |globs| ==>
          !(Fnmatch(Name(base, b), globs[i]) && Fnmatch(Name(base, b), globs[j])))
  }

  lemma GlobsAreExact(globs: seq<string>, base: string, keys: seq<string>, groups: map<string, seq<char>>,
                      want: seq<nat>)
    requires Keyed(keys, groups) && Groups(groups, want) && Built(globs, base, keys, groups)
    ensures ExactOnBits(globs, base, want)
  {
    forall b: nat, i: nat | i < |globs|
      ensures Fnmatch(Name(base, b), globs[i]) <==> b in want && Front(Dec(b)) == keys[i]
    {
      GlobOfGroup(globs, base, keys, groups, want, i, b);
    }
    forall b: nat | b in want
      ensures MatchesAny(globs, Name(base, b))
    {
      var i :| 0 <= i < |keys| && keys[i] == Front(Dec(b));
      assert Fnmatch(Name(base, b), globs[i]);
    }
  }

  /** The escaped name of some wanted bit with the leading digits `p` matches. */
  ghost predicate LikeFront(base: string, want: seq<nat>, p: string, s: string) {
    exists b: nat :: b in want && Front(Dec(b)) == p && Fnmatch(s, GlobLiteral(Name(base, b)))
  }

  /** The glob matches, on any text, what the wanted bits with the leading digits `p` match. */
  ghost predicate HasFront(g: string, base: string, want: seq<nat>, p: string) {
    forall s: string :: Fnmatch(s, g) <==> LikeFront(base, want, p, s)
  }

  ghost predicate WantsFront(want: seq<nat>, p: string) {
    exists b: nat :: b in want && Front(Dec(b)) == p
  }

  /** The leading digits of the wanted bits, each once. The trigger keeps the prover from going round the bits. */
  ghost predicate AreFronts(fronts: seq<string>, want: seq<nat>) {
    && (forall i, j :: 0 <= i < j < |fronts| ==> fronts[i] != fronts[j])
    && (forall p {:trigger WantsFront(want, p)} :: p in fronts ==> WantsFront(want, p))
    && (forall b: nat :: b in want ==> Front(Dec(b)) in fronts)
  }

  /** One glob for each of the leading digits. */
  ghost predicate ByFront(globs: seq<string>, base: string, want: seq<nat>, fronts: seq<string>) {
    && |globs| == |fronts| && AreFronts(fronts, want)
    && forall i :: 0 <= i < |globs| ==> HasFront(globs[i], base, want, fronts[i])
  }

  lemma NameParts(base: string, p: string, c: char)
    ensures base + "[" + p + [c] + "]" == base + "[" + (p + [c]) + "]" && Front(p + [c]) == p
  {
  }

  lemma WantedName(base: string, p: string, c: char, want: seq<nat>, s: string)
    requires Wanted(want, p + [c]) && Fnmatch(s, GlobLiteral(base + "[" + p + [c] + "]"))
    ensures LikeFront(base, want, p, s)
  {
    var k :| 0 <= k < |want| && Dec(want[k]) == p + [c];
    NameParts(base, p, c);
    assert want[k] in want && Front(Dec(want[k])) == p;
  }

  lemma NameInGroup(base: string, groups: map<string, seq<char>>, want: seq<nat>, p: string, s: string)
    requires Groups(groups, want) && LikeFront(base, want, p, s)
    ensures p in groups && exists c :: c in groups[p] && Fnmatch(s, GlobLiteral(base + "[" + p + [c] + "]"))
  {
    var b: nat :| b in want && Front(Dec(b)) == p && Fnmatch(s, GlobLiteral(Name(base, b)));
    assert InGroup(groups, b);
    DecParts(b);
    NameParts(base, p, Last(Dec(b)));
  }

  lemma GroupHasFront(g: string, base: string, groups: map<string, seq<char>>, want: seq<nat>, p: string)
    requires Groups(groups, want) && p in groups && Selects(g, base, p, groups[p])
    ensures HasFront(g, base, want, p)
  {
    assert SoundGroup(p, groups[p], want);
    forall s: string
      ensures Fnmatch(s, g) <==> LikeFront(base, want, p, s)
    {
      SelectsOneByOne(g, base, p, groups[p], s);
      if Fnmatch(s, g) {
        var c :| c in groups[p] && Fnmatch(s, GlobLiteral(base + "[" + p + [c] + "]"));
        WantedName(base, p, c, want, s);
      }
      if LikeFront(base, want, p, s) {
        NameInGroup(base, groups, want, p, s);
      }
    }
  }

  lemma GroupHasBit(groups: map<string, seq<char>>, want: seq<nat>, p: string) returns (b: nat)
    requires Groups(groups, want) && p in groups
    ensures b in want && Front(Dec(b)) == p
  {
    assert SoundGroup(p, groups[p], want);
    var c := groups[p][0];
    assert c in groups[p] && Wanted(want, p + [c]);
    var k :| 0 <= k < |want| && Dec(want[k]) == p + [c];
    b := want[k];
  }

  lemma KeysAreFronts(keys: seq<string>, groups: map<string, seq<char>>, want: seq<nat>)
    requires Keyed(keys, groups) && Groups(groups, want)
    ensures AreFronts(keys, want)
  {
    forall p | p in keys
      ensures WantsFront(want, p)
    {
      var b := GroupHasBit(groups, want, p);
    }
    forall b: nat | b in want
      ensures Front(Dec(b)) in keys
    {
      assert InGroup(groups, b);
    }
  }

  /** What a folding of the wanted bits promises. */
  ghost predicate Folds(globs: seq<string>, base: string, want: seq<nat>, fronts: seq<string>) {
    ExactOnBits(globs, base, want) && ByFront(globs, base, want, fronts)
  }

  lemma GlobsFold(globs: seq<string>, base: string, keys: seq<string>, groups: map<string, seq<char>>, want: seq<nat>)
    requires Keyed(keys, groups) && Groups(groups, want) && Built(globs, base, keys, groups)
    ensures Folds(globs, base, want, keys)
  {
    GlobsAreExact(globs, base, keys, groups, want);
    KeysAreFronts(keys, groups, want);
    forall i | 0 <= i < |globs|
      ensures HasFront(globs[i], base, want, keys[i])
    {
      GroupHasFront(globs[i], base, groups, want, keys[i]);
    }
  }

  // ---- What follows for the globs together ----

  /** The escaped name of some wanted bit matches. */
  ghost predicate LikeSome(base: string, want: seq<nat>, s: string) {
    exists b: nat :: b in want && Fnmatch(s, GlobLiteral(Name(base, b)))
  }

  lemma LikeSomeIsMatched(globs: seq<string>, base: string, want: seq<nat>, fronts: seq<string>, s: string)
    requires ByFront(globs, base, want, fronts) && LikeSome(base, want, s)
    ensures MatchesAny(globs, s)
  {
    var b: nat :| b in want && Fnmatch(s, GlobLiteral(Name(base, b)));
    var i :| 0 <= i < |fronts| && fronts[i] == Front(Dec(b));
    assert LikeFront(base, want, fronts[i], s);
    assert Fnmatch(s, globs[i]);
  }

  /** Folding changes nothing: the globs match what the escaped names of the wanted bits match one by one. */
  lemma FoldsOneByOne(globs: seq<string>, base: string, want: seq<nat>, fronts: seq<string>, s: string)
    requires ByFront(globs, base, want, fronts)
    ensures MatchesAny(globs, s) <==> LikeSome(base, want, s)
  {
    if MatchesAny(globs, s) {
      var i: nat :| i < |globs| && Fnmatch(s, globs[i]);
      assert LikeFront(base, want, fronts[i], s);
    }
    if LikeSome(base, want, s) {
      LikeSomeIsMatched(globs, base, want, fronts, s);
    }
  }

  /** A glob for the leading digits of a wanted bit matches the bit. */
  lemma FrontHasBit(g: string, base: string, want: seq<nat>, b: nat)
    requires b in want && HasFront(g, base, want, Front(Dec(b)))
    ensures Fnmatch(Name(base, b), g) && g != ""
  {
    MatchesItself(Name(base, b));
    assert LikeFront(base, want, Front(Dec(b)), Name(base, b));
    assert !Fnmatch(Name(base, b), "");
  }

  ghost predicate NamesSome(base: string, want: seq<nat>, s: string) {
    exists b: nat :: b in want && s == Name(base, b)
  }

  /** For a base without wildcards the globs match the names of the wanted bits and nothing else. */
  lemma PlainFolds(globs: seq<string>, base: string, want: seq<nat>, fronts: seq<string>, s: string)
    requires Folds(globs, base, want, fronts) && Plain(base)
    ensures MatchesAny(globs, s) <==> NamesSome(base, want, s)
  {
    forall b: nat
      ensures Fnmatch(s, GlobLiteral(Name(base, b))) <==> s == Name(base, b)
    {
      PlainName(base, b);
      PlainGlob(Name(base, b), s);
    }
    FoldsOneByOne(globs, base, want, fronts, s);
  }

  /** An indexed name has the wildcards of its base and no others. */
  lemma PlainIndexed(base: string, digits: string)
    requires AllDigits(digits)
    ensures Plain(base + "[" + digits + "]") <==> Plain(base)
  {
  }

  lemma PlainName(base: string, b: nat)
    ensures Plain(Name(base, b)) <==> Plain(base)
  {
    PlainIndexed(base, Dec(b));
  }

  method GroupGlobs(base: string, keys: seq<string>, groups: map<string, seq<char>>, ghost want: seq<nat>)
    returns (globs: seq<string>)
    requires Keyed(keys, groups) && Groups(groups, want)
    ensures Built(globs, base, keys, groups)
  {
    globs := [];
    for i := 0 to |keys|
      invariant |globs| == i && Built(globs, base, keys[..i], groups)
    {
      var lasts := groups[keys[i]];
      assert SoundGroup(keys[i], lasts, want);
      var g := GroupGlob(base, keys[i], lasts);
      globs := globs + [g];
    }
    assert keys[..|keys|] == keys;
  }

  /** The bits of `present` that the globs select. */
  method Hit(globs: seq<string>, base: string, present: seq<nat>) returns (hit: set<nat>)
    ensures forall b: nat :: b in hit <==> b in present && MatchesAny(globs, Name(base, b))
  {
    hit := {};
    for i := 0 to |present|
      invariant forall b: nat :: b in hit <==> b in present[..i] && MatchesAny(globs, Name(base, b))
    {
      if MatchesAny(globs, Name(base, present[i])) {
        hit := hit + {present[i]};
      }
    }
    assert present[..|present|] == present;
  }

  method FoldBits(base: string, want: seq<nat>) returns (globs: seq<string>, ghost fronts: seq<string>)
    ensures Folds(globs, base, want, fronts)
  {
    var keys, groups := GroupDigits(want);
    fronts := keys;
    globs := GroupGlobs(base, keys, groups, want);
    GlobsFold(globs, base, keys, groups, want);
  }

  /** The check against the bits present finds exactly the wanted ones if they are all present. */
  lemma HitIsWanted(globs: seq<string>, base: string, want: seq<nat>, present: seq<nat>, hit: set<nat>)
    requires ExactOnBits(globs, base, want)
    requires forall b: nat :: b in hit <==> b in present && MatchesAny(globs, Name(base, b))
    ensures hit == (set b | b in want) <==> forall b :: b in want ==> b in present
  {
  }

  /** Globs that select exactly the wanted bits, or nothing if the check against `present` fails. */
  method CombineBits(base: string, want: seq<nat>, present: seq<nat>)
    returns (r: Option<seq<string>>, ghost fronts: seq<string>)
    ensures r.Some? <==> forall b :: b in want ==> b in present
    ensures r.Some? ==> Folds(r.value, base, want, fronts)
  {
    var globs;
    globs, fronts := FoldBits(base, want);
    var hit := Hit(globs, base, present);
    HitIsWanted(globs, base, want, present, hit);
    if hit != (set b | b in want) {
      return None, fronts;
    }
    return Some(globs), fronts;
  }
}
