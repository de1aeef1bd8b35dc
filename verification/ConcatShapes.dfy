/** What the pieces of an expression look like, written out of their parts. */
module ConcatShapes {
  import opened Text
  import opened Options
  import opened BitGlobs
  import opened VerilogText

  /** A run of characters of the class, to its end. */
  lemma {:induction false} SkipsTo(t: string, i: nat, j: nat, kind: char -> bool)
    requires i <= j <= |t| && (forall k :: i <= k < j ==> kind(t[k])) && (j < |t| ==> !kind(t[j]))
    ensures Skip(t, i, kind) == j
    decreases j - i
  {
    if i < j {
      SkipsTo(t, i + 1, j, kind);
    }
  }

  /** Scanning past what is in the middle of a text. */
  lemma SkipsPart(before: string, run: string, after: string, kind: char -> bool)
    requires (forall c :: c in run ==> kind(c)) && (after != "" ==> !kind(after[0]))
    ensures Skip(before + run + after, |before|, kind) == |before + run|
  {
    var t := before + run + after;
    forall k | |before| <= k < |before + run|
      ensures kind(t[k])
    {
      assert t[k] == run[k - |before|] && run[k - |before|] in run;
    }
    SkipsTo(t, |before|, |before + run|, kind);
  }

  // ---- A number with white space around it ----

  predicate NumberParts(u: string, a: string, d: string, b: string) {
    u == a + d + b && AllSpace(a) && d != "" && AllDigits(d) && AllSpace(b)
  }

  lemma DigitIsNoSpace(c: char)
    ensures !(IsDigit(c) && IsSpace(c))
  {
  }

  /** Where the parts of a number followed by other text end. */
  lemma NumberEnds(a: string, d: string, b: string, rest: string)
    requires AllSpace(a) && d != "" && AllDigits(d) && AllSpace(b)
    requires rest != "" ==> !IsSpace(rest[0]) && (b == "" ==> !IsDigit(rest[0]))
    ensures var u := a + d + b + rest;
      && Spaces(u, 0) == |a| && Digits(u, |a|) == |a + d| && Spaces(u, |a + d|) == |a + d + b|
      && Number(u, |a|, |a + d|) == IntOf(d)
  {
    var u := a + d + b + rest;
    assert d[0] in d;
    DigitIsNoSpace(d[0]);
    assert u == "" + a + (d + b + rest);
    SkipsPart("", a, d + b + rest, IsSpace);
    if b != "" {
      assert b[0] in b;
      DigitIsNoSpace(b[0]);
    }
    assert u == a + d + (b + rest);
    SkipsPart(a, d, b + rest, IsDigit);
    assert u == (a + d) + b + rest;
    SkipsPart(a + d, b, rest, IsSpace);
    assert u[|a|..|a + d|] == d;
  }

  /** The text is the number, with white space around it or not. */
  ghost predicate NumberText(u: string, n: nat) {
    exists a, d, b :: NumberParts(u, a, d, b) && n == IntOf(d)
  }

  lemma NumberOfIs(u: string, i: nat, j: nat)
    requires i == Spaces(u, 0) < j == Digits(u, i) && Spaces(u, j) == |u|
    ensures NumberOf(u) == Some(Number(u, i, j)) && RangeOf(u) == Some(Range(Number(u, i, j), None))
  {
  }

  lemma PartsAreNumber(u: string, a: string, d: string, b: string)
    requires NumberParts(u, a, d, b)
    ensures NumberOf(u) == Some(IntOf(d)) && RangeOf(u) == Some(Range(IntOf(d), None))
  {
    assert u == a + d + b + "";
    NumberEnds(a, d, b, "");
    NumberOfIs(u, |a|, |a + d|);
  }

  lemma SliceIs(u: string, i: nat, j: nat, kind: char -> bool)
    requires i <= j <= |u| && forall k :: i <= k < j ==> kind(u[k])
    ensures forall c :: c in u[i..j] ==> kind(c)
  {
  }

  lemma NumberCut(u: string, i: nat, j: nat, c: nat)
    requires i < j <= c <= |u| && (forall k :: 0 <= k < i ==> IsSpace(u[k]))
    requires (forall k :: i <= k < j ==> IsDigit(u[k])) && forall k :: j <= k < c ==> IsSpace(u[k])
    ensures NumberText(u[..c], IntOf(u[i..j]))
  {
    SliceIs(u, 0, i, IsSpace);
    SliceIs(u, i, j, IsDigit);
    SliceIs(u, j, c, IsSpace);
    ThreeParts(u, i, j, c);
    NumberWritten(u[..c], u[0..i], u[i..j], u[j..c]);
  }

  lemma ThreeParts(u: string, i: nat, j: nat, c: nat)
    requires i <= j <= c <= |u|
    ensures u[..c] == u[0..i] + u[i..j] + u[j..c]
  {
  }

  lemma TwoPartsAndRest(u: string, i: nat, j: nat)
    requires i <= j <= |u|
    ensures u == u[0..i] + u[i..j] + u[j..]
  {
  }

  lemma NumberWritten(u: string, a: string, d: string, b: string)
    requires NumberParts(u, a, d, b)
    ensures NumberText(u, IntOf(d))
  {
  }

  /** The text up to where a number ends is a number. */
  lemma NumberHasParts(u: string)
    requires Spaces(u, 0) < Digits(u, Spaces(u, 0))
    ensures NumberText(u[..NumberEnd(u)], Number(u, Spaces(u, 0), Digits(u, Spaces(u, 0))))
  {
    NumberCut(u, Spaces(u, 0), Digits(u, Spaces(u, 0)), NumberEnd(u));
  }

  lemma NumberShape(u: string, n: nat)
    ensures NumberOf(u) == Some(n) <==> NumberText(u, n)
  {
    if NumberOf(u) == Some(n) {
      NumberHasParts(u);
      assert u[..|u|] == u;
    }
    if NumberText(u, n) {
      var a, d, b :| NumberParts(u, a, d, b) && n == IntOf(d);
      PartsAreNumber(u, a, d, b);
    }
  }

  // ---- Selects ----

  predicate IsName(name: string) {
    name != "" && forall c :: c in name ==> IsWord(c)
  }

  /** The parts of a select: the name, white space, and what is between the brackets. */
  predicate SelectParts(t: string, name: string, gap: string, u: string) {
    t == name + gap + "[" + u + "]" && IsName(name) && AllSpace(gap)
  }

  lemma WordIsNoSpace(c: char)
    ensures !(IsWord(c) && IsSpace(c))
  {
  }

  lemma SelectEnds(t: string, name: string, gap: string, u: string)
    requires SelectParts(t, name, gap, u)
    ensures Skip(t, 0, IsWord) == |name| && NameEnd(t) == |name + gap| && Bracketed(t) && InBrackets(t) == u
    ensures t[..|name|] == name
  {
    var rest := gap + "[" + u + "]";
    if gap != "" {
      assert gap[0] in gap;
      WordIsNoSpace(gap[0]);
    }
    assert t == "" + name + rest;
    SkipsPart("", name, rest, IsWord);
    assert t == name + gap + ("[" + u + "]");
    SkipsPart(name, gap, "[" + u + "]", IsSpace);
    assert t[|name + gap| + 1..|t| - 1] == u;
  }

  lemma BitShape(t: string, name: string, gap: string, u: string, n: nat)
    requires SelectParts(t, name, gap, u) && NumberText(u, n)
    ensures SelectOf(t) == Some(Bit(name, n))
  {
    SelectEnds(t, name, gap, u);
    var a, d, b :| NumberParts(u, a, d, b) && n == IntOf(d);
    PartsAreNumber(u, a, d, b);
  }

  lemma SliceShape(t: string, name: string, gap: string, u: string, v: string, m: nat, l: nat)
    requires SelectParts(t, name, gap, u + ":" + v) && NumberText(u, m) && NumberText(v, l)
    ensures SelectOf(t) == Some(Slice(name, m, l))
  {
    SelectEnds(t, name, gap, u + ":" + v);
    var a, d, b :| NumberParts(u, a, d, b) && m == IntOf(d);
    NumberShape(v, l);
    RangeOfTwo(a, d, b, v);
  }

  lemma RangeOfIs(u: string, i: nat, j: nat, c: nat)
    requires i == Spaces(u, 0) < j == Digits(u, i) && c == Spaces(u, j) < |u| && u[c] == ':'
    requires NumberOf(u[c + 1..]).Some?
    ensures RangeOf(u) == Some(Range(Number(u, i, j), NumberOf(u[c + 1..])))
  {
  }

  lemma AfterColon(x: string, v: string)
    ensures (x + ":" + v)[|x|] == ':' && (x + ":" + v)[|x| + 1..] == v
  {
  }

  lemma RangeOfTwo(a: string, d: string, b: string, v: string)
    requires AllSpace(a) && d != "" && AllDigits(d) && AllSpace(b) && NumberOf(v).Some?
    ensures RangeOf(a + d + b + ":" + v) == Some(Range(IntOf(d), NumberOf(v)))
  {
    var w := a + d + b + (":" + v);
    assert w == a + d + b + ":" + v;
    NumberEnds(a, d, b, ":" + v);
    AfterColon(a + d + b, v);
    RangeOfIs(w, |a|, |a + d|, |a + d + b|);
  }

  lemma SelectIs(t: string)
    requires SelectOf(t).Some?
    ensures 0 < Skip(t, 0, IsWord) <= NameEnd(t) && Bracketed(t) && RangeOf(InBrackets(t)).Some?
    ensures SelectOf(t) == Some(SelectLeafOf(t[..Skip(t, 0, IsWord)], RangeOf(InBrackets(t)).value))
  {
  }

  function SelectLeafOf(name: string, r: Range): Leaf {
    match r.lsb case None => Bit(name, r.msb) case Some(l) => Slice(name, r.msb, l)
  }

  lemma SelectCut(t: string, i: nat, j: nat)
    requires 0 < i <= j < |t| - 1 && t[j] == '[' && t[|t| - 1] == ']'
    requires (forall k :: 0 <= k < i ==> IsWord(t[k])) && forall k :: i <= k < j ==> IsSpace(t[k])
    ensures SelectParts(t, t[..i], t[i..j], t[j + 1..|t| - 1])
  {
    SliceIs(t, 0, i, IsWord);
    SliceIs(t, i, j, IsSpace);
    TwoPartsAndRest(t, i, j);
    assert t[0..i] == t[..i];
    assert t[j..] == "[" + t[j + 1..|t| - 1] + "]";
    SelectJoins(t[..i], t[i..j], t[j + 1..|t| - 1]);
  }

  lemma SelectJoins(name: string, gap: string, u: string)
    ensures name + gap + ("[" + u + "]") == name + gap + "[" + u + "]"
  {
  }

  lemma RangeHasShape(u: string) returns (x: string, y: string)
    requires RangeOf(u).Some?
    ensures RangeOf(u).value.lsb.None? ==> NumberText(u, RangeOf(u).value.msb)
    ensures RangeOf(u).value.lsb.Some? ==>
      u == x + ":" + y && NumberText(x, RangeOf(u).value.msb) && NumberText(y, RangeOf(u).value.lsb.value)
  {
    var c := NumberEnd(u);
    x, y := u[..c], "";
    NumberHasParts(u);
    if c == |u| {
      assert u[..|u|] == u;
    } else {
      y := u[c + 1..];
      assert u == x + ":" + y;
      NumberShape(y, NumberOf(y).value);
    }
  }

  // ---- Literals ----

  /** A base, white space, and digits of any base to the end. */
  predicate BaseParts(x: string, base: char, c: string, v: string) {
    && x == [base] + (c + v) && AllSpace(c) && base in "bBoOdDhH"
    && v != "" && forall d :: d in v ==> IsValueDigit(d)
  }

  ghost predicate HasBase(x: string) {
    exists base, c, v :: BaseParts(x, base, c, v)
  }

  /** After the tick: white space, an optional sign, and the base with the digits. */
  predicate TailParts(tail: string, a: string, sign: string, x: string) {
    tail == a + (sign + x) && AllSpace(a) && (sign == "" || sign == "s" || sign == "S")
  }

  /** A width, white space, a tick and what comes after it. */
  predicate LiteralParts(t: string, d: string, a: string, tail: string) {
    t == d + a + ("'" + tail) && d != "" && AllDigits(d) && AllSpace(a)
  }

  /** The base and the digits at `b`, as the parser looks for them. */
  predicate BaseAt(t: string, b: nat) {
    b < |t| && t[b] in "bBoOdDhH" &&
    var c := Spaces(t, b + 1);
    c < |t| && forall k :: c <= k < |t| ==> IsValueDigit(t[k])
  }

  lemma BaseReads(before: string, x: string, base: char, c: string, v: string)
    requires BaseParts(x, base, c, v)
    ensures BaseAt(before + x, |before|) && !IsSpace(x[0]) && x[0] !in "sS"
  {
    var t, b := before + x, |before|;
    assert v[0] in v;
    forall k | b + 1 <= k < |t|
      ensures t[k] == (c + v)[k - b - 1]
    {
    }
    forall k | b + 1 <= k < b + 1 + |c|
      ensures IsSpace(t[k])
    {
      assert t[k] == c[k - b - 1] && c[k - b - 1] in c;
    }
    assert t[b + 1 + |c|] == v[0];
    SkipsTo(t, b + 1, b + 1 + |c|, IsSpace);
    forall k | b + 1 + |c| <= k < |t|
      ensures IsValueDigit(t[k])
    {
      assert t[k] == v[k - b - 1 - |c|] && v[k - b - 1 - |c|] in v;
    }
  }

  lemma CutHere(t: string, i: nat, j: nat)
    requires i <= j <= |t|
    ensures t[i..] == t[i..j] + t[j..]
  {
  }

  lemma SuffixIs(u: string, i: nat, kind: char -> bool)
    requires i <= |u| && forall k :: i <= k < |u| ==> kind(u[k])
    ensures forall c :: c in u[i..] ==> kind(c)
  {
  }

  lemma BaseCut(t: string, b: nat, m: nat)
    requires b < m < |t| && t[b] in "bBoOdDhH"
    requires (forall k :: b + 1 <= k < m ==> IsSpace(t[k])) && forall k :: m <= k < |t| ==> IsValueDigit(t[k])
    ensures BaseParts(t[b..], t[b], t[b + 1..m], t[m..])
  {
    SliceIs(t, b + 1, m, IsSpace);
    SuffixIs(t, m, IsValueDigit);
    CutHere(t, b + 1, m);
    CutHere(t, b, b + 1);
    assert t[b..b + 1] == [t[b]];
  }

  lemma BaseHasParts(t: string, b: nat) returns (c: string, v: string)
    requires BaseAt(t, b)
    ensures BaseParts(t[b..], t[b], c, v)
  {
    var m := Spaces(t, b + 1);
    BaseCut(t, b, m);
    c, v := t[b + 1..m], t[m..];
  }

  /** The place of the base after an optional sign. */
  function BasePlace(t: string, a: nat): nat {
    if a < |t| && t[a] in "sS" then a + 1 else a
  }

  lemma TailIsBase(t: string, i: nat)
    requires i <= |t|
    ensures LiteralTail(t, i) <==> BaseAt(t, BasePlace(t, Spaces(t, i)))
  {
  }

  lemma SpacesTo(before: string, a: string, y: string)
    requires AllSpace(a) && y != "" && !IsSpace(y[0])
    ensures Spaces(before + a + y, |before|) == |before + a| && (before + a + y)[|before + a|] == y[0]
  {
    SkipsPart(before, a, y, IsSpace);
  }

  lemma Regroup(before: string, a: string, sign: string, x: string)
    ensures before + (a + (sign + x)) == before + a + (sign + x) == (before + a + sign) + x
  {
  }

  lemma TailReads(before: string, tail: string, a: string, sign: string, x: string, base: char, c: string, v: string)
    requires TailParts(tail, a, sign, x) && BaseParts(x, base, c, v)
    ensures LiteralTail(before + tail, |before|)
  {
    var y := sign + x;
    BaseReads(before + a + sign, x, base, c, v);
    assert y[0] == if sign == "" then x[0] else sign[0];
    SpacesTo(before, a, y);
    Regroup(before, a, sign, x);
    TailIsBase(before + tail, |before|);
  }

  lemma TailCut(t: string, i: nat, j: nat, k: nat)
    requires i <= j <= k <= |t| && (forall x :: i <= x < j ==> IsSpace(t[x]))
    requires k == j || (k == j + 1 && (t[j] == 's' || t[j] == 'S'))
    ensures TailParts(t[i..], t[i..j], t[j..k], t[k..])
  {
    SliceIs(t, i, j, IsSpace);
    CutHere(t, i, j);
    CutHere(t, j, k);
    assert k > j ==> t[j..k] == [t[j]];
  }

  lemma BaseIsHad(t: string, b: nat)
    requires BaseAt(t, b)
    ensures HasBase(t[b..])
  {
    var c, v := BaseHasParts(t, b);
  }

  lemma TailHasParts(t: string, i: nat) returns (a: string, sign: string, x: string)
    requires i <= |t| && LiteralTail(t, i)
    ensures TailParts(t[i..], a, sign, x) && HasBase(x)
  {
    TailIsBase(t, i);
    var j := Spaces(t, i);
    var k := BasePlace(t, j);
    BaseIsHad(t, k);
    TailCut(t, i, j, k);
    a, sign, x := t[i..j], t[j..k], t[k..];
  }

  lemma LiteralShape(t: string, d: string, a: string, tail: string)
    requires LiteralParts(t, d, a, tail) && LiteralTail(t, |d + a| + 1)
    ensures LiteralOf(t) == Some(Literal(IntOf(d), t))
  {
    LiteralEnds(t, d, a, tail);
    LiteralOfIs(t, |d|, |d + a|);
  }

  lemma LiteralOfIs(t: string, i: nat, j: nat)
    requires 0 < i == Digits(t, 0) && j == LiteralTick(t) && Is(t, j, '\'') && LiteralTail(t, j + 1)
    ensures LiteralOf(t) == Some(Literal(Number(t, 0, i), t))
  {
  }

  lemma LiteralEnds(t: string, d: string, a: string, tail: string)
    requires LiteralParts(t, d, a, tail)
    ensures Digits(t, 0) == |d| && LiteralTick(t) == |d + a| && t[|d + a|] == '\'' && Number(t, 0, |d|) == IntOf(d)
  {
    assert "" + d + a + ("'" + tail) == t;
    NumberEnds("", d, a, "'" + tail);
    assert t[|d + a|] == ("'" + tail)[0];
  }

  lemma LiteralIs(t: string)
    requires LiteralOf(t).Some?
    ensures Digits(t, 0) > 0 && LiteralOf(t) == Some(Literal(IntOf(t[0..Digits(t, 0)]), t))
    ensures Is(t, LiteralTick(t), '\'') && LiteralTail(t, LiteralTick(t) + 1)
  {
  }

  lemma LiteralCut(t: string, i: nat, j: nat)
    requires 0 < i <= j < |t| && t[j] == '\''
    requires (forall k :: 0 <= k < i ==> IsDigit(t[k])) && forall k :: i <= k < j ==> IsSpace(t[k])
    ensures LiteralParts(t, t[0..i], t[i..j], t[j + 1..]) && |t[0..i] + t[i..j]| == j
  {
    SliceIs(t, 0, i, IsDigit);
    SliceIs(t, i, j, IsSpace);
    TwoPartsAndRest(t, i, j);
    assert t[j..] == "'" + t[j + 1..];
  }

  // ---- Leaves ----

  /** How a leaf is written. */
  ghost predicate Shaped(t: string, leaf: Leaf) {
    match leaf
    case Literal(n, text) => text == t && IsLiteral(t, n)
    case Bit(name, i) => exists gap, u :: SelectParts(t, name, gap, u) && NumberText(u, i)
    case Slice(name, i, j) =>
      exists gap, u, v :: SelectParts(t, name, gap, u + ":" + v) && NumberText(u, i) && NumberText(v, j)
    case Whole(name) => t == name && IsName(name)
  }

  ghost predicate IsLiteral(t: string, n: nat) {
    exists d, a, tail :: LiteralParts(t, d, a, tail) && n == IntOf(d) && IsTail(tail)
  }

  ghost predicate IsTail(tail: string) {
    exists a, sign, x :: TailParts(tail, a, sign, x) && HasBase(x)
  }

  /** What is read as a literal is written as one, and the other way round. */
  lemma LiteralMeaning(t: string, n: nat)
    ensures LiteralOf(t) == Some(Literal(n, t)) <==> IsLiteral(t, n)
  {
    if LiteralOf(t) == Some(Literal(n, t)) {
      LiteralIs(t);
      LiteralIsWritten(t, Digits(t, 0), LiteralTick(t));
    }
    if IsLiteral(t, n) {
      var d, a, tail :| LiteralParts(t, d, a, tail) && n == IntOf(d) && IsTail(tail);
      LiteralFromParts(t, d, a, tail);
    }
  }

  lemma LiteralWritten(t: string, d: string, a: string, tail: string)
    requires LiteralParts(t, d, a, tail) && IsTail(tail)
    ensures IsLiteral(t, IntOf(d))
  {
  }

  lemma LiteralIsWritten(t: string, i: nat, j: nat)
    requires 0 < i == Digits(t, 0) && j == LiteralTick(t) && Is(t, j, '\'') && LiteralTail(t, j + 1)
    ensures IsLiteral(t, IntOf(t[0..i]))
  {
    var b, sign, x := TailHasParts(t, j + 1);
    TailIs(t[j + 1..], b, sign, x);
    LiteralCut(t, i, j);
    LiteralWritten(t, t[0..i], t[i..j], t[j + 1..]);
  }

  lemma TailIs(tail: string, a: string, sign: string, x: string)
    requires TailParts(tail, a, sign, x) && HasBase(x)
    ensures IsTail(tail)
  {
  }

  lemma LiteralFromParts(t: string, d: string, a: string, tail: string)
    requires LiteralParts(t, d, a, tail) && IsTail(tail)
    ensures LiteralOf(t) == Some(Literal(IntOf(d), t))
  {
    var b, sign, x :| TailParts(tail, b, sign, x) && HasBase(x);
    var base, c, v :| BaseParts(x, base, c, v);
    TailAfterTick(t, d, a, tail, b, sign, x, base, c, v);
    LiteralShape(t, d, a, tail);
  }

  lemma TailAfterTick(t: string, d: string, a: string, tail: string, b: string, sign: string, x: string, base: char,
                      c: string, v: string)
    requires LiteralParts(t, d, a, tail) && TailParts(tail, b, sign, x) && BaseParts(x, base, c, v)
    ensures LiteralTail(t, |d + a| + 1)
  {
    var before := d + a + "'";
    TailReads(before, tail, b, sign, x, base, c, v);
    assert before + tail == t;
  }

  /** A tick comes first in a literal and an opening bracket in a select, so nothing is read as both. */
  lemma SelectIsNoLiteral(t: string)
    requires SelectOf(t).Some?
    ensures LiteralOf(t).None?
  {
    SelectIs(t);
    if LiteralOf(t).Some? {
      LiteralIs(t);
    }
  }

  lemma SelectIsWritten(t: string)
    requires SelectOf(t).Some?
    ensures Shaped(t, SelectOf(t).value)
  {
    SelectIs(t);
    var i, j := Skip(t, 0, IsWord), NameEnd(t);
    SelectCut(t, i, j);
    RangeIsWritten(t, t[..i], t[i..j], InBrackets(t));
  }

  lemma RangeIsWritten(t: string, name: string, gap: string, u: string)
    requires SelectParts(t, name, gap, u) && RangeOf(u).Some?
    ensures Shaped(t, SelectLeafOf(name, RangeOf(u).value))
  {
    var x, y := RangeHasShape(u);
  }

  /** What is read as a select is written as one, and the other way round. */
  lemma SelectMeaning(t: string, leaf: Leaf)
    requires leaf.Bit? || leaf.Slice?
    ensures SelectOf(t) == Some(leaf) <==> Shaped(t, leaf)
  {
    if SelectOf(t).Some? {
      SelectIsWritten(t);
    }
    if Shaped(t, leaf) {
      SelectFromParts(t, leaf);
    }
  }

  lemma SelectFromParts(t: string, leaf: Leaf)
    requires (leaf.Bit? || leaf.Slice?) && Shaped(t, leaf)
    ensures SelectOf(t) == Some(leaf)
  {
    match leaf
    case Bit(name, i) =>
      var gap, u :| SelectParts(t, name, gap, u) && NumberText(u, i);
      BitShape(t, name, gap, u, i);
    case Slice(name, i, j) =>
      var gap, u, v :| SelectParts(t, name, gap, u + ":" + v) && NumberText(u, i) && NumberText(v, j);
      SliceShape(t, name, gap, u, v, i, j);
  }

  lemma LiteralLeaf(t: string, n: nat, text: string)
    ensures LeafOf(t) == Some(Literal(n, text)) <==> text == t && LiteralOf(t) == Some(Literal(n, t))
  {
    if LiteralOf(t).Some? {
      LiteralIs(t);
    } else if SelectOf(t).Some? {
      SelectIs(t);
    }
  }

  lemma SelectLeaf(t: string, leaf: Leaf)
    requires leaf.Bit? || leaf.Slice?
    ensures LeafOf(t) == Some(leaf) <==> SelectOf(t) == Some(leaf)
  {
    if SelectOf(t).Some? {
      SelectIsNoLiteral(t);
    } else if LiteralOf(t).Some? {
      LiteralIs(t);
    }
  }

  lemma NameIsNoOther(t: string)
    requires IsName(t)
    ensures LiteralOf(t).None? && SelectOf(t).None? && Skip(t, 0, IsWord) == |t|
  {
    assert forall i :: 0 <= i < |t| ==> t[i] in t;
    SkipsTo(t, 0, |t|, IsWord);
    if LiteralOf(t).Some? {
      LiteralIs(t);
    }
  }

  lemma WholeLeaf(t: string, name: string)
    ensures LeafOf(t) == Some(Whole(name)) <==> t == name && IsName(name)
  {
    if IsName(t) {
      NameIsNoOther(t);
    }
    if LiteralOf(t).Some? {
      LiteralIs(t);
    } else if SelectOf(t).Some? {
      SelectIs(t);
    } else if t != "" && Skip(t, 0, IsWord) == |t| {
      SliceIs(t, 0, |t|, IsWord);
      assert t[0..|t|] == t;
    }
  }

  /** A text is read as a leaf exactly if it is written as that leaf. */
  lemma LeafMeaning(t: string, leaf: Leaf)
    ensures LeafOf(t) == Some(leaf) <==> Shaped(t, leaf)
  {
    match leaf
    case Literal(n, text) =>
      LiteralLeaf(t, n, text);
      LiteralMeaning(t, n);
    case Whole(name) =>
      WholeLeaf(t, name);
    case _ =>
      SelectLeaf(t, leaf);
      SelectMeaning(t, leaf);
  }

  // ---- Replications ----

  /** Between the outer braces: a count with white space around it, the body in braces, and white space. */
  predicate CopiesParts(u: string, a: string, d: string, b: string, body: string, e: string) {
    && u == a + d + b + ("{" + body + "}" + e)
    && AllSpace(a) && d != "" && AllDigits(d) && AllSpace(b) && AllSpace(e)
  }

  /** A replication of the body. */
  ghost predicate IsCopies(t: string, n: nat, body: string) {
    Braced(t) && exists a, d, b, e :: CopiesParts(Inside(t), a, d, b, body, e) && n == IntOf(d)
  }

  lemma {:induction false} SpacesBackTo(t: string, i: nat, j: nat)
    requires j <= i <= |t| && (forall k :: j <= k < i ==> IsSpace(t[k])) && (j > 0 ==> !IsSpace(t[j - 1]))
    ensures SpacesBack(t, i) == j
  {
    if j < i {
      SpacesBackTo(t, i - 1, j);
    }
  }

  lemma CopiesEnd(u: string, head: string, body: string, e: string)
    requires u == head + ("{" + body + "}" + e) && AllSpace(e)
    ensures SpacesBack(u, |u|) == |head| + |body| + 2 <= |u|
  {
    var front := head + "{" + body + "}";
    assert u == front + e;
    SpacesAtEnd(front, e);
  }

  lemma SpacesAtEnd(front: string, e: string)
    requires AllSpace(e) && front != "" && !IsSpace(front[|front| - 1])
    ensures SpacesBack(front + e, |front + e|) == |front|
  {
    var u := front + e;
    forall i | |front| <= i < |u|
      ensures IsSpace(u[i])
    {
      assert u[i] == e[i - |front|] && e[i - |front|] in e;
    }
    SpacesBackTo(u, |u|, |front|);
  }

  lemma Between(head: string, body: string, e: string)
    ensures var u := head + ("{" + body + "}" + e);
      u[|head|] == '{' && u[|head| + 1..|head| + 1 + |body|] == body && u[|head| + 1 + |body|] == '}'
  {
  }

  lemma RepeatOfIs(t: string, u: string, i: nat, j: nat, c: nat, k: nat)
    requires Braced(t) && u == Inside(t) && i == Spaces(u, 0) < j == Digits(u, i) && c == Spaces(u, j)
    requires k == SpacesBack(u, |u|) && Is(u, c, '{') && c + 1 < k && u[k - 1] == '}'
    ensures RepeatOf(t) == Some(Repetition(Number(u, i, j), u[c + 1..k - 1], c, k - 1))
  {
  }

  lemma CopiesFromParts(t: string, a: string, d: string, b: string, body: string, e: string)
    requires Braced(t) && CopiesParts(Inside(t), a, d, b, body, e)
    ensures RepeatOf(t).Some? && RepeatOf(t).value.count == IntOf(d) && RepeatOf(t).value.body == body
  {
    var u, head := Inside(t), a + d + b;
    CopiesEnd(u, head, body, e);
    Between(head, body, e);
    NumberEnds(a, d, b, "{" + body + "}" + e);
    RepeatOfIs(t, u, |a|, |a + d|, |head|, |head| + |body| + 2);
  }

  lemma CopiesCut(u: string, i: nat, j: nat, c: nat, k: nat)
    requires i < j <= c && c + 1 < k <= |u| && u[c] == '{' && u[k - 1] == '}'
    requires (forall x :: 0 <= x < i ==> IsSpace(u[x])) && (forall x :: i <= x < j ==> IsDigit(u[x]))
    requires (forall x :: j <= x < c ==> IsSpace(u[x])) && (forall x :: k <= x < |u| ==> IsSpace(u[x]))
    ensures CopiesParts(u, u[0..i], u[i..j], u[j..c], u[c + 1..k - 1], u[k..|u|])
  {
    SliceIs(u, 0, i, IsSpace);
    SliceIs(u, i, j, IsDigit);
    SliceIs(u, j, c, IsSpace);
    SliceIs(u, k, |u|, IsSpace);
    assert u[..c] == u[0..i] + u[i..j] + u[j..c];
    assert u[c..] == "{" + u[c + 1..k - 1] + "}" + u[k..|u|];
    assert u == u[..c] + u[c..];
  }

  lemma RepeatIs(t: string, u: string, i: nat, j: nat, c: nat, k: nat)
    requires RepeatOf(t).Some? && u == Inside(t) && i == Spaces(u, 0) && j == Digits(u, i) && c == Spaces(u, j)
    requires k == SpacesBack(u, |u|)
    ensures i < j && Is(u, c, '{') && c + 1 < k && u[k - 1] == '}'
    ensures RepeatOf(t).value.count == IntOf(u[i..j]) && RepeatOf(t).value.body == u[c + 1..k - 1]
  {
  }

  lemma CopiesWritten(t: string, a: string, d: string, b: string, body: string, e: string)
    requires Braced(t) && CopiesParts(Inside(t), a, d, b, body, e)
    ensures IsCopies(t, IntOf(d), body)
  {
  }

  lemma RepeatIsWritten(t: string)
    requires RepeatOf(t).Some?
    ensures IsCopies(t, RepeatOf(t).value.count, RepeatOf(t).value.body)
  {
    var u := Inside(t);
    var i := Spaces(u, 0);
    var j := Digits(u, i);
    var c, k := Spaces(u, j), SpacesBack(u, |u|);
    RepeatIs(t, u, i, j, c, k);
    CopiesCut(u, i, j, c, k);
    CopiesWritten(t, u[0..i], u[i..j], u[j..c], u[c + 1..k - 1], u[k..|u|]);
  }

  /** A text is read as a replication exactly if it is written as one. */
  lemma RepeatMeaning(t: string, n: nat, body: string)
    ensures IsCopies(t, n, body) <==>
      RepeatOf(t).Some? && RepeatOf(t).value.count == n && RepeatOf(t).value.body == body
  {
    if RepeatOf(t).Some? {
      RepeatIsWritten(t);
    }
    if IsCopies(t, n, body) {
      var a, d, b, e :| CopiesParts(Inside(t), a, d, b, body, e) && n == IntOf(d);
      CopiesFromParts(t, a, d, b, body, e);
    }
  }
}
