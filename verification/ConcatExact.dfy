/** When the constant flags of a concatenation find every constant bit. */
module ConcatExact {
  import opened ConcatGrammar
  import opened ConcatFlags

  /** The bit has one value in all designs with the same parameters. */
  ghost predicate SteadyAt(src: Source, lit: Values, e: Expr, i: nat)
    requires i < Width(src, e)
  {
    forall u, v :: SameParams(src, u, v) ==> Eval(src, lit, u, e)[i] == Eval(src, lit, v, e)[i]
  }

  /** `s` tells which bits of the expression are constant. */
  ghost predicate Steadies(src: Source, lit: Values, e: Expr, s: seq<bool>) {
    |s| == Width(src, e) && forall i :: 0 <= i < |s| ==> (s[i] <==> SteadyAt(src, lit, e, i))
  }

  lemma HasSteadies(src: Source, lit: Values, e: Expr) returns (s: seq<bool>)
    ensures Steadies(src, lit, e, s)
  {
    s := seq(Width(src, e), i requires 0 <= i < Width(src, e) => SteadyAt(src, lit, e, i));
  }

  lemma OneSteadies(src: Source, lit: Values, e: Expr, s: seq<bool>, t: seq<bool>)
    requires Steadies(src, lit, e, s) && Steadies(src, lit, e, t)
    ensures s == t
  {
    assert |s| == |t| && forall i :: 0 <= i < |s| ==> s[i] == t[i];
  }

  predicate NoneSet(flags: seq<bool>) {
    forall i :: 0 <= i < |flags| ==> !flags[i]
  }

  /** No replication inside a concatenation repeats both constant and other bits. */
  predicate Sharp(src: Source, e: Expr)
    decreases e
  {
    match e
    case Leaf(_) => true
    case Repeat(count, inner) => count == 0 || Sharp(src, inner)
    case Concat(items) => forall i :: 0 <= i < |items| ==> SharpPart(src, items[i])
  }

  predicate SharpPart(src: Source, e: Expr)
    decreases e
  {
    match e
    case Leaf(_) => true
    case Repeat(count, inner) =>
      count == 0 || TopFlags(src, inner).None? || All(TopFlags(src, inner).value)
      || (NoneSet(TopFlags(src, inner).value) && Sharp(src, inner))
    case Concat(items) => forall i :: 0 <= i < |items| ==> SharpPart(src, items[i])
  }

  // ---- Constant bits of the parts ----

  /** Everything at 0, and everything but the parameters at 1. */
  const LOW: Values := (name: string, index: int) => false

  function High(src: Source): Values {
    (name: string, index: int) => name !in src.params
  }

  lemma LowIsHigh(src: Source)
    ensures SameParams(src, LOW, High(src))
  {
  }

  lemma LeafExact(src: Source, lit: Values, e: Expr)
    requires e.Leaf? && Descending(src, e) && LeafFlags(src, e.leaf).Some?
    ensures Steadies(src, lit, e, LeafFlags(src, e.leaf).value)
  {
    PartWidth(src, e);
    forall i | 0 <= i < Width(src, e) {
      LeafBit(src, lit, e, i);
    }
  }

  lemma LeafBit(src: Source, lit: Values, e: Expr, i: nat)
    requires e.Leaf? && Descending(src, e) && LeafFlags(src, e.leaf).Some?
    requires i < |LeafFlags(src, e.leaf).value| == Width(src, e)
    ensures LeafFlags(src, e.leaf).value[i] <==> SteadyAt(src, lit, e, i)
  {
    if LeafFlags(src, e.leaf).value[i] {
      forall u, v | SameParams(src, u, v)
        ensures Eval(src, lit, u, e)[i] == Eval(src, lit, v, e)[i]
      {
        LeafSteady(src, lit, e, u, v);
      }
    } else {
      LowIsHigh(src);
      assert Eval(src, lit, LOW, e)[i] != Eval(src, lit, High(src), e)[i];
    }
  }

  /** The bits of `e` are those of `a` followed by those of `b`. */
  ghost predicate Joins(src: Source, lit: Values, e: Expr, a: Expr, b: Expr) {
    forall u :: Eval(src, lit, u, e) == Eval(src, lit, u, a) + Eval(src, lit, u, b)
  }

  lemma JoinedWidth(src: Source, lit: Values, e: Expr, a: Expr, b: Expr)
    requires Joins(src, lit, e, a, b)
    ensures Width(src, e) == Width(src, a) + Width(src, b)
  {
    assert |Eval(src, lit, LOW, e)| == |Eval(src, lit, LOW, a)| + |Eval(src, lit, LOW, b)|;
  }

  lemma BitOfFirst(src: Source, lit: Values, e: Expr, a: Expr, b: Expr, i: nat, u: Values)
    requires Joins(src, lit, e, a, b) && i < Width(src, a) <= Width(src, e)
    ensures Eval(src, lit, u, e)[i] == Eval(src, lit, u, a)[i]
  {
  }

  lemma BitOfSecond(src: Source, lit: Values, e: Expr, a: Expr, b: Expr, i: nat, u: Values)
    requires Joins(src, lit, e, a, b) && i < Width(src, b) && Width(src, a) + i < Width(src, e)
    ensures Eval(src, lit, u, e)[Width(src, a) + i] == Eval(src, lit, u, b)[i]
  {
  }

  lemma SteadyInFirst(src: Source, lit: Values, e: Expr, a: Expr, b: Expr, i: nat)
    requires Joins(src, lit, e, a, b) && i < Width(src, a) <= Width(src, e)
    ensures SteadyAt(src, lit, e, i) <==> SteadyAt(src, lit, a, i)
  {
    forall u: Values {
      BitOfFirst(src, lit, e, a, b, i, u);
    }
  }

  lemma SteadyInSecond(src: Source, lit: Values, e: Expr, a: Expr, b: Expr, i: nat)
    requires Joins(src, lit, e, a, b) && i < Width(src, b) && Width(src, a) + i < Width(src, e)
    ensures SteadyAt(src, lit, e, Width(src, a) + i) <==> SteadyAt(src, lit, b, i)
  {
    forall u: Values {
      BitOfSecond(src, lit, e, a, b, i, u);
    }
  }

  lemma JoinedSteadies(src: Source, lit: Values, e: Expr, a: Expr, b: Expr, s: seq<bool>, t: seq<bool>)
    requires Joins(src, lit, e, a, b) && Steadies(src, lit, a, s) && Steadies(src, lit, b, t)
    ensures Steadies(src, lit, e, s + t)
  {
    JoinedWidth(src, lit, e, a, b);
    forall i | 0 <= i < |s + t|
      ensures (s + t)[i] <==> SteadyAt(src, lit, e, i)
    {
      if i < |s| {
        SteadyInFirst(src, lit, e, a, b, i);
      } else {
        SteadyInSecond(src, lit, e, a, b, i - |s|);
      }
    }
  }

  lemma CopyJoins(src: Source, lit: Values, n: nat, inner: Expr)
    requires n > 0
    ensures Joins(src, lit, Repeat(n, inner), inner, Repeat(n - 1, inner))
  {
  }

  lemma CopySteadies(src: Source, lit: Values, n: nat, inner: Expr, s: seq<bool>, t: seq<bool>)
    requires n > 0 && Steadies(src, lit, inner, s) && Steadies(src, lit, Repeat(n - 1, inner), t)
    ensures Steadies(src, lit, Repeat(n, inner), s + t)
  {
    CopyJoins(src, lit, n, inner);
    JoinedSteadies(src, lit, Repeat(n, inner), inner, Repeat(n - 1, inner), s, t);
  }

  lemma NoCopies(src: Source, lit: Values, inner: Expr, s: seq<bool>)
    ensures Steadies(src, lit, Repeat(0, inner), Times(0, s))
  {
  }

  lemma SameSteadies(src: Source, lit: Values, n: nat, inner: Expr, s: seq<bool>, t: seq<bool>)
    requires n > 0 && t == Times(n - 1, s) && Steadies(src, lit, Repeat(n, inner), s + t)
    ensures Steadies(src, lit, Repeat(n, inner), Times(n, s))
  {
    assert Times(n, s) == s + t;
  }

  lemma {:induction false} RepeatSteadies(src: Source, lit: Values, n: nat, inner: Expr, s: seq<bool>)
    requires Steadies(src, lit, inner, s)
    ensures Steadies(src, lit, Repeat(n, inner), Times(n, s))
    decreases n
  {
    if n == 0 {
      NoCopies(src, lit, inner, s);
    } else {
      RepeatSteadies(src, lit, n - 1, inner, s);
      CopySteadies(src, lit, n, inner, s, Times(n - 1, s));
      SameSteadies(src, lit, n, inner, s, Times(n - 1, s));
    }
  }

  lemma ItemsJoin(src: Source, lit: Values, items: seq<Expr>)
    requires items != []
    ensures Joins(src, lit, Concat(items), items[0], Concat(items[1..]))
  {
  }

  // ---- Flags and constant bits put together ----

  lemma JoinedEqual(a: seq<bool>, b: seq<bool>, c: seq<bool>, d: seq<bool>)
    requires |a| == |c|
    ensures a + b == c + d <==> a == c && b == d
  {
    if a + b == c + d {
      assert a == (a + b)[..|a|] == (c + d)[..|c|] == c;
      assert b == (a + b)[|a|..] == (c + d)[|c|..] == d;
    }
  }

  lemma TimesEqual(n: nat, a: seq<bool>, b: seq<bool>)
    requires |a| == |b|
    ensures Times(n, a) == Times(n, b) <==> n == 0 || a == b
  {
    if n > 0 {
      JoinedEqual(a, Times(n - 1, a), b, Times(n - 1, b));
    }
  }

  predicate AllAre(flags: seq<bool>, value: bool) {
    forall i :: 0 <= i < |flags| ==> flags[i] == value
  }

  lemma JoinedAre(a: seq<bool>, b: seq<bool>, value: bool)
    ensures AllAre(a + b, value) <==> AllAre(a, value) && AllAre(b, value)
  {
    assert forall i :: 0 <= i < |a| ==> (a + b)[i] == a[i];
    assert forall i :: 0 <= i < |b| ==> (a + b)[|a| + i] == b[i];
  }

  lemma {:induction false} AllTimes(n: nat, flags: seq<bool>, value: bool)
    requires n > 0
    ensures AllAre(Times(n, flags), value) <==> AllAre(flags, value)
  {
    JoinedAre(flags, Times(n - 1, flags), value);
    if n > 1 {
      AllTimes(n - 1, flags, value);
    }
  }

  /** Flags that are at most the constant bits: filling in finds all of them if the flags were all alike. */
  lemma FillEqual(n: nat, flags: seq<bool>, steadies: seq<bool>)
    requires |flags| == |steadies| && forall i :: 0 <= i < |flags| && flags[i] ==> steadies[i]
    ensures Fill(n * |flags|, All(flags)) == Times(n, steadies) <==>
      n == 0 || All(flags) || (NoneSet(flags) && flags == steadies)
  {
    if n > 0 {
      AllTimes(n, steadies, All(flags));
      FillTimes(n, |flags|, All(flags), Times(n, steadies));
    }
  }

  lemma FillTimes(n: nat, w: nat, value: bool, other: seq<bool>)
    requires |other| == n * w
    ensures Fill(n * w, value) == other <==> AllAre(other, value)
  {
  }

  // ---- When the flags find every constant bit ----

  /** Flags are given to constant bits only. */
  lemma FlaggedIsSteady(src: Source, lit: Values, e: Expr, s: seq<bool>)
    requires Descending(src, e) && TopFlags(src, e).Some? && Steadies(src, lit, e, s)
    ensures var f := TopFlags(src, e).value; |f| == |s| && forall i :: 0 <= i < |f| && f[i] ==> s[i]
  {
    TopWidth(src, e);
    var f := TopFlags(src, e).value;
    forall i | 0 <= i < |f| && f[i]
      ensures SteadyAt(src, lit, e, i)
    {
      forall u, v | SameParams(src, u, v)
        ensures Eval(src, lit, u, e)[i] == Eval(src, lit, v, e)[i]
      {
        TopSteady(src, lit, e, u, v);
      }
    }
  }

  /** The flags of a whole expression are exactly its constant bits if and only if it is sharp. */
  lemma {:induction false} TopExact(src: Source, lit: Values, e: Expr, s: seq<bool>)
    requires Descending(src, e) && TopFlags(src, e).Some? && Steadies(src, lit, e, s)
    ensures TopFlags(src, e).value == s <==> Sharp(src, e)
    decreases e
  {
    match e
    case Leaf(_) =>
      LeafExact(src, lit, e);
      OneSteadies(src, lit, e, s, LeafFlags(src, e.leaf).value);
    case Repeat(count, inner) =>
      var t := HasSteadies(src, lit, inner);
      RepeatSteadies(src, lit, count, inner, t);
      OneSteadies(src, lit, e, s, Times(count, t));
      if count > 0 {
        TopExact(src, lit, inner, t);
        FlaggedIsSteady(src, lit, inner, t);
        TimesEqual(count, TopFlags(src, inner).value, t);
      }
    case Concat(items) =>
      AllExact(src, lit, items, s);
  }

  lemma {:induction false} PartExact(src: Source, lit: Values, e: Expr, s: seq<bool>)
    requires Descending(src, e) && PartFlags(src, e).Some? && Steadies(src, lit, e, s)
    ensures PartFlags(src, e).value == s <==> SharpPart(src, e)
    decreases e
  {
    match e
    case Leaf(_) =>
      LeafExact(src, lit, e);
      OneSteadies(src, lit, e, s, LeafFlags(src, e.leaf).value);
    case Repeat(count, inner) =>
      var t := HasSteadies(src, lit, inner);
      RepeatSteadies(src, lit, count, inner, t);
      OneSteadies(src, lit, e, s, Times(count, t));
      if count > 0 {
        TopExact(src, lit, inner, t);
        FlaggedIsSteady(src, lit, inner, t);
        FillEqual(count, TopFlags(src, inner).value, t);
      }
    case Concat(items) =>
      AllExact(src, lit, items, s);
  }

  lemma {:induction false} AllExact(src: Source, lit: Values, items: seq<Expr>, s: seq<bool>)
    requires AllFlags(src, items).Some? && forall i :: 0 <= i < |items| ==> Descending(src, items[i])
    requires Steadies(src, lit, Concat(items), s)
    ensures AllFlags(src, items).value == s <==> forall i :: 0 <= i < |items| ==> SharpPart(src, items[i])
    decreases items
  {
    if items != [] {
      var rest := items[1..];
      assert forall i :: 0 <= i < |rest| ==> rest[i] == items[i + 1];
      var t := HasSteadies(src, lit, items[0]);
      var r := HasSteadies(src, lit, Concat(rest));
      ItemsJoin(src, lit, items);
      JoinedSteadies(src, lit, Concat(items), items[0], Concat(rest), t, r);
      OneSteadies(src, lit, Concat(items), s, t + r);
      PartExact(src, lit, items[0], t);
      AllExact(src, lit, rest, r);
      PartWidth(src, items[0]);
      JoinedEqual(PartFlags(src, items[0]).value, AllFlags(src, rest).value, t, r);
      AllOfRest(src, items);
    }
  }

  lemma AllOfRest(src: Source, items: seq<Expr>)
    requires items != []
    ensures (forall i :: 0 <= i < |items| ==> SharpPart(src, items[i])) <==>
      SharpPart(src, items[0]) && forall i :: 0 <= i < |items[1..]| ==> SharpPart(src, items[1..][i])
  {
    var rest := items[1..];
    assert forall i :: 0 <= i < |rest| ==> rest[i] == items[i + 1];
    assert forall i :: 1 <= i < |items| ==> items[i] == rest[i - 1];
  }
}
