/** Constant flags of concatenation trees, and what they say about the bits of the expression. */
module ConcatFlags {
  import opened Options
  import opened VerilogText
  import opened ConcatGrammar

  /** What a file declares: the bounds of its signals, and its parameters. */
  datatype Source = Source(widths: map<string, (nat, nat)>, params: set<string>)

  // ---- The flags, as a function of the tree ----

  function Fill(n: int, flag: bool): seq<bool> {
    if n <= 0 then [] else seq(n, _ => flag)
  }

  function Times(n: nat, flags: seq<bool>): (r: seq<bool>)
    ensures |r| == n * |flags|
  {
    if n == 0 then [] else flags + Times(n - 1, flags)
  }

  predicate All(flags: seq<bool>) {
    forall i :: 0 <= i < |flags| ==> flags[i]
  }

  function Span(msb: nat, lsb: nat): nat {
    (if msb >= lsb then msb - lsb else lsb - msb) + 1
  }

  /** How the parser measures a declared signal; negative when it is declared from its low index up. */
  function Measured(msb: int, lsb: int): int {
    msb - lsb + 1
  }

  /** The flags of a whole expression: a sized literal, a replication or a concatenation. */
  function TopFlags(src: Source, e: Expr): Option<seq<bool>>
    decreases e
  {
    match e
    case Leaf(Literal(width, _)) => Some(Fill(width, true))
    case Leaf(_) => None
    case Repeat(count, inner) =>
      (match TopFlags(src, inner) case Some(flags) => Some(Times(count, flags)) case None => None)
    case Concat(items) => AllFlags(src, items)
  }

  /** The flags of one item: those of a replication are all constant or all not. */
  function PartFlags(src: Source, e: Expr): Option<seq<bool>>
    decreases e
  {
    match e
    case Leaf(leaf) => LeafFlags(src, leaf)
    case Repeat(count, inner) =>
      (match TopFlags(src, inner) case Some(flags) => Some(Fill(count * |flags|, All(flags))) case None => None)
    case Concat(items) => AllFlags(src, items)
  }

  function LeafFlags(src: Source, leaf: VerilogText.Leaf): Option<seq<bool>> {
    match leaf
    case Literal(width, _) => Some(Fill(width, true))
    case Slice(name, msb, lsb) => Some(Fill(Span(msb, lsb), name in src.params))
    case Bit(name, _) => Some([name in src.params])
    case Whole(name) =>
      if name in src.widths && name !in src.params then
        Some(Fill(Measured(src.widths[name].0, src.widths[name].1), false))
      else None
  }

  function AllFlags(src: Source, items: seq<Expr>): Option<seq<bool>>
    decreases items
  {
    if items == [] then Some([])
    else
      match (PartFlags(src, items[0]), AllFlags(src, items[1..]))
      case (Some(a), Some(b)) => Some(a + b)
      case _ => None
  }

  // ---- Widths ----

  /** The width of a signal: what it is declared as, in either direction. */
  function SignalWidth(src: Source, name: string): nat {
    if name in src.widths then Span(src.widths[name].0, src.widths[name].1) else 1
  }

  function Width(src: Source, e: Expr): nat
    decreases e
  {
    match e
    case Leaf(Literal(width, _)) => width
    case Leaf(Slice(_, msb, lsb)) => Span(msb, lsb)
    case Leaf(Bit(_, _)) => 1
    case Leaf(Whole(name)) => SignalWidth(src, name)
    case Repeat(count, inner) => count * Width(src, inner)
    case Concat(items) => Widths(src, items)
  }

  function Widths(src: Source, items: seq<Expr>): nat
    decreases items
  {
    if items == [] then 0 else Width(src, items[0]) + Widths(src, items[1..])
  }

  /** Every whole signal that contributes bits is declared from its high index down. */
  predicate Descending(src: Source, e: Expr)
    decreases e
  {
    match e
    case Leaf(Whole(name)) => name in src.widths ==> src.widths[name].0 >= src.widths[name].1
    case Leaf(_) => true
    case Repeat(count, inner) => count == 0 || Descending(src, inner)
    case Concat(items) => forall i :: 0 <= i < |items| ==> Descending(src, items[i])
  }

  lemma ProductZero(n: nat, d: nat)
    ensures n * d == 0 <==> n == 0 || d == 0
  {
  }

  lemma TimesMonotone(n: nat, a: nat, b: nat)
    requires a <= b
    ensures n * a <= n * b && (n * a == n * b <==> n == 0 || a == b)
  {
    var d := b - a;
    calc { n * b; n * (a + d); n * a + n * d; }
    ProductZero(n, d);
  }

  /** No expression gets more flags than it has bits, and it gets as many exactly if its signals descend. */
  ghost predicate Measures(src: Source, flags: Option<seq<bool>>, width: nat, descending: bool) {
    flags.Some? ==> |flags.value| <= width && (|flags.value| == width <==> descending)
  }

  lemma {:induction false} TopWidth(src: Source, e: Expr)
    ensures Measures(src, TopFlags(src, e), Width(src, e), Descending(src, e))
    decreases e
  {
    match e
    case Leaf(_) =>
    case Repeat(count, inner) =>
      TopWidth(src, inner);
      if TopFlags(src, inner).Some? {
        TimesMonotone(count, |TopFlags(src, inner).value|, Width(src, inner));
      }
    case Concat(items) =>
      AllWidth(src, items);
  }

  lemma {:induction false} PartWidth(src: Source, e: Expr)
    ensures Measures(src, PartFlags(src, e), Width(src, e), Descending(src, e))
    decreases e
  {
    match e
    case Leaf(_) =>
    case Repeat(count, inner) =>
      TopWidth(src, inner);
      if TopFlags(src, inner).Some? {
        TimesMonotone(count, |TopFlags(src, inner).value|, Width(src, inner));
      }
    case Concat(items) =>
      AllWidth(src, items);
  }

  lemma {:induction false} AllWidth(src: Source, items: seq<Expr>)
    ensures Measures(src, AllFlags(src, items), Widths(src, items),
                     forall i :: 0 <= i < |items| ==> Descending(src, items[i]))
    decreases items
  {
    if items != [] {
      PartWidth(src, items[0]);
      AllWidth(src, items[1..]);
      assert forall i :: 0 <= i < |items[1..]| ==> items[1..][i] == items[i + 1];
      assert forall i :: 1 <= i < |items| ==> items[i] == items[1..][i - 1];
    }
  }

  // ---- Values ----

  /** What a design gives every index of every signal and parameter. */
  type Values = (string, int) -> bool

  /** The bits of an expression, most significant first; the bits of literals are given by `lit`. */
  function Eval(src: Source, lit: Values, v: Values, e: Expr): (bits: seq<bool>)
    ensures |bits| == Width(src, e)
    decreases e
  {
    match e
    case Leaf(Literal(width, text)) => seq(width, i => lit(text, i))
    case Leaf(Slice(name, msb, lsb)) => Select(v, name, msb, lsb)
    case Leaf(Bit(name, index)) => [v(name, index)]
    case Leaf(Whole(name)) =>
      if name in src.widths then Select(v, name, src.widths[name].0, src.widths[name].1) else [v(name, 0)]
    case Repeat(count, inner) => Times(count, Eval(src, lit, v, inner))
    case Concat(items) => EvalAll(src, lit, v, items)
  }

  function Select(v: Values, name: string, msb: nat, lsb: nat): (bits: seq<bool>)
    ensures |bits| == Span(msb, lsb)
  {
    seq(Span(msb, lsb), i => v(name, if msb >= lsb then msb - i else msb + i))
  }

  /** A part select runs from its first index to its last one. */
  lemma SelectRuns(v: Values, name: string, msb: nat, lsb: nat)
    ensures Select(v, name, msb, lsb)[0] == v(name, msb)
    ensures Select(v, name, msb, lsb)[Span(msb, lsb) - 1] == v(name, lsb)
    ensures |Select(v, name, msb, lsb)| == if msb >= lsb then msb - lsb + 1 else lsb - msb + 1
  {
  }

  function EvalAll(src: Source, lit: Values, v: Values, items: seq<Expr>): (bits: seq<bool>)
    ensures |bits| == Widths(src, items)
    decreases items
  {
    if items == [] then [] else Eval(src, lit, v, items[0]) + EvalAll(src, lit, v, items[1..])
  }

  /** The flagged bits are the same. */
  ghost predicate Agree(flags: seq<bool>, a: seq<bool>, b: seq<bool>) {
    |a| == |b| == |flags| && forall i :: 0 <= i < |flags| && flags[i] ==> a[i] == b[i]
  }

  /** Two designs with the same parameters. */
  ghost predicate SameParams(src: Source, u: Values, v: Values) {
    forall name, i :: name in src.params ==> u(name, i) == v(name, i)
  }

  lemma AgreeBoth(f: seq<bool>, a: seq<bool>, b: seq<bool>, g: seq<bool>, c: seq<bool>, d: seq<bool>)
    requires Agree(f, a, b) && Agree(g, c, d)
    ensures Agree(f + g, a + c, b + d)
  {
  }

  lemma {:induction false} AgreeTimes(n: nat, f: seq<bool>, a: seq<bool>, b: seq<bool>)
    requires Agree(f, a, b)
    ensures Agree(Times(n, f), Times(n, a), Times(n, b))
  {
    if n > 0 {
      AgreeTimes(n - 1, f, a, b);
      AgreeBoth(f, a, b, Times(n - 1, f), Times(n - 1, a), Times(n - 1, b));
    }
  }

  /** If everything that is repeated agrees, so does the repetition; otherwise nothing is claimed. */
  lemma AgreeFill(n: nat, f: seq<bool>, a: seq<bool>, b: seq<bool>)
    requires Agree(f, a, b)
    ensures Agree(Fill(n * |f|, All(f)), Times(n, a), Times(n, b))
  {
    if All(f) {
      assert a == b;
    }
  }

  ghost predicate Steady(src: Source, lit: Values, flags: Option<seq<bool>>, e: Expr, u: Values, v: Values) {
    flags.Some? ==> Agree(flags.value, Eval(src, lit, u, e), Eval(src, lit, v, e))
  }

  lemma LeafSteady(src: Source, lit: Values, e: Expr, u: Values, v: Values)
    requires e.Leaf? && Descending(src, e) && SameParams(src, u, v)
    ensures Steady(src, lit, PartFlags(src, e), e, u, v)
  {
    PartWidth(src, e);
  }

  /** A bit that is flagged has the same value in every design with the same parameters. */
  lemma {:induction false} TopSteady(src: Source, lit: Values, e: Expr, u: Values, v: Values)
    requires Descending(src, e) && SameParams(src, u, v)
    ensures Steady(src, lit, TopFlags(src, e), e, u, v)
    decreases e
  {
    match e
    case Leaf(_) =>
      LeafSteady(src, lit, e, u, v);
    case Repeat(count, inner) =>
      if count > 0 && TopFlags(src, inner).Some? {
        TopSteady(src, lit, inner, u, v);
        AgreeTimes(count, TopFlags(src, inner).value, Eval(src, lit, u, inner), Eval(src, lit, v, inner));
      }
    case Concat(items) =>
      AllSteady(src, lit, items, u, v);
  }

  lemma {:induction false} PartSteady(src: Source, lit: Values, e: Expr, u: Values, v: Values)
    requires Descending(src, e) && SameParams(src, u, v)
    ensures Steady(src, lit, PartFlags(src, e), e, u, v)
    decreases e
  {
    match e
    case Leaf(_) =>
      LeafSteady(src, lit, e, u, v);
    case Repeat(count, inner) =>
      if count > 0 && TopFlags(src, inner).Some? {
        TopSteady(src, lit, inner, u, v);
        AgreeFill(count, TopFlags(src, inner).value, Eval(src, lit, u, inner), Eval(src, lit, v, inner));
      }
    case Concat(items) =>
      AllSteady(src, lit, items, u, v);
  }

  lemma {:induction false} AllSteady(src: Source, lit: Values, items: seq<Expr>, u: Values, v: Values)
    requires SameParams(src, u, v) && forall i :: 0 <= i < |items| ==> Descending(src, items[i])
    ensures AllFlags(src, items).Some? ==>
      Agree(AllFlags(src, items).value, EvalAll(src, lit, u, items), EvalAll(src, lit, v, items))
    decreases items
  {
    if items != [] && AllFlags(src, items).Some? {
      var rest := items[1..];
      PartSteady(src, lit, items[0], u, v);
      assert forall i :: 0 <= i < |rest| ==> rest[i] == items[i + 1];
      AllSteady(src, lit, rest, u, v);
      AgreeBoth(PartFlags(src, items[0]).value, Eval(src, lit, u, items[0]), Eval(src, lit, v, items[0]),
                AllFlags(src, rest).value, EvalAll(src, lit, u, rest), EvalAll(src, lit, v, rest));
    }
  }
}
