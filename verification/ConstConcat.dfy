/** The text parser: per-bit constant flags of a Verilog expression. */
module ConstConcat {
  import opened Text
  import opened Options
  import opened VerilogText
  import opened ConcatGrammar
  import opened ConcatFlags
  import opened ConcatExact
  import opened ConcatReading
  import opened ConcatDecide

  /** Width and constancy of an element; a nested concatenation has no single answer. */
  datatype Element = Unsure | Element(width: nat, constant: Option<bool>)

  function StripEach(pieces: seq<string>): seq<string> {
    seq(|pieces|, i requires 0 <= i < |pieces| => Strip(pieces[i]))
  }

  /** The pieces between top-level commas, without white space around them. */
  method SplitTop(s: string) returns (parts: seq<string>)
    ensures parts == StripEach(Cut(s, [], 0))
  {
    var out, depth, cur := [], 0, [];
    for i := 0 to |s|
      invariant out + Cut(s[i..], cur, depth) == Cut(s, [], 0)
    {
      var ch := s[i];
      assert s[i..][0] == ch && s[i..][1..] == s[i + 1..];
      if Opens(ch) {
        depth := depth + 1;
      } else if Closes(ch) {
        depth := depth - 1;
      }
      if ch == ',' && depth == 0 {
        assert out + ([cur] + Cut(s[i + 1..], [], depth)) == (out + [cur]) + Cut(s[i + 1..], [], depth);
        out, cur := out + [cur], [];
      } else {
        cur := cur + [ch];
      }
    }
    out := out + [cur];
    parts := StripEach(out);
  }

  lemma {:induction false} CutShort(s: string, cur: string, d: int)
    ensures forall p :: p in Cut(s, cur, d) ==> |p| <= |cur| + |s|
  {
    if s != [] {
      var after := Depth(d, s[0]);
      if s[0] == ',' && after == 0 {
        CutShort(s[1..], [], after);
      } else {
        CutShort(s[1..], cur + [s[0]], after);
      }
    }
  }

  /** Text in braces is no leaf, so its reading is not one. */
  lemma BracedIsNoLeaf(s: string)
    requires Braced(s)
    ensures LeafOf(s).None?
  {
  }

  /** What an element's answer says: flags for anything but a plain concatenation, or no flags. */
  ghost predicate Answers(src: Source, t: string, r: Element) {
    match r
    case Element(width, Some(constant)) => DecidesPart(src, t, Some(Fill(width, constant)))
    case Element(width, None) =>
      && Braced(Strip(t)) && RepeatOf(Strip(t)).None?
      && exists flags :: |flags| == width && DecidesPart(src, t, Some(flags))
    case Unsure => DecidesPart(src, t, None)
  }

  /** The flags an answer gives to a part that is not a plain concatenation. */
  function FlagsOf(x: Element): Option<seq<bool>> {
    match x
    case Element(width, Some(constant)) => Some(Fill(width, constant))
    case Element(_, None) => None
    case Unsure => None
  }

  lemma FlagsOfAnswer(src: Source, part: string, x: Element)
    requires Strip(part) == part && !PlainConcat(part) && Answers(src, part, x)
    ensures DecidesPart(src, part, FlagsOf(x))
  {
    if x.Element? && x.constant.None? {
      DecidesNoRepeat(src, part);
    }
  }

  predicate PlainConcat(s: string) {
    Braced(s) && !StartsRepeat(Inside(s))
  }

  /** One element of a concatenation. */
  method Elem(src: Source, e: string) returns (r: Element)
    ensures Answers(src, e, r)
    decreases |e|, 4
  {
    var s := Strip(e);
    StripTwice(e);
    var lit := LiteralOf(s);
    if lit.Some? {
      DecidesLeaf(src, e, lit.value);
      return Element(lit.value.width, Some(true));
    }
    if RepeatOf(s).Some? {
      r := ElemRepeat(src, s);
    } else if Braced(s) {
      var inner := ElemConcat(src, s);
      r := if inner.Some? then Element(|inner.value|, None) else Unsure;
    } else {
      r := ElemLeaf(src, s);
    }
    AnswersStripped(src, e, r);
  }

  lemma AnswersStripped(src: Source, t: string, r: Element)
    requires Answers(src, Strip(t), r)
    ensures Answers(src, t, r)
  {
    StripTwice(t);
    forall x: Option<seq<bool>>
      ensures DecidesPart(src, Strip(t), x) <==> DecidesPart(src, t, x)
    {
      DecidesStripped(src, t, x);
    }
  }

  /** A replication as an element. */
  method ElemRepeat(src: Source, s: string) returns (r: Element)
    requires Strip(s) == s && RepeatOf(s).Some?
    ensures Answers(src, s, r)
    decreases |s|, 3
  {
    var x := RepeatOf(s).value;
    var inner := Concat(src, "{" + x.body + "}");
    DecidesRepeat(src, s, inner);
    r := if inner.Some? then Element(x.count * |inner.value|, Some(All(inner.value))) else Unsure;
  }

  /** A concatenation as an element. */
  method ElemConcat(src: Source, s: string) returns (r: Option<seq<bool>>)
    requires Braced(s) && Strip(s) == s && RepeatOf(s).None?
    ensures DecidesPart(src, s, r)
    decreases |s|, 3
  {
    r := Concat(src, s);
    forall e | Reads(s, e)
      ensures PartFlags(src, e) == TopFlags(src, e)
    {
      SameKind(s, e);
      BracedIsNoLeaf(s);
    }
  }

  /** A select of a signal, or a whole signal. */
  method ElemLeaf(src: Source, e: string) returns (r: Element)
    requires LiteralOf(Strip(e)).None? && !Braced(Strip(e))
    ensures Answers(src, e, r)
  {
    var leaf := LeafOf(Strip(e));
    if leaf.None? {
      DecidesNothing(src, e);
      return Unsure;
    }
    DecidesLeaf(src, e, leaf.value);
    match leaf.value {
      case Slice(name, msb, lsb) =>
        r := Element(Span(msb, lsb), Some(name in src.params));
      case Bit(name, _) =>
        assert [name in src.params] == Fill(1, name in src.params);
        r := Element(1, Some(name in src.params));
      case Whole(name) =>
        if name in src.widths && name !in src.params {
          var width := Measured(src.widths[name].0, src.widths[name].1);
          r := Element(if width < 0 then 0 else width, Some(false));
        } else {
          r := Unsure;
        }
      case Literal(_, _) =>
        assert false;
    }
  }

  /** One part of a concatenation: a nested concatenation bit by bit, anything else as a whole. */
  method Part(src: Source, part: string) returns (r: Option<seq<bool>>)
    requires Strip(part) == part
    ensures DecidesPart(src, part, r)
    decreases |part|, 5
  {
    if PlainConcat(part) {
      r := ElemConcat(src, part);
    } else {
      var x := Elem(src, part);
      FlagsOfAnswer(src, part, x);
      r := FlagsOf(x);
    }
  }

  /** The flags of all parts in order, unless one has none. */
  method Parts(src: Source, s: string) returns (r: Option<seq<bool>>)
    requires Braced(s) && Strip(s) == s && RepeatOf(s).None?
    ensures DecidesTop(src, s, r)
    decreases |s|, 1
  {
    var pieces := Cut(Inside(s), [], 0);
    CutShort(Inside(s), [], 0);
    var parts := SplitTop(Inside(s));
    var flags: seq<bool> := [];
    ghost var rs: seq<seq<bool>> := [];
    for i := 0 to |parts|
      invariant |rs| == i && Decided(src, pieces, rs) && flags == Sum(rs)
    {
      StripTwice(pieces[i]);
      var sub := Part(src, parts[i]);
      DecidesStripped(src, pieces[i], sub);
      if sub.None? {
        DecidesUnsure(src, s, i);
        return None;
      }
      DecidedOneMore(src, pieces, rs, sub.value);
      SumOneMore(rs, sub.value);
      flags, rs := flags + sub.value, rs + [sub.value];
    }
    DecidesConcat(src, s, rs);
    return Some(flags);
  }

  /** The flags of a whole expression, most significant bit first, or none. */
  method Concat(src: Source, expr: string) returns (r: Option<seq<bool>>)
    ensures DecidesTop(src, expr, r)
    decreases |expr|, 2
  {
    var s := Strip(expr);
    StripTwice(expr);
    var lit := LiteralOf(s);
    if lit.Some? {
      DecidesLeaf(src, expr, lit.value);
      return Some(Fill(lit.value.width, true));
    }
    if !Braced(s) {
      NotInBraces(src, expr);
      return None;
    }
    var rep := RepeatOf(s);
    if rep.Some? {
      var inner := Concat(src, "{" + rep.value.body + "}");
      DecidesRepeat(src, expr, inner);
      return TimesOf(rep.value.count, inner);
    }
    if StartsRepeat(Inside(s)) {
      DecidesNoRepeat(src, expr);
      return None;
    }
    r := Parts(src, s);
    DecidesStripped(src, expr, r);
  }

  lemma NotInBraces(src: Source, t: string)
    requires LiteralOf(Strip(t)).None? && !Braced(Strip(t))
    ensures DecidesTop(src, t, None)
  {
    if LeafOf(Strip(t)).Some? {
      DecidesLeaf(src, t, LeafOf(Strip(t)).value);
    } else {
      DecidesNothing(src, t);
    }
  }

  /**
   * Whatever the parser answers with flags reads as exactly one expression; the flags are one for each of its
   * bits if and only if its whole signals descend, and then a flagged bit has the same value in all designs
   * with the same parameters, and the other bits have not if and only if no replication inside a concatenation
   * repeats both constant and other bits.
   */
  lemma FlagsAreConstant(src: Source, t: string, flags: seq<bool>, lit: Values, u: Values, v: Values)
    requires DecidesTop(src, t, Some(flags)) && SameParams(src, u, v)
    ensures exists e :: Reads(t, e)
    ensures forall e, f :: Reads(t, e) && Reads(t, f) ==> e == f
    ensures forall e :: Reads(t, e) ==> (|flags| == Width(src, e) <==> Descending(src, e))
    ensures forall e :: Reads(t, e) && Descending(src, e) ==> Agree(flags, Eval(src, lit, u, e), Eval(src, lit, v, e))
    ensures forall e, s :: Reads(t, e) && Descending(src, e) && Steadies(src, lit, e, s) ==>
      (flags == s <==> Sharp(src, e))
  {
    forall e, f | Reads(t, e) && Reads(t, f)
      ensures e == f
    {
      ReadsOnce(t, e, f);
    }
    forall e, s | Reads(t, e) && Descending(src, e) && Steadies(src, lit, e, s)
      ensures flags == s <==> Sharp(src, e)
    {
      TopExact(src, lit, e, s);
    }
    forall e | Reads(t, e)
      ensures |flags| == Width(src, e) <==> Descending(src, e)
      ensures Descending(src, e) ==> Agree(flags, Eval(src, lit, u, e), Eval(src, lit, v, e))
    {
      TopWidth(src, e);
      if Descending(src, e) {
        TopSteady(src, lit, e, u, v);
      }
    }
  }
}
