/** A concatenation whose flags are fewer than its bits, and one whose flags miss constant bits. */
module ConcatLimits {
  import opened Text
  import opened Options
  import opened BitGlobs
  import opened VerilogText
  import opened ConcatGrammar
  import opened ConcatFlags
  import opened ConcatExact
  import opened ConstConcat

  /** `wire [0:3] b`. */
  const ASCENDING := Source(map["b" := (0, 3)], {})
  const TREE := Concat([Leaf(Whole("b")), Leaf(Literal(1, "1'b0"))])

  lemma TreeIsShort()
    ensures TopFlags(ASCENDING, TREE) == Some([true]) && Width(ASCENDING, TREE) == 5
  {
    var src := ASCENDING;
    var a, b := Leaf(Whole("b")), Leaf(Literal(1, "1'b0"));
    assert [a, b][1..] == [b] && [b][1..] == [];
    assert Fill(1, true) == [true];
    assert PartFlags(src, a) == Some([]) && PartFlags(src, b) == Some([true]);
    assert AllFlags(src, []) == Some([]);
    calc {
      AllFlags(src, [b]);
      Some([true] + []);
      { assert [true] + [] == [true]; }
      Some([true]);
    }
    assert [] + [true] == [true];
    assert Widths(src, [b]) == 1;
  }

  /** A name of one letter reads as the whole signal. */
  lemma SignalReads(t: string)
    requires |t| == 1 && IsWord(t[0]) && !IsDigit(t[0]) && !IsSpace(t[0])
    ensures Reads(t, Leaf(Whole(t)))
  {
    NothingToStrip(t);
    assert Skip(t, 0, IsWord) == 1;
  }

  /** A digit, a tick, a binary base and value digits to the end. */
  predicate Binary(t: string) {
    && |t| > 3 && IsDigit(t[0]) && t[1] == '\'' && t[2] == 'b'
    && forall k :: 3 <= k < |t| ==> IsValueDigit(t[k])
  }

  lemma BinaryTail(t: string)
    requires Binary(t)
    ensures LiteralTail(t, 2)
  {
    assert Spaces(t, 2) == 2 && IsValueDigit(t[3]) && Spaces(t, 3) == 3;
  }

  lemma BinaryTick(t: string)
    requires Binary(t)
    ensures Digits(t, 0) == 1 == LiteralTick(t)
  {
    assert Digits(t, 1) == 1 && Spaces(t, 1) == 1;
  }

  lemma BinaryReads(t: string)
    requires Binary(t) && Strip(t) == t
    ensures Reads(t, Leaf(Literal(IntOf(t[0..1]), t)))
  {
    BinaryTail(t);
    BinaryTick(t);
  }

  lemma LiteralReads()
    ensures Reads("1'b0", Leaf(Literal(1, "1'b0")))
  {
    var t := "1'b0";
    assert t[0..1] == "1" && "1"[..0] == [];
    assert IntOf("1") == 1;
    BinaryReads(t);
  }

  lemma TwoItemsRead(t: string, k: nat, a: Expr, b: Expr)
    requires SplitsAt(t, k) && Reads(t[..k], a) && Reads(t[k + 1..], b)
    ensures ReadsAll(t, [a, b])
  {
    assert [a, b][1..] == [b];
    assert ReadsAll(t[k + 1..], [b]);
  }

  lemma BracesRead(t: string, items: seq<Expr>)
    requires Strip(t) == t && Braced(t) && ReadsAll(Inside(t), items)
    ensures Reads(t, Concat(items))
  {
  }

  lemma ItemsRead()
    ensures ReadsAll("b,1'b0", TREE.items)
  {
    var u := "b,1'b0";
    assert u[..1] == "b" && u[2..] == "1'b0";
    SignalReads("b");
    LiteralReads();
    TwoItemsRead(u, 1, Leaf(Whole("b")), Leaf(Literal(1, "1'b0")));
  }

  lemma TextReads()
    ensures Reads("{b,1'b0}", TREE)
  {
    var t := "{b,1'b0}";
    assert Inside(t) == "b,1'b0";
    NothingToStrip(t);
    ItemsRead();
    BracesRead(t, TREE.items);
  }

  /** A vector declared as `[0:3]` is measured as having no bits, so the text gets one flag for its five bits. */
  method AscendingIsShort() returns (flags: Option<seq<bool>>)
    ensures flags == Some([true]) && Reads("{b,1'b0}", TREE) && Width(ASCENDING, TREE) == 5
  {
    flags := ConstConcat.Concat(ASCENDING, "{b,1'b0}");
    TextReads();
    TreeIsShort();
  }

  // ---- A replication of constant and other bits ----

  /** `wire a`. */
  const SINGLE := Source(map["a" := (0, 0)], {})
  const PAIR := Concat([Leaf(Literal(1, "1'b0")), Leaf(Whole("a"))])
  const MIXED := Concat([Repeat(2, PAIR)])

  lemma PairReads()
    ensures Reads("{1'b0,a}", PAIR)
  {
    var t, u := "{1'b0,a}", "1'b0,a";
    assert Inside(t) == u;
    assert u[..4] == "1'b0" && u[5..] == "a";
    NothingToStrip(t);
    SignalReads("a");
    LiteralReads();
    TwoItemsRead(u, 4, Leaf(Literal(1, "1'b0")), Leaf(Whole("a")));
    BracesRead(t, PAIR.items);
  }

  lemma TwiceParses(t: string, u: string, body: string)
    requires body != "" && u == "2{" + body + "}" && t == "{" + u + "}"
    ensures RepeatOf(t) == Some(Repetition(2, body, 1, |u| - 1))
  {
    assert Inside(t) == u;
    TwiceParts(u, body);
  }

  lemma CopiesRead(t: string, x: Repetition, inner: Expr)
    requires Strip(t) == t && RepeatOf(t) == Some(x) && Reads("{" + x.body + "}", inner)
    ensures Reads(t, Repeat(x.count, inner))
  {
  }

  lemma TwiceReads(body: string, inner: Expr)
    requires body != "" && Reads("{" + body + "}", inner)
    ensures Reads("{" + ("2{" + body + "}") + "}", Repeat(2, inner))
  {
    var u := "2{" + body + "}";
    var t := "{" + u + "}";
    NothingToStrip(t);
    TwiceParses(t, u, body);
    CopiesRead(t, Repetition(2, body, 1, |u| - 1), inner);
  }

  lemma TwiceParts(u: string, body: string)
    requires body != "" && u == "2{" + body + "}"
    ensures Spaces(u, 0) == 0 && Digits(u, 0) == 1 && Spaces(u, 1) == 1 && SpacesBack(u, |u|) == |u|
    ensures u[2..|u| - 1] == body && u[1] == '{' && u[|u| - 1] == '}' && Number(u, 0, 1) == 2
  {
    assert Digits(u, 1) == 1;
    assert u[0..1] == "2" && "2"[..0] == [];
    assert IntOf("2") == 2;
  }

  /** A single item in braces. */
  lemma OneItemReads(t: string, e: Expr)
    requires Reads(t, e)
    ensures Reads("{" + t + "}", Concat([e]))
  {
    var u := "{" + t + "}";
    NothingToStrip(u);
    assert Inside(u) == t;
    assert ReadsAll(t, [e]);
    BracesRead(u, [e]);
  }

  lemma MixedText()
    ensures "{" + "1'b0,a" + "}" == "{1'b0,a}"
    ensures "{" + ("{" + ("2{" + "1'b0,a" + "}") + "}") + "}" == "{{2{1'b0,a}}}"
  {
  }

  lemma MixedReads()
    ensures Reads("{{2{1'b0,a}}}", MIXED)
  {
    MixedText();
    PairReads();
    TwiceReads("1'b0,a", PAIR);
    OneItemReads("{" + ("2{" + "1'b0,a" + "}") + "}", Repeat(2, PAIR));
  }

  lemma PairIsMixed()
    ensures TopFlags(SINGLE, PAIR) == Some([true, false])
  {
    var a, b := Leaf(Literal(1, "1'b0")), Leaf(Whole("a"));
    assert [a, b][1..] == [b] && [b][1..] == [];
    assert Fill(1, true) == [true] && Fill(1, false) == [false];
    assert PartFlags(SINGLE, a) == Some([true]) && PartFlags(SINGLE, b) == Some([false]);
    assert AllFlags(SINGLE, [b]) == Some([false] + []);
    assert [false] + [] == [false] && [true] + [false] == [true, false];
  }

  lemma MixedFlags()
    ensures TopFlags(SINGLE, MIXED) == Some([false, false, false, false])
  {
    PairIsMixed();
    var r := Repeat(2, PAIR);
    assert [r][1..] == [] && Fill(4, false) == [false, false, false, false];
    assert ![true, false][1];
    assert PartFlags(SINGLE, r) == Some([false, false, false, false]);
    assert [false, false, false, false] + [] == [false, false, false, false];
  }

  lemma MixedIsNotSharp()
    ensures Descending(SINGLE, MIXED) && !Sharp(SINGLE, MIXED)
  {
    PairIsMixed();
    assert [true, false][0] && ![true, false][1];
    assert !SharpPart(SINGLE, MIXED.items[0]);
  }

  /** Repeating a constant 0 beside a signal, inside braces, loses the flags of the constant bits. */
  method MixedIsCoarse() returns (flags: Option<seq<bool>>)
    ensures flags == Some([false, false, false, false]) && Reads("{{2{1'b0,a}}}", MIXED)
    ensures forall lit, s :: Steadies(SINGLE, lit, MIXED, s) ==> s != [false, false, false, false]
  {
    flags := ConstConcat.Concat(SINGLE, "{{2{1'b0,a}}}");
    MixedReads();
    MixedFlags();
    MixedIsNotSharp();
    forall lit, s | Steadies(SINGLE, lit, MIXED, s)
      ensures s != [false, false, false, false]
    {
      TopExact(SINGLE, lit, MIXED, s);
    }
  }
}
