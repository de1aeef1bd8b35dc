/** How the answer for a text follows from the answers for its parts. */
module ConcatDecide {
  import opened Text
  import opened Options
  import opened VerilogText
  import opened ConcatGrammar
  import opened ConcatReading
  import opened ConcatFlags

  // ---- Answers ----

  /** The answer is the flags of what the text reads as, and flags are given only to text that reads as something. */
  ghost predicate DecidesTop(src: Source, t: string, r: Option<seq<bool>>) {
    (forall e :: Reads(t, e) ==> TopFlags(src, e) == r) && (r.Some? ==> exists e :: Reads(t, e))
  }

  ghost predicate DecidesPart(src: Source, t: string, r: Option<seq<bool>>) {
    (forall e :: Reads(t, e) ==> PartFlags(src, e) == r) && (r.Some? ==> exists e :: Reads(t, e))
  }

  lemma DecidesStripped(src: Source, t: string, r: Option<seq<bool>>)
    ensures DecidesPart(src, Strip(t), r) <==> DecidesPart(src, t, r)
    ensures DecidesTop(src, Strip(t), r) <==> DecidesTop(src, t, r)
  {
    StripTwice(t);
    assert forall e :: Reads(Strip(t), e) <==> Reads(t, e);
  }

  // ---- Leaves ----

  lemma LeafReads(t: string, leaf: VerilogText.Leaf)
    requires LeafOf(Strip(t)) == Some(leaf)
    ensures Reads(t, Leaf(leaf)) && forall e :: Reads(t, e) ==> e == Leaf(leaf)
  {
    forall e | Reads(t, e)
      ensures e == Leaf(leaf)
    {
      SameKind(t, e);
    }
  }

  lemma DecidesLeaf(src: Source, t: string, leaf: VerilogText.Leaf)
    requires LeafOf(Strip(t)) == Some(leaf)
    ensures DecidesPart(src, t, LeafFlags(src, leaf))
    ensures DecidesTop(src, t, if leaf.Literal? then Some(Fill(leaf.width, true)) else None)
  {
    LeafReads(t, leaf);
  }

  /** Text that is no leaf and not in braces does not read as anything. */
  lemma DecidesNothing(src: Source, t: string)
    requires LeafOf(Strip(t)).None? && !Braced(Strip(t))
    ensures DecidesPart(src, t, None) && DecidesTop(src, t, None)
  {
    forall e | Reads(t, e)
      ensures false
    {
      SameKind(t, e);
    }
  }

  // ---- Replications ----

  function TimesOf(count: nat, r: Option<seq<bool>>): Option<seq<bool>> {
    match r case Some(flags) => Some(Times(count, flags)) case None => None
  }

  function FillOf(count: nat, r: Option<seq<bool>>): Option<seq<bool>> {
    match r case Some(flags) => Some(Fill(count * |flags|, All(flags))) case None => None
  }

  lemma DecidesRepeat(src: Source, t: string, inner: Option<seq<bool>>)
    requires RepeatOf(Strip(t)).Some?
    requires DecidesTop(src, "{" + RepeatOf(Strip(t)).value.body + "}", inner)
    ensures DecidesTop(src, t, TimesOf(RepeatOf(Strip(t)).value.count, inner))
    ensures DecidesPart(src, t, FillOf(RepeatOf(Strip(t)).value.count, inner))
  {
    var x := RepeatOf(Strip(t)).value;
    forall e | Reads(t, e)
      ensures TopFlags(src, e) == TimesOf(x.count, inner) && PartFlags(src, e) == FillOf(x.count, inner)
    {
      SameKind(t, e);
    }
    if inner.Some? {
      var e :| Reads("{" + x.body + "}", e);
      assert Reads(t, Repeat(x.count, e));
    }
  }

  /** Braces around what begins like a replication, but is not one, do not read as anything. */
  lemma DecidesNoRepeat(src: Source, t: string)
    requires Braced(Strip(t)) && StartsRepeat(Inside(Strip(t))) && RepeatOf(Strip(t)).None?
    ensures DecidesPart(src, t, None) && DecidesTop(src, t, None)
  {
    forall e | Reads(t, e)
      ensures false
    {
      SameKind(t, e);
      NotItems(Inside(Strip(t)), e.items);
    }
  }

  // ---- Concatenations ----

  function Sum(rs: seq<seq<bool>>): seq<bool> {
    if rs == [] then [] else rs[0] + Sum(rs[1..])
  }

  lemma {:induction false} SumOneMore(rs: seq<seq<bool>>, r: seq<bool>)
    ensures Sum(rs + [r]) == Sum(rs) + r
  {
    if rs == [] {
      assert [r][1..] == [] && [] + [r] == [r];
      assert r + [] == r && [] + r == r;
    } else {
      assert (rs + [r])[1..] == rs[1..] + [r];
      SumOneMore(rs[1..], r);
      assert rs[0] + (Sum(rs[1..]) + r) == rs[0] + Sum(rs[1..]) + r;
    }
  }

  /** The first pieces have been answered, all with flags. */
  ghost predicate Decided(src: Source, pieces: seq<string>, rs: seq<seq<bool>>) {
    |rs| <= |pieces| && forall i :: 0 <= i < |rs| ==> DecidesPart(src, pieces[i], Some(rs[i]))
  }

  lemma PairedOneMore(decides: (string, seq<bool>) -> bool, pieces: seq<string>, rs: seq<seq<bool>>, r: seq<bool>)
    requires |rs| < |pieces| && decides(pieces[|rs|], r)
    requires forall i :: 0 <= i < |rs| ==> decides(pieces[i], rs[i])
    ensures forall i :: 0 <= i < |rs + [r]| ==> decides(pieces[i], (rs + [r])[i])
  {
  }

  lemma DecidedOneMore(src: Source, pieces: seq<string>, rs: seq<seq<bool>>, r: seq<bool>)
    requires Decided(src, pieces, rs) && |rs| < |pieces| && DecidesPart(src, pieces[|rs|], Some(r))
    ensures Decided(src, pieces, rs + [r])
  {
    PairedOneMore((piece, flags) => DecidesPart(src, piece, Some(flags)), pieces, rs, r);
  }

  lemma {:induction false} FlagsOfDecided(src: Source, pieces: seq<string>, rs: seq<seq<bool>>, items: seq<Expr>)
    requires Decided(src, pieces, rs) && |rs| == |pieces| && Each(pieces, items)
    ensures AllFlags(src, items) == Some(Sum(rs))
  {
    if items != [] {
      assert DecidesPart(src, pieces[0], Some(rs[0])) && Reads(pieces[0], items[0]);
      FlagsOfDecided(src, pieces[1..], rs[1..], items[1..]);
    }
  }

  lemma ItemOfDecided(src: Source, piece: string, r: seq<bool>) returns (e: Expr)
    requires DecidesPart(src, piece, Some(r))
    ensures Reads(piece, e)
  {
    e :| Reads(piece, e);
  }

  lemma DecidedRest(src: Source, pieces: seq<string>, rs: seq<seq<bool>>)
    requires Decided(src, pieces, rs) && rs != []
    ensures Decided(src, pieces[1..], rs[1..]) && DecidesPart(src, pieces[0], Some(rs[0]))
  {
  }

  lemma {:induction false} ItemsOfDecided(src: Source, pieces: seq<string>, rs: seq<seq<bool>>)
    returns (items: seq<Expr>)
    requires Decided(src, pieces, rs) && |rs| == |pieces|
    ensures Each(pieces, items)
  {
    if pieces == [] {
      items := [];
    } else {
      DecidedRest(src, pieces, rs);
      var e := ItemOfDecided(src, pieces[0], rs[0]);
      var rest := ItemsOfDecided(src, pieces[1..], rs[1..]);
      EachMore(pieces[0], e, pieces[1..], rest);
      assert pieces == [pieces[0]] + pieces[1..];
      items := [e] + rest;
    }
  }

  lemma {:induction false} OneUnsureItem(src: Source, items: seq<Expr>, k: nat)
    requires k < |items| && PartFlags(src, items[k]).None?
    ensures AllFlags(src, items).None?
  {
    if k > 0 {
      OneUnsureItem(src, items[1..], k - 1);
    }
  }

  lemma ConcatKind(t: string, e: Expr)
    requires Braced(Strip(t)) && RepeatOf(Strip(t)).None? && Reads(t, e)
    ensures e.Concat? && Each(Cut(Inside(Strip(t)), [], 0), e.items)
  {
    SameKind(t, e);
    ReadsCut(Inside(Strip(t)), e.items);
  }

  /** When all pieces have flags, the concatenation has their flags in order. */
  lemma DecidesConcat(src: Source, t: string, rs: seq<seq<bool>>)
    requires Braced(Strip(t)) && RepeatOf(Strip(t)).None?
    requires var pieces := Cut(Inside(Strip(t)), [], 0); Decided(src, pieces, rs) && |rs| == |pieces|
    ensures DecidesTop(src, t, Some(Sum(rs))) && DecidesPart(src, t, Some(Sum(rs)))
  {
    var body := Inside(Strip(t));
    var pieces := Cut(body, [], 0);
    forall e | Reads(t, e)
      ensures TopFlags(src, e) == Some(Sum(rs)) && PartFlags(src, e) == Some(Sum(rs))
    {
      ConcatKind(t, e);
      FlagsOfDecided(src, pieces, rs, e.items);
    }
    var items := ItemsOfDecided(src, pieces, rs);
    PiecesRead(pieces, items);
    CutJoins(body, [], 0);
    assert [] + body == body;
    assert Reads(t, Concat(items));
  }

  /** When one piece has no flags, neither has the concatenation. */
  lemma DecidesUnsure(src: Source, t: string, k: nat)
    requires Braced(Strip(t)) && RepeatOf(Strip(t)).None?
    requires k < |Cut(Inside(Strip(t)), [], 0)| && DecidesPart(src, Cut(Inside(Strip(t)), [], 0)[k], None)
    ensures DecidesTop(src, t, None) && DecidesPart(src, t, None)
  {
    forall e | Reads(t, e)
      ensures TopFlags(src, e).None? && PartFlags(src, e).None?
    {
      ConcatKind(t, e);
      OneUnsureItem(src, e.items, k);
    }
  }
}
