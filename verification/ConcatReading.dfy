/** A text reads as at most one tree, and its items are what splitting at top-level commas finds. */
module ConcatReading {
  import opened Text
  import opened Options
  import opened BitGlobs
  import opened VerilogText
  import opened ConcatGrammar

  // ---- White space around a text ----

  lemma SpaceIsQuiet(s: string)
    requires AllSpace(s)
    ensures Quiet(s)
  {
  }

  /** White space around a text does not matter to its brackets. */
  lemma ScanAround(before: string, s: string, after: string, d: nat)
    requires Quiet(before) && Quiet(after) && Scan(s, d) == Some(d)
    ensures Scan(before + s + after, d) == Some(d)
  {
    QuietScan(before, d);
    QuietScan(after, d);
    ScanAppend(s, after, d);
    ScanAppend(before, s + after, d);
    assert before + (s + after) == before + s + after;
  }

  lemma StripClosed(t: string)
    requires Closed(Strip(t))
    ensures Closed(t)
  {
    var a, b := StripParts(t);
    SpaceIsQuiet(a);
    SpaceIsQuiet(b);
    ScanAround(a, Strip(t), b, 0);
  }

  // ---- Leaves ----

  lemma QuietSlice(s: string, i: nat, j: nat)
    requires i <= j <= |s|
    requires forall k :: i <= k < j ==> s[k] != ',' && !Opens(s[k]) && !Closes(s[k])
    ensures Quiet(s[i..j])
  {
  }

  /** Quiet text on both sides of a character that is no bracket or comma. */
  lemma QuietAround(u: string, c: nat)
    requires c < |u| && (u[c] == ':' || u[c] == '\'') && Quiet(u[..c]) && Quiet(u[c + 1..])
    ensures Quiet(u)
  {
    assert u == u[..c] + [u[c]] + u[c + 1..];
  }

  lemma TailIsQuiet(t: string, i: nat)
    requires i <= |t| && LiteralTail(t, i)
    ensures Quiet(t[i..])
  {
    QuietSlice(t, i, |t|);
    assert t[i..|t|] == t[i..];
  }

  lemma AroundTick(s: string, tick: nat)
    requires tick < |s| && s[tick] == '\'' && Quiet(s[..tick]) && LiteralTail(s, tick + 1)
    ensures Quiet(s)
  {
    TailIsQuiet(s, tick + 1);
    QuietAround(s, tick);
  }

  lemma LiteralIsQuiet(s: string)
    requires LiteralOf(s).Some?
    ensures Quiet(s)
  {
    NumberEndIsQuiet(s);
    AroundTick(s, LiteralTick(s));
  }

  lemma NumberEndIsQuiet(u: string)
    ensures Quiet(u[..NumberEnd(u)]) && Quiet(u[..LiteralTick(u)])
  {
    QuietSlice(u, 0, NumberEnd(u));
    assert u[0..NumberEnd(u)] == u[..NumberEnd(u)];
    QuietSlice(u, 0, LiteralTick(u));
    assert u[0..LiteralTick(u)] == u[..LiteralTick(u)];
  }

  lemma WordIsQuiet(s: string)
    requires Skip(s, 0, IsWord) == |s|
    ensures Quiet(s)
  {
    QuietSlice(s, 0, |s|);
    assert s[0..|s|] == s;
  }

  lemma NumberIsQuiet(u: string)
    requires NumberOf(u).Some?
    ensures Quiet(u)
  {
    NumberEndIsQuiet(u);
    assert u[..NumberEnd(u)] == u;
  }

  lemma RangeIsQuiet(u: string)
    requires RangeOf(u).Some?
    ensures Quiet(u)
  {
    NumberEndIsQuiet(u);
    if NumberEnd(u) < |u| {
      NumberIsQuiet(u[NumberEnd(u) + 1..]);
      QuietAround(u, NumberEnd(u));
    } else {
      assert u == u[..NumberEnd(u)];
    }
  }

  lemma BracketedClosed(s: string, b: nat)
    requires b < |s| - 1 && s[b] == '[' && s[|s| - 1] == ']'
    requires Quiet(s[..b]) && Quiet(s[b + 1..|s| - 1])
    ensures Closed(s) && '{' !in s
  {
    var before, inside := s[..b], s[b + 1..|s| - 1];
    QuietScan(inside, 1);
    BracketsClose(before, '[', inside, ']', []);
    assert s == before + ['['] + inside + [']'] + [];
  }

  lemma NameIsQuiet(s: string)
    ensures Quiet(s[..NameEnd(s)])
  {
    QuietSlice(s, 0, NameEnd(s));
    assert s[0..NameEnd(s)] == s[..NameEnd(s)];
  }

  lemma SelectIsClosed(s: string)
    requires SelectOf(s).Some?
    ensures Closed(s) && '{' !in s
  {
    NameIsQuiet(s);
    RangeIsQuiet(s[NameEnd(s) + 1..|s| - 1]);
    BracketedClosed(s, NameEnd(s));
  }

  lemma LeafIsClosed(s: string)
    requires LeafOf(s).Some?
    ensures Closed(s) && '{' !in s
  {
    if LiteralOf(s).Some? {
      LiteralIsQuiet(s);
      QuietScan(s, 0);
    } else if SelectOf(s).Some? {
      SelectIsClosed(s);
    } else {
      WordIsQuiet(s);
      QuietScan(s, 0);
    }
  }

  // ---- Trees ----

  lemma BracedClosed(s: string)
    requires Braced(s) && Scan(Inside(s), 1) == Some(1)
    ensures Closed(s)
  {
    BracketsClose([], '{', Inside(s), '}', []);
    assert s == [] + ['{'] + Inside(s) + ['}'] + [];
  }

  lemma RepetitionParts(u: string, x: Repetition)
    requires IsRepetition(u, x)
    ensures u == u[0..x.open] + ("{" + x.body + "}") + u[x.close + 1..|u|]
  {
    assert u[x.open..x.close + 1] == "{" + x.body + "}";
  }

  lemma RepetitionScan(u: string, x: Repetition)
    requires IsRepetition(u, x) && Closed("{" + x.body + "}")
    ensures Scan(u, 1) == Some(1)
  {
    QuietSlice(u, 0, x.open);
    QuietSlice(u, x.close + 1, |u|);
    ScanDeeper("{" + x.body + "}", 0);
    RepetitionParts(u, x);
    ScanAround(u[0..x.open], "{" + x.body + "}", u[x.close + 1..|u|], 1);
  }

  lemma {:induction false} ReadsClosed(t: string, e: Expr)
    requires Reads(t, e)
    ensures Closed(t)
    decreases e
  {
    var s := Strip(t);
    if e.Leaf? {
      LeafIsClosed(s);
    } else if e.Repeat? {
      ReadsClosed("{" + RepeatOf(s).value.body + "}", e.inner);
      RepetitionScan(Inside(s), RepeatOf(s).value);
      BracedClosed(s);
    } else {
      ReadsAllClosed(Inside(s), e.items);
      BracedClosed(s);
    }
    StripClosed(t);
  }

  /** A text at depth one, a comma, and more at depth one. */
  lemma CommaScan(t: string, k: int)
    requires SplitsAt(t, k) && Closed(t[..k]) && Scan(t[k + 1..], 1) == Some(1)
    ensures Scan(t, 1) == Some(1)
  {
    ScanDeeper(t[..k], 0);
    var rest := "," + t[k + 1..];
    assert rest[1..] == t[k + 1..] && Scan(rest, 1) == Some(1);
    ScanAppend(t[..k], rest, 1);
    assert t == t[..k] + rest;
  }

  lemma {:induction false} ReadsAllClosed(t: string, items: seq<Expr>)
    requires ReadsAll(t, items)
    ensures Scan(t, 1) == Some(1)
    decreases items
  {
    if |items| == 1 {
      ReadsClosed(t, items[0]);
      ScanDeeper(t, 0);
    } else {
      var k :| SplitsAt(t, k) && Reads(t[..k], items[0]) && ReadsAll(t[k + 1..], items[1..]);
      ReadsClosed(t[..k], items[0]);
      ReadsAllClosed(t[k + 1..], items[1..]);
      CommaScan(t, k);
    }
  }

  lemma CutAtComma(t: string, k: int)
    requires SplitsAt(t, k) && Closed(t[..k])
    ensures Cut(t, [], 0) == [t[..k]] + Cut(t[k + 1..], [], 0)
  {
    CutClosed(t[..k], t[k + 1..], [], 0);
    assert t == t[..k] + "," + t[k + 1..] && [] + t[..k] == t[..k];
  }

  lemma CutWhole(t: string)
    requires Closed(t)
    ensures Cut(t, [], 0) == [t]
  {
    CutClosed(t, [], [], 0);
    assert [] + t == t;
  }

  ghost predicate Each(pieces: seq<string>, items: seq<Expr>) {
    |pieces| == |items| && forall i :: 0 <= i < |items| ==> Reads(pieces[i], items[i])
  }

  lemma EachMore(p: string, e: Expr, pieces: seq<string>, items: seq<Expr>)
    requires Reads(p, e) && Each(pieces, items)
    ensures Each([p] + pieces, [e] + items)
  {
  }

  /** The pieces a text is cut into read as the items the text reads as. */
  lemma {:induction false} ReadsCut(t: string, items: seq<Expr>)
    requires ReadsAll(t, items)
    ensures Each(Cut(t, [], 0), items)
    decreases items
  {
    if |items| == 1 {
      ReadsClosed(t, items[0]);
      CutWhole(t);
    } else {
      var k :| SplitsAt(t, k) && Reads(t[..k], items[0]) && ReadsAll(t[k + 1..], items[1..]);
      ReadsClosed(t[..k], items[0]);
      ReadsCut(t[k + 1..], items[1..]);
      CutAtComma(t, k);
      EachMore(t[..k], items[0], Cut(t[k + 1..], [], 0), items[1..]);
      assert [items[0]] + items[1..] == items;
    }
  }

  // ---- At most one reading ----

  /** Text that begins like the inside of a replication is not an item. */
  lemma NotAnItem(t: string, e: Expr)
    requires StartsRepeat(t)
    ensures !Reads(t, e)
  {
    if Reads(t, e) {
      var s := Strip(t);
      var a, b := StripParts(t);
      var first := Spaces(t, 0);
      var brace := Spaces(t, Digits(t, first));
      FirstIsKept(t, a, s, b);
      if e.Leaf? {
        LeafIsClosed(s);
        BraceIsKept(t, a, s, b, brace);
      }
    }
  }

  lemma FirstIsKept(t: string, a: string, s: string, b: string)
    requires t == a + s + b && AllSpace(a) && AllSpace(b) && (s != "" ==> !IsSpace(s[0]))
    requires Spaces(t, 0) < |t|
    ensures s != "" && s[0] == t[Spaces(t, 0)]
  {
    var first := Spaces(t, 0);
    assert t[first] in t;
    assert t[|a|] == s[0];
    assert forall k :: 0 <= k < |a| ==> t[k] == a[k] && a[k] in a;
  }

  lemma BraceIsKept(t: string, a: string, s: string, b: string, k: nat)
    requires t == a + s + b && AllSpace(a) && AllSpace(b) && k < |t| && t[k] == '{'
    ensures '{' in s
  {
    assert t[k] in t;
  }

  lemma PrefixStarts(t: string, k: int)
    requires StartsRepeat(t) && SplitsAt(t, k)
    ensures StartsRepeat(t[..k])
  {
    var a := Spaces(t, 0);
    var b := Digits(t, a);
    var c := Spaces(t, b);
    assert c < k;
    SkipInPrefix(t, k, 0, IsSpace);
    SkipInPrefix(t, k, a, IsDigit);
    SkipInPrefix(t, k, b, IsSpace);
  }

  lemma NotItems(t: string, items: seq<Expr>)
    requires StartsRepeat(t)
    ensures !ReadsAll(t, items)
  {
    if ReadsAll(t, items) {
      if |items| == 1 {
        NotAnItem(t, items[0]);
      } else {
        var k :| SplitsAt(t, k) && Reads(t[..k], items[0]) && ReadsAll(t[k + 1..], items[1..]);
        PrefixStarts(t, k);
        NotAnItem(t[..k], items[0]);
      }
    }
  }

  /** Leaves, replications and concatenations have different texts. */
  lemma SameKind(t: string, e: Expr)
    requires Reads(t, e)
    ensures var s := Strip(t);
      && (e.Leaf? <==> LeafOf(s).Some?)
      && (e.Repeat? <==> RepeatOf(s).Some?)
      && (!e.Leaf? ==> Braced(s))
  {
    var s := Strip(t);
    if e.Concat? && RepeatOf(s).Some? {
      NotItems(Inside(s), e.items);
    }
  }

  /** A text reads as at most one tree. */
  lemma {:induction false} ReadsOnce(t: string, e: Expr, f: Expr)
    requires Reads(t, e) && Reads(t, f)
    ensures e == f
    decreases e
  {
    SameKind(t, e);
    SameKind(t, f);
    var s := Strip(t);
    match e
    case Leaf(_) =>
    case Repeat(_, inner) =>
      ReadsOnce("{" + RepeatOf(s).value.body + "}", inner, f.inner);
    case Concat(items) =>
      ReadsCut(Inside(s), items);
      ReadsCut(Inside(s), f.items);
      forall i | 0 <= i < |items|
        ensures items[i] == f.items[i]
      {
        ReadsOnce(Cut(Inside(s), [], 0)[i], items[i], f.items[i]);
      }
  }
}
