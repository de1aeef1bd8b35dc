/** Verilog concatenations as text: the trees a text reads as, and splitting at top-level commas. */
module ConcatGrammar {
  import opened Text
  import opened Options
  import opened VerilogText

  datatype Expr = Leaf(leaf: VerilogText.Leaf) | Repeat(count: nat, inner: Expr) | Concat(items: seq<Expr>)

  // ---- What a text reads as ----

  ghost predicate Reads(t: string, e: Expr)
    decreases e
  {
    var s := Strip(t);
    match e
    case Leaf(leaf) => LeafOf(s) == Some(leaf)
    case Repeat(count, inner) =>
      RepeatOf(s).Some? && RepeatOf(s).value.count == count && Reads("{" + RepeatOf(s).value.body + "}", inner)
    case Concat(items) => Braced(s) && ReadsAll(Inside(s), items)
  }

  /** Items separated by commas. */
  ghost predicate ReadsAll(t: string, items: seq<Expr>)
    decreases items
  {
    if |items| <= 1 then |items| == 1 && Reads(t, items[0])
    else exists k :: SplitsAt(t, k) && Reads(t[..k], items[0]) && ReadsAll(t[k + 1..], items[1..])
  }

  predicate SplitsAt(t: string, k: int) {
    0 <= k < |t| && t[k] == ','
  }

  // ---- Brackets ----

  predicate Opens(c: char) {
    c == '{' || c == '(' || c == '['
  }

  predicate Closes(c: char) {
    c == '}' || c == ')' || c == ']'
  }

  function Depth(d: int, c: char): int {
    if Opens(c) then d + 1 else if Closes(c) then d - 1 else d
  }

  /** Pieces between the commas that are outside all brackets; `cur` is what the first piece has so far. */
  function Cut(s: string, cur: string, depth: int): (pieces: seq<string>)
    ensures pieces != []
  {
    if s == [] then [cur]
    else
      var d := Depth(depth, s[0]);
      if s[0] == ',' && d == 0 then [cur] + Cut(s[1..], [], d) else Cut(s[1..], cur + [s[0]], d)
  }

  /** The depth after a text that never closes what it has not opened and has no comma at depth zero. */
  function Scan(s: string, d: nat): Option<nat> {
    if s == [] then Some(d)
    else if s[0] == ',' && d == 0 then None
    else if Depth(d, s[0]) < 0 then None
    else Scan(s[1..], Depth(d, s[0]))
  }

  predicate Closed(s: string) {
    Scan(s, 0) == Some(0)
  }

  lemma {:induction false} ScanAppend(a: string, b: string, d: nat)
    requires Scan(a, d).Some?
    ensures Scan(a + b, d) == Scan(b, Scan(a, d).value)
  {
    if a == [] {
      assert a + b == b;
    } else {
      assert (a + b)[1..] == a[1..] + b;
      ScanAppend(a[1..], b, Depth(d, a[0]));
    }
  }

  /** A text that is fine at some depth is fine one deeper. */
  lemma {:induction false} ScanDeeper(s: string, d: nat)
    requires Scan(s, d).Some?
    ensures Scan(s, d + 1) == Some(Scan(s, d).value + 1)
  {
    if s != [] {
      ScanDeeper(s[1..], Depth(d, s[0]));
    }
  }

  predicate Quiet(s: string) {
    forall c :: c in s ==> c != ',' && !Opens(c) && !Closes(c)
  }

  lemma {:induction false} QuietScan(s: string, d: nat)
    requires Quiet(s)
    ensures Scan(s, d) == Some(d)
  {
    if s != [] {
      assert s[0] in s;
      QuietScan(s[1..], d);
    }
  }

  /** Quiet text, an opening bracket, text that keeps its depth, a closing bracket, quiet text. */
  lemma BracketsClose(before: string, open: char, inside: string, close: char, after: string)
    requires Quiet(before) && Quiet(after) && Opens(open) && Closes(close) && Scan(inside, 1) == Some(1)
    ensures Closed(before + [open] + inside + [close] + after)
  {
    var rest := [close] + after;
    QuietScan(after, 0);
    assert rest[1..] == after;
    assert Scan(rest, 1) == Some(0);
    ScanAppend(inside, rest, 1);
    var more := [open] + (inside + rest);
    assert more[1..] == inside + rest;
    assert Scan(more, 0) == Some(0);
    QuietScan(before, 0);
    ScanAppend(before, more, 0);
    assert before + more == before + [open] + inside + [close] + after;
  }

  // ---- Splitting ----

  lemma {:induction false} CutClosed(p: string, rest: string, cur: string, d: nat)
    requires Scan(p, d) == Some(0)
    ensures Cut(p + "," + rest, cur, d) == [cur + p] + Cut(rest, [], 0)
    ensures Cut(p, cur, d) == [cur + p]
  {
    var s := p + "," + rest;
    if p == [] {
      assert s[0] == ',' && s[1..] == rest && cur + p == cur;
    } else {
      assert s[0] == p[0] && s[1..] == p[1..] + "," + rest;
      CutClosed(p[1..], rest, cur + [p[0]], Depth(d, p[0]));
      assert cur + [p[0]] + p[1..] == cur + p;
    }
  }

  function Joined(pieces: seq<string>): string {
    if |pieces| == 0 then [] else if |pieces| == 1 then pieces[0] else pieces[0] + "," + Joined(pieces[1..])
  }

  /** Splitting loses nothing: the pieces with their commas are the text. */
  lemma {:induction false} CutJoins(s: string, cur: string, d: int)
    ensures Joined(Cut(s, cur, d)) == cur + s
  {
    if s == [] {
      assert cur + s == cur;
    } else {
      var after := Depth(d, s[0]);
      if s[0] == ',' && after == 0 {
        CutJoins(s[1..], [], after);
        assert ([cur] + Cut(s[1..], [], after))[1..] == Cut(s[1..], [], after);
        assert cur + "," + s[1..] == cur + s;
      } else {
        CutJoins(s[1..], cur + [s[0]], after);
        assert cur + [s[0]] + s[1..] == cur + s;
      }
    }
  }

  /** Pieces that read as items make a text that reads as the items. */
  lemma {:induction false} PiecesRead(pieces: seq<string>, items: seq<Expr>)
    requires |pieces| == |items| > 0 && forall i :: 0 <= i < |pieces| ==> Reads(pieces[i], items[i])
    ensures ReadsAll(Joined(pieces), items)
  {
    if |pieces| > 1 {
      PiecesRead(pieces[1..], items[1..]);
      var t, k := Joined(pieces), |pieces[0]|;
      assert t[..k] == pieces[0] && t[k] == ',' && t[k + 1..] == Joined(pieces[1..]);
      assert SplitsAt(t, k);
    }
  }
}
