/** Folding bit indices of a signal into globs that select exactly those bits. */
module BitGlobs {
  import opened Glob

  // ---- Decimal numbers ----

  predicate IsDigit(c: char) {
    '0' <= c <= '9'
  }

  predicate AllDigits(s: string) {
    forall c :: c in s ==> IsDigit(c)
  }

  function Digit(d: nat): (c: char)
    requires d < 10
    ensures IsDigit(c)
  {
    ('0' as int + d) as char
  }

  function ValueOf(c: char): (d: nat)
    requires IsDigit(c)
    ensures d < 10 && Digit(d) == c
  {
    c as int - '0' as int
  }

  /** `str(n)`: the canonical decimal of a natural number. */
  function Dec(n: nat): (s: string)
    ensures s != [] && forall c :: c in s ==> IsDigit(c)
  {
    (if n < 10 then [] else Dec(n / 10)) + [Digit(n % 10)]
  }

  /** `int(s)` on digits. */
  function IntOf(s: string): nat
    requires forall c :: c in s ==> IsDigit(c)
  {
    if s == [] then 0 else 10 * IntOf(s[..|s| - 1]) + ValueOf(s[|s| - 1])
  }

  lemma ValueOfDigit(d: nat)
    requires d < 10
    ensures ValueOf(Digit(d)) == d
  {
  }

  lemma IntOfSnoc(s: string, d: nat)
    requires d < 10 && forall c :: c in s ==> IsDigit(c)
    ensures IntOf(s + [Digit(d)]) == 10 * IntOf(s) + d
  {
    ValueOfDigit(d);
    assert (s + [Digit(d)])[..|s|] == s;
  }

  lemma {:induction false} IntOfDec(n: nat)
    ensures IntOf(Dec(n)) == n
  {
    if n < 10 {
      IntOfSnoc([], n);
    } else {
      IntOfDec(n / 10);
      IntOfSnoc(Dec(n / 10), n % 10);
    }
  }

  lemma DecInjective(a: nat, b: nat)
    requires Dec(a) == Dec(b)
    ensures a == b
  {
    IntOfDec(a);
    IntOfDec(b);
  }

  // ---- Character classes of digits ----

  /** One element of a class body: a digit, or a range between two digits. */
  predicate IsPiece(p: string) {
    || (|p| == 1 && IsDigit(p[0]))
    || (|p| == 3 && IsDigit(p[0]) && p[1] == '-' && IsDigit(p[2]))
  }

  function Join(out: seq<string>): string {
    if out == [] then [] else out[0] + Join(out[1..])
  }

  predicate InClass(body: string, c: char) {
    InRanges(Ranges(body), c)
  }

  ghost predicate InSome(out: seq<string>, c: char) {
    exists k :: 0 <= k < |out| && InClass(out[k], c)
  }

  lemma PieceFirst(p: string, rest: string, c: char)
    requires IsPiece(p) && (rest == [] || IsDigit(rest[0]))
    ensures InClass(p + rest, c) <==> InClass(p, c) || InClass(rest, c)
  {
    assert (p + rest)[|p|..] == rest;
    if |p| == 1 && rest != [] {
      assert (p + rest)[1] == rest[0];
    }
    assert Ranges(p + rest) == Ranges(p) + Ranges(rest);
  }

  lemma InSomeFirst(out: seq<string>, c: char)
    requires out != []
    ensures InSome(out, c) <==> InClass(out[0], c) || InSome(out[1..], c)
  {
    if InSome(out[1..], c) {
      var k :| 0 <= k < |out[1..]| && InClass(out[1..][k], c);
      assert InClass(out[k + 1], c);
    }
    if InSome(out, c) && !InClass(out[0], c) {
      var k :| 0 <= k < |out| && InClass(out[k], c);
      assert InClass(out[1..][k - 1], c);
    }
  }

  /** The body `''.join(out)` is a class of exactly the characters its pieces stand for. */
  lemma {:induction false} JoinedClass(out: seq<string>, c: char)
    requires forall p :: p in out ==> IsPiece(p)
    ensures Join(out) == [] <==> out == []
    ensures Join(out) != [] ==> IsDigit(Join(out)[0])
    ensures forall x :: x in Join(out) ==> IsDigit(x) || x == '-'
    ensures InClass(Join(out), c) <==> InSome(out, c)
  {
    if out != [] {
      JoinedClass(out[1..], c);
      PieceFirst(out[0], Join(out[1..]), c);
      InSomeFirst(out, c);
    }
  }

  lemma OneRange(lo: char, hi: char, c: char)
    ensures InRanges([(lo, hi)], c) <==> lo <= c <= hi
  {
    assert (lo, hi) in [(lo, hi)];
  }

  lemma DigitPiece(d: nat, c: char)
    requires d < 10
    ensures IsPiece([Digit(d)]) && (InClass([Digit(d)], c) <==> c == Digit(d))
  {
    assert Ranges([Digit(d)]) == [(Digit(d), Digit(d))];
    OneRange(Digit(d), Digit(d), c);
  }

  lemma RangePiece(lo: nat, hi: nat, c: char)
    requires lo < 10 && hi < 10
    ensures var p := [Digit(lo), '-', Digit(hi)];
      IsPiece(p) && (InClass(p, c) <==> Digit(lo) <= c <= Digit(hi))
  {
    var p := [Digit(lo), '-', Digit(hi)];
    assert Ranges(p) == [(Digit(lo), Digit(hi))];
    OneRange(Digit(lo), Digit(hi), c);
  }

  /** `sorted(set(int(d) for d in digits))`, up to `n`. */
  function SortedDigits(digits: seq<char>, n: nat): (ds: seq<nat>)
    requires n <= 10
    ensures forall d :: d in ds <==> 0 <= d < n && Digit(d) in digits
    ensures forall i :: 0 <= i < |ds| ==> ds[i] < n
    ensures forall i, j :: 0 <= i < j < |ds| ==> ds[i] < ds[j]
  {
    if n == 0 then []
    else SortedDigits(digits, n - 1) + if Digit(n - 1) in digits then [n - 1] else []
  }

  lemma InSomeAppend(a: seq<string>, b: seq<string>, c: char)
    ensures InSome(a + b, c) <==> InSome(a, c) || InSome(b, c)
  {
    if InSome(a, c) {
      var k :| 0 <= k < |a| && InClass(a[k], c);
      assert InClass((a + b)[k], c);
    }
    if InSome(b, c) {
      var k :| 0 <= k < |b| && InClass(b[k], c);
      assert InClass((a + b)[|a| + k], c);
    }
  }

  // ---- Runs of consecutive digits ----

  type Run = (nat, nat)  // the least and the greatest of some consecutive digits

  predicate IsRun(r: Run) {
    r.0 <= r.1 < 10
  }

  /** Runs in order, with a gap after each. */
  ghost predicate Gapped(runs: seq<Run>) {
    && (forall k :: 0 <= k < |runs| ==> IsRun(runs[k]))
    && (forall j, k :: 0 <= j < k < |runs| ==> runs[j].1 + 1 < runs[k].0)
  }

  ghost predicate InRuns(runs: seq<Run>, d: nat) {
    exists k :: 0 <= k < |runs| && runs[k].0 <= d <= runs[k].1
  }

  lemma InRunsLonger(runs: seq<Run>, r: Run, d: nat)
    ensures InRuns(runs + [r], d) <==> InRuns(runs, d) || r.0 <= d <= r.1
  {
    if InRuns(runs, d) {
      var k :| 0 <= k < |runs| && runs[k].0 <= d <= runs[k].1;
      assert (runs + [r])[k] == runs[k];
    }
    assert (runs + [r])[|runs|] == r;
  }

  /** A run of three digits or more is written as a range, a shorter one digit by digit. */
  function RunText(r: Run): string
    requires IsRun(r)
  {
    if r.1 == r.0 then [Digit(r.0)]
    else if r.1 == r.0 + 1 then [Digit(r.0), Digit(r.1)]
    else [Digit(r.0), '-', Digit(r.1)]
  }

  function RunsText(runs: seq<Run>): string
    requires forall k :: 0 <= k < |runs| ==> IsRun(runs[k])
  {
    if runs == [] then [] else RunsText(runs[..|runs| - 1]) + RunText(runs[|runs| - 1])
  }

  // ---- The pieces of the runs ----

  function Singles(ds: seq<nat>): seq<string>
    requires forall k :: 0 <= k < |ds| ==> ds[k] < 10
  {
    seq(|ds|, k requires 0 <= k < |ds| => [Digit(ds[k])])
  }

  /** The pieces of one run, as the tool appends them. */
  function RunPieces(r: Run): seq<string>
    requires IsRun(r)
  {
    if r.1 - r.0 >= 2 then [[Digit(r.0), '-', Digit(r.1)]]
    else if r.1 == r.0 then Singles([r.0])
    else Singles([r.0, r.1])
  }

  /** A piece of a run stands for its digits. */
  lemma PieceStands(r: Run, c: char)
    requires IsRun(r)
    ensures forall p :: p in RunPieces(r) ==> IsPiece(p)
    ensures InSome(RunPieces(r), c) <==> IsDigit(c) && r.0 <= ValueOf(c) <= r.1
  {
    DigitPiece(r.0, c);
    DigitPiece(r.1, c);
    RangePiece(r.0, r.1, c);
    if r.1 - r.0 >= 2 {
      assert InSome(RunPieces(r), c) <==> InClass(RunPieces(r)[0], c);
    } else if r.1 == r.0 {
      assert RunPieces(r) == [[Digit(r.0)]];
      assert InSome(RunPieces(r), c) <==> InClass(RunPieces(r)[0], c);
    } else {
      assert RunPieces(r) == [[Digit(r.0)], [Digit(r.1)]];
      assert InSome(RunPieces(r), c) <==> InClass(RunPieces(r)[0], c) || InClass(RunPieces(r)[1], c);
    }
  }

  function AllPieces(runs: seq<Run>): seq<string>
    requires forall k :: 0 <= k < |runs| ==> IsRun(runs[k])
  {
    if runs == [] then [] else AllPieces(runs[..|runs| - 1]) + RunPieces(runs[|runs| - 1])
  }

  /** The pieces stand for exactly the digits in the runs. */
  lemma {:induction false} PiecesStand(runs: seq<Run>, c: char)
    requires forall k :: 0 <= k < |runs| ==> IsRun(runs[k])
    ensures forall p :: p in AllPieces(runs) ==> IsPiece(p)
    ensures InSome(AllPieces(runs), c) <==> IsDigit(c) && InRuns(runs, ValueOf(c))
  {
    if runs != [] {
      var front, r := runs[..|runs| - 1], runs[|runs| - 1];
      PiecesStand(front, c);
      PieceStands(r, c);
      InSomeAppend(AllPieces(front), RunPieces(r), c);
      assert runs == front + [r];
      if IsDigit(c) {
        InRunsLonger(front, r, ValueOf(c));
      }
    }
  }

  lemma {:induction false} JoinAppends(a: seq<string>, b: seq<string>)
    ensures Join(a + b) == Join(a) + Join(b)
  {
    if a == [] {
      assert a + b == b;
    } else {
      assert (a + b)[1..] == a[1..] + b;
      JoinAppends(a[1..], b);
    }
  }

  lemma JoinTwo(a: string, b: string)
    ensures Join([a]) == a && Join([a, b]) == a + b
  {
    assert [a, b][1..] == [b] && [a][1..] == [] && [b][1..] == [];
    assert Join([b]) == b + [] == b && Join([a]) == a + [] == a;
  }

  lemma PieceText(r: Run)
    requires IsRun(r)
    ensures Join(RunPieces(r)) == RunText(r)
  {
    JoinTwo([Digit(r.0)], [Digit(r.1)]);
    JoinTwo([Digit(r.0), '-', Digit(r.1)], []);
    if r.1 == r.0 {
      assert RunPieces(r) == [[Digit(r.0)]];
    } else if r.1 == r.0 + 1 {
      assert RunPieces(r) == [[Digit(r.0)], [Digit(r.1)]];
    }
  }

  lemma {:induction false} PiecesText(runs: seq<Run>)
    requires forall k :: 0 <= k < |runs| ==> IsRun(runs[k])
    ensures Join(AllPieces(runs)) == RunsText(runs)
  {
    if runs != [] {
      var front, r := runs[..|runs| - 1], runs[|runs| - 1];
      PiecesText(front);
      PieceText(r);
      JoinAppends(AllPieces(front), RunPieces(r));
    }
  }

  // ---- Folding ----

  ghost predicate IsSorted(ds: seq<nat>) {
    (forall k :: 0 <= k < |ds| ==> ds[k] < 10) && forall j, k :: 0 <= j < k < |ds| ==> ds[j] < ds[k]
  }

  /** The digits from `i` to `j` follow each other, and no digit follows the last. */
  ghost predicate Follow(ds: seq<nat>, i: nat, j: nat) {
    && i <= j < |ds| && (forall k :: i <= k <= j ==> ds[k] == ds[i] + (k - i))
    && (j + 1 < |ds| ==> ds[j + 1] != ds[j] + 1)
  }

  /** The last digit of the run of consecutive digits that starts at `i`. */
  method RunEnd(ds: seq<nat>, i: nat) returns (j: nat)
    requires i < |ds|
    ensures Follow(ds, i, j)
  {
    j := i;
    while j + 1 < |ds| && ds[j + 1] == ds[j] + 1
      invariant i <= j < |ds| && forall k :: i <= k <= j ==> ds[k] == ds[i] + (k - i)
    {
      j := j + 1;
    }
  }

  /** The runs hold exactly the first `i` digits, and are maximal. */
  ghost predicate HoldsDigits(runs: seq<Run>, ds: seq<nat>, i: nat)
    requires i <= |ds|
  {
    && (forall d :: InRuns(runs, d) <==> d in ds[..i])
    && (runs != [] ==> i > 0 && runs[|runs| - 1].1 == ds[i - 1])
    && (0 < i < |ds| ==> ds[i - 1] + 1 < ds[i])
  }

  lemma RunDigits(ds: seq<nat>, i: nat, j: nat, d: nat)
    requires Follow(ds, i, j)
    ensures d in ds[..j + 1] <==> d in ds[..i] || ds[i] <= d <= ds[j]
  {
    assert ds[..j + 1] == ds[..i] + ds[i..j + 1];
    if ds[i] <= d <= ds[j] {
      assert ds[i..j + 1][d - ds[i]] == d;
    }
  }

  lemma HoldsLonger(runs: seq<Run>, ds: seq<nat>, i: nat, j: nat)
    requires Follow(ds, i, j) && IsSorted(ds) && HoldsDigits(runs, ds, i)
    ensures HoldsDigits(runs + [(ds[i], ds[j])], ds, j + 1)
  {
    var r := (ds[i], ds[j]);
    forall d: nat
      ensures InRuns(runs + [r], d) <==> d in ds[..j + 1]
    {
      RunDigits(ds, i, j, d);
      InRunsLonger(runs, r, d);
    }
    assert j + 1 < |ds| ==> ds[j] < ds[j + 1];
  }

  lemma GappedLonger(runs: seq<Run>, r: Run)
    requires Gapped(runs) && IsRun(r) && (runs != [] ==> runs[|runs| - 1].1 + 1 < r.0)
    ensures Gapped(runs + [r])
  {
    var more := runs + [r];
    forall j, k | 0 <= j < k < |more|
      ensures more[j].1 + 1 < more[k].0
    {
      if k == |runs| && j < |runs| - 1 {
        assert runs[j].1 + 1 < runs[|runs| - 1].0;
      }
    }
  }

  lemma PiecesLonger(runs: seq<Run>, r: Run)
    requires IsRun(r) && forall k :: 0 <= k < |runs| ==> IsRun(runs[k])
    ensures AllPieces(runs + [r]) == AllPieces(runs) + RunPieces(r)
  {
    assert (runs + [r])[..|runs|] == runs;
  }

  /** The pieces of the maximal runs of the first `i` digits. */
  ghost predicate Folded(out: seq<string>, runs: seq<Run>, ds: seq<nat>, i: nat)
    requires i <= |ds|
  {
    Gapped(runs) && out == AllPieces(runs) && HoldsDigits(runs, ds, i)
  }

  lemma RunIsRun(ds: seq<nat>, i: nat, j: nat)
    requires Follow(ds, i, j) && IsSorted(ds)
    ensures IsRun((ds[i], ds[j])) && ds[j] - ds[i] == j - i
  {
  }

  lemma FoldedLonger(out: seq<string>, runs: seq<Run>, ds: seq<nat>, i: nat, j: nat, r: Run)
    requires Follow(ds, i, j) && IsSorted(ds) && Folded(out, runs, ds, i) && r == (ds[i], ds[j]) && IsRun(r)
    ensures Folded(out + RunPieces(r), runs + [r], ds, j + 1)
  {
    HoldsLonger(runs, ds, i, j);
    GappedLonger(runs, r);
    PiecesLonger(runs, r);
  }

  /** The pieces of the run from `i` to `j`. */
  method Fold(ds: seq<nat>, i: nat, j: nat) returns (more: seq<string>)
    requires Follow(ds, i, j) && IsSorted(ds)
    ensures IsRun((ds[i], ds[j])) && more == RunPieces((ds[i], ds[j]))
  {
    RunIsRun(ds, i, j);
    if j - i >= 2 {
      more := [[Digit(ds[i]), '-', Digit(ds[j])]];
    } else {
      assert ds[i..j + 1] == if j == i then [ds[i]] else [ds[i], ds[j]];
      more := Singles(ds[i..j + 1]);
    }
  }

  method FoldRuns(ds: seq<nat>) returns (out: seq<string>, ghost runs: seq<Run>)
    requires IsSorted(ds)
    ensures Folded(out, runs, ds, |ds|)
  {
    out, runs := [], [];
    var i := 0;
    while i < |ds|
      invariant i <= |ds| && Folded(out, runs, ds, i)
    {
      var j := RunEnd(ds, i);
      var more := Fold(ds, i, j);
      FoldedLonger(out, runs, ds, i, j, (ds[i], ds[j]));
      out, runs, i := out + more, runs + [(ds[i], ds[j])], j + 1;
    }
  }

  /** The body of a character class for some digits, runs of three and more folded to ranges. */
  method DigitClass(digits: seq<char>) returns (body: string, ghost runs: seq<Run>)
    requires forall c :: c in digits ==> IsDigit(c)
    ensures forall c :: InClass(body, c) <==> c in digits
    ensures digits != [] ==> body != [] && IsDigit(body[0])
    ensures forall x :: x in body ==> IsDigit(x) || x == '-'
    ensures Gapped(runs) && body == RunsText(runs) && forall d :: InRuns(runs, d) <==> d < 10 && Digit(d) in digits
  {
    var ds := SortedDigits(digits, 10);
    var out;
    out, runs := FoldRuns(ds);
    assert ds[..|ds|] == ds;
    BodyIsClass(digits, ds, runs);
    PiecesText(runs);
    body := Join(out);
  }

  lemma BodyIsClass(digits: seq<char>, ds: seq<nat>, runs: seq<Run>)
    requires (forall c :: c in digits ==> IsDigit(c)) && ds == SortedDigits(digits, 10)
    requires Gapped(runs) && forall d :: InRuns(runs, d) <==> d in ds
    ensures var body := Join(AllPieces(runs));
      && (forall c :: InClass(body, c) <==> c in digits)
      && (digits != [] ==> body != [] && IsDigit(body[0]))
      && (forall x :: x in body ==> IsDigit(x) || x == '-')
  {
    forall c
      ensures InClass(Join(AllPieces(runs)), c) <==> c in digits
    {
      PiecesStand(runs, c);
      JoinedClass(AllPieces(runs), c);
      assert IsDigit(c) ==> Digit(ValueOf(c)) == c;
    }
    PiecesStand(runs, '0');
    JoinedClass(AllPieces(runs), '0');
    if digits != [] {
      assert InClass(Join(AllPieces(runs)), digits[0]);
    }
  }
}
