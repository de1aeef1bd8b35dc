/** Coverage databases: one record per elaborated instance of a point, and their accumulation. */
module Coverage {
  import opened Sequences

  datatype Record = Record(point: Point, count: nat)

  datatype Point = Point(page: string, path: string, line: nat, sig: string)

  // ---- Paths ----

  /** Everything after the last slash. */
  function Basename(path: string): string {
    if path == [] || path[|path| - 1] == '/' then [] else Basename(path[..|path| - 1]) + [path[|path| - 1]]
  }

  predicate EndsWith(s: string, t: string) {
    |t| <= |s| && s[|s| - |t|..] == t
  }

  /** How a request names a file: by its base name, or by the end of its path. */
  predicate Names(hint: string, path: string) {
    EndsWith(path, "/" + hint) || Basename(path) == hint
  }

  lemma {:induction false} TailKeepsBasename(dir: string, hint: string)
    ensures Basename(dir + "/" + hint) == Basename(hint)
  {
    var path := dir + "/" + hint;
    if hint == [] {
      assert path[|path| - 1] == '/';
    } else {
      var front := hint[..|hint| - 1];
      TailKeepsBasename(dir, front);
      assert path[..|path| - 1] == dir + "/" + front;
    }
  }

  lemma {:induction false} BasenameHasNoSlash(path: string)
    ensures '/' !in Basename(path)
  {
    if path != [] && path[|path| - 1] != '/' {
      BasenameHasNoSlash(path[..|path| - 1]);
    }
  }

  lemma {:induction false} NoSlashIsBasename(hint: string)
    requires '/' !in hint
    ensures Basename(hint) == hint
  {
    if hint != [] {
      assert hint[|hint| - 1] in hint;
      NoSlashIsBasename(hint[..|hint| - 1]);
    }
  }

  /** Every file a request names has the base name of the request. */
  lemma NamedBasename(hint: string, path: string)
    requires Names(hint, path)
    ensures Basename(path) == Basename(hint)
  {
    if EndsWith(path, "/" + hint) {
      var dir := path[..|path| - |hint| - 1];
      assert path == dir + "/" + hint;
      TailKeepsBasename(dir, hint);
    } else {
      BasenameHasNoSlash(path);
      NoSlashIsBasename(hint);
    }
  }

  lemma {:induction false} BasenameSplits(path: string)
    ensures path == Basename(path) || exists dir :: path == dir + "/" + Basename(path)
  {
    if path != [] && path[|path| - 1] != '/' {
      var front := path[..|path| - 1];
      BasenameSplits(front);
      assert path == front + [path[|path| - 1]];
      if dir :| front == dir + "/" + Basename(front) {
        assert path == dir + "/" + Basename(path);
      }
    } else if path != [] {
      assert path == path[..|path| - 1] + "/" + Basename(path);
    }
  }

  /** A request names the files whose path ends with it, after a slash or from the start if it has no slash itself. */
  lemma NamesMeaning(hint: string, path: string)
    ensures Names(hint, path) <==> (path == hint && '/' !in hint) || exists dir :: path == dir + "/" + hint
  {
    if EndsWith(path, "/" + hint) {
      assert path == path[..|path| - |hint| - 1] + "/" + hint;
    }
    if Basename(path) == hint {
      BasenameSplits(path);
      BasenameHasNoSlash(path);
    }
    if path == hint && '/' !in hint {
      NoSlashIsBasename(hint);
    }
    if dir :| path == dir + "/" + hint {
      assert path[|path| - |hint| - 1..] == "/" + hint;
    }
  }

  // ---- Accumulation over instances ----

  /** The largest count any instance of the point has; zero if it has none. */
  function Count(records: seq<Record>, p: Point): nat {
    if records == [] then 0
    else
      var r, before := records[|records| - 1], Count(records[..|records| - 1], p);
      if r.point == p && before < r.count then r.count else before
  }

  predicate Has(records: seq<Record>, p: Point) {
    exists r :: r in records && r.point == p
  }

  /** A point is covered exactly if some instance covered it. */
  lemma {:induction false} CoveredSomewhere(records: seq<Record>, p: Point)
    ensures Count(records, p) > 0 <==> exists r :: r in records && r.point == p && r.count > 0
  {
    if records != [] {
      var front, r := records[..|records| - 1], records[|records| - 1];
      CoveredSomewhere(front, p);
      assert records == front + [r];
    }
  }

  /** The accumulated count is the largest count of the point's instances. */
  lemma {:induction false} CountIsLargest(records: seq<Record>, p: Point)
    ensures forall r :: r in records && r.point == p ==> r.count <= Count(records, p)
    ensures Count(records, p) > 0 ==> exists r :: r in records && r.point == p && r.count == Count(records, p)
  {
    if records != [] {
      var front, r := records[..|records| - 1], records[|records| - 1];
      CountIsLargest(front, p);
      assert records == front + [r];
    }
  }

  /** A dictionary from points to counts, in the order its points were first seen. */
  datatype View = View(keys: seq<Point>, acc: map<Point, nat>)

  ghost predicate Indexed(v: View) {
    && (forall i, j :: 0 <= i < j < |v.keys| ==> v.keys[i] != v.keys[j])
    && (forall p :: p in v.keys <==> p in v.acc)
  }

  /** The accumulated view of the kept points: each with its largest count. */
  ghost predicate Accumulated(v: View, records: seq<Record>, keep: Point -> bool) {
    && Indexed(v)
    && (forall p :: p in v.acc <==> Has(records, p) && keep(p))
    && (forall p :: p in v.acc ==> v.acc[p] == Count(records, p))
  }

  lemma HasGrows(records: seq<Record>, r: Record, p: Point)
    ensures Has(records + [r], p) <==> Has(records, p) || r.point == p
    ensures Count(records + [r], p)
         == if r.point == p && Count(records, p) < r.count then r.count else Count(records, p)
  {
    var more := records + [r];
    assert more[..|more| - 1] == records;
    assert r in more && forall x :: x in records ==> x in more;
  }

  lemma {:induction false} AbsentIsZero(records: seq<Record>, p: Point)
    requires !Has(records, p)
    ensures Count(records, p) == 0
  {
    if records != [] {
      assert records[|records| - 1] in records;
      AbsentIsZero(records[..|records| - 1], p);
    }
  }

  /** The view with the count of one more record. */
  function Raise(v: View, r: Record): View {
    var before := if r.point in v.acc then v.acc[r.point] else 0;
    View(if r.point in v.acc then v.keys else v.keys + [r.point],
         v.acc[r.point := if before > r.count then before else r.count])
  }

  lemma StaysIndexed(v: View, r: Record)
    requires Indexed(v)
    ensures Indexed(Raise(v, r))
  {
  }

  lemma RaisesOne(v: View, records: seq<Record>, keep: Point -> bool, r: Record, p: Point)
    requires Accumulated(v, records, keep) && keep(r.point)
    ensures p in Raise(v, r).acc <==> Has(records + [r], p) && keep(p)
    ensures p in Raise(v, r).acc ==> Raise(v, r).acc[p] == Count(records + [r], p)
  {
    HasGrows(records, r, p);
    if p == r.point && !Has(records, p) {
      AbsentIsZero(records, p);
    }
  }

  lemma SkipsOne(v: View, records: seq<Record>, keep: Point -> bool, r: Record, p: Point)
    requires Accumulated(v, records, keep) && !keep(r.point)
    ensures p in v.acc <==> Has(records + [r], p) && keep(p)
    ensures p in v.acc ==> v.acc[p] == Count(records + [r], p)
  {
    HasGrows(records, r, p);
  }

  lemma AccumulatesOne(v: View, records: seq<Record>, keep: Point -> bool, r: Record)
    requires Accumulated(v, records, keep)
    ensures Accumulated(if keep(r.point) then Raise(v, r) else v, records + [r], keep)
  {
    if keep(r.point) {
      StaysIndexed(v, r);
      forall p {
        RaisesOne(v, records, keep, r, p);
      }
    } else {
      forall p {
        SkipsOne(v, records, keep, r, p);
      }
    }
  }

  // ---- The order of the keys ----

  /** Record `n` is the first of the `i`-th key: all points kept before it are among the keys before. */
  ghost predicate SeenAt(keys: seq<Point>, i: nat, records: seq<Record>, keep: Point -> bool, n: nat)
    requires i < |keys| && n < |records|
  {
    && records[n].point == keys[i]
    && forall m :: 0 <= m < n && keep(records[m].point) ==> records[m].point in keys[..i]
  }

  ghost predicate Seen(keys: seq<Point>, i: nat, records: seq<Record>, keep: Point -> bool)
    requires i < |keys|
  {
    exists n: nat :: n < |records| && SeenAt(keys, i, records, keep, n)
  }

  /** The keys are in the order their points were first seen. */
  ghost predicate InOrder(keys: seq<Point>, records: seq<Record>, keep: Point -> bool) {
    forall i: nat :: i < |keys| ==> Seen(keys, i, records, keep)
  }

  lemma StaysSeen(keys: seq<Point>, more: seq<Point>, i: nat, records: seq<Record>, r: Record, keep: Point -> bool)
    requires i < |keys| && keys <= more && Seen(keys, i, records, keep)
    ensures Seen(more, i, records + [r], keep)
  {
    var n: nat :| n < |records| && SeenAt(keys, i, records, keep, n);
    assert more[..i] == keys[..i];
    assert SeenAt(more, i, records + [r], keep, n);
  }

  lemma NewKeyIsSeen(v: View, records: seq<Record>, keep: Point -> bool, r: Record)
    requires Accumulated(v, records, keep)
    ensures SeenAt(v.keys + [r.point], |v.keys|, records + [r], keep, |records|)
  {
    var keys, more := v.keys + [r.point], records + [r];
    assert keys[..|v.keys|] == v.keys;
    forall m | 0 <= m < |records| && keep(more[m].point)
      ensures more[m].point in keys[..|v.keys|]
    {
      assert records[m] in records && Has(records, records[m].point);
    }
  }

  lemma OrderOneMore(v: View, records: seq<Record>, keep: Point -> bool, r: Record)
    requires Accumulated(v, records, keep) && InOrder(v.keys, records, keep)
    ensures InOrder((if keep(r.point) then Raise(v, r) else v).keys, records + [r], keep)
  {
    var keys := (if keep(r.point) then Raise(v, r) else v).keys;
    forall i: nat | i < |keys|
      ensures Seen(keys, i, records + [r], keep)
    {
      if i < |v.keys| {
        StaysSeen(v.keys, keys, i, records, r, keep);
      } else {
        NewKeyIsSeen(v, records, keep, r);
        assert SeenAt(keys, i, records + [r], keep, |records|);
      }
    }
  }

  method Accumulate(records: seq<Record>, keep: Point -> bool) returns (v: View)
    ensures Accumulated(v, records, keep) && InOrder(v.keys, records, keep)
  {
    v := View([], map[]);
    for i := 0 to |records|
      invariant Accumulated(v, records[..i], keep) && InOrder(v.keys, records[..i], keep)
    {
      AccumulatesOne(v, records[..i], keep, records[i]);
      OrderOneMore(v, records[..i], keep, records[i]);
      TakeOneMore(records, i);
      v := if keep(records[i].point) then Raise(v, records[i]) else v;
    }
    TakeAll(records);
  }
}
