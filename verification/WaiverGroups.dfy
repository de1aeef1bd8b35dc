/** The points of a requested location, accumulated and grouped by the base of their names. */
module WaiverGroups {
  import opened Options
  import opened Coverage
  import opened WaiverRules
  import opened SignalNames
  import opened SuggestGlobs

  datatype Request = Request(hint: string, line: nat, kind: Option<string>)

  predicate At(q: Request, p: Point) {
    && Names(q.hint, p.path)
    && p.line == q.line
    && (q.kind.Some? && q.kind.value != "" ==> PageOf(q.kind.value) == Some(p.page))
  }

  /** The points of a location: in the file and line, and on the page of the type if one is asked for. */
  lemma AtMeaning(q: Request, p: Point)
    ensures q.kind.None? || q.kind.value == "" ==> (At(q, p) <==> Names(q.hint, p.path) && p.line == q.line)
    ensures q.kind.Some? && q.kind.value in {"line", "branch", "toggle"} ==>
      (At(q, p) <==> Names(q.hint, p.path) && p.line == q.line && p.page == "v_" + q.kind.value)
    ensures q.kind.Some? && q.kind.value !in {"", "line", "branch", "toggle"} ==> !At(q, p)
  {
    if q.kind.Some? {
      TypesArePages(q.kind.value);
    }
  }

  /** A point of the location that no instance covered. */
  predicate Hole(records: seq<Record>, q: Request, p: Point) {
    Has(records, p) && At(q, p) && Count(records, p) == 0
  }

  /** Record `n` is the first whose point is a hole. */
  ghost predicate FirstHoleAt(records: seq<Record>, q: Request, h: Point, n: nat) {
    && n < |records| && records[n].point == h && Hole(records, q, h)
    && forall m :: 0 <= m < n ==> !Hole(records, q, records[m].point)
  }

  ghost predicate FirstHole(records: seq<Record>, q: Request, h: Point) {
    exists n: nat :: FirstHoleAt(records, q, h, n)
  }

  // ---- Grouping by base ----

  datatype GroupKey = GroupKey(page: string, path: string, base: string)

  function KeyOf(p: Point): GroupKey {
    GroupKey(p.page, p.path, BaseOf(p.sig))
  }

  datatype Grouping = Grouping(keys: seq<GroupKey>, groups: map<GroupKey, seq<Member>>)

  /** Every group has a key, once. */
  ghost predicate AllKeys(g: Grouping) {
    && (forall k :: k in g.groups <==> k in g.keys)
    && (forall i, j :: 0 <= i < j < |g.keys| ==> g.keys[i] != g.keys[j])
  }

  /** The members of a group are points of these, each with a name of its own. */
  ghost predicate OncePerName(g: Grouping, points: seq<Point>, line: nat) {
    forall k :: k in g.groups ==>
      Unique(g.groups[k]) && forall m :: m in g.groups[k] ==> Point(k.page, k.path, line, m.sig) in points
  }

  /** Every member comes from a point of the view, with the point's count. */
  ghost predicate FromPoints(g: Grouping, v: View, line: nat) {
    forall k, m :: k in g.groups && m in g.groups[k] ==>
      var p := Point(k.page, k.path, line, m.sig); BaseOf(m.sig) == k.base && p in v.acc && v.acc[p] == m.count
  }

  predicate IsIn(g: Grouping, p: Point, count: nat) {
    KeyOf(p) in g.groups && Member(p.sig, count) in g.groups[KeyOf(p)]
  }

  ghost predicate HasPoints(g: Grouping, v: View, points: seq<Point>) {
    forall p :: p in points ==> p in v.acc && IsIn(g, p, v.acc[p])
  }

  function Insert(g: Grouping, k: GroupKey, m: Member): Grouping {
    Grouping(if k in g.groups then g.keys else g.keys + [k],
             g.groups[k := (if k in g.groups then g.groups[k] else []) + [m]])
  }

  lemma InsertKeys(g: Grouping, k: GroupKey, m: Member)
    requires AllKeys(g)
    ensures AllKeys(Insert(g, k, m))
  {
  }

  lemma InsertOnce(g: Grouping, points: seq<Point>, p: Point, count: nat)
    requires OncePerName(g, points, p.line) && p !in points
    ensures OncePerName(Insert(g, KeyOf(p), Member(p.sig, count)), points + [p], p.line)
  {
    var key, m := KeyOf(p), Member(p.sig, count);
    var h := Insert(g, key, m);
    var before := if key in g.groups then g.groups[key] else [];
    assert h.groups[key] == before + [m];
    assert forall x :: x in before ==> x.sig != p.sig;
    assert forall i :: 0 <= i < |before| ==> before[i] in before;
    forall k | k in h.groups
      ensures Unique(h.groups[k])
      ensures forall x :: x in h.groups[k] ==> Point(k.page, k.path, p.line, x.sig) in points + [p]
    {
    }
  }

  lemma InsertFrom(g: Grouping, v: View, p: Point)
    requires FromPoints(g, v, p.line) && p in v.acc
    ensures FromPoints(Insert(g, KeyOf(p), Member(p.sig, v.acc[p])), v, p.line)
  {
    var key := KeyOf(p);
    var h := Insert(g, key, Member(p.sig, v.acc[p]));
    forall k, m | k in h.groups && m in h.groups[k]
      ensures var x := Point(k.page, k.path, p.line, m.sig);
        BaseOf(m.sig) == k.base && x in v.acc && v.acc[x] == m.count
    {
      if k in g.groups && m in g.groups[k] {
      } else {
        assert k == key && m == Member(p.sig, v.acc[p]);
      }
    }
  }

  lemma InsertHas(g: Grouping, v: View, points: seq<Point>, p: Point)
    requires HasPoints(g, v, points) && p in v.acc
    ensures HasPoints(Insert(g, KeyOf(p), Member(p.sig, v.acc[p])), v, points + [p])
  {
    var h := Insert(g, KeyOf(p), Member(p.sig, v.acc[p]));
    forall x | x in points + [p]
      ensures x in v.acc && IsIn(h, x, v.acc[x])
    {
      if x in points {
        assert IsIn(g, x, v.acc[x]);
      }
    }
  }

  method GroupByBase(v: View, line: nat) returns (g: Grouping)
    requires Indexed(v) && forall p :: p in v.acc ==> p.line == line
    ensures AllKeys(g) && FromPoints(g, v, line) && HasPoints(g, v, v.keys) && OncePerName(g, v.keys, line)
  {
    g := Grouping([], map[]);
    for i := 0 to |v.keys|
      invariant AllKeys(g) && FromPoints(g, v, line) && HasPoints(g, v, v.keys[..i])
      invariant OncePerName(g, v.keys[..i], line)
    {
      var p := v.keys[i];
      var m := Member(p.sig, v.acc[p]);
      InsertKeys(g, KeyOf(p), m);
      InsertFrom(g, v, p);
      InsertOnce(g, v.keys[..i], p, v.acc[p]);
      InsertHas(g, v, v.keys[..i], p);
      assert v.keys[..i + 1] == v.keys[..i] + [p];
      g := Insert(g, KeyOf(p), m);
    }
    assert v.keys[..|v.keys|] == v.keys;
  }

  // ---- The uncovered points of the location ----

  /** The first `n` points of the view, divided into uncovered and covered ones. */
  ghost predicate Divided(v: View, n: nat, live: seq<Point>, covered: set<Point>)
    requires Indexed(v) && n <= |v.keys|
  {
    && (forall p :: p in live <==> p in v.keys[..n] && v.acc[p] == 0)
    && (forall p :: p in covered <==> p in v.keys[..n] && v.acc[p] > 0)
    && |live| + |covered| == n
  }

  lemma OneMoreKey(v: View, n: nat, x: Point)
    requires Indexed(v) && n < |v.keys|
    ensures x in v.keys[..n + 1] <==> x in v.keys[..n] || x == v.keys[n]
    ensures v.keys[n] !in v.keys[..n]
  {
    assert v.keys[..n + 1] == v.keys[..n] + [v.keys[n]];
  }

  lemma DividesLive(v: View, n: nat, live: seq<Point>, covered: set<Point>, p: Point)
    requires Indexed(v) && n < |v.keys| && Divided(v, n, live, covered) && p == v.keys[n] && v.acc[p] == 0
    ensures Divided(v, n + 1, live + [p], covered)
  {
    forall x {
      OneMoreKey(v, n, x);
    }
  }

  lemma DividesCovered(v: View, n: nat, live: seq<Point>, covered: set<Point>, p: Point)
    requires Indexed(v) && n < |v.keys| && Divided(v, n, live, covered) && p == v.keys[n] && v.acc[p] > 0
    ensures Divided(v, n + 1, live, covered + {p})
  {
    forall x {
      OneMoreKey(v, n, x);
    }
  }

  /** The first of the view's points that is uncovered. */
  ghost predicate FirstLive(v: View, p: Point)
    requires Indexed(v)
  {
    exists i: nat :: i < |v.keys| && v.keys[i] == p && v.acc[p] == 0 && CoveredBefore(v, i)
  }

  ghost predicate CoveredBefore(v: View, n: nat)
    requires Indexed(v) && n <= |v.keys|
  {
    forall j :: 0 <= j < n ==> v.acc[v.keys[j]] > 0
  }

  /** Where the first `n` points start with an uncovered one, it is the view's first; else all of them are covered. */
  ghost predicate StartsLive(v: View, n: nat, live: seq<Point>)
    requires Indexed(v) && n <= |v.keys|
  {
    if live == [] then CoveredBefore(v, n) else FirstLive(v, live[0])
  }

  lemma StartsOneMore(v: View, n: nat, live: seq<Point>)
    requires Indexed(v) && n < |v.keys| && StartsLive(v, n, live)
    ensures StartsLive(v, n + 1, live + if v.acc[v.keys[n]] == 0 then [v.keys[n]] else [])
  {
    if live == [] && v.acc[v.keys[n]] == 0 {
      assert FirstLive(v, v.keys[n]);
    }
  }

  method Live(v: View) returns (live: seq<Point>, skipped: nat)
    requires Indexed(v)
    ensures live != [] ==> FirstLive(v, live[0])
    ensures forall p :: p in live <==> p in v.acc && v.acc[p] == 0
    ensures skipped == |set p | p in v.acc && v.acc[p] > 0|
  {
    ghost var covered;
    live, covered := Uncovered(v);
    assert covered == set p | p in v.acc && v.acc[p] > 0;
    skipped := |v.keys| - |live|;
  }

  method Uncovered(v: View) returns (live: seq<Point>, ghost covered: set<Point>)
    requires Indexed(v)
    ensures Divided(v, |v.keys|, live, covered) && StartsLive(v, |v.keys|, live)
  {
    live, covered := [], {};
    for i := 0 to |v.keys|
      invariant Divided(v, i, live, covered) && StartsLive(v, i, live)
    {
      var p := v.keys[i];
      StartsOneMore(v, i, live);
      if v.acc[p] == 0 {
        DividesLive(v, i, live, covered, p);
        live := live + [p];
      } else {
        DividesCovered(v, i, live, covered, p);
        assert live + [] == live;
        covered := covered + {p};
      }
    }
  }

  lemma FirstLiveIsFirstHole(records: seq<Record>, q: Request, v: View, p: Point, keep: Point -> bool)
    requires forall x :: keep(x) <==> At(q, x)
    requires Accumulated(v, records, keep) && InOrder(v.keys, records, keep) && FirstLive(v, p)
    ensures FirstHole(records, q, p)
  {
    var i: nat :| i < |v.keys| && v.keys[i] == p && v.acc[p] == 0 && CoveredBefore(v, i);
    assert Seen(v.keys, i, records, keep);
    var n: nat :| n < |records| && SeenAt(v.keys, i, records, keep, n);
    forall m | 0 <= m < n
      ensures !Hole(records, q, records[m].point)
    {
      var x := records[m].point;
      if At(q, x) {
        assert x in v.keys[..i];
        assert v.acc[x] > 0;
      }
    }
    assert FirstHoleAt(records, q, p, n);
  }

  // ---- Groups and holes ----

  /** The groups' uncovered members are the holes of the location, each in the group of its base. */
  ghost predicate Gathered(records: seq<Record>, q: Request, g: Grouping) {
    && AllKeys(g)
    && (forall k :: k in g.groups ==> OfBase(g.groups[k], k.base) && Unique(g.groups[k]))
    && (forall p :: Hole(records, q, p) <==> p.line == q.line && IsIn(g, p, 0))
  }

  lemma GroupsAreHoles(records: seq<Record>, q: Request, v: View, g: Grouping)
    requires Accumulated(v, records, p => At(q, p))
    requires AllKeys(g) && FromPoints(g, v, q.line) && HasPoints(g, v, v.keys) && OncePerName(g, v.keys, q.line)
    ensures Gathered(records, q, g)
  {
    forall p
      ensures Hole(records, q, p) <==> p.line == q.line && IsIn(g, p, 0)
    {
      if Hole(records, q, p) {
        assert p in v.acc && v.acc[p] == 0 && p in v.keys;
      }
      if p.line == q.line && IsIn(g, p, 0) {
        var m := Member(p.sig, 0);
        assert m in g.groups[KeyOf(p)];
        assert p == Point(p.page, p.path, q.line, m.sig);
      }
    }
  }

  /** The hole that an uncovered member of a group is. */
  lemma MemberIsHole(records: seq<Record>, q: Request, g: Grouping, k: GroupKey, sig: string)
    requires Gathered(records, q, g) && k in g.groups && Open(g.groups[k], sig)
    ensures var h := Point(k.page, k.path, q.line, sig); Hole(records, q, h) && KeyOf(h) == k
  {
    assert BaseOf(Member(sig, 0).sig) == k.base;
    var h := Point(k.page, k.path, q.line, sig);
    assert IsIn(g, h, 0);
  }
}
