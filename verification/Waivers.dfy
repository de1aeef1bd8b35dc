/** The waivers of a file: reading entries, matching points, and checking every waiver against a database. */
module Waivers {
  import opened Options
  import opened Sequences
  import opened Coverage
  import opened SourceAnchor
  import opened WaiverRules

  class Waiver {
    const rule: Rule
    var hits: nat

    constructor (rule: Rule)
      ensures this.rule == rule && hits == 0
    {
      this.rule := rule;
      hits := 0;
    }
  }

  /** No waiver before the `k`-th covers the point, and the `k`-th does if there is one. */
  predicate FirstToCover(rules: seq<Rule>, disk: Disk, search: (string, string) -> bool, p: Point, k: nat)
    requires k <= |rules|
  {
    && (forall j :: 0 <= j < k ==> !Covers(rules[j], disk, search, p))
    && (k < |rules| ==> Covers(rules[k], disk, search, p))
  }

  /** How many of the points the `k`-th waiver is the first to cover. */
  function Firsts(rules: seq<Rule>, disk: Disk, search: (string, string) -> bool, points: seq<Point>, k: nat): nat
    requires k < |rules|
  {
    if points == [] then 0
    else
      Firsts(rules, disk, search, points[..|points| - 1], k)
      + if FirstToCover(rules, disk, search, points[|points| - 1], k) then 1 else 0
  }

  /** Another waiver before the `k`-th covers the point too. */
  predicate Shadowed(rules: seq<Rule>, disk: Disk, search: (string, string) -> bool, p: Point, k: nat)
    requires k < |rules|
  {
    exists j :: 0 <= j < k && Covers(rules[j], disk, search, p)
  }

  /**
   * A waiver is left without hits if and only if each point it covers is covered by an earlier waiver:
   * besides the waivers that match nothing, also those that only repeat others.
   */
  lemma {:induction false} NoHitsIffShadowed(rules: seq<Rule>, disk: Disk, search: (string, string) -> bool,
                                             points: seq<Point>, k: nat)
    requires k < |rules|
    ensures Firsts(rules, disk, search, points, k) == 0 <==>
      forall p :: p in points && Covers(rules[k], disk, search, p) ==> Shadowed(rules, disk, search, p, k)
  {
    if points != [] {
      var front, last := points[..|points| - 1], points[|points| - 1];
      NoHitsIffShadowed(rules, disk, search, front, k);
      assert points == front + [last] && last in points;
      assert forall p :: p in front ==> p in points;
    }
  }

  /** A second copy of a waiver that covers a point is without hits although it matches. */
  lemma CopyHasNoHits(w: Rule, disk: Disk, search: (string, string) -> bool, p: Point)
    requires Covers(w, disk, search, p)
    ensures Firsts([w, w], disk, search, [p], 1) == 0 && Firsts([w, w], disk, search, [p], 0) == 1
  {
    assert [w, w][0] == w && [p][..0] == [];
    assert Shadowed([w, w], disk, search, p, 1);
  }

  // ---- Lint ----

  datatype Verdict = Stale | Broad(matched: nat, covered: nat) | Fine(matched: nat)

  /** The points of a database a waiver covers, of those listed. */
  function Matched(w: Rule, disk: Disk, search: (string, string) -> bool, points: seq<Point>): seq<Point> {
    if points == [] then []
    else
      var p := points[|points| - 1];
      Matched(w, disk, search, points[..|points| - 1]) + if Covers(w, disk, search, p) then [p] else []
  }

  function CountCovered(records: seq<Record>, points: seq<Point>): nat {
    if points == [] then 0
    else
      CountCovered(records, points[..|points| - 1])
      + if Count(records, points[|points| - 1]) > 0 then 1 else 0
  }

  /** The points of a database a waiver covers, and those of them that are covered by a run. */
  ghost function Points(w: Rule, disk: Disk, search: (string, string) -> bool, records: seq<Record>): set<Point> {
    set r | r in records && Covers(w, disk, search, r.point) :: r.point
  }

  ghost function Hit(records: seq<Record>, points: set<Point>): set<Point> {
    set p | p in points && Count(records, p) > 0
  }

  /** What a waiver covers in a database: nothing, some covered points, or uncovered points only; and how many. */
  ghost predicate Judged(v: Verdict, w: Rule, disk: Disk, search: (string, string) -> bool, records: seq<Record>) {
    var points := Points(w, disk, search, records);
    match v
    case Stale => points == {}
    case Broad(matched, covered) => matched == |points| && covered == |Hit(records, points)| > 0
    case Fine(matched) => matched == |points| > 0 && Hit(records, points) == {}
  }

  function VerdictOf(matched: nat, covered: nat): Verdict {
    if matched == 0 then Stale else if covered > 0 then Broad(matched, covered) else Fine(matched)
  }

  lemma {:induction false} MatchedPoints(w: Rule, disk: Disk, search: (string, string) -> bool, points: seq<Point>,
                                         p: Point)
    ensures p in Matched(w, disk, search, points) <==> p in points && Covers(w, disk, search, p)
  {
    if points != [] {
      var front, last := points[..|points| - 1], points[|points| - 1];
      MatchedPoints(w, disk, search, front, p);
      assert points == front + [last];
    }
  }

  ghost predicate Distinct(points: seq<Point>) {
    forall i, j :: 0 <= i < j < |points| ==> points[i] != points[j]
  }

  function Elements(points: seq<Point>): set<Point> {
    set p | p in points
  }

  lemma {:induction false} DistinctSize(points: seq<Point>)
    requires Distinct(points)
    ensures |Elements(points)| == |points|
  {
    if points != [] {
      var front, last := points[..|points| - 1], points[|points| - 1];
      DistinctSize(front);
      assert Elements(points) == Elements(front) + {last};
    }
  }

  lemma {:induction false} MatchedDistinct(w: Rule, disk: Disk, search: (string, string) -> bool, points: seq<Point>)
    requires Distinct(points)
    ensures Distinct(Matched(w, disk, search, points))
  {
    if points != [] {
      var front, last := points[..|points| - 1], points[|points| - 1];
      MatchedDistinct(w, disk, search, front);
      MatchedPoints(w, disk, search, front, last);
    }
  }

  lemma HitOneMore(records: seq<Record>, before: set<Point>, p: Point)
    requires p !in before
    ensures |Hit(records, before + {p})| == |Hit(records, before)| + if Count(records, p) > 0 then 1 else 0
  {
    assert Hit(records, before + {p}) == Hit(records, before) + if Count(records, p) > 0 then {p} else {};
  }

  lemma {:induction false} CoveredSize(records: seq<Record>, points: seq<Point>)
    requires Distinct(points)
    ensures CountCovered(records, points) == |Hit(records, Elements(points))|
  {
    if points == [] {
      assert Hit(records, Elements(points)) == {};
    } else {
      var front, last := points[..|points| - 1], points[|points| - 1];
      CoveredSize(records, front);
      assert last !in Elements(front);
      HitOneMore(records, Elements(front), last);
      assert Elements(points) == Elements(front) + {last};
    }
  }

  lemma VerdictJudges(w: Rule, disk: Disk, search: (string, string) -> bool, records: seq<Record>, v: View)
    requires Accumulated(v, records, _ => true)
    ensures var matched := Matched(w, disk, search, v.keys);
      Judged(VerdictOf(|matched|, CountCovered(records, matched)), w, disk, search, records)
  {
    var matched := Matched(w, disk, search, v.keys);
    MatchedDistinct(w, disk, search, v.keys);
    DistinctSize(matched);
    CoveredSize(records, matched);
    assert Elements(matched) == Points(w, disk, search, records) by {
      forall p
        ensures p in matched <==> Has(records, p) && Covers(w, disk, search, p)
      {
        MatchedPoints(w, disk, search, v.keys, p);
      }
    }
  }

  /** The count of the verdicts that need attention. */
  function Bad(verdicts: seq<Verdict>): nat {
    if verdicts == [] then 0
    else Bad(verdicts[..|verdicts| - 1]) + if verdicts[|verdicts| - 1].Fine? then 0 else 1
  }

  lemma {:induction false} NoneBad(verdicts: seq<Verdict>)
    ensures Bad(verdicts) == 0 <==> forall v :: v in verdicts ==> v.Fine?
  {
    if verdicts != [] {
      NoneBad(verdicts[..|verdicts| - 1]);
      assert verdicts == verdicts[..|verdicts| - 1] + [verdicts[|verdicts| - 1]];
    }
  }

  /** `ws` are the waivers at the places, which are all places without hits, in order. */
  ghost predicate PicksUnhit(ws: seq<Waiver>, items: seq<Waiver>, places: seq<nat>)
    reads items
  {
    && |ws| == |places|
    && (forall k :: 0 <= k < |ws| ==> places[k] < |items| && ws[k] == items[places[k]])
    && (forall k, l :: 0 <= k < l < |places| ==> places[k] < places[l])
    && (forall i :: 0 <= i < |items| ==> (items[i].hits == 0 <==> i in places))
  }

  lemma PicksOneMore(ws: seq<Waiver>, items: seq<Waiver>, places: seq<nat>, i: nat)
    requires i < |items| && PicksUnhit(ws, items[..i], places)
    ensures items[i].hits != 0 ==> PicksUnhit(ws, items[..i + 1], places)
    ensures items[i].hits == 0 ==> PicksUnhit(ws + [items[i]], items[..i + 1], places + [i])
  {
    assert forall k :: 0 <= k < |places| ==> places[k] in places;
  }

  lemma PicksAreUnhit(ws: seq<Waiver>, items: seq<Waiver>, places: seq<nat>)
    requires PicksUnhit(ws, items, places)
    ensures forall w :: w in ws <==> w in items && w.hits == 0
  {
    forall w | w in ws
      ensures w in items && w.hits == 0
    {
      var k :| 0 <= k < |ws| && ws[k] == w;
      assert places[k] in places;
    }
    forall w | w in items && w.hits == 0
      ensures w in ws
    {
      var i :| 0 <= i < |items| && items[i] == w;
      var k :| 0 <= k < |places| && places[k] == i;
      assert ws[k] == w;
    }
  }

  class Waivers {
    var items: seq<Waiver>
    var errors: seq<Mistake>
    const disk: Disk
    const valid: string -> bool
    const search: (string, string) -> bool

    constructor (disk: Disk, valid: string -> bool, search: (string, string) -> bool)
      ensures Valid() && items == [] && errors == []
      ensures this.disk == disk && this.valid == valid && this.search == search
    {
      items, errors := [], [];
      this.disk, this.valid, this.search := disk, valid, search;
    }

    ghost predicate Valid()
      reads this
    {
      forall i, j :: 0 <= i < j < |items| ==> items[i] != items[j]
    }

    function Rules(): (rules: seq<Rule>)
      reads this
      ensures |rules| == |items| && forall i :: 0 <= i < |items| ==> rules[i] == items[i].rule
    {
      seq(|items|, i requires 0 <= i < |items| reads this => items[i].rule)
    }

    /** Reads one entry: a new waiver at the end, or errors, or both. */
    method AddDict(e: Entry)
      requires Valid()
      modifies this`items, this`errors
      ensures Valid()
      ensures errors == old(errors) + Read(e, valid).1
      ensures Read(e, valid).0.None? ==> items == old(items)
      ensures Read(e, valid).0.Some? ==>
        |items| == |old(items)| + 1 && items[..|old(items)|] == old(items)
        && fresh(items[|old(items)|]) && items[|old(items)|].hits == 0
        && items[|old(items)|].rule == Read(e, valid).0.value
    {
      if Missing(e) != [] {
        errors := errors + Missing(e);
        return;
      }
      var (at, wrong) := Locate(Str(e.at.value), valid);
      if at.None? {
        errors := errors + wrong;
        return;
      }
      var pages := AddTypes(TypeNames(e.types));
      if pages == {} {
        return;
      }
      var w := new Waiver(Rule(e.file.value, at.value, pages, e.sig, e.why.value));
      items := items + [w];
    }

    method AddTypes(names: seq<string>) returns (pages: set<string>)
      modifies this`errors
      ensures pages == Pages(names) && errors == old(errors) + Unknown(names)
    {
      pages := {};
      for i := 0 to |names|
        invariant pages == Pages(names[..i])
        invariant errors == old(errors) + Unknown(names[..i])
      {
        TakeOneMore(names, i);
        PagesOfOneMore(names[..i], names[i]);
        var name := Text.Strip(names[i]);
        if IsType(name) {
          pages := pages + PagesOf(name);
        } else {
          errors := errors + [UnknownType(name)];
        }
      }
      assert names[..|names|] == names;
    }

    /** The waiver that covers a point: the first of them, and only its hits go up. */
    method Match(p: Point) returns (k: Option<nat>)
      requires Valid()
      modifies set w | w in items
      ensures k.Some? ==> k.value < |items|
      ensures FirstToCover(Rules(), disk, search, p, if k.Some? then k.value else |items|)
      ensures forall j :: 0 <= j < |items| ==>
        items[j].hits == old(items[j].hits) + if k == Some(j) then 1 else 0
    {
      for i := 0 to |items|
        invariant forall j :: 0 <= j < i ==> !Covers(Rules()[j], disk, search, p)
        invariant forall j :: 0 <= j < |items| ==> items[j].hits == old(items[j].hits)
      {
        if Covers(items[i].rule, disk, search, p) {
          items[i].hits := items[i].hits + 1;
          return Some(i);
        }
      }
      return None;
    }

    /** Matches every point of a report; each waiver is hit by the points it is the first to cover. */
    method MatchAll(points: seq<Point>)
      requires Valid()
      modifies set w | w in items
      ensures forall j :: 0 <= j < |items| ==>
        items[j].hits == old(items[j].hits) + Firsts(Rules(), disk, search, points, j)
    {
      for i := 0 to |points|
        invariant forall j :: 0 <= j < |items| ==>
          items[j].hits == old(items[j].hits) + Firsts(Rules(), disk, search, points[..i], j)
      {
        var k := Match(points[i]);
        forall j | 0 <= j < |items| {
          FirstsOneMore(Rules(), disk, search, points, i, j);
        }
      }
      assert points[..|points|] == points;
    }

    /** The waivers without hits, in order, each once. */
    method Unhit() returns (ws: seq<Waiver>, ghost places: seq<nat>)
      requires Valid()
      ensures forall w :: w in ws <==> w in items && w.hits == 0
      ensures PicksUnhit(ws, items, places)
    {
      ws, places := [], [];
      for i := 0 to |items|
        invariant PicksUnhit(ws, items[..i], places)
      {
        PicksOneMore(ws, items, places, i);
        if items[i].hits == 0 {
          ws, places := ws + [items[i]], places + [i];
        }
      }
      TakeAll(items);
      PicksAreUnhit(ws, items, places);
    }

    /** Judges every waiver on its own against the accumulated database. */
    method Lint(records: seq<Record>) returns (verdicts: seq<Verdict>, bad: nat)
      ensures |verdicts| == |items|
      ensures forall i :: 0 <= i < |items| ==> Judged(verdicts[i], Rules()[i], disk, search, records)
      ensures bad == Bad(verdicts)
    {
      var v := Accumulate(records, _ => true);
      verdicts, bad := [], 0;
      for i := 0 to |items|
        invariant |verdicts| == i && bad == Bad(verdicts)
        invariant forall k :: 0 <= k < i ==> Judged(verdicts[k], Rules()[k], disk, search, records)
      {
        var verdict := Judge(items[i].rule, records, v);
        assert (verdicts + [verdict])[..i] == verdicts;
        verdicts, bad := verdicts + [verdict], bad + if verdict.Fine? then 0 else 1;
      }
    }

    method Judge(w: Rule, ghost records: seq<Record>, v: View) returns (verdict: Verdict)
      requires Accumulated(v, records, _ => true)
      ensures Judged(verdict, w, disk, search, records)
    {
      var matched, covered := Tally(w, records, v);
      VerdictJudges(w, disk, search, records, v);
      verdict := VerdictOf(matched, covered);
    }

    method Tally(w: Rule, ghost records: seq<Record>, v: View) returns (matched: nat, covered: nat)
      requires Accumulated(v, records, _ => true)
      ensures matched == |Matched(w, disk, search, v.keys)|
      ensures covered == CountCovered(records, Matched(w, disk, search, v.keys))
    {
      matched, covered := 0, 0;
      for i := 0 to |v.keys|
        invariant matched == |Matched(w, disk, search, v.keys[..i])|
        invariant covered == CountCovered(records, Matched(w, disk, search, v.keys[..i]))
      {
        var p := v.keys[i];
        MatchedOneMore(w, disk, search, v.keys[..i], p, records);
        assert v.keys[..i + 1] == v.keys[..i] + [p];
        if Covers(w, disk, search, p) {
          matched := matched + 1;
          if v.acc[p] > 0 {
            covered := covered + 1;
          }
        }
      }
      assert v.keys[..|v.keys|] == v.keys;
    }
  }

  lemma FirstsOneMore(rules: seq<Rule>, disk: Disk, search: (string, string) -> bool, points: seq<Point>,
                      i: nat, k: nat)
    requires i < |points| && k < |rules|
    ensures Firsts(rules, disk, search, points[..i + 1], k)
         == Firsts(rules, disk, search, points[..i], k)
          + if FirstToCover(rules, disk, search, points[i], k) then 1 else 0
  {
    assert points[..i + 1][..i] == points[..i];
  }

  lemma PagesOfOneMore(names: seq<string>, name: string)
    ensures Pages(names + [name]) == Pages(names) + PagesOf(Text.Strip(name))
    ensures !IsType(Text.Strip(name)) ==> PagesOf(Text.Strip(name)) == {}
    ensures Unknown(names + [name])
         == Unknown(names) + if IsType(Text.Strip(name)) then [] else [UnknownType(Text.Strip(name))]
  {
    var more := names + [name];
    assert more[..|more| - 1] == names;
    forall page | page in Pages(names)
      ensures page in Pages(more)
    {
      var k :| 0 <= k < |names| && page in PagesOf(Text.Strip(names[k]));
      assert more[k] == names[k];
    }
    forall page | page in PagesOf(Text.Strip(name))
      ensures page in Pages(more)
    {
      assert more[|names|] == name;
    }
  }

  lemma MatchedOneMore(w: Rule, disk: Disk, search: (string, string) -> bool, points: seq<Point>, p: Point,
                       records: seq<Record>)
    ensures var before := Matched(w, disk, search, points);
      var after := Matched(w, disk, search, points + [p]);
      && after == before + (if Covers(w, disk, search, p) then [p] else [])
      && CountCovered(records, after)
         == CountCovered(records, before)
          + (if Covers(w, disk, search, p) && Count(records, p) > 0 then 1 else 0)
  {
    var before := Matched(w, disk, search, points);
    assert (points + [p])[..|points|] == points;
    assert (before + [p])[..|before|] == before;
    assert before + [] == before;
  }
}
