/** For acyclic include graphs, flattening then deduplicating is inlining every include in place. */
module FilelistInline {
  import opened Filelist

  /** Every include leads to a filelist of smaller rank: there is no include cycle. */
  ghost predicate Acyclic(d: Disk, rank: Path -> nat) {
    forall a, b :: Includes(d, a, b) ==> rank(b) < rank(a)
  }

  /** The naive expansion: a nested filelist is inlined again each time it is named. */
  ghost function Inline(d: Disk, rank: Path -> nat, p: Path): seq<string>
    requires Acyclic(d, rank) && p in d.lists
    decreases rank(p), |d.lists[p]| + 1
  {
    InlineLines(d, rank, p, d.lists[p])
  }

  ghost function InlineLine(d: Disk, rank: Path -> nat, p: Path, line: string): seq<string>
    requires Acyclic(d, rank) && p in d.lists && line in d.lists[p]
    decreases rank(p), 0
  {
    match Classify(d, p, line)
    case Nothing => []
    case Emit(x) => [x]
    case Nested(t) =>
      if t in d.lists then
        assert Includes(d, p, t);
        Inline(d, rank, t)
      else []
  }

  ghost function InlineLines(d: Disk, rank: Path -> nat, p: Path, lines: seq<string>): seq<string>
    requires Acyclic(d, rank) && p in d.lists && (forall line :: line in lines ==> line in d.lists[p])
    decreases rank(p), |lines|
  {
    if lines == [] then [] else InlineLine(d, rank, p, lines[0]) + InlineLines(d, rank, p, lines[1..])
  }

  /** The file and +incdir+ entries among some lines, in order. */
  function Keyed(lines: seq<string>): seq<string> {
    if lines == [] then []
    else (if Passthrough(lines[0]) then [] else [lines[0]]) + Keyed(lines[1..])
  }

  function Keys(lines: seq<string>): set<string> {
    set x | x in lines && !Passthrough(x)
  }

  lemma {:induction false} KeyedAppends(a: seq<string>, b: seq<string>)
    ensures Keyed(a + b) == Keyed(a) + Keyed(b)
  {
    if a == [] {
      assert a + b == b;
    } else {
      assert (a + b)[1..] == a[1..] + b;
      KeyedAppends(a[1..], b);
    }
  }

  /** The first occurrences of the file and +incdir+ entries not in `seen`. */
  function Firsts(lines: seq<string>, seen: set<string>): seq<string> {
    Dedup(Keyed(lines), seen)
  }

  lemma KeysOfCons(a: seq<string>, seen: set<string>)
    requires a != []
    ensures SeeLine(a[0], seen) + Keys(a[1..]) == seen + Keys(a)
  {
    assert a == [a[0]] + a[1..];
  }

  /** What the first line adds. */
  function FirstOf(line: string, seen: set<string>): seq<string> {
    if Passthrough(line) || line in seen then [] else [line]
  }

  lemma FirstsOfCons(a: seq<string>, seen: set<string>)
    requires a != []
    ensures Firsts(a, seen) == FirstOf(a[0], seen) + Firsts(a[1..], SeeLine(a[0], seen))
  {
    if !Passthrough(a[0]) {
      assert Keyed(a)[0] == a[0] && Keyed(a)[1..] == Keyed(a[1..]);
      if a[0] in seen {
        assert seen + {a[0]} == seen;
      }
    } else {
      assert Keyed(a) == Keyed(a[1..]);
    }
  }

  lemma FirstsOfLonger(a: seq<string>, b: seq<string>, seen: set<string>)
    requires a != []
    ensures Firsts(a + b, seen) == FirstOf(a[0], seen) + Firsts(a[1..] + b, SeeLine(a[0], seen))
  {
    assert (a + b)[0] == a[0] && (a + b)[1..] == a[1..] + b;
    FirstsOfCons(a + b, seen);
  }

  lemma Regroup(x: seq<string>, y: seq<string>, z: seq<string>)
    ensures x + (y + z) == (x + y) + z
  {
  }

  lemma {:induction false} FirstsAppend(a: seq<string>, b: seq<string>, seen: set<string>)
    ensures Firsts(a + b, seen) == Firsts(a, seen) + Firsts(b, seen + Keys(a))
  {
    if a == [] {
      assert a + b == b && seen + Keys(a) == seen;
    } else {
      var after := SeeLine(a[0], seen);
      FirstsOfLonger(a, b, seen);
      FirstsOfCons(a, seen);
      KeysOfCons(a, seen);
      FirstsAppend(a[1..], b, after);
      Regroup(FirstOf(a[0], seen), Firsts(a[1..], after), Firsts(b, after + Keys(a[1..])));
    }
  }

  lemma {:induction false} FirstsAllSeen(a: seq<string>, seen: set<string>)
    requires Keys(a) <= seen
    ensures Firsts(a, seen) == []
  {
    if a != [] {
      FirstsOfCons(a, seen);
      assert Keys(a[1..]) <= Keys(a);
      if !Passthrough(a[0]) {
        assert a[0] in Keys(a);
        assert seen + {a[0]} == seen;
      }
      FirstsAllSeen(a[1..], seen);
    }
  }

  lemma {:induction false} KeyedOfDedup(lines: seq<string>, seen: set<string>)
    ensures Keyed(Dedup(lines, seen)) == Firsts(lines, seen)
  {
    if lines != [] {
      FirstsOfCons(lines, seen);
      if Passthrough(lines[0]) || lines[0] in seen {
        KeyedOfDedup(lines[1..], seen);
        assert lines[0] in seen ==> seen + {lines[0]} == seen;
      } else {
        KeyedOfDedup(lines[1..], seen + {lines[0]});
      }
    }
  }

  /**
   * `a` and `b` are interchangeable once the entries `seen` have been emitted: they add the same
   * first occurrences, and leave the same entries emitted.
   */
  ghost predicate Same(a: seq<string>, b: seq<string>, seen: set<string>) {
    Firsts(a, seen) == Firsts(b, seen) && seen + Keys(a) == seen + Keys(b)
  }

  lemma SameAppends(a: seq<string>, b: seq<string>, c: seq<string>, e: seq<string>, seen: set<string>)
    requires Same(a, b, seen) && Same(c, e, seen + Keys(a))
    ensures Same(a + c, b + e, seen)
  {
    FirstsAppend(a, c, seen);
    FirstsAppend(b, e, seen);
    assert seen + Keys(a + c) == seen + Keys(a) + Keys(c);
    assert seen + Keys(b + e) == seen + Keys(b) + Keys(e);
  }

  /** Every filelist of the walk below rank `bound` has all its inlined entries among `seen`. */
  ghost predicate Covered(d: Disk, rank: Path -> nat, ps: set<Path>, bound: nat, seen: set<string>)
    requires Acyclic(d, rank)
  {
    forall v :: v in ps && v in d.lists && rank(v) < bound ==> Keys(Inline(d, rank, v)) <= seen
  }

  ghost predicate CoveredAll(d: Disk, rank: Path -> nat, ps: seq<Path>, seen: set<string>)
    requires Acyclic(d, rank)
  {
    forall v :: v in ps && v in d.lists ==> Keys(Inline(d, rank, v)) <= seen
  }

  lemma CoveredAppends(d: Disk, rank: Path -> nat, ps: seq<Path>, qs: seq<Path>, a: seq<string>, b: seq<string>)
    requires Acyclic(d, rank)
    requires CoveredAll(d, rank, ps, Keys(a)) && CoveredAll(d, rank, qs, Keys(b))
    ensures CoveredAll(d, rank, ps + qs, Keys(a + b))
  {
    assert Keys(a) <= Keys(a + b) && Keys(b) <= Keys(a + b);
  }

  lemma {:induction false} FlatIsInline(d: Disk, rank: Path -> nat, p: Path, ps: set<Path>, seen: set<string>)
    requires Acyclic(d, rank) && p in d.lists
    requires Covered(d, rank, ps, rank(p) + 1, seen)
    ensures Same(Flat(d, p, ps).out, Inline(d, rank, p), seen)
    ensures CoveredAll(d, rank, Flat(d, p, ps).entered, Keys(Inline(d, rank, p)))
    decreases d.lists.Keys - ps, 0
  {
    if p in ps {
      FirstsAllSeen(Inline(d, rank, p), seen);
    } else {
      LinesAreInline(d, rank, p, d.lists[p], ps + {p}, seen);
    }
  }

  lemma {:induction false} LineIsInline(d: Disk, rank: Path -> nat, p: Path, line: string, ps: set<Path>,
                                        seen: set<string>)
    requires Acyclic(d, rank) && p in d.lists && line in d.lists[p]
    requires Covered(d, rank, ps, rank(p), seen)
    ensures Same(FlatLine(d, p, line, ps).out, InlineLine(d, rank, p, line), seen)
    ensures CoveredAll(d, rank, FlatLine(d, p, line, ps).entered, Keys(InlineLine(d, rank, p, line)))
    decreases d.lists.Keys - ps, 1
  {
    match Classify(d, p, line)
    case Nested(t) =>
      if t in d.lists {
        assert Includes(d, p, t);
        FlatIsInline(d, rank, t, ps, seen);
      }
    case _ =>
  }

  lemma {:induction false} LinesAreInline(d: Disk, rank: Path -> nat, p: Path, lines: seq<string>, ps: set<Path>,
                                          seen: set<string>)
    requires Acyclic(d, rank) && p in d.lists && (forall line :: line in lines ==> line in d.lists[p])
    requires Covered(d, rank, ps, rank(p), seen)
    ensures Same(FlatLines(d, p, lines, ps).out, InlineLines(d, rank, p, lines), seen)
    ensures CoveredAll(d, rank, FlatLines(d, p, lines, ps).entered, Keys(InlineLines(d, rank, p, lines)))
    decreases d.lists.Keys - ps, |lines| + 1
  {
    if lines != [] {
      var w, one := FlatLine(d, p, lines[0], ps), InlineLine(d, rank, p, lines[0]);
      LineIsInline(d, rank, p, lines[0], ps, seen);
      var ps' := ps + Elements(w.entered);
      LinesAreInline(d, rank, p, lines[1..], ps', seen + Keys(w.out));
      var rest, more := FlatLines(d, p, lines[1..], ps'), InlineLines(d, rank, p, lines[1..]);
      SameAppends(w.out, one, rest.out, more, seen);
      CoveredAppends(d, rank, w.entered, rest.entered, one, more);
    }
  }

  /**
   * For an acyclic include graph, the file and +incdir+ entries of the deduplicated flattening are
   * the first occurrences in the naive expansion, in the same order.
   */
  lemma FlattenIsInline(d: Disk, rank: Path -> nat, root: Path)
    requires Acyclic(d, rank) && root in d.lists
    ensures Keyed(Dedup(Flat(d, root, {}).out, {})) == Dedup(Keyed(Inline(d, rank, root)), {})
  {
    FlatIsInline(d, rank, root, {}, {});
    KeyedOfDedup(Flat(d, root, {}).out, {});
  }
}
