/** Which filelists a walk enters, and what it emits in all: cyclic include graphs included. */
module FilelistReach {
  import opened Filelist

  /** The resolved entries a filelist lists itself, in order. */
  function OwnOf(d: Disk, p: Path, lines: seq<string>): seq<string> {
    if lines == [] then [] else OwnLine(d, p, lines[0]) + OwnOf(d, p, lines[1..])
  }

  function OwnLine(d: Disk, p: Path, line: string): seq<string> {
    var e := Classify(d, p, line);
    if e.Emit? then [e.line] else []
  }

  function Own(d: Disk, p: Path): seq<string> {
    if p in d.lists then OwnOf(d, p, d.lists[p]) else []
  }

  /** All entries that some filelists list themselves. */
  function Total(d: Disk, ps: seq<Path>): multiset<string> {
    if ps == [] then multiset{} else multiset(Own(d, ps[0])) + Total(d, ps[1..])
  }

  lemma {:induction false} TotalAppends(d: Disk, a: seq<Path>, b: seq<Path>)
    ensures Total(d, a + b) == Total(d, a) + Total(d, b)
  {
    if a == [] {
      assert a + b == b;
    } else {
      assert (a + b)[1..] == a[1..] + b;
      TotalAppends(d, a[1..], b);
    }
  }

  ghost predicate Distinct(ps: seq<Path>) {
    forall i, j :: 0 <= i < j < |ps| ==> ps[i] != ps[j]
  }

  /** A walk enters each filelist once, none that was seen before, and leaves no include open. */
  ghost predicate Complete(d: Disk, seen: set<Path>, w: Walk) {
    && Distinct(w.entered)
    && (forall p :: p in w.entered ==> p !in seen)
    && (forall a, b :: a in w.entered && Includes(d, a, b) ==> b in seen || b in w.entered)
  }

  lemma CompleteAppends(d: Disk, seen: set<Path>, v: Walk, w: Walk)
    requires Complete(d, seen, v) && Complete(d, seen + Elements(v.entered), w)
    ensures Complete(d, seen, Walk(v.out + w.out, v.entered + w.entered))
  {
    var both := v.entered + w.entered;
    forall i, j | 0 <= i < j < |both|
      ensures both[i] != both[j]
    {
      if i < |v.entered| <= j {
        assert both[j] in w.entered && both[i] in Elements(v.entered);
      }
    }
  }

  lemma {:induction false} FlatIsComplete(d: Disk, p: Path, seen: set<Path>)
    ensures Complete(d, seen, Flat(d, p, seen))
    ensures p in seen || p in Flat(d, p, seen).entered
    decreases d.lists.Keys - seen, 0
  {
    if p !in seen && p in d.lists {
      LinesAreComplete(d, p, d.lists[p], seen + {p});
    }
  }

  lemma {:induction false} LineIsComplete(d: Disk, p: Path, line: string, seen: set<Path>)
    ensures Complete(d, seen, FlatLine(d, p, line, seen))
    ensures forall t :: Classify(d, p, line) == Nested(t) && t in d.lists ==>
      t in seen || t in FlatLine(d, p, line, seen).entered
    decreases d.lists.Keys - seen, 1
  {
    match Classify(d, p, line)
    case Nested(t) => FlatIsComplete(d, t, seen);
    case _ =>
  }

  lemma {:induction false} LinesAreComplete(d: Disk, p: Path, lines: seq<string>, seen: set<Path>)
    ensures Complete(d, seen, FlatLines(d, p, lines, seen))
    ensures forall line, t :: line in lines && Classify(d, p, line) == Nested(t) && t in d.lists ==>
      t in seen || t in FlatLines(d, p, lines, seen).entered
    decreases d.lists.Keys - seen, |lines| + 1
  {
    if lines != [] {
      var w := FlatLine(d, p, lines[0], seen);
      var rest := FlatLines(d, p, lines[1..], seen + Elements(w.entered));
      LineIsComplete(d, p, lines[0], seen);
      LinesAreComplete(d, p, lines[1..], seen + Elements(w.entered));
      CompleteAppends(d, seen, w, rest);
    }
  }

  /** A walk emits exactly what the filelists it enters list themselves. */
  lemma {:induction false} FlatEmits(d: Disk, p: Path, seen: set<Path>)
    ensures multiset(Flat(d, p, seen).out) == Total(d, Flat(d, p, seen).entered)
    decreases d.lists.Keys - seen, 0
  {
    if p !in seen && p in d.lists {
      LinesEmit(d, p, d.lists[p], seen + {p});
      var w := FlatLines(d, p, d.lists[p], seen + {p});
      assert ([p] + w.entered)[1..] == w.entered;
    }
  }

  lemma {:induction false} LineEmits(d: Disk, p: Path, line: string, seen: set<Path>)
    ensures multiset(FlatLine(d, p, line, seen).out) ==
      multiset(OwnLine(d, p, line)) + Total(d, FlatLine(d, p, line, seen).entered)
    decreases d.lists.Keys - seen, 1
  {
    match Classify(d, p, line)
    case Nested(t) =>
      if t in d.lists {
        FlatEmits(d, t, seen);
      }
    case _ =>
  }

  /** What the first line and the lines after it add to a walk. */
  lemma LinesSplit(d: Disk, p: Path, lines: seq<string>, seen: set<Path>)
    requires lines != []
    ensures var w := FlatLine(d, p, lines[0], seen);
      var rest := FlatLines(d, p, lines[1..], seen + Elements(w.entered));
      && multiset(FlatLines(d, p, lines, seen).out) == multiset(w.out) + multiset(rest.out)
      && Total(d, FlatLines(d, p, lines, seen).entered) == Total(d, w.entered) + Total(d, rest.entered)
    ensures multiset(OwnOf(d, p, lines)) == multiset(OwnLine(d, p, lines[0])) + multiset(OwnOf(d, p, lines[1..]))
  {
    var w := FlatLine(d, p, lines[0], seen);
    var rest := FlatLines(d, p, lines[1..], seen + Elements(w.entered));
    TotalAppends(d, w.entered, rest.entered);
  }

  lemma {:induction false} LinesEmit(d: Disk, p: Path, lines: seq<string>, seen: set<Path>)
    ensures multiset(FlatLines(d, p, lines, seen).out) ==
      multiset(OwnOf(d, p, lines)) + Total(d, FlatLines(d, p, lines, seen).entered)
    decreases d.lists.Keys - seen, |lines| + 1
  {
    if lines != [] {
      LineEmits(d, p, lines[0], seen);
      LinesEmit(d, p, lines[1..], seen + Elements(FlatLine(d, p, lines[0], seen).entered));
      LinesSplit(d, p, lines, seen);
    }
  }

  lemma ChainGrows(d: Disk, p: Path, t: Path, v: Path)
    requires Includes(d, p, t) && Reachable(d, t, v)
    ensures Reachable(d, p, v)
  {
    var chain :| IsChain(d, chain) && chain[0] == t && chain[|chain| - 1] == v;
    var longer := [p] + chain;
    forall i | 0 < i < |longer|
      ensures Includes(d, longer[i - 1], longer[i])
    {
      if i > 1 {
        assert longer[i - 1] == chain[i - 2] && longer[i] == chain[i - 1];
      }
    }
    assert IsChain(d, longer);
  }

  lemma {:induction false} EnteredIsReachable(d: Disk, p: Path, seen: set<Path>)
    ensures forall v :: v in Flat(d, p, seen).entered ==> Reachable(d, p, v)
    decreases d.lists.Keys - seen, 0
  {
    assert IsChain(d, [p]);
    if p !in seen && p in d.lists {
      LinesReach(d, p, d.lists[p], seen + {p});
    }
  }

  lemma {:induction false} LinesReach(d: Disk, p: Path, lines: seq<string>, seen: set<Path>)
    requires p in d.lists && forall line :: line in lines ==> line in d.lists[p]
    ensures forall v :: v in FlatLines(d, p, lines, seen).entered ==> Reachable(d, p, v)
    decreases d.lists.Keys - seen, |lines| + 1
  {
    if lines != [] {
      var w := FlatLine(d, p, lines[0], seen);
      match Classify(d, p, lines[0]) {
        case Nested(t) =>
          if t in d.lists {
            EnteredIsReachable(d, t, seen);
            forall v | v in w.entered
              ensures Reachable(d, p, v)
            {
              ChainGrows(d, p, t, v);
            }
          }
        case _ =>
      }
      LinesReach(d, p, lines[1..], seen + Elements(w.entered));
    }
  }

  lemma {:induction false} ChainStaysInside(d: Disk, w: Walk, chain: seq<Path>, i: nat)
    requires Complete(d, {}, w) && IsChain(d, chain) && i < |chain|
    requires chain[0] in w.entered
    ensures chain[i] in w.entered
  {
    if i > 0 {
      ChainStaysInside(d, w, chain, i - 1);
      assert Includes(d, chain[i - 1], chain[i]);
    }
  }

  /**
   * For any include graph, cyclic or not: flattening enters exactly the filelists reachable from
   * the root, each once, and emits exactly what those filelists list themselves, as a multiset.
   */
  lemma FlattenIsReachable(d: Disk, root: Path)
    ensures var w := Flat(d, root, {});
      && Distinct(w.entered)
      && (forall p :: p in w.entered <==> Reachable(d, root, p))
      && multiset(w.out) == Total(d, w.entered)
  {
    FlatIsComplete(d, root, {});
    FlatEmits(d, root, {});
    EnteredIsReachable(d, root, {});
    var w := Flat(d, root, {});
    forall p | Reachable(d, root, p)
      ensures p in w.entered
    {
      var chain :| IsChain(d, chain) && chain[0] == root && chain[|chain| - 1] == p;
      ChainStaysInside(d, w, chain, |chain| - 1);
    }
  }
}
