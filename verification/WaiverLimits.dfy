/** Which names and databases suggestions are exact for, and what goes wrong with the others. */
module WaiverLimits {
  import opened Options
  import opened Glob
  import opened BitGlobs
  import opened CombineBits
  import opened Coverage
  import opened WaiverRules
  import opened SignalNames
  import opened WaiverEntries
  import opened WaiverGroups
  import opened WaiverExact
  import opened WaiverSuggest
  import opened WaiverWorkflow

  // ---- Names ----

  ghost predicate MatchesOnlyItself(sig: string) {
    forall s: string :: Fnmatch(s, GlobLiteral(sig)) <==> s == sig
  }

  /** Escaping makes a glob for exactly one name if and only if the name has no `*` and no `?`. */
  lemma ExactIffPlain(sig: string)
    ensures MatchesOnlyItself(sig) <==> Plain(sig)
  {
    if Plain(sig) {
      forall s: string {
        PlainGlob(sig, s);
      }
    } else {
      var i: nat :| i < |sig| && (sig[i] == '*' || sig[i] == '?');
      WildcardMatchesX(sig, i);
      assert Crossed(sig, i) != sig && Fnmatch(Crossed(sig, i), GlobLiteral(sig));
    }
  }

  lemma OneName(base: string, bit: nat, s: string)
    ensures NamesSome(base, [bit], s) <==> s == Name(base, bit)
  {
    assert bit in [bit];
  }

  lemma OneBitOnly(base: string, bit: nat, globs: seq<string>, fronts: seq<string>, sig: string)
    requires Plain(base) && Folds(globs, base, [bit], fronts)
    ensures MatchesAny(globs, sig) <==> sig == Name(base, bit)
  {
    PlainFolds(globs, base, [bit], fronts, sig);
    OneName(base, bit, sig);
  }

  /** Globs folded from the value of an index find the name it came from if and only if the index is canonical. */
  lemma FoundIffCanonical(base: string, digits: string, globs: seq<string>, fronts: seq<string>)
    requires digits != "" && AllDigits(digits) && Plain(base)
    requires Folds(globs, base, [IntOf(digits)], fronts)
    ensures MatchesAny(globs, base + "[" + digits + "]") <==> Canonical(base + "[" + digits + "]")
  {
    CanonicalNames(base, digits);
    OneBitOnly(base, IntOf(digits), globs, fronts, base + "[" + digits + "]");
  }

  // ---- Databases of two points ----

  lemma TwoCounts(a: Record, b: Record, p: Point)
    requires a.point != b.point
    ensures Count([a, b], p) == if p == a.point then a.count else if p == b.point then b.count else 0
    ensures Has([a, b], p) <==> p == a.point || p == b.point
  {
    assert [] + [a] == [a] && [a] + [b] == [a, b];
    HasGrows([], a, p);
    HasGrows([a], b, p);
  }

  /** Where an uncovered and a covered point share a file and a line, what the hole's spelling catches is flagged. */
  lemma HoleTakesTwin(hole: Point, covered: Point, q: Request, at: Locator, c: Context)
    requires At(q, hole) && hole.page in ALL_PAGES && Basename(hole.path) != ""
    requires covered.page == hole.page && Basename(covered.path) == Basename(hole.path)
    requires Locates(at, c.disk, c.search, covered.path, covered.line)
    requires Catches(hole.sig, covered.sig)
    ensures Takes(hole, covered, at, c)
  {
    PagesForKnown(hole.page);
  }

  /** Where an uncovered point takes the one covered point beside it, a covered point is taken. */
  lemma TwinIsTaken(hole: Point, covered: Point, count: nat, q: Request, at: Locator, c: Context, records: seq<Record>)
    requires records == [Record(hole, 0), Record(covered, count)] && hole != covered && count > 0 && At(q, hole)
    ensures Hole(records, q, hole)
    ensures Takes(hole, covered, at, c) ==> TakesCovered(records, q, at, c)
  {
    TwoCounts(Record(hole, 0), Record(covered, count), hole);
    TwoCounts(Record(hole, 0), Record(covered, count), covered);
    if Takes(hole, covered, at, c) {
      assert Taken(records, q, at, c, covered);
    }
  }

  /** Without files to look in, entries go by the line's number. */
  lemma WithoutFiles(records: seq<Record>, q: Request, at: Locator)
    requires LooksAt(records, map[], q, at)
    ensures at == Line(q.line)
  {
  }

  // ---- A leading zero ----

  const PADDED := Point("v_toggle", "f.v", 7, "a[01]")
  const CANONICAL := Point("v_toggle", "f.v", 7, "a[1]")

  lemma PaddedIsSpelled()
    ensures Spelled("a[01]") == "a[1]"
  {
    SplitsAtLastIndex("a", "01");
    assert "a" + "[" + "01" + "]" == "a[01]";
    var zero := "01"[..1];
    assert zero[..0] == [] && zero[0] == '0';
    assert IntOf(zero) == 0 && IntOf("01") == 1;
    assert Dec(1) == "1" && Name("a", 1) == "a[1]";
  }

  lemma PaddedCatches()
    ensures Catches("a[01]", "a[1]") && !Catches("a[01]", "a[01]")
  {
    PaddedIsSpelled();
    PlainCatches("a[01]", "a[1]");
    PlainCatches("a[01]", "a[01]");
  }

  /** The one hole of the database is the point with the leading zero, and its spelling takes the other point only. */
  lemma PaddedTakes(q: Request, at: Locator, c: Context, records: seq<Record>)
    requires q == Request("f.v", 7, None) && records == [Record(PADDED, 0), Record(CANONICAL, 5)]
    requires (exists p :: Hole(records, q, p)) ==> LooksAt(records, c.disk, q, at)
    ensures forall h :: Hole(records, q, h) <==> h == PADDED
    ensures Takes(PADDED, CANONICAL, at, c) && !Takes(PADDED, PADDED, at, c)
  {
    NoSlashIsBasename("f.v");
    forall p {
      TwoCounts(Record(PADDED, 0), Record(CANONICAL, 5), p);
    }
    assert Hole(records, q, PADDED);
    PaddedCatches();
    HoleTakesTwin(PADDED, CANONICAL, q, at, c);
  }

  /** An uncovered `a[01]` gets an entry for `a[1]`: the hole stays, the covered point is waived, and lint flags it. */
  method LeadingZeroIsLost(c: Context) returns (out: seq<Suggestion>, errors: seq<Mistake>, bad: nat)
    requires GivesReason(c)
    ensures !Waived(out, c, PADDED) && Waived(out, c, CANONICAL) && bad > 0
  {
    var records, q := [Record(PADDED, 0), Record(CANONICAL, 5)], Request("f.v", 7, None);
    var skipped, literal, verdicts;
    ghost var at, whose;
    out, skipped, literal, at, whose := SuggestEntries(records, c.disk, q);
    PaddedTakes(q, at, c, records);
    errors, verdicts, bad := LoadAndLint(out, records, c);
    TwoCounts(Record(PADDED, 0), Record(CANONICAL, 5), CANONICAL);
    assert WaivesWhatHolesTake(out, records, q, at, c);
    assert Taken(records, q, at, c, CANONICAL);
    assert TakesCovered(records, q, at, c);
    TakesCoveredIsFlagged(out, records, q, at, c, errors, verdicts);
  }

  lemma OneCount(a: Record, p: Point)
    ensures Has([a], p) <==> p == a.point
    ensures Count([a], a.point) == a.count
  {
    assert [] + [a] == [a];
    HasGrows([], a, p);
    HasGrows([], a, a.point);
  }

  /** Alone in its database, the point with the leading zero is a hole that takes no point. */
  lemma PaddedFindsNothing(q: Request, at: Locator, c: Context, records: seq<Record>)
    requires q == Request("f.v", 7, None) && records == [Record(PADDED, 0)]
    ensures AllLegible(records, q) && !AllFind(records, q, at, c)
  {
    NoSlashIsBasename("f.v");
    PagesForKnown(PADDED.page);
    forall p {
      OneCount(Record(PADDED, 0), p);
    }
    assert Hole(records, q, PADDED);
    PaddedCatches();
    assert !Finds(records, q, PADDED, at, c);
  }

  /** Where only `a[01]` exists, its entry is read and waives nothing, and lint flags it as stale. */
  method LeadingZeroIsStale(c: Context) returns (errors: seq<Mistake>, bad: nat)
    requires GivesReason(c)
    ensures errors == [] && bad > 0
  {
    var records, q := [Record(PADDED, 0)], Request("f.v", 7, None);
    ghost var at;
    errors, bad, at := SuggestLoadLint(records, q, c);
    PaddedFindsNothing(q, at, c, records);
  }

  // ---- A shared base name ----

  const HERE := Point("v_line", "r/a" + "/" + "f", 1, "x")
  const THERE := Point("v_line", "r/b" + "/" + "f", 1, "x")

  lemma NamedF(dir: string)
    ensures Basename(dir + "/" + "f") == "f"
  {
    NoSlashIsBasename("f");
    TailKeepsBasename(dir, "f");
  }

  lemma SharedName()
    ensures Basename(HERE.path) == "f" == Basename(THERE.path)
  {
    NamedF("r/a");
    NamedF("r/b");
  }

  lemma HereIsNamed()
    ensures Names("a/f", HERE.path) && HERE != THERE
  {
    assert HERE.path[1..] == "/" + "a/f";
    assert HERE.path[2] == 'a' && THERE.path[2] == 'b';
  }

  /** The two points differ, the request is for the first, and they share line, page, name and file name. */
  predicate Twins(q: Request, hole: Point, covered: Point) {
    && hole != covered && At(q, hole)
    && hole.page in ALL_PAGES && Basename(hole.path) != ""
    && covered.line == q.line && covered.page == hole.page && Basename(covered.path) == Basename(hole.path)
    && covered.sig == hole.sig == Spelled(hole.sig)
  }

  lemma SharedNameIsTwin()
    ensures Twins(Request("a/f", 1, None), HERE, THERE)
  {
    SharedName();
    HereIsNamed();
  }

  lemma TwinsTake(q: Request, at: Locator, c: Context, hole: Point, covered: Point, count: nat, records: seq<Record>)
    requires records == [Record(hole, 0), Record(covered, count)] && count > 0 && c.disk == map[]
    requires Twins(q, hole, covered) && ((exists p :: Hole(records, q, p)) ==> LooksAt(records, c.disk, q, at))
    ensures TakesCovered(records, q, at, c)
  {
    TwinIsTaken(hole, covered, count, q, at, c, records);
    WithoutFiles(records, q, at);
    MatchesItself(hole.sig);
    HoleTakesTwin(hole, covered, q, at, c);
  }

  /** Without sources to anchor in, a hole in one file waives the same point of another file of the same name. */
  method SharedNameIsBroad(c: Context) returns (errors: seq<Mistake>, bad: nat)
    requires GivesReason(c) && c.disk == map[]
    ensures bad > 0
  {
    var records, q := [Record(HERE, 0), Record(THERE, 3)], Request("a/f", 1, None);
    ghost var at;
    errors, bad, at := SuggestLoadLint(records, q, c);
    SharedNameIsTwin();
    TwinsTake(q, at, c, HERE, THERE, 3, records);
  }
}
