/** What suggested entries waive, and exactly when that is the holes of the location and nothing else. */
module WaiverExact {
  import opened Glob
  import opened Coverage
  import opened SourceAnchor
  import opened WaiverRules
  import opened SignalNames
  import opened SuggestGlobs
  import opened WaiverEntries
  import opened WaiverGroups

  // ---- What holes take ----

  /** An entry made for the hole is read, as it has a file name and a known type. */
  predicate Legible(h: Point) {
    Basename(h.path) != "" && PagesFor(h.page) != {}
  }

  /** The point is in a place the entries for the hole look at: file name, page and line. */
  predicate InPlace(h: Point, p: Point, at: Locator, c: Context) {
    && Basename(h.path) != "" && Basename(h.path) == Basename(p.path)
    && p.page in PagesFor(h.page)
    && Locates(at, c.disk, c.search, p.path, p.line)
  }

  /** The hole takes the point: it is in place and the spelling of the hole's name catches its name. */
  predicate Takes(h: Point, p: Point, at: Locator, c: Context) {
    InPlace(h, p, at, c) && (h.sig == "" || Catches(h.sig, p.sig))
  }

  /** Holes the tool writes one entry for. */
  predicate Alike(h: Point, x: Point) {
    KeyOf(h) == KeyOf(x) && SameGlob(h.sig, x.sig)
  }

  ghost predicate TakenAlike(records: seq<Record>, q: Request, h: Point, at: Locator, c: Context, p: Point) {
    exists x :: Hole(records, q, x) && Alike(h, x) && Takes(x, p, at, c)
  }

  /** The entry is for the hole and those written with it: it is read if it can be, and waives what they take. */
  ghost predicate EntryFor(e: Suggestion, records: seq<Record>, q: Request, h: Point, at: Locator, c: Context) {
    && Hole(records, q, h)
    && (Clean(e, c) <==> Legible(h))
    && (forall p :: Waives(e, c, p) <==> TakenAlike(records, q, h, at, c, p))
  }

  ghost predicate ForHole(e: Suggestion, records: seq<Record>, q: Request, at: Locator, c: Context) {
    exists h :: EntryFor(e, records, q, h, at, c)
  }

  ghost predicate HasEntry(out: seq<Suggestion>, records: seq<Record>, q: Request, h: Point, at: Locator, c: Context) {
    exists e :: e in out && EntryFor(e, records, q, h, at, c)
  }

  // The triggers keep the prover from going from an entry to its hole and on to that hole's entry without end.

  ghost predicate EachForHole(out: seq<Suggestion>, records: seq<Record>, q: Request, at: Locator, c: Context) {
    forall e {:trigger ForHole(e, records, q, at, c)} :: e in out ==> ForHole(e, records, q, at, c)
  }

  ghost predicate EachHoleHas(out: seq<Suggestion>, records: seq<Record>, q: Request, at: Locator, c: Context) {
    forall h {:trigger HasEntry(out, records, q, h, at, c)} ::
      Hole(records, q, h) ==> HasEntry(out, records, q, h, at, c)
  }

  /** Entries for the holes of a location, for each of them and for nothing else. */
  ghost predicate Suggested(out: seq<Suggestion>, records: seq<Record>, q: Request, at: Locator, c: Context) {
    EachForHole(out, records, q, at, c) && EachHoleHas(out, records, q, at, c)
  }

  ghost predicate AlikeOne(whose: seq<Point>, h: Point) {
    exists i :: 0 <= i < |whose| && Alike(whose[i], h)
  }

  /** Holes of which no two are written with one entry, and with which every hole is written. */
  ghost predicate OnePerKind(whose: seq<Point>, records: seq<Record>, q: Request) {
    && (forall i :: 0 <= i < |whose| ==> Hole(records, q, whose[i]))
    && (forall i, j :: 0 <= i < j < |whose| ==> !Alike(whose[i], whose[j]))
    && (forall h {:trigger AlikeOne(whose, h)} :: Hole(records, q, h) ==> AlikeOne(whose, h))
  }

  ghost predicate EntriesFor(out: seq<Suggestion>, whose: seq<Point>, records: seq<Record>, q: Request, at: Locator,
                             c: Context) {
    |out| == |whose| && forall i :: 0 <= i < |out| ==> EntryFor(out[i], records, q, whose[i], at, c)
  }

  lemma EntryForAlike(e: Suggestion, records: seq<Record>, q: Request, at: Locator, c: Context, h: Point, x: Point)
    requires EntryFor(e, records, q, h, at, c) && Hole(records, q, x) && Alike(h, x)
    ensures EntryFor(e, records, q, x, at, c)
  {
    forall p
      ensures TakenAlike(records, q, h, at, c, p) <==> TakenAlike(records, q, x, at, c, p)
    {
      assert forall y :: Alike(h, y) <==> Alike(x, y);
    }
  }

  /** One entry for each set of holes that are written with one is an entry for every hole. */
  lemma OnePerKindIsSuggested(out: seq<Suggestion>, whose: seq<Point>, records: seq<Record>, q: Request, at: Locator,
                           c: Context)
    requires OnePerKind(whose, records, q) && EntriesFor(out, whose, records, q, at, c)
    ensures Suggested(out, records, q, at, c)
  {
    forall e | e in out
      ensures ForHole(e, records, q, at, c)
    {
      var i :| 0 <= i < |out| && out[i] == e;
      assert EntryFor(out[i], records, q, whose[i], at, c);
    }
    forall h | Hole(records, q, h)
      ensures HasEntry(out, records, q, h, at, c)
    {
      assert AlikeOne(whose, h);
      var i :| 0 <= i < |whose| && Alike(whose[i], h);
      EntryForAlike(out[i], records, q, at, c, whose[i], h);
    }
  }

  // ---- What the entries waive together ----

  ghost predicate Waived(out: seq<Suggestion>, c: Context, p: Point) {
    exists e :: e in out && Waives(e, c, p)
  }

  ghost predicate Taken(records: seq<Record>, q: Request, at: Locator, c: Context, p: Point) {
    exists h :: Hole(records, q, h) && Takes(h, p, at, c)
  }

  /** What an entry waives is taken by some hole. */
  lemma WaivedIsTaken(out: seq<Suggestion>, records: seq<Record>, q: Request, at: Locator, c: Context, p: Point)
    requires EachForHole(out, records, q, at, c) && Waived(out, c, p)
    ensures Taken(records, q, at, c, p)
  {
    var e :| e in out && Waives(e, c, p);
    assert ForHole(e, records, q, at, c);
    var h :| EntryFor(e, records, q, h, at, c);
    assert TakenAlike(records, q, h, at, c, p);
  }

  lemma EntryWaivesTaken(e: Suggestion, records: seq<Record>, q: Request, at: Locator, c: Context, h: Point, p: Point)
    requires EntryFor(e, records, q, h, at, c) && Takes(h, p, at, c)
    ensures Waives(e, c, p)
  {
    assert Alike(h, h);
    assert TakenAlike(records, q, h, at, c, p);
  }

  /** What a hole takes is waived by its entry. */
  lemma TakenIsWaived(out: seq<Suggestion>, records: seq<Record>, q: Request, at: Locator, c: Context, h: Point,
                      p: Point)
    requires EachHoleHas(out, records, q, at, c) && Hole(records, q, h) && Takes(h, p, at, c)
    ensures Waived(out, c, p)
  {
    assert HasEntry(out, records, q, h, at, c);
    var e :| e in out && EntryFor(e, records, q, h, at, c);
    EntryWaivesTaken(e, records, q, at, c, h, p);
  }

  /** The entries waive exactly what the holes take. */
  ghost predicate WaivesWhatHolesTake(out: seq<Suggestion>, records: seq<Record>, q: Request, at: Locator, c: Context) {
    forall p :: Waived(out, c, p) <==> Taken(records, q, at, c, p)
  }

  lemma OnlyTakenIsWaived(out: seq<Suggestion>, records: seq<Record>, q: Request, at: Locator, c: Context)
    requires EachForHole(out, records, q, at, c)
    ensures forall p :: Waived(out, c, p) ==> Taken(records, q, at, c, p)
  {
    forall p | Waived(out, c, p)
      ensures Taken(records, q, at, c, p)
    {
      WaivedIsTaken(out, records, q, at, c, p);
    }
  }

  lemma AllTakenIsWaived(out: seq<Suggestion>, records: seq<Record>, q: Request, at: Locator, c: Context)
    requires EachHoleHas(out, records, q, at, c)
    ensures forall p :: Taken(records, q, at, c, p) ==> Waived(out, c, p)
  {
    forall p | Taken(records, q, at, c, p)
      ensures Waived(out, c, p)
    {
      var h :| Hole(records, q, h) && Takes(h, p, at, c);
      TakenIsWaived(out, records, q, at, c, h, p);
    }
  }

  lemma SuggestedWaive(out: seq<Suggestion>, records: seq<Record>, q: Request, at: Locator, c: Context)
    requires Suggested(out, records, q, at, c)
    ensures WaivesWhatHolesTake(out, records, q, at, c)
  {
    OnlyTakenIsWaived(out, records, q, at, c);
    AllTakenIsWaived(out, records, q, at, c);
  }

  // ---- Perfect suggestions ----

  /** A point that could be in a file of the database. */
  predicate InFiles(records: seq<Record>, p: Point) {
    exists r :: r in records && r.point.path == p.path
  }

  /** Whatever points the files may have, the entry waives holes of one base only, and at least one. */
  ghost predicate Proper(e: Suggestion, records: seq<Record>, q: Request, c: Context) {
    && (exists p :: Hole(records, q, p) && Waives(e, c, p))
    && exists base :: OfOneBase(e, records, q, c, base)
  }

  ghost predicate OfOneBase(e: Suggestion, records: seq<Record>, q: Request, c: Context, base: string) {
    forall p :: InFiles(records, p) && Waives(e, c, p) ==> Hole(records, q, p) && BaseOf(p.sig) == base
  }

  /** Proper entries that waive every hole. */
  ghost predicate Perfect(out: seq<Suggestion>, records: seq<Record>, q: Request, c: Context) {
    && (forall e :: e in out ==> Proper(e, records, q, c))
    && (forall p :: Hole(records, q, p) ==> Waived(out, c, p))
  }

  /** Every hole is on a page of a known type, in a file with a name, and has a name the globs can hold. */
  ghost predicate Writable(records: seq<Record>, q: Request) {
    forall h :: Hole(records, q, h) ==> Basename(h.path) != "" && h.page in ALL_PAGES && Foldable(h.sig)
  }

  /** The locator finds the holes, and every place it finds in a file of the same name has the same holes. */
  ghost predicate Placed(records: seq<Record>, q: Request, at: Locator, c: Context) {
    && (forall h :: Hole(records, q, h) ==> Locates(at, c.disk, c.search, h.path, h.line))
    && (forall h, p :: Hole(records, q, h) && SamePlace(records, h, p, at, c) ==> Hole(records, q, p))
  }

  predicate SamePlace(records: seq<Record>, h: Point, p: Point, at: Locator, c: Context) {
    && InFiles(records, p) && Basename(p.path) == Basename(h.path)
    && p.page == h.page && p.sig == h.sig
    && Locates(at, c.disk, c.search, p.path, p.line)
  }

  // ---- Writable holes in their places are waived perfectly ----

  lemma FoldableTakes(h: Point, p: Point, at: Locator, c: Context)
    requires Foldable(h.sig) && h.page in ALL_PAGES
    ensures Takes(h, p, at, c) <==>
      && Basename(h.path) != "" && Basename(p.path) == Basename(h.path)
      && p.page == h.page && p.sig == h.sig
      && Locates(at, c.disk, c.search, p.path, p.line)
  {
    PagesForKnown(h.page);
    SpelledIsCanonical(h.sig);
    PlainCatches(h.sig, p.sig);
  }

  lemma HoleTakesItself(records: seq<Record>, q: Request, at: Locator, c: Context, h: Point)
    requires Writable(records, q) && Placed(records, q, at, c) && Hole(records, q, h)
    ensures Takes(h, h, at, c)
  {
    FoldableTakes(h, h, at, c);
  }

  lemma TakenIsHole(records: seq<Record>, q: Request, at: Locator, c: Context, h: Point, p: Point)
    requires Writable(records, q) && Placed(records, q, at, c)
    requires Hole(records, q, h) && Takes(h, p, at, c) && InFiles(records, p)
    ensures Hole(records, q, p) && p.sig == h.sig
  {
    FoldableTakes(h, p, at, c);
    assert SamePlace(records, h, p, at, c);
  }

  lemma EntryIsProper(records: seq<Record>, q: Request, at: Locator, c: Context, e: Suggestion, h: Point)
    requires Writable(records, q) && Placed(records, q, at, c) && EntryFor(e, records, q, h, at, c)
    ensures Proper(e, records, q, c)
  {
    HoleTakesItself(records, q, at, c, h);
    EntryWaivesTaken(e, records, q, at, c, h, h);
    forall p | InFiles(records, p) && Waives(e, c, p)
      ensures Hole(records, q, p) && BaseOf(p.sig) == BaseOf(h.sig)
    {
      assert TakenAlike(records, q, h, at, c, p);
      var x :| Hole(records, q, x) && Alike(h, x) && Takes(x, p, at, c);
      TakenIsHole(records, q, at, c, x, p);
    }
    assert OfOneBase(e, records, q, c, BaseOf(h.sig));
  }

  lemma WritableIsProper(out: seq<Suggestion>, records: seq<Record>, q: Request, at: Locator, c: Context)
    requires Writable(records, q) && Placed(records, q, at, c) && EachForHole(out, records, q, at, c)
    ensures forall e :: e in out ==> Proper(e, records, q, c)
  {
    forall e | e in out
      ensures Proper(e, records, q, c)
    {
      assert ForHole(e, records, q, at, c);
    var h :| EntryFor(e, records, q, h, at, c);
      EntryIsProper(records, q, at, c, e, h);
    }
  }

  lemma WritableIsWaived(out: seq<Suggestion>, records: seq<Record>, q: Request, at: Locator, c: Context)
    requires Writable(records, q) && Placed(records, q, at, c) && EachHoleHas(out, records, q, at, c)
    ensures forall p :: Hole(records, q, p) ==> Waived(out, c, p)
  {
    forall p | Hole(records, q, p)
      ensures Waived(out, c, p)
    {
      HoleTakesItself(records, q, at, c, p);
      TakenIsWaived(out, records, q, at, c, p, p);
    }
  }

  // ---- Only such holes are ----

  /** A hole that is taken is in a located place, on a known page, in a file with a name. */
  lemma TakenHole(records: seq<Record>, q: Request, at: Locator, c: Context, h: Point) returns (t: Point)
    requires Taken(records, q, at, c, h)
    ensures Settled(h, at, c) && Hole(records, q, t) && Takes(t, h, at, c)
  {
    t :| Hole(records, q, t) && Takes(t, h, at, c);
    PagesForKnown(t.page);
  }

  predicate Settled(h: Point, at: Locator, c: Context) {
    Basename(h.path) != "" && h.page in ALL_PAGES && Locates(at, c.disk, c.search, h.path, h.line)
  }

  /** In the files of the database the hole takes holes of one base only. */
  ghost predicate TakesOneBase(records: seq<Record>, q: Request, at: Locator, c: Context, h: Point, base: string) {
    forall p :: InFiles(records, p) && Takes(h, p, at, c) ==> Hole(records, q, p) && BaseOf(p.sig) == base
  }

  /** The hole's own place, with another name. */
  function Renamed(h: Point, s: string): Point {
    Point(h.page, h.path, h.line, s)
  }

  lemma CaughtOfBase(records: seq<Record>, q: Request, at: Locator, c: Context, h: Point, s: string, base: string)
    requires Hole(records, q, h) && Settled(h, at, c) && TakesOneBase(records, q, at, c, h, base)
    requires h.sig == "" || Catches(h.sig, s)
    ensures BaseOf(s) == base
  {
    PagesForKnown(h.page);
    assert InFiles(records, Renamed(h, s)) && Takes(h, Renamed(h, s), at, c);
  }

  lemma OtherBases()
    ensures BaseOf("x") != BaseOf("y")
  {
  }

  lemma OneBaseIsPlain(records: seq<Record>, q: Request, at: Locator, c: Context, h: Point, base: string)
    requires Hole(records, q, h) && Settled(h, at, c) && TakesOneBase(records, q, at, c, h, base)
    ensures h.sig != "" && Plain(h.sig)
  {
    if h.sig == "" {
      OtherBases();
      CaughtOfBase(records, q, at, c, h, "x", base);
      CaughtOfBase(records, q, at, c, h, "y", base);
    } else if !Plain(h.sig) {
      SpelledIsCanonical(h.sig);
      MatchesItself(Spelled(h.sig));
      CaughtOfBase(records, q, at, c, h, Spelled(h.sig), base);
      var other := WildcardCatchesAnother(h.sig);
      CaughtOfBase(records, q, at, c, h, other, base);
    }
  }

  ghost predicate EachOneBase(out: seq<Suggestion>, records: seq<Record>, q: Request, c: Context) {
    forall e :: e in out ==> exists base :: OfOneBase(e, records, q, c, base)
  }

  lemma ProperIsOneBase(out: seq<Suggestion>, records: seq<Record>, q: Request, c: Context)
    requires forall e :: e in out ==> Proper(e, records, q, c)
    ensures EachOneBase(out, records, q, c)
  {
    forall e | e in out
      ensures exists base :: OfOneBase(e, records, q, c, base)
    {
      assert Proper(e, records, q, c);
    }
  }

  lemma HoleOfOneBase(out: seq<Suggestion>, records: seq<Record>, q: Request, at: Locator, c: Context, h: Point)
    returns (base: string)
    requires EachHoleHas(out, records, q, at, c) && EachOneBase(out, records, q, c) && Hole(records, q, h)
    ensures TakesOneBase(records, q, at, c, h, base)
  {
    assert HasEntry(out, records, q, h, at, c);
    var e :| e in out && EntryFor(e, records, q, h, at, c);
    base :| OfOneBase(e, records, q, c, base);
    forall p | InFiles(records, p) && Takes(h, p, at, c)
      ensures Hole(records, q, p) && BaseOf(p.sig) == base
    {
      EntryWaivesTaken(e, records, q, at, c, h, p);
    }
  }

  lemma TakenHoleIsPlain(out: seq<Suggestion>, records: seq<Record>, q: Request, at: Locator, c: Context, h: Point)
    requires EachHoleHas(out, records, q, at, c) && EachOneBase(out, records, q, c)
    requires Hole(records, q, h) && Taken(records, q, at, c, h)
    ensures h.sig != "" && Plain(h.sig)
  {
    var t := TakenHole(records, q, at, c, h);
    var base := HoleOfOneBase(out, records, q, at, c, h);
    OneBaseIsPlain(records, q, at, c, h, base);
  }

  /** All holes are taken. */
  ghost predicate AllTaken(records: seq<Record>, q: Request, at: Locator, c: Context) {
    forall h :: Hole(records, q, h) ==> Taken(records, q, at, c, h)
  }

  lemma TakenIsFoldable(out: seq<Suggestion>, records: seq<Record>, q: Request, at: Locator, c: Context, h: Point,
                        t: Point)
    requires EachHoleHas(out, records, q, at, c) && EachOneBase(out, records, q, c)
    requires Hole(records, q, h) && Taken(records, q, at, c, h) && Hole(records, q, t) && Taken(records, q, at, c, t)
    requires Takes(t, h, at, c)
    ensures Foldable(h.sig)
  {
    TakenHoleIsPlain(out, records, q, at, c, h);
    TakenHoleIsPlain(out, records, q, at, c, t);
    SpelledPlain(t.sig);
    PlainCatches(t.sig, h.sig);
    SpelledIsCanonical(t.sig);
  }

  lemma TakenIsPlaced(out: seq<Suggestion>, records: seq<Record>, q: Request, at: Locator, c: Context, h: Point,
                      p: Point)
    requires EachHoleHas(out, records, q, at, c) && EachOneBase(out, records, q, c) && Hole(records, q, h)
    requires h.page in ALL_PAGES && Basename(h.path) != "" && Foldable(h.sig) && SamePlace(records, h, p, at, c)
    ensures Hole(records, q, p)
  {
    var base := HoleOfOneBase(out, records, q, at, c, h);
    FoldableTakes(h, p, at, c);
  }

  lemma TakenIsSettled(out: seq<Suggestion>, records: seq<Record>, q: Request, at: Locator, c: Context, h: Point)
    requires EachHoleHas(out, records, q, at, c) && EachOneBase(out, records, q, c) && AllTaken(records, q, at, c)
    requires Hole(records, q, h)
    ensures Settled(h, at, c) && Foldable(h.sig)
  {
    var t := TakenHole(records, q, at, c, h);
    TakenIsFoldable(out, records, q, at, c, h, t);
  }

  /** Every hole is settled where the locator finds it, and has a name the globs can hold. */
  ghost predicate AllSettled(records: seq<Record>, q: Request, at: Locator, c: Context) {
    forall h :: Hole(records, q, h) ==> Settled(h, at, c) && Foldable(h.sig)
  }

  lemma AllTakenIsSettled(out: seq<Suggestion>, records: seq<Record>, q: Request, at: Locator, c: Context)
    requires EachHoleHas(out, records, q, at, c) && EachOneBase(out, records, q, c) && AllTaken(records, q, at, c)
    ensures AllSettled(records, q, at, c)
  {
    forall h | Hole(records, q, h)
      ensures Settled(h, at, c) && Foldable(h.sig)
    {
      TakenIsSettled(out, records, q, at, c, h);
    }
  }

  lemma SettledIsWritable(out: seq<Suggestion>, records: seq<Record>, q: Request, at: Locator, c: Context)
    requires EachHoleHas(out, records, q, at, c) && EachOneBase(out, records, q, c) && AllSettled(records, q, at, c)
    ensures Writable(records, q) && Placed(records, q, at, c)
  {
    forall h, p | Hole(records, q, h) && SamePlace(records, h, p, at, c)
      ensures Hole(records, q, p)
    {
      TakenIsPlaced(out, records, q, at, c, h, p);
    }
  }

  /**
   * The entries are perfect if and only if every hole is on a known page, in a file with a name, with a
   * nonempty name without wildcards and leading zeros, and the locator's places have the same holes.
   */
  lemma PerfectIffWritable(out: seq<Suggestion>, records: seq<Record>, q: Request, at: Locator, c: Context)
    requires Suggested(out, records, q, at, c)
    ensures Perfect(out, records, q, c) <==> Writable(records, q) && Placed(records, q, at, c)
  {
    if Writable(records, q) && Placed(records, q, at, c) {
      WritableIsProper(out, records, q, at, c);
      WritableIsWaived(out, records, q, at, c);
    }
    if Perfect(out, records, q, c) {
      ProperIsOneBase(out, records, q, c);
      OnlyTakenIsWaived(out, records, q, at, c);
      AllTakenIsSettled(out, records, q, at, c);
      SettledIsWritable(out, records, q, at, c);
    }
  }

  // ---- One file of the name ----

  predicate Named(r: Record, q: Request) {
    Basename(r.point.path) == Basename(q.hint)
  }

  /** The database has one file of the requested name. */
  ghost predicate OneFile(records: seq<Record>, q: Request) {
    forall r, s :: r in records && s in records && Named(r, q) && Named(s, q) ==> r.point.path == s.point.path
  }

  /** One file of the requested name, and writable holes: what makes every suggestion perfect. */
  ghost predicate Suitable(records: seq<Record>, q: Request) {
    OneFile(records, q) && Writable(records, q)
  }

  /** The locator is the line's number, or a text that is on that line of the file and on no other. */
  predicate AtLine(disk: Disk, path: string, line: nat, at: Locator) {
    match at
    case Line(n) => n == line
    case Literal(text) => text != "" && path in disk && OnlyOn(disk[path], line, text)
    case Regex(_) => false
  }

  /** With one file of the name, the locator finds the requested line of it and nothing else. */
  lemma OneFileIsPlaced(records: seq<Record>, q: Request, at: Locator, c: Context, first: Point)
    requires OneFile(records, q) && Hole(records, q, first) && AtLine(c.disk, first.path, q.line, at)
    ensures Placed(records, q, at, c)
  {
    NamedBasename(q.hint, first.path);
    forall h | Hole(records, q, h)
      ensures h.path == first.path
    {
      NamedBasename(q.hint, h.path);
    }
  }
}
