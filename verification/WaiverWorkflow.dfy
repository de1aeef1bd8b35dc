/** Suggested entries given a reason, read back and checked: no error, no stale and no broad waiver. */
module WaiverWorkflow {
  import opened Options
  import opened Sequences
  import opened Coverage
  import opened WaiverRules
  import opened WaiverEntries
  import opened WaiverExact
  import opened WaiverGroups
  import opened WaiverSuggest
  import opened Waivers

  // ---- Loading ----

  /** What the loader makes of one entry: a rule or none, and mistakes. */
  type Reading = (Option<Rule>, seq<Mistake>)

  function ReadEach(out: seq<Suggestion>, c: Context): seq<Reading> {
    seq(|out|, i requires 0 <= i < |out| => Read(Written(out[i], c.why), c.valid))
  }

  function RulesIn(readings: seq<Reading>): seq<Rule> {
    if readings == [] then []
    else
      var r := readings[|readings| - 1].0;
      RulesIn(readings[..|readings| - 1]) + match r case Some(rule) => [rule] case None => []
  }

  function MistakesIn(readings: seq<Reading>): seq<Mistake> {
    if readings == [] then [] else MistakesIn(readings[..|readings| - 1]) + readings[|readings| - 1].1
  }

  lemma ReadsOneMore(readings: seq<Reading>, i: nat)
    requires i < |readings|
    ensures MistakesIn(readings[..i + 1]) == MistakesIn(readings[..i]) + readings[i].1
    ensures RulesIn(readings[..i + 1])
         == RulesIn(readings[..i]) + match readings[i].0 case Some(rule) => [rule] case None => []
  {
    assert readings[..i + 1][..i] == readings[..i];
  }

  method LoadOne(w: Waivers, e: Entry)
    requires w.Valid()
    modifies w
    ensures w.Valid() && w.errors == old(w.errors) + Read(e, w.valid).1
    ensures w.Rules() == old(w.Rules()) + match Read(e, w.valid).0 case Some(rule) => [rule] case None => []
  {
    w.AddDict(e);
  }

  /** Reads the entries of a suggestion, with a reason, into an empty set of waivers. */
  method Load(w: Waivers, out: seq<Suggestion>, c: Context)
    requires w.Valid() && w.valid == c.valid && w.Rules() == [] && w.errors == []
    modifies w
    ensures w.Valid() && w.errors == MistakesIn(ReadEach(out, c)) && w.Rules() == RulesIn(ReadEach(out, c))
  {
    ghost var readings := ReadEach(out, c);
    for i := 0 to |out|
      invariant w.Valid() && w.errors == MistakesIn(readings[..i]) && w.Rules() == RulesIn(readings[..i])
    {
      LoadOne(w, Written(out[i], c.why));
      ReadsOneMore(readings, i);
    }
    TakeAll(readings);
  }

  /** Verdicts on the rules some entries are read as, and the mistakes in the entries. */
  ghost predicate Linted(readings: seq<Reading>, records: seq<Record>, c: Context, errors: seq<Mistake>,
                         verdicts: seq<Verdict>) {
    && errors == MistakesIn(readings) && |verdicts| == |RulesIn(readings)|
    && forall i :: 0 <= i < |verdicts| ==> Judged(verdicts[i], RulesIn(readings)[i], c.disk, c.search, records)
  }

  /** Reads the entries and checks the waivers they are read as. */
  method LoadAndLint(out: seq<Suggestion>, records: seq<Record>, c: Context)
    returns (errors: seq<Mistake>, verdicts: seq<Verdict>, bad: nat)
    ensures Linted(ReadEach(out, c), records, c, errors, verdicts) && bad == Bad(verdicts)
  {
    var w := new Waivers(c.disk, c.valid, c.search);
    Load(w, out, c);
    errors := w.errors;
    verdicts, bad := w.Lint(records);
  }

  // ---- When nothing is refused ----

  lemma {:induction false} NoMistakes(readings: seq<Reading>)
    ensures MistakesIn(readings) == [] <==> forall r :: r in readings ==> r.1 == []
  {
    if readings != [] {
      NoMistakes(readings[..|readings| - 1]);
      assert readings == readings[..|readings| - 1] + [readings[|readings| - 1]];
    }
  }

  /** An entry of the tool's own making is read without complaint, or reported. */
  lemma CleanOrReported(e: Suggestion, c: Context)
    ensures Clean(e, c) <==> Read(Written(e, c.why), c.valid).1 == []
  {
    OnlyNoTypesIsSilent(Written(e, c.why), c.valid);
  }

  ghost predicate AllClean(out: seq<Suggestion>, c: Context) {
    forall e :: e in out ==> Clean(e, c)
  }

  lemma NoMistakesIffClean(out: seq<Suggestion>, c: Context)
    ensures MistakesIn(ReadEach(out, c)) == [] <==> AllClean(out, c)
  {
    var readings := ReadEach(out, c);
    NoMistakes(readings);
    forall e {
      CleanOrReported(e, c);
    }
    assert forall i :: 0 <= i < |out| ==>
      readings[i] == Read(Written(out[i], c.why), c.valid) && readings[i] in readings;
  }

  predicate CleanReading(r: Reading) {
    r.0.Some? && r.1 == []
  }

  lemma {:induction false} CleanReadings(readings: seq<Reading>)
    requires forall r :: r in readings ==> CleanReading(r)
    ensures MistakesIn(readings) == [] && |RulesIn(readings)| == |readings|
    ensures forall i :: 0 <= i < |readings| ==> Some(RulesIn(readings)[i]) == readings[i].0
  {
    if readings != [] {
      CleanReadings(readings[..|readings| - 1]);
      assert readings[|readings| - 1] in readings;
    }
  }

  ghost predicate Loaded(rules: seq<Rule>, out: seq<Suggestion>, c: Context) {
    && |rules| == |out|
    && forall i :: 0 <= i < |out| ==> Clean(out[i], c) && rules[i] == RuleOf(out[i], c)
  }

  lemma CleanIsLoaded(out: seq<Suggestion>, c: Context)
    requires AllClean(out, c)
    ensures MistakesIn(ReadEach(out, c)) == [] && Loaded(RulesIn(ReadEach(out, c)), out, c)
  {
    forall i | 0 <= i < |out|
      ensures Clean(out[i], c)
    {
      assert out[i] in out;
    }
    CleanReadings(ReadEach(out, c));
  }

  // ---- When nothing is flagged ----

  /** The entry waives some point of the database. */
  ghost predicate FindsSome(e: Suggestion, records: seq<Record>, c: Context) {
    exists p :: Has(records, p) && Waives(e, c, p)
  }

  /** The entry waives no covered point of the database. */
  ghost predicate SparesCovered(e: Suggestion, records: seq<Record>, c: Context) {
    forall p :: Has(records, p) && Waives(e, c, p) ==> Count(records, p) == 0
  }

  /** A waiver is judged fine if and only if it waives some point of the database, and no covered one. */
  lemma FineIffFindsUncovered(e: Suggestion, records: seq<Record>, c: Context, v: Verdict)
    requires Clean(e, c) && Judged(v, RuleOf(e, c), c.disk, c.search, records)
    ensures v.Fine? <==> FindsSome(e, records, c) && SparesCovered(e, records, c)
  {
    var points := Points(RuleOf(e, c), c.disk, c.search, records);
    assert forall p :: p in points <==> Has(records, p) && Waives(e, c, p);
    assert forall p :: p in Hit(records, points) <==> p in points && Count(records, p) > 0;
  }

  ghost predicate AllFindSome(out: seq<Suggestion>, records: seq<Record>, c: Context) {
    forall e :: e in out ==> FindsSome(e, records, c)
  }

  ghost predicate AllSpareCovered(out: seq<Suggestion>, records: seq<Record>, c: Context) {
    forall e :: e in out ==> SparesCovered(e, records, c)
  }

  lemma NoneBadIffFind(rules: seq<Rule>, out: seq<Suggestion>, verdicts: seq<Verdict>, records: seq<Record>, c: Context)
    requires Loaded(rules, out, c) && |verdicts| == |rules|
    requires forall i :: 0 <= i < |verdicts| ==> Judged(verdicts[i], rules[i], c.disk, c.search, records)
    ensures Bad(verdicts) == 0 <==> AllFindSome(out, records, c) && AllSpareCovered(out, records, c)
  {
    forall i | 0 <= i < |verdicts|
      ensures verdicts[i].Fine? <==> FindsSome(out[i], records, c) && SparesCovered(out[i], records, c)
    {
      FineIffFindsUncovered(out[i], records, c, verdicts[i]);
    }
    NoneBad(verdicts);
  }

  /** Entries are loaded and linted without complaint if and only if each waives uncovered points only, and some. */
  lemma CleanIffFind(out: seq<Suggestion>, records: seq<Record>, c: Context, errors: seq<Mistake>,
                     verdicts: seq<Verdict>)
    requires Linted(ReadEach(out, c), records, c, errors, verdicts)
    ensures errors == [] && Bad(verdicts) == 0 <==>
      AllFindSome(out, records, c) && AllSpareCovered(out, records, c)
  {
    NoMistakesIffClean(out, c);
    if AllClean(out, c) {
      CleanIsLoaded(out, c);
      NoneBadIffFind(RulesIn(ReadEach(out, c)), out, verdicts, records, c);
    } else {
      var e :| e in out && !Clean(e, c);
      assert !FindsSome(e, records, c);
    }
  }

  // ---- What the holes have to be like ----

  /** All holes have a file name and a known type. */
  ghost predicate AllLegible(records: seq<Record>, q: Request) {
    forall h :: Hole(records, q, h) ==> Legible(h)
  }

  lemma CleanIsLegible(out: seq<Suggestion>, records: seq<Record>, q: Request, at: Locator, c: Context)
    requires EachHoleHas(out, records, q, at, c) && AllClean(out, c)
    ensures AllLegible(records, q)
  {
    forall h | Hole(records, q, h)
      ensures Legible(h)
    {
      assert HasEntry(out, records, q, h, at, c);
      var e :| e in out && EntryFor(e, records, q, h, at, c);
    }
  }

  lemma LegibleIsClean(out: seq<Suggestion>, records: seq<Record>, q: Request, at: Locator, c: Context)
    requires EachForHole(out, records, q, at, c) && AllLegible(records, q)
    ensures AllClean(out, c)
  {
    forall e | e in out
      ensures Clean(e, c)
    {
      assert ForHole(e, records, q, at, c);
      var h :| EntryFor(e, records, q, h, at, c);
    }
  }

  /** The hole, or another written with it, takes some point of the database. */
  ghost predicate Finds(records: seq<Record>, q: Request, h: Point, at: Locator, c: Context) {
    exists p :: Has(records, p) && TakenAlike(records, q, h, at, c, p)
  }

  ghost predicate AllFind(records: seq<Record>, q: Request, at: Locator, c: Context) {
    forall h :: Hole(records, q, h) ==> Finds(records, q, h, at, c)
  }

  /** Some hole takes a covered point of the database. */
  ghost predicate TakesCovered(records: seq<Record>, q: Request, at: Locator, c: Context) {
    exists p :: Has(records, p) && Count(records, p) > 0 && Taken(records, q, at, c, p)
  }

  lemma EntryFindsIffHole(e: Suggestion, records: seq<Record>, q: Request, at: Locator, c: Context, h: Point)
    requires EntryFor(e, records, q, h, at, c)
    ensures FindsSome(e, records, c) <==> Finds(records, q, h, at, c)
  {
    if FindsSome(e, records, c) {
      var p :| Has(records, p) && Waives(e, c, p);
      assert TakenAlike(records, q, h, at, c, p);
    }
    if Finds(records, q, h, at, c) {
      var p :| Has(records, p) && TakenAlike(records, q, h, at, c, p);
      assert Waives(e, c, p);
    }
  }

  lemma HolesFind(out: seq<Suggestion>, records: seq<Record>, q: Request, at: Locator, c: Context)
    requires EachHoleHas(out, records, q, at, c) && AllFindSome(out, records, c)
    ensures AllFind(records, q, at, c)
  {
    forall h | Hole(records, q, h)
      ensures Finds(records, q, h, at, c)
    {
      assert HasEntry(out, records, q, h, at, c);
      var e :| e in out && EntryFor(e, records, q, h, at, c);
      EntryFindsIffHole(e, records, q, at, c, h);
    }
  }

  lemma EntriesFind(out: seq<Suggestion>, records: seq<Record>, q: Request, at: Locator, c: Context)
    requires EachForHole(out, records, q, at, c) && AllFind(records, q, at, c)
    ensures AllFindSome(out, records, c)
  {
    forall e | e in out
      ensures FindsSome(e, records, c)
    {
      assert ForHole(e, records, q, at, c);
      var h :| EntryFor(e, records, q, h, at, c);
      EntryFindsIffHole(e, records, q, at, c, h);
    }
  }

  lemma SpareIffNoneTaken(out: seq<Suggestion>, records: seq<Record>, q: Request, at: Locator, c: Context)
    requires WaivesWhatHolesTake(out, records, q, at, c)
    ensures AllSpareCovered(out, records, c) <==> !TakesCovered(records, q, at, c)
  {
    if TakesCovered(records, q, at, c) {
      var p :| Has(records, p) && Count(records, p) > 0 && Taken(records, q, at, c, p);
      var e :| e in out && Waives(e, c, p);
      assert !SparesCovered(e, records, c);
    } else {
      forall e, p | e in out && Has(records, p) && Waives(e, c, p)
        ensures Count(records, p) == 0
      {
        assert Waived(out, c, p);
      }
    }
  }

  lemma FindIffHolesFind(out: seq<Suggestion>, records: seq<Record>, q: Request, at: Locator, c: Context)
    requires Suggested(out, records, q, at, c)
    ensures AllFindSome(out, records, c) <==> AllFind(records, q, at, c)
  {
    if AllFindSome(out, records, c) {
      HolesFind(out, records, q, at, c);
    }
    if AllFind(records, q, at, c) {
      EntriesFind(out, records, q, at, c);
    }
  }

  /**
   * Suggested entries are all read, and all judged fine, if and only if every hole, or one written with it,
   * takes a point of the database, and none takes a covered one.
   */
  lemma CleanIffAllFind(out: seq<Suggestion>, records: seq<Record>, q: Request, at: Locator, c: Context,
                        errors: seq<Mistake>, verdicts: seq<Verdict>)
    requires Suggested(out, records, q, at, c) && Linted(ReadEach(out, c), records, c, errors, verdicts)
    ensures errors == [] && Bad(verdicts) == 0 <==> AllFind(records, q, at, c) && !TakesCovered(records, q, at, c)
  {
    CleanIffFind(out, records, c, errors, verdicts);
    FindIffHolesFind(out, records, q, at, c);
    SuggestedWaive(out, records, q, at, c);
    SpareIffNoneTaken(out, records, q, at, c);
  }

  /** Suggested entries are all read if and only if every hole has a file name and a known type. */
  lemma ReadIffLegible(out: seq<Suggestion>, records: seq<Record>, q: Request, at: Locator, c: Context)
    requires Suggested(out, records, q, at, c)
    ensures MistakesIn(ReadEach(out, c)) == [] <==> AllLegible(records, q)
  {
    NoMistakesIffClean(out, c);
    if AllClean(out, c) {
      CleanIsLegible(out, records, q, at, c);
    }
    if AllLegible(records, q) {
      LegibleIsClean(out, records, q, at, c);
    }
  }

  lemma WritableFindsItself(records: seq<Record>, q: Request, at: Locator, c: Context, h: Point)
    requires Writable(records, q) && Placed(records, q, at, c) && Hole(records, q, h)
    ensures Finds(records, q, h, at, c)
  {
    HoleTakesItself(records, q, at, c, h);
    assert Alike(h, h);
    assert TakenAlike(records, q, h, at, c, h);
  }

  lemma WritableTakesHoles(records: seq<Record>, q: Request, at: Locator, c: Context, p: Point)
    requires Writable(records, q) && Placed(records, q, at, c) && Has(records, p) && Taken(records, q, at, c, p)
    ensures Count(records, p) == 0
  {
    var h :| Hole(records, q, h) && Takes(h, p, at, c);
    TakenIsHole(records, q, at, c, h, p);
  }

  /** Writable holes in their places find themselves, and take nothing else. */
  lemma WritableFinds(records: seq<Record>, q: Request, at: Locator, c: Context)
    requires Writable(records, q) && Placed(records, q, at, c)
    ensures AllFind(records, q, at, c) && !TakesCovered(records, q, at, c)
  {
    forall h | Hole(records, q, h) {
      WritableFindsItself(records, q, at, c, h);
    }
    forall p | Has(records, p) && Taken(records, q, at, c, p) {
      WritableTakesHoles(records, q, at, c, p);
    }
  }

  // ---- Entries that catch too much ----

  lemma {:induction false} RuleIsRead(readings: seq<Reading>, i: nat)
    requires i < |readings| && readings[i].0.Some?
    ensures readings[i].0.value in RulesIn(readings)
  {
    if i < |readings| - 1 {
      RuleIsRead(readings[..|readings| - 1], i);
    }
  }

  lemma CoversCoveredIsBroad(w: Rule, c: Context, records: seq<Record>, p: Point, v: Verdict)
    requires Judged(v, w, c.disk, c.search, records)
    requires Has(records, p) && Count(records, p) > 0 && Covers(w, c.disk, c.search, p)
    ensures !v.Fine?
  {
    var points := Points(w, c.disk, c.search, records);
    assert p in points && p in Hit(records, points);
  }

  /** An entry that waives a covered point of the database is flagged. */
  lemma WaivedCoveredIsFlagged(out: seq<Suggestion>, records: seq<Record>, c: Context, p: Point,
                               errors: seq<Mistake>, verdicts: seq<Verdict>)
    requires Linted(ReadEach(out, c), records, c, errors, verdicts)
    requires Waived(out, c, p) && Has(records, p) && Count(records, p) > 0
    ensures Bad(verdicts) > 0
  {
    var e :| e in out && Waives(e, c, p);
    var i :| 0 <= i < |out| && out[i] == e;
    var readings := ReadEach(out, c);
    RuleIsRead(readings, i);
    var k :| 0 <= k < |RulesIn(readings)| && RulesIn(readings)[k] == readings[i].0.value;
    CoversCoveredIsBroad(RulesIn(readings)[k], c, records, p, verdicts[k]);
    NoneBad(verdicts);
    assert verdicts[k] in verdicts;
  }

  lemma TakesCoveredIsFlagged(out: seq<Suggestion>, records: seq<Record>, q: Request, at: Locator, c: Context,
                              errors: seq<Mistake>, verdicts: seq<Verdict>)
    requires WaivesWhatHolesTake(out, records, q, at, c) && TakesCovered(records, q, at, c)
    requires Linted(ReadEach(out, c), records, c, errors, verdicts)
    ensures Bad(verdicts) > 0
  {
    var p :| Has(records, p) && Count(records, p) > 0 && Taken(records, q, at, c, p);
    assert Waived(out, c, p);
    WaivedCoveredIsFlagged(out, records, c, p, errors, verdicts);
  }

  /**
   * A suggestion, given a reason, loaded and linted against its own database. It comes out clean if and only if
   * every hole, or one written with it, takes a point of the database and none takes a covered one: so when the
   * holes are writable and the locator's places are theirs, and in every suitable database.
   */
  method SuggestLoadLint(records: seq<Record>, q: Request, c: Context)
    returns (errors: seq<Mistake>, bad: nat, ghost at: Locator)
    requires GivesReason(c)
    ensures (exists p :: Hole(records, q, p)) ==> LooksAt(records, c.disk, q, at)
    ensures errors == [] && bad == 0 <==> AllFind(records, q, at, c) && !TakesCovered(records, q, at, c)
    ensures errors == [] <==> AllLegible(records, q)
    ensures Writable(records, q) && Placed(records, q, at, c) ==> errors == [] && bad == 0
    ensures Suitable(records, q) ==> errors == [] && bad == 0
    ensures TakesCovered(records, q, at, c) ==> bad > 0
  {
    var out, skipped, literal, where, whose := SuggestEntries(records, c.disk, q);
    OnePerKindIsSuggested(out, whose, records, q, where, c);
    at := where;
    var verdicts;
    errors, verdicts, bad := LoadAndLint(out, records, c);
    CleanIffAllFind(out, records, q, at, c, errors, verdicts);
    ReadIffLegible(out, records, q, at, c);
    if Writable(records, q) && Placed(records, q, at, c) {
      WritableFinds(records, q, at, c);
    }
    if TakesCovered(records, q, at, c) {
      TakesCoveredIsFlagged(out, records, q, at, c, errors, verdicts);
    }
  }
}
