/** Suggesting waivers for a location: entries for its uncovered points. */
module WaiverSuggest {
  import opened Sequences
  import opened Text
  import opened Options
  import opened Glob
  import opened Coverage
  import opened SourceAnchor
  import opened WaiverRules
  import opened SignalNames
  import opened SuggestGlobs
  import opened WaiverEntries
  import opened WaiverGroups
  import opened WaiverExact

  // ---- Entries of one group ----

  function EntryOf(k: GroupKey, anchor: Anchor, line: nat, glob: string): Suggestion {
    Made(Basename(k.path), anchor, line, k.page, glob)
  }

  /** An entry of the group, with the glob for one of its uncovered names. */
  ghost predicate GroupEntry(e: Suggestion, k: GroupKey, members: seq<Member>, anchor: Anchor, line: nat, o: string) {
    e == EntryOf(k, anchor, line, e.sig) && GlobFor(e.sig, members, o)
  }

  /** Entries of the group for these names. */
  ghost predicate GroupEntriesFor(es: seq<Suggestion>, k: GroupKey, members: seq<Member>, anchor: Anchor, line: nat,
                                  names: seq<string>) {
    |es| == |names| && forall i :: 0 <= i < |es| ==> GroupEntry(es[i], k, members, anchor, line, names[i])
  }

  method GroupEntries(k: GroupKey, members: seq<Member>, anchor: Anchor, line: nat)
    returns (es: seq<Suggestion>, ghost names: seq<string>)
    requires OfBase(members, k.base) && Unique(members)
    ensures GroupEntriesFor(es, k, members, anchor, line, names) && Apart(names) && AllWrittenWith(members, names)
  {
    var globs;
    globs, names := MemberGlobs(k.base, members);
    es := EntriesOfGlobs(k, anchor, line, globs);
  }

  method EntriesOfGlobs(k: GroupKey, anchor: Anchor, line: nat, globs: seq<string>) returns (es: seq<Suggestion>)
    ensures |es| == |globs| && forall i :: 0 <= i < |es| ==> es[i] == EntryOf(k, anchor, line, globs[i])
  {
    es := [];
    for i := 0 to |globs|
      invariant |es| == i && forall j :: 0 <= j < i ==> es[j] == EntryOf(k, anchor, line, globs[j])
    {
      es := es + [EntryOf(k, anchor, line, globs[i])];
    }
  }

  // ---- Entries of all groups ----

  /** The entry is one of the point's group, with the glob for the point's name. */
  ghost predicate FromGroup(e: Suggestion, g: Grouping, anchor: Anchor, line: nat, h: Point) {
    && h.line == line && KeyOf(h) in g.groups
    && GroupEntry(e, KeyOf(h), g.groups[KeyOf(h)], anchor, line, h.sig)
  }

  ghost predicate FromGroups(out: seq<Suggestion>, g: Grouping, anchor: Anchor, line: nat, whose: seq<Point>) {
    |out| == |whose| && forall i :: 0 <= i < |out| ==> FromGroup(out[i], g, anchor, line, whose[i])
  }

  /** Points of the first `n` groups, of which no two are written with one entry. */
  ghost predicate PointsApart(whose: seq<Point>, keys: seq<GroupKey>, n: nat)
    requires n <= |keys|
  {
    && (forall i :: 0 <= i < |whose| ==> KeyOf(whose[i]) in keys[..n])
    && (forall i, j :: 0 <= i < j < |whose| ==> !Alike(whose[i], whose[j]))
  }

  /** Every uncovered name of the group is written with one of the points. */
  ghost predicate GroupReached(whose: seq<Point>, g: Grouping, k: GroupKey, line: nat)
    requires k in g.groups
  {
    forall o :: Open(g.groups[k], o) ==> AlikeOne(whose, Point(k.page, k.path, line, o))
  }

  /** The points of a group with these names. */
  ghost function PointsOf(k: GroupKey, line: nat, names: seq<string>): seq<Point> {
    seq(|names|, i requires 0 <= i < |names| => Point(k.page, k.path, line, names[i]))
  }

  lemma GroupFrom(es: seq<Suggestion>, g: Grouping, k: GroupKey, anchor: Anchor, line: nat, names: seq<string>)
    requires k in g.groups && OfBase(g.groups[k], k.base)
    requires GroupEntriesFor(es, k, g.groups[k], anchor, line, names)
    ensures FromGroups(es, g, anchor, line, PointsOf(k, line, names))
    ensures forall i :: 0 <= i < |names| ==> KeyOf(PointsOf(k, line, names)[i]) == k
  {
    forall i | 0 <= i < |es|
      ensures BaseOf(names[i]) == k.base
    {
      assert GroupEntry(es[i], k, g.groups[k], anchor, line, names[i]);
      assert Member(names[i], 0) in g.groups[k] && BaseOf(Member(names[i], 0).sig) == k.base;
    }
  }

  lemma ApartOneMore(whose: seq<Point>, keys: seq<GroupKey>, n: nat, line: nat, names: seq<string>)
    requires n < |keys| && PointsApart(whose, keys, n) && keys[n] !in keys[..n] && Apart(names)
    requires forall i :: 0 <= i < |names| ==> KeyOf(PointsOf(keys[n], line, names)[i]) == keys[n]
    ensures PointsApart(whose + PointsOf(keys[n], line, names), keys, n + 1)
  {
    var more := PointsOf(keys[n], line, names);
    var all := whose + more;
    TakeOneMore(keys, n);
    forall i, j | 0 <= i < j < |all|
      ensures !Alike(all[i], all[j])
    {
      if i < |whose| <= j {
        assert KeyOf(whose[i]) in keys[..n] && KeyOf(more[j - |whose|]) == keys[n];
      }
    }
  }

  lemma ReachedInMore(whose: seq<Point>, more: seq<Point>, h: Point)
    requires AlikeOne(whose, h) || AlikeOne(more, h)
    ensures AlikeOne(whose + more, h)
  {
    var all := whose + more;
    if AlikeOne(whose, h) {
      var i :| 0 <= i < |whose| && Alike(whose[i], h);
      assert all[i] == whose[i];
    } else {
      var i :| 0 <= i < |more| && Alike(more[i], h);
      assert all[|whose| + i] == more[i];
    }
  }

  lemma ReachedOneMore(whose: seq<Point>, more: seq<Point>, g: Grouping, k: GroupKey, line: nat)
    requires k in g.groups && (GroupReached(whose, g, k, line) || GroupReached(more, g, k, line))
    ensures GroupReached(whose + more, g, k, line)
  {
    forall o | Open(g.groups[k], o) {
      ReachedInMore(whose, more, Point(k.page, k.path, line, o));
    }
  }

  lemma NamesReach(g: Grouping, k: GroupKey, line: nat, names: seq<string>)
    requires k in g.groups && OfBase(g.groups[k], k.base) && AllWrittenWith(g.groups[k], names)
    requires forall i :: 0 <= i < |names| ==> KeyOf(PointsOf(k, line, names)[i]) == k
    ensures GroupReached(PointsOf(k, line, names), g, k, line)
  {
    forall o | Open(g.groups[k], o)
      ensures AlikeOne(PointsOf(k, line, names), Point(k.page, k.path, line, o))
    {
      assert WrittenWith(names, o) && BaseOf(Member(o, 0).sig) == k.base;
      var i :| 0 <= i < |names| && SameGlob(names[i], o);
      assert Alike(PointsOf(k, line, names)[i], Point(k.page, k.path, line, o));
    }
  }

  ghost predicate AllReached(whose: seq<Point>, g: Grouping, line: nat, n: nat)
    requires n <= |g.keys| && AllKeys(g)
  {
    forall j :: 0 <= j < n ==> GroupReached(whose, g, g.keys[j], line)
  }

  lemma AllReachedOneMore(whose: seq<Point>, g: Grouping, line: nat, n: nat, names: seq<string>)
    requires AllKeys(g) && n < |g.keys| && AllReached(whose, g, line, n)
    requires OfBase(g.groups[g.keys[n]], g.keys[n].base) && AllWrittenWith(g.groups[g.keys[n]], names)
    requires forall i :: 0 <= i < |names| ==> KeyOf(PointsOf(g.keys[n], line, names)[i]) == g.keys[n]
    ensures AllReached(whose + PointsOf(g.keys[n], line, names), g, line, n + 1)
  {
    NamesReach(g, g.keys[n], line, names);
    forall j | 0 <= j <= n
      ensures GroupReached(whose + PointsOf(g.keys[n], line, names), g, g.keys[j], line)
    {
      ReachedOneMore(whose, PointsOf(g.keys[n], line, names), g, g.keys[j], line);
    }
  }

  /** The entries of the first `n` groups, and the points they are for. */
  ghost predicate EntriesSoFar(out: seq<Suggestion>, whose: seq<Point>, g: Grouping, anchor: Anchor, line: nat, n: nat)
    requires n <= |g.keys| && AllKeys(g)
  {
    FromGroups(out, g, anchor, line, whose) && PointsApart(whose, g.keys, n) && AllReached(whose, g, line, n)
  }

  lemma EntriesOneMore(out: seq<Suggestion>, whose: seq<Point>, g: Grouping, anchor: Anchor, line: nat, n: nat,
                       es: seq<Suggestion>, names: seq<string>)
    requires AllKeys(g) && n < |g.keys| && EntriesSoFar(out, whose, g, anchor, line, n)
    requires OfBase(g.groups[g.keys[n]], g.keys[n].base)
    requires GroupEntriesFor(es, g.keys[n], g.groups[g.keys[n]], anchor, line, names)
    requires Apart(names) && AllWrittenWith(g.groups[g.keys[n]], names)
    ensures EntriesSoFar(out + es, whose + PointsOf(g.keys[n], line, names), g, anchor, line, n + 1)
  {
    GroupFrom(es, g, g.keys[n], anchor, line, names);
    ApartOneMore(whose, g.keys, n, line, names);
    AllReachedOneMore(whose, g, line, n, names);
    FromBoth(out, whose, es, PointsOf(g.keys[n], line, names), g, anchor, line);
  }

  lemma FromBoth(out: seq<Suggestion>, whose: seq<Point>, es: seq<Suggestion>, more: seq<Point>, g: Grouping,
                 anchor: Anchor, line: nat)
    requires FromGroups(out, g, anchor, line, whose) && FromGroups(es, g, anchor, line, more)
    ensures FromGroups(out + es, g, anchor, line, whose + more)
  {
  }

  method AllEntries(g: Grouping, anchor: Anchor, line: nat) returns (out: seq<Suggestion>, ghost whose: seq<Point>)
    requires AllKeys(g) && forall k :: k in g.groups ==> OfBase(g.groups[k], k.base) && Unique(g.groups[k])
    ensures EntriesSoFar(out, whose, g, anchor, line, |g.keys|)
  {
    out, whose := [], [];
    for n := 0 to |g.keys|
      invariant EntriesSoFar(out, whose, g, anchor, line, n)
    {
      var es, names := GroupEntries(g.keys[n], g.groups[g.keys[n]], anchor, line);
      EntriesOneMore(out, whose, g, anchor, line, n, es, names);
      out, whose := out + es, whose + PointsOf(g.keys[n], line, names);
    }
  }

  // ---- From the groups to the holes ----

  lemma EntryWaives(k: GroupKey, anchor: Anchor, line: nat, glob: string, c: Context, o: string, p: Point)
    requires GivesReason(c) && (anchor.Anchor? ==> anchor.text != "")
    ensures Waives(EntryOf(k, anchor, line, glob), c, p) <==>
      && InPlace(Point(k.page, k.path, line, o), p, AtOf(anchor, line), c)
      && (glob != "" ==> Fnmatch(p.sig, glob))
  {
    MadeWaives(c, Basename(k.path), anchor, line, k.page, glob, p);
  }

  lemma OnlyEmptyLikeEmpty(a: string, b: string)
    requires SameGlob(a, b) && (a == "" || b == "")
    ensures a == b
  {
  }

  /** What the glob for a name matches in place is what the holes written with it take. */
  lemma GlobTakes(records: seq<Record>, q: Request, g: Grouping, k: GroupKey, glob: string, o: string, at: Locator,
                  c: Context, p: Point)
    requires Gathered(records, q, g) && k in g.groups && GlobFor(glob, g.groups[k], o)
    ensures var h := Point(k.page, k.path, q.line, o);
      TakenAlike(records, q, h, at, c, p) <==> InPlace(h, p, at, c) && (glob != "" ==> Fnmatch(p.sig, glob))
  {
    var h := Point(k.page, k.path, q.line, o);
    MemberIsHole(records, q, g, k, o);
    if TakenAlike(records, q, h, at, c, p) {
      TakenIsMatched(records, q, g, k, glob, o, at, c, p);
    }
    if InPlace(h, p, at, c) && (glob != "" ==> Fnmatch(p.sig, glob)) {
      MatchedIsTaken(records, q, g, k, glob, o, at, c, p);
    }
  }

  lemma TakenIsMatched(records: seq<Record>, q: Request, g: Grouping, k: GroupKey, glob: string, o: string,
                       at: Locator, c: Context, p: Point)
    requires Gathered(records, q, g) && k in g.groups && GlobFor(glob, g.groups[k], o)
    requires Hole(records, q, Point(k.page, k.path, q.line, o)) && BaseOf(o) == k.base
    requires TakenAlike(records, q, Point(k.page, k.path, q.line, o), at, c, p)
    ensures InPlace(Point(k.page, k.path, q.line, o), p, at, c) && (glob != "" ==> Fnmatch(p.sig, glob))
  {
    var h := Point(k.page, k.path, q.line, o);
    var x :| Hole(records, q, x) && Alike(h, x) && Takes(x, p, at, c);
    assert KeyOf(x) == k && IsIn(g, x, 0);
    if glob != "" {
      if x.sig == "" {
        OnlyEmptyLikeEmpty(o, x.sig);
      }
      assert CaughtAlike(g.groups[k], o, p.sig);
    }
  }

  lemma MatchedIsTaken(records: seq<Record>, q: Request, g: Grouping, k: GroupKey, glob: string, o: string,
                       at: Locator, c: Context, p: Point)
    requires Gathered(records, q, g) && k in g.groups && GlobFor(glob, g.groups[k], o)
    requires Hole(records, q, Point(k.page, k.path, q.line, o)) && BaseOf(o) == k.base
    requires InPlace(Point(k.page, k.path, q.line, o), p, at, c) && (glob != "" ==> Fnmatch(p.sig, glob))
    ensures TakenAlike(records, q, Point(k.page, k.path, q.line, o), at, c, p)
  {
    var h := Point(k.page, k.path, q.line, o);
    if glob == "" {
      assert Alike(h, h) && Takes(h, p, at, c);
    } else {
      assert CaughtAlike(g.groups[k], o, p.sig);
      var s :| Open(g.groups[k], s) && SameGlob(o, s) && Catches(s, p.sig);
      MemberIsHole(records, q, g, k, s);
      var x := Point(k.page, k.path, q.line, s);
      assert Alike(h, x) && Takes(x, p, at, c);
    }
  }

  /** An entry of a group with the glob for a name is an entry for that hole. */
  lemma GroupEntryForHole(records: seq<Record>, q: Request, g: Grouping, k: GroupKey, e: Suggestion, anchor: Anchor,
                          o: string, c: Context)
    requires Gathered(records, q, g) && GivesReason(c) && (anchor.Anchor? ==> anchor.text != "")
    requires k in g.groups && GroupEntry(e, k, g.groups[k], anchor, q.line, o)
    ensures EntryFor(e, records, q, Point(k.page, k.path, q.line, o), AtOf(anchor, q.line), c)
  {
    var h := Point(k.page, k.path, q.line, o);
    MemberIsHole(records, q, g, k, o);
    MadeIsClean(c, Basename(k.path), anchor, q.line, k.page, e.sig);
    forall p
      ensures Waives(e, c, p) <==> TakenAlike(records, q, h, AtOf(anchor, q.line), c, p)
    {
      EntryWaives(k, anchor, q.line, e.sig, c, o, p);
      GlobTakes(records, q, g, k, e.sig, o, AtOf(anchor, q.line), c, p);
    }
  }

  lemma GroupsForHoles(out: seq<Suggestion>, whose: seq<Point>, records: seq<Record>, q: Request, g: Grouping,
                       anchor: Anchor, c: Context)
    requires Gathered(records, q, g) && GivesReason(c) && (anchor.Anchor? ==> anchor.text != "")
    requires FromGroups(out, g, anchor, q.line, whose)
    ensures EntriesFor(out, whose, records, q, AtOf(anchor, q.line), c)
  {
    forall i | 0 <= i < |out|
      ensures EntryFor(out[i], records, q, whose[i], AtOf(anchor, q.line), c)
    {
      GroupEntryForHole(records, q, g, KeyOf(whose[i]), out[i], anchor, whose[i].sig, c);
    }
  }

  lemma GroupsAreOnePerKind(out: seq<Suggestion>, whose: seq<Point>, records: seq<Record>, q: Request, g: Grouping,
                         anchor: Anchor)
    requires Gathered(records, q, g) && EntriesSoFar(out, whose, g, anchor, q.line, |g.keys|)
    ensures OnePerKind(whose, records, q)
  {
    forall i | 0 <= i < |whose|
      ensures Hole(records, q, whose[i])
    {
      MemberIsHole(records, q, g, KeyOf(whose[i]), whose[i].sig);
    }
    forall h | Hole(records, q, h)
      ensures AlikeOne(whose, h)
    {
      assert IsIn(g, h, 0) && Open(g.groups[KeyOf(h)], h.sig);
      var j :| 0 <= j < |g.keys| && g.keys[j] == KeyOf(h);
      assert GroupReached(whose, g, g.keys[j], q.line);
    }
  }

  // ---- The suggestion ----

  /** The covered points of the location. */
  ghost function CoveredAt(records: seq<Record>, q: Request): set<Point> {
    set r | r in records && At(q, r.point) && Count(records, r.point) > 0 :: r.point
  }

  lemma NothingToWaive(records: seq<Record>, q: Request, v: View)
    requires Accumulated(v, records, p => At(q, p)) && forall p :: p in v.acc ==> v.acc[p] > 0
    ensures forall p :: !Hole(records, q, p)
  {
    forall p | Has(records, p) && At(q, p)
      ensures Count(records, p) > 0
    {
      assert p in v.acc;
    }
  }

  /** The locator of a line in a file: the anchor through `want` if the line has one, else the line's number. */
  ghost predicate Marks(disk: Disk, path: string, line: nat, want: string, at: Locator) {
    && AtLine(disk, path, line, at)
    && (at.Literal? <==> Anchorable(disk, path, line))
    && (at.Literal? ==> Shortest(disk[path], line, want, at.text))
  }

  /** Where the entries look: at the line in the file of the database's first hole, by an anchor through its base. */
  ghost predicate LooksAt(records: seq<Record>, disk: Disk, q: Request, at: Locator) {
    exists h :: FirstHole(records, q, h) && Marks(disk, h.path, q.line, Before(h.sig, "["), at)
  }

  lemma OneMark(disk: Disk, path: string, line: nat, want: string, a: Locator, b: Locator)
    requires Marks(disk, path, line, want, a) && Marks(disk, path, line, want, b)
    ensures a == b
  {
    if a.Literal? {
      OneShortest(disk[path], line, want, a.text, b.text);
    }
  }

  lemma OneFirstHole(records: seq<Record>, q: Request, h: Point, x: Point)
    requires FirstHole(records, q, h) && FirstHole(records, q, x)
    ensures h == x
  {
    var n: nat :| FirstHoleAt(records, q, h, n);
    var m: nat :| FirstHoleAt(records, q, x, m);
    assert n == m;
  }

  /** The database, the files and the request settle where the entries look. */
  lemma LooksAtOne(records: seq<Record>, disk: Disk, q: Request, a: Locator, b: Locator)
    requires LooksAt(records, disk, q, a) && LooksAt(records, disk, q, b)
    ensures a == b
  {
    var h :| FirstHole(records, q, h) && Marks(disk, h.path, q.line, Before(h.sig, "["), a);
    var x :| FirstHole(records, q, x) && Marks(disk, x.path, q.line, Before(x.sig, "["), b);
    OneFirstHole(records, q, h, x);
    OneMark(disk, h.path, q.line, Before(h.sig, "["), a, b);
  }

  /** Pasted without a reason of its own the entry is refused. */
  ghost predicate RefusedAsIs(e: Suggestion) {
    forall valid :: Read(Written(e, e.why), valid) == (None, [if e.file == "" then NoFileOrAt else StillPlaceholder])
  }

  lemma GroupEntryIsRefused(e: Suggestion, k: GroupKey, members: seq<Member>, anchor: Anchor, line: nat, o: string)
    requires GroupEntry(e, k, members, anchor, line, o)
    ensures RefusedAsIs(e)
  {
    forall valid: string -> bool
      ensures Read(Written(e, e.why), valid) == (None, [if e.file == "" then NoFileOrAt else StillPlaceholder])
    {
      if e.file != "" {
        StubIsRefused(e, valid);
      }
    }
  }

  lemma GroupsAreRefused(out: seq<Suggestion>, whose: seq<Point>, g: Grouping, anchor: Anchor, line: nat)
    requires FromGroups(out, g, anchor, line, whose)
    ensures forall e :: e in out ==> RefusedAsIs(e)
  {
    forall e | e in out
      ensures RefusedAsIs(e)
    {
      var i :| 0 <= i < |out| && out[i] == e;
      GroupEntryIsRefused(e, KeyOf(whose[i]), g.groups[KeyOf(whose[i])], anchor, line, whose[i].sig);
    }
  }

  /**
   * Entries for the holes of a location, one for each set of holes that are written with one. As they are they
   * are refused. Given a reason and read back they waive exactly what the holes' names, as the tool spells them,
   * take; and they are perfect if and only if the holes are writable and the places the locator finds are theirs.
   */
  method SuggestEntries(records: seq<Record>, disk: Disk, q: Request)
    returns (out: seq<Suggestion>, skipped: nat, literal: bool, ghost at: Locator, ghost whose: seq<Point>)
    ensures OnePerKind(whose, records, q) && forall e :: e in out ==> RefusedAsIs(e)
    ensures forall c: Context :: c.disk == disk && GivesReason(c) ==>
      && EntriesFor(out, whose, records, q, at, c) && WaivesWhatHolesTake(out, records, q, at, c)
      && (Perfect(out, records, q, c) <==> Writable(records, q) && Placed(records, q, at, c))
    ensures Suitable(records, q) ==>
      forall c: Context :: c.disk == disk && GivesReason(c) ==> Perfect(out, records, q, c)
    ensures skipped == |CoveredAt(records, q)|
    ensures if exists p :: Hole(records, q, p) then LooksAt(records, disk, q, at) && literal == at.Literal?
            else out == [] && literal
  {
    var keep := p => At(q, p);
    var v := Accumulate(records, keep);
    assert CoveredAt(records, q) == set p | p in v.acc && v.acc[p] > 0;
    var live: seq<Point>;
    live, skipped := Live(v);
    if live == [] {
      NothingToWaive(records, q, v);
      return [], skipped, true, Line(q.line), [];
    }
    FirstLiveIsFirstHole(records, q, v, live[0], keep);
    out, literal, at, whose := EntriesAt(records, disk, q, v, live[0]);
    if Suitable(records, q) {
      forall c: Context | c.disk == disk && GivesReason(c)
        ensures Perfect(out, records, q, c)
      {
        OneFileIsPlaced(records, q, at, c, live[0]);
      }
    }
  }

  lemma SuggestedIsExact(out: seq<Suggestion>, whose: seq<Point>, records: seq<Record>, q: Request, at: Locator,
                         c: Context)
    requires OnePerKind(whose, records, q) && EntriesFor(out, whose, records, q, at, c)
    ensures WaivesWhatHolesTake(out, records, q, at, c)
    ensures Perfect(out, records, q, c) <==> Writable(records, q) && Placed(records, q, at, c)
  {
    OnePerKindIsSuggested(out, whose, records, q, at, c);
    SuggestedWaive(out, records, q, at, c);
    PerfectIffWritable(out, records, q, at, c);
  }

  method EntriesAt(records: seq<Record>, disk: Disk, q: Request, v: View, first: Point)
    returns (out: seq<Suggestion>, literal: bool, ghost at: Locator, ghost whose: seq<Point>)
    requires Accumulated(v, records, p => At(q, p)) && FirstHole(records, q, first)
    ensures OnePerKind(whose, records, q) && forall e :: e in out ==> RefusedAsIs(e)
    ensures forall c: Context :: GivesReason(c) ==>
      && EntriesFor(out, whose, records, q, at, c) && WaivesWhatHolesTake(out, records, q, at, c)
      && (Perfect(out, records, q, c) <==> Writable(records, q) && Placed(records, q, at, c))
    ensures Marks(disk, first.path, q.line, Before(first.sig, "["), at) && literal == at.Literal?
  {
    var anchor := SrcAnchor(disk, first.path, q.line, Before(first.sig, "["));
    var g := GroupByBase(v, q.line);
    GroupsAreHoles(records, q, v, g);
    out, whose := AllEntries(g, anchor, q.line);
    GroupsAreOnePerKind(out, whose, records, q, g, anchor);
    GroupsAreRefused(out, whose, g, anchor, q.line);
    literal := anchor.Anchor?;
    at := AtOf(anchor, q.line);
    forall c: Context | GivesReason(c)
      ensures EntriesFor(out, whose, records, q, at, c) && WaivesWhatHolesTake(out, records, q, at, c)
      ensures Perfect(out, records, q, c) <==> Writable(records, q) && Placed(records, q, at, c)
    {
      GroupsForHoles(out, whose, records, q, g, anchor, c);
      SuggestedIsExact(out, whose, records, q, at, c);
    }
  }
}
