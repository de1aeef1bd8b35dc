/** The globs suggested for the signals of one base: exactly its uncovered ones. */
module SuggestGlobs {
  import opened Sequences
  import opened Glob
  import opened BitGlobs
  import opened CombineBits
  import opened SignalNames

  datatype Member = Member(sig: string, count: nat)

  /** What the folding needs of a name it is to waive. */
  predicate Foldable(sig: string) {
    sig != "" && Plain(sig) && Canonical(sig)
  }

  ghost predicate OfBase(members: seq<Member>, base: string) {
    forall m :: m in members ==> BaseOf(m.sig) == base
  }

  ghost predicate AllFoldable(members: seq<Member>) {
    forall m :: m in members && m.count == 0 ==> Foldable(m.sig)
  }

  ghost predicate Open(members: seq<Member>, sig: string) {
    Member(sig, 0) in members
  }

  /** A glob for uncovered names of the group only, and for at least one of them. */
  ghost predicate Apt(g: string, members: seq<Member>) {
    && g != ""
    && (exists s :: Open(members, s) && Fnmatch(s, g))
    && (forall s: string :: Fnmatch(s, g) ==> Open(members, s))
  }

  /** Apt globs for every uncovered name. */
  ghost predicate Exact(globs: seq<string>, members: seq<Member>) {
    && (forall g :: g in globs ==> Apt(g, members))
    && (forall s :: Open(members, s) ==> MatchesAny(globs, s))
  }

  // ---- What the globs match in any case ----

  /** The spelling of an uncovered name written with the same glob as `o` catches `s`. */
  ghost predicate CaughtAlike(members: seq<Member>, o: string, s: string) {
    exists x :: Open(members, x) && SameGlob(o, x) && Catches(x, s)
  }

  /** The glob matches what the spellings of `o` and of the names written with it catch; it is empty only for "". */
  ghost predicate GlobFor(g: string, members: seq<Member>, o: string) {
    && Open(members, o)
    && (g == "" <==> o == "")
    && (forall s: string :: Fnmatch(s, g) <==> CaughtAlike(members, o, s))
  }

  /** The globs are for these names, in order. */
  ghost predicate Assigned(globs: seq<string>, members: seq<Member>, whose: seq<string>) {
    |globs| == |whose| && forall i :: 0 <= i < |globs| ==> GlobFor(globs[i], members, whose[i])
  }

  /** No two of the names are written with one glob. */
  ghost predicate Apart(whose: seq<string>) {
    forall i, j :: 0 <= i < j < |whose| ==> !SameGlob(whose[i], whose[j])
  }

  ghost predicate WrittenWith(whose: seq<string>, o: string) {
    exists i :: 0 <= i < |whose| && SameGlob(whose[i], o)
  }

  /** Every uncovered name is written with one of them. The trigger keeps the prover from going from name to name. */
  ghost predicate AllWrittenWith(members: seq<Member>, whose: seq<string>) {
    forall o {:trigger WrittenWith(whose, o)} :: Open(members, o) ==> WrittenWith(whose, o)
  }

  /** One glob for each set of uncovered names that are written with one. */
  ghost predicate OneGlobEach(globs: seq<string>, members: seq<Member>, whose: seq<string>) {
    Assigned(globs, members, whose) && Apart(whose) && AllWrittenWith(members, whose)
  }

  // ---- What they match together ----

  /** The spelling of some uncovered name catches `s`. */
  ghost predicate Caught(members: seq<Member>, s: string) {
    exists o :: Open(members, o) && Catches(o, s)
  }

  /** The glob matches the spelling of some uncovered name, and nothing that no spelling catches. */
  ghost predicate Serves(g: string, members: seq<Member>) {
    && (exists o :: Open(members, o) && Fnmatch(Spelled(o), g))
    && (forall s: string :: Fnmatch(s, g) ==> Caught(members, s))
  }

  ghost predicate AllServe(globs: seq<string>, members: seq<Member>) {
    forall g :: g in globs ==> Serves(g, members)
  }

  ghost predicate AllMatched(globs: seq<string>, members: seq<Member>) {
    && (forall s: string :: Caught(members, s) ==> MatchesAny(globs, s))
    && (Open(members, "") ==> "" in globs)
  }

  ghost predicate Describes(globs: seq<string>, members: seq<Member>) {
    AllServe(globs, members) && AllMatched(globs, members)
  }

  lemma MatchesOwn(g: string, members: seq<Member>, o: string, s: string)
    requires GlobFor(g, members, o) && Catches(o, s)
    ensures Fnmatch(s, g)
  {
    assert SameGlob(o, o);
    assert CaughtAlike(members, o, s);
  }

  lemma GlobForServes(g: string, members: seq<Member>, o: string)
    requires GlobFor(g, members, o)
    ensures Serves(g, members)
  {
    MatchesItself(Spelled(o));
    MatchesOwn(g, members, o, Spelled(o));
    forall s: string | Fnmatch(s, g)
      ensures Caught(members, s)
    {
      assert CaughtAlike(members, o, s);
    }
  }

  lemma GlobsServe(globs: seq<string>, members: seq<Member>, whose: seq<string>)
    requires Assigned(globs, members, whose)
    ensures AllServe(globs, members)
  {
    forall g | g in globs
      ensures Serves(g, members)
    {
      var i :| 0 <= i < |globs| && globs[i] == g;
      GlobForServes(g, members, whose[i]);
    }
  }

  lemma CaughtIsMatched(globs: seq<string>, members: seq<Member>, whose: seq<string>, o: string, s: string)
    requires Assigned(globs, members, whose) && AllWrittenWith(members, whose) && Open(members, o) && Catches(o, s)
    ensures MatchesAny(globs, s)
  {
    assert WrittenWith(whose, o);
    var i :| 0 <= i < |whose| && SameGlob(whose[i], o);
    assert CaughtAlike(members, whose[i], s);
    assert Fnmatch(s, globs[i]);
  }

  lemma GlobsMatchAll(globs: seq<string>, members: seq<Member>, whose: seq<string>)
    requires Assigned(globs, members, whose) && AllWrittenWith(members, whose)
    ensures AllMatched(globs, members)
  {
    forall s: string | Caught(members, s)
      ensures MatchesAny(globs, s)
    {
      var o :| Open(members, o) && Catches(o, s);
      CaughtIsMatched(globs, members, whose, o, s);
    }
    if Open(members, "") {
      assert WrittenWith(whose, "");
      var i :| 0 <= i < |whose| && SameGlob(whose[i], "");
      assert globs[i] == "";
    }
  }

  // ---- Sorting out the members ----

  predicate IsBit(sig: string, bit: nat) {
    IndexOf(sig).Some? && IntOf(IndexOf(sig).value.digits) == bit
  }

  ghost predicate OpenBit(members: seq<Member>, bit: nat) {
    exists o :: Open(members, o) && IsBit(o, bit)
  }

  /** No name is there twice. */
  ghost predicate Unique(members: seq<Member>) {
    forall i, j :: 0 <= i < j < |members| ==> members[i].sig != members[j].sig
  }

  ghost predicate Distinct(names: seq<string>) {
    forall i, j :: 0 <= i < j < |names| ==> names[i] != names[j]
  }

  /** The uncovered names without an index, the values of the uncovered indices, and of all indices. */
  ghost predicate Sorted(members: seq<Member>, plain: seq<string>, want: seq<nat>, present: seq<nat>) {
    && (forall s :: s in plain <==> Open(members, s) && IndexOf(s).None?)
    && (forall b :: b in want <==> OpenBit(members, b))
    && (forall b :: b in want ==> b in present)
  }

  lemma OpenGrows(members: seq<Member>, m: Member, s: string)
    ensures Open(members + [m], s) <==> Open(members, s) || m == Member(s, 0)
  {
  }

  lemma OpenBitGrows(members: seq<Member>, m: Member, b: nat)
    ensures OpenBit(members + [m], b) <==> OpenBit(members, b) || (m.count == 0 && IsBit(m.sig, b))
  {
    forall s
      ensures Open(members + [m], s) <==> Open(members, s) || m == Member(s, 0)
    {
      OpenGrows(members, m, s);
    }
    if m.count == 0 && IsBit(m.sig, b) {
      assert m == Member(m.sig, 0) && Open(members + [m], m.sig);
    }
  }

  /** One more member: its name or its bit where it belongs. */
  lemma SortsOneMore(members: seq<Member>, plain: seq<string>, want: seq<nat>, present: seq<nat>, m: Member)
    requires Sorted(members, plain, want, present)
    ensures Sorted(members + [m],
                   plain + (if m.count == 0 && IndexOf(m.sig).None? then [m.sig] else []),
                   want + (if m.count == 0 then Bits(m.sig) else []),
                   present + Bits(m.sig))
  {
    forall s
      ensures Open(members + [m], s) <==> Open(members, s) || m == Member(s, 0)
    {
      OpenGrows(members, m, s);
    }
    forall b
      ensures OpenBit(members + [m], b) <==> OpenBit(members, b) || (m.count == 0 && b in Bits(m.sig))
    {
      OpenBitGrows(members, m, b);
    }
  }

  /** The value of a name's index, if it has one. */
  function Bits(sig: string): seq<nat> {
    match IndexOf(sig) case Some(x) => [IntOf(x.digits)] case None => []
  }

  lemma NewName(members: seq<Member>, i: nat, plain: seq<string>, want: seq<nat>, present: seq<nat>)
    requires i < |members| && Unique(members) && Sorted(members[..i], plain, want, present)
    ensures members[i].sig !in plain
  {
    assert forall s :: s in plain ==> Open(members[..i], s);
  }

  /** One more member, as the loop takes it. */
  lemma SortsNext(members: seq<Member>, i: nat, plain: seq<string>, want: seq<nat>, present: seq<nat>, m: Member)
    requires i < |members| && m == members[i] && Sorted(members[..i], plain, want, present)
    ensures m.count > 0 ==> Sorted(members[..i + 1], plain, want, present + Bits(m.sig))
    ensures m.count == 0 && Bits(m.sig) != [] ==>
      Sorted(members[..i + 1], plain, want + Bits(m.sig), present + Bits(m.sig))
    ensures m.count == 0 && Bits(m.sig) == [] ==> Sorted(members[..i + 1], plain + [m.sig], want, present)
  {
    SortsOneMore(members[..i], plain, want, present, m);
    TakeOneMore(members, i);
    PlusNothing(plain);
    PlusNothing(want);
    PlusNothing(present);
  }

  lemma DistinctLonger(plain: seq<string>, sig: string)
    requires Distinct(plain) && sig !in plain
    ensures Distinct(plain + [sig])
  {
  }

  method SortMembers(members: seq<Member>) returns (plain: seq<string>, want: seq<nat>, present: seq<nat>)
    requires Unique(members)
    ensures Sorted(members, plain, want, present) && Distinct(plain)
  {
    plain, want, present := [], [], [];
    for i := 0 to |members|
      invariant Sorted(members[..i], plain, want, present) && Distinct(plain)
    {
      var m := members[i];
      var bits := Bits(m.sig);
      SortsNext(members, i, plain, want, present, m);
      NewName(members, i, plain, want, present);
      DistinctLonger(plain, m.sig);
      PlusNothing(want);
      PlusNothing(present);
      present := present + bits;
      if m.count == 0 {
        want := want + bits;
        if bits == [] {
          plain := plain + [m.sig];
        }
      }
    }
    TakeAll(members);
  }

  // ---- Globs for both kinds ----

  lemma LiteralIsEmpty(sig: string)
    ensures GlobLiteral(sig) == "" <==> sig == ""
  {
  }

  lemma LiteralFor(members: seq<Member>, sig: string)
    requires Open(members, sig) && IndexOf(sig).None?
    ensures GlobFor(GlobLiteral(sig), members, sig)
  {
    LiteralIsEmpty(sig);
    assert Spelled(sig) == sig;
    forall s: string
      ensures Fnmatch(s, GlobLiteral(sig)) <==> CaughtAlike(members, sig, s)
    {
      assert SameGlob(sig, sig);
      assert forall x :: SameGlob(sig, x) ==> x == sig;
    }
  }

  lemma BitIsSpelled(members: seq<Member>, base: string, o: string, b: nat)
    requires OfBase(members, base) && Open(members, o) && IsBit(o, b)
    ensures Spelled(o) == Name(base, b)
  {
    assert Member(o, 0) in members && BaseOf(Member(o, 0).sig) == base;
  }

  // The wanted bits with the leading digits of `b` are the uncovered names written with the glob of `o`.

  lemma FrontIsAlike(base: string, members: seq<Member>, want: seq<nat>, o: string, b: nat, s: string)
    requires OfBase(members, base) && forall x :: x in want ==> OpenBit(members, x)
    requires Open(members, o) && IsBit(o, b) && LikeFront(base, want, Front(Dec(b)), s)
    ensures CaughtAlike(members, o, s)
  {
    var y: nat :| y in want && Front(Dec(y)) == Front(Dec(b)) && Fnmatch(s, GlobLiteral(Name(base, y)));
    var x :| Open(members, x) && IsBit(x, y);
    BitIsSpelled(members, base, x, y);
    assert SameGlob(o, x) && Catches(x, s);
  }

  lemma AlikeIsFront(base: string, members: seq<Member>, want: seq<nat>, o: string, b: nat, s: string)
    requires OfBase(members, base) && forall x :: OpenBit(members, x) ==> x in want
    requires Open(members, o) && IsBit(o, b) && CaughtAlike(members, o, s)
    ensures LikeFront(base, want, Front(Dec(b)), s)
  {
    var x :| Open(members, x) && SameGlob(o, x) && Catches(x, s);
    var y := IntOf(IndexOf(x).value.digits);
    assert IsBit(x, y) && OpenBit(members, y);
    BitIsSpelled(members, base, x, y);
  }

  lemma FoldedFor(base: string, members: seq<Member>, want: seq<nat>, g: string, o: string, b: nat)
    requires OfBase(members, base) && forall x :: x in want <==> OpenBit(members, x)
    requires Open(members, o) && IsBit(o, b) && HasFront(g, base, want, Front(Dec(b)))
    ensures GlobFor(g, members, o)
  {
    assert OpenBit(members, b);
    FrontHasBit(g, base, want, b);
    forall s: string
      ensures Fnmatch(s, g) <==> CaughtAlike(members, o, s)
    {
      if Fnmatch(s, g) {
        FrontIsAlike(base, members, want, o, b, s);
      }
      if CaughtAlike(members, o, s) {
        AlikeIsFront(base, members, want, o, b, s);
      }
    }
  }

  /** An uncovered indexed name with these leading digits in its value. */
  ghost predicate OfFront(members: seq<Member>, o: string, p: string) {
    Open(members, o) && IndexOf(o).Some? && Front(Dec(IntOf(IndexOf(o).value.digits))) == p
  }

  lemma NameOfFront(members: seq<Member>, want: seq<nat>, p: string)
    requires forall x :: x in want ==> OpenBit(members, x)
    requires WantsFront(want, p)
    ensures HasFrontName(members, p)
  {
    var b: nat :| b in want && Front(Dec(b)) == p;
    var o :| Open(members, o) && IsBit(o, b);
    assert OfFront(members, o, p);
  }

  ghost predicate HasFrontName(members: seq<Member>, p: string) {
    exists o :: OfFront(members, o, p)
  }

  ghost function FrontName(members: seq<Member>, p: string): (o: string)
    requires HasFrontName(members, p)
    ensures OfFront(members, o, p)
  {
    var o :| OfFront(members, o, p);
    o
  }

  /** A name for each of the globs of the wanted bits. */
  lemma NamesOfFronts(members: seq<Member>, want: seq<nat>, fronts: seq<string>) returns (whose: seq<string>)
    requires (forall x :: x in want ==> OpenBit(members, x)) && AreFronts(fronts, want)
    ensures |whose| == |fronts| && forall i :: 0 <= i < |whose| ==> OfFront(members, whose[i], fronts[i])
  {
    forall i | 0 <= i < |fronts|
      ensures HasFrontName(members, fronts[i])
    {
      assert fronts[i] in fronts && WantsFront(want, fronts[i]);
      NameOfFront(members, want, fronts[i]);
    }
    whose := seq(|fronts|, i requires 0 <= i < |fronts| && HasFrontName(members, fronts[i]) =>
      FrontName(members, fronts[i]));
  }

  lemma FoldedAssigned(base: string, members: seq<Member>, want: seq<nat>, folded: seq<string>, fronts: seq<string>,
                       whose: seq<string>)
    requires OfBase(members, base) && forall x :: x in want <==> OpenBit(members, x)
    requires ByFront(folded, base, want, fronts) && |whose| == |fronts|
    requires forall i :: 0 <= i < |whose| ==> OfFront(members, whose[i], fronts[i])
    ensures Assigned(folded, members, whose)
  {
    forall i | 0 <= i < |folded|
      ensures GlobFor(folded[i], members, whose[i])
    {
      FoldedFor(base, members, want, folded[i], whose[i], IntOf(IndexOf(whose[i]).value.digits));
    }
  }

  method PlainGlobs(plain: seq<string>, ghost members: seq<Member>) returns (globs: seq<string>)
    requires forall s :: s in plain ==> Open(members, s) && IndexOf(s).None?
    ensures Assigned(globs, members, plain)
  {
    globs := [];
    for i := 0 to |plain|
      invariant |globs| == i && forall j :: 0 <= j < i ==> GlobFor(globs[j], members, plain[j])
    {
      LiteralFor(members, plain[i]);
      globs := globs + [GlobLiteral(plain[i])];
    }
  }

  method FoldedGlobs(base: string, want: seq<nat>, present: seq<nat>)
    returns (globs: seq<string>, ghost fronts: seq<string>)
    requires forall b :: b in want ==> b in present
    ensures Folds(globs, base, want, fronts)
  {
    var r;
    r, fronts := CombineBits.CombineBits(base, want, present);
    // Every wanted bit is present, so the folding never has to be given up for one glob a bit.
    globs := r.value;
  }

  lemma AssignedBoth(members: seq<Member>, a: seq<string>, v: seq<string>, b: seq<string>, w: seq<string>)
    requires Assigned(a, members, v) && Assigned(b, members, w)
    ensures Assigned(a + b, members, v + w)
  {
    PairedBoth((g, o) => GlobFor(g, members, o), a, v, b, w);
  }

  lemma ApartBoth(plain: seq<string>, members: seq<Member>, whose: seq<string>, fronts: seq<string>)
    requires Distinct(plain) && forall s :: s in plain ==> IndexOf(s).None?
    requires |whose| == |fronts| && forall i :: 0 <= i < |whose| ==> OfFront(members, whose[i], fronts[i])
    requires forall i, j :: 0 <= i < j < |fronts| ==> fronts[i] != fronts[j]
    ensures Apart(plain + whose)
  {
    var all := plain + whose;
    forall i, j | 0 <= i < j < |all|
      ensures !SameGlob(all[i], all[j])
    {
      if i < |plain| {
        assert plain[i] in plain && (j < |plain| ==> plain[j] in plain);
      }
    }
  }

  lemma WrittenInMore(a: seq<string>, b: seq<string>, o: string)
    requires WrittenWith(a, o) || WrittenWith(b, o)
    ensures WrittenWith(a + b, o)
  {
    if WrittenWith(a, o) {
      var i :| 0 <= i < |a| && SameGlob(a[i], o);
      assert (a + b)[i] == a[i];
    } else {
      var i :| 0 <= i < |b| && SameGlob(b[i], o);
      assert (a + b)[|a| + i] == b[i];
    }
  }

  lemma IndexedIsWritten(members: seq<Member>, want: seq<nat>, fronts: seq<string>, whose: seq<string>, o: string,
                         b: nat)
    requires b in want && AreFronts(fronts, want) && IsBit(o, b)
    requires |whose| == |fronts| && forall i :: 0 <= i < |whose| ==> OfFront(members, whose[i], fronts[i])
    ensures WrittenWith(whose, o)
  {
    var i :| 0 <= i < |fronts| && fronts[i] == Front(Dec(b));
    assert OfFront(members, whose[i], fronts[i]) && SameGlob(whose[i], o);
  }

  lemma WrittenInBoth(members: seq<Member>, plain: seq<string>, want: seq<nat>, present: seq<nat>, fronts: seq<string>,
                      whose: seq<string>, o: string)
    requires Sorted(members, plain, want, present) && Open(members, o) && AreFronts(fronts, want)
    requires |whose| == |fronts| && forall i :: 0 <= i < |whose| ==> OfFront(members, whose[i], fronts[i])
    ensures WrittenWith(plain + whose, o)
  {
    if IndexOf(o).None? {
      var i :| 0 <= i < |plain| && plain[i] == o;
      assert SameGlob(plain[i], o);
    } else {
      var b := IntOf(IndexOf(o).value.digits);
      assert IsBit(o, b) && OpenBit(members, b);
      IndexedIsWritten(members, want, fronts, whose, o, b);
    }
    WrittenInMore(plain, whose, o);
  }

  // ---- When they are exact ----

  lemma FoldableIsExact(members: seq<Member>, globs: seq<string>)
    requires Describes(globs, members) && AllFoldable(members)
    ensures Exact(globs, members)
  {
    forall o | Open(members, o)
      ensures Spelled(o) == o != "" && forall s :: Catches(o, s) <==> s == o
    {
      assert Foldable(Member(o, 0).sig);
      SpelledIsCanonical(o);
      forall s: string {
        PlainCatches(o, s);
      }
    }
    forall g | g in globs
      ensures Apt(g, members)
    {
      assert Serves(g, members);
      var o :| Open(members, o) && Fnmatch(Spelled(o), g);
      EmptyGlob(o);
    }
    forall s | Open(members, s)
      ensures MatchesAny(globs, s)
    {
      assert Catches(s, s);
    }
  }

  lemma AptCatchesOpen(members: seq<Member>, globs: seq<string>, s: string)
    requires Describes(globs, members) && Caught(members, s)
    requires forall g :: g in globs ==> Apt(g, members)
    ensures Open(members, s)
  {
    assert MatchesAny(globs, s);
    var i :| 0 <= i < |globs| && Fnmatch(s, globs[i]);
    assert Apt(globs[i], members);
  }

  /** Apt globs catch no name of another base, so no uncovered name has a wildcard. */
  lemma AptMeansPlain(base: string, members: seq<Member>, globs: seq<string>, o: string)
    requires OfBase(members, base) && Describes(globs, members) && Open(members, o)
    requires forall g :: g in globs ==> Apt(g, members)
    ensures o != "" && Plain(o)
  {
    assert BaseOf(Member(o, 0).sig) == base;
    if !Plain(o) {
      var other := WildcardCatchesAnother(o);
      AptCatchesOpen(members, globs, other);
    }
  }

  lemma ExactIsFoldable(base: string, members: seq<Member>, globs: seq<string>, o: string)
    requires OfBase(members, base) && Describes(globs, members) && Exact(globs, members) && Open(members, o)
    ensures Foldable(o)
  {
    AptMeansPlain(base, members, globs, o);
    var i :| 0 <= i < |globs| && Fnmatch(o, globs[i]);
    assert Serves(globs[i], members);
    var x :| Open(members, x) && Catches(x, o);
    AptMeansPlain(base, members, globs, x);
    SpelledPlain(x);
    PlainCatches(x, o);
    SpelledIsCanonical(x);
  }

  /** The globs are exact, among all names there are, if and only if every uncovered name is foldable. */
  lemma ExactIffFoldable(base: string, members: seq<Member>, globs: seq<string>)
    requires OfBase(members, base) && Describes(globs, members)
    ensures Exact(globs, members) <==> AllFoldable(members)
  {
    if AllFoldable(members) {
      FoldableIsExact(members, globs);
    }
    if Exact(globs, members) {
      forall m | m in members && m.count == 0
        ensures Foldable(m.sig)
      {
        assert m == Member(m.sig, 0);
        ExactIsFoldable(base, members, globs, m.sig);
      }
    }
  }

  method MemberGlobs(base: string, members: seq<Member>) returns (globs: seq<string>, ghost whose: seq<string>)
    requires OfBase(members, base) && Unique(members)
    ensures OneGlobEach(globs, members, whose)
    ensures Exact(globs, members) <==> AllFoldable(members)
  {
    var plain, want, present := SortMembers(members);
    var literal := PlainGlobs(plain, members);
    var folded, fronts := FoldedGlobs(base, want, present);
    globs := literal + folded;
    ghost var indexed := NamesOfFronts(members, want, fronts);
    whose := plain + indexed;
    FoldedAssigned(base, members, want, folded, fronts, indexed);
    AssignedBoth(members, literal, plain, folded, indexed);
    ApartBoth(plain, members, indexed, fronts);
    forall o | Open(members, o)
      ensures WrittenWith(whose, o)
    {
      WrittenInBoth(members, plain, want, present, fronts, indexed, o);
    }
    GlobsServe(globs, members, whose);
    GlobsMatchAll(globs, members, whose);
    ExactIffFoldable(base, members, globs);
  }
}
