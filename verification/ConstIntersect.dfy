/** Constant bits of one wire over several elaborations, where a bit may be absent from some of them. */
module ConstIntersect {
  /** Which bits of a wire are constant, of those from `lo` up to but not including `hi` that it is declared with. */
  datatype Bits = Bits(bits: set<int>, lo: int, hi: int) {
    predicate Has(i: int) {
      lo <= i < hi
    }

    function Span(): set<int> {
      set i | lo <= i < hi && Has(i)
    }

    predicate Valid() {
      bits <= Span()
    }
  }

  function Every(sets: seq<Bits>): set<int> {
    if sets == [] then {} else sets[0].Span() + Every(sets[1..])
  }

  /** The intersection of all sets, each one completed with the bits it does not have. */
  function Meet(sets: seq<Bits>, every: set<int>): set<int>
    requires sets != []
  {
    var b := sets[0].bits + (every - sets[0].Span());
    if |sets| == 1 then b else b * Meet(sets[1..], every)
  }

  function MinLo(sets: seq<Bits>): int
    requires sets != []
  {
    if |sets| == 1 || sets[0].lo <= MinLo(sets[1..]) then sets[0].lo else MinLo(sets[1..])
  }

  function MaxHi(sets: seq<Bits>): int
    requires sets != []
  {
    if |sets| == 1 || sets[0].hi >= MaxHi(sets[1..]) then sets[0].hi else MaxHi(sets[1..])
  }

  function Intersect(sets: seq<Bits>): Bits
    requires sets != []
  {
    Bits(Meet(sets, Every(sets)), MinLo(sets), MaxHi(sets))
  }

  /** Some set has the bit, and every set that has it has it constant. */
  ghost predicate ConstantWherePresent(sets: seq<Bits>, x: int) {
    && (exists b :: b in sets && x in b.Span())
    && (forall b :: b in sets && x in b.Span() ==> x in b.bits)
  }

  lemma {:induction false} EveryMeaning(sets: seq<Bits>, x: int)
    ensures x in Every(sets) <==> exists b :: b in sets && x in b.Span()
  {
    if sets != [] {
      EveryMeaning(sets[1..], x);
      assert sets == [sets[0]] + sets[1..];
    }
  }

  lemma {:induction false} MeetMeaning(sets: seq<Bits>, every: set<int>, x: int)
    requires sets != []
    ensures x in Meet(sets, every) <==> forall b :: b in sets ==> x in b.bits || (x in every && x !in b.Span())
  {
    assert sets == [sets[0]] + sets[1..];
    if |sets| > 1 {
      MeetMeaning(sets[1..], every, x);
    }
  }

  /** The span of an intersection is the hull of all spans: the least lower and greatest upper end. */
  lemma {:induction false} HullIsTight(sets: seq<Bits>)
    requires sets != []
    ensures forall b :: b in sets ==> MinLo(sets) <= b.lo && b.hi <= MaxHi(sets)
    ensures exists b :: b in sets && b.lo == MinLo(sets)
    ensures exists b :: b in sets && b.hi == MaxHi(sets)
  {
    assert sets == [sets[0]] + sets[1..];
    if |sets| > 1 {
      HullIsTight(sets[1..]);
    }
  }

  lemma HullCovers(sets: seq<Bits>)
    requires sets != []
    ensures forall b, x :: b in sets && x in b.Span() ==> x in Intersect(sets).Span()
  {
    HullIsTight(sets);
  }

  /** A bit is kept exactly when some set has it and every set that has it has it constant. */
  lemma IntersectMeaning(sets: seq<Bits>, x: int)
    requires sets != [] && forall b :: b in sets ==> b.Valid()
    ensures x in Intersect(sets).bits <==> ConstantWherePresent(sets, x)
  {
    EveryMeaning(sets, x);
    MeetMeaning(sets, Every(sets), x);
    assert sets[0] in sets;
  }

  lemma IntersectValid(sets: seq<Bits>)
    requires sets != [] && forall b :: b in sets ==> b.Valid()
    ensures Intersect(sets).Valid()
  {
    HullCovers(sets);
    forall x | x in Intersect(sets).bits
      ensures x in Intersect(sets).Span()
    {
      IntersectMeaning(sets, x);
    }
  }

  // ---- Intersections of intersections: instances first, then configurations ----

  ghost predicate Grouped(groups: seq<seq<Bits>>) {
    && groups != []
    && (forall g :: g in groups ==> g != [])
    && (forall g, b :: g in groups && b in g ==> b.Valid())
  }

  function Merged(groups: seq<seq<Bits>>): seq<Bits>
    requires forall g :: g in groups ==> g != []
  {
    seq(|groups|, i requires 0 <= i < |groups| => assert groups[i] in groups; Intersect(groups[i]))
  }

  function Leaves(groups: seq<seq<Bits>>): seq<Bits> {
    if groups == [] then [] else groups[0] + Leaves(groups[1..])
  }

  lemma {:induction false} LeavesMeaning(groups: seq<seq<Bits>>, b: Bits)
    ensures b in Leaves(groups) <==> exists g :: g in groups && b in g
  {
    if groups != [] {
      LeavesMeaning(groups[1..], b);
      assert groups == [groups[0]] + groups[1..];
    }
  }

  /** The group's hull has the bit only if one of its leaves has it. */
  ghost predicate NoGapAt(g: seq<Bits>, x: int)
    requires g != []
  {
    x in Intersect(g).Span() ==> exists b :: b in g && x in b.Span()
  }

  /** The nested intersection, in terms of the groups. */
  ghost predicate ConstantInGroups(groups: seq<seq<Bits>>, x: int)
    requires forall g :: g in groups ==> g != []
  {
    && (exists g :: g in groups && x in Intersect(g).Span())
    && (forall g :: g in groups && x in Intersect(g).Span() ==> ConstantWherePresent(g, x))
  }

  lemma MergedMeaning(groups: seq<seq<Bits>>, x: int)
    requires Grouped(groups)
    ensures x in Intersect(Merged(groups)).bits <==> ConstantInGroups(groups, x)
  {
    var merged := Merged(groups);
    forall i | 0 <= i < |groups|
      ensures merged[i].Valid() && (x in merged[i].bits <==> ConstantWherePresent(groups[i], x))
    {
      assert groups[i] in groups;
      IntersectValid(groups[i]);
      IntersectMeaning(groups[i], x);
    }
    IntersectMeaning(merged, x);
    assert forall i :: 0 <= i < |groups| ==> groups[i] in groups && merged[i] in merged;
  }

  lemma GroupsToLeaves(groups: seq<seq<Bits>>, x: int)
    requires Grouped(groups) && ConstantInGroups(groups, x)
    ensures ConstantWherePresent(Leaves(groups), x)
  {
    var g :| g in groups && x in Intersect(g).Span();
    var b :| b in g && x in b.Span();
    LeavesMeaning(groups, b);
    forall c | c in Leaves(groups) && x in c.Span()
      ensures x in c.bits
    {
      LeavesMeaning(groups, c);
      var h :| h in groups && c in h;
      HullCovers(h);
    }
  }

  lemma LeavesToGroups(groups: seq<seq<Bits>>, x: int)
    requires Grouped(groups) && ConstantWherePresent(Leaves(groups), x)
    requires forall g :: g in groups ==> NoGapAt(g, x)
    ensures ConstantInGroups(groups, x)
  {
    var b :| b in Leaves(groups) && x in b.Span();
    LeavesMeaning(groups, b);
    var g :| g in groups && b in g;
    HullCovers(g);
    assert x in Intersect(g).Span();
    forall h, c | h in groups && c in h
      ensures c in Leaves(groups)
    {
      LeavesMeaning(groups, c);
    }
  }

  /**
   * The nested intersection keeps a bit exactly when the flat one over all leaves does and the bit
   * falls in no gap between the leaf spans of a group: it never keeps more than the flat one, and
   * is equal to it where no group leaves a gap.
   */
  lemma NestedIsFlatWithoutGaps(groups: seq<seq<Bits>>, x: int)
    requires Grouped(groups)
    ensures x in Intersect(Merged(groups)).bits <==>
      ConstantWherePresent(Leaves(groups), x) && forall g :: g in groups ==> NoGapAt(g, x)
  {
    MergedMeaning(groups, x);
    if ConstantInGroups(groups, x) {
      GroupsToLeaves(groups, x);
    }
    if ConstantWherePresent(Leaves(groups), x) && forall g :: g in groups ==> NoGapAt(g, x) {
      LeavesToGroups(groups, x);
    }
  }

  // ---- A gap ----

  const LOW := Bits({0}, 0, 1)
  const HIGH := Bits({2}, 2, 3)
  const MIDDLE := Bits({1}, 1, 2)

  lemma LeavesOfTwo(g: seq<Bits>, h: seq<Bits>)
    ensures Leaves([g, h]) == g + h
  {
    assert [g, h][1..] == [h] && [h][1..] == [];
    assert Leaves([h]) == h + [];
  }

  /** Bit 1 falls between the two leaves of the first group: kept flat, lost when the groups are merged first. */
  lemma GapLosesBit()
    ensures var groups := [[LOW, HIGH], [MIDDLE]];
      1 in Intersect(Leaves(groups)).bits && 1 !in Intersect(Merged(groups)).bits
  {
    var g, h := [LOW, HIGH], [MIDDLE];
    LeavesOfTwo(g, h);
    assert g + h == [LOW, HIGH, MIDDLE];
    assert MIDDLE in g + h && 1 in MIDDLE.Span();
    IntersectMeaning(g + h, 1);
    HullIsTight(g);
    assert LOW in g && HIGH in g && 1 in Intersect(g).Span();
    assert !NoGapAt(g, 1) && g in [g, h];
    NestedIsFlatWithoutGaps([g, h], 1);
  }
}
