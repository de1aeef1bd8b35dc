/** Constant bits of an elaborated netlist: the closure of tied bits over wire-to-wire connections. */
module ConstAlias {
  type Bit = (string, int)  // a wire and an index in it

  datatype SigBit = Wire(bit: Bit) | Const(level: char)

  /** `connect lhs rhs`, both sides as bits; a side the tool could not read is empty. */
  datatype Connect = Connect(lhs: seq<SigBit>, rhs: seq<SigBit>)

  type Pair = (SigBit, SigBit)  // one bit of a connection: the first is driven by the second

  predicate Usable(c: Connect) {
    c.lhs != [] && c.rhs != [] && |c.lhs| == |c.rhs|
  }

  function Zip(l: seq<SigBit>, r: seq<SigBit>): seq<Pair>
    requires |l| == |r|
  {
    seq(|l|, i requires 0 <= i < |l| => (l[i], r[i]))
  }

  function Pairs(cs: seq<Connect>): seq<Pair> {
    if cs == [] then []
    else
      var c := cs[|cs| - 1];
      Pairs(cs[..|cs| - 1]) + if Usable(c) then Zip(c.lhs, c.rhs) else []
  }

  predicate Tied(ps: seq<Pair>, b: Bit) {
    (Wire(b), Const('0')) in ps || (Wire(b), Const('1')) in ps
  }

  predicate Alias(ps: seq<Pair>, l: Bit, r: Bit) {
    (Wire(l), Wire(r)) in ps
  }

  ghost predicate IsChain(ps: seq<Pair>, chain: seq<Bit>) {
    |chain| > 0 && forall i :: 0 < i < |chain| ==> Alias(ps, chain[i - 1], chain[i])
  }

  /** A chain of aliases leads from the bit to one tied to 0 or 1. */
  ghost predicate ReachesTie(ps: seq<Pair>, b: Bit) {
    exists chain :: IsChain(ps, chain) && chain[0] == b && Tied(ps, chain[|chain| - 1])
  }

  lemma TiedReaches(ps: seq<Pair>, b: Bit)
    requires Tied(ps, b)
    ensures ReachesTie(ps, b)
  {
    assert IsChain(ps, [b]);
  }

  lemma AliasReaches(ps: seq<Pair>, l: Bit, r: Bit)
    requires Alias(ps, l, r) && ReachesTie(ps, r)
    ensures ReachesTie(ps, l)
  {
    var chain :| IsChain(ps, chain) && chain[0] == r && Tied(ps, chain[|chain| - 1]);
    var longer := [l] + chain;
    forall i | 0 < i < |longer|
      ensures Alias(ps, longer[i - 1], longer[i])
    {
      if i > 1 {
        assert longer[i - 1] == chain[i - 2] && longer[i] == chain[i - 1];
      }
    }
    assert IsChain(ps, longer);
  }

  ghost predicate Collected(ps: seq<Pair>, tied: set<Bit>, alias: seq<(Bit, Bit)>) {
    && (forall b :: b in tied <==> Tied(ps, b))
    && (forall l, r :: (l, r) in alias <==> Alias(ps, l, r))
  }

  /** The tied bits and the aliases of all usable connections. */
  method Collect(cs: seq<Connect>) returns (tied: set<Bit>, alias: seq<(Bit, Bit)>)
    ensures Collected(Pairs(cs), tied, alias)
  {
    tied, alias := {}, [];
    for k := 0 to |cs|
      invariant Collected(Pairs(cs[..k]), tied, alias)
    {
      var c := cs[k];
      assert cs[..k + 1][..k] == cs[..k];
      if Usable(c) {
        tied, alias := CollectBits(Pairs(cs[..k]), c, tied, alias);
      }
    }
    assert cs[..|cs|] == cs;
  }

  method CollectBits(ghost ps: seq<Pair>, c: Connect, tied: set<Bit>, alias: seq<(Bit, Bit)>)
    returns (tied': set<Bit>, alias': seq<(Bit, Bit)>)
    requires |c.lhs| == |c.rhs| && Collected(ps, tied, alias)
    ensures Collected(ps + Zip(c.lhs, c.rhs), tied', alias')
  {
    tied', alias' := tied, alias;
    ghost var zip := Zip(c.lhs, c.rhs);
    for i := 0 to |c.lhs|
      invariant Collected(ps + zip[..i], tied', alias')
    {
      assert zip[..i + 1] == zip[..i] + [(c.lhs[i], c.rhs[i])];
      match (c.lhs[i], c.rhs[i]) {
        case (Wire(l), Const(level)) =>
          if level == '0' || level == '1' {
            tied' := tied' + {l};
          }
        case (Wire(l), Wire(r)) =>
          alias' := alias' + [(l, r)];
        case _ =>
      }
    }
  }

  ghost predicate Sound(ps: seq<Pair>, const_: set<Bit>) {
    forall b :: b in const_ ==> ReachesTie(ps, b)
  }

  ghost predicate Closed(alias: seq<(Bit, Bit)>, const_: set<Bit>) {
    forall k :: 0 <= k < |alias| && alias[k].1 in const_ ==> alias[k].0 in const_
  }

  /** Grows the constant bits along the aliases until a whole pass adds none. */
  method Close(ghost ps: seq<Pair>, tied: set<Bit>, alias: seq<(Bit, Bit)>) returns (const_: set<Bit>)
    requires Collected(ps, tied, alias)
    ensures forall b :: b in const_ <==> ReachesTie(ps, b)
  {
    const_ := tied;
    forall b | b in tied {
      TiedReaches(ps, b);
    }
    var changed := true;
    while changed
      invariant tied <= const_ && Sound(ps, const_)
      invariant !changed ==> Closed(alias, const_)
      decreases Driven(alias) - const_, changed
    {
      const_, changed := Pass(ps, alias, const_);
    }
    ClosedIsComplete(ps, tied, alias, const_);
  }

  /** One pass over the aliases, in place: later aliases see the bits earlier ones added. */
  method Pass(ghost ps: seq<Pair>, alias: seq<(Bit, Bit)>, before: set<Bit>) returns (const_: set<Bit>, changed: bool)
    requires Sound(ps, before) && forall l, r :: (l, r) in alias ==> Alias(ps, l, r)
    ensures before <= const_ && Sound(ps, const_)
    ensures changed ==> Driven(alias) - const_ < Driven(alias) - before
    ensures !changed ==> const_ == before && Closed(alias, const_)
  {
    const_, changed := before, false;
    for k := 0 to |alias|
      invariant before <= const_ && Sound(ps, const_)
      invariant if changed then Driven(alias) - const_ < Driven(alias) - before
                else const_ == before && forall j :: 0 <= j < k && alias[j].1 in const_ ==> alias[j].0 in const_
    {
      var (l, r) := alias[k];
      if r in const_ && l !in const_ {
        assert (l, r) in alias && l in Driven(alias);
        AliasReaches(ps, l, r);
        const_ := const_ + {l};
        changed := true;
      }
    }
  }

  lemma ClosedIsComplete(ps: seq<Pair>, tied: set<Bit>, alias: seq<(Bit, Bit)>, const_: set<Bit>)
    requires Collected(ps, tied, alias) && tied <= const_ && Closed(alias, const_)
    ensures forall b :: ReachesTie(ps, b) ==> b in const_
  {
    forall b | ReachesTie(ps, b)
      ensures b in const_
    {
      var chain :| IsChain(ps, chain) && chain[0] == b && Tied(ps, chain[|chain| - 1]);
      ChainInside(ps, alias, const_, chain, 0);
    }
  }

  function Driven(alias: seq<(Bit, Bit)>): set<Bit> {
    set k | 0 <= k < |alias| :: alias[k].0
  }

  lemma {:induction false} ChainInside(ps: seq<Pair>, alias: seq<(Bit, Bit)>, const_: set<Bit>, chain: seq<Bit>, i: nat)
    requires forall l, r :: Alias(ps, l, r) ==> (l, r) in alias
    requires Closed(alias, const_)
    requires IsChain(ps, chain) && i < |chain| && chain[|chain| - 1] in const_
    ensures chain[i] in const_
    decreases |chain| - i
  {
    if i < |chain| - 1 {
      ChainInside(ps, alias, const_, chain, i + 1);
      assert Alias(ps, chain[i], chain[i + 1]);
    }
  }

  // ---- What constant means: one value in every valuation of the wires ----

  /** A valuation, as the set of bits at 1, that satisfies every connection. */
  ghost predicate Satisfies(ps: seq<Pair>, high: iset<Bit>) {
    && (forall l, r :: Alias(ps, l, r) ==> (l in high <==> r in high))
    && (forall b :: (Wire(b), Const('0')) in ps ==> b !in high)
    && (forall b :: (Wire(b), Const('1')) in ps ==> b in high)
  }

  lemma {:induction false} ChainFixes(ps: seq<Pair>, chain: seq<Bit>, i: nat, u: iset<Bit>, v: iset<Bit>)
    requires IsChain(ps, chain) && Tied(ps, chain[|chain| - 1]) && i < |chain|
    requires Satisfies(ps, u) && Satisfies(ps, v)
    ensures chain[i] in u <==> chain[i] in v
    decreases |chain| - i
  {
    if i < |chain| - 1 {
      ChainFixes(ps, chain, i + 1, u, v);
      assert Alias(ps, chain[i], chain[i + 1]);
    }
  }

  /** A bit the closure calls constant has the same value in all valuations. */
  lemma ConstantsAreFixed(ps: seq<Pair>, b: Bit, u: iset<Bit>, v: iset<Bit>)
    requires ReachesTie(ps, b) && Satisfies(ps, u) && Satisfies(ps, v)
    ensures b in u <==> b in v
  {
    var chain :| IsChain(ps, chain) && chain[0] == b && Tied(ps, chain[|chain| - 1]);
    ChainFixes(ps, chain, 0, u, v);
  }

  /** No wire bit is driven by two different things. */
  ghost predicate SingleDriver(ps: seq<Pair>) {
    forall l, r, s :: (Wire(l), r) in ps && (Wire(l), s) in ps ==> r == s
  }

  /** The same valuation with every bit outside the closure inverted. */
  ghost function Inverted(ps: seq<Pair>, high: iset<Bit>): iset<Bit> {
    iset b: Bit | if ReachesTie(ps, b) then b in high else b !in high
  }

  lemma InvertedSatisfies(ps: seq<Pair>, high: iset<Bit>)
    requires SingleDriver(ps) && Satisfies(ps, high)
    ensures Satisfies(ps, Inverted(ps, high))
  {
    forall l, r | Alias(ps, l, r)
      ensures ReachesTie(ps, l) <==> ReachesTie(ps, r)
    {
      if ReachesTie(ps, r) {
        AliasReaches(ps, l, r);
      }
      if ReachesTie(ps, l) {
        DriverReaches(ps, l, r);
      }
    }
    forall b | Tied(ps, b) {
      TiedReaches(ps, b);
    }
  }

  /** With a single driver, the chain of a bit can only go through that driver. */
  lemma DriverReaches(ps: seq<Pair>, l: Bit, r: Bit)
    requires SingleDriver(ps) && Alias(ps, l, r) && ReachesTie(ps, l)
    ensures ReachesTie(ps, r)
  {
    var chain :| IsChain(ps, chain) && chain[0] == l && Tied(ps, chain[|chain| - 1]);
    assert |chain| > 1;
    assert Alias(ps, chain[0], chain[1]);
    var rest := chain[1..];
    forall i | 0 < i < |rest|
      ensures Alias(ps, rest[i - 1], rest[i])
    {
      assert rest[i - 1] == chain[i] && rest[i] == chain[i + 1];
    }
    assert IsChain(ps, rest);
  }

  /**
   * In a netlist whose bits have single drivers, the closure finds every constant: a bit is in it
   * if and only if all valuations agree on the bit.
   */
  lemma ClosureIsExact(ps: seq<Pair>, b: Bit, some: iset<Bit>)
    requires SingleDriver(ps) && Satisfies(ps, some)
    ensures ReachesTie(ps, b) <==> forall other :: Satisfies(ps, other) ==> (b in other <==> b in some)
  {
    InvertedSatisfies(ps, some);
    if ReachesTie(ps, b) {
      forall other | Satisfies(ps, other)
        ensures b in other <==> b in some
      {
        ConstantsAreFixed(ps, b, some, other);
      }
    }
  }

  // ---- The same, on the connections themselves ----

  /** The driven bit has the value of its driver; a constant other than 0 and 1 leaves it free. */
  ghost predicate Drives(driven: SigBit, driver: SigBit, high: iset<Bit>) {
    match (driven, driver)
    case (Wire(l), Wire(r)) => l in high <==> r in high
    case (Wire(l), Const(level)) => (level == '0' ==> l !in high) && (level == '1' ==> l in high)
    case (Const(_), _) => true
  }

  /** A valuation, as the set of bits at 1, that meets every connection position by position. */
  ghost predicate Meets(cs: seq<Connect>, high: iset<Bit>) {
    forall c, i :: c in cs && |c.lhs| == |c.rhs| && 0 <= i < |c.lhs| ==> Drives(c.lhs[i], c.rhs[i], high)
  }

  /** The two bits are at one position of the connection. */
  ghost predicate Faces(c: Connect, p: Pair) {
    |c.lhs| == |c.rhs| && exists i :: 0 <= i < |c.lhs| && c.lhs[i] == p.0 && c.rhs[i] == p.1
  }

  /** No wire bit is on the left of two connections, or of one twice, with different drivers. */
  ghost predicate OneDriver(cs: seq<Connect>) {
    forall c, d, p, r :: c in cs && d in cs && Faces(c, p) && Faces(d, r) && p.0.Wire? && p.0 == r.0 ==> p.1 == r.1
  }

  lemma {:induction false} PairsFace(cs: seq<Connect>, p: Pair)
    ensures p in Pairs(cs) <==> exists c :: c in cs && Faces(c, p)
  {
    if cs != [] {
      var front, c := cs[..|cs| - 1], cs[|cs| - 1];
      PairsFace(front, p);
      assert cs == front + [c];
      assert Usable(c) ==> (p in Zip(c.lhs, c.rhs) <==> Faces(c, p)) by {
        if Usable(c) {
          ZipFaces(c, p);
        }
      }
    }
  }

  lemma ZipFaces(c: Connect, p: Pair)
    requires Usable(c)
    ensures p in Zip(c.lhs, c.rhs) <==> Faces(c, p)
  {
    if Faces(c, p) {
      var i :| 0 <= i < |c.lhs| && c.lhs[i] == p.0 && c.rhs[i] == p.1;
      assert Zip(c.lhs, c.rhs)[i] == p;
    }
  }

  lemma MeetsIsSatisfies(cs: seq<Connect>, high: iset<Bit>)
    ensures Meets(cs, high) <==> Satisfies(Pairs(cs), high)
  {
    if Meets(cs, high) {
      forall p | p in Pairs(cs)
        ensures Drives(p.0, p.1, high)
      {
        PairsFace(cs, p);
        var c :| c in cs && Faces(c, p);
      }
    }
    if Satisfies(Pairs(cs), high) {
      forall c, i | c in cs && |c.lhs| == |c.rhs| && 0 <= i < |c.lhs|
        ensures Drives(c.lhs[i], c.rhs[i], high)
      {
        assert Faces(c, (c.lhs[i], c.rhs[i]));
        PairsFace(cs, (c.lhs[i], c.rhs[i]));
      }
    }
  }

  lemma OneDriverIsSingle(cs: seq<Connect>)
    requires OneDriver(cs)
    ensures SingleDriver(Pairs(cs))
  {
    forall l, r, s | (Wire(l), r) in Pairs(cs) && (Wire(l), s) in Pairs(cs)
      ensures r == s
    {
      PairsFace(cs, (Wire(l), r));
      PairsFace(cs, (Wire(l), s));
      var c :| c in cs && Faces(c, (Wire(l), r));
      var d :| d in cs && Faces(d, (Wire(l), s));
    }
  }

  /** The bits have one value in all valuations that meet the connections. */
  ghost predicate Fixed(cs: seq<Connect>, b: Bit) {
    forall u, v :: Meets(cs, u) && Meets(cs, v) ==> (b in u <==> b in v)
  }

  lemma ReachedIsFixed(cs: seq<Connect>, b: Bit)
    requires ReachesTie(Pairs(cs), b)
    ensures Fixed(cs, b)
  {
    forall u, v | Meets(cs, u) && Meets(cs, v)
      ensures b in u <==> b in v
    {
      MeetsIsSatisfies(cs, u);
      MeetsIsSatisfies(cs, v);
      ConstantsAreFixed(Pairs(cs), b, u, v);
    }
  }

  /**
   * Where the connections give no bit two drivers and can be met at all, a bit has one value in all valuations
   * that meet them if and only if the closure finds it.
   */
  lemma ReachedIffFixed(cs: seq<Connect>, b: Bit, some: iset<Bit>)
    requires OneDriver(cs) && Meets(cs, some)
    ensures ReachesTie(Pairs(cs), b) <==> Fixed(cs, b)
  {
    if ReachesTie(Pairs(cs), b) {
      ReachedIsFixed(cs, b);
    } else {
      OneDriverIsSingle(cs);
      MeetsIsSatisfies(cs, some);
      InvertedSatisfies(Pairs(cs), some);
      MeetsIsSatisfies(cs, Inverted(Pairs(cs), some));
      assert b in some <==> b !in Inverted(Pairs(cs), some);
    }
  }

  /**
   * The constant bits of one module body: those from which a chain of connections leads to a tie. They have one
   * value in all valuations that meet the connections; where no bit has two drivers, no other bit has.
   */
  method Constants(cs: seq<Connect>) returns (const_: set<Bit>)
    ensures forall b :: b in const_ <==> ReachesTie(Pairs(cs), b)
    ensures forall b :: b in const_ ==> Fixed(cs, b)
    ensures OneDriver(cs) && (exists some :: Meets(cs, some)) ==> forall b :: b in const_ <==> Fixed(cs, b)
  {
    var tied, alias := Collect(cs);
    const_ := Close(Pairs(cs), tied, alias);
    forall b | b in const_ {
      ReachedIsFixed(cs, b);
    }
    if OneDriver(cs) && exists some :: Meets(cs, some) {
      var some :| Meets(cs, some);
      forall b {
        ReachedIffFixed(cs, b, some);
      }
    }
  }
}
