/** The enable bank's operations are the enabling steps of the protocol. */
module PlicRefines {
  import PlicEnable
  import opened PlicProtocol

  /** The pairs a bank's sets of sources stand for. */
  function Pairs(on: seq<set<nat>>): set<(nat, nat)> {
    set c, s | 0 <= c < |on| && s in on[c] :: (c, s)
  }

  lemma PairsAfter(on: seq<set<nat>>, ctx: nat, row: set<nat>, e: (nat, nat))
    requires ctx < |on|
    ensures e in Pairs(on[ctx := row]) <==> if e.0 == ctx then e.1 in row else e in Pairs(on)
  {
  }

  /** The handle and the protocol's state agree on the geometry and on what is enabled. */
  ghost predicate Matches(dev: PlicEnable.Plic, g: Geometry, st: State)
    reads dev
  {
    dev.Valid() && g == Geometry(dev.numSources, dev.numContexts) && st.enabled == Pairs(dev.on)
  }

  lemma EnablePairs(on: seq<set<nat>>, ctx: nat, src: nat)
    requires ctx < |on|
    ensures Pairs(on[ctx := on[ctx] + {src}]) == Pairs(on) + {(ctx, src)}
  {
    forall e {
      PairsAfter(on, ctx, on[ctx] + {src}, e);
    }
  }

  lemma DisablePairs(on: seq<set<nat>>, ctx: nat, src: nat)
    requires ctx < |on|
    ensures Pairs(on[ctx := on[ctx] - {src}]) == Pairs(on) - {(ctx, src)}
  {
    forall e {
      PairsAfter(on, ctx, on[ctx] - {src}, e);
    }
  }

  lemma ClearPairs(on: seq<set<nat>>, ctx: nat)
    ensures ctx < |on| ==> Pairs(on[ctx := {}]) == set e | e in Pairs(on) && e.0 != ctx
    ensures ctx >= |on| ==> Pairs(on) == set e | e in Pairs(on) && e.0 != ctx
  {
    if ctx < |on| {
      forall e {
        PairsAfter(on, ctx, {}, e);
      }
    }
  }

  /** The driver's enable is the protocol's step, refused or not. */
  method EnableStep(dev: PlicEnable.Plic, ctx: nat, src: nat, ghost g: Geometry, ghost st: State)
    requires Matches(dev, g, st)
    modifies dev`on, dev`enable
    ensures Matches(dev, g, Next(g, st, Enable(ctx, src)))
  {
    if dev.InRange(ctx, src) {
      EnablePairs(dev.on, ctx, src);
    }
    var _ := dev.Enable(ctx, src);
  }

  /** The driver's disable is the protocol's step, refused or not. */
  method DisableStep(dev: PlicEnable.Plic, ctx: nat, src: nat, ghost g: Geometry, ghost st: State)
    requires Matches(dev, g, st)
    modifies dev`on, dev`enable
    ensures Matches(dev, g, Next(g, st, Disable(ctx, src)))
  {
    if dev.InRange(ctx, src) {
      DisablePairs(dev.on, ctx, src);
    }
    var _ := dev.Disable(ctx, src);
  }

  /** The driver's clearing of a context is the protocol's step, refused or not. */
  method ClearStep(dev: PlicEnable.Plic, ctx: nat, ghost g: Geometry, ghost st: State)
    requires Matches(dev, g, st)
    modifies dev`on, dev`enable, dev`threshold
    ensures Matches(dev, g, Next(g, st, ContextClear(ctx)))
  {
    ClearPairs(dev.on, ctx);
    var _ := dev.ContextClear(ctx);
  }
}
