/** The driver's dispatch of one interrupt, with every other context and the handler running freely. */
module PlicDispatch {
  import opened PlicProtocol

  const ERR_PARAM := -1

  /** Whether an action is a step of the dispatch of this context. */
  predicate Own(a: Action, ctx: nat) {
    match a
    case Claim(c) => c == ctx
    case Handler(c, _) => c == ctx
    case Complete(c, _) => c == ctx
    case _ => false
  }

  /** A step is a dispatch's own if it is the claim, the handler call or the completion of its context, and else not. */
  lemma OwnIsDispatch(a: Action, ctx: nat)
    ensures Own(a, ctx) ==> a == Claim(ctx) || (exists s :: a == Handler(ctx, s)) || exists s :: a == Complete(ctx, s)
    ensures forall s :: Own(Claim(ctx), ctx) && Own(Handler(ctx, s), ctx) && Own(Complete(ctx, s), ctx)
  {
  }

  /** The dispatch steps of one context, in order. */
  function Steps(acts: seq<Action>, ctx: nat): seq<Action> {
    if acts == [] then []
    else
      var a := acts[|acts| - 1];
      Steps(acts[..|acts| - 1], ctx) + if Own(a, ctx) then [a] else []
  }

  /** Actions that are not a context's own dispatch steps leave what it is servicing alone. */
  lemma OthersKeepServicing(g: Geometry, st: State, a: Action, ctx: nat)
    requires !Own(a, ctx)
    ensures ctx in st.servicing <==> ctx in Next(g, st, a).servicing
    ensures ctx in st.servicing ==> Next(g, st, a).servicing[ctx] == st.servicing[ctx]
  {
  }

  lemma OneMore(g: Geometry, acts: seq<Action>, a: Action, ctx: nat)
    ensures Exec(g, acts + [a]) == Next(g, Exec(g, acts), a)
    ensures Steps(acts + [a], ctx) == Steps(acts, ctx) + if Own(a, ctx) then [a] else []
  {
    assert (acts + [a])[..|acts|] == acts;
  }

  class Plic {
    const geometry: Geometry
    var st: State
    ghost var acts: seq<Action>  // every action since reset

    ghost predicate Valid()
      reads this
    {
      st == Exec(geometry, acts)
    }

    constructor (geometry: Geometry)
      ensures Valid() && this.geometry == geometry && acts == []
    {
      this.geometry := geometry;
      st := RESET;
      acts := [];
    }

    method Act(a: Action)
      requires Valid()
      modifies this
      ensures Valid() && acts == old(acts) + [a] && st == Next(geometry, old(st), a)
    {
      OneMore(geometry, acts, a, 0);
      st := Next(geometry, st, a);
      acts := acts + [a];
    }

    /**
     * Any number of actions of anything but the dispatch of `ctx`: gateways, configuration, and
     * the dispatches of all other contexts. A handler of `ctx` may also configure the PLIC here.
     */
    method Interfere(ctx: nat)
      requires Valid()
      modifies this
      ensures Valid() && old(acts) <= acts && Steps(acts, ctx) == Steps(old(acts), ctx)
      ensures ctx in st.servicing <==> ctx in old(st).servicing
      ensures ctx in st.servicing ==> st.servicing[ctx] == old(st).servicing[ctx]
    {
      var n: nat := *;
      while n > 0
        invariant Valid() && old(acts) <= acts && Steps(acts, ctx) == Steps(old(acts), ctx)
        invariant ctx in st.servicing <==> ctx in old(st).servicing
        invariant ctx in st.servicing ==> st.servicing[ctx] == old(st).servicing[ctx]
      {
        var a: Action := *;
        if !Own(a, ctx) {
          OthersKeepServicing(geometry, st, a, ctx);
          OneMore(geometry, acts, a, ctx);
          Act(a);
        }
        n := n - 1;
      }
    }

    /** The claim read: the ID of the best pending and enabled source, which is now in service. */
    method ClaimRead(ctx: nat) returns (id: nat)
      requires Valid() && ctx !in st.servicing
      modifies this
      ensures Valid()
      ensures ctx >= geometry.numContexts ==> id == 0 && acts == old(acts)
      ensures ctx < geometry.numContexts ==>
        && acts == old(acts) + [Claim(ctx)]
        && st == Next(geometry, old(st), Claim(ctx))
        && id == Winner(old(st), ctx, geometry.numSources)
      ensures id != 0 ==> ctx in st.servicing && st.servicing[ctx] == id
      ensures id == 0 ==> ctx !in st.servicing
    {
      if ctx >= geometry.numContexts {
        return 0;
      }
      id := Winner(st, ctx, geometry.numSources);
      Act(Claim(ctx));
    }

    /** The completion store, refused without an access when an argument is out of range. */
    method CompleteWrite(ctx: nat, id: nat) returns (ok: bool)
      requires Valid() && ctx in st.servicing && st.servicing[ctx] == id
      modifies this
      ensures Valid()
      ensures ok <==> ctx < geometry.numContexts && geometry.Source(id)
      ensures ok ==> acts == old(acts) + [Complete(ctx, id)] && st == Next(geometry, old(st), Complete(ctx, id))
      ensures !ok ==> acts == old(acts) && st == old(st)
    {
      if ctx >= geometry.numContexts || id == 0 || id > geometry.numSources {
        return false;
      }
      Act(Complete(ctx, id));
      return true;
    }

    /**
     * Claims one source, calls the handler for it, completes the same ID. A call that claims
     * something makes exactly one handler call and exactly one completion, of the claimed ID,
     * which is in range, is never refused, and takes the source out of service if and only if it
     * is still enabled for the context at that moment.
     */
    method Dispatch(ctx: nat, hasHandler: bool) returns (r: int)
      requires Valid() && ctx !in st.servicing
      modifies this
      ensures Valid() && old(acts) <= acts && ctx !in st.servicing
      ensures r == ERR_PARAM <==> ctx >= geometry.numContexts || !hasHandler
      ensures r == ERR_PARAM ==> acts == old(acts)
      ensures r == 0 ==> Steps(acts, ctx) == Steps(old(acts), ctx) + [Claim(ctx)]
      ensures r == 0 ==> st == old(st)
      ensures r != ERR_PARAM && r != 0 ==>
        && r == Winner(old(st), ctx, geometry.numSources) && geometry.Source(r)
        && Steps(acts, ctx) == Steps(old(acts), ctx) + [Claim(ctx), Handler(ctx, r), Complete(ctx, r)]
        && acts != [] && acts[|acts| - 1] == Complete(ctx, r)
        && (var before := Exec(geometry, acts[..|acts| - 1]);
            && ctx in before.servicing && before.servicing[ctx] == r && r in before.inService
            && (r !in st.inService <==> (ctx, r as nat) in before.enabled))
    {
      if ctx >= geometry.numContexts || !hasHandler {
        return ERR_PARAM;
      }
      ghost var was := acts;
      OneMore(geometry, acts, Claim(ctx), ctx);
      var id := ClaimRead(ctx);
      if id == 0 {
        return 0;
      }
      Interfere(ctx);
      OneMore(geometry, acts, Handler(ctx, id), ctx);
      Act(Handler(ctx, id));
      Interfere(ctx);
      RunsAreExclusive(geometry, acts);
      OneMore(geometry, acts, Complete(ctx, id), ctx);
      ghost var before := acts;
      var _ := CompleteWrite(ctx, id);
      assert acts[..|acts| - 1] == before;
      return id;
    }
  }
}
