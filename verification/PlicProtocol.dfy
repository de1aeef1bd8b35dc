/**
 * Claim / handler / complete as a protocol between the PLIC's gateways and any number of contexts,
 * each of which services interrupts only through the driver's dispatch. One action is one register
 * access or one gateway edge; a run is any sequence of actions from reset.
 */
module PlicProtocol {
  datatype Geometry = Geometry(numSources: nat, numContexts: nat) {
    predicate Source(s: nat) {
      1 <= s <= numSources
    }
  }

  /** `servicing` maps a context to the source it has claimed and not yet tried to complete. */
  datatype State = State(
    pending: set<nat>,
    inService: set<nat>,
    enabled: set<(nat, nat)>,
    priority: map<nat, nat>,
    servicing: map<nat, nat>)
  {
    predicate Qualifies(ctx: nat, s: nat) {
      s in pending && (ctx, s) in enabled && s in priority && priority[s] != 0
    }
  }

  const RESET := State({}, {}, {}, map[], map[])

  datatype Action =
    | Latch(src: nat)                  // a gateway samples a high request line
    | SetPriority(src: nat, prio: nat)
    | Enable(ctx: nat, src: nat)
    | Disable(ctx: nat, src: nat)
    | ContextClear(ctx: nat)
    | Claim(ctx: nat)                  // dispatch: the claim read
    | Handler(ctx: nat, id: nat)       // dispatch: the handler call for a source
    | Complete(ctx: nat, id: nat)      // dispatch: the completion of a source

  /** What a claim read returns: the best qualifying source among 1..n, 0 when there is none. */
  function Winner(st: State, ctx: nat, n: nat): (w: nat)
    ensures w <= n
    ensures w > 0 ==> st.Qualifies(ctx, w)
  {
    if n == 0 then 0
    else
      var w := Winner(st, ctx, n - 1);
      if st.Qualifies(ctx, n) && (w == 0 || st.priority[n] > st.priority[w]) then n else w
  }

  /** Highest priority first, lowest ID among equals, and nothing only when nothing qualifies. */
  lemma {:induction false} WinnerIsBest(st: State, ctx: nat, n: nat, s: nat)
    requires 1 <= s <= n && st.Qualifies(ctx, s)
    ensures var w := Winner(st, ctx, n);
      w > 0 && (st.priority[s] < st.priority[w] || (st.priority[s] == st.priority[w] && w <= s))
  {
    if s < n {
      WinnerIsBest(st, ctx, n - 1, s);
    }
  }

  function Next(g: Geometry, st: State, a: Action): State {
    match a
    case Latch(s) =>
      if g.Source(s) && s !in st.inService then st.(pending := st.pending + {s}) else st
    case SetPriority(s, p) =>
      if g.Source(s) then st.(priority := st.priority[s := p]) else st
    case Enable(c, s) =>
      if c < g.numContexts && g.Source(s) then st.(enabled := st.enabled + {(c, s)}) else st
    case Disable(c, s) =>
      if c < g.numContexts && g.Source(s) then st.(enabled := st.enabled - {(c, s)}) else st
    case ContextClear(c) =>
      st.(enabled := set e | e in st.enabled && e.0 != c)
    case Claim(c) =>
      if c >= g.numContexts || c in st.servicing then st
      else
        var w := Winner(st, c, g.numSources);
        if w == 0 then st
        else st.(pending := st.pending - {w}, inService := st.inService + {w}, servicing := st.servicing[c := w])
    case Handler(_, _) => st
    case Complete(c, s) =>
      if !Completes(st, a) then st
      else
        st.(inService := if Accepted(st, c) then st.inService - {s} else st.inService,
            servicing := st.servicing - {c})
  }

  /** The action is the completion of the source its context is servicing. */
  predicate Completes(st: State, a: Action) {
    a.Complete? && a.ctx in st.servicing && st.servicing[a.ctx] == a.id
  }

  /** The PLIC honours the completion only while the source is enabled for the context. */
  predicate Accepted(st: State, ctx: nat) {
    ctx in st.servicing && (ctx, st.servicing[ctx]) in st.enabled
  }

  function Exec(g: Geometry, acts: seq<Action>): State {
    if acts == [] then RESET else Next(g, Exec(g, acts[..|acts| - 1]), acts[|acts| - 1])
  }

  ghost predicate Exclusive(g: Geometry, st: State) {
    && st.pending !! st.inService
    && (forall c :: c in st.servicing ==>
      c < g.numContexts && g.Source(st.servicing[c]) && st.servicing[c] in st.inService)
    && (forall c, d :: c in st.servicing && d in st.servicing && c != d ==> st.servicing[c] != st.servicing[d])
  }

  lemma StepKeepsExclusive(g: Geometry, st: State, a: Action)
    requires Exclusive(g, st)
    ensures Exclusive(g, Next(g, st, a))
  {
    if a.Claim? && Winner(st, a.ctx, g.numSources) > 0 {
      assert Winner(st, a.ctx, g.numSources) in st.pending;
    }
  }

  /** In every run no source is ever serviced by two contexts at once, nor pending meanwhile. */
  lemma {:induction false} RunsAreExclusive(g: Geometry, acts: seq<Action>)
    ensures Exclusive(g, Exec(g, acts))
  {
    if acts != [] {
      var before := acts[..|acts| - 1];
      RunsAreExclusive(g, before);
      StepKeepsExclusive(g, Exec(g, before), acts[|acts| - 1]);
    }
  }

  /** Every completion of the run comes while the source is still enabled for its context. */
  ghost predicate CompletedEnabled(g: Geometry, acts: seq<Action>) {
    forall k :: 0 <= k < |acts| && Completes(Exec(g, acts[..k]), acts[k]) ==>
      Accepted(Exec(g, acts[..k]), acts[k].ctx)
  }

  /** The sources in service that no context is servicing. */
  function Leaked(st: State): set<nat> {
    st.inService - st.servicing.Values
  }

  /** A leaked source stays in service for good: dispatch never completes it again. */
  lemma {:induction false} LeakIsForever(g: Geometry, acts: seq<Action>, more: seq<Action>)
    ensures Leaked(Exec(g, acts)) <= Leaked(Exec(g, acts + more))
  {
    if more == [] {
      assert acts + more == acts;
    } else {
      var rest := more[..|more| - 1];
      LeakIsForever(g, acts, rest);
      assert (acts + more)[..|acts + more| - 1] == acts + rest;
      RunsAreExclusive(g, acts + rest);
      StepKeepsLeaks(g, Exec(g, acts + rest), more[|more| - 1]);
    }
  }

  lemma StepKeepsLeaks(g: Geometry, st: State, a: Action)
    requires Exclusive(g, st)
    ensures Leaked(st) <= Leaked(Next(g, st, a))
    ensures !(Completes(st, a) && !Accepted(st, a.ctx)) ==> Leaked(Next(g, st, a)) <= Leaked(st)
    ensures Completes(st, a) && !Accepted(st, a.ctx) ==> a.id in Leaked(Next(g, st, a))
  {
    var after := Next(g, st, a);
    if a.Claim? && after != st {
      var w := Winner(st, a.ctx, g.numSources);
      assert after.servicing[a.ctx] == w;
      forall c | c in st.servicing
        ensures c in after.servicing && after.servicing[c] == st.servicing[c]
      {
      }
      assert after.servicing.Values == st.servicing.Values + {w};
    } else if a.Complete? && after != st {
      var s := st.servicing[a.ctx];
      forall c | c in st.servicing && c != a.ctx
        ensures c in after.servicing && after.servicing[c] == st.servicing[c] != s
      {
      }
      assert after.servicing.Values == st.servicing.Values - {s};
    }
  }

  /**
   * The sources in service are exactly those being serviced if and only if every completion so
   * far came while its source was still enabled for its context.
   */
  lemma {:induction false} NoLeakIffCompletedEnabled(g: Geometry, acts: seq<Action>)
    ensures Leaked(Exec(g, acts)) == {} <==> CompletedEnabled(g, acts)
  {
    if acts != [] {
      var before, a := acts[..|acts| - 1], acts[|acts| - 1];
      NoLeakIffCompletedEnabled(g, before);
      RunsAreExclusive(g, before);
      StepKeepsLeaks(g, Exec(g, before), a);
      forall k | 0 <= k < |before|
        ensures before[k] == acts[k] && before[..k] == acts[..k]
      {
      }
    }
  }

  // ---- A run that leaves a source in service ----

  const ONE: Geometry := Geometry(1, 1)

  /** The source is disabled between its claim and its completion, which is then ignored. */
  const DISABLED_TOO_SOON: seq<Action> :=
    [SetPriority(1, 1), Enable(0, 1), Latch(1), Claim(0), Handler(0, 1), Disable(0, 1), Complete(0, 1)]

  lemma ExecTake(g: Geometry, acts: seq<Action>, k: nat)
    requires k < |acts|
    ensures Exec(g, acts[..k + 1]) == Next(g, Exec(g, acts[..k]), acts[k])
  {
    assert acts[..k + 1][..k] == acts[..k];
  }

  lemma ClaimedBeforeDisabled()
    ensures Exec(ONE, DISABLED_TOO_SOON[..5]) == State({}, {1}, {(0, 1)}, map[1 := 1], map[0 := 1])
  {
    var acts := DISABLED_TOO_SOON;
    ExecTake(ONE, acts, 0);
    ExecTake(ONE, acts, 1);
    ExecTake(ONE, acts, 2);
    ExecTake(ONE, acts, 3);
    ExecTake(ONE, acts, 4);
    assert Exec(ONE, acts[..0]) == RESET;
    assert Exec(ONE, acts[..3]) == State({1}, {}, {(0, 1)}, map[1 := 1], map[]);
    assert Winner(Exec(ONE, acts[..3]), 0, 0) == 0;
    assert Winner(Exec(ONE, acts[..3]), 0, 1) == 1;
    assert {1} - {1} == {};
  }

  /** A source disabled before its completion is still in service when nobody services it any more. */
  lemma DisabledTooSoonLeaks()
    ensures Leaked(Exec(ONE, DISABLED_TOO_SOON)) == {1} && !CompletedEnabled(ONE, DISABLED_TOO_SOON)
  {
    var acts := DISABLED_TOO_SOON;
    ClaimedBeforeDisabled();
    ExecTake(ONE, acts, 5);
    ExecTake(ONE, acts, 6);
    assert acts[..7] == acts;
    assert {(0, 1)} - {(0, 1)} == {};
    assert map[0 := 1] - {0} == map[];
    assert Exec(ONE, acts) == State({}, {1}, {}, map[1 := 1], map[]);
    NoLeakIffCompletedEnabled(ONE, acts);
  }
}
