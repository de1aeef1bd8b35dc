/** Busy-wait delays: chunked wrapped compares on the low word, and the tick arithmetic behind them. */
module AclintDelay {
  import opened Words
  import opened AclintWindow
  import opened AclintDriver
  import opened TicksCeil

  /** The ticks a call asks for, plus the one period it may have started in the middle of. */
  function Budget(ticks: u64): u64 {
    if ticks == 0xFFFF_FFFF_FFFF_FFFF then ticks else ticks + 1
  }

  ghost function Last(loads: seq<nat>): nat
    requires |loads| > 0
  {
    loads[|loads| - 1]
  }

  ghost predicate Ordered(loads: seq<nat>) {
    forall i :: 0 < i < |loads| ==> loads[i - 1] <= loads[i]
  }

  /** Successive loads are at most `g` ticks apart. */
  ghost predicate GapsWithin(loads: seq<nat>, g: nat) {
    forall i :: 0 < i < |loads| ==> loads[i] - loads[i - 1] <= g
  }

  /** The driver's wrap-safe difference of two low words. */
  function Since(lo: u32, t0: u32): u32 {
    (lo - t0) % 0x1_0000_0000
  }

  /** The wrapped difference of two truncated counts is the true difference, truncated. */
  lemma WrappedDifference(now: nat, earlier: nat)
    requires earlier <= now
    ensures Since(now % 0x1_0000_0000, earlier % 0x1_0000_0000) == (now - earlier) % 0x1_0000_0000
  {
  }

  /** A load that a wait for `chunk` ticks after `start` may have made without passing. */
  predicate Lag(start: nat, last: nat, chunk: u32, g: nat) {
    last - start < g || last - start < chunk
  }

  /** Where a load may be: not far past the chunk when it passed, and not past it otherwise. */
  predicate Near(passed: bool, start: nat, last: nat, chunk: u32, g: nat) {
    if passed then last - start - chunk < g || last - start < 2 * g else Lag(start, last, chunk, g)
  }

  /**
   * One poll at `now`, after a load at `last`, of a wait for `chunk` ticks after `start`. A poll
   * that passes is never early, and while the polls are at most `g` ticks apart the truncated
   * difference cannot skip the window in which the poll passes.
   */
  lemma OnePoll(start: nat, last: nat, now: nat, chunk: u32, g: nat)
    requires start <= last <= now
    requires 0 < chunk <= DELAY_CHUNK && 0 < g <= DELAY_CHUNK
    ensures Since(now % 0x1_0000_0000, start % 0x1_0000_0000) >= chunk ==> now - start >= chunk
    ensures now - last <= g && Lag(start, last, chunk, g) ==>
      Since(now % 0x1_0000_0000, start % 0x1_0000_0000) < chunk ==> now - start < chunk
    ensures now - last <= g && Lag(start, last, chunk, g) ==> now - start - chunk < g || now - start < 2 * g
  {
    WrappedDifference(now, start);
  }

  /** The run goes on, and the comparators of the quiet harts keep their values. */
  ghost predicate Keeps(early: seq<Regs>, late: seq<Regs>, quiet: set<nat>) {
    |early| > 0 && early <= late && Untouched(late, |early| - 1, quiet)
  }

  lemma KeepsOn(first: seq<Regs>, early: seq<Regs>, late: seq<Regs>, quiet: set<nat>)
    requires Keeps(first, early, quiet) && Keeps(early, late, quiet)
    ensures Keeps(first, late, quiet)
  {
    UntouchedJoins(early, late, |first| - 1, quiet);
  }

  lemma KeepsOneMore(early: seq<Regs>, late: seq<Regs>, now: Regs, quiet: set<nat>)
    requires Keeps(early, late, quiet) && now.cmp == late[|late| - 1].cmp
    ensures Keeps(early, late + [now], quiet)
  {
  }

  /** One low-word load, after whatever happened since the previous access. */
  method Poll(dev: Aclint, quiet: set<nat>) returns (lo: u32, ghost t: nat)
    requires dev.Valid()
    modifies dev.regs
    ensures dev.Valid() && Keeps(old(dev.regs.trace), dev.regs.trace, quiet)
    ensures old(dev.regs.ticks) <= t == dev.regs.ticks <= old(dev.regs.ticks) + dev.regs.pace
    ensures lo == t % 0x1_0000_0000
  {
    var w := dev.regs;
    ghost var first := |w.trace| - 1;
    w.Interfere(quiet);
    ghost var before := w.trace;
    lo := w.LoadMtimeLo();
    t := w.ticks;
    KeepsOneMore(old(w.trace), before, w.Now(), quiet);
    RunOrdered(w.trace, first, |w.trace| - 1);
  }

  /** The loads of a call go on from those before, up to now; at most `pace` ticks apart if those before are. */
  ghost predicate Polled(before: seq<nat>, loads: seq<nat>, now: nat, pace: nat, g: nat) {
    && |before| > 0 && before <= loads && Ordered(loads) && Last(loads) == now
    && (GapsWithin(loads, g) ==> GapsWithin(before, g))
    && (pace <= g && GapsWithin(before, g) ==> GapsWithin(loads, g))
  }

  lemma PolledOnce(before: seq<nat>, loads: seq<nat>, now: nat, pace: nat, g: nat)
    requires |loads| > 0 && Polled(before, loads, Last(loads), pace, g) && Last(loads) <= now <= Last(loads) + pace
    ensures Polled(before, loads + [now], now, pace, g)
    ensures GapsWithin(loads + [now], g) ==> GapsWithin(loads, g) && now - Last(loads) <= g
  {
    GapsOfPrefix(loads, now, g);
  }

  lemma PolledOn(before: seq<nat>, loads: seq<nat>, longer: seq<nat>, now: nat, pace: nat, g: nat)
    requires |loads| > 0 && Polled(before, loads, Last(loads), pace, g) && Polled(loads, longer, now, pace, g)
    ensures Polled(before, longer, now, pace, g)
  {
  }

  /**
   * The inner loop: polls until `chunk` ticks after the reference `t0`, which stands for the
   * unbounded count `start`. `before` are the LO loads the call has made so far.
   */
  method WaitChunk(dev: Aclint, t0: u32, chunk: u32, polls: nat, quiet: set<nat>,
                   ghost start: nat, ghost g: nat, ghost before: seq<nat>)
    returns (passed: bool, made: nat, ghost loads: seq<nat>)
    requires dev.Valid() && 0 < chunk <= DELAY_CHUNK && 0 < g <= DELAY_CHUNK
    requires |before| > 0 && Ordered(before) && Last(before) == dev.regs.ticks
    requires start <= Last(before) && t0 == start % 0x1_0000_0000
    modifies dev.regs
    ensures dev.Valid() && Keeps(old(dev.regs.trace), dev.regs.trace, quiet)
    ensures Polled(before, loads, dev.regs.ticks, dev.regs.pace, g)
    ensures |loads| == |before| + made && made <= polls
    ensures !passed ==> made == polls
    ensures passed ==> Last(loads) - start >= chunk
    ensures GapsWithin(loads, g) && Last(before) - start < g ==>
      Near(passed, start, Last(loads), chunk, g)
  {
    loads := before;
    made := 0;
    passed := false;
    while !passed
      invariant dev.Valid() && Keeps(old(dev.regs.trace), dev.regs.trace, quiet)
      invariant Polled(before, loads, dev.regs.ticks, dev.regs.pace, g)
      invariant |loads| == |before| + made && made <= polls && start <= Last(loads)
      invariant passed ==> Last(loads) - start >= chunk
          invariant GapsWithin(loads, g) && Last(before) - start < g ==>
        Near(passed, start, Last(loads), chunk, g)
      decreases polls - made, !passed
    {
      if made == polls {
        return;
      }
      ghost var earlier, trace := loads, dev.regs.trace;
      var lo, now := Poll(dev, quiet);
      KeepsOn(old(dev.regs.trace), trace, dev.regs.trace, quiet);
      made := made + 1;
      loads := loads + [now];
      OnePoll(start, Last(earlier), now, chunk, g);
      PolledOnce(before, earlier, now, dev.regs.pace, g);
      passed := Since(lo, t0) >= chunk;
    }
  }

  /** The 32-bit reference keeps standing for the unbounded count it moves along with. */
  lemma ReferenceMoves(mark: nat, chunk: u32)
    ensures (mark % 0x1_0000_0000 + chunk) % 0x1_0000_0000 == (mark + chunk) % 0x1_0000_0000
  {
  }

  /** How far past the mark a load may be when `rest` ticks are still to wait for. */
  predicate Behind(mark: nat, last: nat, rest: nat, g: nat) {
    last - mark < if rest > 0 then g else 2 * g
  }

  /** The chunk the driver waits for next. */
  function Chunk(rest: u64): u32 {
    if rest > DELAY_CHUNK then DELAY_CHUNK else rest
  }

  lemma ChunkPassed(mark: nat, last: nat, rest: u64, g: nat)
    requires 0 < g <= DELAY_CHUNK && rest > 0 && mark + Chunk(rest) <= last
    requires Near(true, mark, last, Chunk(rest), g)
    ensures Behind(mark + Chunk(rest), last, rest - Chunk(rest), g)
  {
  }

  lemma ChunkNotPassed(mark: nat, last: nat, rest: u64, g: nat)
    requires 0 < g <= DELAY_CHUNK && rest > 0
    requires Near(false, mark, last, Chunk(rest), g)
    ensures last - mark < rest + 2 * g
  {
  }

  /** The outer loop: waits for `left` ticks after the reference `t0`, in chunks. */
  method WaitChunks(dev: Aclint, t0: u32, left: u64, polls: nat, quiet: set<nat>,
                    ghost start: nat, ghost g: nat, ghost before: seq<nat>)
    returns (passed: bool, made: nat, ghost loads: seq<nat>)
    requires dev.Valid() && 0 < g <= DELAY_CHUNK
    requires |before| > 0 && Ordered(before) && Last(before) == dev.regs.ticks
    requires start == Last(before) && t0 == start % 0x1_0000_0000
    modifies dev.regs
    ensures dev.Valid() && Keeps(old(dev.regs.trace), dev.regs.trace, quiet)
    ensures Polled(before, loads, dev.regs.ticks, dev.regs.pace, g)
    ensures |loads| == |before| + made && made <= polls && (!passed ==> made == polls)
    ensures passed ==> Last(loads) - start >= left
    ensures GapsWithin(loads, g) ==> Last(loads) - start < left + 2 * g
  {
    var ref: u32, rest: u64, more: nat := t0, left, polls;
    ghost var mark := start;  // the unbounded count that the moving reference stands for
    loads := before;
    while rest > 0
      invariant dev.Valid() && Keeps(old(dev.regs.trace), dev.regs.trace, quiet)
      invariant Polled(before, loads, dev.regs.ticks, dev.regs.pace, g)
      invariant more <= polls && |loads| == |before| + polls - more
      invariant ref == mark % 0x1_0000_0000 && mark <= Last(loads) && mark + rest == start + left
        invariant GapsWithin(loads, g) ==> Behind(mark, Last(loads), rest, g)
    {
      var chunk: u32 := Chunk(rest);
      ghost var trace := dev.regs.trace;
      var ok, n, longer := WaitChunk(dev, ref, chunk, more, quiet, mark, g, loads);
      KeepsOn(old(dev.regs.trace), trace, dev.regs.trace, quiet);
      more := more - n;
      PolledOn(before, loads, longer, dev.regs.ticks, dev.regs.pace, g);
      loads := longer;
      if !ok {
        if GapsWithin(loads, g) {
          ChunkNotPassed(mark, Last(loads), rest, g);
        }
        return false, polls, loads;
      }
      if GapsWithin(loads, g) {
        ChunkPassed(mark, Last(loads), rest, g);
      }
      ReferenceMoves(mark, chunk);
      ref := (ref + chunk) % 0x1_0000_0000;
      rest, mark := rest - chunk, mark + chunk;
    }
    return true, polls - more, loads;
  }

  /** The counter advances between any two loads. */
  ghost predicate Advances(loads: seq<nat>) {
    forall i :: 0 < i < |loads| ==> loads[i - 1] < loads[i]
  }

  lemma {:induction false} AdvancesBy(loads: seq<nat>)
    requires |loads| > 0 && Advances(loads)
    ensures Last(loads) >= loads[0] + |loads| - 1
  {
    if |loads| > 1 {
      var front := loads[..|loads| - 1];
      assert loads[|loads| - 2] < loads[|loads| - 1];
      AdvancesBy(front);
    }
  }

  /** A delay that is not over after `polls` polls, with the counter advancing, has not had its ticks yet. */
  lemma EnoughPollsEnd(ticks: u64, polls: nat, g: nat, loads: seq<nat>)
    requires |loads| == polls + 1 && Advances(loads)
    requires Last(loads) < loads[0] + Budget(ticks) + 2 * g
    ensures polls < Budget(ticks) + 2 * g
  {
    AdvancesBy(loads);
  }

  /**
   * The chunked busy-wait, observed for at most `polls` polls after the first load. `loads` are
   * the unbounded tick counts at the LO loads of the call.
   *   - It never returns early, whatever the gaps between the polls and however often the low
   *     word wraps in between.
   *   - If at most `g` <= 2^31 - 1 ticks pass between two accesses, the whole call takes fewer than
   *     the ticks waited for plus 3 * `g`.
   *   - If no two successive loads are more than `g` <= 2^31 - 1 ticks apart, no load of the call,
   *     the last included, sees the counter 2 * `g` or more past the end of the wait; and if the
   *     counter also advances between loads, the call is over after that many polls.
   */
  method DelayTicks(dev: Aclint, ticks: u64, polls: nat, quiet: set<nat>, ghost g: nat)
    returns (done: bool, ghost loads: seq<nat>)
    requires dev.Valid() && 0 < g <= DELAY_CHUNK
    modifies dev.regs
    ensures dev.Valid() && Keeps(old(dev.regs.trace), dev.regs.trace, quiet)
    ensures ticks == 0 ==> done && loads == [] && dev.regs.trace == old(dev.regs.trace)
    ensures ticks > 0 ==> |loads| > 0 && Ordered(loads)
    ensures ticks > 0 ==> old(dev.regs.ticks) <= loads[0] && Last(loads) == dev.regs.ticks
    ensures ticks > 0 && done ==> Last(loads) - loads[0] >= Budget(ticks)
    ensures ticks > 0 && GapsWithin(loads, g) ==> Last(loads) < loads[0] + Budget(ticks) + 2 * g
    ensures dev.regs.pace <= g ==> GapsWithin(loads, g)
    ensures ticks > 0 && dev.regs.pace <= g ==> dev.regs.ticks < old(dev.regs.ticks) + Budget(ticks) + 3 * g
    ensures !done ==> |loads| == polls + 1
    ensures ticks > 0 && GapsWithin(loads, g) && Advances(loads) && polls >= Budget(ticks) + 2 * g ==> done
  {
    if ticks == 0 {
      return true, [];
    }
    var left: u64 := if ticks == 0xFFFF_FFFF_FFFF_FFFF then ticks else ticks + 1;
    var t0: u32, t := Poll(dev, quiet);
    ghost var trace := dev.regs.trace;
    var made;
    done, made, loads := WaitChunks(dev, t0, left, polls, quiet, t, g, [t]);
    KeepsOn(old(dev.regs.trace), trace, dev.regs.trace, quiet);
    if !done && GapsWithin(loads, g) && Advances(loads) {
      EnoughPollsEnd(ticks, polls, g, loads);
    }
  }

  lemma GapsOfPrefix(earlier: seq<nat>, now: nat, g: nat)
    requires |earlier| > 0
    ensures GapsWithin(earlier + [now], g) <==> GapsWithin(earlier, g) && now - Last(earlier) <= g
  {
    var loads := earlier + [now];
    if GapsWithin(loads, g) {
      assert loads[|earlier|] - loads[|earlier| - 1] <= g;
      forall i | 0 < i < |earlier|
        ensures earlier[i] - earlier[i - 1] <= g
      {
        assert loads[i] - loads[i - 1] <= g;
      }
    }
  }

  method UsToTicks(dev: Aclint, us: u32) returns (ticks: u64)
    ensures us * dev.mtimeHz <= ticks * 1_000_000
    ensures (ticks - 1) * 1_000_000 < us * dev.mtimeHz
  {
    ticks := TicksCeil.TicksCeil(us, dev.mtimeHz, 1_000_000);
  }

  method MsToTicks(dev: Aclint, ms: u32) returns (ticks: u64)
    ensures ms * dev.mtimeHz <= ticks * 1_000
    ensures (ticks - 1) * 1_000 < ms * dev.mtimeHz
  {
    ticks := TicksCeil.TicksCeil(ms, dev.mtimeHz, 1_000);
  }

  /** What a delay of `t` units, `d` to the second, promises about its loads. */
  ghost predicate Waits(hz: u32, t: u32, d: u32, polls: nat, g: nat, done: bool, loads: seq<nat>) {
    && |loads| > 0 && Ordered(loads)
    && (done ==> (Last(loads) - loads[0] - 1) * d >= t * hz)
    && (GapsWithin(loads, g) ==> (Last(loads) - loads[0] - 2 * g - 1) * d < t * hz)
    && (!done ==> |loads| == polls + 1)
    && (GapsWithin(loads, g) && Advances(loads) && (polls - 2 * g - 2) * d >= t * hz ==> done)
  }

  /** A least tick count is zero only for no time, and short of the greatest 64-bit number. */
  lemma TicksForTime(t: u32, hz: u32, d: u32, ticks: u64)
    requires hz > 0 && d > 0 && t * hz <= ticks * d && (ticks - 1) * d < t * hz
    ensures ticks == 0 <==> t == 0
    ensures Budget(ticks) == ticks + 1
  {
    ProductFits(t, hz);
    Scaled(t, 1, hz);
    AtLeast(ticks - 1, d);
  }

  lemma AtLeast(n: int, d: u32)
    requires d > 0
    ensures n >= 0 ==> n * d >= n
    ensures n < 0 ==> n * d < 0
  {
  }

  /** A delay by the least tick count for a time is a delay by the time. */
  lemma TicksAreTime(t: u32, hz: u32, d: u32, ticks: u64, polls: nat, g: nat, done: bool, loads: seq<nat>)
    requires d > 0 && t * hz <= ticks * d && (ticks - 1) * d < t * hz
    requires |loads| > 0 && Ordered(loads) && (!done ==> |loads| == polls + 1)
    requires done ==> Last(loads) - loads[0] >= ticks + 1
    requires GapsWithin(loads, g) ==> Last(loads) < loads[0] + ticks + 1 + 2 * g
    requires GapsWithin(loads, g) && Advances(loads) && polls >= ticks + 1 + 2 * g ==> done
    ensures Waits(hz, t, d, polls, g, done, loads)
  {
    var seen := Last(loads) - loads[0] - 1;
    Smaller(ticks, seen, d);
    Smaller(seen - 2 * g, ticks - 1, d);
    Smaller(polls - 2 * g - 2, ticks - 1, d);
  }

  lemma Smaller(a: int, b: int, d: u32)
    ensures a <= b ==> a * d <= b * d
  {
  }

  /**
   * A nonzero delay that returned has seen whole periods worth at least `us` microseconds pass; with gaps of at most
   * `g` ticks between its loads it sees fewer than 2 * `g` + 1 periods more than that, and comes to an end.
   */
  method DelayUs(dev: Aclint, us: u32, polls: nat, quiet: set<nat>, ghost g: nat)
    returns (status: Status, done: bool, ghost loads: seq<nat>)
    requires dev.Valid() && 0 < g <= DELAY_CHUNK
    modifies dev.regs
    ensures dev.Valid() && Keeps(old(dev.regs.trace), dev.regs.trace, quiet)
    ensures status == Ok <==> dev.mtimeHz != 0
    ensures status != Ok || us == 0 ==> done && loads == [] && dev.regs.trace == old(dev.regs.trace)
    ensures status == Ok && us > 0 ==> Waits(dev.mtimeHz, us, 1_000_000, polls, g, done, loads)
    ensures status == Ok && us > 0 && dev.regs.pace <= g ==>
      && GapsWithin(loads, g)
      && (dev.regs.ticks - old(dev.regs.ticks) - 3 * g - 1) * 1_000_000 < us * dev.mtimeHz
    ensures status == Ok && us > 0 ==> old(dev.regs.ticks) <= loads[0] && Last(loads) == dev.regs.ticks
  {
    if dev.mtimeHz == 0 {
      return ErrParam, true, [];
    }
    var ticks := UsToTicks(dev, us);
    TicksForTime(us, dev.mtimeHz, 1_000_000, ticks);
    done, loads := DelayTicks(dev, ticks, polls, quiet, g);
    status := Ok;
    if us > 0 {
      TicksAreTime(us, dev.mtimeHz, 1_000_000, ticks, polls, g, done, loads);
      Smaller(dev.regs.ticks - old(dev.regs.ticks) - 3 * g - 1, ticks - 1, 1_000_000);
    }
  }

  /**
   * A nonzero delay that returned has seen whole periods worth at least `ms` milliseconds pass; with gaps of at most
   * `g` ticks between its loads it sees fewer than 2 * `g` + 1 periods more than that, and comes to an end.
   */
  method DelayMs(dev: Aclint, ms: u32, polls: nat, quiet: set<nat>, ghost g: nat)
    returns (status: Status, done: bool, ghost loads: seq<nat>)
    requires dev.Valid() && 0 < g <= DELAY_CHUNK
    modifies dev.regs
    ensures dev.Valid() && Keeps(old(dev.regs.trace), dev.regs.trace, quiet)
    ensures status == Ok <==> dev.mtimeHz != 0
    ensures status != Ok || ms == 0 ==> done && loads == [] && dev.regs.trace == old(dev.regs.trace)
    ensures status == Ok && ms > 0 ==> Waits(dev.mtimeHz, ms, 1_000, polls, g, done, loads)
    ensures status == Ok && ms > 0 && dev.regs.pace <= g ==>
      && GapsWithin(loads, g)
      && (dev.regs.ticks - old(dev.regs.ticks) - 3 * g - 1) * 1_000 < ms * dev.mtimeHz
    ensures status == Ok && ms > 0 ==> old(dev.regs.ticks) <= loads[0] && Last(loads) == dev.regs.ticks
  {
    if dev.mtimeHz == 0 {
      return ErrParam, true, [];
    }
    var ticks := MsToTicks(dev, ms);
    TicksForTime(ms, dev.mtimeHz, 1_000, ticks);
    done, loads := DelayTicks(dev, ticks, polls, quiet, g);
    status := Ok;
    if ms > 0 {
      TicksAreTime(ms, dev.mtimeHz, 1_000, ticks, polls, g, done, loads);
      Smaller(dev.regs.ticks - old(dev.regs.ticks) - 3 * g - 1, ticks - 1, 1_000);
    }
  }
}
