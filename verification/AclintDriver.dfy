/**
 * The ACLINT driver over the register window. Between any two accesses the environment may
 * interfere arbitrarily (`Window.Interfere`).
 */
module AclintDriver {
  import opened Words
  import opened AclintWindow

  datatype Status = Ok | ErrParam

  const HARTS_MAX := 16
  const DELAY_CHUNK: u32 := 0x7FFF_FFFF

  datatype Config = Config(base: Window?, numHarts: nat, sswi: bool, mtimeHz: u32)

  /** From position `from` on, the comparand of the hart is never below `floor`. */
  ghost predicate KeepsAbove(trace: seq<Regs>, from: nat, hart: nat, floor: u64) {
    forall k :: from <= k < |trace| ==> hart < |trace[k].cmp| && trace[k].cmp[hart].Value() >= floor
  }

  /** A comparand with an all-ones low half is no smaller than any other with its high half. */
  lemma AllOnesLow(hi: u32, lo: u32)
    ensures Join(hi, lo) <= Join(hi, 0xFFFF_FFFF) == (hi + 1) * 0x1_0000_0000 - 1
  {
  }

  lemma SplitJoin(x: u64)
    ensures Join(HiWord(x), LoWord(x)) == x
  {
  }

  /** High only when MTIME has reached `floor`, at every instant of the run from `from` on. */
  ghost predicate NeverEarly(trace: seq<Regs>, from: nat, hart: nat, floor: u64) {
    forall k :: from <= k < |trace| && hart < |trace[k].cmp| && trace[k].Mtip(hart) ==> trace[k].Mtime() >= floor
  }

  /**
   * One pass of the read loop, on the unbounded tick counts behind it: the snapshot `s0` at its
   * start, `s` behind the first HI load, the count `t` at the LO load and the snapshot `s2`
   * behind the second HI load. Equal words mean that no LO load moved the high word in between;
   * unequal words mean that the high word of the snapshot rose.
   */
  lemma PassArithmetic(s0: nat, s: nat, t: nat, s2: nat)
    requires s0 <= s <= t <= s2
    ensures High(s0) <= High(s2)
    ensures High(s) % 0x1_0000_0000 != High(s2) % 0x1_0000_0000 ==> High(s0) < High(s2)
    ensures High(s) % 0x1_0000_0000 == High(s2) % 0x1_0000_0000 && High(s2) - High(s0) < 0x1_0000_0000 ==>
      Join(High(s2) % 0x1_0000_0000, t % 0x1_0000_0000_0000_0000 % 0x1_0000_0000) == t % 0x1_0000_0000_0000_0000
  {
    HighOrdered(s0, s);
    HighOrdered(s, t);
    HighOrdered(t, s2);
    if High(s) % 0x1_0000_0000 == High(s2) % 0x1_0000_0000 && High(s2) - High(s0) < 0x1_0000_0000 {
      SameWord(High(s), High(s2));
      JoinOfTicks(t);
    }
  }

  lemma HighOrdered(a: nat, b: nat)
    requires a <= b
    ensures High(a) <= High(b)
  {
  }

  /** Two counts less than a word apart with the same low words are the same. */
  lemma SameWord(a: nat, b: nat)
    requires a <= b < a + 0x1_0000_0000 && a % 0x1_0000_0000 == b % 0x1_0000_0000
    ensures a == b
  {
  }

  /** The high word of an unbounded count. */
  function High(t: nat): nat {
    t / 0x1_0000_0000
  }

  /** The three values a comparator passes through: none below the lesser of the old and new deadlines. */
  lemma DeadlineStores(was: Cmp, deadline: u64)
    ensures was.(lo := 0xFFFF_FFFF).Value() >= was.Value()
    ensures Cmp(0xFFFF_FFFF, HiWord(deadline)).Value() >= deadline
    ensures Cmp(LoWord(deadline), HiWord(deadline)).Value() == deadline
  {
    AllOnesLow(was.hi, was.lo);
    AllOnesLow(HiWord(deadline), LoWord(deadline));
    SplitJoin(deadline);
  }

  lemma AboveLonger(early: seq<Regs>, late: seq<Regs>, from: nat, hart: nat, cmp: Cmp, floor: u64)
    requires from < |early| && early <= late && KeepsAbove(early, from, hart, floor) && cmp.Value() >= floor
    requires forall k :: |early| <= k < |late| ==> hart < |late[k].cmp| && late[k].cmp[hart] == cmp
    ensures KeepsAbove(late, from, hart, floor)
  {
    forall k | from <= k < |early|
      ensures late[k] == early[k]
    {
    }
  }

  lemma AboveMeansNeverEarly(trace: seq<Regs>, from: nat, hart: nat, floor: u64)
    requires KeepsAbove(trace, from, hart, floor)
    ensures NeverEarly(trace, from, hart, floor)
  {
  }

  lemma NeverEarlyJoins(early: seq<Regs>, late: seq<Regs>, from: nat, hart: nat, floor: u64)
    requires from < |early| && early <= late
    requires NeverEarly(early, from, hart, floor) && NeverEarly(late, |early| - 1, hart, floor)
    ensures NeverEarly(late, from, hart, floor)
  {
    forall k | from <= k < |early|
      ensures late[k] == early[k]
    {
    }
  }

  /** A comparator that nobody writes is never early for any deadline up to its own. */
  lemma UntouchedIsNeverEarly(trace: seq<Regs>, from: nat, hart: nat, harts: set<nat>, floor: u64)
    requires from < |trace| && hart in harts && Untouched(trace, from, harts)
    requires hart < |trace[from].cmp| && floor <= trace[from].cmp[hart].Value()
    ensures NeverEarly(trace, from, hart, floor)
  {
  }

  /** A stretch in which nobody writes the comparator, and then stores that are never early. */
  lemma ReadThenStores(read: seq<Regs>, late: seq<Regs>, from: nat, hart: nat, quiet: set<nat>, floor: u64)
    requires from < |read| && read <= late && hart in quiet && Untouched(read, from, quiet)
    requires hart < |read[from].cmp| && floor <= read[from].cmp[hart].Value()
    requires NeverEarly(late, |read| - 1, hart, floor) && Untouched(late, |read| - 1, quiet - {hart})
    ensures NeverEarly(late, from, hart, floor) && Untouched(late, from, quiet - {hart})
  {
    UntouchedIsNeverEarly(read, from, hart, quiet, floor);
    NeverEarlyJoins(read, late, from, hart, floor);
    UntouchedJoins(read, late, from, quiet - {hart});
  }

  /** The 64-bit sum, or all ones when it wrapped. */
  function Saturated(v: u64, ticks: u64): (deadline: u64)
    ensures deadline == Min(v + ticks, DISARMED)
  {
    var sum := (v + ticks) % 0x1_0000_0000_0000_0000;
    if sum < v then DISARMED else sum
  }

  /**
   * The counts at two instants of a run, in order, and the MTIME values they stand for: the later
   * value is no smaller exactly if the ticks in between, modulo 2^64, do not carry past 2^64 - 1.
   */
  lemma ReadsInOrder(trace: seq<Regs>, first: nat, second: nat)
    requires IsRun(trace) && first <= second < |trace|
    ensures trace[first].ticks <= trace[second].ticks
    ensures trace[first].Mtime() <= trace[second].Mtime() <==>
      trace[first].Mtime() + TicksBetween(trace, first, second) % 0x1_0000_0000_0000_0000 < 0x1_0000_0000_0000_0000
  {
    RunOrdered(trace, first, second);
    WrappedOrder(trace[first].ticks, trace[second].ticks);
  }

  function TicksBetween(trace: seq<Regs>, first: nat, second: nat): int
    requires first <= second < |trace|
  {
    trace[second].ticks - trace[first].ticks
  }

  lemma WrappedOrder(a: nat, b: nat)
    requires a <= b
    ensures a % 0x1_0000_0000_0000_0000 <= b % 0x1_0000_0000_0000_0000 <==>
      a % 0x1_0000_0000_0000_0000 + (b - a) % 0x1_0000_0000_0000_0000 < 0x1_0000_0000_0000_0000
  {
  }

  class Aclint {
    var regs: Window?
    var numHarts: nat
    var sswi: bool
    var mtimeHz: u32

    ghost predicate Valid()
      reads this, regs
    {
      regs != null && regs.Valid() && 0 < numHarts <= HARTS_MAX && numHarts <= |regs.cmp|
    }

    /** Binds the handle; a refused configuration leaves it as it was. Touches no register. */
    method Init(cfg: Config) returns (status: Status)
      modifies this
      ensures status == Ok <==> cfg.base != null && 0 < cfg.numHarts <= HARTS_MAX
      ensures status == Ok && cfg.base.Valid() && cfg.numHarts <= |cfg.base.cmp| ==> Valid()
      ensures status == Ok ==>
        regs == cfg.base && numHarts == cfg.numHarts && sswi == cfg.sswi && mtimeHz == cfg.mtimeHz
      ensures status != Ok ==> unchanged(this)
    {
      if cfg.base == null || cfg.numHarts == 0 || cfg.numHarts > HARTS_MAX {
        return ErrParam;
      }
      regs := cfg.base;
      numHarts := cfg.numHarts;
      sswi := cfg.sswi;
      mtimeHz := cfg.mtimeHz;
      return Ok;
    }

    /** The three loads of one pass: `hi`, then `lo` at the instant `at`, then `hi2`. */
    method ReadPass(quiet: set<nat>) returns (hi: u32, lo: u32, hi2: u32, ghost at: nat)
      requires Valid()
      modifies regs
      ensures Valid() && old(regs.trace) <= regs.trace
      ensures Untouched(regs.trace, |old(regs.trace)| - 1, quiet)
      ensures |old(regs.trace)| <= at < |regs.trace|
      ensures regs.trace[at] == Apply(regs.trace[at - 1], LoadLo)
      ensures old(regs.SnapHigh()) <= regs.SnapHigh()
      ensures hi != hi2 ==> old(regs.SnapHigh()) < regs.SnapHigh()
      ensures hi == hi2 && regs.SnapHigh() - old(regs.SnapHigh()) < 0x1_0000_0000 ==>
        Join(hi2, lo) == regs.trace[at].Mtime()
    {
      var w := regs;
      ghost var start := |w.trace| - 1;
      w.Interfere(quiet);
      hi := w.LoadMtimeHi();
      ghost var a := |w.trace| - 1;
      w.Interfere(quiet);
      lo := w.LoadMtimeLo();
      at := |w.trace| - 1;
      w.Interfere(quiet);
      hi2 := w.LoadMtimeHi();
      RunOrdered(w.trace, start, a);
      RunOrdered(w.trace, a, at);
      RunOrdered(w.trace, at, |w.trace| - 1);
      PassArithmetic(w.trace[start].snapAt, w.trace[a].snapAt, w.trace[at].ticks, w.snapAt);
    }

    /**
     * The HI / LO / HI retry loop. The result is the MTIME of one instant inside the call, the
     * one of its own last LO load (`at`), as long as the counter does not run through its whole
     * 64-bit range between the last LO load before the call and the return. Every failed pass is
     * paid for by a rise of the shared snapshot, which bounds the retries in any interference.
     */
    method MtimeRead(quiet: set<nat>) returns (v: u64, ghost at: nat, ghost failed: nat)
      requires Valid()
      modifies regs
      ensures Valid() && old(regs.trace) <= regs.trace
      ensures Untouched(regs.trace, |old(regs.trace)| - 1, quiet)
      ensures |old(regs.trace)| <= at < |regs.trace|
      ensures regs.trace[at] == Apply(regs.trace[at - 1], LoadLo)
      ensures regs.SnapHigh() - old(regs.SnapHigh()) < 0x1_0000_0000 ==> v == regs.trace[at].Mtime()
      ensures failed <= regs.SnapHigh() - old(regs.SnapHigh())
    {
      failed := 0;
      var hi, lo, hi2;
      hi, lo, hi2, at := ReadPass(quiet);
      while hi != hi2
        invariant Valid() && old(regs.trace) <= regs.trace
        invariant Untouched(regs.trace, |old(regs.trace)| - 1, quiet)
        invariant |old(regs.trace)| <= at < |regs.trace|
        invariant regs.trace[at] == Apply(regs.trace[at - 1], LoadLo)
        invariant failed + (if hi != hi2 then 1 else 0) <= regs.SnapHigh() - old(regs.SnapHigh())
        invariant hi == hi2 && regs.SnapHigh() - old(regs.SnapHigh()) < 0x1_0000_0000 ==>
          Join(hi2, lo) == regs.trace[at].Mtime()
        decreases regs.HorizonHigh() - regs.SnapHigh(), hi != hi2
      {
        failed := failed + 1;
        hi, lo, hi2, at := ReadPass(quiet);
      }
      v := Join(hi2, lo);
    }

    /**
     * One read after another, with anything in between. The second value is no smaller unless the
     * ticks between the two last LO loads carry the counter past 2^64 - 1.
     */
    method ReadTwice(quiet: set<nat>) returns (v1: u64, v2: u64, ghost at1: nat, ghost at2: nat)
      requires Valid()
      modifies regs
      ensures Valid() && old(regs.trace) <= regs.trace
      ensures |old(regs.trace)| <= at1 < at2 < |regs.trace|
      ensures regs.SnapHigh() - old(regs.SnapHigh()) < 0x1_0000_0000 ==>
        (v1 <= v2 <==> v1 + TicksBetween(regs.trace, at1, at2) % 0x1_0000_0000_0000_0000 < 0x1_0000_0000_0000_0000)
    {
      var w := regs;
      v1, at1 := ReadOne(quiet);
      ghost var early, high := w.trace, w.SnapHigh();
      w.Interfere(quiet);
      v2, at2 := ReadOne(quiet);
      assert w.trace[at1] == early[at1];
      ReadsInOrder(w.trace, at1, at2);
    }

    method ReadOne(quiet: set<nat>) returns (v: u64, ghost at: nat)
      requires Valid()
      modifies regs
      ensures Valid() && old(regs.trace) <= regs.trace && |old(regs.trace)| <= at < |regs.trace|
      ensures old(regs.SnapHigh()) <= regs.SnapHigh()
      ensures regs.SnapHigh() - old(regs.SnapHigh()) < 0x1_0000_0000 ==> v == regs.trace[at].Mtime()
    {
      var value, instant, failed := MtimeRead(quiet);
      v, at := value, instant;
    }

    /** One store to a comparator half and everything that happens until the next access. */
    method StoreHalf(hart: nat, high: bool, value: u32, quiet: set<nat>)
      requires Valid() && hart < numHarts && hart in quiet
      modifies regs
      ensures Valid() && old(regs.trace) <= regs.trace
      ensures old(regs.SnapHigh()) <= regs.SnapHigh()
      ensures Untouched(regs.trace, |old(regs.trace)| - 1, quiet - {hart})
      ensures var set' := if high then old(regs.cmp[hart]).(hi := value) else old(regs.cmp[hart]).(lo := value);
        && regs.cmp[hart] == set'
        && forall k :: |old(regs.trace)| <= k < |regs.trace| ==>
          hart < |regs.trace[k].cmp| && regs.trace[k].cmp[hart] == set'
    {
      var w := regs;
      if high {
        w.StoreCmpHi(hart, value);
      } else {
        w.StoreCmpLo(hart, value);
      }
      ghost var stored := w.trace;
      assert Untouched(stored, |old(w.trace)| - 1, quiet - {hart});
      w.Interfere(quiet);
      UntouchedJoins(stored, w.trace, |old(w.trace)| - 1, quiet - {hart});
    }

    /** A store that keeps the comparand above `floor`, as it has been since position `from`. */
    method StoreAbove(hart: nat, high: bool, value: u32, quiet: set<nat>, ghost from: nat, ghost floor: u64)
      requires Valid() && hart < numHarts && hart in quiet
      requires from < |regs.trace| && KeepsAbove(regs.trace, from, hart, floor)
      requires Untouched(regs.trace, from, quiet - {hart})
      requires (if high then regs.cmp[hart].(hi := value) else regs.cmp[hart].(lo := value)).Value() >= floor
      modifies regs
      ensures Valid() && old(regs.trace) <= regs.trace && old(regs.SnapHigh()) <= regs.SnapHigh()
      ensures regs.cmp[hart] == if high then old(regs.cmp[hart]).(hi := value) else old(regs.cmp[hart]).(lo := value)
      ensures KeepsAbove(regs.trace, from, hart, floor) && Untouched(regs.trace, from, quiet - {hart})
    {
      ghost var before := regs.trace;
      StoreHalf(hart, high, value, quiet);
      AboveLonger(before, regs.trace, from, hart, regs.cmp[hart], floor);
      UntouchedJoins(before, regs.trace, from, quiet - {hart});
    }

    /** The three stores: all-ones low, the new high, the new low; none of them takes the comparand below `floor`. */
    method ThreeStores(hart: nat, hi: u32, lo: u32, quiet: set<nat>, ghost floor: u64)
      requires Valid() && hart < numHarts && hart in quiet
      requires regs.cmp[hart].Value() >= floor && regs.cmp[hart].(lo := 0xFFFF_FFFF).Value() >= floor
      requires Cmp(0xFFFF_FFFF, hi).Value() >= floor && Cmp(lo, hi).Value() >= floor
      modifies regs
      ensures Valid() && old(regs.trace) <= regs.trace && old(regs.SnapHigh()) <= regs.SnapHigh()
      ensures regs.cmp[hart] == Cmp(lo, hi)
      ensures NeverEarly(regs.trace, |old(regs.trace)| - 1, hart, floor)
      ensures Untouched(regs.trace, |old(regs.trace)| - 1, quiet - {hart})
    {
      ghost var from := |regs.trace| - 1;
      StoreAbove(hart, false, 0xFFFF_FFFF, quiet, from, floor);
      StoreAbove(hart, true, hi, quiet, from, floor);
      StoreAbove(hart, false, lo, quiet, from, floor);
      AboveMeansNeverEarly(regs.trace, from, hart, floor);
    }

    /**
     * Arms the timer of a hart. Whatever ticks, reads and stores for other harts fall between and
     * after the three stores, the interrupt is high only once MTIME has reached the lesser of the
     * old and the new deadline, and no other comparator is written by the call.
     */
    method TimerSet(hart: nat, deadline: u64, quiet: set<nat>) returns (status: Status)
      requires Valid() && hart in quiet
      modifies regs
      ensures Valid() && old(regs.trace) <= regs.trace
      ensures status == Ok <==> hart < numHarts
      ensures status != Ok ==> regs.trace == old(regs.trace)
      ensures status == Ok ==> regs.cmp[hart].Value() == deadline
      ensures status == Ok ==>
        NeverEarly(regs.trace, |old(regs.trace)| - 1, hart, Min(old(regs.cmp[hart].Value()), deadline))
      ensures old(regs.SnapHigh()) <= regs.SnapHigh()
      ensures Untouched(regs.trace, |old(regs.trace)| - 1, quiet - {hart})
    {
      if hart >= numHarts {
        return ErrParam;
      }
      ghost var was := regs.cmp[hart];
      DeadlineStores(was, deadline);
      ThreeStores(hart, HiWord(deadline), LoWord(deadline), quiet, Min(was.Value(), deadline));
      return Ok;
    }

    /** Disarms the timer of a hart without ever raising the interrupt before the old deadline. */
    method TimerDisable(hart: nat, quiet: set<nat>) returns (status: Status)
      requires Valid() && hart in quiet
      modifies regs
      ensures Valid() && old(regs.trace) <= regs.trace
      ensures status == Ok <==> hart < numHarts
      ensures status != Ok ==> regs.trace == old(regs.trace)
      ensures status == Ok ==> regs.cmp[hart].Value() == DISARMED
      ensures status == Ok ==> NeverEarly(regs.trace, |old(regs.trace)| - 1, hart, old(regs.cmp[hart].Value()))
      ensures Untouched(regs.trace, |old(regs.trace)| - 1, quiet - {hart})
    {
      if hart >= numHarts {
        return ErrParam;
      }
      ghost var from, was := |regs.trace| - 1, regs.cmp[hart];
      AllOnesLow(was.hi, was.lo);
      StoreAbove(hart, false, 0xFFFF_FFFF, quiet, from, was.Value());
      StoreAbove(hart, true, 0xFFFF_FFFF, quiet, from, was.Value());
      AboveMeansNeverEarly(regs.trace, from, hart, was.Value());
      return Ok;
    }

    /**
     * Arms the timer `ticks` from now, where `now` is the MTIME of an instant of the call: the new
     * deadline is min(now + ticks, 2^64 - 1). Through the read and through the stores the interrupt
     * is high only once MTIME has reached the lesser of the old and the new deadline, so on a
     * disarmed hart only once it has reached the new one.
     */
    method TimerSetRel(hart: nat, ticks: u64, quiet: set<nat>) returns (status: Status, ghost now: u64, ghost at: nat)
      requires Valid() && hart in quiet
      modifies regs
      ensures Valid() && old(regs.trace) <= regs.trace
      ensures status == Ok <==> hart < numHarts
      ensures status != Ok ==> regs.trace == old(regs.trace)
      ensures status == Ok ==> |old(regs.trace)| <= at < |regs.trace|
      ensures status == Ok && regs.SnapHigh() - old(regs.SnapHigh()) < 0x1_0000_0000 ==> now == regs.trace[at].Mtime()
      ensures status == Ok ==> regs.cmp[hart].Value() == Min(now + ticks, DISARMED)
      ensures status == Ok ==>
        NeverEarly(regs.trace, |old(regs.trace)| - 1, hart,
                   Min(old(regs.cmp[hart].Value()), Min(now + ticks, DISARMED)))
      ensures Untouched(regs.trace, |old(regs.trace)| - 1, quiet - {hart})
    {
      now, at := 0, 0;
      if hart >= numHarts {
        return ErrParam, now, at;
      }
      ghost var from, was := |regs.trace| - 1, regs.cmp[hart].Value();
      var v, inst, _ := MtimeRead(quiet);
      ghost var read := regs.trace;
      now, at := v, inst;
      var deadline := Saturated(v, ticks);
      status := TimerSet(hart, deadline, quiet);
      ReadThenStores(read, regs.trace, from, hart, quiet, Min(was, deadline));
    }

    /** Reads MTIMECMP back, half by half. */
    method TimerGet(hart: nat, quiet: set<nat>) returns (status: Status, deadline: u64)
      requires Valid() && hart in quiet
      modifies regs
      ensures Valid() && old(regs.trace) <= regs.trace
      ensures Untouched(regs.trace, |old(regs.trace)| - 1, quiet)
      ensures status == Ok <==> hart < numHarts
      ensures status == Ok ==> deadline == old(regs.cmp[hart].Value())
      ensures old(regs.SnapHigh()) <= regs.SnapHigh()
    {
      if hart >= numHarts {
        return ErrParam, 0;
      }
      var w := regs;
      var lo := w.LoadCmp(hart, false);
      w.Interfere(quiet);
      var hi := w.LoadCmp(hart, true);
      return Ok, Join(hi, lo);
    }

    /** The answer is the interrupt level of the hart at one instant of the call. */
    method TimerExpired(hart: nat, quiet: set<nat>) returns (expired: bool, ghost at: nat)
      requires Valid() && hart in quiet
      modifies regs
      ensures Valid() && old(regs.trace) <= regs.trace
      ensures Untouched(regs.trace, |old(regs.trace)| - 1, quiet)
      ensures hart >= numHarts ==> !expired
      ensures hart < numHarts ==> |old(regs.trace)| <= at < |regs.trace| && hart < |regs.trace[at].cmp|
      ensures hart < numHarts && regs.SnapHigh() - old(regs.SnapHigh()) < 0x1_0000_0000 ==>
        expired == regs.trace[at].Mtip(hart)
    {
      var status, deadline := TimerGet(hart, quiet);
      at := 0;
      if status != Ok {
        return false, at;
      }
      var v, inst, _ := MtimeRead(quiet);
      at := inst;
      return v >= deadline, at;
    }
  }
}
