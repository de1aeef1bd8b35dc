/**
 * The ACLINT register window as the driver's headers describe it: every access and every
 * counter tick is one atomic step, and the ghost `trace` keeps the state after each step, so
 * that contracts can speak about every instant of a call.
 */
module AclintWindow {
  import opened Words

  /** MTIMECMP of one hart: two separate 32-bit registers. */
  datatype Cmp = Cmp(lo: u32, hi: u32) {
    function Value(): u64 {
      Join(hi, lo)
    }
  }

  /**
   * One instant of the window. `ticks` counts MTIME increments since reset without wrapping and
   * `snapAt` is the count at the last MTIME_LO load; software only ever sees the truncated words.
   */
  datatype Regs = Regs(ticks: nat, snapAt: nat, cmp: seq<Cmp>) {
    function Mtime(): u64 {
      ticks % 0x1_0000_0000_0000_0000
    }

    /** What a load of MTIME_HI returns. */
    function Snapshot(): u32 {
      snapAt / 0x1_0000_0000 % 0x1_0000_0000
    }

    /** The timer interrupt level of a hart. */
    predicate Mtip(hart: nat)
      requires hart < |cmp|
    {
      Mtime() >= cmp[hart].Value()
    }
  }

  const DISARMED: u64 := 0xFFFF_FFFF_FFFF_FFFF

  datatype Op =
    | Tick
    | LoadLo
    | LoadOther  // a load that changes no register: MTIME_HI or a half of MTIMECMP
    | StoreLo(hart: nat, value: u32)
    | StoreHi(hart: nat, value: u32)

  function Apply(r: Regs, op: Op): Regs {
    match op
    case Tick => r.(ticks := r.ticks + 1)
    case LoadLo => r.(snapAt := r.ticks)
    case LoadOther => r
    case StoreLo(h, v) => if h < |r.cmp| then r.(cmp := r.cmp[h := r.cmp[h].(lo := v)]) else r
    case StoreHi(h, v) => if h < |r.cmp| then r.(cmp := r.cmp[h := r.cmp[h].(hi := v)]) else r
  }

  ghost predicate Step(before: Regs, after: Regs) {
    exists op :: after == Apply(before, op)
  }

  /** Position `k` of the trace is reached from the one before it by one step. */
  ghost predicate StepAt(trace: seq<Regs>, k: nat)
    requires 0 < k < |trace|
  {
    Step(trace[k - 1], trace[k])
  }

  ghost predicate IsRun(trace: seq<Regs>) {
    && |trace| > 0
    && trace[0].snapAt <= trace[0].ticks
    && (forall k :: 0 < k < |trace| ==> StepAt(trace, k))
  }

  lemma RunExtends(trace: seq<Regs>, op: Op)
    requires IsRun(trace)
    ensures IsRun(trace + [Apply(trace[|trace| - 1], op)])
  {
    var longer := trace + [Apply(trace[|trace| - 1], op)];
    forall k | 0 < k < |longer|
      ensures StepAt(longer, k)
    {
      if k < |trace| {
        assert StepAt(trace, k);
      } else {
        assert longer[k] == Apply(longer[k - 1], op);
      }
    }
  }

  /** Time and snapshot never go back along a run, and no comparator appears or disappears. */
  lemma {:induction false} RunOrdered(trace: seq<Regs>, i: nat, j: nat)
    requires IsRun(trace) && i <= j < |trace|
    ensures trace[i].ticks <= trace[j].ticks
    ensures trace[i].snapAt <= trace[j].snapAt
    ensures |trace[i].cmp| == |trace[j].cmp|
    ensures trace[j].snapAt <= trace[j].ticks
    decreases j, j - i
  {
    if j > 0 {
      assert StepAt(trace, j);
      RunOrdered(trace, if i < j then i else j - 1, j - 1);
    }
  }

  /** From position `from` on, the comparators of these harts keep their values. */
  ghost predicate Untouched(trace: seq<Regs>, from: nat, harts: set<nat>)
    requires from < |trace|
  {
    forall k, h :: from <= k < |trace| && h in harts && h < |trace[from].cmp| ==>
      h < |trace[k].cmp| && trace[k].cmp[h] == trace[from].cmp[h]
  }

  lemma UntouchedJoins(early: seq<Regs>, late: seq<Regs>, from: nat, harts: set<nat>)
    requires from < |early| && early <= late
    requires Untouched(early, from, harts) && Untouched(late, |early| - 1, harts)
    ensures Untouched(late, from, harts)
  {
    forall k, h | from <= k < |late| && h in harts && h < |late[from].cmp|
      ensures h < |late[k].cmp| && late[k].cmp[h] == late[from].cmp[h]
    {
      assert early[|early| - 1] == late[|early| - 1];
      assert h < |early[|early| - 1].cmp| && early[|early| - 1].cmp[h] == early[from].cmp[h];
      if k < |early| {
        assert early[k] == late[k];
      }
    }
  }

  class Window {
    var ticks: nat
    var snapAt: nat
    var cmp: seq<Cmp>
    ghost var trace: seq<Regs>
    const horizon: nat  // the run under consideration ends before this tick
    const pace: nat     // the most ticks there are between two accesses of one context

    ghost predicate Valid()
      reads this
    {
      && IsRun(trace)
      && trace[|trace| - 1] == Now()
      && snapAt <= ticks <= horizon
    }

    function Now(): Regs
      reads this
    {
      Regs(ticks, snapAt, cmp)
    }

    /** The unbounded high word of the count that the shared snapshot was taken from. */
    ghost function SnapHigh(): nat
      reads this
    {
      snapAt / 0x1_0000_0000
    }

    ghost function HorizonHigh(): nat {
      horizon / 0x1_0000_0000
    }

    /** Out of reset: the counter at zero, every comparator disarmed. */
    constructor (harts: nat, horizon: nat, pace: nat)
      ensures Valid() && this.horizon == horizon && this.pace == pace && |cmp| == harts && ticks == 0
      ensures forall h :: 0 <= h < harts ==> cmp[h].Value() == DISARMED
    {
      ticks, snapAt := 0, 0;
      cmp := seq(harts, _ => Cmp(0xFFFF_FFFF, 0xFFFF_FFFF));
      this.horizon, this.pace := horizon, pace;
      new;
      trace := [Now()];
    }

    method Tick()
      requires Valid() && ticks < horizon
      modifies this
      ensures Valid() && Now() == Apply(old(Now()), Op.Tick) && trace == old(trace) + [Now()]
    {
      ticks := ticks + 1;
      RunExtends(trace, Op.Tick);
      trace := trace + [Now()];
    }

    method LoadMtimeLo() returns (lo: u32)
      requires Valid()
      modifies this
      ensures Valid() && Now() == Apply(old(Now()), Op.LoadLo) && trace == old(trace) + [Now()]
      ensures lo == LoWord(Now().Mtime())
    {
      snapAt := ticks;
      lo := ticks % 0x1_0000_0000_0000_0000 % 0x1_0000_0000;
      RunExtends(trace, Op.LoadLo);
      trace := trace + [Now()];
    }

    method LoadMtimeHi() returns (hi: u32)
      requires Valid()
      modifies this`trace
      ensures Valid() && trace == old(trace) + [Now()]
      ensures hi == Now().Snapshot()
    {
      hi := snapAt / 0x1_0000_0000 % 0x1_0000_0000;
      RunExtends(trace, Op.LoadOther);
      trace := trace + [Now()];
    }

    method LoadCmp(hart: nat, high: bool) returns (half: u32)
      requires Valid() && hart < |cmp|
      modifies this`trace
      ensures Valid() && trace == old(trace) + [Now()]
      ensures half == if high then cmp[hart].hi else cmp[hart].lo
    {
      half := if high then cmp[hart].hi else cmp[hart].lo;
      RunExtends(trace, Op.LoadOther);
      trace := trace + [Now()];
    }

    method StoreCmpLo(hart: nat, value: u32)
      requires Valid()
      modifies this
      ensures Valid() && Now() == Apply(old(Now()), Op.StoreLo(hart, value)) && trace == old(trace) + [Now()]
    {
      if hart < |cmp| {
        cmp := cmp[hart := cmp[hart].(lo := value)];
      }
      RunExtends(trace, Op.StoreLo(hart, value));
      trace := trace + [Now()];
    }

    method StoreCmpHi(hart: nat, value: u32)
      requires Valid()
      modifies this
      ensures Valid() && Now() == Apply(old(Now()), Op.StoreHi(hart, value)) && trace == old(trace) + [Now()]
    {
      if hart < |cmp| {
        cmp := cmp[hart := cmp[hart].(hi := value)];
      }
      RunExtends(trace, Op.StoreHi(hart, value));
      trace := trace + [Now()];
    }

    /**
     * Everything that can happen between two accesses of one context: up to `pace` ticks, any
     * number of loads by other readers, and of comparator stores by other contexts to any hart
     * outside `quiet`, in any order.
     */
    method Interfere(quiet: set<nat>)
      requires Valid()
      modifies this
      ensures Valid() && old(trace) <= trace && |cmp| == |old(cmp)|
      ensures Untouched(trace, |old(trace)| - 1, quiet)
      ensures old(snapAt) <= snapAt && ticks <= old(ticks) + pace
    {
      var start, steps: nat := ticks, *;
      while steps > 0
        invariant Valid() && old(trace) <= trace && |cmp| == |old(cmp)|
        invariant start == old(ticks) && old(snapAt) <= snapAt <= ticks <= start + pace
        invariant Untouched(trace, |old(trace)| - 1, quiet)
      {
        var what: Op := *;
        match what {
          case Tick =>
            if ticks < horizon && ticks < start + pace {
              Tick();
            }
          case LoadLo =>
            var _ := LoadMtimeLo();
          case LoadOther =>
            var _ := LoadMtimeHi();
          case StoreLo(h, v) =>
            if h !in quiet {
              StoreCmpLo(h, v);
            }
          case StoreHi(h, v) =>
            if h !in quiet {
              StoreCmpHi(h, v);
            }
        }
        steps := steps - 1;
      }
    }
  }
}
