/** Duration to ticks: the driver's 64-bit shift-subtract division, rounded up. */
module TicksCeil {
  import opened Words

  /** The C shift `n >> i`. */
  function ShiftRight(n: nat, i: nat): nat {
    if i == 0 then n else ShiftRight(n, i - 1) / 2
  }

  lemma {:induction false} ShiftedBelow(n: nat, width: nat, i: nat)
    requires i <= width && n < Pow2(width)
    ensures ShiftRight(n, i) < Pow2(width - i)
  {
    if i > 0 {
      ShiftedBelow(n, width, i - 1);
    }
  }

  lemma Pow2Of16()
    ensures Pow2(16) == 0x1_0000
  {
    assert Pow2(2) == 4;
    Pow2Adds(2, 2);
    Pow2Adds(4, 4);
    Pow2Adds(8, 8);
  }

  lemma Pow2Of64()
    ensures Pow2(64) == 0x1_0000_0000_0000_0000
  {
    Pow2Of16();
    Pow2Adds(16, 16);
    Pow2Adds(32, 32);
  }

  lemma Scaled(a: nat, b: int, c: int)
    requires b <= c
    ensures a * b <= a * c
  {
  }

  /** Two 32-bit factors leave room in 64 bits for one more 32-bit term. */
  lemma ProductFits(t: u32, hz: u32)
    ensures 0 <= t * hz <= 0xFFFF_FFFE_0000_0001
  {
    Scaled(t, hz, 0xFFFF_FFFF);
    Scaled(t, 0, hz);
  }

  /** The quotient built so far, in its final position, never exceeds the dividend. */
  lemma {:induction false} PartialQuotient(n: nat, i: nat, high: nat)
    requires high <= ShiftRight(n, i)
    ensures high * Pow2(i) <= n
  {
    if i > 0 {
      PartialQuotient(n, i - 1, 2 * high);
      assert high * Pow2(i) == 2 * high * Pow2(i - 1);
    }
  }

  /**
   * The state of the division with `i` bits of the dividend still to come: the leading bits are
   * divided, `q` holds the quotient bits found so far in their final places.
   */
  ghost predicate Divided(n: nat, i: nat, d: nat, q: nat, r: nat) {
    r < d && exists high: nat :: Leading(n, i, d, q, r, high)
  }

  ghost predicate Leading(n: nat, i: nat, d: nat, q: nat, r: nat, high: nat) {
    ShiftRight(n, i) == high * d + r && q == high * Pow2(i)
  }

  lemma DivisionStarts(n: u64, d: nat)
    requires d > 0
    ensures Divided(n, 64, d, 0, 0)
  {
    Pow2Of64();
    ShiftedBelow(n, 64, 64);
    assert Leading(n, 64, d, 0, 0, 0);
  }

  lemma Doubled(high: nat, d: nat)
    ensures (2 * high) * d == 2 * (high * d)
    ensures (2 * high + 1) * d == 2 * (high * d) + d
  {
  }

  /** One more bit of the dividend moves into the remainder, and one more quotient bit comes out. */
  lemma DivisionStep(n: nat, i: nat, d: nat, q: nat, r: nat)
    requires i > 0 && Divided(n, i, d, q, r)
    ensures var r' := 2 * r + ShiftRight(n, i - 1) % 2;
      if r' >= d then Divided(n, i - 1, d, q + Pow2(i - 1), r' - d) && q + Pow2(i - 1) <= n
      else Divided(n, i - 1, d, q, r')
  {
    var high: nat :| Leading(n, i, d, q, r, high);
    var r' := 2 * r + ShiftRight(n, i - 1) % 2;
    Doubled(high, d);
    PlacedBit(high, i, q);
    if r' >= d {
      assert Leading(n, i - 1, d, q + Pow2(i - 1), r' - d, 2 * high + 1);
      Scaled(2 * high + 1, 1, d);
      PartialQuotient(n, i - 1, 2 * high + 1);
    } else {
      assert Leading(n, i - 1, d, q, r', 2 * high);
    }
  }

  lemma PlacedBit(high: nat, i: nat, q: nat)
    requires i > 0 && q == high * Pow2(i)
    ensures (2 * high) * Pow2(i - 1) == q
    ensures (2 * high + 1) * Pow2(i - 1) == q + Pow2(i - 1)
  {
    Doubled(high, Pow2(i - 1));
    assert high * Pow2(i) == 2 * (high * Pow2(i - 1));
  }

  lemma DivisionEnds(n: nat, d: nat, q: nat, r: nat)
    requires Divided(n, 0, d, q, r)
    ensures q * d <= n < q * d + d
  {
    var high: nat :| Leading(n, 0, d, q, r, high);
  }

  /** `t * hz / d`, rounded up, by shift-subtract: every intermediate fits its 64-bit variable. */
  method TicksCeil(t: u32, hz: u32, d: u32) returns (q: u64)
    requires d > 0
    ensures t * hz <= q * d
    ensures (q - 1) * d < t * hz
  {
    ProductFits(t, hz);
    var n: u64 := t * hz + (d - 1);
    q := 0;
    var r: u64 := 0;
    DivisionStarts(n, d);
    var i: nat := 64;
    while i > 0
      invariant i <= 64 && Divided(n, i, d, q, r)
    {
      DivisionStep(n, i, d, q, r);
      i := i - 1;
      r := 2 * r + ShiftRight(n, i) % 2;
      if r >= d {
        r := r - d;
        q := q + Pow2(i);
      }
    }
    DivisionEnds(n, d, q, r);
    assert (q - 1) * d == q * d - d;
  }
}
