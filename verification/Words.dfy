/** Fixed-width machine words as bounded integers; every truncation is written out. */
module Words {
  type u32 = x: int | 0 <= x < 0x1_0000_0000
  type u64 = x: int | 0 <= x < 0x1_0000_0000_0000_0000

  /** The 64-bit value of a register pair. */
  function Join(hi: u32, lo: u32): u64 {
    hi * 0x1_0000_0000 + lo
  }

  function HiWord(x: u64): u32 {
    x / 0x1_0000_0000
  }

  function LoWord(x: u64): u32 {
    x % 0x1_0000_0000
  }

  function Min(a: int, b: int): int {
    if a < b then a else b
  }

  /** A count of ticks is rebuilt, modulo 2^64, from its own low word and its own high word. */
  lemma JoinOfTicks(t: nat)
    ensures Join(t / 0x1_0000_0000 % 0x1_0000_0000, t % 0x1_0000_0000) == t % 0x1_0000_0000_0000_0000
  {
  }

  // ---- Powers of two ----

  function Pow2(i: nat): (p: nat)
    ensures p > 0
  {
    if i == 0 then 1 else 2 * Pow2(i - 1)
  }

  lemma {:induction false} Pow2Adds(a: nat, b: nat)
    ensures Pow2(a + b) == Pow2(a) * Pow2(b)
  {
    if a > 0 {
      Pow2Adds(a - 1, b);
    }
  }
}
