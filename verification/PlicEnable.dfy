/** The PLIC driver's bit-packed enable bank, which stands for a set of (context, source) pairs. */
module PlicEnable {
  import opened Words

  datatype Status = Ok | ErrParam

  const SOURCES_MAX := 1023
  const HARTS_MAX := 16
  const PRIO_BITS_MAX := 7

  datatype Config = Config(mapped: bool, numSources: nat, numHarts: nat, prioBits: nat, suMode: bool)

  predicate Buildable(cfg: Config) {
    && cfg.mapped
    && 1 <= cfg.numSources <= SOURCES_MAX
    && 1 <= cfg.numHarts <= HARTS_MAX
    && 1 <= cfg.prioBits <= PRIO_BITS_MAX
  }

  /** The word of an enable bank that holds a source, and the source's place in that word. */
  function Word(src: nat): nat {
    src / 32
  }

  function Place(src: nat): bv5 {
    (src % 32) as bv5
  }

  function At(place: bv5): bv32 {
    1 << place
  }

  function Bit(src: nat): bv32 {
    At(Place(src))
  }

  /** Source `src` is bit `src % 32` of word `src / 32`: counted over all words, bit `src`. */
  lemma BitOfSource(src: nat)
    ensures 32 * Word(src) + Place(src) as nat == src && Bit(src) == 1 << Place(src)
  {
  }

  lemma PlacesApart(w: bv32, a: bv5, b: bv5)
    ensures (w | At(a)) & At(b) != 0 <==> a == b || w & At(b) != 0
    ensures (w & !At(a)) & At(b) != 0 <==> a != b && w & At(b) != 0
  {
  }

  lemma PlaceBack(x: nat)
    requires x < 32
    ensures (x as bv5) as nat == x
  {
  }

  lemma PlaceInjective(a: nat, b: nat)
    requires Word(a) == Word(b)
    ensures Place(a) == Place(b) <==> a == b
  {
    PlaceBack(a % 32);
    PlaceBack(b % 32);
  }

  /** Setting or clearing one source's bit leaves every other source of the same word alone. */
  lemma OneBit(w: bv32, a: nat, b: nat)
    requires Word(a) == Word(b)
    ensures (w | Bit(a)) & Bit(b) != 0 <==> a == b || w & Bit(b) != 0
    ensures (w & !Bit(a)) & Bit(b) != 0 <==> a != b && w & Bit(b) != 0
  {
    PlaceInjective(a, b);
    PlacesApart(w, Place(a), Place(b));
  }

  /** The register has the source's bit set. */
  predicate HasBit(word: bv32, src: nat) {
    word & Bit(src) != 0
  }

  /** The sources among 1..numSources whose bits a context's row of enable words has set. */
  ghost function Held(row: seq<bv32>, numSources: nat): set<nat>
    requires |row| == 32 && numSources <= SOURCES_MAX
  {
    set s | 1 <= s <= numSources && HasBit(row[Word(s)], s)
  }

  /** The new word differs from the old one at this source only. */
  ghost predicate DiffersAt(word: bv32, before: bv32, src: nat, on: bool) {
    forall s: nat :: Word(s) == Word(src) ==> (HasBit(word, s) <==> if s == src then on else HasBit(before, s))
  }

  /** A word of a row replaced by one that differs at one source only. */
  lemma OneSource(row: seq<bv32>, word: bv32, src: nat, s: nat, on: bool)
    requires |row| == 32 && s <= SOURCES_MAX && src <= SOURCES_MAX && DiffersAt(word, row[Word(src)], src, on)
    ensures HasBit(row[Word(src) := word][Word(s)], s) <==> if s == src then on else HasBit(row[Word(s)], s)
  {
  }

  lemma RowAfterWord(row: seq<bv32>, numSources: nat, src: nat, word: bv32, on: bool)
    requires |row| == 32 && 1 <= src <= numSources <= SOURCES_MAX && DiffersAt(word, row[Word(src)], src, on)
    ensures Held(row[Word(src) := word], numSources)
         == if on then Held(row, numSources) + {src} else Held(row, numSources) - {src}
  {
    forall s | 1 <= s <= numSources {
      OneSource(row, word, src, s, on);
    }
  }

  ghost predicate FullBank(bank: seq<seq<bv32>>) {
    |bank| == 32 && forall c :: 0 <= c < 32 ==> |bank[c]| == 32
  }

  /** Each context's row has the bits of the context's set. */
  ghost predicate StandsFor(bank: seq<seq<bv32>>, on: seq<set<nat>>, numSources: nat)
    requires FullBank(bank) && numSources <= SOURCES_MAX && |on| <= 32
  {
    forall c :: 0 <= c < |on| ==> on[c] == Held(bank[c], numSources)
  }

  /** A new row for one context changes what the bank stands for at that context only. */
  lemma RowReplaced(bank: seq<seq<bv32>>, on: seq<set<nat>>, numSources: nat, ctx: nat, row: seq<bv32>)
    requires FullBank(bank) && numSources <= SOURCES_MAX && |on| <= 32 && StandsFor(bank, on, numSources)
    requires ctx < |on| && |row| == 32
    ensures FullBank(bank[ctx := row]) && StandsFor(bank[ctx := row], on[ctx := Held(row, numSources)], numSources)
  {
  }

  lemma SetDiffers(w: bv32, src: nat)
    ensures DiffersAt(w | Bit(src), w, src, true)
  {
    forall s: nat | Word(s) == Word(src)
      ensures HasBit(w | Bit(src), s) <==> if s == src then true else HasBit(w, s)
    {
      OneBit(w, src, s);
    }
  }

  lemma ClearDiffers(w: bv32, src: nat)
    ensures DiffersAt(w & !Bit(src), w, src, false)
  {
    forall s: nat | Word(s) == Word(src)
      ensures HasBit(w & !Bit(src), s) <==> if s == src then false else HasBit(w, s)
    {
      OneBit(w, src, s);
    }
  }

  /** One read-modify-write of a word shared by 32 sources adds exactly one of them. */
  lemma RowAfterSet(row: seq<bv32>, numSources: nat, src: nat)
    requires |row| == 32 && 1 <= src <= numSources <= SOURCES_MAX
    ensures Held(row[Word(src) := row[Word(src)] | Bit(src)], numSources) == Held(row, numSources) + {src}
  {
    SetDiffers(row[Word(src)], src);
    RowAfterWord(row, numSources, src, row[Word(src)] | Bit(src), true);
  }

  /** One read-modify-write of a word shared by 32 sources removes exactly one of them. */
  lemma RowAfterClear(row: seq<bv32>, numSources: nat, src: nat)
    requires |row| == 32 && 1 <= src <= numSources <= SOURCES_MAX
    ensures Held(row[Word(src) := row[Word(src)] & !Bit(src)], numSources) == Held(row, numSources) - {src}
  {
    ClearDiffers(row[Word(src)], src);
    RowAfterWord(row, numSources, src, row[Word(src)] & !Bit(src), false);
  }

  lemma ClearedRow(row: seq<bv32>, numSources: nat)
    requires |row| == 32 && numSources <= SOURCES_MAX
    requires forall w :: 0 <= w <= Word(numSources) ==> row[w] == 0
    ensures Held(row, numSources) == {}
  {
    forall s | 1 <= s <= numSources
      ensures row[Word(s)] & Bit(s) == 0
    {
      assert row[Word(s)] == 0;
    }
  }

  /** A power of two grows with its exponent. */
  lemma {:induction false} PowGrows(a: nat, b: nat)
    requires a <= b
    ensures Pow2(a) <= Pow2(b)
  {
    if a < b {
      PowGrows(a, b - 1);
    }
  }

  lemma PrioBits(bits: nat)
    requires 1 <= bits <= PRIO_BITS_MAX
    ensures 2 <= Pow2(bits) <= 128
  {
    PowGrows(1, bits);
    PowGrows(bits, 7);
    Pow2Adds(4, 3);
    assert Pow2(3) == 8 && Pow2(4) == 16;
  }

  class Plic {
    var enable: seq<seq<bv32>>   // ENABLE[32][32], by context and word
    var threshold: seq<nat>      // TARGET[32].THRESHOLD
    var numSources: nat
    var numHarts: nat
    var numContexts: nat
    var prioMax: nat
    var suMode: bool
    ghost var on: seq<set<nat>>  // what the bank stands for: the enabled sources of each context

    predicate InRange(ctx: nat, src: nat)
      reads this
    {
      ctx < numContexts && 1 <= src <= numSources
    }

    /** The registers the window has. */
    ghost predicate Mapped()
      reads this
    {
      FullBank(enable) && |threshold| == 32
    }

    ghost predicate Valid()
      reads this
    {
      && Mapped()
      && numSources <= SOURCES_MAX && |on| == numContexts <= 32
      && StandsFor(enable, on, numSources)
    }

    /** A device out of reset, with no handle bound to it yet. */
    constructor ()
      ensures Mapped()
      ensures forall c, n :: 0 <= c < 32 && 0 <= n <= SOURCES_MAX ==> Held(enable[c], n) == {}
    {
      enable := seq(32, c => seq(32, w => 0));
      threshold := seq(32, c => 0);
      numSources, numHarts, numContexts, prioMax, suMode := 0, 0, 0, 0, false;
      on := [];
      new;
      forall c, n | 0 <= c < 32 && 0 <= n <= SOURCES_MAX
        ensures Held(enable[c], n) == {}
      {
        ClearedRow(enable[c], n);
      }
    }

    /** Binds the handle to a configuration the driver accepts. Touches no register. */
    method Init(cfg: Config) returns (status: Status)
      requires Mapped()
      modifies this
      ensures status == Ok <==> Buildable(cfg)
      ensures status == Ok ==> Valid() && numSources == cfg.numSources && numHarts == cfg.numHarts
      ensures status == Ok ==> numContexts == if cfg.suMode then 2 * cfg.numHarts else cfg.numHarts
      ensures status == Ok ==> suMode == cfg.suMode && prioMax + 1 == Pow2(cfg.prioBits) && 1 <= prioMax <= 127
      ensures enable == old(enable) && threshold == old(threshold)
      ensures status != Ok ==> unchanged(this)
    {
      if !cfg.mapped {
        return ErrParam;
      }
      if cfg.numSources == 0 || cfg.numSources > SOURCES_MAX || cfg.numHarts == 0 || cfg.numHarts > HARTS_MAX
         || cfg.prioBits == 0 || cfg.prioBits > PRIO_BITS_MAX {
        return ErrParam;
      }
      numSources := cfg.numSources;
      numHarts := cfg.numHarts;
      suMode := cfg.suMode;
      numContexts := if cfg.suMode then 2 * cfg.numHarts else cfg.numHarts;
      PrioBits(cfg.prioBits);
      prioMax := Pow2(cfg.prioBits) - 1;
      ghost var rows := enable;
      on := seq(numContexts,
        c requires 0 <= c < 32 && |rows| == 32 && |rows[c]| == 32 => Held(rows[c], cfg.numSources));
      return Ok;
    }

    /** Enables a source for a context, and nothing else. */
    method Enable(ctx: nat, src: nat) returns (status: Status)
      requires Valid()
      modifies this`on, this`enable
      ensures Valid()
      ensures status == Ok <==> InRange(ctx, src)
      ensures on == if status == Ok then old(on)[ctx := old(on)[ctx] + {src}] else old(on)
    {
      if !InRange(ctx, src) {
        return ErrParam;
      }
      var row := enable[ctx][Word(src) := enable[ctx][Word(src)] | Bit(src)];
      RowAfterSet(enable[ctx], numSources, src);
      RowReplaced(enable, on, numSources, ctx, row);
      enable := enable[ctx := row];
      on := on[ctx := on[ctx] + {src}];
      return Ok;
    }

    /** Disables a source for a context, and nothing else. */
    method Disable(ctx: nat, src: nat) returns (status: Status)
      requires Valid()
      modifies this`on, this`enable
      ensures Valid()
      ensures status == Ok <==> InRange(ctx, src)
      ensures on == if status == Ok then old(on)[ctx := old(on)[ctx] - {src}] else old(on)
    {
      if !InRange(ctx, src) {
        return ErrParam;
      }
      var row := enable[ctx][Word(src) := enable[ctx][Word(src)] & !Bit(src)];
      RowAfterClear(enable[ctx], numSources, src);
      RowReplaced(enable, on, numSources, ctx, row);
      enable := enable[ctx := row];
      on := on[ctx := on[ctx] - {src}];
      return Ok;
    }

    /** Membership in the abstract set; false for anything out of range. */
    method IsEnabled(ctx: nat, src: nat) returns (r: bool)
      requires Valid()
      ensures r <==> ctx < numContexts && src in on[ctx]
    {
      if !InRange(ctx, src) {
        return false;
      }
      return enable[ctx][Word(src)] & Bit(src) != 0;
    }

    /** Disables every source of a context and opens its threshold; other contexts keep theirs. */
    method ContextClear(ctx: nat) returns (status: Status)
      requires Valid()
      modifies this`on, this`enable, this`threshold
      ensures Valid()
      ensures status == Ok <==> ctx < numContexts
      ensures on == if status == Ok then old(on)[ctx := {}] else old(on)
      ensures threshold == if status == Ok then old(threshold)[ctx := 0] else old(threshold)
    {
      if ctx >= numContexts {
        return ErrParam;
      }
      var words := Word(numSources) + 1;
      for w := 0 to words
        modifies this`enable
        invariant words <= 32 && Mapped()
        invariant forall k :: 0 <= k < w ==> enable[ctx][k] == 0
        invariant forall c :: 0 <= c < 32 && c != ctx ==> enable[c] == old(enable[c])
      {
        enable := enable[ctx := enable[ctx][w := 0]];
      }
      threshold := threshold[ctx := 0];
      ClearedRow(enable[ctx], numSources);
      on := on[ctx := {}];
      return Ok;
    }
  }
}
