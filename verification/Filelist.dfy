/**
 * The filelist flattener. The file system is a finite map from a resolved path to the lines of the
 * filelist there; resolving a name relative to a filelist is a parameter.
 */
module Filelist {
  import opened Text

  type Path = string

  datatype Disk = Disk(lists: map<Path, seq<string>>, resolve: (Path, string) -> Path)

  /** What one line of a filelist contributes, once its names are resolved. */
  datatype Entry = Nothing | Nested(target: Path) | Emit(line: string)

  /** A line without the white space and the comment around it; empty when there is nothing else. */
  function TextOf(line: string): string {
    var whole := Strip(line);
    if whole == "" || "//" <= whole || "#" <= whole then ""
    else if Contains(whole, "//") then Strip(Before(whole, "//"))
    else whole
  }

  function Classify(d: Disk, p: Path, line: string): Entry {
    var text := TextOf(line);
    if text == "" then Nothing
    else if "-f " <= text then Nested(d.resolve(p, Strip(text[3..])))
    else if "+incdir+" <= text then
      var inc := text[8..];
      Emit("+incdir+" + if "./" <= inc then inc else d.resolve(p, inc))
    else if "+" <= text || "-" <= text || "./" <= text then Emit(text)
    else Emit(d.resolve(p, text))
  }

  /** The include graph: a line of one existing filelist names another existing one. */
  ghost predicate Includes(d: Disk, a: Path, b: Path) {
    a in d.lists && b in d.lists && exists line :: line in d.lists[a] && Classify(d, a, line) == Nested(b)
  }

  ghost predicate IsChain(d: Disk, chain: seq<Path>) {
    |chain| > 0 && forall i :: 0 < i < |chain| ==> Includes(d, chain[i - 1], chain[i])
  }

  ghost predicate Reachable(d: Disk, root: Path, p: Path) {
    exists chain :: IsChain(d, chain) && chain[0] == root && chain[|chain| - 1] == p
  }

  /** A walk's emitted lines, and the filelists it entered, in order. */
  datatype Walk = Walk(out: seq<string>, entered: seq<Path>)

  function Elements(s: seq<Path>): set<Path> {
    set p | p in s
  }

  function Flat(d: Disk, p: Path, seen: set<Path>): Walk
    decreases d.lists.Keys - seen, 0
  {
    if p in seen then Walk([], [])
    else if p !in d.lists then Walk([], [p])
    else
      var w := FlatLines(d, p, d.lists[p], seen + {p});
      Walk(w.out, [p] + w.entered)
  }

  /** What one line contributes when it is reached. */
  function FlatLine(d: Disk, p: Path, line: string, seen: set<Path>): Walk
    decreases d.lists.Keys - seen, 1
  {
    match Classify(d, p, line)
    case Nothing => Walk([], [])
    case Emit(x) => Walk([x], [])
    case Nested(t) => if t in d.lists then Flat(d, t, seen) else Walk([], [])
  }

  function FlatLines(d: Disk, p: Path, lines: seq<string>, seen: set<Path>): Walk
    decreases d.lists.Keys - seen, |lines| + 1
  {
    if lines == [] then Walk([], [])
    else
      var w := FlatLine(d, p, lines[0], seen);
      var rest := FlatLines(d, p, lines[1..], seen + Elements(w.entered));
      Walk(w.out + rest.out, w.entered + rest.entered)
  }

  /** What a walk has produced so far, and what the lines still to come will add. */
  ghost predicate Splits(whole: Walk, done: Walk, rest: Walk) {
    whole.out == done.out + rest.out && whole.entered == done.entered + rest.entered
  }

  /** One line of a walk: its own contribution first, then that of the lines after it. */
  lemma LineStep(d: Disk, p: Path, lines: seq<string>, i: nat, seen: set<Path>, whole: Walk, done: Walk)
    requires i < |lines| && Splits(whole, done, FlatLines(d, p, lines[i..], seen))
    ensures var w := FlatLine(d, p, lines[i], seen);
      Splits(whole, Walk(done.out + w.out, done.entered + w.entered),
             FlatLines(d, p, lines[i + 1..], seen + Elements(w.entered)))
  {
    assert lines[i..][0] == lines[i] && lines[i..][1..] == lines[i + 1..];
  }

  class Flattener {
    const disk: Disk
    var processed: set<Path>  // shared by all nested calls

    constructor (disk: Disk)
      ensures this.disk == disk && processed == {}
    {
      this.disk := disk;
      processed := {};
    }

    /** The recursive walk; a filelist already processed, or missing, contributes nothing. */
    method Process(p: Path) returns (out: seq<string>)
      modifies this
      ensures out == Flat(disk, p, old(processed)).out
      ensures processed == old(processed) + Elements(Flat(disk, p, old(processed)).entered)
      decreases disk.lists.Keys - processed, 0
    {
      if p in processed {
        return [];
      }
      processed := processed + {p};
      out := [];
      if p !in disk.lists {
        return;
      }
      var lines := disk.lists[p];
      ghost var start := processed;
      ghost var whole := FlatLines(disk, p, lines, start);
      ghost var entered: seq<Path> := [];
      assert lines[0..] == lines;
      for i := 0 to |lines|
        invariant processed == start + Elements(entered) && p in processed
        invariant Splits(whole, Walk(out, entered), FlatLines(disk, p, lines[i..], processed))
      {
        LineStep(disk, p, lines, i, processed, whole, Walk(out, entered));
        ghost var w := FlatLine(disk, p, lines[i], processed);
        var more := ProcessLine(p, lines[i]);
        out := out + more;
        entered := entered + w.entered;
      }
      assert lines[|lines|..] == [];
    }

    method ProcessLine(p: Path, line: string) returns (out: seq<string>)
      requires p in processed
      modifies this
      ensures out == FlatLine(disk, p, line, old(processed)).out
      ensures processed == old(processed) + Elements(FlatLine(disk, p, line, old(processed)).entered)
      decreases disk.lists.Keys - processed, 1
    {
      match Classify(disk, p, line) {
        case Nothing =>
          out := [];
        case Emit(x) =>
          out := [x];
        case Nested(t) =>
          out := [];
          if t in disk.lists {
            out := Process(t);
          }
      }
    }
  }

  /** Passthrough directives are never deduplicated; +incdir+ and file entries are. */
  predicate Passthrough(line: string) {
    !("+incdir+" <= line) && ("+" <= line || "-" <= line)
  }

  /** First occurrences of the file and +incdir+ entries, given the ones already seen. */
  function Dedup(lines: seq<string>, seen: set<string>): seq<string> {
    if lines == [] then []
    else if Passthrough(lines[0]) then [lines[0]] + Dedup(lines[1..], seen)
    else if lines[0] in seen then Dedup(lines[1..], seen)
    else [lines[0]] + Dedup(lines[1..], seen + {lines[0]})
  }

  /** Line `i` stays: it is a passthrough directive, or no earlier line is the same. */
  predicate Stays(lines: seq<string>, i: nat)
    requires i < |lines|
  {
    Passthrough(lines[i]) || lines[i] !in lines[..i]
  }

  /** The places of the lines that stay, among the first `n`. */
  function Staying(lines: seq<string>, n: nat): (places: seq<nat>)
    requires n <= |lines|
    ensures forall i :: i in places <==> 0 <= i < n && Stays(lines, i)
    ensures forall k :: 0 <= k < |places| ==> places[k] < n
    ensures forall k, l :: 0 <= k < l < |places| ==> places[k] < places[l]
  {
    if n == 0 then [] else Staying(lines, n - 1) + if Stays(lines, n - 1) then [n - 1] else []
  }

  function Picked(lines: seq<string>, places: seq<nat>): seq<string>
    requires forall i :: i in places ==> i < |lines|
  {
    seq(|places|, k requires 0 <= k < |places| => assert places[k] in places; lines[places[k]])
  }

  /** The lines that stay, among the first `n`. */
  function Kept(lines: seq<string>, n: nat): seq<string>
    requires n <= |lines|
  {
    if n == 0 then [] else Kept(lines, n - 1) + if Stays(lines, n - 1) then [lines[n - 1]] else []
  }

  lemma {:induction false} KeptIsPicked(lines: seq<string>, n: nat)
    requires n <= |lines|
    ensures Kept(lines, n) == Picked(lines, Staying(lines, n))
  {
    if n > 0 {
      KeptIsPicked(lines, n - 1);
    }
  }

  function SeeLine(line: string, seen: set<string>): set<string> {
    if Passthrough(line) then seen else seen + {line}
  }

  /** The entries seen in the first `i` lines. */
  function SeenIn(lines: seq<string>, i: nat): set<string>
    requires i <= |lines|
  {
    if i == 0 then {} else SeeLine(lines[i - 1], SeenIn(lines, i - 1))
  }

  lemma {:induction false} SeenMeaning(lines: seq<string>, i: nat, x: string)
    requires i <= |lines|
    ensures x in SeenIn(lines, i) <==> x in lines[..i] && !Passthrough(x)
  {
    if i > 0 {
      SeenMeaning(lines, i - 1, x);
      assert lines[..i] == lines[..i - 1] + [lines[i - 1]];
    }
  }

  lemma DedupOneMore(lines: seq<string>, i: nat, seen: set<string>)
    requires i < |lines|
    ensures Dedup(lines[i..], seen)
         == (if Passthrough(lines[i]) || lines[i] !in seen then [lines[i]] else [])
          + Dedup(lines[i + 1..], SeeLine(lines[i], seen))
  {
    assert lines[i..][0] == lines[i] && lines[i..][1..] == lines[i + 1..];
    assert lines[i] in seen ==> seen + {lines[i]} == seen;
  }

  lemma KeepsStep(lines: seq<string>, i: nat)
    requires i < |lines|
    ensures Kept(lines, i) + Dedup(lines[i..], SeenIn(lines, i))
         == Kept(lines, i + 1) + Dedup(lines[i + 1..], SeenIn(lines, i + 1))
  {
    SeenMeaning(lines, i, lines[i]);
    DedupOneMore(lines, i, SeenIn(lines, i));
    var first := if Stays(lines, i) then [lines[i]] else [];
    var rest := Dedup(lines[i + 1..], SeenIn(lines, i + 1));
    assert Kept(lines, i) + (first + rest) == Kept(lines, i) + first + rest;
  }

  /** The dedup of the lines from `i` on, once the entries of the lines before it have been seen. */
  lemma {:induction false} DedupKeeps(lines: seq<string>, i: nat)
    requires i <= |lines|
    ensures Kept(lines, i) + Dedup(lines[i..], SeenIn(lines, i)) == Kept(lines, |lines|)
    decreases |lines| - i
  {
    if i < |lines| {
      KeepsStep(lines, i);
      DedupKeeps(lines, i + 1);
    } else {
      assert lines[i..] == [];
    }
  }

  /** What is left, by place: in order, the lines that are passthrough directives or the first of their kind. */
  lemma DedupPicksFirsts(lines: seq<string>)
    ensures Dedup(lines, {}) == Picked(lines, Staying(lines, |lines|))
  {
    DedupKeeps(lines, 0);
    assert lines[0..] == lines && Kept(lines, 0) == [];
    KeptIsPicked(lines, |lines|);
  }

  /** What the loop has done, and what it has to do, make up the same lines after one more of them. */
  lemma DedupStep(all: seq<string>, out: seq<string>, lines: seq<string>, i: nat, seen: set<string>)
    requires i < |lines| && all == out + Dedup(lines[i..], seen)
    ensures Passthrough(lines[i]) ==> all == (out + [lines[i]]) + Dedup(lines[i + 1..], seen)
    ensures !Passthrough(lines[i]) && lines[i] in seen ==> all == out + Dedup(lines[i + 1..], seen)
    ensures !Passthrough(lines[i]) && lines[i] !in seen ==>
      all == (out + [lines[i]]) + Dedup(lines[i + 1..], seen + {lines[i]})
  {
    DedupOneMore(lines, i, seen);
    assert lines[i] in seen ==> seen + {lines[i]} == seen;
  }

  method DedupLines(lines: seq<string>) returns (out: seq<string>, dropped: nat)
    ensures out == Dedup(lines, {}) == Picked(lines, Staying(lines, |lines|))
    ensures dropped == |lines| - |out|
  {
    var seen: set<string> := {};
    out := [];
    dropped := 0;
    for i := 0 to |lines|
      invariant Dedup(lines, {}) == out + Dedup(lines[i..], seen)
      invariant dropped == i - |out|
    {
      var line := lines[i];
      DedupStep(Dedup(lines, {}), out, lines, i, seen);
      if Passthrough(line) {
        out := out + [line];
      } else if line in seen {
        dropped := dropped + 1;
      } else {
        seen := seen + {line};
        out := out + [line];
      }
    }
    DedupPicksFirsts(lines);
  }
}
