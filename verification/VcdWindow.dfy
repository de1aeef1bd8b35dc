/** Sampling a value-change dump at the clock edges inside a time window. */
module VcdWindow {
  type Id = string
  type Value = string

  /** One line of the dump's body. Lines of no other kind change anything. */
  datatype Line =
    | Time(t: int)
    | Change(id: Id, value: Value)
    | Ignored

  datatype Row = Row(at: real, values: map<string, Value>)

  /** What to sample: signal names with their identifiers, the clock, the edge and the window. */
  datatype Query = Query(signals: map<string, Id>, clock: Id, rising: bool, from: real, to: real, scale: real)
  {
    function Before(): Value {
      if rising then "0" else "1"
    }

    function After(): Value {
      if rising then "1" else "0"
    }
  }

  function Look(cur: map<Id, Value>, id: Id): Value {
    if id in cur then cur[id] else "x"
  }

  function Snapshot(q: Query, cur: map<Id, Value>): map<string, Value> {
    map s | s in q.signals :: Look(cur, q.signals[s])
  }

  // ---- What the tool promises, without its state ----

  /** The value of a signal once all of these lines have taken effect. */
  function Settled(lines: seq<Line>, id: Id): Value {
    if lines == [] then "x"
    else
      match lines[|lines| - 1]
      case Change(i, v) => if i == id then v else Settled(lines[..|lines| - 1], id)
      case _ => Settled(lines[..|lines| - 1], id)
  }

  /** A section ends at `k`: before a time line, or at the end of the dump. */
  predicate SectionEnd(lines: seq<Line>, k: nat)
    requires k <= |lines|
  {
    k == |lines| || lines[k].Time?
  }

  /** The time of the section that line `k` would continue; 0 before the first time line. */
  function TimeAt(lines: seq<Line>, k: nat): int
    requires k <= |lines|
  {
    if k == 0 then 0
    else if lines[k - 1].Time? then lines[k - 1].t
    else TimeAt(lines, k - 1)
  }

  /** The clock's settled value at the end of the section before the one that ends at `k`. */
  function PreviousClock(lines: seq<Line>, clock: Id, k: nat): Value
    requires k <= |lines|
  {
    if k == 0 then "x"
    else if lines[k - 1].Time? then Settled(lines[..k - 1], clock)
    else PreviousClock(lines, clock, k - 1)
  }

  /** A section ends at `k` whose clock makes the wanted edge, in the window or not. */
  predicate EdgeAt(q: Query, lines: seq<Line>, k: nat)
    requires k <= |lines|
  {
    && SectionEnd(lines, k)
    && PreviousClock(lines, q.clock, k) == q.Before() && Settled(lines[..k], q.clock) == q.After()
  }

  /** The wanted edge: of a rising clock from 0 to 1 since the last section, of a falling one from 1 to 0. */
  lemma EdgeTurns(q: Query, lines: seq<Line>, k: nat)
    requires k <= |lines| && EdgeAt(q, lines, k)
    ensures if q.rising then PreviousClock(lines, q.clock, k) == "0" && Settled(lines[..k], q.clock) == "1"
            else PreviousClock(lines, q.clock, k) == "1" && Settled(lines[..k], q.clock) == "0"
  {
  }

  /** The row of the section that ends at `k`, if its clock makes the wanted edge in the window. */
  function RowAt(q: Query, lines: seq<Line>, k: nat): seq<Row>
    requires k <= |lines|
  {
    var at := TimeAt(lines, k) as real * q.scale;
    if EdgeAt(q, lines, k) && q.from <= at <= q.to
    then [Row(at, map s | s in q.signals :: Settled(lines[..k], q.signals[s]))]
    else []
  }

  /** The rows of all sections that end before `k`. */
  function RowsBefore(q: Query, lines: seq<Line>, k: nat): seq<Row>
    requires k <= |lines| + 1
  {
    if k == 0 then [] else RowsBefore(q, lines, k - 1) + RowAt(q, lines, k - 1)
  }

  function AllRows(q: Query, lines: seq<Line>): seq<Row> {
    RowsBefore(q, lines, |lines| + 1)
  }

  /** The first line past the window's end, or the end of the dump. */
  function Stop(q: Query, lines: seq<Line>, k: nat): (stop: nat)
    requires k <= |lines|
    ensures k <= stop <= |lines|
    ensures stop < |lines| ==> lines[stop].Time? && lines[stop].t as real > Limit(q)
    decreases |lines| - k
  {
    if k == |lines| || (lines[k].Time? && lines[k].t as real > Limit(q)) then k else Stop(q, lines, k + 1)
  }

  function Limit(q: Query): real {
    if q.scale != 0.0 then q.to / q.scale else q.to
  }

  /** The row a flush adds: the settled clock has made the wanted edge since the last flush. */
  function Flushed(q: Query, cur: map<Id, Value>, t: int, prevClk: Value): seq<Row> {
    var at := t as real * q.scale;
    if prevClk == q.Before() && Look(cur, q.clock) == q.After() && q.from <= at <= q.to
    then [Row(at, Snapshot(q, cur))] else []
  }

  /** The tool's state after the first `i` lines. */
  ghost predicate Follows(q: Query, lines: seq<Line>, i: nat, cur: map<Id, Value>, t: int, prevClk: Value)
    requires i <= |lines|
  {
    && (forall id :: Look(cur, id) == Settled(lines[..i], id))
    && prevClk == PreviousClock(lines, q.clock, i)
    && t == TimeAt(lines, i)
  }

  lemma FlushIsRow(q: Query, lines: seq<Line>, i: nat, cur: map<Id, Value>, t: int, prevClk: Value)
    requires i <= |lines| && Follows(q, lines, i, cur, t, prevClk)
    ensures RowAt(q, lines, i) == if SectionEnd(lines, i) then Flushed(q, cur, t, prevClk) else []
  {
    assert Snapshot(q, cur) == map s | s in q.signals :: Settled(lines[..i], q.signals[s]);
  }

  lemma LineTaken(q: Query, lines: seq<Line>, i: nat, cur: map<Id, Value>, t: int, prevClk: Value)
    requires i < |lines| && Follows(q, lines, i, cur, t, prevClk)
    ensures lines[i].Time? ==> Follows(q, lines, i + 1, cur, lines[i].t, Look(cur, q.clock))
    ensures lines[i].Change? ==> Follows(q, lines, i + 1, cur[lines[i].id := lines[i].value], t, prevClk)
    ensures lines[i].Ignored? ==> Follows(q, lines, i + 1, cur, t, prevClk)
  {
    assert lines[..i + 1][..i] == lines[..i];
    if lines[i].Change? {
      var after := cur[lines[i].id := lines[i].value];
      forall id
        ensures Look(after, id) == Settled(lines[..i + 1], id)
      {
        assert Look(cur, id) == Settled(lines[..i], id);
      }
    }
  }

  /** The effect of line `i` on the loop's state; a time line first closes its section. */
  method TakeLine(q: Query, lines: seq<Line>, i: nat, cur: map<Id, Value>, t: int, prevClk: Value, rows: seq<Row>)
    returns (cur': map<Id, Value>, t': int, prevClk': Value, rows': seq<Row>)
    requires i < |lines| && Follows(q, lines, i, cur, t, prevClk) && rows == RowsBefore(q, lines, i)
    ensures Follows(q, lines, i + 1, cur', t', prevClk') && rows' == RowsBefore(q, lines, i + 1)
    ensures lines[i].Time? ==> prevClk' == Look(cur', q.clock)
  {
    cur', t', prevClk', rows' := cur, t, prevClk, rows;
    FlushIsRow(q, lines, i, cur, t, prevClk);
    LineTaken(q, lines, i, cur, t, prevClk);
    match lines[i] {
      case Time(u) =>
        prevClk', rows' := Flush(q, cur, t, prevClk, rows);
        t' := u;
      case Change(id, value) =>
        cur' := cur[id := value];
      case Ignored =>
    }
  }

  /**
   * One pass over the dump that stops at the first time past the window: it yields, in order, the
   * row of every section up to there whose settled clock makes the wanted edge in the window.
   */
  method Sample(q: Query, ids: set<Id>, lines: seq<Line>) returns (rows: seq<Row>)
    ensures rows == RowsBefore(q, lines, Stop(q, lines, 0) + 1)
  {
    var cur: map<Id, Value> := map i | i in ids :: "x";
    rows := [];
    var prevClk := "x";
    var curT := 0;
    var i := 0;
    while i < |lines|
      invariant i <= |lines| && Stop(q, lines, 0) == Stop(q, lines, i)
      invariant rows == RowsBefore(q, lines, i) && Follows(q, lines, i, cur, curT, prevClk)
    {
      cur, curT, prevClk, rows := TakeLine(q, lines, i, cur, curT, prevClk, rows);
      if lines[i].Time? && curT as real > Limit(q) {
        break;
      }
      i := i + 1;
    }
    if i == |lines| {
      FlushIsRow(q, lines, i, cur, curT, prevClk);
    }
    prevClk, rows := Flush(q, cur, curT, prevClk, rows);
  }

  /** The closure at the end of a section, on the state it shares with the loop. */
  method Flush(q: Query, cur: map<Id, Value>, t: int, prevClk: Value, rows: seq<Row>)
    returns (prevClk': Value, rows': seq<Row>)
    ensures prevClk' == Look(cur, q.clock)
    ensures rows' == rows + Flushed(q, cur, t, prevClk)
  {
    var newClk := Look(cur, q.clock);
    rows' := rows;
    if prevClk == q.Before() && newClk == q.After() {
      var at := t as real * q.scale;
      if q.from <= at <= q.to {
        rows' := rows + [Row(at, Snapshot(q, cur))];
      }
    }
    prevClk' := newClk;
  }

  // ---- Stopping early ----

  /** Whatever the timestamps, an early stop only drops rows from the end. */
  lemma {:induction false} StopIsPrefix(q: Query, lines: seq<Line>, j: nat, k: nat)
    requires j <= k <= |lines| + 1
    ensures RowsBefore(q, lines, j) <= RowsBefore(q, lines, k)
  {
    if j < k {
      StopIsPrefix(q, lines, j, k - 1);
    }
  }

  /** No time of the dump before a wanted edge is later than the edge. */
  ghost predicate EdgesInOrder(q: Query, lines: seq<Line>) {
    forall j, k :: 0 <= j < k <= |lines| && EdgeAt(q, lines, k) ==> InOrder(lines, j, k)
  }

  predicate InOrder(lines: seq<Line>, j: nat, k: nat)
    requires j < k <= |lines|
  {
    lines[j].Time? ==> lines[j].t <= TimeAt(lines, k)
  }

  /** The rows of one pass that stops early are those of a scan of the whole dump. */
  ghost predicate StopLosesNothing(q: Query, lines: seq<Line>) {
    RowsBefore(q, lines, Stop(q, lines, 0) + 1) == AllRows(q, lines)
  }

  /** The same query with another window. */
  function Windowed(q: Query, from: real, to: real): (w: Query)
    ensures w.scale == q.scale && forall lines, k :: 0 <= k <= |lines| ==> EdgeAt(w, lines, k) == EdgeAt(q, lines, k)
  {
    q.(from := from, to := to)
  }

  lemma PastTheEnd(t: real, to: real, scale: real)
    requires scale > 0.0 && t > to / scale
    ensures t * scale > to
  {
    assert to / scale * scale == to;
  }

  lemma NoRowPastEnd(q: Query, lines: seq<Line>, k: nat)
    requires q.scale > 0.0 && k <= |lines| && TimeAt(lines, k) as real > Limit(q)
    ensures RowAt(q, lines, k) == []
  {
    PastTheEnd(TimeAt(lines, k) as real, q.to, q.scale);
  }

  lemma NoRowAfterStop(q: Query, lines: seq<Line>, k: nat)
    requires EdgesInOrder(q, lines) && q.scale > 0.0 && Stop(q, lines, 0) < k <= |lines|
    ensures RowAt(q, lines, k) == []
  {
    if EdgeAt(q, lines, k) {
      assert InOrder(lines, Stop(q, lines, 0), k);
      NoRowPastEnd(q, lines, k);
    }
  }

  lemma {:induction false} NoRowsAfterStop(q: Query, lines: seq<Line>, k: nat)
    requires EdgesInOrder(q, lines) && q.scale > 0.0
    requires Stop(q, lines, 0) < k <= |lines| + 1
    ensures RowsBefore(q, lines, k) == RowsBefore(q, lines, Stop(q, lines, 0) + 1)
  {
    if k > Stop(q, lines, 0) + 1 {
      NoRowsAfterStop(q, lines, k - 1);
      NoRowAfterStop(q, lines, k - 1);
    }
  }

  lemma {:induction false} StopAtMost(q: Query, lines: seq<Line>, i: nat, j: nat)
    requires i <= j < |lines| && lines[j].Time? && lines[j].t as real > Limit(q)
    ensures Stop(q, lines, i) <= j
    decreases j - i
  {
    if i < j && !(lines[i].Time? && lines[i].t as real > Limit(q)) {
      StopAtMost(q, lines, i + 1, j);
    }
  }

  lemma ExactLimit(t: real, scale: real)
    requires scale > 0.0
    ensures t * scale / scale == t
  {
  }

  /** The time of the section that ends at `k`, in the unit of the window. */
  predicate TimeIs(q: Query, lines: seq<Line>, k: nat, at: real)
    requires k <= |lines|
  {
    at == TimeAt(lines, k) as real * q.scale
  }

  lemma AroundHasRow(q: Query, lines: seq<Line>, k: nat, at: real)
    requires q.scale > 0.0 && k <= |lines| && EdgeAt(q, lines, k) && TimeIs(q, lines, k, at)
    ensures Limit(Windowed(q, at, at)) == TimeAt(lines, k) as real
    ensures |RowAt(Windowed(q, at, at), lines, k)| == 1
  {
    ExactLimit(TimeAt(lines, k) as real, q.scale);
  }

  lemma {:induction false} RowsGrow(q: Query, lines: seq<Line>, j: nat, k: nat)
    requires j <= k <= |lines| + 1
    ensures |RowsBefore(q, lines, j)| <= |RowsBefore(q, lines, k)|
  {
    if j < k {
      RowsGrow(q, lines, j, k - 1);
    }
  }

  lemma OneMoreRow(w: Query, lines: seq<Line>, k: nat)
    requires k <= |lines|
    ensures |RowsBefore(w, lines, k + 1)| == |RowsBefore(w, lines, k)| + |RowAt(w, lines, k)|
  {
  }

  lemma RowBetween(w: Query, lines: seq<Line>, n: nat, k: nat)
    requires n <= k <= |lines| && |RowAt(w, lines, k)| == 1
    ensures |RowsBefore(w, lines, n)| < |AllRows(w, lines)|
  {
    RowsGrow(w, lines, n, k);
    OneMoreRow(w, lines, k);
    RowsGrow(w, lines, k + 1, |lines| + 1);
  }

  /** A window around one edge, with a later time before it, loses the row of the edge. */
  lemma StopLosesEdge(q: Query, lines: seq<Line>, j: nat, k: nat, at: real)
    requires q.scale > 0.0 && j < k <= |lines| && EdgeAt(q, lines, k) && !InOrder(lines, j, k)
    requires TimeIs(q, lines, k, at)
    ensures var w := Windowed(q, at, at);
      |RowsBefore(w, lines, Stop(w, lines, 0) + 1)| < |AllRows(w, lines)|
  {
    var w := Windowed(q, at, at);
    AroundHasRow(q, lines, k, at);
    StopAtMost(w, lines, 0, j);
    RowBetween(w, lines, Stop(w, lines, 0) + 1, k);
  }

  lemma FewerIsLoss(w: Query, lines: seq<Line>)
    requires |RowsBefore(w, lines, Stop(w, lines, 0) + 1)| < |AllRows(w, lines)|
    ensures !StopLosesNothing(w, lines)
  {
  }

  lemma InOrderLosesNothing(q: Query, lines: seq<Line>, from: real, to: real)
    requires q.scale > 0.0 && EdgesInOrder(q, lines)
    ensures StopLosesNothing(Windowed(q, from, to), lines)
  {
    var w := Windowed(q, from, to);
    assert EdgesInOrder(w, lines);
    if Stop(w, lines, 0) < |lines| {
      NoRowsAfterStop(w, lines, |lines| + 1);
    }
  }

  /** Stopping early gives the rows of the whole dump, whatever the window. */
  ghost predicate NeverLoses(q: Query, lines: seq<Line>) {
    forall from, to :: StopLosesNothing(Windowed(q, from, to), lines)
  }

  lemma LosesIn(q: Query, lines: seq<Line>, at: real)
    requires |RowsBefore(Windowed(q, at, at), lines, Stop(Windowed(q, at, at), lines, 0) + 1)|
           < |AllRows(Windowed(q, at, at), lines)|
    ensures !NeverLoses(q, lines)
  {
    FewerIsLoss(Windowed(q, at, at), lines);
    assert !StopLosesNothing(Windowed(q, at, at), lines);
  }

  lemma EdgeIsLost(q: Query, lines: seq<Line>, j: nat, k: nat)
    requires q.scale > 0.0 && j < k <= |lines| && EdgeAt(q, lines, k) && !InOrder(lines, j, k)
    ensures !NeverLoses(q, lines)
  {
    var at := TimeAt(lines, k) as real * q.scale;
    assert TimeIs(q, lines, k, at);
    StopLosesEdge(q, lines, j, k, at);
    LosesIn(q, lines, at);
  }

  lemma OutOfOrderLoses(q: Query, lines: seq<Line>)
    requires q.scale > 0.0 && !EdgesInOrder(q, lines)
    ensures !NeverLoses(q, lines)
  {
    var j: nat, k: nat :| j < k <= |lines| && EdgeAt(q, lines, k) && !InOrder(lines, j, k);
    EdgeIsLost(q, lines, j, k);
  }

  /**
   * Stopping at the first time past the window's end loses nothing for any window if and only if no time of
   * the dump before a wanted edge is later than the edge.
   */
  lemma NeverLosesIffEdgesInOrder(q: Query, lines: seq<Line>)
    requires q.scale > 0.0
    ensures NeverLoses(q, lines) <==> EdgesInOrder(q, lines)
  {
    if EdgesInOrder(q, lines) {
      forall from, to
        ensures StopLosesNothing(Windowed(q, from, to), lines)
      {
        InOrderLosesNothing(q, lines, from, to);
      }
    } else {
      OutOfOrderLoses(q, lines);
    }
  }

  ghost predicate Nondecreasing(lines: seq<Line>) {
    forall i, j :: 0 <= i < j < |lines| && lines[i].Time? && lines[j].Time? ==> lines[i].t <= lines[j].t
  }

  lemma {:induction false} NondecreasingInOrder(lines: seq<Line>, j: nat, k: nat)
    requires Nondecreasing(lines) && j < k <= |lines|
    ensures InOrder(lines, j, k)
  {
    if !lines[k - 1].Time? && j < k - 1 {
      NondecreasingInOrder(lines, j, k - 1);
    }
  }

  /** For nondecreasing timestamps, stopping early gives the rows of the whole dump. */
  lemma EarlyStopLosesNothing(q: Query, lines: seq<Line>)
    requires Nondecreasing(lines) && q.scale > 0.0
    ensures StopLosesNothing(q, lines)
  {
    forall j, k | 0 <= j < k <= |lines| {
      NondecreasingInOrder(lines, j, k);
    }
    NeverLosesIffEdgesInOrder(q, lines);
    assert StopLosesNothing(Windowed(q, q.from, q.to), lines);
  }

  /** A time that goes back from 10 to 1 before an edge at 1: a window around the edge loses its row. */
  lemma EarlyStopCanLose()
    ensures var q := Query(map[], "c", true, 1.0, 1.0, 1.0);
      var lines := [Change("c", "0"), Time(10), Time(1), Change("c", "1")];
      && !EdgesInOrder(q, lines)
      && |RowsBefore(q, lines, Stop(q, lines, 0) + 1)| < |AllRows(q, lines)|
  {
    var q := Query(map[], "c", true, 1.0, 1.0, 1.0);
    var lines := [Change("c", "0"), Time(10), Time(1), Change("c", "1")];
    assert lines[..1] == [Change("c", "0")] && lines[..1][..0] == [];
    assert lines[..2][..1] == lines[..1] && lines[..2][1] == Time(10);
    assert Settled(lines[..1], "c") == "0" && Settled(lines[..2], "c") == "0";
    assert Settled(lines[..4], "c") == "1";
    assert PreviousClock(lines, "c", 4) == PreviousClock(lines, "c", 3) == "0";
    assert TimeAt(lines, 4) == TimeAt(lines, 3) == 1;
    assert EdgeAt(q, lines, 4) && !InOrder(lines, 1, 4);
    StopLosesEdge(q, lines, 1, 4, 1.0);
    assert Windowed(q, 1.0, 1.0) == q;
  }

  /** A time that goes back with no edge after it loses nothing: the condition is on edges only. */
  lemma GoingBackCanBeHarmless(q: Query)
    requires q.scale > 0.0
    ensures !Nondecreasing([Time(10), Time(1)]) && StopLosesNothing(q, [Time(10), Time(1)])
  {
    var lines := [Time(10), Time(1)];
    assert lines[0].t == 10 && lines[1].t == 1;
    forall k: nat | k <= |lines|
      ensures Settled(lines[..k], q.clock) == "x"
    {
      NoChanges(lines[..k], q.clock);
    }
    NeverLosesIffEdgesInOrder(q, lines);
    assert StopLosesNothing(Windowed(q, q.from, q.to), lines);
  }

  lemma {:induction false} NoChanges(lines: seq<Line>, id: Id)
    requires forall x :: x in lines ==> !x.Change?
    ensures Settled(lines, id) == "x"
  {
    if lines != [] {
      assert lines[|lines| - 1] in lines;
      NoChanges(lines[..|lines| - 1], id);
    }
  }
}
