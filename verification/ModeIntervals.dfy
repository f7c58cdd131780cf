/**
 * Flight-mode intervals of a recorded flight (tools/zerotx-replay/summarise.go): one pass over
 * the telemetry rows, and why the intervals it yields tile the flight.
 */
module ModeIntervals {

  /** A row's time in microseconds, and its mode; "" stands for a missing or empty one. */
  datatype Row = Row(at: int, mode: string)

  datatype Interval = Interval(mode: string, start: int, duration: int)

  /** The rows come ordered by time. */
  predicate Ordered(rows: seq<Row>) {
    forall i, j :: 0 <= i <= j < |rows| ==> rows[i].at <= rows[j].at
  }

  /** The last non-empty mode seen; "" before the first. */
  function Mode(rows: seq<Row>): string {
    if rows == [] then ""
    else if rows[|rows| - 1].mode != "" then rows[|rows| - 1].mode
    else Mode(rows[..|rows| - 1])
  }

  /** Whether the last row brings a new mode. */
  predicate Changes(rows: seq<Row>)
    requires rows != []
  {
    rows[|rows| - 1].mode != "" && rows[|rows| - 1].mode != Mode(rows[..|rows| - 1])
  }

  /** When the current mode began; 0 before the first. */
  function Since(rows: seq<Row>): int {
    if rows == [] then 0 else if Changes(rows) then rows[|rows| - 1].at else Since(rows[..|rows| - 1])
  }

  /** The intervals that have ended. */
  function Ended(rows: seq<Row>): seq<Interval> {
    if rows == [] then []
    else
      var before := rows[..|rows| - 1];
      if Changes(rows) && Mode(before) != ""
      then Ended(before) + [Interval(Mode(before), Since(before), rows[|rows| - 1].at - Since(before))]
      else Ended(before)
  }

  function LastAt(rows: seq<Row>): int { if rows == [] then 0 else rows[|rows| - 1].at }

  /** All intervals, with the current one closed at the last row. */
  function Intervals(rows: seq<Row>): seq<Interval> {
    if Mode(rows) == "" then Ended(rows)
    else Ended(rows) + [Interval(Mode(rows), Since(rows), LastAt(rows) - Since(rows))]
  }

  /** readTelemetry's mode tracking. */
  method ReadModes(rows: seq<Row>) returns (modes: seq<Interval>)
    ensures modes == Intervals(rows)
  {
    var curMode, curModeStart, lastOffset := "", 0, 0;
    modes := [];
    for i := 0 to |rows|
      invariant curMode == Mode(rows[..i]) && curModeStart == Since(rows[..i])
      invariant modes == Ended(rows[..i]) && lastOffset == LastAt(rows[..i])
    {
      assert rows[..i + 1][..i] == rows[..i];
      var offset := rows[i].at;
      if rows[i].mode != "" {
        if rows[i].mode != curMode {
          if curMode != "" {
            modes := modes + [Interval(curMode, curModeStart, offset - curModeStart)];
          }
          curMode := rows[i].mode;
          curModeStart := offset;
        }
      }
      lastOffset := offset;
    }
    assert rows[..|rows|] == rows;
    if curMode != "" {
      modes := modes + [Interval(curMode, curModeStart, lastOffset - curModeStart)];
    }
  }

  // ----- tiling -----------------------------------------------------------------------

  function End(v: Interval): int { v.start + v.duration }

  /** The time of the first row with a mode. */
  function FirstAt(rows: seq<Row>): int
    requires Mode(rows) != ""
  {
    var before := rows[..|rows| - 1];
    if Mode(before) != "" then FirstAt(before) else rows[|rows| - 1].at
  }

  /** Each interval begins where the previous one ends, in another mode; none runs backwards. */
  predicate Chain(vs: seq<Interval>) {
    && (forall i :: 0 <= i < |vs| ==> vs[i].duration >= 0 && vs[i].mode != "")
    && (forall i, j :: 0 <= i && j == i + 1 < |vs| ==> End(vs[i]) == vs[j].start && vs[i].mode != vs[j].mode)
  }

  /** Tiles [from, to]. */
  predicate Tiles(vs: seq<Interval>, from: int, to: int) {
    Chain(vs) && vs != [] && vs[0].start == from && End(vs[|vs| - 1]) == to
  }

  function Total(vs: seq<Interval>): int {
    if vs == [] then 0 else Total(vs[..|vs| - 1]) + vs[|vs| - 1].duration
  }

  lemma {:induction false} ChainTotal(vs: seq<Interval>)
    requires Chain(vs) && vs != []
    ensures Total(vs) == End(vs[|vs| - 1]) - vs[0].start
  {
    var n := |vs| - 1;
    if n > 0 {
      ChainTotal(vs[..n]);
    } else {
      assert vs[..0] == [];
    }
  }

  /** One more interval after a tiled stretch, or the first one. */
  lemma OneMoreTile(vs: seq<Interval>, from: int, v: Interval)
    requires v.duration >= 0 && v.mode != ""
    requires if vs == [] then v.start == from else Tiles(vs, from, v.start) && vs[|vs| - 1].mode != v.mode
    ensures Tiles(vs + [v], from, End(v))
  {
  }

  /** What is known of the ended intervals and the current one. */
  predicate TiledSoFar(rows: seq<Row>) {
    && (Mode(rows) == "" ==> Ended(rows) == [])
    && (Mode(rows) != "" ==>
          && Since(rows) <= LastAt(rows)
          && (Ended(rows) == [] ==> Since(rows) == FirstAt(rows))
          && (Ended(rows) != [] ==>
                Tiles(Ended(rows), FirstAt(rows), Since(rows)) && Ended(rows)[|Ended(rows)| - 1].mode != Mode(rows)))
  }

  lemma {:induction false} EndedTile(rows: seq<Row>)
    requires Ordered(rows)
    ensures TiledSoFar(rows)
  {
    if rows == [] {
      return;
    }
    var n := |rows| - 1;
    EndedTile(rows[..n]);
    assert n > 0 ==> rows[n - 1].at <= rows[n].at;
    if Changes(rows) {
      NextMode(rows);
    } else {
      SameMode(rows);
    }
  }

  lemma NextMode(rows: seq<Row>)
    requires rows != [] && Changes(rows) && TiledSoFar(rows[..|rows| - 1])
    requires |rows| > 1 ==> rows[|rows| - 2].at <= rows[|rows| - 1].at
    ensures TiledSoFar(rows)
  {
    var n := |rows| - 1;
    var before := rows[..n];
    if Mode(before) != "" {
      OneMoreTile(Ended(before), FirstAt(before), Interval(Mode(before), Since(before), rows[n].at - Since(before)));
    }
  }

  lemma SameMode(rows: seq<Row>)
    requires rows != [] && !Changes(rows) && TiledSoFar(rows[..|rows| - 1])
    requires |rows| > 1 ==> rows[|rows| - 2].at <= rows[|rows| - 1].at
    ensures TiledSoFar(rows)
  {
    hide Tiles;
  }

  /**
   * The intervals tile the flight: they start at the first mode, end at the last sample, leave
   * no gap, never repeat a mode back to back, and their durations add up.
   */
  lemma IntervalsTile(rows: seq<Row>)
    requires Ordered(rows)
    ensures Intervals(rows) == [] <==> Mode(rows) == ""
    ensures Mode(rows) != "" ==> Tiles(Intervals(rows), FirstAt(rows), LastAt(rows))
    ensures Mode(rows) != "" ==> Total(Intervals(rows)) == LastAt(rows) - FirstAt(rows)
  {
    EndedTile(rows);
    if Mode(rows) != "" {
      OneMoreTile(Ended(rows), FirstAt(rows), Interval(Mode(rows), Since(rows), LastAt(rows) - Since(rows)));
      ChainTotal(Intervals(rows));
    }
  }

  // ----- every sample lies in the interval of its mode --------------------------------------

  lemma {:induction false} EndedGrows(rows: seq<Row>, k: nat)
    requires k <= |rows|
    ensures |Ended(rows[..k])| <= |Ended(rows)| && Ended(rows)[..|Ended(rows[..k])|] == Ended(rows[..k])
  {
    if k < |rows| {
      EndedGrows(rows[..|rows| - 1], k);
      assert rows[..|rows| - 1][..k] == rows[..k];
    } else {
      assert rows[..k] == rows;
    }
  }

  /** The interval that was current after k rows: if it has ended since, it did so at or after row k - 1. */
  lemma {:induction false} CurrentBecomes(rows: seq<Row>, k: nat)
    requires Ordered(rows) && 0 < k <= |rows| && Mode(rows[..k]) != ""
    ensures var j := |Ended(rows[..k])|;
            && Mode(rows) != "" && j < |Intervals(rows)|
            && Intervals(rows)[j].mode == Mode(rows[..k]) && Intervals(rows)[j].start == Since(rows[..k])
            && End(Intervals(rows)[j]) >= rows[k - 1].at
  {
    if k == |rows| {
      assert rows[..k] == rows;
    } else {
      var n := |rows| - 1;
      var before, j := rows[..n], |Ended(rows[..k])|;
      assert before[..k] == rows[..k];
      CurrentBecomes(before, k);
      EndedGrows(before, k);
      if j < |Ended(before)| {
        assert Ended(rows)[j] == Ended(before)[j];
      }
      assert rows[k - 1].at <= rows[n].at;
    }
  }

  /**
   * Every sample from the first mode on lies in an interval, and that interval's mode is the last
   * non-empty one seen.
   */
  lemma SampleCovered(rows: seq<Row>, k: nat)
    requires Ordered(rows) && k < |rows| && Mode(rows[..k + 1]) != ""
    ensures var j := |Ended(rows[..k + 1])|;
            && j < |Intervals(rows)|
            && Intervals(rows)[j].mode == Mode(rows[..k + 1])
            && Intervals(rows)[j].start <= rows[k].at <= End(Intervals(rows)[j])
  {
    CurrentBecomes(rows, k + 1);
    EndedTile(rows[..k + 1]);
  }
}
