/**
 * The tile rectangle of one zoom level (tools/maps/sat-download/main.go): archive keys, which
 * tiles are already stored, and the list that is left to fetch.
 */
module TileGrid {
  import opened Bytes

  /** XYZ coordinates; the archive stores rows counted from the south. */
  datatype Tile = Tile(x: int, y: int)

  datatype Row = Row(column: int, tmsY: int)

  const TWO32 := 0x1_0000_0000

  /**
   * The inclusive rectangle at a level of `size` = 1 << z tiles a side. Only its low corner is
   * clamped to the map (see Clamped): a box may end beyond the east or south edge, and one that
   * ends short of the west or north edge is empty.
   */
  datatype Rect = Rect(size: nat, xMin: int, xMax: int, yMin: int, yMax: int)

  function Width(r: Rect): int { r.xMax - r.xMin + 1 }

  function Height(r: Rect): int { r.yMax - r.yMin + 1 }

  /** No side is so long that 32 bits of a coordinate no longer tell its tiles apart (see KeysTellTiles). */
  predicate RectOk(r: Rect) { Width(r) <= TWO32 && Height(r) <= TWO32 }

  /** uint64(uint32(x))<<32 | uint64(uint32(tmsY)) */
  function EncodeKey(x: int, tmsY: int): int { (x % TWO32) * TWO32 + tmsY % TWO32 }

  lemma KeysDiffer(x: int, y: int, u: int, v: int)
    requires -TWO32 < x - u < TWO32 && -TWO32 < y - v < TWO32 && EncodeKey(x, y) == EncodeKey(u, v)
    ensures x == u && y == v
  {
    assert x % TWO32 == u % TWO32 && y % TWO32 == v % TWO32;
    SameResidue(x, u);
    SameResidue(y, v);
  }

  lemma SameResidue(x: int, u: int)
    requires x % TWO32 == u % TWO32 && -TWO32 < x - u < TWO32
    ensures x == u
  {
    assert x - u == TWO32 * (x / TWO32 - u / TWO32);
  }

  function TmsY(r: Rect, y: int): int { r.size - 1 - y }

  /** The archive row a tile is stored under; flipping twice gives the tile back. */
  function RowOf(r: Rect, t: Tile): Row { Row(t.x, TmsY(r, t.y)) }

  /** Rows are counted from the south: the northernmost tile has the highest row. */
  lemma RowsFromSouth(r: Rect, row: Row)
    requires Selected(r, row)
    ensures var t := Tile(row.column, r.size - 1 - row.tmsY);
            InRect(r, t) && RowOf(r, t) == row && forall u :: RowOf(r, u) == row ==> u == t
  {
  }

  predicate InRect(r: Rect, t: Tile) { r.xMin <= t.x <= r.xMax && r.yMin <= t.y <= r.yMax }

  /** The rows loadExistingTiles selects. */
  predicate Selected(r: Rect, row: Row) {
    r.xMin <= row.column <= r.xMax && TmsY(r, r.yMax) <= row.tmsY <= TmsY(r, r.yMin)
  }

  function ExistingKeys(r: Rect, db: set<Row>): set<int> {
    set row | row in db && Selected(r, row) :: EncodeKey(row.column, row.tmsY)
  }

  predicate Stored(r: Rect, db: set<Row>, t: Tile) { RowOf(r, t) in db }

  function KeyOf(r: Rect, t: Tile): int { EncodeKey(t.x, TmsY(r, t.y)) }

  lemma KeyTellsTile(r: Rect, t: Tile, u: Tile)
    requires RectOk(r) && InRect(r, t) && InRect(r, u) && KeyOf(r, t) == KeyOf(r, u)
    ensures t == u
  {
    KeysDiffer(t.x, TmsY(r, t.y), u.x, TmsY(r, u.y));
  }

  /** No two tiles of a rectangle share a key exactly if it keeps to the bound; its low corner is one that would. */
  lemma KeysTellTiles(r: Rect)
    requires Width(r) > 0 && Height(r) > 0
    ensures RectOk(r) <==> forall t, u :: InRect(r, t) && InRect(r, u) && KeyOf(r, t) == KeyOf(r, u) ==> t == u
  {
    if RectOk(r) {
      forall t, u | InRect(r, t) && InRect(r, u) && KeyOf(r, t) == KeyOf(r, u)
        ensures t == u
      {
        KeyTellsTile(r, t, u);
      }
    } else {
      var t := Tile(r.xMin, r.yMin);
      var u := if Width(r) > TWO32 then Tile(r.xMin + TWO32, r.yMin) else Tile(r.xMin, r.yMin + TWO32);
      WrapKeeps(r.xMin);
      WrapKeeps(TmsY(r, u.y));
      assert InRect(r, t) && InRect(r, u) && KeyOf(r, t) == KeyOf(r, u);
    }
  }

  lemma WrapKeeps(x: int)
    ensures (x + TWO32) % TWO32 == x % TWO32
  {
  }

  /** The producer's test on the key set means: the tile is in the archive. */
  lemma KeyMeansStored(r: Rect, db: set<Row>, t: Tile)
    requires RectOk(r) && InRect(r, t)
    ensures EncodeKey(t.x, TmsY(r, t.y)) in ExistingKeys(r, db) <==> Stored(r, db, t)
  {
    if EncodeKey(t.x, TmsY(r, t.y)) in ExistingKeys(r, db) {
      var row :| row in db && Selected(r, row) && EncodeKey(row.column, row.tmsY) == EncodeKey(t.x, TmsY(r, t.y));
      KeysDiffer(row.column, row.tmsY, t.x, TmsY(r, t.y));
    }
    if Stored(r, db, t) {
      assert Selected(r, RowOf(r, t));
    }
  }

  /** Tiles of one row from column x on that are not stored, west to east. */
  function MissingInRow(r: Rect, keys: set<int>, y: int, x: int): seq<Tile>
    decreases r.xMax + 1 - x
  {
    if x > r.xMax then []
    else (if EncodeKey(x, TmsY(r, y)) in keys then [] else [Tile(x, y)]) + MissingInRow(r, keys, y, x + 1)
  }

  /** All rows from y on, north to south. */
  function MissingFrom(r: Rect, keys: set<int>, y: int): seq<Tile>
    decreases r.yMax + 1 - y
  {
    if y > r.yMax then [] else MissingInRow(r, keys, y, r.xMin) + MissingFrom(r, keys, y + 1)
  }

  /** What the producer enqueues, in its order. */
  function Missing(r: Rect, db: set<Row>): seq<Tile> { MissingFrom(r, ExistingKeys(r, db), r.yMin) }

  /** The producer's two loops, without the channel. */
  method ListMissing(r: Rect, keys: set<int>) returns (jobs: seq<Tile>)
    ensures jobs == MissingFrom(r, keys, r.yMin)
  {
    jobs := [];
    var y := r.yMin;
    while y <= r.yMax
      invariant jobs + MissingFrom(r, keys, y) == MissingFrom(r, keys, r.yMin)
    {
      var row := ListRow(r, keys, y);
      Regroup(jobs, row, MissingFrom(r, keys, y + 1));
      jobs := jobs + row;
      y := y + 1;
    }
    assert jobs + [] == jobs;
  }

  /** The inner loop. */
  method ListRow(r: Rect, keys: set<int>, y: int) returns (jobs: seq<Tile>)
    ensures jobs == MissingInRow(r, keys, y, r.xMin)
  {
    jobs := [];
    var tmsY := TmsY(r, y);
    var x := r.xMin;
    while x <= r.xMax
      invariant jobs + MissingInRow(r, keys, y, x) == MissingInRow(r, keys, y, r.xMin)
    {
      Peel(jobs, r, keys, y, x);
      if EncodeKey(x, tmsY) !in keys {
        jobs := jobs + [Tile(x, y)];
      }
      x := x + 1;
    }
    assert jobs + [] == jobs;
  }

  lemma Peel(jobs: seq<Tile>, r: Rect, keys: set<int>, y: int, x: int)
    requires x <= r.xMax
    ensures var head := if EncodeKey(x, TmsY(r, y)) in keys then [] else [Tile(x, y)];
            jobs + MissingInRow(r, keys, y, x) == jobs + head + MissingInRow(r, keys, y, x + 1)
    ensures EncodeKey(x, TmsY(r, y)) in keys ==> MissingInRow(r, keys, y, x) == MissingInRow(r, keys, y, x + 1)
  {
  }

  // ----- what the list contains --------------------------------------------------------------

  predicate NoDuplicates<T(==)>(s: seq<T>) { forall i, j :: 0 <= i < j < |s| ==> s[i] != s[j] }

  lemma {:induction false} RowMembers(r: Rect, keys: set<int>, y: int, x: int, t: Tile)
    ensures t in MissingInRow(r, keys, y, x) <==>
            t.y == y && x <= t.x <= r.xMax && EncodeKey(t.x, TmsY(r, y)) !in keys
    decreases r.xMax + 1 - x
  {
    if x <= r.xMax {
      RowMembers(r, keys, y, x + 1, t);
    }
  }

  lemma {:induction false} FromMembers(r: Rect, keys: set<int>, y: int, t: Tile)
    ensures t in MissingFrom(r, keys, y) <==>
            y <= t.y <= r.yMax && r.xMin <= t.x <= r.xMax && EncodeKey(t.x, TmsY(r, t.y)) !in keys
    decreases r.yMax + 1 - y
  {
    if y <= r.yMax {
      RowMembers(r, keys, y, r.xMin, t);
      FromMembers(r, keys, y + 1, t);
    }
  }

  /** Exactly the tiles of the rectangle that the archive does not hold. */
  lemma MissingIsUnstored(r: Rect, db: set<Row>, t: Tile)
    requires RectOk(r)
    ensures t in Missing(r, db) <==> InRect(r, t) && !Stored(r, db, t)
  {
    FromMembers(r, ExistingKeys(r, db), r.yMin, t);
    if InRect(r, t) {
      KeyMeansStored(r, db, t);
    }
  }

  lemma {:induction false} RowDistinct(r: Rect, keys: set<int>, y: int, x: int)
    ensures NoDuplicates(MissingInRow(r, keys, y, x))
    decreases r.xMax + 1 - x
  {
    if x <= r.xMax {
      RowDistinct(r, keys, y, x + 1);
      RowMembers(r, keys, y, x + 1, Tile(x, y));
      AppendDistinct([Tile(x, y)], MissingInRow(r, keys, y, x + 1));
      assert [] + MissingInRow(r, keys, y, x + 1) == MissingInRow(r, keys, y, x + 1);
    }
  }

  lemma AppendDistinct<T>(a: seq<T>, b: seq<T>)
    requires NoDuplicates(a) && NoDuplicates(b) && forall t :: t in a ==> t !in b
    ensures NoDuplicates(a + b)
  {
    var s := a + b;
    forall i, j | 0 <= i < j < |s|
      ensures s[i] != s[j]
    {
      if i < |a| && |a| <= j {
        assert s[i] in a && s[j] in b;
      }
    }
  }

  lemma {:induction false} FromDistinct(r: Rect, keys: set<int>, y: int)
    ensures NoDuplicates(MissingFrom(r, keys, y))
    decreases r.yMax + 1 - y
  {
    if y <= r.yMax {
      RowDistinct(r, keys, y, r.xMin);
      FromDistinct(r, keys, y + 1);
      forall t | t in MissingInRow(r, keys, y, r.xMin)
        ensures t !in MissingFrom(r, keys, y + 1)
      {
        RowMembers(r, keys, y, r.xMin, t);
        FromMembers(r, keys, y + 1, t);
      }
      AppendDistinct(MissingInRow(r, keys, y, r.xMin), MissingFrom(r, keys, y + 1));
    }
  }

  /** No tile is enqueued twice. */
  lemma MissingDistinct(r: Rect, db: set<Row>)
    requires RectOk(r)
    ensures NoDuplicates(Missing(r, db))
  {
    FromDistinct(r, ExistingKeys(r, db), r.yMin);
  }

  // ----- how many there are --------------------------------------------------------------------

  /** The tiles the producer skips, with their keys. */
  function TakenInRow(r: Rect, keys: set<int>, y: int, x: int): seq<Tile>
    decreases r.xMax + 1 - x
  {
    if x > r.xMax then []
    else (if EncodeKey(x, TmsY(r, y)) in keys then [Tile(x, y)] else []) + TakenInRow(r, keys, y, x + 1)
  }

  function TakenFrom(r: Rect, keys: set<int>, y: int): seq<Tile>
    decreases r.yMax + 1 - y
  {
    if y > r.yMax then [] else TakenInRow(r, keys, y, r.xMin) + TakenFrom(r, keys, y + 1)
  }

  function Count(n: int): nat { if n < 0 then 0 else n }

  /** How many tiles the producer's loops visit. */
  function Tiles(r: Rect): nat { Count(Height(r)) * Count(Width(r)) }

  /** nTotal: int64(xMax-xMin+1) * int64(yMax-yMin+1) */
  function Total(r: Rect): int { Width(r) * Height(r) }

  /** When the announced total is the number of tiles. */
  lemma TotalExactly(r: Rect)
    ensures Total(r) == Tiles(r) <==> (Width(r) >= 0 && Height(r) >= 0) || Width(r) == 0 || Height(r) == 0
  {
    var w, h := Width(r), Height(r);
    if w < 0 && h != 0 {
      Opposite(w, h);
    } else if h < 0 && w != 0 {
      Opposite(h, w);
    }
  }

  /** The rectangle of a box with these corners, in tiles of the level. */
  function Clamped(size: nat, x0: int, x1: int, y0: int, y1: int): Rect {
    Rect(size, if x0 < 0 then 0 else x0, x1, if y0 < 0 then 0 else y0, y1)
  }

  /**
   * Exactly which boxes get a wrong total announced: those that end more than one tile short of
   * the west or the north edge, unless the other side is empty.
   */
  lemma TotalOfBox(size: nat, x0: int, x1: int, y0: int, y1: int)
    requires x0 <= x1 && y0 <= y1
    ensures var r := Clamped(size, x0, x1, y0, y1);
            Total(r) != Tiles(r) <==> (x1 < -1 && y1 != -1) || (y1 < -1 && x1 != -1)
  {
    TotalExactly(Clamped(size, x0, x1, y0, y1));
  }

  /** Such a box: from 300 to 200 degrees west, three rows high, at level 5. */
  lemma NegativeTotal()
    ensures var r := Clamped(32, -11, -2, 10, 12); Total(r) == -3 && Tiles(r) == 0
  {
    assert Width(Clamped(32, -11, -2, 10, 12)) == -1;
  }

  lemma Opposite(a: int, b: int)
    requires a < 0 && b != 0
    ensures if b > 0 then a * b < 0 else a * b > 0
  {
  }

  lemma {:induction false} RowSplits(r: Rect, keys: set<int>, y: int, x: int)
    ensures |MissingInRow(r, keys, y, x)| + |TakenInRow(r, keys, y, x)| == Count(r.xMax + 1 - x)
    decreases r.xMax + 1 - x
  {
    if x <= r.xMax {
      RowSplits(r, keys, y, x + 1);
    }
  }

  lemma {:induction false} RectSplits(r: Rect, keys: set<int>, y: int)
    ensures |MissingFrom(r, keys, y)| + |TakenFrom(r, keys, y)| == Count(r.yMax + 1 - y) * Count(Width(r))
    decreases r.yMax + 1 - y
  {
    if y <= r.yMax {
      RowSplits(r, keys, y, r.xMin);
      RectSplits(r, keys, y + 1);
      OneMoreRow(r.yMax - y, Count(Width(r)));
    }
  }

  lemma OneMoreRow(n: int, w: int)
    ensures (n + 1) * w == n * w + w
  {
  }

  lemma {:induction false} TakenRowMembers(r: Rect, keys: set<int>, y: int, x: int, t: Tile)
    ensures t in TakenInRow(r, keys, y, x) <==>
            t.y == y && x <= t.x <= r.xMax && EncodeKey(t.x, TmsY(r, y)) in keys
    decreases r.xMax + 1 - x
  {
    if x <= r.xMax {
      TakenRowMembers(r, keys, y, x + 1, t);
    }
  }

  lemma {:induction false} TakenMembers(r: Rect, keys: set<int>, y: int, t: Tile)
    ensures t in TakenFrom(r, keys, y) <==>
            y <= t.y <= r.yMax && r.xMin <= t.x <= r.xMax && EncodeKey(t.x, TmsY(r, t.y)) in keys
    decreases r.yMax + 1 - y
  {
    if y <= r.yMax {
      TakenRowMembers(r, keys, y, r.xMin, t);
      TakenMembers(r, keys, y + 1, t);
    }
  }

  lemma {:induction false} TakenRowDistinct(r: Rect, keys: set<int>, y: int, x: int)
    ensures NoDuplicates(TakenInRow(r, keys, y, x))
    decreases r.xMax + 1 - x
  {
    if x <= r.xMax {
      TakenRowDistinct(r, keys, y, x + 1);
      TakenRowMembers(r, keys, y, x + 1, Tile(x, y));
      AppendDistinct([Tile(x, y)], TakenInRow(r, keys, y, x + 1));
      assert [] + TakenInRow(r, keys, y, x + 1) == TakenInRow(r, keys, y, x + 1);
    }
  }

  lemma {:induction false} TakenDistinct(r: Rect, keys: set<int>, y: int)
    ensures NoDuplicates(TakenFrom(r, keys, y))
    decreases r.yMax + 1 - y
  {
    if y <= r.yMax {
      TakenRowDistinct(r, keys, y, r.xMin);
      TakenDistinct(r, keys, y + 1);
      forall t | t in TakenInRow(r, keys, y, r.xMin)
        ensures t !in TakenFrom(r, keys, y + 1)
      {
        TakenRowMembers(r, keys, y, r.xMin, t);
        TakenMembers(r, keys, y + 1, t);
      }
      AppendDistinct(TakenInRow(r, keys, y, r.xMin), TakenFrom(r, keys, y + 1));
    }
  }

  lemma {:induction false} DistinctCount<T>(s: seq<T>)
    requires NoDuplicates(s)
    ensures |set x | x in s| == |s|
  {
    if s == [] {
      assert (set x | x in s) == {};
    } else {
      var n := |s| - 1;
      DistinctCount(s[..n]);
      assert (set x | x in s) == (set x | x in s[..n]) + {s[n]} by {
        assert s == s[..n] + [s[n]];
      }
    }
  }

  /** The keys of a list of distinct tiles of the rectangle are as many as the tiles. */
  lemma KeysCounted(r: Rect, ts: seq<Tile>)
    requires RectOk(r) && NoDuplicates(ts) && forall t :: t in ts ==> InRect(r, t)
    ensures |set t | t in ts :: KeyOf(r, t)| == |ts|
  {
    var ks := seq(|ts|, i requires 0 <= i < |ts| => KeyOf(r, ts[i]));
    forall i, j | 0 <= i < j < |ks|
      ensures ks[i] != ks[j]
    {
      assert ts[i] in ts && ts[j] in ts;
      if ks[i] == ks[j] {
        KeyTellsTile(r, ts[i], ts[j]);
      }
    }
    DistinctCount(ks);
    assert (set t | t in ts :: KeyOf(r, t)) == set k | k in ks by {
      forall i | 0 <= i < |ts|
        ensures KeyOf(r, ts[i]) in ks
      {
        assert ks[i] == KeyOf(r, ts[i]);
      }
    }
  }

  /** The count of keys found is the count of tiles skipped: total, existing and missing add up. */
  lemma MissingCounted(r: Rect, db: set<Row>)
    requires RectOk(r)
    ensures |Missing(r, db)| + |ExistingKeys(r, db)| == Tiles(r)
  {
    var keys := ExistingKeys(r, db);
    var taken := TakenFrom(r, keys, r.yMin);
    RectSplits(r, keys, r.yMin);
    TakenDistinct(r, keys, r.yMin);
    forall t | t in taken
      ensures InRect(r, t)
    {
      TakenMembers(r, keys, r.yMin, t);
    }
    KeysCounted(r, taken);
    assert keys == set t | t in taken :: KeyOf(r, t) by {
      TakenKeys(r, db);
    }
  }

  lemma TakenKeys(r: Rect, db: set<Row>)
    requires RectOk(r)
    ensures var keys := ExistingKeys(r, db); keys == set t | t in TakenFrom(r, keys, r.yMin) :: KeyOf(r, t)
  {
    var keys := ExistingKeys(r, db);
    var taken := TakenFrom(r, keys, r.yMin);
    forall k | k in keys
      ensures exists t :: t in taken && KeyOf(r, t) == k
    {
      var row :| row in db && Selected(r, row) && EncodeKey(row.column, row.tmsY) == k;
      var t := Tile(row.column, r.size - 1 - row.tmsY);
      TakenMembers(r, keys, r.yMin, t);
      assert KeyOf(r, t) == k;
    }
    forall t | t in taken
      ensures KeyOf(r, t) in keys
    {
      TakenMembers(r, keys, r.yMin, t);
    }
  }
}
