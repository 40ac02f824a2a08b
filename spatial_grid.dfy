/** The uniform grid spatial index shared by every selection variant: points are
    bucketed by the cell `(floor(cx / 50), floor(cy / 50))` of their screen position,
    and a box query walks the inclusive cell range of the box. The cell key, a string
    `"x,y"` in the source, is the pair of integers it spells. */
module SpatialGrid {
  import opened Common
  import opened Geometry

  /** `gridSize` / `cellSize`: every caller uses 50 pixels. */
  const CellSize: real := 50.0

  type Key = (int, int)

  /** `Math.floor(c / gridSize)`. */
  function Cell(c: real): int {
    (c / CellSize).Floor
  }

  lemma CellMonotone(a: real, b: real)
    requires a <= b
    ensures Cell(a) <= Cell(b)
  {
    assert a / CellSize <= b / CellSize;
  }

  /** The bucket of a point, from `point.cx || 0` and `point.cy || 0`. */
  function KeyOf(p: DataPoint): Key {
    (Cell(Screen(p).x), Cell(Screen(p).y))
  }

  /** `startX..endX` by `startY..endY`, both inclusive. */
  datatype CellRange = CellRange(startX: int, endX: int, startY: int, endY: int)

  predicate InRange(k: Key, r: CellRange) {
    r.startX <= k.0 <= r.endX && r.startY <= k.1 <= r.endY
  }

  /** The cell range a query box covers. */
  function RangeOf(b: Box): CellRange {
    CellRange(Cell(b.minX), Cell(b.maxX), Cell(b.minY), Cell(b.maxY))
  }

  /** Every point inside a box falls in a cell of the box's range. */
  lemma BoxInRange(v: Vec, b: Box)
    requires InBox(v, b)
    ensures InRange((Cell(v.x), Cell(v.y)), RangeOf(b))
  {
    CellMonotone(b.minX, v.x);
    CellMonotone(v.x, b.maxX);
    CellMonotone(b.minY, v.y);
    CellMonotone(v.y, b.maxY);
  }

  // ---------------------------------------------------------------------------
  // The keys of a cell range, in loop order (x outer, y inner)

  predicate Distinct<T(==)>(s: seq<T>) {
    forall i, j :: 0 <= i < j < |s| ==> s[i] != s[j]
  }

  function RowKeys(x: int, startY: int, endY: int): seq<Key>
    decreases endY - startY
  {
    if startY > endY then [] else RowKeys(x, startY, endY - 1) + [(x, endY)]
  }

  function RangeKeys(r: CellRange): seq<Key>
    decreases r.endX - r.startX
  {
    if r.startX > r.endX then []
    else RangeKeys(r.(endX := r.endX - 1)) + RowKeys(r.endX, r.startY, r.endY)
  }

  lemma {:induction false} RowKeysFacts(x: int, startY: int, endY: int)
    ensures forall k :: k in RowKeys(x, startY, endY) <==> k.0 == x && startY <= k.1 <= endY
    ensures Distinct(RowKeys(x, startY, endY))
    decreases endY - startY
  {
    if startY <= endY {
      RowKeysFacts(x, startY, endY - 1);
    }
  }

  lemma {:induction false} RowKeysCount(x: int, startY: int, endY: int)
    ensures |RowKeys(x, startY, endY)| == if startY > endY then 0 else endY - startY + 1
    decreases endY - startY
  {
    if startY <= endY {
      RowKeysCount(x, startY, endY - 1);
    }
  }

  lemma {:induction false} RangeKeysMembers(r: CellRange)
    ensures forall k :: k in RangeKeys(r) <==> InRange(k, r)
    decreases r.endX - r.startX
  {
    if r.startX <= r.endX {
      RangeKeysMembers(r.(endX := r.endX - 1));
      RowKeysFacts(r.endX, r.startY, r.endY);
    }
  }

  lemma DistinctConcat<T>(a: seq<T>, b: seq<T>)
    requires Distinct(a) && Distinct(b)
    requires forall x :: x in a ==> x !in b
    ensures Distinct(a + b)
  {
    forall i, j | 0 <= i < j < |a + b| ensures (a + b)[i] != (a + b)[j] {
      if j >= |a| && i < |a| {
        assert (a + b)[i] == a[i] && a[i] in a;
        assert (a + b)[j] == b[j - |a|] && b[j - |a|] in b;
      }
    }
  }

  lemma {:induction false} RangeKeysDistinct(r: CellRange)
    ensures Distinct(RangeKeys(r))
    decreases r.endX - r.startX
  {
    if r.startX <= r.endX {
      var prev := r.(endX := r.endX - 1);
      RangeKeysDistinct(prev);
      RangeKeysMembers(prev);
      RowKeysFacts(r.endX, r.startY, r.endY);
      DistinctConcat(RangeKeys(prev), RowKeys(r.endX, r.startY, r.endY));
    }
  }

  lemma {:induction false} RangeKeysCount(r: CellRange)
    ensures |RangeKeys(r)| ==
      if r.startX > r.endX || r.startY > r.endY then 0
      else (r.endX - r.startX + 1) * (r.endY - r.startY + 1)
    decreases r.endX - r.startX
  {
    if r.startX <= r.endX {
      RangeKeysCount(r.(endX := r.endX - 1));
      RowKeysCount(r.endX, r.startY, r.endY);
      if r.startY <= r.endY {
        var w, h := r.endX - r.startX, r.endY - r.startY + 1;
        assert w * h + h == (w + 1) * h;
      }
    }
  }

  /** `getIntersectingGridCells` lists exactly the keys of the inclusive range,
      each once: `(endX - startX + 1) * (endY - startY + 1)` of them, or none when
      the range is empty. */
  lemma RangeKeysFacts(r: CellRange)
    ensures forall k :: k in RangeKeys(r) <==> InRange(k, r)
    ensures Distinct(RangeKeys(r))
    ensures |RangeKeys(r)| ==
      if r.startX > r.endX || r.startY > r.endY then 0
      else (r.endX - r.startX + 1) * (r.endY - r.startY + 1)
  {
    RangeKeysMembers(r);
    RangeKeysDistinct(r);
    RangeKeysCount(r);
  }

  /** `getIntersectingGridCells`: the nested loops pushing one key per cell. */
  method IntersectingCells(b: Box) returns (cells: seq<Key>)
    ensures cells == RangeKeys(RangeOf(b))
  {
    var r := RangeOf(b);
    cells := [];
    var x := r.startX;
    while x <= r.endX
      invariant r.startX <= x <= r.endX + 1 || x == r.startX
      invariant cells == RangeKeys(r.(endX := x - 1))
    {
      var y := r.startY;
      while y <= r.endY
        invariant r.startY <= y <= r.endY + 1 || y == r.startY
        invariant cells == RangeKeys(r.(endX := x - 1)) + RowKeys(x, r.startY, y - 1)
      {
        cells := cells + [(x, y)];
        y := y + 1;
      }
      x := x + 1;
    }
  }

  // ---------------------------------------------------------------------------
  // The grid and what a walk over its cells collects

  function Get(grid: map<Key, seq<DataPoint>>, k: Key): seq<DataPoint> {
    if k in grid then grid[k] else []
  }

  function InKey(k: Key): DataPoint -> bool {
    p => KeyOf(p) == k
  }

  function InKeys(ks: seq<Key>): DataPoint -> bool {
    p => KeyOf(p) in ks
  }

  function InBlock(r: CellRange): DataPoint -> bool {
    p => InRange(KeyOf(p), r)
  }

  /** `grid` buckets `pts`: each key maps to the points of that cell in input order,
      and only cells holding a point have an entry. */
  ghost predicate IsGridOf(grid: map<Key, seq<DataPoint>>, pts: seq<DataPoint>) {
    (forall k :: Get(grid, k) == Bucket(pts, k)) &&
    (forall k :: k in grid ==> grid[k] != [])
  }

  /** The points of `pts` in cell `k`, in input order. */
  ghost function Bucket(pts: seq<DataPoint>, k: Key): seq<DataPoint> {
    if pts == [] then []
    else Bucket(pts[..|pts| - 1], k) + (if KeyOf(pts[|pts| - 1]) == k then [pts[|pts| - 1]] else [])
  }

  lemma {:induction false} BucketIsFilter(pts: seq<DataPoint>, k: Key)
    ensures Bucket(pts, k) == Filter(pts, InKey(k))
  {
    if pts != [] {
      BucketIsFilter(pts[..|pts| - 1], k);
    }
  }

  /** The concatenated buckets of `keys`, in the order of `keys`. */
  function Gathered(grid: map<Key, seq<DataPoint>>, keys: seq<Key>): seq<DataPoint> {
    if keys == [] then []
    else Gathered(grid, keys[..|keys| - 1]) + Get(grid, keys[|keys| - 1])
  }

  lemma GatheredSnoc(grid: map<Key, seq<DataPoint>>, keys: seq<Key>, k: Key)
    ensures Gathered(grid, keys + [k]) == Gathered(grid, keys) + Get(grid, k)
  {
    assert (keys + [k])[..|keys|] == keys;
  }

  /** One point filed: appended to its cell's bucket, which is created on first use. */
  function AddPoint(grid: map<Key, seq<DataPoint>>, p: DataPoint): map<Key, seq<DataPoint>> {
    grid[KeyOf(p) := Get(grid, KeyOf(p)) + [p]]
  }

  /** The grid after filing `pts` in order. */
  ghost function GridOf(pts: seq<DataPoint>): map<Key, seq<DataPoint>> {
    if pts == [] then map[] else AddPoint(GridOf(pts[..|pts| - 1]), pts[|pts| - 1])
  }

  /** `createSpatialGrid` / `build` / the grid rebuild effect: one pass over the
      points, creating a bucket on first use and appending to it. */
  method CreateSpatialGrid(data: seq<DataPoint>) returns (grid: map<Key, seq<DataPoint>>)
    ensures IsGridOf(grid, data)
  {
    grid := map[];
    var i := 0;
    while i < |data|
      invariant 0 <= i <= |data|
      invariant grid == GridOf(data[..i])
    {
      var point := data[i];
      var key := KeyOf(point);
      // the bucket created on first use, then the point pushed onto it
      var bucket := if key in grid then grid[key] else [];
      grid := grid[key := bucket + [point]];
      assert data[..i + 1][..i] == data[..i];
      i := i + 1;
    }
    assert data[..|data|] == data;
    GridOfIsGrid(data);
  }

  /** Filing the points one by one buckets them. */
  lemma {:induction false} GridOfIsGrid(pts: seq<DataPoint>)
    ensures IsGridOf(GridOf(pts), pts)
  {
    if pts != [] {
      var init, last := pts[..|pts| - 1], pts[|pts| - 1];
      GridOfIsGrid(init);
      GridSnoc(GridOf(init), init, last);
      assert pts == init + [last];
    }
  }

  /** Filing one more point keeps the grid a bucketing of the points seen so far. */
  lemma GridSnoc(grid: map<Key, seq<DataPoint>>, pts: seq<DataPoint>, p: DataPoint)
    requires IsGridOf(grid, pts)
    ensures IsGridOf(AddPoint(grid, p), pts + [p])
  {
    forall k ensures Get(AddPoint(grid, p), k) == Bucket(pts + [p], k) {
      BucketSnoc(grid, pts, p, k);
    }
  }

  /** The bucket of one cell after the append. */
  lemma BucketSnoc(grid: map<Key, seq<DataPoint>>, pts: seq<DataPoint>, p: DataPoint, k: Key)
    requires Get(grid, k) == Bucket(pts, k)
    ensures Get(AddPoint(grid, p), k) == Bucket(pts + [p], k)
  {
    assert (pts + [p])[..|pts|] == pts;
  }

  /** Collecting the buckets of distinct keys collects exactly the points whose cell
      is one of those keys. */
  lemma {:induction false} GatheredGrid(grid: map<Key, seq<DataPoint>>, pts: seq<DataPoint>, keys: seq<Key>)
    requires IsGridOf(grid, pts)
    requires Distinct(keys)
    ensures multiset(Gathered(grid, keys)) == multiset(Filter(pts, InKeys(keys)))
  {
    if keys != [] {
      var init, k := keys[..|keys| - 1], keys[|keys| - 1];
      assert keys == init + [k];
      GatheredGrid(grid, pts, init);
      assert k !in init;
      BucketIsFilter(pts, k);
      FilterUnion(pts, InKeys(keys), InKeys(init), InKey(k));
    }
  }

  /** Walking the whole cell range of a grid collects the points whose cell lies in
      the range, each as often as it was indexed. */
  lemma GatheredRange(grid: map<Key, seq<DataPoint>>, pts: seq<DataPoint>, r: CellRange)
    requires IsGridOf(grid, pts)
    ensures multiset(Gathered(grid, RangeKeys(r))) == multiset(Filter(pts, InBlock(r)))
  {
    RangeKeysFacts(r);
    GatheredGrid(grid, pts, RangeKeys(r));
    FilterExt(pts, InKeys(RangeKeys(r)), InBlock(r));
  }

  /** Grid completeness: every indexed point inside the query box is among the points
      of the box's cell range. */
  lemma BlockComplete(pts: seq<DataPoint>, b: Box, p: DataPoint)
    requires p in pts && InBox(Screen(p), b)
    ensures p in Filter(pts, InBlock(RangeOf(b)))
  {
    BoxInRange(Screen(p), b);
  }

  /** Soundness and no duplication: a point occurs in the cell range's collection at
      most as often as in the indexed points, and never if it was not indexed. */
  lemma BlockBounded(pts: seq<DataPoint>, r: CellRange, p: DataPoint)
    ensures multiset(Filter(pts, InBlock(r)))[p] <= multiset(pts)[p]
    ensures p in Filter(pts, InBlock(r)) ==> p in pts
  {
    FilterCount(pts, InBlock(r), p);
  }

  /** Index-then-filter equals brute force: when the exact test only accepts points
      inside the query box, filtering the grid candidates selects the same points,
      with the same multiplicities, as filtering every indexed point. */
  lemma IndexThenFilter(pts: seq<DataPoint>, b: Box, candidates: seq<DataPoint>, keep: DataPoint -> bool)
    requires multiset(candidates) == multiset(Filter(pts, InBlock(RangeOf(b))))
    requires forall p :: p in pts && keep(p) ==> InBox(Screen(p), b)
    ensures multiset(Filter(candidates, keep)) == multiset(Filter(pts, keep))
  {
    forall p | p in pts && keep(p) ensures InBlock(RangeOf(b))(p) {
      BoxInRange(Screen(p), b);
    }
    FilterSameMultiset(candidates, Filter(pts, InBlock(RangeOf(b))), keep);
    FilterRedundant(pts, keep, InBlock(RangeOf(b)));
  }

  /** One more cell of the current column. */
  lemma RowStep(done: seq<Key>, x: int, startY: int, y: int)
    requires startY <= y
    ensures done + RowKeys(x, startY, y) == done + RowKeys(x, startY, y - 1) + [(x, y)]
  {
  }

  /** One more column of the range. */
  lemma ColumnStep(r: CellRange, x: int)
    requires r.startX <= x
    ensures RangeKeys(r.(endX := x)) == RangeKeys(r.(endX := x - 1)) + RowKeys(x, r.startY, r.endY)
  {
    assert r.(endX := x).(endX := x - 1) == r.(endX := x - 1);
  }

  /** `search`: the nested cell loops appending each existing bucket. */
  method CollectCells(grid: map<Key, seq<DataPoint>>, r: CellRange) returns (result: seq<DataPoint>)
    ensures result == Gathered(grid, RangeKeys(r))
  {
    result := [];
    var x := r.startX;
    while x <= r.endX
      invariant r.startX <= x <= r.endX + 1 || x == r.startX
      invariant result == Gathered(grid, RangeKeys(r.(endX := x - 1)))
    {
      result := CollectColumn(grid, RangeKeys(r.(endX := x - 1)), x, r.startY, r.endY, result);
      ColumnStep(r, x);
      x := x + 1;
    }
  }

  /** The inner loop of `search`: the buckets of column `x`, bottom to top. */
  method CollectColumn(grid: map<Key, seq<DataPoint>>, ghost done: seq<Key>, x: int, startY: int, endY: int,
                       result: seq<DataPoint>)
    returns (out: seq<DataPoint>)
    requires result == Gathered(grid, done)
    ensures out == Gathered(grid, done + RowKeys(x, startY, endY))
  {
    out := result;
    ghost var keys := done;
    var y := startY;
    assert done + RowKeys(x, startY, y - 1) == done;
    while y <= endY
      invariant startY <= y <= endY + 1 || y == startY
      invariant keys == done + RowKeys(x, startY, y - 1)
      invariant out == Gathered(grid, keys)
    {
      var key := (x, y);
      GatheredSnoc(grid, keys, key);
      RowStep(done, x, startY, y);
      if key in grid {
        out := out + grid[key];
      }
      keys := keys + [key];
      y := y + 1;
    }
  }

  /** `for (const point of cellPoints) if (...) selected.push(point)`. */
  method PushKept(selected: seq<DataPoint>, cellPoints: seq<DataPoint>, keep: DataPoint -> bool)
    returns (out: seq<DataPoint>)
    ensures out == selected + Filter(cellPoints, keep)
  {
    out := selected;
    var i := 0;
    while i < |cellPoints|
      invariant 0 <= i <= |cellPoints|
      invariant out == selected + Filter(cellPoints[..i], keep)
    {
      assert cellPoints[..i + 1][..i] == cellPoints[..i];
      if keep(cellPoints[i]) {
        out := out + [cellPoints[i]];
      }
      i := i + 1;
    }
    assert cellPoints[..|cellPoints|] == cellPoints;
  }

  /** The pixel-selection cell walk: the same nested cell loops, with the exact test
      applied to each bucket's points as they are visited. */
  method WalkCells(grid: map<Key, seq<DataPoint>>, r: CellRange, keep: DataPoint -> bool)
    returns (selected: seq<DataPoint>)
    ensures selected == Filter(Gathered(grid, RangeKeys(r)), keep)
  {
    selected := [];
    var x := r.startX;
    while x <= r.endX
      invariant r.startX <= x <= r.endX + 1 || x == r.startX
      invariant selected == Filter(Gathered(grid, RangeKeys(r.(endX := x - 1))), keep)
    {
      selected := WalkColumn(grid, RangeKeys(r.(endX := x - 1)), x, r.startY, r.endY, keep, selected);
      ColumnStep(r, x);
      x := x + 1;
    }
  }

  /** The inner loop of the walk: column `x`, bottom to top, each bucket filtered. */
  method WalkColumn(grid: map<Key, seq<DataPoint>>, ghost done: seq<Key>, x: int, startY: int, endY: int,
                    keep: DataPoint -> bool, selected: seq<DataPoint>)
    returns (out: seq<DataPoint>)
    requires selected == Filter(Gathered(grid, done), keep)
    ensures out == Filter(Gathered(grid, done + RowKeys(x, startY, endY)), keep)
  {
    out := selected;
    ghost var keys := done;
    var y := startY;
    assert done + RowKeys(x, startY, y - 1) == done;
    while y <= endY
      invariant startY <= y <= endY + 1 || y == startY
      invariant keys == done + RowKeys(x, startY, y - 1)
      invariant out == Filter(Gathered(grid, keys), keep)
    {
      var key := (x, y);
      GatheredSnoc(grid, keys, key);
      RowStep(done, x, startY, y);
      FilterAppend(Gathered(grid, keys), Get(grid, key), keep);
      if key in grid {
        out := PushKept(out, grid[key], keep);
      }
      keys := keys + [key];
      y := y + 1;
    }
  }

  /** `intersectingCells.forEach(...)`: appends the bucket of every listed key. */
  method GatherKeys(grid: map<Key, seq<DataPoint>>, cells: seq<Key>) returns (candidates: seq<DataPoint>)
    ensures candidates == Gathered(grid, cells)
  {
    candidates := [];
    var i := 0;
    while i < |cells|
      invariant 0 <= i <= |cells|
      invariant candidates == Gathered(grid, cells[..i])
    {
      GatheredSnoc(grid, cells[..i], cells[i]);
      assert cells[..i + 1] == cells[..i] + [cells[i]];
      var cellPoints := Get(grid, cells[i]);
      candidates := candidates + cellPoints;
      i := i + 1;
    }
    assert cells[..|cells|] == cells;
  }

  /** `SimpleSpatialIndex` / `InstantSpatialIndex`: a grid with `build` and `search`.
      `points` is the last list built, kept for the specification only. */
  class GridIndex {
    var grid: map<Key, seq<DataPoint>>
    ghost var points: seq<DataPoint>

    ghost predicate Valid()
      reads this
    {
      IsGridOf(grid, points)
    }

    constructor ()
      ensures Valid() && points == []
    {
      grid := map[];
      points := [];
    }

    /** `build`: discards the old buckets and indexes `pts`. */
    method Build(pts: seq<DataPoint>)
      modifies this
      ensures Valid() && points == pts
    {
      grid := CreateSpatialGrid(pts);
      points := pts;
    }

    /** `search`: the buckets of the box's cell range, in cell order; as a multiset,
        exactly the built points whose cell lies in that range. */
    method Search(b: Box) returns (result: seq<DataPoint>)
      requires Valid()
      ensures result == Gathered(grid, RangeKeys(RangeOf(b)))
      ensures multiset(result) == multiset(Filter(points, InBlock(RangeOf(b))))
    {
      result := CollectCells(grid, RangeOf(b));
      GatheredRange(grid, points, RangeOf(b));
    }
  }
}
