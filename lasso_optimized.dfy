/** `useLassoOptimized`: a selection hook over a precomputed grid map, querying it
    through the list of intersecting cells, and keeping the lasso closed by a copy of
    its first vertex. Its lasso test is d3's `polygonContains`, an outside library,
    given here as the parameter `contains`. */
module LassoOptimized {
  import opened Common
  import opened Geometry
  import opened SpatialGrid
  import opened Selection

  /** `polygonContains(selectionPoints, [point.cx || 0, point.cy || 0])`. */
  function ContainsTest(contains: (seq<Vec>, Vec) -> bool, poly: seq<Vec>): DataPoint -> bool {
    p => contains(poly, Screen(p))
  }

  /** The lasso state the handlers keep: empty, a single down point, or a closed list
      of at least three vertices whose last repeats the first. */
  predicate ClosedLasso(pts: seq<Vec>) {
    |pts| <= 1 || (|pts| >= 3 && pts[|pts| - 1] == pts[0])
  }

  lemma CloseAfterMoveClosed(pts: seq<Vec>, p: Vec)
    requires ClosedLasso(pts)
    ensures ClosedLasso(CloseAfterMove(pts, p))
    ensures pts != [] ==> |CloseAfterMove(pts, p)| == |pts| + 1 || |pts| == 1
  {
  }

  /** The lasso test accepts only positions inside the polygon's bounding box, as
      every even-odd test does (`Geometry.InPolygonWithinBounds`). */
  ghost predicate WithinBounds(contains: (seq<Vec>, Vec) -> bool, poly: seq<Vec>)
    requires poly != []
  {
    forall q :: contains(poly, q) ==> InBox(q, Bounds(poly))
  }

  /** The even-odd test of `Geometry` meets that condition. */
  lemma EvenOddWithinBounds(poly: seq<Vec>)
    requires poly != []
    ensures WithinBounds((vs: seq<Vec>, q: Vec) => InPolygon(q, vs), poly)
  {
    forall q | InPolygon(q, poly) ensures InBox(q, Bounds(poly)) {
      InPolygonWithinBounds(q, poly);
    }
  }

  /** Testing the grid candidates of the polygon's bounding box selects, as a
      multiset, exactly what testing every indexed point selects. */
  lemma ContainsViaGrid(grid: map<Key, seq<DataPoint>>, pts: seq<DataPoint>,
                        contains: (seq<Vec>, Vec) -> bool, poly: seq<Vec>)
    requires IsGridOf(grid, pts) && poly != [] && WithinBounds(contains, poly)
    ensures multiset(Filter(Gathered(grid, RangeKeys(RangeOf(Bounds(poly)))), ContainsTest(contains, poly))) ==
            multiset(Filter(pts, ContainsTest(contains, poly)))
  {
    GatheredRange(grid, pts, RangeOf(Bounds(poly)));
    forall p | p in pts && ContainsTest(contains, poly)(p) ensures InBox(Screen(p), Bounds(poly)) {
      assert contains(poly, Screen(p));
    }
    IndexThenFilter(pts, Bounds(poly), Gathered(grid, RangeKeys(RangeOf(Bounds(poly)))), ContainsTest(contains, poly));
  }

  class OptimizedLasso {
    const mode: SelectionMode
    const spatialGrid: map<Key, seq<DataPoint>>
    ghost const points: seq<DataPoint>
    const contains: (seq<Vec>, Vec) -> bool
    var active: bool
    var lassoPoints: seq<Vec>
    var rect: Option<Rect>
    var circle: Option<Circle>

    ghost predicate Valid()
      reads this
    {
      IsGridOf(spatialGrid, points) && (circle.Some? ==> circle.value.radius >= 0.0) &&
      ClosedLasso(lassoPoints)
    }

    /** What `performSelection` hands to `onSelection`, by mode. The lasso query
        strips the closing vertex and keeps the grid candidates of the remaining
        vertices' bounding box that `contains` accepts. */
    ghost predicate Selects(selected: seq<DataPoint>)
      reads this
    {
      match mode
      case RectangleMode =>
        if rect.None? then selected == []
        else multiset(selected) == multiset(Filter(points, RectTest(rect.value)))
      case CircleMode =>
        if circle.None? then selected == []
        else multiset(selected) == multiset(Filter(points, CircleTest(circle.value)))
      case LassoMode =>
        if |lassoPoints| <= 2 then selected == []
        else
          var selectionPoints := lassoPoints[..|lassoPoints| - 1];
          selected == Filter(Gathered(spatialGrid, RangeKeys(RangeOf(Bounds(selectionPoints)))),
                             ContainsTest(contains, selectionPoints))
    }

    /** The hook with its grid built over the precomputed points (`useMemo`). */
    constructor (data: seq<DataPoint>, xScale: real -> real, yScale: real -> real,
                 contains: (seq<Vec>, Vec) -> bool, mode: SelectionMode)
      ensures Valid() && points == Precomputed(data, xScale, yScale)
      ensures this.mode == mode && this.contains == contains
      ensures !active && lassoPoints == [] && rect == None && circle == None
    {
      var grid := CreateSpatialGrid(Precomputed(data, xScale, yScale));
      this.mode := mode;
      spatialGrid := grid;
      points := Precomputed(data, xScale, yScale);
      this.contains := contains;
      active := false;
      lassoPoints := [];
      rect := None;
      circle := None;
    }

    /** `handleMouseDown`. */
    method MouseDown(p: Vec)
      requires Valid()
      modifies this
      ensures Valid() && active
      ensures rect == if mode == RectangleMode then Some(Rect(p.x, p.y, p.x, p.y)) else old(rect)
      ensures circle == if mode == CircleMode then Some(Circle(p, 0.0)) else old(circle)
      ensures lassoPoints == if mode == LassoMode then [p] else old(lassoPoints)
    {
      active := true;
      if mode == RectangleMode {
        rect := Some(Rect(p.x, p.y, p.x, p.y));
      } else if mode == CircleMode {
        circle := Some(Circle(p, 0.0));
      } else {
        lassoPoints := [p];
      }
    }

    /** `handleMouseMove`: no-op while inactive; the lasso inserts the point before
        the closing vertex (`ClosedLassoGrows` gives the list after several moves). */
    method MouseMove(p: Vec, root: real)
      requires Valid()
      requires active && mode == CircleMode && circle.Some? ==> IsSqrt(root, Dist2(p, circle.value.center))
      modifies this
      ensures Valid() && active == old(active)
      ensures rect ==
        if active && mode == RectangleMode && old(rect).Some? then Some(old(rect).value.(x2 := p.x, y2 := p.y))
        else old(rect)
      ensures circle ==
        if active && mode == CircleMode && old(circle).Some? then Some(old(circle).value.(radius := root))
        else old(circle)
      ensures lassoPoints ==
        if active && mode == LassoMode then CloseAfterMove(old(lassoPoints), p) else old(lassoPoints)
    {
      if !active {
        return;
      }
      if mode == RectangleMode && rect.Some? {
        rect := Some(rect.value.(x2 := p.x, y2 := p.y));
      } else if mode == CircleMode && circle.Some? {
        circle := Some(circle.value.(radius := root));
      } else if mode == LassoMode {
        CloseAfterMoveClosed(lassoPoints, p);
        lassoPoints := CloseAfterMove(lassoPoints, p);
      }
    }

    /** The candidates of a box: `getIntersectingGridCells` then the cells' points. */
    method Candidates(bbox: Box) returns (candidates: seq<DataPoint>)
      requires Valid()
      ensures candidates == Gathered(spatialGrid, RangeKeys(RangeOf(bbox)))
      ensures multiset(candidates) == multiset(Filter(points, InBlock(RangeOf(bbox))))
    {
      var cells := IntersectingCells(bbox);
      candidates := GatherKeys(spatialGrid, cells);
      GatheredRange(spatialGrid, points, RangeOf(bbox));
    }

    /** `performSelection`: the rectangle and circle queries select exactly what the
        exact tests select over every point; the lasso query runs only on more than
        two vertices and selects the grid candidates the lasso test accepts
        (`LassoSelectsAll` relates them to every point). */
    method PerformSelection() returns (selected: seq<DataPoint>)
      requires Valid()
      ensures Selects(selected)
    {
      selected := [];
      if mode == RectangleMode && rect.Some? {
        var r := rect.value;
        var candidates := Candidates(RectBox(r));
        selected := Filter(candidates, RectTest(r));
        RectViaGrid(points, r, candidates);
      } else if mode == CircleMode && circle.Some? {
        var c := circle.value;
        var candidates := Candidates(CircleBox(c));
        selected := Filter(candidates, CircleTest(c));
        CircleViaGrid(points, c, candidates);
      } else if mode == LassoMode && |lassoPoints| > 2 {
        var selectionPoints := lassoPoints[..|lassoPoints| - 1];
        var bbox := BoundingBox(selectionPoints);
        if bbox.Some? {
          var candidates := Candidates(bbox.value);
          selected := Filter(candidates, ContainsTest(contains, selectionPoints));
        }
      }
    }

    /** `handleMouseUp`: ends the gesture, emits one selection and clears the lasso,
        rectangle and circle. */
    method MouseUp() returns (selected: seq<DataPoint>)
      requires Valid()
      modifies this
      ensures Valid() && !active
      ensures old(Selects(selected))
      ensures lassoPoints == [] && rect == None && circle == None
    {
      selected := PerformSelection();
      active := false;
      lassoPoints := [];
      rect := None;
      circle := None;
    }
  }

  /** A lasso selection is what the lasso test accepts over every indexed point,
      as a multiset, whenever that test stays inside the polygon's bounding box. */
  lemma LassoSelectsAll(lasso: OptimizedLasso, selected: seq<DataPoint>)
    requires lasso.Valid() && lasso.mode == LassoMode && |lasso.lassoPoints| > 2
    requires lasso.Selects(selected)
    requires WithinBounds(lasso.contains, lasso.lassoPoints[..|lasso.lassoPoints| - 1])
    ensures multiset(selected) ==
            multiset(Filter(lasso.points, ContainsTest(lasso.contains, lasso.lassoPoints[..|lasso.lassoPoints| - 1])))
  {
    ContainsViaGrid(lasso.spatialGrid, lasso.points, lasso.contains, lasso.lassoPoints[..|lasso.lassoPoints| - 1]);
  }
}
