/** `PixelSelection`: a canvas selection component that buckets the data into a
    50-pixel grid and, on mouse-up, walks the grid cells under the gesture, testing each
    point of each cell as it goes. Mouse positions arrive as `Option<Vec>`: `None` is
    `getCanvasPoint` without a canvas. */
module PixelSelection {
  import opened Common
  import opened Geometry
  import opened SpatialGrid
  import opened Selection

  /** What a mouse-up hands to `onSelection` for a gesture from `start` to `current`
      over `lassoPoints`: nothing without both points; otherwise, up to order, the
      points the mode's exact test accepts over every point. `root` is the circle
      radius, the square root of the squared distance from start to current. */
  ghost predicate SelectsFor(pts: seq<DataPoint>, mode: SelectionMode, start: Option<Vec>,
                             current: Option<Vec>, lassoPoints: seq<Vec>, root: real,
                             result: Option<seq<DataPoint>>)
  {
    if start.None? || current.None? then result == None
    else
      result.Some? &&
      match mode
      case RectangleMode =>
        multiset(result.value) ==
          multiset(Filter(pts, RectTest(Rect(start.value.x, start.value.y, current.value.x, current.value.y))))
      case CircleMode =>
        multiset(result.value) == multiset(Filter(pts, CircleTest(Circle(start.value, root))))
      case LassoMode =>
        if |lassoPoints| > 2 then multiset(result.value) == multiset(Filter(pts, PolygonTest(lassoPoints)))
        else result.value == []
  }

  /** The current point a mouse-up uses: the ref when it holds a point. */
  function Latest(currentRef: Option<Vec>, currentPoint: Option<Vec>): (r: Option<Vec>)
    ensures r.Some? <==> currentRef.Some? || currentPoint.Some?
    ensures currentRef.Some? ==> r == currentRef
  {
    if currentRef.Some? then currentRef else currentPoint
  }

  /** The test that keeps exactly the points drawn at `s`. */
  function AtPoint(s: Vec): DataPoint -> bool {
    p => Screen(p) == s
  }

  /** A rectangle whose two corners are the same point selects, up to order, exactly
      the points drawn at that point. */
  lemma StaleRectangleSelectsPressPoint(pts: seq<DataPoint>, s: Vec, lassoPoints: seq<Vec>, root: real,
                                        result: Option<seq<DataPoint>>)
    requires SelectsFor(pts, RectangleMode, Some(s), Some(s), lassoPoints, root, result)
    ensures result.Some? && multiset(result.value) == multiset(Filter(pts, AtPoint(s)))
  {
    var r := Rect(s.x, s.y, s.x, s.y);
    forall p | p in pts ensures RectTest(r)(p) == AtPoint(s)(p) {
      var q := Screen(p);
      assert InRect(q, r) <==> q.x == s.x && q.y == s.y;
    }
    FilterExt(pts, RectTest(r), AtPoint(s));
  }

  /** A circle whose radius squares to 0 holds only its centre. */
  lemma ZeroCircle(q: Vec, s: Vec, root: real)
    requires root * root == 0.0
    ensures InCircle(q, s, root) <==> q == s
  {
    var dx, dy := q.x - s.x, q.y - s.y;
    if InCircle(q, s, root) {
      assert dx * dx <= 0.0 * 0.0 by {
        assert dy * dy >= 0.0;
      }
      assert dy * dy <= 0.0 * 0.0 by {
        assert dx * dx >= 0.0;
      }
      SquareBound(dx, 0.0);
      SquareBound(dy, 0.0);
    }
  }

  /** A circle whose edge point is its centre has radius 0 and selects, up to order,
      exactly the points drawn at the centre. */
  lemma StaleCircleSelectsPressPoint(pts: seq<DataPoint>, s: Vec, lassoPoints: seq<Vec>, root: real,
                                     result: Option<seq<DataPoint>>)
    requires IsSqrt(root, Dist2(s, s))
    requires SelectsFor(pts, CircleMode, Some(s), Some(s), lassoPoints, root, result)
    ensures result.Some? && multiset(result.value) == multiset(Filter(pts, AtPoint(s)))
  {
    assert Dist2(s, s) == 0.0;
    assert root * root == 0.0;
    var c := Circle(s, root);
    forall p | p in pts ensures CircleTest(c)(p) == AtPoint(s)(p) {
      ZeroCircle(Screen(p), s, root);
    }
    FilterExt(pts, CircleTest(c), AtPoint(s));
  }

  /** A point at (5, 5), pressed at (0, 0) and dragged to (10, 10): the rectangle the
      mouse-up means selects it, but the one the stale callback tests is empty. */
  lemma StaleCurrentMissesDrag(stale: Option<seq<DataPoint>>, meant: Option<seq<DataPoint>>)
    requires var p := DataPoint(0.0, 0.0, "a", 0.0, None, Some(5.0), Some(5.0), false);
      SelectsFor([p], RectangleMode, Some(Vec(0.0, 0.0)), Some(Vec(0.0, 0.0)), [], 0.0, stale) &&
      SelectsFor([p], RectangleMode, Some(Vec(0.0, 0.0)), Some(Vec(10.0, 10.0)), [], 0.0, meant)
    ensures stale == Some([])
    ensures meant.Some? && |meant.value| == 1
  {
    var p := DataPoint(0.0, 0.0, "a", 0.0, None, Some(5.0), Some(5.0), false);
    assert !RectTest(Rect(0.0, 0.0, 0.0, 0.0))(p);
    assert Filter([p], RectTest(Rect(0.0, 0.0, 0.0, 0.0))) == [];
    assert RectTest(Rect(0.0, 0.0, 10.0, 10.0))(p);
    assert Filter([p], RectTest(Rect(0.0, 0.0, 10.0, 10.0))) == [p];
    assert |multiset(stale.value)| == 0;
    assert |multiset(meant.value)| == 1;
  }

  class PixelSelector {
    const mode: SelectionMode
    /** `spatialGrid.current`, with the data it was built from. */
    var spatialGrid: map<Key, seq<DataPoint>>
    ghost var points: seq<DataPoint>
    var isSelecting: bool
    var startPoint: Option<Vec>
    var currentPoint: Option<Vec>
    /** `currentPointRef.current`, updated on every move. */
    var currentRef: Option<Vec>
    var lassoPoints: seq<Vec>

    ghost predicate Valid()
      reads this
    {
      IsGridOf(spatialGrid, points)
    }

    /** The mounted component, with the grid effect run on its first data. */
    constructor (data: seq<DataPoint>, mode: SelectionMode)
      ensures Valid() && points == data && this.mode == mode
      ensures !isSelecting && startPoint == None && currentPoint == None && currentRef == None
      ensures lassoPoints == []
    {
      this.mode := mode;
      var grid := CreateSpatialGrid(data);
      spatialGrid := grid;
      points := data;
      isSelecting := false;
      startPoint := None;
      currentPoint := None;
      currentRef := None;
      lassoPoints := [];
    }

    /** The grid effect on a data change: clears the grid and buckets every point by
        its 50-pixel cell. */
    method RebuildGrid(data: seq<DataPoint>)
      modifies this
      ensures Valid() && points == data
      ensures isSelecting == old(isSelecting) && startPoint == old(startPoint)
      ensures currentPoint == old(currentPoint) && currentRef == old(currentRef)
      ensures lassoPoints == old(lassoPoints)
    {
      spatialGrid := CreateSpatialGrid(data);
      points := data;
    }

    /** The cell walk of `performPixelSelection` for one mode. */
    method PerformPixelSelection(root: real) returns (result: Option<seq<DataPoint>>)
      requires Valid()
      requires mode == CircleMode && startPoint.Some? && currentPoint.Some? ==>
        IsSqrt(root, Dist2(currentPoint.value, startPoint.value))
      ensures SelectsFor(points, mode, startPoint, currentPoint, lassoPoints, root, result)
    {
      if startPoint.None? || currentPoint.None? {
        return None;
      }
      var start, current := startPoint.value, currentPoint.value;
      var selected := [];
      if mode == RectangleMode {
        var r := Rect(start.x, start.y, current.x, current.y);
        selected := WalkCells(spatialGrid, RangeOf(RectBox(r)), RectTest(r));
        GatheredRange(spatialGrid, points, RangeOf(RectBox(r)));
        RectViaGrid(points, r, Gathered(spatialGrid, RangeKeys(RangeOf(RectBox(r)))));
      } else if mode == CircleMode {
        var c := Circle(start, root);
        selected := WalkCells(spatialGrid, RangeOf(CircleBox(c)), CircleTest(c));
        GatheredRange(spatialGrid, points, RangeOf(CircleBox(c)));
        CircleViaGrid(points, c, Gathered(spatialGrid, RangeKeys(RangeOf(CircleBox(c)))));
      } else if |lassoPoints| > 2 {
        var poly := lassoPoints;
        selected := WalkCells(spatialGrid, RangeOf(Bounds(poly)), LassoTest(poly));
        GatheredRange(spatialGrid, points, RangeOf(Bounds(poly)));
        LassoViaGrid(points, poly, Gathered(spatialGrid, RangeKeys(RangeOf(Bounds(poly)))));
      }
      result := Some(selected);
    }

    /** `handleMouseDown`: with a canvas point, starts a gesture at it (and a lasso of
        just that point in lasso mode). */
    method MouseDown(point: Option<Vec>)
      modifies this
      ensures point.None? ==>
        isSelecting == old(isSelecting) && startPoint == old(startPoint) &&
        currentPoint == old(currentPoint) && currentRef == old(currentRef) && lassoPoints == old(lassoPoints)
      ensures point.Some? ==>
        isSelecting && startPoint == point && currentPoint == point && currentRef == point &&
        lassoPoints == (if mode == LassoMode then [point.value] else old(lassoPoints))
      ensures spatialGrid == old(spatialGrid) && points == old(points)
    {
      if point.None? {
        return;
      }
      isSelecting := true;
      startPoint := point;
      currentPoint := point;
      currentRef := point;
      if mode == LassoMode {
        lassoPoints := [point.value];
      }
    }

    /** `handleMouseMove`: while selecting, records the point in the ref and, in lasso
        mode, appends it to the lasso without any threshold. */
    method MouseMove(point: Option<Vec>)
      modifies this
      ensures isSelecting == old(isSelecting) && startPoint == old(startPoint)
      ensures currentPoint == old(currentPoint)
      ensures currentRef == if point.Some? && isSelecting then point else old(currentRef)
      ensures lassoPoints ==
        if point.Some? && isSelecting && mode == LassoMode then old(lassoPoints) + [point.value]
        else old(lassoPoints)
      ensures spatialGrid == old(spatialGrid) && points == old(points)
    {
      if point.None? {
        return;
      }
      if isSelecting {
        currentRef := point;
        if mode == LassoMode {
          lassoPoints := lassoPoints + [point.value];
        }
      }
    }

    /** `handleMouseUp`: no-op unless selecting; otherwise takes the latest point from
        the ref, performs the selection and resets the gesture. */
    method MouseUp(root: real) returns (result: Option<seq<DataPoint>>)
      requires Valid()
      requires isSelecting && mode == CircleMode && startPoint.Some? && Latest(currentRef, currentPoint).Some? ==>
        IsSqrt(root, Dist2(Latest(currentRef, currentPoint).value, startPoint.value))
      modifies this
      ensures Valid() && spatialGrid == old(spatialGrid) && points == old(points)
      ensures !old(isSelecting) ==>
        result == None && startPoint == old(startPoint) && currentPoint == old(currentPoint) &&
        currentRef == old(currentRef) && lassoPoints == old(lassoPoints) && !isSelecting
      ensures old(isSelecting) ==>
        SelectsFor(points, mode, old(startPoint), Latest(old(currentRef), old(currentPoint)),
                   old(lassoPoints), root, result)
      ensures old(isSelecting) ==>
        !isSelecting && startPoint == None && currentPoint == None && currentRef == None && lassoPoints == []
    {
      if !isSelecting {
        return None;
      }
      isSelecting := false;
      currentPoint := Latest(currentRef, currentPoint);
      result := PerformPixelSelection(root);
      startPoint := None;
      currentPoint := None;
      lassoPoints := [];
      currentRef := None;
    }

    /** `handleMouseUp` as the component runs it: the memoised `performPixelSelection`
        still sees the `currentPoint` state of the last render, which only a mouse-down
        sets, so it selects with that point rather than the ref's latest one. */
    method MouseUpAsWritten(root: real) returns (result: Option<seq<DataPoint>>)
      requires Valid()
      requires isSelecting && mode == CircleMode && startPoint.Some? && currentPoint.Some? ==>
        IsSqrt(root, Dist2(currentPoint.value, startPoint.value))
      modifies this
      ensures Valid() && spatialGrid == old(spatialGrid) && points == old(points)
      ensures !old(isSelecting) ==>
        result == None && startPoint == old(startPoint) && currentPoint == old(currentPoint) &&
        currentRef == old(currentRef) && lassoPoints == old(lassoPoints) && !isSelecting
      ensures old(isSelecting) ==>
        SelectsFor(points, mode, old(startPoint), old(currentPoint), old(lassoPoints), root, result)
      ensures old(isSelecting) ==>
        !isSelecting && startPoint == None && currentPoint == None && currentRef == None && lassoPoints == []
    {
      if !isSelecting {
        return None;
      }
      isSelecting := false;
      result := PerformPixelSelection(root);
      startPoint := None;
      currentPoint := None;
      lassoPoints := [];
      currentRef := None;
    }

    /** A whole rectangle or circle gesture as the component runs it: a press at
        `down`, any number of moves, then the mouse-up. The selection holds only the
        points drawn exactly at the press position, wherever the pointer was released. */
    method StaleGesture(down: Vec, moves: seq<Option<Vec>>) returns (result: Option<seq<DataPoint>>)
      requires Valid() && mode != LassoMode
      modifies this
      ensures Valid() && points == old(points)
      ensures result.Some? && multiset(result.value) == multiset(Filter(points, AtPoint(down)))
      ensures !isSelecting && startPoint == None && currentPoint == None && currentRef == None
    {
      MouseDown(Some(down));
      for i := 0 to |moves|
        invariant Valid() && points == old(points)
        invariant isSelecting && startPoint == Some(down) && currentPoint == Some(down)
      {
        MouseMove(moves[i]);
      }
      var lasso := lassoPoints;
      result := MouseUpAsWritten(0.0);
      if mode == RectangleMode {
        StaleRectangleSelectsPressPoint(points, down, lasso, 0.0, result);
      } else {
        StaleCircleSelectsPressPoint(points, down, lasso, 0.0, result);
      }
    }

    /** `handleMouseLeave`: completes the gesture as a mouse-up while selecting, and
        otherwise does nothing. */
    method MouseLeave(root: real) returns (result: Option<seq<DataPoint>>)
      requires Valid()
      requires isSelecting && mode == CircleMode && startPoint.Some? && Latest(currentRef, currentPoint).Some? ==>
        IsSqrt(root, Dist2(Latest(currentRef, currentPoint).value, startPoint.value))
      modifies this
      ensures Valid() && spatialGrid == old(spatialGrid) && points == old(points)
      ensures !old(isSelecting) ==>
        result == None && startPoint == old(startPoint) && currentPoint == old(currentPoint) &&
        currentRef == old(currentRef) && lassoPoints == old(lassoPoints) && !isSelecting
      ensures old(isSelecting) ==>
        SelectsFor(points, mode, old(startPoint), Latest(old(currentRef), old(currentPoint)),
                   old(lassoPoints), root, result)
      ensures old(isSelecting) ==>
        !isSelecting && startPoint == None && currentPoint == None && currentRef == None && lassoPoints == []
    {
      result := None;
      if isSelecting {
        result := MouseUp(root);
      }
    }
  }
}
