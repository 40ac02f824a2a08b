/** `useLassoInstant`: a grid-indexed selection hook whose lasso moves are kept only
    past a 2-pixel threshold and whose lasso query needs more than two ref vertices. */
module LassoInstant {
  import opened Common
  import opened Geometry
  import opened SpatialGrid
  import opened Selection

  /** Whether a lasso move is kept: always for an empty ref, otherwise only past the
      2-pixel threshold from the ref's last vertex. */
  predicate Retained(ref: seq<Vec>, p: Vec) {
    ref == [] || MovedEnough(ref[|ref| - 1], p)
  }

  class InstantLasso {
    const mode: SelectionMode
    const index: GridIndex
    var active: bool
    /** The drawn lasso, closed by a copy of its first vertex. */
    var lassoPoints: seq<Vec>
    var rect: Option<Rect>
    var circle: Option<Circle>
    /** `lassoPointsRef.current`, the vertices the query uses. */
    var lassoRef: seq<Vec>

    ghost predicate Ready()
      reads this, index
    {
      index.Valid() && (circle.Some? ==> circle.value.radius >= 0.0)
    }

    ghost predicate Valid()
      reads this, index
    {
      Ready() && |lassoRef| <= 2
    }

    /** What `performSelection` hands to `onSelection`, by mode. */
    ghost predicate Selects(selected: seq<DataPoint>)
      reads this, index
    {
      match mode
      case RectangleMode =>
        if rect.None? then selected == []
        else multiset(selected) == multiset(Filter(index.points, RectTest(rect.value)))
      case CircleMode =>
        if circle.None? then selected == []
        else multiset(selected) == multiset(Filter(index.points, CircleTest(circle.value)))
      case LassoMode =>
        if |lassoRef| <= 2 then selected == []
        else multiset(selected) == multiset(Filter(index.points, PolygonTest(lassoRef)))
    }

    /** The hook with its index built over the precomputed points. */
    constructor (data: seq<DataPoint>, xScale: real -> real, yScale: real -> real, mode: SelectionMode)
      ensures Valid() && index.points == Precomputed(data, xScale, yScale)
      ensures this.mode == mode && !active && lassoPoints == [] && lassoRef == []
      ensures rect == None && circle == None
    {
      var idx := new GridIndex();
      idx.Build(Precomputed(data, xScale, yScale));
      this.mode := mode;
      index := idx;
      active := false;
      lassoPoints := [];
      rect := None;
      circle := None;
      lassoRef := [];
    }

    /** `handleMouseDown`: starts a rectangle or circle at the point, or a lasso (drawn
        list and ref) of just the point. */
    method MouseDown(p: Vec)
      requires Valid()
      modifies this
      ensures Valid() && active
      ensures rect == if mode == RectangleMode then Some(Rect(p.x, p.y, p.x, p.y)) else old(rect)
      ensures circle == if mode == CircleMode then Some(Circle(p, 0.0)) else old(circle)
      ensures lassoPoints == if mode == LassoMode then [p] else old(lassoPoints)
      ensures lassoRef == if mode == LassoMode then [p] else old(lassoRef)
    {
      active := true;
      if mode == RectangleMode {
        rect := Some(Rect(p.x, p.y, p.x, p.y));
      } else if mode == CircleMode {
        circle := Some(Circle(p, 0.0));
      } else {
        lassoPoints := [p];
        lassoRef := [p];
      }
    }

    /** `handleMouseMove`: no-op while inactive; otherwise moves the rectangle's second
        corner, sets the circle's radius to `root` (the square root of the squared
        distance from the centre), or, when the ref is empty or the point is more than
        2 pixels from the ref's last vertex on some axis, updates the lasso ref. */
    method MouseMove(p: Vec, root: real)
      requires Valid()
      requires active && mode == CircleMode && circle.Some? ==> IsSqrt(root, Dist2(p, circle.value.center))
      modifies this
      ensures Valid() && active == old(active)
      ensures rect ==
        if active && mode == RectangleMode && old(rect).Some? then Some(old(rect).value.(x2 := p.x, y2 := p.y))
        else old(rect)
      ensures circle ==
        if active && mode == CircleMode && old(circle).Some? then Some(old(circle).value.(radius := root))
        else old(circle)
      ensures lassoRef ==
        if active && mode == LassoMode && Retained(old(lassoRef), p) then RefAfterMove(old(lassoRef), p)
        else old(lassoRef)
      ensures lassoPoints ==
        if active && mode == LassoMode && Retained(old(lassoRef), p) then CloseAfterMove(old(lassoRef), p)
        else old(lassoPoints)
    {
      if !active {
        return;
      }
      if mode == RectangleMode && rect.Some? {
        rect := Some(rect.value.(x2 := p.x, y2 := p.y));
      } else if mode == CircleMode && circle.Some? {
        circle := Some(circle.value.(radius := root));
      } else if mode == LassoMode {
        if lassoRef == [] || MovedEnough(lassoRef[|lassoRef| - 1], p) {
          RefAfterMoveShape(lassoRef, p);
          var newPoints := CloseAfterMove(lassoRef, p);
          lassoPoints := newPoints;
          lassoRef := newPoints[..|newPoints| - 1];
        }
      }
    }

    /** `performSelection`: the rectangle and circle queries select exactly what the
        exact tests select over every indexed point; the lasso query runs only on a
        ref of more than two vertices and then selects what the polygon test selects. */
    method PerformSelection() returns (selected: seq<DataPoint>)
      requires Ready()
      ensures Selects(selected)
    {
      selected := [];
      if mode == RectangleMode && rect.Some? {
        var r := rect.value;
        var candidates := index.Search(RectBox(r));
        selected := Filter(candidates, RectTest(r));
        RectViaGrid(index.points, r, candidates);
      } else if mode == CircleMode && circle.Some? {
        var c := circle.value;
        var candidates := index.Search(CircleBox(c));
        selected := Filter(candidates, CircleTest(c));
        CircleViaGrid(index.points, c, candidates);
      } else if mode == LassoMode && |lassoRef| > 2 {
        var selectionPoints := lassoRef;
        var candidates := index.Search(Bounds(selectionPoints));
        selected := FilterInPolygon(candidates, selectionPoints);
        PolygonViaGrid(index.points, selectionPoints, candidates);
      }
    }

    /** `handleMouseUp`: ends the gesture, emits one selection and clears the lasso,
        rectangle, circle and ref. Because the ref never holds more than two vertices,
        a lasso gesture always emits the empty selection. */
    method MouseUp() returns (selected: seq<DataPoint>)
      requires Valid()
      modifies this
      ensures Valid() && !active
      ensures old(Selects(selected))
      ensures mode == LassoMode ==> selected == []
      ensures lassoPoints == [] && rect == None && circle == None && lassoRef == []
    {
      selected := PerformSelection();
      active := false;
      lassoPoints := [];
      rect := None;
      circle := None;
      lassoRef := [];
    }
  }
}
