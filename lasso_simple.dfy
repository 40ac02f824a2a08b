/** `useLassoSimple`: a grid-indexed selection hook whose lasso ref keeps only the
    down point and the latest point, and whose lasso query falls back to a circle
    around the lasso's bounding box when the polygon test selects nothing. */
module LassoSimple {
  import opened Common
  import opened Geometry
  import opened SpatialGrid
  import opened Selection

  /** The fallback circle: centred on the bounding box, radius half its larger extent. */
  function FallbackCircle(b: Box): Circle {
    Circle(Vec((b.minX + b.maxX) / 2.0, (b.minY + b.maxY) / 2.0),
           Max(b.maxX - b.minX, b.maxY - b.minY) / 2.0)
  }

  /** What the lasso query selects, as a multiset, for a ref of at least one vertex:
      the points inside the polygon, or, when there are none and the ref has at most
      five vertices, the grid candidates of the bounding box inside the fallback circle. */
  ghost function LassoSelection(pts: seq<DataPoint>, poly: seq<Vec>): multiset<DataPoint>
    requires poly != []
  {
    var inside := multiset(Filter(pts, PolygonTest(poly)));
    if inside == multiset{} && |poly| <= 5 then
      multiset(Filter(Filter(pts, InBlock(RangeOf(Bounds(poly)))), CircleTest(FallbackCircle(Bounds(poly)))))
    else inside
  }

  /** The lasso query over the grid candidates of the polygon's bounding box selects
      `LassoSelection` of every indexed point. */
  lemma QueryViaGrid(pts: seq<DataPoint>, poly: seq<Vec>, candidates: seq<DataPoint>,
                     inside: seq<DataPoint>, selected: seq<DataPoint>)
    requires poly != []
    requires multiset(candidates) == multiset(Filter(pts, InBlock(RangeOf(Bounds(poly)))))
    requires inside == Filter(candidates, PolygonTest(poly))
    requires selected == if |inside| == 0 && |poly| <= 5
      then Filter(candidates, CircleTest(FallbackCircle(Bounds(poly)))) else inside
    ensures multiset(selected) == LassoSelection(pts, poly)
  {
    PolygonViaGrid(pts, poly, candidates);
    FilterSameMultiset(candidates, Filter(pts, InBlock(RangeOf(Bounds(poly)))),
                       CircleTest(FallbackCircle(Bounds(poly))));
  }

  /** With the two vertices the ref can hold, the polygon test accepts nothing, so the
      lasso always selects through the fallback circle. */
  lemma TwoVertexLassoFallsBack(pts: seq<DataPoint>, poly: seq<Vec>)
    requires |poly| == 2
    ensures LassoSelection(pts, poly) ==
      multiset(Filter(Filter(pts, InBlock(RangeOf(Bounds(poly)))), CircleTest(FallbackCircle(Bounds(poly)))))
  {
    forall p | p in pts ensures !PolygonTest(poly)(p) {
      DegeneratePolygonEmpty(Screen(p), poly);
    }
    FilterNone(pts, PolygonTest(poly));
  }

  class SimpleLasso {
    const mode: SelectionMode
    const index: GridIndex
    var active: bool
    /** The drawn lasso, closed by a copy of its first vertex. */
    var lassoPoints: seq<Vec>
    var rect: Option<Rect>
    var circle: Option<Circle>
    /** `lassoPointsRef.current`, the vertices the query uses. */
    var lassoRef: seq<Vec>

    ghost predicate Ready()
      reads this, index
    {
      index.Valid() && (circle.Some? ==> circle.value.radius >= 0.0)
    }

    ghost predicate Valid()
      reads this, index
    {
      Ready() && |lassoRef| <= 2
    }

    /** What `performSelection` hands to `onSelection`, by mode. */
    ghost predicate Selects(selected: seq<DataPoint>)
      reads this, index
    {
      match mode
      case RectangleMode =>
        if rect.None? then selected == []
        else multiset(selected) == multiset(Filter(index.points, RectTest(rect.value)))
      case CircleMode =>
        if circle.None? then selected == []
        else multiset(selected) == multiset(Filter(index.points, CircleTest(circle.value)))
      case LassoMode =>
        if |lassoRef| < 2 then selected == []
        else multiset(selected) == LassoSelection(index.points, lassoRef)
    }

    /** The hook with its index built over the precomputed points. */
    constructor (data: seq<DataPoint>, xScale: real -> real, yScale: real -> real, mode: SelectionMode)
      ensures Valid() && index.points == Precomputed(data, xScale, yScale)
      ensures this.mode == mode && !active && lassoPoints == [] && lassoRef == []
      ensures rect == None && circle == None
    {
      var idx := new GridIndex();
      idx.Build(Precomputed(data, xScale, yScale));
      this.mode := mode;
      index := idx;
      active := false;
      lassoPoints := [];
      rect := None;
      circle := None;
      lassoRef := [];
    }

    /** `handleMouseDown`: starts a rectangle or circle at the point, or a lasso (drawn
        list and ref) of just the point. */
    method MouseDown(p: Vec)
      requires Valid()
      modifies this
      ensures Valid() && active
      ensures rect == if mode == RectangleMode then Some(Rect(p.x, p.y, p.x, p.y)) else old(rect)
      ensures circle == if mode == CircleMode then Some(Circle(p, 0.0)) else old(circle)
      ensures lassoPoints == if mode == LassoMode then [p] else old(lassoPoints)
      ensures lassoRef == if mode == LassoMode then [p] else old(lassoRef)
    {
      active := true;
      if mode == RectangleMode {
        rect := Some(Rect(p.x, p.y, p.x, p.y));
      } else if mode == CircleMode {
        circle := Some(Circle(p, 0.0));
      } else {
        lassoPoints := [p];
        lassoRef := [p];
      }
    }

    /** `handleMouseMove`: no-op while inactive; otherwise moves the rectangle's second
        corner, sets the circle's radius to `root` (the square root of the squared
        distance from the centre), or updates the lasso ref. */
    method MouseMove(p: Vec, root: real)
      requires Valid()
      requires active && mode == CircleMode && circle.Some? ==> IsSqrt(root, Dist2(p, circle.value.center))
      modifies this
      ensures Valid() && active == old(active)
      ensures rect ==
        if active && mode == RectangleMode && old(rect).Some? then Some(old(rect).value.(x2 := p.x, y2 := p.y))
        else old(rect)
      ensures circle ==
        if active && mode == CircleMode && old(circle).Some? then Some(old(circle).value.(radius := root))
        else old(circle)
      ensures lassoRef == if active && mode == LassoMode then RefAfterMove(old(lassoRef), p) else old(lassoRef)
      ensures lassoPoints == if active && mode == LassoMode then CloseAfterMove(old(lassoRef), p) else old(lassoPoints)
    {
      if !active {
        return;
      }
      if mode == RectangleMode && rect.Some? {
        rect := Some(rect.value.(x2 := p.x, y2 := p.y));
      } else if mode == CircleMode && circle.Some? {
        circle := Some(circle.value.(radius := root));
      } else if mode == LassoMode {
        RefAfterMoveShape(lassoRef, p);
        var newPoints := CloseAfterMove(lassoRef, p);
        lassoPoints := newPoints;
        lassoRef := newPoints[..|newPoints| - 1];
      }
    }

    /** `performSelection`: the rectangle and circle queries select exactly what the
        exact tests select over every indexed point; the lasso query needs two ref
        vertices and then behaves as `LassoSelection`. */
    method PerformSelection() returns (selected: seq<DataPoint>)
      requires Ready()
      ensures Selects(selected)
    {
      selected := [];
      if mode == RectangleMode {
        if rect.Some? {
          var r := rect.value;
          var candidates := index.Search(RectBox(r));
          selected := Filter(candidates, RectTest(r));
          RectViaGrid(index.points, r, candidates);
        }
      } else if mode == CircleMode {
        if circle.Some? {
          var c := circle.value;
          var candidates := index.Search(CircleBox(c));
          selected := Filter(candidates, CircleTest(c));
          CircleViaGrid(index.points, c, candidates);
        }
      } else {
        if |lassoRef| >= 2 {
          var selectionPoints := lassoRef;
          var bbox := Bounds(selectionPoints);
          var candidates := index.Search(bbox);
          selected := FilterInPolygon(candidates, selectionPoints);
          ghost var inside := selected;
          if |selected| == 0 && |selectionPoints| <= 5 {
            selected := Filter(candidates, CircleTest(FallbackCircle(bbox)));
          }
          QueryViaGrid(index.points, selectionPoints, candidates, inside, selected);
        }
      }
    }

    /** `handleMouseUp`: ends the gesture, emits one selection (even without a prior
        mouse-down) and clears the lasso, rectangle, circle and ref. A lasso emits the
        fallback-circle selection whenever its ref has two vertices. */
    method MouseUp() returns (selected: seq<DataPoint>)
      requires Valid()
      modifies this
      ensures Valid() && !active
      ensures old(Selects(selected))
      ensures old(mode == LassoMode && |lassoRef| >= 2) ==>
        multiset(selected) ==
          multiset(Filter(Filter(index.points, InBlock(RangeOf(Bounds(old(lassoRef))))),
                          CircleTest(FallbackCircle(Bounds(old(lassoRef))))))
      ensures lassoPoints == [] && rect == None && circle == None && lassoRef == []
    {
      selected := PerformSelection();
      active := false;
      if mode == LassoMode && |lassoRef| >= 2 {
        TwoVertexLassoFallsBack(index.points, lassoRef);
      }
      lassoPoints := [];
      rect := None;
      circle := None;
      lassoRef := [];
    }
  }
}
