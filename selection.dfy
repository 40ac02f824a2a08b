/** What the selection variants share: the selection mode, the exact tests lifted to
    data points, the lasso vertex-list update of the mouse-move handlers, and the
    lemmas that make a grid query followed by an exact test equal to the exact test
    over every point. */
module Selection {
  import opened Common
  import opened Geometry
  import opened SpatialGrid

  /** `SelectionMode`. */
  datatype SelectionMode = LassoMode | RectangleMode | CircleMode

  /** `cx: point.cx || xScale(point.x)`, `cy: point.cy || yScale(point.y)`: a missing
      or zero screen coordinate is replaced by the scaled data coordinate. */
  function Precompute(p: DataPoint, xScale: real -> real, yScale: real -> real): DataPoint {
    p.(cx := Some(if p.cx.GetOr(0.0) != 0.0 then p.cx.GetOr(0.0) else xScale(p.x)),
       cy := Some(if p.cy.GetOr(0.0) != 0.0 then p.cy.GetOr(0.0) else yScale(p.y)))
  }

  /** `data.map(point => ({ ...point, cx: ..., cy: ... }))`. */
  function Precomputed(data: seq<DataPoint>, xScale: real -> real, yScale: real -> real): (r: seq<DataPoint>)
    ensures |r| == |data|
    ensures forall i :: 0 <= i < |data| ==> r[i] == Precompute(data[i], xScale, yScale)
  {
    if data == [] then []
    else Precomputed(data[..|data| - 1], xScale, yScale) + [Precompute(data[|data| - 1], xScale, yScale)]
  }

  /** Precomputing keeps every field but the screen position, and the position it
      sets agrees with the data coordinates' scale wherever the point had none or
      had zero, and with the point's own position otherwise. */
  lemma PrecomputeFacts(p: DataPoint, xScale: real -> real, yScale: real -> real)
    ensures var q := Precompute(p, xScale, yScale);
      q.x == p.x && q.y == p.y && q.index == p.index && q.score == p.score && q.color == p.color &&
      (p.cx.GetOr(0.0) == 0.0 ==> Screen(q).x == xScale(p.x)) &&
      (p.cy.GetOr(0.0) == 0.0 ==> Screen(q).y == yScale(p.y)) &&
      (p.cx.Some? && p.cx.value != 0.0 ==> Screen(q).x == p.cx.value) &&
      (p.cy.Some? && p.cy.value != 0.0 ==> Screen(q).y == p.cy.value)
  {
  }

  function RectTest(r: Rect): DataPoint -> bool {
    p => InRect(Screen(p), r)
  }

  function CircleTest(c: Circle): DataPoint -> bool {
    p => InCircle(Screen(p), c.center, c.radius)
  }

  function PolygonTest(poly: seq<Vec>): DataPoint -> bool {
    p => InPolygon(Screen(p), poly)
  }

  /** Rectangle through the grid equals the rectangle test over every point. */
  lemma RectViaGrid(pts: seq<DataPoint>, r: Rect, candidates: seq<DataPoint>)
    requires multiset(candidates) == multiset(Filter(pts, InBlock(RangeOf(RectBox(r)))))
    ensures multiset(Filter(candidates, RectTest(r))) == multiset(Filter(pts, RectTest(r)))
  {
    IndexThenFilter(pts, RectBox(r), candidates, RectTest(r));
  }

  /** Circle through the grid equals the circle test over every point, because a
      circle with a non-negative radius lies inside its query box. */
  lemma CircleViaGrid(pts: seq<DataPoint>, c: Circle, candidates: seq<DataPoint>)
    requires c.radius >= 0.0
    requires multiset(candidates) == multiset(Filter(pts, InBlock(RangeOf(CircleBox(c)))))
    ensures multiset(Filter(candidates, CircleTest(c))) == multiset(Filter(pts, CircleTest(c)))
  {
    forall p | p in pts && CircleTest(c)(p) ensures InBox(Screen(p), CircleBox(c)) {
      CircleInsideBox(Screen(p), c);
    }
    IndexThenFilter(pts, CircleBox(c), candidates, CircleTest(c));
  }

  /** Lasso through the grid of the polygon's bounding box equals the polygon test
      over every point. */
  lemma PolygonViaGrid(pts: seq<DataPoint>, poly: seq<Vec>, candidates: seq<DataPoint>)
    requires poly != []
    requires multiset(candidates) == multiset(Filter(pts, InBlock(RangeOf(Bounds(poly)))))
    ensures multiset(Filter(candidates, PolygonTest(poly))) == multiset(Filter(pts, PolygonTest(poly)))
  {
    forall p | p in pts && PolygonTest(poly)(p) ensures InBox(Screen(p), Bounds(poly)) {
      InPolygonWithinBounds(Screen(p), poly);
    }
    IndexThenFilter(pts, Bounds(poly), candidates, PolygonTest(poly));
  }

  /** `candidates.filter(point => pointInPolygon([point.cx || 0, point.cy || 0], polygon))`. */
  method FilterInPolygon(candidates: seq<DataPoint>, polygon: seq<Vec>) returns (kept: seq<DataPoint>)
    ensures kept == Filter(candidates, PolygonTest(polygon))
  {
    kept := [];
    var i := 0;
    while i < |candidates|
      invariant 0 <= i <= |candidates|
      invariant kept == Filter(candidates[..i], PolygonTest(polygon))
    {
      assert candidates[..i + 1][..i] == candidates[..i];
      var inside := PointInPolygon(Screen(candidates[i]), polygon);
      if inside {
        kept := kept + [candidates[i]];
      }
      i := i + 1;
    }
    assert candidates[..|candidates|] == candidates;
  }

  /** The inclusive bounding-box test on a point's screen position. */
  function BoxTest(b: Box): DataPoint -> bool {
    p => InBox(Screen(p), b)
  }

  /** The pixel selections' lasso test: inside the polygon's bounding box, then inside
      the polygon. */
  function LassoTest(poly: seq<Vec>): DataPoint -> bool
    requires poly != []
  {
    Both(BoxTest(Bounds(poly)), PolygonTest(poly))
  }

  /** The bounding-box pre-test changes nothing: the lasso test keeps exactly what the
      polygon test keeps. */
  lemma LassoPrefilter(s: seq<DataPoint>, poly: seq<Vec>)
    requires poly != []
    ensures Filter(s, LassoTest(poly)) == Filter(s, PolygonTest(poly))
  {
    forall p | p in s ensures LassoTest(poly)(p) == PolygonTest(poly)(p) {
      if PolygonTest(poly)(p) {
        InPolygonWithinBounds(Screen(p), poly);
      }
    }
    FilterExt(s, LassoTest(poly), PolygonTest(poly));
  }

  /** A lasso walked through the grid cells of its bounding box selects, up to order,
      what the polygon test selects over every indexed point. */
  lemma LassoViaGrid(pts: seq<DataPoint>, poly: seq<Vec>, candidates: seq<DataPoint>)
    requires poly != []
    requires multiset(candidates) == multiset(Filter(pts, InBlock(RangeOf(Bounds(poly)))))
    ensures multiset(Filter(candidates, LassoTest(poly))) == multiset(Filter(pts, PolygonTest(poly)))
  {
    IndexThenFilter(pts, Bounds(poly), candidates, LassoTest(poly));
    LassoPrefilter(pts, poly);
  }

  /** An indexed `for` loop pushing every point that passes the test. */
  method SelectWhere(data: seq<DataPoint>, keep: DataPoint -> bool) returns (selected: seq<DataPoint>)
    ensures selected == Filter(data, keep)
  {
    selected := [];
    for i := 0 to |data|
      invariant selected == Filter(data[..i], keep)
    {
      assert data[..i + 1][..i] == data[..i];
      if keep(data[i]) {
        selected := selected + [data[i]];
      }
    }
    assert data[..|data|] == data;
  }

  /** The brute-force lasso loop: the bounding-box test, then `isPointInPolygon`. */
  method SelectInLasso(data: seq<DataPoint>, poly: seq<Vec>) returns (selected: seq<DataPoint>)
    requires poly != []
    ensures selected == Filter(data, LassoTest(poly))
  {
    var bounds := Bounds(poly);
    selected := [];
    ghost var test := LassoTest(poly);
    for i := 0 to |data|
      invariant selected == Filter(data[..i], test)
    {
      FilterPrefix(data, i, test);
      var point := Screen(data[i]);
      ghost var keeps := test(data[i]);
      assert keeps == (InBox(point, bounds) && InPolygon(point, poly));
      if InBox(point, bounds) {
        var inside := PointInPolygon(point, poly);
        if inside {
          selected := selected + [data[i]];
        }
      }
    }
    assert data[..|data|] == data;
  }

  // ---------------------------------------------------------------------------
  // The lasso vertex list of the mouse-move handlers

  /** One lasso mouse move: drop the closing vertex when there is more than one
      vertex, append the new point, then close the loop with a copy of the first
      vertex when there is more than one. */
  function CloseAfterMove(pts: seq<Vec>, p: Vec): (r: seq<Vec>)
    ensures pts == [] ==> r == [p]
    ensures pts != [] ==> |r| == (if |pts| > 1 then |pts| else 2) + 1
    ensures pts != [] ==> r[0] == pts[0] && r[|r| - 1] == pts[0] && r[|r| - 2] == p
  {
    var updated := if |pts| > 1 then pts[..|pts| - 1] else pts;
    var newPoints := updated + [p];
    if |newPoints| > 1 then newPoints + [newPoints[0]] else newPoints
  }

  /** The closed lasso after the moves `ps`, starting from `start`. */
  function ClosedAfterMoves(start: seq<Vec>, ps: seq<Vec>): seq<Vec> {
    if ps == [] then start
    else CloseAfterMove(ClosedAfterMoves(start, ps[..|ps| - 1]), ps[|ps| - 1])
  }

  /** Keeping the closed list (as the original and grid-optimised lassos do), the
      lasso after a mouse-down at `d` and moves `ps` is `d`, the moves, and the
      closing copy of `d`. */
  lemma {:induction false} ClosedLassoGrows(d: Vec, ps: seq<Vec>)
    requires ps != []
    ensures ClosedAfterMoves([d], ps) == [d] + ps + [d]
  {
    var init, p := ps[..|ps| - 1], ps[|ps| - 1];
    if init == [] {
      assert ps == [p];
    } else {
      ClosedLassoGrows(d, init);
      var before := [d] + init + [d];
      assert before[..|before| - 1] == [d] + init;
      assert ps == init + [p];
    }
  }

  /** `lassoPointsRef.current = newPoints.slice(0, -1)`: the ref keeps the closed list
      without its closing vertex. */
  function RefAfterMove(ref: seq<Vec>, p: Vec): seq<Vec> {
    var closed := CloseAfterMove(ref, p);
    closed[..|closed| - 1]
  }

  /** Keeping only the ref (as the simple, instant and worker lassos do), the next
      move replaces the last vertex instead of adding one: an empty ref stays empty
      and a non-empty ref becomes its first vertex followed by the new point, so the
      ref never holds more than two vertices. */
  lemma RefAfterMoveShape(ref: seq<Vec>, p: Vec)
    requires |ref| <= 2
    ensures ref == [] ==> RefAfterMove(ref, p) == []
    ensures ref != [] ==> RefAfterMove(ref, p) == [ref[0], p]
  {
  }

  function RefAfterMoves(ref: seq<Vec>, ps: seq<Vec>): seq<Vec> {
    if ps == [] then ref
    else RefAfterMove(RefAfterMoves(ref, ps[..|ps| - 1]), ps[|ps| - 1])
  }

  /** After a mouse-down at `d` and any moves, the ref is `[d]` or `[d, latest]`. */
  lemma {:induction false} RefAfterMovesShape(d: Vec, ps: seq<Vec>)
    ensures RefAfterMoves([d], ps) == if ps == [] then [d] else [d, ps[|ps| - 1]]
  {
    if ps != [] {
      RefAfterMovesShape(d, ps[..|ps| - 1]);
      RefAfterMoveShape(RefAfterMoves([d], ps[..|ps| - 1]), ps[|ps| - 1]);
    }
  }

  /** The 2-pixel movement threshold of the instant and worker lassos. */
  predicate MovedEnough(last: Vec, p: Vec) {
    p.x - last.x > 2.0 || last.x - p.x > 2.0 || p.y - last.y > 2.0 || last.y - p.y > 2.0
  }
}
