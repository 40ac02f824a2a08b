/** The exact containment predicates of the selection engine: the inclusive
    rectangle, the inclusive circle (squared distances) and the even-odd ray-casting
    polygon test, with the bounding box the gestures query the grid with. */
module Geometry {
  import opened Common

  /** A rectangle given by two opposite corners in either order. */
  datatype Rect = Rect(x1: real, y1: real, x2: real, y2: real)

  datatype Circle = Circle(center: Vec, radius: real)

  /** Axis-aligned query bounds `{ minX, maxX, minY, maxY }`. */
  datatype Box = Box(minX: real, maxX: real, minY: real, maxY: real)

  predicate InBox(p: Vec, b: Box) {
    p.x >= b.minX && p.x <= b.maxX && p.y >= b.minY && p.y <= b.maxY
  }

  /** The bounds `Math.min/Math.max` of the two corners. */
  function RectBox(r: Rect): Box {
    Box(Min(r.x1, r.x2), Max(r.x1, r.x2), Min(r.y1, r.y2), Max(r.y1, r.y2))
  }

  /** `isPointInRectangle`: inclusive test against the normalised corners. */
  predicate InRect(p: Vec, r: Rect) {
    InBox(p, RectBox(r))
  }

  /** The rectangle test is a betweenness test on each axis, so the order in which
      the corners were given does not matter. */
  lemma RectBetween(p: Vec, r: Rect)
    ensures InRect(p, r) <==>
      ((r.x1 <= p.x <= r.x2 || r.x2 <= p.x <= r.x1) &&
       (r.y1 <= p.y <= r.y2 || r.y2 <= p.y <= r.y1))
    ensures InRect(p, r) == InRect(p, Rect(r.x2, r.y2, r.x1, r.y1))
    ensures InRect(p, r) == InRect(p, Rect(r.x1, r.y2, r.x2, r.y1))
  {
  }

  /** `isPointInCircle`: inclusive squared-distance test. */
  predicate InCircle(p: Vec, center: Vec, radius: real) {
    (p.x - center.x) * (p.x - center.x) + (p.y - center.y) * (p.y - center.y) <= radius * radius
  }

  /** The query bounds of a circle: its centre plus or minus the radius. */
  function CircleBox(c: Circle): Box {
    Box(c.center.x - c.radius, c.center.x + c.radius,
        c.center.y - c.radius, c.center.y + c.radius)
  }

  lemma PositiveProduct(a: real, b: real)
    requires a > 0.0 && b > 0.0
    ensures a * b > 0.0
  {
  }

  lemma SquareBound(d: real, r: real)
    requires r >= 0.0 && d * d <= r * r
    ensures -r <= d <= r
  {
    assert (d - r) * (d + r) == d * d - r * r;
    if d > r {
      PositiveProduct(d - r, d + r);
      assert false;
    }
    if d < -r {
      PositiveProduct(r - d, -r - d);
      assert false;
    }
  }

  lemma MulMonotone(a: real, b: real, c: real)
    requires a >= 0.0 && b <= c
    ensures a * b <= a * c
  {
    assert a * c - a * b == a * (c - b);
  }

  /** Comparing two distances is comparing their squares: `Math.sqrt` is monotone on
      non-negative arguments. */
  lemma SqrtComparison(d: real, sq: real, r: real, rsq: real)
    requires IsSqrt(d, sq) && IsSqrt(r, rsq)
    ensures d <= r <==> sq <= rsq
  {
    if d <= r {
      MulMonotone(d, d, r);
      MulMonotone(r, d, r);
    } else if sq <= rsq {
      SquareBound(d, r);
      assert false;
    }
  }

  /** With a non-negative radius the circle lies inside its query bounds, which is
      why searching the grid with those bounds loses no point of the circle. */
  lemma CircleInsideBox(p: Vec, c: Circle)
    requires c.radius >= 0.0 && InCircle(p, c.center, c.radius)
    ensures InBox(p, CircleBox(c))
  {
    var dx, dy := p.x - c.center.x, p.y - c.center.y;
    assert dx * dx <= c.radius * c.radius by {
      assert dy * dy >= 0.0;
    }
    assert dy * dy <= c.radius * c.radius by {
      assert dx * dx >= 0.0;
    }
    SquareBound(dx, c.radius);
    SquareBound(dy, c.radius);
  }

  // ---------------------------------------------------------------------------
  // Bounding box of a vertex list (`getBoundingBox`, `Math.min(...xs)` and friends)

  function MinX(vs: seq<Vec>): (m: real)
    requires vs != []
    ensures forall i :: 0 <= i < |vs| ==> m <= vs[i].x
    ensures exists i :: 0 <= i < |vs| && m == vs[i].x
  {
    if |vs| == 1 then vs[0].x
    else
      var rest := MinX(vs[1..]);
      assert forall i :: 1 <= i < |vs| ==> vs[1..][i - 1] == vs[i];
      if vs[0].x <= rest then vs[0].x else rest
  }

  function MaxX(vs: seq<Vec>): (m: real)
    requires vs != []
    ensures forall i :: 0 <= i < |vs| ==> vs[i].x <= m
    ensures exists i :: 0 <= i < |vs| && m == vs[i].x
  {
    if |vs| == 1 then vs[0].x
    else
      var rest := MaxX(vs[1..]);
      assert forall i :: 1 <= i < |vs| ==> vs[1..][i - 1] == vs[i];
      if vs[0].x >= rest then vs[0].x else rest
  }

  function MinY(vs: seq<Vec>): (m: real)
    requires vs != []
    ensures forall i :: 0 <= i < |vs| ==> m <= vs[i].y
    ensures exists i :: 0 <= i < |vs| && m == vs[i].y
  {
    if |vs| == 1 then vs[0].y
    else
      var rest := MinY(vs[1..]);
      assert forall i :: 1 <= i < |vs| ==> vs[1..][i - 1] == vs[i];
      if vs[0].y <= rest then vs[0].y else rest
  }

  function MaxY(vs: seq<Vec>): (m: real)
    requires vs != []
    ensures forall i :: 0 <= i < |vs| ==> vs[i].y <= m
    ensures exists i :: 0 <= i < |vs| && m == vs[i].y
  {
    if |vs| == 1 then vs[0].y
    else
      var rest := MaxY(vs[1..]);
      assert forall i :: 1 <= i < |vs| ==> vs[1..][i - 1] == vs[i];
      if vs[0].y >= rest then vs[0].y else rest
  }

  /** The bounds of a non-empty vertex list. */
  function Bounds(vs: seq<Vec>): (b: Box)
    requires vs != []
    ensures forall i :: 0 <= i < |vs| ==> InBox(vs[i], b)
  {
    Box(MinX(vs), MaxX(vs), MinY(vs), MaxY(vs))
  }

  /** `getBoundingBox`: `null` for no vertices, otherwise bounds that enclose every
      vertex and whose four sides are each touched by some vertex. */
  function BoundingBox(vs: seq<Vec>): (r: Option<Box>)
    ensures r.None? <==> vs == []
    ensures r.Some? ==> forall i :: 0 <= i < |vs| ==> InBox(vs[i], r.value)
    ensures r.Some? ==>
      (exists i :: 0 <= i < |vs| && vs[i].x == r.value.minX) &&
      (exists i :: 0 <= i < |vs| && vs[i].x == r.value.maxX) &&
      (exists i :: 0 <= i < |vs| && vs[i].y == r.value.minY) &&
      (exists i :: 0 <= i < |vs| && vs[i].y == r.value.maxY)
  {
    if vs == [] then None else Some(Bounds(vs))
  }

  /** One step of a running min/max scan: each side moves out just far enough to take
      in the new vertex. */
  function Widen(b: Box, v: Vec): Box {
    Box(if v.x < b.minX then v.x else b.minX, if v.x > b.maxX then v.x else b.maxX,
        if v.y < b.minY then v.y else b.minY, if v.y > b.maxY then v.y else b.maxY)
  }

  /** Scanning the vertices in order and widening from the first vertex's point box
      yields their bounds. */
  lemma BoundsSnoc(vs: seq<Vec>, v: Vec)
    requires vs != []
    ensures Bounds(vs + [v]) == Widen(Bounds(vs), v)
  {
    var ws := vs + [v];
    assert forall i :: 0 <= i < |vs| ==> ws[i] == vs[i];
    assert ws[|vs|] == v;
    MinXSnoc(vs, v, ws);
    MaxXSnoc(vs, v, ws);
    MinYSnoc(vs, v, ws);
    MaxYSnoc(vs, v, ws);
  }

  lemma MinXSnoc(vs: seq<Vec>, v: Vec, ws: seq<Vec>)
    requires vs != [] && ws == vs + [v]
    ensures MinX(ws) == if v.x < MinX(vs) then v.x else MinX(vs)
  {
    assert forall i :: 0 <= i < |vs| ==> ws[i] == vs[i];
    var a :| 0 <= a < |vs| && vs[a].x == MinX(vs);
    assert MinX(ws) <= ws[a].x && MinX(ws) <= ws[|vs|].x;
  }

  lemma MaxXSnoc(vs: seq<Vec>, v: Vec, ws: seq<Vec>)
    requires vs != [] && ws == vs + [v]
    ensures MaxX(ws) == if v.x > MaxX(vs) then v.x else MaxX(vs)
  {
    assert forall i :: 0 <= i < |vs| ==> ws[i] == vs[i];
    var a :| 0 <= a < |vs| && vs[a].x == MaxX(vs);
    assert MaxX(ws) >= ws[a].x && MaxX(ws) >= ws[|vs|].x;
  }

  lemma MinYSnoc(vs: seq<Vec>, v: Vec, ws: seq<Vec>)
    requires vs != [] && ws == vs + [v]
    ensures MinY(ws) == if v.y < MinY(vs) then v.y else MinY(vs)
  {
    assert forall i :: 0 <= i < |vs| ==> ws[i] == vs[i];
    var a :| 0 <= a < |vs| && vs[a].y == MinY(vs);
    assert MinY(ws) <= ws[a].y && MinY(ws) <= ws[|vs|].y;
  }

  lemma MaxYSnoc(vs: seq<Vec>, v: Vec, ws: seq<Vec>)
    requires vs != [] && ws == vs + [v]
    ensures MaxY(ws) == if v.y > MaxY(vs) then v.y else MaxY(vs)
  {
    assert forall i :: 0 <= i < |vs| ==> ws[i] == vs[i];
    var a :| 0 <= a < |vs| && vs[a].y == MaxY(vs);
    assert MaxY(ws) >= ws[a].y && MaxY(ws) >= ws[|vs|].y;
  }

  // ---------------------------------------------------------------------------
  // Even-odd ray casting

  /** Index of the vertex before `i` in the implicitly closed vertex list. */
  function Prev(i: nat, n: nat): nat
    requires i < n
  {
    if i == 0 then n - 1 else i - 1
  }

  /** `yi > y`: whether a vertex lies strictly above the horizontal through `p`. */
  predicate Above(p: Vec, v: Vec) {
    v.y > p.y
  }

  /** The x-coordinate where the edge `a`-`b` meets the horizontal through `p`. */
  function Intercept(p: Vec, a: Vec, b: Vec): real
    requires a.y != b.y
  {
    (b.x - a.x) * (p.y - a.y) / (b.y - a.y) + a.x
  }

  /** `intersect`: the edge from `a` = polygon[i] to `b` = polygon[j] straddles the
      horizontal through `p` and meets it to the right of `p`. */
  predicate Crosses(p: Vec, a: Vec, b: Vec) {
    Above(p, a) != Above(p, b) && p.x < Intercept(p, a, b)
  }

  /** The value of `inside` after the first `k` iterations of the loop over edges
      `(i, i - 1 mod n)`. */
  function ParityUpTo(p: Vec, poly: seq<Vec>, k: nat): bool
    requires k <= |poly|
  {
    if k == 0 then false
    else ParityUpTo(p, poly, k - 1) != Crosses(p, poly[k - 1], poly[Prev(k - 1, |poly|)])
  }

  /** The even-odd rule over the implicitly closed polygon. */
  predicate InPolygon(p: Vec, poly: seq<Vec>) {
    ParityUpTo(p, poly, |poly|)
  }

  /** `simplePointInPolygon` / `fastPointInPolygon` / `isPointInPolygon`: the loop
      itself, proved to compute the even-odd rule. */
  method PointInPolygon(p: Vec, polygon: seq<Vec>) returns (inside: bool)
    ensures inside == InPolygon(p, polygon)
  {
    inside := false;
    var n := |polygon|;
    var i, j := 0, n - 1;
    while i < n
      invariant 0 <= i <= n
      invariant i > 0 ==> j == i - 1
      invariant i == 0 ==> j == n - 1
      invariant inside == ParityUpTo(p, polygon, i)
    {
      var yi, yj := polygon[i].y, polygon[j].y;
      var intersect := ((yi > p.y) != (yj > p.y)) && p.x < Intercept(p, polygon[i], polygon[j]);
      assert j == Prev(i, n);
      if intersect {
        inside := !inside;
      }
      j, i := i, i + 1;
    }
  }

  /** An edge and its reverse meet the horizontal at the same point. */
  lemma InterceptSymmetric(p: Vec, a: Vec, b: Vec)
    requires a.y != b.y
    ensures Intercept(p, a, b) == Intercept(p, b, a)
  {
    var d := b.y - a.y;
    var w := b.x - a.x;
    calc {
      Intercept(p, b, a);
      (a.x - b.x) * (p.y - b.y) / (a.y - b.y) + b.x;
      { assert (a.x - b.x) * (p.y - b.y) / (a.y - b.y) == w * (p.y - b.y) / d; }
      w * (p.y - b.y) / d + b.x;
      { assert w * (p.y - b.y) == w * (p.y - a.y) - w * d; }
      (w * (p.y - a.y) - w * d) / d + b.x;
      { assert (w * (p.y - a.y) - w * d) / d == w * (p.y - a.y) / d - w * d / d;
        assert w * d / d == w; }
      w * (p.y - a.y) / d - w + b.x;
      Intercept(p, a, b);
    }
  }

  /** A polygon with fewer than three vertices contains no point: with one vertex the
      only edge is degenerate, with two the edge is tested once in each direction and
      the two crossings cancel. */
  lemma DegeneratePolygonEmpty(p: Vec, poly: seq<Vec>)
    requires |poly| < 3
    ensures !InPolygon(p, poly)
  {
    if |poly| == 2 {
      var a, b := poly[0], poly[1];
      if Above(p, a) != Above(p, b) {
        InterceptSymmetric(p, a, b);
      }
      assert Crosses(p, a, b) == Crosses(p, b, a);
      assert ParityUpTo(p, poly, 1) == Crosses(p, a, b);
      assert ParityUpTo(p, poly, 2) == (Crosses(p, a, b) != Crosses(p, b, a));
    } else if |poly| == 1 {
      assert ParityUpTo(p, poly, 1) == Crosses(p, poly[0], poly[0]);
    }
  }

  /** When the edge straddles the horizontal, its intercept lies between the edge's
      end points' x-coordinates. */
  lemma InterceptBetween(p: Vec, a: Vec, b: Vec)
    requires Above(p, a) != Above(p, b)
    ensures Min(a.x, b.x) <= Intercept(p, a, b) <= Max(a.x, b.x)
  {
    var d := b.y - a.y;
    var t := (p.y - a.y) / d;
    assert 0.0 <= t <= 1.0 by {
      if a.y > p.y {
        assert d < 0.0 && p.y - a.y < 0.0 && p.y - a.y >= d;
      } else {
        assert d > 0.0 && p.y - a.y >= 0.0 && p.y - a.y < d;
      }
    }
    var w := b.x - a.x;
    assert Intercept(p, a, b) == w * t + a.x;
    if w >= 0.0 {
      assert 0.0 <= w * t <= w;
    } else {
      assert w <= w * t <= 0.0;
    }
  }

  lemma {:induction false} NoCrossingParity(p: Vec, poly: seq<Vec>, k: nat)
    requires k <= |poly|
    requires forall i :: 0 <= i < |poly| ==> !Crosses(p, poly[i], poly[Prev(i, |poly|)])
    ensures !ParityUpTo(p, poly, k)
  {
    if k > 0 {
      NoCrossingParity(p, poly, k - 1);
    }
  }

  lemma {:induction false} AllStraddlesCrossParity(p: Vec, poly: seq<Vec>, k: nat)
    requires 1 <= k <= |poly|
    requires forall i :: 0 <= i < |poly| ==>
      Crosses(p, poly[i], poly[Prev(i, |poly|)]) == (Above(p, poly[i]) != Above(p, poly[Prev(i, |poly|)]))
    ensures ParityUpTo(p, poly, k) == (Above(p, poly[k - 1]) != Above(p, poly[|poly| - 1]))
  {
    if k > 1 {
      AllStraddlesCrossParity(p, poly, k - 1);
    }
  }

  /** A point inside a polygon lies within the polygon's bounding box, so a grid query
      over that box finds every point the polygon test can accept. */
  lemma InPolygonWithinBounds(p: Vec, poly: seq<Vec>)
    requires InPolygon(p, poly)
    ensures poly != [] && InBox(p, Bounds(poly))
  {
    var n := |poly|;
    if n == 0 {
      assert false;
    }
    var b := Bounds(poly);
    if p.x >= b.maxX {
      forall i | 0 <= i < n ensures !Crosses(p, poly[i], poly[Prev(i, n)]) {
        if Above(p, poly[i]) != Above(p, poly[Prev(i, n)]) {
          InterceptBetween(p, poly[i], poly[Prev(i, n)]);
        }
      }
      NoCrossingParity(p, poly, n);
      assert false;
    }
    if p.x < b.minX {
      forall i | 0 <= i < n
        ensures Crosses(p, poly[i], poly[Prev(i, n)]) == (Above(p, poly[i]) != Above(p, poly[Prev(i, n)]))
      {
        if Above(p, poly[i]) != Above(p, poly[Prev(i, n)]) {
          InterceptBetween(p, poly[i], poly[Prev(i, n)]);
        }
      }
      AllStraddlesCrossParity(p, poly, n);
      assert false;
    }
    if p.y < b.minY || p.y > b.maxY {
      forall i | 0 <= i < n ensures !Crosses(p, poly[i], poly[Prev(i, n)]) {
        assert Above(p, poly[i]) == Above(p, poly[Prev(i, n)]);
      }
      NoCrossingParity(p, poly, n);
      assert false;
    }
  }
}
