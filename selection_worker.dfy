/** The brute-force selection worker: each message carries the points and the gesture
    corners, and is answered with the points, in input order, that lie in the
    rectangle or circle, compared on their data coordinates. */
module SelectionWorker {
  import opened Common
  import opened Geometry

  /** The worker's `Point`. */
  datatype Point = Point(x: real, y: real, index: string, score: real)

  function Position(p: Point): Vec {
    Vec(p.x, p.y)
  }

  datatype SelectionKind = RectangleSelection | CircleSelection | OtherSelection

  /** The gesture `{ startX, startY, endX, endY }`. */
  datatype Corners = Corners(startX: real, startY: real, endX: real, endY: real)

  datatype SelectionMessage = SelectionMessage(kind: SelectionKind, points: seq<Point>, bounds: Corners)

  function Start(b: Corners): Vec { Vec(b.startX, b.startY) }
  function End(b: Corners): Vec { Vec(b.endX, b.endY) }

  /** The rectangle between the corners, inclusive. */
  function RectangleKeeps(b: Corners): Point -> bool {
    p => InRect(Position(p), Rect(b.startX, b.startY, b.endX, b.endY))
  }

  /** Within the circle around the start corner through the end corner, compared on
      squared distances (see `DistanceTest`). */
  function CircleKeeps(b: Corners): Point -> bool {
    p => Dist2(Position(p), Start(b)) <= Dist2(End(b), Start(b))
  }

  /** The worker compares `Math.sqrt` distances; whatever the square roots are, that
      comparison agrees with the squared one the model uses. */
  lemma DistanceTest(b: Corners, p: Point, distance: real, radius: real)
    requires IsSqrt(distance, Dist2(Position(p), Start(b)))
    requires IsSqrt(radius, Dist2(End(b), Start(b)))
    ensures (distance <= radius) == CircleKeeps(b)(p)
  {
    SqrtComparison(distance, Dist2(Position(p), Start(b)), radius, Dist2(End(b), Start(b)));
  }

  /** `self.onmessage`: one reply per message, holding a subsequence of the points,
      in their order and with their repetitions: the points inside the rectangle, the
      points inside the circle, or none for any other type. */
  function OnMessage(msg: SelectionMessage): (selectedPoints: seq<Point>)
    ensures |selectedPoints| <= |msg.points|
    ensures forall p :: p in selectedPoints ==> p in msg.points
    ensures msg.kind == RectangleSelection ==>
      forall p :: p in selectedPoints <==>
        p in msg.points &&
        Min(msg.bounds.startX, msg.bounds.endX) <= p.x <= Max(msg.bounds.startX, msg.bounds.endX) &&
        Min(msg.bounds.startY, msg.bounds.endY) <= p.y <= Max(msg.bounds.startY, msg.bounds.endY)
    ensures msg.kind == CircleSelection ==>
      forall p :: p in selectedPoints <==>
        p in msg.points && Dist2(Position(p), Start(msg.bounds)) <= Dist2(End(msg.bounds), Start(msg.bounds))
    ensures msg.kind == OtherSelection ==> selectedPoints == []
    ensures msg.kind == RectangleSelection ==> selectedPoints == Filter(msg.points, RectangleKeeps(msg.bounds))
    ensures msg.kind == CircleSelection ==> selectedPoints == Filter(msg.points, CircleKeeps(msg.bounds))
  {
    match msg.kind
    case RectangleSelection => Filter(msg.points, RectangleKeeps(msg.bounds))
    case CircleSelection => Filter(msg.points, CircleKeeps(msg.bounds))
    case OtherSelection => []
  }

  /** Swapping the start and end corners does not change a rectangle selection. */
  lemma RectangleCornerOrder(points: seq<Point>, b: Corners)
    ensures OnMessage(SelectionMessage(RectangleSelection, points, b)) ==
            OnMessage(SelectionMessage(RectangleSelection, points, Corners(b.endX, b.endY, b.startX, b.startY)))
  {
    forall p | p in points
      ensures RectangleKeeps(b)(p) == RectangleKeeps(Corners(b.endX, b.endY, b.startX, b.startY))(p)
    {
      RectBetween(Position(p), Rect(b.startX, b.startY, b.endX, b.endY));
    }
    FilterExt(points, RectangleKeeps(b), RectangleKeeps(Corners(b.endX, b.endY, b.startX, b.startY)));
  }
}
