/** The Web Worker selection path: the worker script, which owns a grid index and
    answers one message at a time, and `useLassoWorker`, the hook that posts the
    queries to it and hands the worker's results to `onSelection`. */
module LassoWorker {
  import opened Common
  import opened Geometry
  import opened SpatialGrid
  import opened Selection
  import opened LassoInstant

  /** The messages the hook posts (`{ type, data }`). */
  datatype Request =
    | InitData(points: seq<DataPoint>)
    | SelectRectangle(rect: Rect)
    | SelectCircle(circle: Circle)
    | SelectLasso(polygon: seq<Vec>)
    | UnknownRequest

  /** The messages the worker posts back. */
  datatype Reply = InitComplete | SelectionResult(selected: seq<DataPoint>)

  /** The worker script: `spatialIndex` starts out `null` and is replaced by a fresh
      index on every `INIT_DATA`. */
  class SelectionWorker {
    var spatialIndex: GridIndex?

    ghost predicate Valid()
      reads this, spatialIndex
    {
      spatialIndex != null ==> spatialIndex.Valid()
    }

    constructor ()
      ensures Valid() && spatialIndex == null
    {
      spatialIndex := null;
    }

    /** `self.onmessage`: `INIT_DATA` rebuilds the index and always answers
        `INIT_COMPLETE`; a query before any `INIT_DATA`, a lasso of fewer than three
        vertices and an unknown type get no answer; otherwise the answer holds, up to
        order, exactly the indexed points the exact test accepts (for the circle,
        whenever its radius is not negative). */
    method OnMessage(request: Request) returns (reply: Option<Reply>)
      requires Valid()
      modifies this
      ensures Valid()
      ensures request.InitData? ==>
        spatialIndex != null && fresh(spatialIndex) && spatialIndex.points == request.points &&
        reply == Some(InitComplete)
      ensures !request.InitData? ==> spatialIndex == old(spatialIndex)
      ensures request.UnknownRequest? ==> reply == None
      ensures request.SelectRectangle? ==>
        if spatialIndex == null then reply == None
        else (reply.Some? && reply.value.SelectionResult? &&
              multiset(reply.value.selected) == multiset(Filter(spatialIndex.points, RectTest(request.rect))))
      ensures request.SelectCircle? ==>
        if spatialIndex == null then reply == None
        else (reply.Some? && reply.value.SelectionResult? &&
              (request.circle.radius >= 0.0 ==>
                multiset(reply.value.selected) == multiset(Filter(spatialIndex.points, CircleTest(request.circle)))))
      ensures request.SelectLasso? ==>
        if spatialIndex == null || |request.polygon| < 3 then reply == None
        else (reply.Some? && reply.value.SelectionResult? &&
              multiset(reply.value.selected) == multiset(Filter(spatialIndex.points, PolygonTest(request.polygon))))
    {
      reply := None;
      match request {
        case InitData(points) =>
          var index := new GridIndex();
          index.Build(points);
          spatialIndex := index;
          reply := Some(InitComplete);
        case SelectRectangle(r) =>
          if spatialIndex != null {
            var candidates := spatialIndex.Search(RectBox(r));
            RectViaGrid(spatialIndex.points, r, candidates);
            reply := Some(SelectionResult(Filter(candidates, RectTest(r))));
          }
        case SelectCircle(c) =>
          if spatialIndex != null {
            var candidates := spatialIndex.Search(CircleBox(c));
            if c.radius >= 0.0 {
              CircleViaGrid(spatialIndex.points, c, candidates);
            }
            reply := Some(SelectionResult(Filter(candidates, CircleTest(c))));
          }
        case SelectLasso(polygon) =>
          if spatialIndex != null && |polygon| >= 3 {
            var candidates := spatialIndex.Search(Bounds(polygon));
            var selected := FilterInPolygon(candidates, polygon);
            PolygonViaGrid(spatialIndex.points, polygon, candidates);
            reply := Some(SelectionResult(selected));
          }
        case UnknownRequest =>
      }
    }
  }

  /** The data effect: `INIT_DATA` with the precomputed points is posted only when a
      worker exists and the data is not empty. */
  function InitMessage(hasWorker: bool, data: seq<DataPoint>, xScale: real -> real, yScale: real -> real)
    : (r: Option<Request>)
    ensures r.Some? <==> hasWorker && data != []
    ensures r.Some? ==>
      r.value.InitData? && |r.value.points| == |data| &&
      forall i :: 0 <= i < |data| ==> r.value.points[i] == Precompute(data[i], xScale, yScale)
  {
    if !hasWorker || data == [] then None
    else Some(InitData(Precomputed(data, xScale, yScale)))
  }

  /** The hook's `onmessage`: only a `SELECTION_RESULT` reaches `onSelection`. */
  function Delivered(reply: Reply): (r: Option<seq<DataPoint>>)
    ensures r.Some? <==> reply.SelectionResult?
    ensures reply.SelectionResult? ==> r.value == reply.selected
  {
    match reply
    case InitComplete => None
    case SelectionResult(selected) => Some(selected)
  }

  /** `useLassoWorker`: the gesture state of the hook; `hasWorker` is whether
      `workerRef.current` is set. */
  class WorkerLasso {
    const mode: SelectionMode
    const hasWorker: bool
    var active: bool
    var lassoPoints: seq<Vec>
    var rect: Option<Rect>
    var circle: Option<Circle>
    var lassoRef: seq<Vec>

    /** The ref the move handler keeps never exceeds two vertices. */
    ghost predicate Valid()
      reads this
    {
      |lassoRef| <= 2
    }

    constructor (mode: SelectionMode, hasWorker: bool)
      ensures Valid() && this.mode == mode && this.hasWorker == hasWorker
      ensures !active && lassoPoints == [] && lassoRef == [] && rect == None && circle == None
    {
      this.mode := mode;
      this.hasWorker := hasWorker;
      active := false;
      lassoPoints := [];
      rect := None;
      circle := None;
      lassoRef := [];
    }

    /** `handleMouseDown`. */
    method MouseDown(p: Vec)
      requires Valid()
      modifies this
      ensures Valid() && active
      ensures rect == if mode == RectangleMode then Some(Rect(p.x, p.y, p.x, p.y)) else old(rect)
      ensures circle == if mode == CircleMode then Some(Circle(p, 0.0)) else old(circle)
      ensures lassoPoints == if mode == LassoMode then [p] else old(lassoPoints)
      ensures lassoRef == if mode == LassoMode then [p] else old(lassoRef)
    {
      active := true;
      if mode == RectangleMode {
        rect := Some(Rect(p.x, p.y, p.x, p.y));
      } else if mode == CircleMode {
        circle := Some(Circle(p, 0.0));
      } else {
        lassoPoints := [p];
        lassoRef := [p];
      }
    }

    /** `handleMouseMove`: as in the instant hook, a lasso move past the 2-pixel
        threshold replaces the ref by its first vertex and the new point. */
    method MouseMove(p: Vec, root: real)
      requires Valid()
      requires active && mode == CircleMode && circle.Some? ==> IsSqrt(root, Dist2(p, circle.value.center))
      modifies this
      ensures Valid() && active == old(active)
      ensures rect ==
        if active && mode == RectangleMode && old(rect).Some? then Some(old(rect).value.(x2 := p.x, y2 := p.y))
        else old(rect)
      ensures circle ==
        if active && mode == CircleMode && old(circle).Some? then Some(old(circle).value.(radius := root))
        else old(circle)
      ensures lassoRef ==
        if active && mode == LassoMode && Retained(old(lassoRef), p) then RefAfterMove(old(lassoRef), p)
        else old(lassoRef)
      ensures lassoPoints ==
        if active && mode == LassoMode && Retained(old(lassoRef), p) then CloseAfterMove(old(lassoRef), p)
        else old(lassoPoints)
    {
      if !active {
        return;
      }
      if mode == RectangleMode && rect.Some? {
        rect := Some(rect.value.(x2 := p.x, y2 := p.y));
      } else if mode == CircleMode && circle.Some? {
        circle := Some(circle.value.(radius := root));
      } else if mode == LassoMode {
        if lassoRef == [] || MovedEnough(lassoRef[|lassoRef| - 1], p) {
          RefAfterMoveShape(lassoRef, p);
          var newPoints := CloseAfterMove(lassoRef, p);
          lassoPoints := newPoints;
          lassoRef := newPoints[..|newPoints| - 1];
        }
      }
    }

    /** `performSelection`: the message posted, if any. Without a worker nothing is
        posted; a lasso is posted only when its ref has more than two vertices, so it
        always meets the worker's three-vertex minimum. */
    method PerformSelection() returns (request: Option<Request>)
      ensures !hasWorker ==> request == None
      ensures request.Some? ==>
        (request.value.SelectRectangle? && mode == RectangleMode && rect == Some(request.value.rect)) ||
        (request.value.SelectCircle? && mode == CircleMode && circle == Some(request.value.circle)) ||
        (request.value.SelectLasso? && mode == LassoMode && request.value.polygon == lassoRef &&
         |lassoRef| >= 3)
      ensures hasWorker && mode == RectangleMode && rect.Some? ==> request.Some?
      ensures hasWorker && mode == CircleMode && circle.Some? ==> request.Some?
      ensures hasWorker && mode == LassoMode && |lassoRef| > 2 ==> request.Some?
    {
      request := None;
      if !hasWorker {
        return;
      }
      if mode == RectangleMode && rect.Some? {
        request := Some(SelectRectangle(rect.value));
      } else if mode == CircleMode && circle.Some? {
        request := Some(SelectCircle(circle.value));
      } else if mode == LassoMode && |lassoRef| > 2 {
        request := Some(SelectLasso(lassoRef));
      }
    }

    /** `handleMouseUp`: posts the query, then clears the gesture. Because the ref
        never holds more than two vertices, a lasso gesture never posts a query. */
    method MouseUp() returns (request: Option<Request>)
      requires Valid()
      modifies this
      ensures Valid() && !active
      ensures mode == LassoMode ==> request == None
      ensures mode == RectangleMode ==> request == if hasWorker && old(rect).Some? then Some(SelectRectangle(old(rect).value)) else None
      ensures mode == CircleMode ==> request == if hasWorker && old(circle).Some? then Some(SelectCircle(old(circle).value)) else None
      ensures lassoPoints == [] && rect == None && circle == None && lassoRef == []
    {
      request := PerformSelection();
      active := false;
      lassoPoints := [];
      rect := None;
      circle := None;
      lassoRef := [];
    }
  }
}
