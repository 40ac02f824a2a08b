/** `PixelSelectionFast`: the same canvas selection without an index; every gesture
    scans all the data in order, which makes it the reference the grid-walking
    variants are compared with. */
module PixelSelectionFast {
  import opened Common
  import opened Geometry
  import opened Selection

  /** What a mouse-up hands to `onSelection`: nothing without both points; otherwise
      the data points, in data order, that the mode's exact test accepts. */
  predicate ScanSelects(data: seq<DataPoint>, mode: SelectionMode, start: Option<Vec>,
                        current: Option<Vec>, lassoPoints: seq<Vec>, root: real,
                        result: Option<seq<DataPoint>>)
  {
    if start.None? || current.None? then result == None
    else
      result.Some? &&
      match mode
      case RectangleMode =>
        result.value == Filter(data, RectTest(Rect(start.value.x, start.value.y, current.value.x, current.value.y)))
      case CircleMode =>
        result.value == Filter(data, CircleTest(Circle(start.value, root)))
      case LassoMode =>
        result.value == if |lassoPoints| > 2 then Filter(data, PolygonTest(lassoPoints)) else []
  }

  class FastSelector {
    const mode: SelectionMode
    const data: seq<DataPoint>
    var isSelecting: bool
    var startPoint: Option<Vec>
    var currentPoint: Option<Vec>
    var lassoPoints: seq<Vec>

    constructor (data: seq<DataPoint>, mode: SelectionMode)
      ensures this.data == data && this.mode == mode
      ensures !isSelecting && startPoint == None && currentPoint == None && lassoPoints == []
    {
      this.mode := mode;
      this.data := data;
      isSelecting := false;
      startPoint := None;
      currentPoint := None;
      lassoPoints := [];
    }

    /** `performSelection`: one indexed loop over the data per mode. */
    method PerformSelection(root: real) returns (result: Option<seq<DataPoint>>)
      requires mode == CircleMode && startPoint.Some? && currentPoint.Some? ==>
        IsSqrt(root, Dist2(currentPoint.value, startPoint.value))
      ensures ScanSelects(data, mode, startPoint, currentPoint, lassoPoints, root, result)
    {
      if startPoint.None? || currentPoint.None? {
        return None;
      }
      var start, current := startPoint.value, currentPoint.value;
      var selected := [];
      if mode == RectangleMode {
        selected := SelectWhere(data, RectTest(Rect(start.x, start.y, current.x, current.y)));
      } else if mode == CircleMode {
        selected := SelectWhere(data, CircleTest(Circle(start, root)));
      } else if |lassoPoints| > 2 {
        selected := SelectInLasso(data, lassoPoints);
        LassoPrefilter(data, lassoPoints);
      }
      result := Some(selected);
    }

    /** `handleMouseDown`: with a canvas point, starts a gesture at it. */
    method MouseDown(point: Option<Vec>)
      modifies this
      ensures point.None? ==>
        isSelecting == old(isSelecting) && startPoint == old(startPoint) &&
        currentPoint == old(currentPoint) && lassoPoints == old(lassoPoints)
      ensures point.Some? ==>
        isSelecting && startPoint == point && currentPoint == point &&
        lassoPoints == (if mode == LassoMode then [point.value] else old(lassoPoints))
    {
      if point.None? {
        return;
      }
      isSelecting := true;
      startPoint := point;
      currentPoint := point;
      if mode == LassoMode {
        lassoPoints := [point.value];
      }
    }

    /** `handleMouseMove`: while selecting, the point becomes the current point and,
        in lasso mode, is appended to the lasso unconditionally. */
    method MouseMove(point: Option<Vec>)
      modifies this
      ensures isSelecting == old(isSelecting) && startPoint == old(startPoint)
      ensures currentPoint == if point.Some? && isSelecting then point else old(currentPoint)
      ensures lassoPoints ==
        if point.Some? && isSelecting && mode == LassoMode then old(lassoPoints) + [point.value]
        else old(lassoPoints)
    {
      if point.None? {
        return;
      }
      if isSelecting {
        currentPoint := point;
        if mode == LassoMode {
          lassoPoints := lassoPoints + [point.value];
        }
      }
    }

    /** `handleMouseUp`: no-op unless selecting; otherwise selects, then resets. */
    method MouseUp(root: real) returns (result: Option<seq<DataPoint>>)
      requires isSelecting && mode == CircleMode && startPoint.Some? && currentPoint.Some? ==>
        IsSqrt(root, Dist2(currentPoint.value, startPoint.value))
      modifies this
      ensures !old(isSelecting) ==>
        result == None && !isSelecting && startPoint == old(startPoint) &&
        currentPoint == old(currentPoint) && lassoPoints == old(lassoPoints)
      ensures old(isSelecting) ==>
        ScanSelects(data, mode, old(startPoint), old(currentPoint), old(lassoPoints), root, result)
      ensures old(isSelecting) ==>
        !isSelecting && startPoint == None && currentPoint == None && lassoPoints == []
    {
      if !isSelecting {
        return None;
      }
      result := PerformSelection(root);
      isSelecting := false;
      startPoint := None;
      currentPoint := None;
      lassoPoints := [];
    }

    /** `handleMouseLeave`: a mouse-up while selecting, nothing otherwise. */
    method MouseLeave(root: real) returns (result: Option<seq<DataPoint>>)
      requires isSelecting && mode == CircleMode && startPoint.Some? && currentPoint.Some? ==>
        IsSqrt(root, Dist2(currentPoint.value, startPoint.value))
      modifies this
      ensures !old(isSelecting) ==>
        result == None && !isSelecting && startPoint == old(startPoint) &&
        currentPoint == old(currentPoint) && lassoPoints == old(lassoPoints)
      ensures old(isSelecting) ==>
        ScanSelects(data, mode, old(startPoint), old(currentPoint), old(lassoPoints), root, result)
      ensures old(isSelecting) ==>
        !isSelecting && startPoint == None && currentPoint == None && lassoPoints == []
    {
      result := None;
      if isSelecting {
        result := MouseUp(root);
      }
    }
  }
}
