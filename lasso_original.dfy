/** `useLasso`, the original lasso hook: it keeps a closed vertex list, and on mouse-up
    pre-filters every data point by the lasso's bounding box before d3's
    `polygonContains` (an outside library, given here as the parameter `contains`). */
module LassoOriginal {
  import opened Common
  import opened Geometry
  import opened Selection

  /** `d.cx || xScale(d.x)`, `d.cy || yScale(d.y)`. */
  function PlotPosition(d: DataPoint, xScale: real -> real, yScale: real -> real): Vec {
    Screen(Precompute(d, xScale, yScale))
  }

  /** The vertices the selection uses: the closing copy is dropped only when the list
      has more than two entries. */
  function SelectionPoints(lassoPoints: seq<Vec>): seq<Vec> {
    if |lassoPoints| > 2 then lassoPoints[..|lassoPoints| - 1] else lassoPoints
  }

  /** After a mouse-down at `d` and moves `ps`, the polygon tested is exactly the down
      point followed by the moves. */
  lemma SelectionPolygon(d: Vec, ps: seq<Vec>)
    ensures SelectionPoints(ClosedAfterMoves([d], ps)) == [d] + ps
  {
    if ps != [] {
      ClosedLassoGrows(d, ps);
      assert ([d] + ps + [d])[..|ps| + 1] == [d] + ps;
    }
  }

  class OriginalLasso {
    const data: seq<DataPoint>
    const xScale: real -> real
    const yScale: real -> real
    const contains: (seq<Vec>, Vec) -> bool
    var active: bool
    var lassoPoints: seq<Vec>

    function BoxTest(b: Box): DataPoint -> bool
      reads this
    {
      d => InBox(PlotPosition(d, xScale, yScale), b)
    }

    function ContainsTest(poly: seq<Vec>): DataPoint -> bool
      reads this
    {
      d => contains(poly, PlotPosition(d, xScale, yScale))
    }

    constructor (data: seq<DataPoint>, xScale: real -> real, yScale: real -> real,
                 contains: (seq<Vec>, Vec) -> bool)
      ensures this.data == data && this.xScale == xScale && this.yScale == yScale
      ensures this.contains == contains && !active && lassoPoints == []
    {
      this.data := data;
      this.xScale := xScale;
      this.yScale := yScale;
      this.contains := contains;
      active := false;
      lassoPoints := [];
    }

    /** `handleMouseDown`: activates the gesture with the lasso `[point]`. */
    method MouseDown(p: Vec)
      modifies this
      ensures active && lassoPoints == [p]
    {
      active := true;
      lassoPoints := [p];
    }

    /** `handleMouseMove`: no-op while inactive; otherwise inserts the point before the
        closing copy of the first vertex. */
    method MouseMove(p: Vec)
      modifies this
      ensures active == old(active)
      ensures lassoPoints == if active then CloseAfterMove(old(lassoPoints), p) else old(lassoPoints)
    {
      if !active {
        return;
      }
      lassoPoints := CloseAfterMove(lassoPoints, p);
    }

    /** `handleMouseUp`: an empty lasso (as after a mouse-up with no gesture) emits
        `[]`; otherwise the candidates are exactly the data points inside the inclusive
        bounding box, and the selection is, in data order, the candidates `contains`
        accepts. The lasso is cleared either way. */
    method MouseUp() returns (selected: seq<DataPoint>)
      modifies this
      ensures !active && lassoPoints == []
      ensures old(lassoPoints) == [] ==> selected == []
      ensures old(lassoPoints) != [] ==>
        var poly := SelectionPoints(old(lassoPoints));
        selected == Filter(data, Both(BoxTest(Bounds(poly)), ContainsTest(poly)))
    {
      active := false;
      var selectionPoints := SelectionPoints(lassoPoints);
      var bbox := BoundingBox(selectionPoints);
      if bbox.None? {
        selected := [];
        lassoPoints := [];
        return;
      }
      var candidates := Filter(data, BoxTest(bbox.value));
      selected := Filter(candidates, ContainsTest(selectionPoints));
      FilterFilter(data, BoxTest(bbox.value), ContainsTest(selectionPoints));
      lassoPoints := [];
    }
  }
}
