/** The SVG scatter plot: data-only domains, wheel zoom about the mouse with its clamp,
    the auto-scaling effect, the filter that drops selected points missing from new
    data (with its message), the score-ordered selection it reports, and the fill
    rule that greys unselected points. */
module Plot {
  import opened Common
  import opened Geometry
  import opened PlotSettings
  import opened PlotCanvas
  import opened ScoreOrder

  // ---------------------------------------------------------------------------
  // Recolouring

  /** `{...point, color: colorScale(point.score)}`. */
  function Recolor(p: DataPoint, colorScale: real -> string): DataPoint {
    p.(color := Some(colorScale(p.score)))
  }

  /** `points.map(point => ({...point, color: colorScale(point.score)}))`. */
  function Recolored(points: seq<DataPoint>, colorScale: real -> string): seq<DataPoint> {
    if points == [] then [] else [Recolor(points[0], colorScale)] + Recolored(points[1..], colorScale)
  }

  /** Recolouring keeps the length and recolours every point in place. */
  lemma {:induction false} RecoloredAt(points: seq<DataPoint>, colorScale: real -> string)
    ensures |Recolored(points, colorScale)| == |points|
    ensures forall i :: 0 <= i < |points| ==> Recolored(points, colorScale)[i] == Recolor(points[i], colorScale)
  {
    if points != [] {
      RecoloredAt(points[1..], colorScale);
    }
  }

  /** The recoloured points, counted: recolouring `x` before `y` adds one copy of the
      recoloured `x`. */
  lemma {:induction false} RecoloredAppend(a: seq<DataPoint>, b: seq<DataPoint>, colorScale: real -> string)
    ensures multiset(Recolored(a + b, colorScale)) == multiset(Recolored(a, colorScale)) + multiset(Recolored(b, colorScale))
  {
    if a != [] {
      assert (a + b)[1..] == a[1..] + b;
      RecoloredAppend(a[1..], b, colorScale);
    } else {
      assert a + b == b;
    }
  }

  /** Taking one point out of a list takes its recoloured copy out of the
      recoloured list. */
  lemma RecoloredRemove(t: seq<DataPoint>, k: nat, colorScale: real -> string)
    requires k < |t|
    ensures multiset(Recolored(t, colorScale)) ==
            multiset{Recolor(t[k], colorScale)} + multiset(Recolored(t[..k] + t[k + 1..], colorScale))
  {
    var front, back := t[..k], t[k + 1..];
    assert t == front + ([t[k]] + back);
    RecoloredAppend(front, back, colorScale);
    RecoloredAppend(front, [t[k]] + back, colorScale);
    RecoloredAppend([t[k]], back, colorScale);
    assert Recolored([t[k]], colorScale) == [Recolor(t[k], colorScale)];
  }

  /** Recolouring two lists that hold the same points gives two lists that hold the
      same recoloured points: reordering before or after the `map` is the same. */
  lemma {:induction false} RecoloredPermutation(s: seq<DataPoint>, t: seq<DataPoint>, colorScale: real -> string)
    requires multiset(s) == multiset(t)
    ensures multiset(Recolored(s, colorScale)) == multiset(Recolored(t, colorScale))
  {
    if s == [] {
      assert |t| == |multiset(t)| == 0;
    } else {
      assert s[0] in multiset(t);
      var k :| 0 <= k < |t| && t[k] == s[0];
      var rest := t[..k] + t[k + 1..];
      assert multiset(s[1..]) == multiset(rest) by {
        assert t == t[..k] + ([t[k]] + t[k + 1..]);
        assert s == [s[0]] + s[1..];
        assert multiset(s[1..]) == multiset(s) - multiset{s[0]};
      }
      RecoloredPermutation(s[1..], rest, colorScale);
      RecoloredRemove(t, k, colorScale);
    }
  }

  // ---------------------------------------------------------------------------
  // Domains

  /** `xDomain`: `[0, 1]` without data, otherwise 2 beyond the extreme x coordinates. */
  function XDomain(data: seq<DataPoint>): (d: Domain)
    ensures data == [] ==> d == Domain(0.0, 1.0)
    ensures data != [] ==> d.hi - d.lo >= 4.0
    ensures forall i :: 0 <= i < |data| ==> d.lo + 2.0 <= data[i].x <= d.hi - 2.0
    ensures data != [] ==>
      (exists i :: 0 <= i < |data| && data[i].x == d.lo + 2.0) &&
      (exists i :: 0 <= i < |data| && data[i].x == d.hi - 2.0)
  {
    if data == [] then Domain(0.0, 1.0)
    else
      var ps := DataPositions(data);
      assert MinX(ps) <= ps[0].x <= MaxX(ps);
      Domain(MinX(ps) - 2.0, MaxX(ps) + 2.0)
  }

  /** `yDomain`: `[0, 1]` without data, otherwise 2 beyond the extreme y coordinates. */
  function YDomain(data: seq<DataPoint>): (d: Domain)
    ensures data == [] ==> d == Domain(0.0, 1.0)
    ensures data != [] ==> d.hi - d.lo >= 4.0
    ensures forall i :: 0 <= i < |data| ==> d.lo + 2.0 <= data[i].y <= d.hi - 2.0
    ensures data != [] ==>
      (exists i :: 0 <= i < |data| && data[i].y == d.lo + 2.0) &&
      (exists i :: 0 <= i < |data| && data[i].y == d.hi - 2.0)
  {
    if data == [] then Domain(0.0, 1.0)
    else
      var ps := DataPositions(data);
      assert MinY(ps) <= ps[0].y <= MaxY(ps);
      Domain(MinY(ps) - 2.0, MaxY(ps) + 2.0)
  }

  /** The `xDomain` memo: a scan for the least and greatest x (absent for the initial
      `Infinity` / `-Infinity`). */
  method ComputeXDomain(data: seq<DataPoint>) returns (d: Domain)
    ensures d == XDomain(data)
  {
    if |data| == 0 {
      return Domain(0.0, 1.0);
    }
    ghost var ps := DataPositions(data);
    var minX: Option<real> := None;
    var maxX: Option<real> := None;
    for i := 0 to |data|
      invariant minX.None? <==> i == 0
      invariant maxX.None? <==> i == 0
      invariant i > 0 ==> minX.value == MinX(ps[..i]) && maxX.value == MaxX(ps[..i])
    {
      assert ps[..i + 1] == ps[..i] + [ps[i]];
      if i > 0 {
        MinXSnoc(ps[..i], ps[i], ps[..i + 1]);
        MaxXSnoc(ps[..i], ps[i], ps[..i + 1]);
      }
      if minX.None? || data[i].x < minX.value {
        minX := Some(data[i].x);
      }
      if maxX.None? || data[i].x > maxX.value {
        maxX := Some(data[i].x);
      }
    }
    assert ps[..|data|] == ps;
    d := Domain(minX.value - 2.0, maxX.value + 2.0);
  }

  /** The `yDomain` memo: the same scan over y. */
  method ComputeYDomain(data: seq<DataPoint>) returns (d: Domain)
    ensures d == YDomain(data)
  {
    if |data| == 0 {
      return Domain(0.0, 1.0);
    }
    ghost var ps := DataPositions(data);
    var minY: Option<real> := None;
    var maxY: Option<real> := None;
    for i := 0 to |data|
      invariant minY.None? <==> i == 0
      invariant maxY.None? <==> i == 0
      invariant i > 0 ==> minY.value == MinY(ps[..i]) && maxY.value == MaxY(ps[..i])
    {
      assert ps[..i + 1] == ps[..i] + [ps[i]];
      if i > 0 {
        MinYSnoc(ps[..i], ps[i], ps[..i + 1]);
        MaxYSnoc(ps[..i], ps[i], ps[..i + 1]);
      }
      if minY.None? || data[i].y < minY.value {
        minY := Some(data[i].y);
      }
      if maxY.None? || data[i].y > maxY.value {
        maxY := Some(data[i].y);
      }
    }
    assert ps[..|data|] == ps;
    d := Domain(minY.value - 2.0, maxY.value + 2.0);
  }

  // ---------------------------------------------------------------------------
  // Wheel zoom

  /** The zoom step of one wheel notch. */
  const ScaleFactor: real := 1.1

  /** The new transform that keeps the data under the mouse in place at the new zoom. */
  function ZoomAbout(mouse: real, transform: real, zoom: real, newZoom: real): real
    requires zoom > 0.0
  {
    mouse - (mouse - transform) * (newZoom / zoom)
  }

  /** Zooming about the mouse keeps the mouse over the same unzoomed coordinate:
      `(mouse - transform) / zoom` does not change. */
  lemma ZoomKeepsMousePoint(mouse: real, transform: real, zoom: real, newZoom: real)
    requires zoom > 0.0 && newZoom > 0.0
    ensures (mouse - ZoomAbout(mouse, transform, zoom, newZoom)) / newZoom == (mouse - transform) / zoom
  {
    var r := newZoom / zoom;
    assert r * zoom == newZoom;
    var d := mouse - transform;
    assert mouse - ZoomAbout(mouse, transform, zoom, newZoom) == d * r;
    assert d * r / newZoom == d * r / (r * zoom);
    assert r != 0.0;
    assert d * r / (r * zoom) == d / zoom;
  }

  // ---------------------------------------------------------------------------
  // Selections that no longer match the data

  /** `new Set(data.map(d => d.index))`. */
  function Indices(data: seq<DataPoint>): (r: set<string>)
    ensures forall i :: 0 <= i < |data| ==> data[i].index in r
    ensures forall k :: k in r ==> exists i :: 0 <= i < |data| && data[i].index == k
  {
    set i | 0 <= i < |data| :: data[i].index
  }

  /** A selected point survives when some current point has its index. */
  function InData(data: seq<DataPoint>): DataPoint -> bool {
    (p: DataPoint) => p.index in Indices(data)
  }

  /** The message shown when selections are dropped. */
  datatype LostMessage = NoMessage | AllLost(count: nat) | SomeLost(count: nat)

  /** What the stale-selection effect does: nothing for empty data or when every
      selected point survives; otherwise the survivors in order, and the message
      saying all were lost or how many were. */
  datatype StaleOutcome = Unchanged | Replaced(kept: seq<DataPoint>, message: LostMessage)

  function StaleFilter(data: seq<DataPoint>, selected: seq<DataPoint>): (r: StaleOutcome)
    ensures data == [] ==> r == Unchanged
    ensures data != [] && (forall i :: 0 <= i < |selected| ==> selected[i].index in Indices(data)) ==>
      r == Unchanged
    ensures r.Replaced? ==> r.kept == Filter(selected, InData(data)) && |r.kept| < |selected|
    ensures r.Replaced? ==>
      r.message == if r.kept == [] then AllLost(|selected|) else SomeLost(|selected| - |r.kept|)
  {
    if data == [] then Unchanged
    else
      var valid := Filter(selected, InData(data));
      if |valid| == |selected| then Unchanged
      else
        FilterKeepsAllIff(selected, InData(data));
        var message :=
          if |selected| > 0 && |valid| == 0 then AllLost(|selected|)
          else if |valid| < |selected| then SomeLost(|selected| - |valid|)
          else NoMessage;
        Replaced(valid, message)
  }

  // ---------------------------------------------------------------------------
  // Fill

  /** A point's fill: from the colour scale, or gray. */
  datatype Fill = Scaled(score: real) | Gray

  /** `processedData`'s fill: everything is coloured by score when nothing is
      selected; otherwise selected indices are coloured and the rest gray. */
  function Fills(data: seq<DataPoint>, selected: seq<DataPoint>): (r: seq<Fill>)
    ensures |r| == |data|
    ensures forall i :: 0 <= i < |data| ==>
      (r[i] == Gray <==> selected != [] && data[i].index !in Indices(selected))
    ensures forall i :: 0 <= i < |data| && r[i] != Gray ==> r[i] == Scaled(data[i].score)
  {
    seq(|data|, i requires 0 <= i < |data| =>
      if |selected| > 0 then (if data[i].index in Indices(selected) then Scaled(data[i].score) else Gray)
      else Scaled(data[i].score))
  }

  // ---------------------------------------------------------------------------
  // The component

  class SvgPlot {
    const data: seq<DataPoint>
    const xDomain: Domain
    const yDomain: Domain
    var plotState: PlotState
    var zoomLevel: real
    var selectedPoints: seq<DataPoint>
    var selectionLostMessage: LostMessage

    /** Zoom stays in `(0, 1]`: the plot never zooms in past its initial view. */
    ghost predicate Valid()
      reads this
    {
      0.0 < zoomLevel <= 1.0
    }

    constructor (data: seq<DataPoint>, plotState: PlotState, selectedPoints: seq<DataPoint>)
      ensures Valid() && zoomLevel == 1.0
      ensures this.data == data && xDomain == XDomain(data) && yDomain == YDomain(data)
      ensures this.plotState == plotState && this.selectedPoints == selectedPoints
      ensures selectionLostMessage == NoMessage
    {
      var xd := ComputeXDomain(data);
      var yd := ComputeYDomain(data);
      this.data := data;
      xDomain := xd;
      yDomain := yd;
      this.plotState := plotState;
      zoomLevel := 1.0;
      this.selectedPoints := selectedPoints;
      selectionLostMessage := NoMessage;
    }

    /** `handleWheel`: inside the plot area a notch divides (scrolling down) or
        multiplies the zoom by 1.1 and moves the transforms so the point under the
        mouse stays put; a zoom past 1 is clamped to 1 with both transforms reset to
        0. Outside the area nothing changes. */
    method Wheel(mouse: Vec, areaWidth: real, areaHeight: real, deltaY: real)
      requires Valid()
      modifies this
      ensures Valid()
      ensures var inside := 0.0 <= mouse.x <= areaWidth && 0.0 <= mouse.y <= areaHeight;
        var z := if deltaY > 0.0 then old(zoomLevel) / ScaleFactor else old(zoomLevel) * ScaleFactor;
        if !inside then zoomLevel == old(zoomLevel) && plotState == old(plotState)
        else if z > 1.0 then
          zoomLevel == 1.0 && plotState == old(plotState).(transformX := 0.0, transformY := 0.0)
        else
          zoomLevel == z &&
          plotState == old(plotState).(
            transformX := ZoomAbout(mouse.x, old(plotState).transformX, old(zoomLevel), z),
            transformY := ZoomAbout(mouse.y, old(plotState).transformY, old(zoomLevel), z))
      ensures selectedPoints == old(selectedPoints) && selectionLostMessage == old(selectionLostMessage)
    {
      if 0.0 <= mouse.x && 0.0 <= mouse.y && mouse.x <= areaWidth && mouse.y <= areaHeight {
        var newZoomLevel := if deltaY > 0.0 then zoomLevel / ScaleFactor else zoomLevel * ScaleFactor;
        var newTransformX := ZoomAbout(mouse.x, plotState.transformX, zoomLevel, newZoomLevel);
        var newTransformY := ZoomAbout(mouse.y, plotState.transformY, zoomLevel, newZoomLevel);
        if newZoomLevel > 1.0 {
          newZoomLevel := 1.0;
          newTransformX := 0.0;
          newTransformY := 0.0;
        }
        zoomLevel := newZoomLevel;
        plotState := plotState.(transformX := newTransformX, transformY := newTransformY);
      }
    }

    /** The auto-scaling effect, as in the canvas plot. */
    method AutoScaleEffect()
      requires Valid()
      modifies this
      ensures Valid()
      ensures plotState == old(plotState).(minScore := AutoScale(old(plotState), data).minScore,
                                           maxScore := AutoScale(old(plotState), data).maxScore)
      ensures zoomLevel == old(zoomLevel) && selectedPoints == old(selectedPoints)
      ensures selectionLostMessage == old(selectionLostMessage)
    {
      var r := ComputeAutoScale(plotState, data);
      plotState := plotState.(minScore := r.minScore, maxScore := r.maxScore);
    }

    /** The stale-selection effect: replaces the selection (and sets the message) only
        when some selected point is missing from the data. */
    method StaleSelectionEffect()
      requires Valid()
      modifies this
      ensures Valid()
      ensures var outcome := StaleFilter(data, old(selectedPoints));
        if outcome.Unchanged? then
          selectedPoints == old(selectedPoints) && selectionLostMessage == old(selectionLostMessage)
        else
          selectedPoints == outcome.kept && selectionLostMessage == outcome.message
      ensures plotState == old(plotState) && zoomLevel == old(zoomLevel)
    {
      var outcome := StaleFilter(data, selectedPoints);
      if outcome.Replaced? {
        selectedPoints := outcome.kept;
        selectionLostMessage := outcome.message;
      }
    }

    /** The selected points as reported to the parent: the same points ordered by
        descending score, each given the colour `colorScale` assigns to its score. */
    method ReportedSelection(colorScale: real -> string) returns (reported: seq<DataPoint>)
      ensures multiset(reported) == multiset(Recolored(selectedPoints, colorScale))
      ensures Ordered(reported, (p: DataPoint) => p.score, false)
      ensures forall i :: 0 <= i < |reported| ==> reported[i].color == Some(colorScale(reported[i].score))
    {
      var sorted := SortByKey(selectedPoints, (p: DataPoint) => p.score, false);
      reported := Recolored(sorted, colorScale);
      RecoloredPermutation(sorted, selectedPoints, colorScale);
      RecoloredAt(sorted, colorScale);
      forall i, j | 0 <= i < j < |reported|
        ensures InOrder(reported[i].score, reported[j].score, false)
      {
        assert InOrder(sorted[i].score, sorted[j].score, false);
      }
    }
  }
}
