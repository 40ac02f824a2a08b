/** The canvas scatter plot: its data-space domains and linear scales, annotation hit
    testing and dragging, and the freeform and square selection gestures, whose tests
    run on canvas coordinates (`xScale(point.x)`, `yScale(point.y)`). */
module PlotCanvas {
  import opened Common
  import opened Geometry
  import opened PlotSettings

  // ---------------------------------------------------------------------------
  // Domains and scales

  datatype Domain = Domain(lo: real, hi: real)

  /** The scales of a plot with data: both domains and the canvas size. */
  datatype Scales = Scales(xDomain: Domain, yDomain: Domain, width: real, height: real)

  predicate WellFormed(s: Scales) {
    s.xDomain.hi - s.xDomain.lo >= 4.0 && s.yDomain.hi - s.yDomain.lo >= 4.0 &&
    s.width > 0.0 && s.height > 0.0
  }

  function DataPositions(data: seq<DataPoint>): (r: seq<Vec>)
    ensures |r| == |data|
    ensures forall i :: 0 <= i < |data| ==> r[i] == Vec(data[i].x, data[i].y)
  {
    seq(|data|, i requires 0 <= i < |data| => Vec(data[i].x, data[i].y))
  }

  function LabelPositions(labels: seq<LabelPoint>): (r: seq<Vec>)
    ensures |r| == |labels|
    ensures forall i :: 0 <= i < |labels| ==> r[i] == Vec(labels[i].x, labels[i].y)
  {
    seq(|labels|, i requires 0 <= i < |labels| => Vec(labels[i].x, labels[i].y))
  }

  /** Every position the domains must cover: the data points, then the labels. */
  function PlotPositions(data: seq<DataPoint>, labels: seq<LabelPoint>): seq<Vec> {
    DataPositions(data) + LabelPositions(labels)
  }

  /** The scales: none without data; otherwise each domain runs from 2 below the least
      to 2 above the greatest coordinate of the data and label positions, so every
      position lies at least 2 inside it and the bound is attained on each side. */
  function MakeScales(data: seq<DataPoint>, labels: seq<LabelPoint>, width: real, height: real): (r: Option<Scales>)
    requires width > 0.0 && height > 0.0
    ensures r.None? <==> data == []
    ensures r.Some? ==> WellFormed(r.value) && r.value.width == width && r.value.height == height
    ensures r.Some? ==> forall v :: v in PlotPositions(data, labels) ==>
      r.value.xDomain.lo + 2.0 <= v.x <= r.value.xDomain.hi - 2.0 &&
      r.value.yDomain.lo + 2.0 <= v.y <= r.value.yDomain.hi - 2.0
    ensures r.Some? ==>
      (exists v :: v in PlotPositions(data, labels) && v.x == r.value.xDomain.lo + 2.0) &&
      (exists v :: v in PlotPositions(data, labels) && v.x == r.value.xDomain.hi - 2.0) &&
      (exists v :: v in PlotPositions(data, labels) && v.y == r.value.yDomain.lo + 2.0) &&
      (exists v :: v in PlotPositions(data, labels) && v.y == r.value.yDomain.hi - 2.0)
  {
    if data == [] then None
    else
      var ps := PlotPositions(data, labels);
      var b := Bounds(ps);
      assert ps[0] in ps;
      assert b.minX <= ps[0].x <= b.maxX && b.minY <= ps[0].y <= b.maxY;
      Some(ScalesAround(b, width, height))
  }

  /** Domains padded by 2 on every side of a box. */
  function ScalesAround(b: Box, width: real, height: real): Scales {
    Scales(Domain(b.minX - 2.0, b.maxX + 2.0), Domain(b.minY - 2.0, b.maxY + 2.0), width, height)
  }

  /** The extremes a min/max scan has seen: none before the first position (the
      initial `Infinity` / `-Infinity`), then the bounds of what it has seen. */
  function Scanned(vs: seq<Vec>): Option<Box> {
    if vs == [] then None else Some(Bounds(vs))
  }

  /** One iteration of the scan: the first position gives its point box, later ones
      widen the box. */
  function Include(b: Option<Box>, v: Vec): Box {
    if b.None? then Box(v.x, v.x, v.y, v.y) else Widen(b.value, v)
  }

  lemma IncludeSnoc(vs: seq<Vec>, v: Vec)
    ensures Scanned(vs + [v]) == Some(Include(Scanned(vs), v))
  {
    if vs != [] {
      BoundsSnoc(vs, v);
    } else {
      assert [] + [v] == [v];
    }
  }

  /** The scales built from the bounds of all the positions. */
  lemma ScalesFromBounds(data: seq<DataPoint>, labels: seq<LabelPoint>, width: real, height: real, b: Box)
    requires width > 0.0 && height > 0.0
    requires Scanned(PlotPositions(data, labels)) == Some(b) && data != []
    ensures MakeScales(data, labels, width, height) == Some(ScalesAround(b, width, height))
  {
    assert PlotPositions(data, labels) != [];
  }

  /** The scan over the data points. */
  method ScanData(data: seq<DataPoint>) returns (b: Option<Box>)
    ensures b == Scanned(DataPositions(data))
  {
    ghost var dp := DataPositions(data);
    b := None;
    for i := 0 to |data|
      invariant b == Scanned(dp[..i])
    {
      assert dp[..i + 1] == dp[..i] + [dp[i]];
      IncludeSnoc(dp[..i], dp[i]);
      b := Some(Include(b, Vec(data[i].x, data[i].y)));
    }
    assert dp[..|data|] == dp;
  }

  lemma PrefixSnoc<T>(a: seq<T>, b: seq<T>, j: nat)
    requires j < |b|
    ensures a + b[..j + 1] == (a + b[..j]) + [b[j]]
  {
  }

  /** The scan over the labels, continuing from what the data scan has seen. */
  method ScanLabels(seen: Option<Box>, ghost before: seq<Vec>, labels: seq<LabelPoint>) returns (b: Option<Box>)
    requires seen == Scanned(before)
    ensures b == Scanned(before + LabelPositions(labels))
  {
    ghost var lp := LabelPositions(labels);
    assert before + lp[..0] == before;
    b := seen;
    for j := 0 to |labels|
      invariant b == Scanned(before + lp[..j])
    {
      PrefixSnoc(before, lp, j);
      IncludeSnoc(before + lp[..j], lp[j]);
      b := Some(Include(b, Vec(labels[j].x, labels[j].y)));
    }
    assert lp[..|labels|] == lp;
  }

  /** The scales memo: no scales without data; otherwise the scan over the data and
      then the labels, and the domains padded by 2. */
  method ComputeScales(data: seq<DataPoint>, labels: seq<LabelPoint>, width: real, height: real)
    returns (r: Option<Scales>)
    requires width > 0.0 && height > 0.0
    ensures r == MakeScales(data, labels, width, height)
  {
    if |data| == 0 {
      return None;
    }
    var b := ScanData(data);
    b := ScanLabels(b, DataPositions(data), labels);
    var box := b.value;
    ScalesFromBounds(data, labels, width, height, box);
    r := Some(ScalesAround(box, width, height));
  }

  /** A linear map of the domain onto `[0, size]`. */
  function ScaleTo(d: Domain, size: real, v: real): real
    requires d.hi != d.lo
  {
    (v - d.lo) / (d.hi - d.lo) * size
  }

  /** The inverse map from `[0, size]` back to the domain. */
  function InvertFrom(d: Domain, size: real, c: real): real
    requires size != 0.0
  {
    c / size * (d.hi - d.lo) + d.lo
  }

  /** The inverse scale undoes the scale and the scale undoes the inverse. */
  lemma ScaleRoundTrip(d: Domain, size: real, v: real)
    requires d.hi != d.lo && size != 0.0
    ensures InvertFrom(d, size, ScaleTo(d, size, v)) == v
    ensures ScaleTo(d, size, InvertFrom(d, size, v)) == v
  {
    var w := d.hi - d.lo;
    var t := (v - d.lo) / w;
    assert t * w == v - d.lo;
    assert t * size / size == t;
    var u := v / size;
    assert u * size == v;
    assert (u * w + d.lo - d.lo) / w == u;
  }

  /** A ratio strictly between zero and the denominator's size is strictly between 0
      and 1. */
  lemma StrictUnitRatio(num: real, den: real)
    requires 0.0 < num < den
    ensures 0.0 < num / den < 1.0
  {
    var t := num / den;
    assert t * den == num;
    if t <= 0.0 {
      MulMonotone(den, t, 0.0);
      assert false;
    }
    if t >= 1.0 {
      MulMonotone(den, 1.0, t);
      assert false;
    }
  }

  lemma ScaledInside(t: real, size: real)
    requires 0.0 < t < 1.0 && size > 0.0
    ensures 0.0 < t * size < size
  {
    assert (1.0 - t) * size > 0.0;
  }

  /** Every coordinate at least 2 inside the domain lands strictly inside the canvas. */
  lemma PaddedInsideCanvas(d: Domain, size: real, v: real)
    requires d.lo + 2.0 <= v <= d.hi - 2.0 && size > 0.0
    ensures 0.0 < ScaleTo(d, size, v) < size
  {
    StrictUnitRatio(v - d.lo, d.hi - d.lo);
    ScaledInside((v - d.lo) / (d.hi - d.lo), size);
  }

  function XScale(s: Scales, x: real): real
    requires WellFormed(s)
  {
    ScaleTo(s.xDomain, s.width, x)
  }

  function YScale(s: Scales, y: real): real
    requires WellFormed(s)
  {
    ScaleTo(s.yDomain, s.height, y)
  }

  /** `[xScale(x), yScale(y)]`. */
  function CanvasPosition(s: Scales, x: real, y: real): Vec
    requires WellFormed(s)
  {
    Vec(XScale(s, x), YScale(s, y))
  }

  /** `[xScaleInvert(c.x), yScaleInvert(c.y)]`. */
  function DataPosition(s: Scales, c: Vec): Vec
    requires WellFormed(s)
  {
    Vec(InvertFrom(s.xDomain, s.width, c.x), InvertFrom(s.yDomain, s.height, c.y))
  }

  /** Every data point and label is drawn strictly inside the canvas, and converting
      its canvas position back gives its data position. */
  lemma PositionsOnCanvas(data: seq<DataPoint>, labels: seq<LabelPoint>, width: real, height: real, v: Vec)
    requires width > 0.0 && height > 0.0
    requires v in PlotPositions(data, labels) && data != []
    ensures var s := MakeScales(data, labels, width, height).value;
      0.0 < CanvasPosition(s, v.x, v.y).x < width && 0.0 < CanvasPosition(s, v.x, v.y).y < height &&
      DataPosition(s, CanvasPosition(s, v.x, v.y)) == v
  {
    var s := MakeScales(data, labels, width, height).value;
    PaddedInsideCanvas(s.xDomain, width, v.x);
    PaddedInsideCanvas(s.yDomain, height, v.y);
    ScaleRoundTrip(s.xDomain, width, v.x);
    ScaleRoundTrip(s.yDomain, height, v.y);
  }

  // ---------------------------------------------------------------------------
  // Annotation hit testing

  /** Squared canvas distance from the mouse to a label. */
  function LabelDist2(s: Scales, l: LabelPoint, point: Vec): real
    requires WellFormed(s)
  {
    Dist2(point, CanvasPosition(s, l.x, l.y))
  }

  /** The index the scan over the first `k` labels settles on: a label strictly within
      20 pixels (squared distance below 400) that is nearest among them and strictly
      nearer than every earlier one; none when no label is that close. */
  function ClosestUpTo(s: Scales, labels: seq<LabelPoint>, point: Vec, k: nat): (r: Option<nat>)
    requires WellFormed(s) && k <= |labels|
    ensures r.None? <==> forall j :: 0 <= j < k ==> LabelDist2(s, labels[j], point) >= 400.0
    ensures r.Some? ==> r.value < k && LabelDist2(s, labels[r.value], point) < 400.0
    ensures r.Some? ==> forall j :: 0 <= j < k ==>
      LabelDist2(s, labels[r.value], point) <= LabelDist2(s, labels[j], point)
    ensures r.Some? ==> forall j :: 0 <= j < r.value ==>
      LabelDist2(s, labels[r.value], point) < LabelDist2(s, labels[j], point)
  {
    if k == 0 then None
    else
      var prev := ClosestUpTo(s, labels, point, k - 1);
      var d := LabelDist2(s, labels[k - 1], point);
      if d < 400.0 && (prev.None? || d < LabelDist2(s, labels[prev.value], point)) then Some(k - 1)
      else prev
  }

  /** `findLabelAtPoint`: no label without scales, otherwise the label the scan picks. */
  function NearestLabel(scales: Option<Scales>, labels: seq<LabelPoint>, point: Vec): (r: Option<LabelPoint>)
    requires scales.Some? ==> WellFormed(scales.value)
  {
    if scales.None? then None
    else
      var k := ClosestUpTo(scales.value, labels, point, |labels|);
      if k.None? then None else Some(labels[k.value])
  }

  /** The hit test as the scan is written: a running minimum distance (absent for
      `Infinity`) and the label it belongs to. Distances are compared squared. */
  method FindLabelAtPoint(scales: Option<Scales>, labels: seq<LabelPoint>, point: Vec)
    returns (closest: Option<LabelPoint>)
    requires scales.Some? ==> WellFormed(scales.value)
    ensures closest == NearestLabel(scales, labels, point)
    ensures closest.None? <==>
      (scales.None? || forall j :: 0 <= j < |labels| ==> LabelDist2(scales.value, labels[j], point) >= 400.0)
    ensures closest.Some? ==>
      exists i :: 0 <= i < |labels| && closest.value == labels[i] &&
        LabelDist2(scales.value, labels[i], point) < 400.0 &&
        (forall j :: 0 <= j < |labels| ==>
          LabelDist2(scales.value, labels[i], point) <= LabelDist2(scales.value, labels[j], point)) &&
        (forall j :: 0 <= j < i ==>
          LabelDist2(scales.value, labels[i], point) < LabelDist2(scales.value, labels[j], point))
  {
    if scales.None? {
      return None;
    }
    var s := scales.value;
    closest := None;
    var minDistance: Option<real> := None;
    ghost var best: Option<nat> := None;
    for i := 0 to |labels|
      invariant best == ClosestUpTo(s, labels, point, i)
      invariant closest == if best.None? then None else Some(labels[best.value])
      invariant minDistance == if best.None? then None else Some(LabelDist2(s, labels[best.value], point))
    {
      var canvas := CanvasPosition(s, labels[i].x, labels[i].y);
      var distance := Dist2(point, canvas);
      if distance < 400.0 && (minDistance.None? || distance < minDistance.value) {
        minDistance := Some(distance);
        closest := Some(labels[i]);
        best := Some(i);
      }
    }
  }

  /** `labels.map(l => l.label === label.label ? updatedLabel : l)`: every label of
      that name becomes the grabbed label; names and order are kept. */
  function ReplaceLabel(labels: seq<LabelPoint>, grabbed: LabelPoint): (r: seq<LabelPoint>)
    ensures |r| == |labels|
    ensures forall i :: 0 <= i < |labels| ==> r[i].name == labels[i].name
    ensures forall i :: 0 <= i < |labels| && labels[i].name != grabbed.name ==> r[i] == labels[i]
    ensures forall i :: 0 <= i < |labels| && labels[i].name == grabbed.name ==> r[i] == grabbed
  {
    seq(|labels|, i requires 0 <= i < |labels| => if labels[i].name == grabbed.name then grabbed else labels[i])
  }

  /** The drag update: every label of the dragged name moves to `pos`; names,
      colours, order and all other labels are kept. */
  function MoveLabel(labels: seq<LabelPoint>, name: string, pos: Vec): (r: seq<LabelPoint>)
    ensures |r| == |labels|
    ensures forall i :: 0 <= i < |labels| ==> r[i].name == labels[i].name && r[i].color == labels[i].color
    ensures forall i :: 0 <= i < |labels| && labels[i].name != name ==> r[i] == labels[i]
    ensures forall i :: 0 <= i < |labels| && labels[i].name == name ==> r[i].x == pos.x && r[i].y == pos.y
  {
    seq(|labels|, i requires 0 <= i < |labels| =>
      if labels[i].name == name then labels[i].(x := pos.x, y := pos.y) else labels[i])
  }

  // ---------------------------------------------------------------------------
  // Selection gestures

  datatype CanvasMode = Freeform | Square

  datatype SquareSelection = SquareSelection(start: Vec, end: Vec)

  /** The freeform move: the first point starts the path, later points are appended
      only when more than 10 pixels (squared: 100) from the last vertex. */
  function FreeformAfterMove(prev: seq<Vec>, p: Vec): seq<Vec> {
    if prev == [] then [p]
    else if Dist2(p, prev[|prev| - 1]) > 100.0 then prev + [p]
    else prev
  }

  /** Consecutive vertices are more than 10 pixels apart. */
  predicate Spaced(pts: seq<Vec>) {
    forall i :: 0 < i < |pts| ==> Dist2(pts[i], pts[i - 1]) > 100.0
  }

  /** A freeform move keeps the path spaced, only ever extends it by the new point,
      and extends it exactly when the point is far enough from the last vertex. */
  lemma FreeformSpaced(prev: seq<Vec>, p: Vec)
    requires Spaced(prev)
    ensures Spaced(FreeformAfterMove(prev, p))
    ensures prev == [] ==> FreeformAfterMove(prev, p) == [p]
    ensures prev != [] ==>
      (FreeformAfterMove(prev, p) == prev + [p] <==> Dist2(p, prev[|prev| - 1]) > 100.0) &&
      (FreeformAfterMove(prev, p) == prev || FreeformAfterMove(prev, p) == prev + [p])
  {
    if prev != [] && Dist2(p, prev[|prev| - 1]) > 100.0 {
      var r := prev + [p];
      forall i | 0 < i < |r| ensures Dist2(r[i], r[i - 1]) > 100.0 {
        if i < |prev| {
          assert r[i] == prev[i] && r[i - 1] == prev[i - 1];
        }
      }
    }
  }

  /** The square mode test: with scales, the canvas position lies inclusively
      between the two corners on both axes. */
  function SquareTest(scales: Option<Scales>, sq: SquareSelection): DataPoint -> bool {
    (p: DataPoint) => scales.Some? && WellFormed(scales.value) &&
         InRect(CanvasPosition(scales.value, p.x, p.y), Rect(sq.start.x, sq.start.y, sq.end.x, sq.end.y))
  }

  /** The freeform test: with scales, the canvas position is inside the path by the
      even-odd rule. */
  function PathTest(scales: Option<Scales>, path: seq<Vec>): DataPoint -> bool {
    (p: DataPoint) => scales.Some? && WellFormed(scales.value) && InPolygon(CanvasPosition(scales.value, p.x, p.y), path)
  }

  /** The square selection loop: `Math.min`/`Math.max` of the corners and inclusive
      comparisons of each canvas position. */
  method SelectInSquare(data: seq<DataPoint>, scales: Option<Scales>, sq: SquareSelection)
    returns (selected: seq<DataPoint>)
    requires scales.Some? ==> WellFormed(scales.value)
    ensures selected == Filter(data, SquareTest(scales, sq))
  {
    var minX := Min(sq.start.x, sq.end.x);
    var maxX := Max(sq.start.x, sq.end.x);
    var minY := Min(sq.start.y, sq.end.y);
    var maxY := Max(sq.start.y, sq.end.y);
    selected := [];
    for i := 0 to |data|
      invariant selected == Filter(data[..i], SquareTest(scales, sq))
    {
      assert data[..i + 1][..i] == data[..i];
      if scales.Some? {
        var canvasX := XScale(scales.value, data[i].x);
        var canvasY := YScale(scales.value, data[i].y);
        if canvasX >= minX && canvasX <= maxX && canvasY >= minY && canvasY <= maxY {
          selected := selected + [data[i]];
        }
      }
    }
    assert data[..|data|] == data;
  }

  /** The freeform selection loop: `isPointInPolygon` on each canvas position. */
  method SelectInPath(data: seq<DataPoint>, scales: Option<Scales>, path: seq<Vec>)
    returns (selected: seq<DataPoint>)
    requires scales.Some? ==> WellFormed(scales.value)
    ensures selected == Filter(data, PathTest(scales, path))
  {
    selected := [];
    for i := 0 to |data|
      invariant selected == Filter(data[..i], PathTest(scales, path))
    {
      assert data[..i + 1][..i] == data[..i];
      if scales.Some? {
        var canvas := CanvasPosition(scales.value, data[i].x, data[i].y);
        var inside := PointInPolygon(canvas, path);
        if inside {
          selected := selected + [data[i]];
        }
      }
    }
    assert data[..|data|] == data;
  }

  /** Which corner the drag started from does not matter. */
  lemma SquareCornersCommute(data: seq<DataPoint>, scales: Option<Scales>, a: Vec, b: Vec)
    ensures Filter(data, SquareTest(scales, SquareSelection(a, b))) ==
            Filter(data, SquareTest(scales, SquareSelection(b, a)))
  {
    forall p | p in data
      ensures SquareTest(scales, SquareSelection(a, b))(p) == SquareTest(scales, SquareSelection(b, a))(p)
    {
      if scales.Some? && WellFormed(scales.value) {
        RectBetween(CanvasPosition(scales.value, p.x, p.y), Rect(a.x, a.y, b.x, b.y));
      }
    }
    FilterExt(data, SquareTest(scales, SquareSelection(a, b)), SquareTest(scales, SquareSelection(b, a)));
  }

  /** Every point a freeform path selects is drawn inside the path's bounding box. */
  lemma PathSelectionBounded(data: seq<DataPoint>, scales: Option<Scales>, path: seq<Vec>, p: DataPoint)
    requires p in Filter(data, PathTest(scales, path))
    ensures path != [] && scales.Some? && WellFormed(scales.value)
    ensures InBox(CanvasPosition(scales.value, p.x, p.y), Bounds(path))
  {
    InPolygonWithinBounds(CanvasPosition(scales.value, p.x, p.y), path);
  }

  /** The fewer-than-three guard agrees with the test: such a path selects nothing. */
  lemma ShortPathSelectsNothing(data: seq<DataPoint>, scales: Option<Scales>, path: seq<Vec>)
    requires |path| < 3
    ensures Filter(data, PathTest(scales, path)) == []
  {
    forall p | p in data ensures !PathTest(scales, path)(p) {
      if scales.Some? && WellFormed(scales.value) {
        DegeneratePolygonEmpty(CanvasPosition(scales.value, p.x, p.y), path);
      }
    }
    FilterNone(data, PathTest(scales, path));
  }

  // ---------------------------------------------------------------------------
  // The component

  class CanvasPlot {
    const data: seq<DataPoint>
    const labels: seq<LabelPoint>
    const width: real
    const height: real
    const scales: Option<Scales>
    const selectionMode: CanvasMode
    var plotState: PlotState
    var isDrawing: bool
    var lassoPoints: seq<Vec>
    var squareSelection: Option<SquareSelection>
    var draggingLabel: Option<LabelPoint>
    var draggedLabels: seq<LabelPoint>
    var hoveredAnnotation: Option<LabelPoint>
    var selectedPoints: seq<DataPoint>

    ghost predicate Valid()
      reads this
    {
      width > 0.0 && height > 0.0 && (scales.Some? ==> WellFormed(scales.value)) &&
      Spaced(lassoPoints)
    }

    /** `displayLabels`: the dragged copy once a drag has started, else the labels. */
    function DisplayLabels(): seq<LabelPoint>
      reads this
    {
      if draggedLabels != [] then draggedLabels else labels
    }

    constructor (data: seq<DataPoint>, labels: seq<LabelPoint>, plotState: PlotState,
                 width: real, height: real, mode: CanvasMode)
      requires width > 0.0 && height > 0.0
      ensures Valid() && scales == MakeScales(data, labels, width, height)
      ensures this.data == data && this.labels == labels && this.plotState == plotState
      ensures this.width == width && this.height == height && selectionMode == mode
      ensures !isDrawing && lassoPoints == [] && squareSelection == None
      ensures draggingLabel == None && draggedLabels == [] && hoveredAnnotation == None
      ensures selectedPoints == []
    {
      var s := ComputeScales(data, labels, width, height);
      this.data := data;
      this.labels := labels;
      this.width := width;
      this.height := height;
      scales := s;
      selectionMode := mode;
      this.plotState := plotState;
      isDrawing := false;
      lassoPoints := [];
      squareSelection := None;
      draggingLabel := None;
      draggedLabels := [];
      hoveredAnnotation := None;
      selectedPoints := [];
    }

    /** The auto-scaling effect: the score range becomes `AutoScale` of the data and
        every other setting is kept. */
    method AutoScaleEffect()
      requires Valid()
      modifies this
      ensures Valid()
      ensures plotState == old(plotState).(minScore := AutoScale(old(plotState), data).minScore,
                                           maxScore := AutoScale(old(plotState), data).maxScore)
      ensures isDrawing == old(isDrawing) && lassoPoints == old(lassoPoints)
      ensures squareSelection == old(squareSelection) && draggingLabel == old(draggingLabel)
      ensures draggedLabels == old(draggedLabels) && hoveredAnnotation == old(hoveredAnnotation)
      ensures selectedPoints == old(selectedPoints)
    {
      var r := ComputeAutoScale(plotState, data);
      plotState := plotState.(minScore := r.minScore, maxScore := r.maxScore);
    }

    /** `handleMouseDown`: a press on a displayed label starts dragging it (the
        labels are copied with that one replaced) and starts no selection; otherwise
        a freeform path or a square starts at the point. */
    method MouseDown(point: Vec)
      requires Valid()
      modifies this
      ensures Valid()
      ensures var hit := NearestLabel(scales, old(DisplayLabels()), point);
        if hit.Some? then
          draggingLabel == hit && draggedLabels == ReplaceLabel(labels, hit.value) &&
          isDrawing == old(isDrawing) && lassoPoints == old(lassoPoints) &&
          squareSelection == old(squareSelection)
        else
          draggingLabel == old(draggingLabel) && draggedLabels == old(draggedLabels) && isDrawing &&
          lassoPoints == (if selectionMode == Freeform then [point] else old(lassoPoints)) &&
          squareSelection == (if selectionMode == Square then Some(SquareSelection(point, point))
                              else old(squareSelection))
      ensures plotState == old(plotState) && hoveredAnnotation == old(hoveredAnnotation)
      ensures selectedPoints == old(selectedPoints)
    {
      var clickedLabel := FindLabelAtPoint(scales, DisplayLabels(), point);
      if clickedLabel.Some? {
        draggingLabel := clickedLabel;
        draggedLabels := ReplaceLabel(labels, clickedLabel.value);
        return;
      }
      if selectionMode == Freeform {
        isDrawing := true;
        lassoPoints := [point];
      } else {
        isDrawing := true;
        squareSelection := Some(SquareSelection(point, point));
      }
    }

    /** `handleMouseMove`: a dragged label follows the mouse (in data coordinates);
        while drawing without a drag the path grows or the square's end moves; with
        neither, the label under the mouse becomes the hovered annotation. */
    method MouseMove(point: Vec)
      requires Valid()
      modifies this
      ensures Valid()
      ensures draggedLabels ==
        if old(draggingLabel).Some? && scales.Some? then
          MoveLabel(old(draggedLabels), old(draggingLabel).value.name, DataPosition(scales.value, point))
        else old(draggedLabels)
      ensures lassoPoints ==
        if old(isDrawing) && old(draggingLabel).None? && selectionMode == Freeform then
          FreeformAfterMove(old(lassoPoints), point)
        else old(lassoPoints)
      ensures squareSelection ==
        if old(isDrawing) && old(draggingLabel).None? && selectionMode == Square && old(squareSelection).Some? then
          Some(old(squareSelection).value.(end := point))
        else old(squareSelection)
      ensures hoveredAnnotation ==
        if !old(isDrawing) && old(draggingLabel).None? && scales.Some? then NearestLabel(scales, labels, point)
        else old(hoveredAnnotation)
      ensures isDrawing == old(isDrawing) && draggingLabel == old(draggingLabel)
      ensures plotState == old(plotState) && selectedPoints == old(selectedPoints)
    {
      if draggingLabel.Some? && scales.Some? {
        var dataPoint := DataPosition(scales.value, point);
        draggedLabels := MoveLabel(draggedLabels, draggingLabel.value.name, dataPoint);
      }
      if isDrawing && draggingLabel.None? {
        if selectionMode == Freeform {
          FreeformSpaced(lassoPoints, point);
          lassoPoints := FreeformAfterMove(lassoPoints, point);
        } else if squareSelection.Some? {
          squareSelection := Some(squareSelection.value.(end := point));
        }
      } else if draggingLabel.None? {
        if !isDrawing && scales.Some? {
          hoveredAnnotation := FindLabelAtPoint(scales, labels, point);
        }
      }
    }

    /** `handleMouseUp`: ends any drag. Without a gesture it clears the path and square
        and reports nothing. A freeform path of fewer than three vertices reports the
        empty selection; otherwise the points inside the path. A square reports the
        points inside it, or the empty selection when there is no square. The report
        also becomes `selectedPoints`. */
    method MouseUp() returns (reported: Option<seq<DataPoint>>)
      requires Valid()
      modifies this
      ensures Valid() && !isDrawing && draggingLabel == None
      ensures !old(isDrawing) ==>
        reported == None && lassoPoints == [] && squareSelection == None &&
        selectedPoints == old(selectedPoints)
      ensures old(isDrawing) && selectionMode == Freeform ==>
        reported == Some(if |old(lassoPoints)| < 3 then []
                         else Filter(data, PathTest(scales, old(lassoPoints)))) &&
        lassoPoints == [] && squareSelection == old(squareSelection)
      ensures old(isDrawing) && selectionMode == Square ==>
        reported == Some(if old(squareSelection).None? then []
                         else Filter(data, SquareTest(scales, old(squareSelection).value))) &&
        squareSelection == None && lassoPoints == old(lassoPoints)
      ensures reported.Some? ==> selectedPoints == reported.value
      ensures plotState == old(plotState) && draggedLabels == old(draggedLabels)
      ensures hoveredAnnotation == old(hoveredAnnotation)
    {
      draggingLabel := None;
      if !isDrawing {
        isDrawing := false;
        lassoPoints := [];
        squareSelection := None;
        return None;
      }
      if selectionMode == Freeform {
        if |lassoPoints| < 3 {
          selectedPoints := [];
          reported := Some([]);
          isDrawing := false;
          lassoPoints := [];
          return;
        }
        var selected := SelectInPath(data, scales, lassoPoints);
        selectedPoints := selected;
        reported := Some(selected);
        isDrawing := false;
        lassoPoints := [];
      } else {
        if squareSelection.None? {
          selectedPoints := [];
          reported := Some([]);
          isDrawing := false;
          squareSelection := None;
          return;
        }
        var selected := SelectInSquare(data, scales, squareSelection.value);
        selectedPoints := selected;
        reported := Some(selected);
        isDrawing := false;
        squareSelection := None;
      }
    }
  }
}
