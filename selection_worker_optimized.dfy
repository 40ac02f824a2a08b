/** `OptimizedSelectionWorker`: a selection worker that keeps the last point list
    with a Flatbush index over it. Flatbush, an outside library, is modelled by what
    its `search` returns for point boxes: the indices of the indexed points inside
    the inclusive query box, in the item order of its packed tree. That order is a
    permutation of the indices, which the model takes as a parameter of the build. */
module SelectionWorkerOptimized {
  import opened Common
  import opened Geometry
  import opened SelectionWorker

  datatype RequestKind = RectangleRequest | CircleRequest | LassoRequest

  /** `SelectionMessage`: `bounds` and `polygon` are optional. */
  datatype Request = Request(kind: RequestKind, points: seq<Point>, bounds: Option<Corners>,
                             polygon: Option<seq<Vec>>)

  function BoxKeeps(b: Box): Point -> bool {
    p => InBox(Position(p), b)
  }

  function PolygonKeeps(polygon: seq<Vec>): Point -> bool {
    p => InPolygon(Position(p), polygon)
  }

  /** `indices.map(index => this.points[index])`. */
  function Pick(pts: seq<Point>, indices: seq<nat>): (r: seq<Point>)
    requires forall k :: 0 <= k < |indices| ==> indices[k] < |pts|
    ensures |r| == |indices|
  {
    if indices == [] then []
    else Pick(pts, indices[..|indices| - 1]) + [pts[indices[|indices| - 1]]]
  }

  /** `isPointInPolygon` applied by `.filter` to each candidate. */
  method KeepInPolygon(candidates: seq<Point>, polygon: seq<Vec>) returns (kept: seq<Point>)
    ensures kept == Filter(candidates, PolygonKeeps(polygon))
  {
    kept := [];
    for i := 0 to |candidates|
      invariant kept == Filter(candidates[..i], PolygonKeeps(polygon))
    {
      assert candidates[..i + 1][..i] == candidates[..i];
      var inside := PointInPolygon(Position(candidates[i]), polygon);
      if inside {
        kept := kept + [candidates[i]];
      }
    }
    assert candidates[..|candidates|] == candidates;
  }

  lemma PickSnoc(pts: seq<Point>, indices: seq<nat>, i: nat)
    requires forall k :: 0 <= k < |indices| ==> indices[k] < |pts|
    requires i < |pts|
    ensures Pick(pts, indices + [i]) == Pick(pts, indices) + [pts[i]]
  {
    assert (indices + [i])[..|indices|] == indices;
  }

  lemma {:induction false} PickAppend(pts: seq<Point>, a: seq<nat>, b: seq<nat>)
    requires forall k :: 0 <= k < |a| ==> a[k] < |pts|
    requires forall k :: 0 <= k < |b| ==> b[k] < |pts|
    ensures Pick(pts, a + b) == Pick(pts, a) + Pick(pts, b)
    decreases |b|
  {
    if b == [] {
      assert a + b == a;
    } else {
      var init := b[..|b| - 1];
      assert a + b == (a + init) + [b[|b| - 1]];
      PickAppend(pts, a, init);
      PickSnoc(pts, a + init, b[|b| - 1]);
    }
  }

  /** `0, 1, …, n - 1`. */
  function Iota(n: nat): (r: seq<nat>)
    ensures |r| == n && forall k :: 0 <= k < n ==> r[k] == k
  {
    if n == 0 then [] else Iota(n - 1) + [n - 1]
  }

  /** A fixed item order of the tree `finish()` packs by Hilbert value: every index
      below `n` exactly once. A Flatbush search walks the packed tree depth first and
      reports the items it finds in this order, whatever the query. */
  predicate IsTreeOrder(order: seq<nat>, n: nat) {
    (forall k :: 0 <= k < |order| ==> order[k] < n) && multiset(order) == multiset(Iota(n))
  }

  /** Picking the indices `0 .. i - 1` gives the first `i` points. */
  lemma {:induction false} PickIota(pts: seq<Point>, i: nat)
    requires i <= |pts|
    ensures Pick(pts, Iota(i)) == pts[..i]
  {
    if i > 0 {
      PickIota(pts, i - 1);
      PickSnoc(pts, Iota(i - 1), i - 1);
      assert pts[..i] == pts[..i - 1] + [pts[i - 1]];
    }
  }

  /** Taking the index at `j` out of a list takes its point out of the picks. */
  lemma PickAround(pts: seq<Point>, t: seq<nat>, j: nat) returns (rest: seq<nat>)
    requires forall k :: 0 <= k < |t| ==> t[k] < |pts|
    requires j < |t|
    ensures rest == t[..j] + t[j + 1..]
    ensures forall k :: 0 <= k < |rest| ==> rest[k] < |pts|
    ensures multiset(Pick(pts, t)) == multiset(Pick(pts, rest)) + multiset{pts[t[j]]}
  {
    rest := t[..j] + t[j + 1..];
    var before, after := t[..j], t[j + 1..];
    assert t == before + [t[j]] + after;
    PickAppend(pts, before, [t[j]]);
    PickAppend(pts, before + [t[j]], after);
    PickAppend(pts, before, after);
    assert Pick(pts, [t[j]]) == [pts[t[j]]];
  }

  /** A position holding `x`. */
  lemma {:induction false} PositionOf(t: seq<nat>, x: nat) returns (j: nat)
    requires x in t
    ensures j < |t| && t[j] == x
  {
    if t[|t| - 1] == x {
      j := |t| - 1;
    } else {
      assert t == t[..|t| - 1] + [t[|t| - 1]];
      j := PositionOf(t[..|t| - 1], x);
    }
  }

  /** Removing the element at `j` removes one copy of it from the multiset. */
  lemma DropAt(t: seq<nat>, j: nat)
    requires j < |t|
    ensures multiset(t[..j] + t[j + 1..]) == multiset(t) - multiset{t[j]}
  {
    assert t == t[..j] + [t[j]] + t[j + 1..];
  }

  /** The last index's point is the last pick. */
  lemma PickLast(pts: seq<Point>, s: seq<nat>)
    requires forall k :: 0 <= k < |s| ==> s[k] < |pts|
    requires s != []
    ensures multiset(Pick(pts, s)) == multiset(Pick(pts, s[..|s| - 1])) + multiset{pts[s[|s| - 1]]}
  {
  }

  /** Picking by two index lists with the same elements picks the same points. */
  lemma {:induction false} PickSameMultiset(pts: seq<Point>, s: seq<nat>, t: seq<nat>)
    requires forall k :: 0 <= k < |s| ==> s[k] < |pts|
    requires forall k :: 0 <= k < |t| ==> t[k] < |pts|
    requires multiset(s) == multiset(t)
    ensures multiset(Pick(pts, s)) == multiset(Pick(pts, t))
    decreases |s|
  {
    if s == [] {
      assert |t| == |multiset(t)| == 0;
    } else {
      var init, x := s[..|s| - 1], s[|s| - 1];
      assert s == init + [x];
      assert multiset(init) == multiset(s) - multiset{x};
      assert x in multiset(t);
      var j := PositionOf(t, x);
      DropAt(t, j);
      var rest := PickAround(pts, t, j);
      PickSameMultiset(pts, init, rest);
      PickLast(pts, s);
    }
  }

  /** A tree order holds valid indices, and picking by it gives every point once. */
  lemma TreeOrderPermutes(pts: seq<Point>, order: seq<nat>)
    requires IsTreeOrder(order, |pts|)
    ensures TreeOrderValid(pts, order)
    ensures multiset(Pick(pts, order)) == multiset(pts)
  {
    PickSameMultiset(pts, order, Iota(|pts|));
    PickIota(pts, |pts|);
    assert pts[..|pts|] == pts;
  }

  /** The indices of `order` whose points lie in the box, in the order's order. */
  ghost function TreeHits(pts: seq<Point>, order: seq<nat>, b: Box): seq<nat>
    requires forall k :: 0 <= k < |order| ==> order[k] < |pts|
  {
    if order == [] then []
    else
      var last := order[|order| - 1];
      TreeHits(pts, order[..|order| - 1], b) + (if InBox(Position(pts[last]), b) then [last] else [])
  }

  /** The hits are indices taken from the order. */
  lemma {:induction false} TreeHitsValid(pts: seq<Point>, order: seq<nat>, b: Box)
    requires forall k :: 0 <= k < |order| ==> order[k] < |pts|
    ensures forall k :: 0 <= k < |TreeHits(pts, order, b)| ==> TreeHits(pts, order, b)[k] < |pts|
  {
    if order != [] {
      TreeHitsValid(pts, order[..|order| - 1], b);
    }
  }

  /** Picking the hits of an order is filtering the order's points by the box. */
  lemma {:induction false} PickFilter(pts: seq<Point>, order: seq<nat>, b: Box)
    requires forall k :: 0 <= k < |order| ==> order[k] < |pts|
    ensures forall k :: 0 <= k < |TreeHits(pts, order, b)| ==> TreeHits(pts, order, b)[k] < |pts|
    ensures Pick(pts, TreeHits(pts, order, b)) == Filter(Pick(pts, order), BoxKeeps(b))
  {
    TreeHitsValid(pts, order, b);
    if order != [] {
      var init, last := order[..|order| - 1], order[|order| - 1];
      var keep := BoxKeeps(b);
      var hits := TreeHits(pts, init, b);
      PickFilter(pts, init, b);
      assert Pick(pts, order) == Pick(pts, init) + [pts[last]];
      FilterAppend(Pick(pts, init), [pts[last]], keep);
      assert Filter([pts[last]], keep) == if keep(pts[last]) then [pts[last]] else [] by {
        assert [pts[last]][..0] == [];
      }
      if InBox(Position(pts[last]), b) {
        PickSnoc(pts, hits, last);
      } else {
        assert TreeHits(pts, order, b) == hits;
      }
    }
  }

  /** Every index of the order is a valid position in `pts`. */
  predicate TreeOrderValid(pts: seq<Point>, order: seq<nat>) {
    forall k :: 0 <= k < |order| ==> order[k] < |pts|
  }

  /** Flatbush `search` over a packed tree: the indices of the points inside the
      inclusive box, reported in tree order. As a multiset of points this is exactly
      the box filter over all points. */
  method InBoxIndices(pts: seq<Point>, order: seq<nat>, b: Box) returns (indices: seq<nat>)
    requires IsTreeOrder(order, |pts|)
    ensures forall k :: 0 <= k < |indices| ==> indices[k] < |pts|
    ensures Pick(pts, indices) == Filter(Pick(pts, order), BoxKeeps(b))
    ensures multiset(Pick(pts, indices)) == multiset(Filter(pts, BoxKeeps(b)))
  {
    TreeOrderPermutes(pts, order);
    indices := [];
    for i := 0 to |order|
      invariant indices == TreeHits(pts, order[..i], b)
    {
      assert order[..i + 1][..i] == order[..i];
      if InBox(Position(pts[order[i]]), b) {
        indices := indices + [order[i]];
      }
    }
    assert order[..|order|] == order;
    PickFilter(pts, order, b);
    FilterSameMultiset(Pick(pts, order), pts, BoxKeeps(b));
  }

  /** The circle test with the square-rooted radius is the squared-distance test. */
  lemma CircleKeepsRoot(bounds: Corners, root: real, p: Point)
    requires IsSqrt(root, Dist2(End(bounds), Start(bounds)))
    ensures InCircle(Position(p), Start(bounds), root) == CircleKeeps(bounds)(p)
  {
  }

  /** Whether `handleMessage` calls `buildSpatialIndex`: there is no index yet, or
      the point count changed. */
  predicate Rebuilds(hadIndex: bool, count: nat, msg: Request) {
    !hadIndex || count != |msg.points|
  }

  class OptimizedSelectionWorker {
    /** Whether `spatialIndex` is set. */
    var hasIndex: bool
    var points: seq<Point>
    /** The points the index was built over; `points` too, except after a failed
        build, which clears `points` but leaves the old index in place. */
    var indexed: seq<Point>
    /** The item order of the packed tree, which decides the order of search results. */
    var tree: seq<nat>

    predicate Valid()
      reads this
    {
      hasIndex ==> IsTreeOrder(tree, |indexed|) && (points == indexed || points == [])
    }

    constructor ()
      ensures Valid() && !hasIndex && points == []
    {
      hasIndex := false;
      points := [];
      indexed := [];
      tree := [];
    }

    /** `buildSpatialIndex`: keeps the points, then indexes each as a point box;
        `order` is the item order `finish()` arrives at. `new Flatbush(0)` throws, so
        an empty list is kept as `points` while the old index stays (`built` false). */
    method BuildSpatialIndex(pts: seq<Point>, order: seq<nat>) returns (built: bool)
      requires Valid() && IsTreeOrder(order, |pts|)
      modifies this
      ensures Valid() && points == pts && built == (pts != [])
      ensures built ==> hasIndex && indexed == pts && tree == order
      ensures !built ==> hasIndex == old(hasIndex) && indexed == old(indexed) && tree == old(tree)
    {
      points := pts;
      if pts == [] {
        return false;
      }
      indexed := pts;
      tree := order;
      hasIndex := true;
      built := true;
    }

    /** Flatbush `search`: the indices of the indexed points inside the box, in tree
        order. */
    method Search(b: Box) returns (indices: seq<nat>)
      requires Valid() && hasIndex
      ensures forall k :: 0 <= k < |indices| ==> indices[k] < |indexed|
      ensures Pick(indexed, indices) == Filter(Pick(indexed, tree), BoxKeeps(b))
      ensures multiset(Pick(indexed, indices)) == multiset(Filter(indexed, BoxKeeps(b)))
    {
      indices := InBoxIndices(indexed, tree, b);
    }

    /** `selectRectangle`: nothing without an index; otherwise, in tree order, the
        points inside the rectangle, which are up to order the rectangle filter over
        all points. After a failed build `points` is empty, so each hit of the old
        index maps to `undefined`: `holes` counts those entries of the reply. */
    method SelectRectangle(bounds: Corners) returns (selected: seq<Point>, holes: nat)
      requires Valid()
      ensures !hasIndex ==> selected == [] && holes == 0
      ensures hasIndex && points == indexed ==> (holes == 0 && TreeOrderValid(points, tree) &&
        selected == Filter(Pick(points, tree), RectangleKeeps(bounds)))
      ensures hasIndex && points == indexed ==>
        multiset(selected) == multiset(Filter(points, RectangleKeeps(bounds)))
      ensures hasIndex && points != indexed ==>
        selected == [] && holes == |Filter(indexed, RectangleKeeps(bounds))|
    {
      if !hasIndex {
        return [], 0;
      }
      TreeOrderPermutes(indexed, tree);
      var box := RectBox(Rect(bounds.startX, bounds.startY, bounds.endX, bounds.endY));
      var indices := Search(box);
      FilterExt(indexed, BoxKeeps(box), RectangleKeeps(bounds));
      if points == indexed {
        selected, holes := Pick(points, indices), 0;
        FilterExt(Pick(points, tree), BoxKeeps(box), RectangleKeeps(bounds));
      } else {
        // `points` is empty: every index is past its end
        selected, holes := [], |indices|;
        assert |multiset(Pick(indexed, indices))| == |Filter(indexed, RectangleKeeps(bounds))|;
      }
    }

    /** `selectCircle`: nothing without an index; otherwise the box candidates within
        the radius (`root`, the distance from start to end) of the start corner, which
        are, in tree order, exactly the points of the circle. After a failed build the
        distance filter reads a field of `undefined` and throws (`failed`) as soon as
        the old index has a hit in the circle's box. */
    method SelectCircle(bounds: Corners, root: real) returns (selected: seq<Point>, failed: bool)
      requires Valid()
      requires hasIndex ==> IsSqrt(root, Dist2(End(bounds), Start(bounds)))
      ensures !hasIndex ==> selected == [] && !failed
      ensures hasIndex && points == indexed ==> (!failed && TreeOrderValid(points, tree) &&
        selected == Filter(Pick(points, tree), CircleKeeps(bounds)))
      ensures hasIndex && points == indexed ==>
        multiset(selected) == multiset(Filter(points, CircleKeeps(bounds)))
      ensures hasIndex && points != indexed ==> (selected == [] &&
        (failed <==> Filter(indexed, BoxKeeps(CircleBox(Circle(Start(bounds), root)))) != []))
    {
      if !hasIndex {
        return [], false;
      }
      TreeOrderPermutes(indexed, tree);
      var center := Start(bounds);
      var c := Circle(center, root);
      var indices := Search(CircleBox(c));
      if points != indexed {
        // `points` is empty: the first hit, if any, is `undefined`
        selected, failed := [], indices != [];
        assert |multiset(Pick(indexed, indices))| == |Filter(indexed, BoxKeeps(CircleBox(c)))|;
        return;
      }
      failed := false;
      var candidates := Pick(points, indices);
      var keep: Point -> bool := p => InCircle(Position(p), center, root);
      selected := Filter(candidates, keep);
      var ordered := Pick(points, tree);
      forall p | p in ordered && keep(p) ensures BoxKeeps(CircleBox(c))(p) {
        CircleInsideBox(Position(p), c);
      }
      FilterRedundant(ordered, keep, BoxKeeps(CircleBox(c)));
      forall p | p in ordered ensures keep(p) == CircleKeeps(bounds)(p) {
        CircleKeepsRoot(bounds, root, p);
      }
      FilterExt(ordered, keep, CircleKeeps(bounds));
      FilterSameMultiset(ordered, points, CircleKeeps(bounds));
    }

    /** `selectLasso`: nothing without an index or for fewer than three vertices;
        otherwise the bounding-box candidates inside the polygon, which are, in tree
        order, exactly the points inside the polygon. After a failed build the
        polygon test reads a field of `undefined` and throws (`failed`) as soon as the
        old index has a hit in the polygon's box. */
    method SelectLasso(polygon: seq<Vec>) returns (selected: seq<Point>, failed: bool)
      requires Valid()
      ensures !hasIndex || |polygon| < 3 ==> selected == [] && !failed
      ensures hasIndex && |polygon| >= 3 && points == indexed ==> (!failed && TreeOrderValid(points, tree) &&
        selected == Filter(Pick(points, tree), PolygonKeeps(polygon)))
      ensures hasIndex && |polygon| >= 3 && points == indexed ==>
        multiset(selected) == multiset(Filter(points, PolygonKeeps(polygon)))
      ensures hasIndex && |polygon| >= 3 && points != indexed ==> (selected == [] &&
        (failed <==> Filter(indexed, BoxKeeps(Bounds(polygon))) != []))
    {
      if !hasIndex || |polygon| < 3 {
        return [], false;
      }
      TreeOrderPermutes(indexed, tree);
      var indices := Search(Bounds(polygon));
      if points != indexed {
        // `points` is empty: the first hit, if any, is `undefined`
        selected, failed := [], indices != [];
        assert |multiset(Pick(indexed, indices))| == |Filter(indexed, BoxKeeps(Bounds(polygon)))|;
        return;
      }
      failed := false;
      var candidates := Pick(points, indices);
      selected := KeepInPolygon(candidates, polygon);
      var ordered := Pick(points, tree);
      forall p | p in ordered && PolygonKeeps(polygon)(p) ensures BoxKeeps(Bounds(polygon))(p) {
        InPolygonWithinBounds(Position(p), polygon);
      }
      FilterRedundant(ordered, PolygonKeeps(polygon), BoxKeeps(Bounds(polygon)));
      FilterSameMultiset(ordered, points, PolygonKeeps(polygon));
    }

    /** `handleMessage`: rebuilds the index (over `order`, the tree order for the
        message's points) only when there is none or the point count changed, so new
        points of the same count are answered from the old ones; then answers one
        selection, and a missing `bounds` or `polygon` selects nothing. Anything that
        throws is caught and answered with nothing: a rebuild over no points, and,
        after one, a circle or lasso that meets the old index. A rectangle there is
        answered with one `undefined` per old hit, counted by `holes`. */
    method HandleMessage(msg: Request, order: seq<nat>, root: real) returns (selectedPoints: seq<Point>, holes: nat)
      requires Valid() && IsTreeOrder(order, |msg.points|)
      requires msg.kind == CircleRequest && msg.bounds.Some? ==>
        IsSqrt(root, Dist2(End(msg.bounds.value), Start(msg.bounds.value)))
      modifies this
      ensures Valid()
      ensures points == if Rebuilds(old(hasIndex), |old(points)|, msg) then msg.points else old(points)
      ensures Rebuilds(old(hasIndex), |old(points)|, msg) && msg.points != [] ==>
        hasIndex && indexed == msg.points && tree == order
      ensures !Rebuilds(old(hasIndex), |old(points)|, msg) || msg.points == [] ==>
        hasIndex == old(hasIndex) && indexed == old(indexed) && tree == old(tree)
      // the failed build is caught
      ensures Rebuilds(old(hasIndex), |old(points)|, msg) && msg.points == [] ==>
        selectedPoints == [] && holes == 0
      // with an index over the points: the selection
      ensures !(Rebuilds(old(hasIndex), |old(points)|, msg) && msg.points == []) ==> hasIndex
      ensures points == indexed ==> holes == 0
      ensures !(Rebuilds(old(hasIndex), |old(points)|, msg) && msg.points == []) && points == indexed ==>
        (msg.kind == RectangleRequest ==>
           selectedPoints == if msg.bounds.Some? then Filter(Pick(points, tree), RectangleKeeps(msg.bounds.value)) else []) &&
        (msg.kind == CircleRequest ==>
           selectedPoints == if msg.bounds.Some? then Filter(Pick(points, tree), CircleKeeps(msg.bounds.value)) else []) &&
        (msg.kind == LassoRequest ==>
           selectedPoints ==
             if msg.polygon.Some? && |msg.polygon.value| >= 3 then Filter(Pick(points, tree), PolygonKeeps(msg.polygon.value))
             else [])
      ensures !(Rebuilds(old(hasIndex), |old(points)|, msg) && msg.points == []) && points == indexed ==>
        (msg.kind == RectangleRequest ==>
           multiset(selectedPoints) ==
             if msg.bounds.Some? then multiset(Filter(points, RectangleKeeps(msg.bounds.value))) else multiset{}) &&
        (msg.kind == CircleRequest ==>
           multiset(selectedPoints) ==
             if msg.bounds.Some? then multiset(Filter(points, CircleKeeps(msg.bounds.value))) else multiset{}) &&
        (msg.kind == LassoRequest ==>
           multiset(selectedPoints) ==
             if msg.polygon.Some? && |msg.polygon.value| >= 3 then multiset(Filter(points, PolygonKeeps(msg.polygon.value)))
             else multiset{})
      // an index left over from before a failed build: no points, one `undefined` per
      // rectangle hit
      ensures !(Rebuilds(old(hasIndex), |old(points)|, msg) && msg.points == []) && points != indexed ==>
        selectedPoints == [] &&
        holes == if msg.kind == RectangleRequest && msg.bounds.Some? then |Filter(indexed, RectangleKeeps(msg.bounds.value))| else 0
    {
      selectedPoints, holes := [], 0;
      if !hasIndex || |points| != |msg.points| {
        var built := BuildSpatialIndex(msg.points, order);
        if !built {
          return;
        }
      }
      var failed := false;
      match msg.kind {
        case RectangleRequest =>
          if msg.bounds.Some? {
            selectedPoints, holes := SelectRectangle(msg.bounds.value);
          }
        case CircleRequest =>
          if msg.bounds.Some? {
            selectedPoints, failed := SelectCircle(msg.bounds.value, root);
          }
        case LassoRequest =>
          if msg.polygon.Some? {
            selectedPoints, failed := SelectLasso(msg.polygon.value);
          }
      }
      if failed {
        selectedPoints, holes := [], 0;
      }
    }
  }

  /** A point list, then an empty one, then an empty one again: the second message's
      build fails and is answered with nothing, and the third, with the count
      unchanged at zero, searches the first message's index and answers a rectangle
      around the old point with one `undefined`. */
  method EmptyAfterPoints() returns (second: seq<Point>, third: seq<Point>, thirdHoles: nat)
    ensures second == [] && third == [] && thirdHoles == 1
  {
    var w := new OptimizedSelectionWorker();
    var p := Point(1.0, 1.0, "0", 0.0);
    var around := Some(Corners(0.0, 0.0, 2.0, 2.0));
    assert Iota(1) == [0];
    var first, h := w.HandleMessage(Request(RectangleRequest, [p], around, None), [0], 0.0);
    assert w.indexed == [p];
    assert Iota(0) == [];
    second, h := w.HandleMessage(Request(RectangleRequest, [], around, None), [], 0.0);
    third, thirdHoles := w.HandleMessage(Request(RectangleRequest, [], around, None), [], 0.0);
    assert Filter([p], RectangleKeeps(around.value)) == Filter([], RectangleKeeps(around.value)) + [p];
  }
}
