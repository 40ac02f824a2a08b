/** The GPU data preparation: flattening points into position, score and index
    buffers with their bounds, copying the selected entries into a compact buffer,
    and normalising positions to `[-1, 1]` and scores to `[0, 1]`. Buffers are
    arrays of reals (single-precision rounding is not modelled). */
module DataProcessor {
  import opened Common
  import opened PlotSettings
  import opened CanvasColor

  /** The x and y columns of the data. */
  function Xs(data: seq<DataPoint>): (r: seq<real>)
    ensures |r| == |data| && forall i :: 0 <= i < |data| ==> r[i] == data[i].x
  {
    seq(|data|, i requires 0 <= i < |data| => data[i].x)
  }

  function Ys(data: seq<DataPoint>): (r: seq<real>)
    ensures |r| == |data| && forall i :: 0 <= i < |data| ==> r[i] == data[i].y
  {
    seq(|data|, i requires 0 <= i < |data| => data[i].y)
  }

  datatype Bounds = Bounds(minX: real, maxX: real, minY: real, maxY: real, minScore: real, maxScore: real)

  /** The bounds of the data: least and greatest x, y and score, or `0` for each
      minimum and `1` for each maximum when there is no data. */
  function DataBounds(data: seq<DataPoint>): (b: Bounds)
    ensures data == [] ==> b == Bounds(0.0, 1.0, 0.0, 1.0, 0.0, 1.0)
  {
    if data == [] then Bounds(0.0, 1.0, 0.0, 1.0, 0.0, 1.0)
    else
      Bounds(SeqMin(Xs(data)), SeqMax(Xs(data)), SeqMin(Ys(data)), SeqMax(Ys(data)),
             SeqMin(Scores(data)), SeqMax(Scores(data)))
  }

  /** The bounds enclose every point. */
  lemma DataBoundsAreExtremes(data: seq<DataPoint>)
    ensures var b := DataBounds(data);
      forall i :: 0 <= i < |data| ==>
        b.minX <= data[i].x <= b.maxX && b.minY <= data[i].y <= b.maxY &&
        b.minScore <= data[i].score <= b.maxScore
  {
    var b := DataBounds(data);
    forall i | 0 <= i < |data|
      ensures b.minX <= data[i].x <= b.maxX && b.minY <= data[i].y <= b.maxY &&
              b.minScore <= data[i].score <= b.maxScore
    {
      assert Xs(data)[i] == data[i].x && Ys(data)[i] == data[i].y && Scores(data)[i] == data[i].score;
    }
  }

  /** With data, each of the six bounds is attained by some point. */
  lemma DataBoundsAttained(data: seq<DataPoint>)
    requires data != []
    ensures var b := DataBounds(data);
      (exists i :: 0 <= i < |data| && data[i].x == b.minX) &&
      (exists i :: 0 <= i < |data| && data[i].x == b.maxX) &&
      (exists i :: 0 <= i < |data| && data[i].y == b.minY) &&
      (exists i :: 0 <= i < |data| && data[i].y == b.maxY) &&
      (exists i :: 0 <= i < |data| && data[i].score == b.minScore) &&
      (exists i :: 0 <= i < |data| && data[i].score == b.maxScore)
  {
    var xs, ys, ss, bd := Xs(data), Ys(data), Scores(data), DataBounds(data);
    var a :| 0 <= a < |xs| && xs[a] == SeqMin(xs);
    assert data[a].x == bd.minX;
    var b :| 0 <= b < |xs| && xs[b] == SeqMax(xs);
    assert data[b].x == bd.maxX;
    var c :| 0 <= c < |ys| && ys[c] == SeqMin(ys);
    assert data[c].y == bd.minY;
    var d :| 0 <= d < |ys| && ys[d] == SeqMax(ys);
    assert data[d].y == bd.maxY;
    var e :| 0 <= e < |ss| && ss[e] == SeqMin(ss);
    assert data[e].score == bd.minScore;
    var f :| 0 <= f < |ss| && ss[f] == SeqMax(ss);
    assert data[f].score == bd.maxScore;
  }

  /** The bounds after one more point: each extreme replaced when the point's value is
      strictly beyond it. */
  function Step(b: Bounds, p: DataPoint): Bounds {
    Bounds(if p.x < b.minX then p.x else b.minX, if p.x > b.maxX then p.x else b.maxX,
           if p.y < b.minY then p.y else b.minY, if p.y > b.maxY then p.y else b.maxY,
           if p.score < b.minScore then p.score else b.minScore,
           if p.score > b.maxScore then p.score else b.maxScore)
  }

  /** Extending a non-empty prefix by one point moves its bounds by one `Step`. */
  lemma DataBoundsSnoc(data: seq<DataPoint>, i: nat)
    requires 0 < i < |data|
    ensures DataBounds(data[..i + 1]) == Step(DataBounds(data[..i]), data[i])
  {
    var pre, cur := data[..i], data[..i + 1];
    assert Xs(cur)[..i] == Xs(pre);
    assert Ys(cur)[..i] == Ys(pre);
    assert Scores(cur)[..i] == Scores(pre);
  }

  /** The running extremes after the first `i` points: absent before any point, the
      first point's values after one, then one `Step` per further point. */
  function RunningBounds(data: seq<DataPoint>, i: nat): Option<Bounds>
    requires i <= |data|
  {
    if i == 0 then None else Some(Extend(RunningBounds(data, i - 1), data[i - 1]))
  }

  /** The extremes after one more point, from none or from the extremes so far. */
  function Extend(r: Option<Bounds>, p: DataPoint): Bounds {
    match r
    case None => Bounds(p.x, p.x, p.y, p.y, p.score, p.score)
    case Some(b) => Step(b, p)
  }

  /** `if (v < m) m = v` with `None` for the initial `Infinity`. */
  function RunningMin(m: Option<real>, v: real): Option<real> {
    if m.None? || v < m.value then Some(v) else m
  }

  /** `if (v > m) m = v` with `None` for the initial `-Infinity`. */
  function RunningMax(m: Option<real>, v: real): Option<real> {
    if m.None? || v > m.value then Some(v) else m
  }

  /** The six scan variables hold the running extremes: all absent before any
      point, otherwise the six bounds. */
  predicate Tracks(minX: Option<real>, maxX: Option<real>, minY: Option<real>, maxY: Option<real>,
                   minScore: Option<real>, maxScore: Option<real>, r: Option<Bounds>) {
    match r
    case None =>
      minX.None? && maxX.None? && minY.None? && maxY.None? && minScore.None? && maxScore.None?
    case Some(b) =>
      minX == Some(b.minX) && maxX == Some(b.maxX) && minY == Some(b.minY) && maxY == Some(b.maxY) &&
      minScore == Some(b.minScore) && maxScore == Some(b.maxScore)
  }

  /** One comparison per variable keeps them tracking the extended extremes. */
  lemma TracksExtend(minX: Option<real>, maxX: Option<real>, minY: Option<real>, maxY: Option<real>,
                     minScore: Option<real>, maxScore: Option<real>, r: Option<Bounds>, p: DataPoint)
    requires Tracks(minX, maxX, minY, maxY, minScore, maxScore, r)
    ensures Tracks(RunningMin(minX, p.x), RunningMax(maxX, p.x), RunningMin(minY, p.y), RunningMax(maxY, p.y),
                   RunningMin(minScore, p.score), RunningMax(maxScore, p.score), Some(Extend(r, p)))
  {
  }

  /** The running extremes of a non-empty prefix are that prefix's bounds. */
  lemma {:induction false} RunningBoundsAreBounds(data: seq<DataPoint>, i: nat)
    requires 0 < i <= |data|
    ensures RunningBounds(data, i) == Some(DataBounds(data[..i]))
  {
    if i > 1 {
      RunningBoundsAreBounds(data, i - 1);
      DataBoundsSnoc(data, i - 1);
    }
  }

  /** Point `k` is laid out in the buffers: `x` and `y` at `2k` and `2k + 1`, the
      score and the index at `k`. */
  ghost predicate Stored(positions: array<real>, scores: array<real>, indices: array<string>,
                         data: seq<DataPoint>, k: nat)
    reads positions, scores, indices
  {
    k < |data| && 2 * k + 1 < positions.Length && k < scores.Length && k < indices.Length &&
    positions[2 * k] == data[k].x && positions[2 * k + 1] == data[k].y &&
    scores[k] == data[k].score && indices[k] == data[k].index
  }

  /** `processDataForGPU`: one pass that writes `x` and `y` of point `i` at `2i` and
      `2i + 1`, its score and index at `i`, and keeps the running extremes (absent
      while they are the initial `Infinity` / `-Infinity`, which become `0` and `1`). */
  method ProcessDataForGpu(data: seq<DataPoint>)
    returns (positions: array<real>, scores: array<real>, indices: array<string>, bounds: Bounds)
    ensures positions.Length == 2 * |data| && scores.Length == |data| && indices.Length == |data|
    ensures forall i :: 0 <= i < |data| ==>
      positions[2 * i] == data[i].x && positions[2 * i + 1] == data[i].y &&
      scores[i] == data[i].score && indices[i] == data[i].index
    ensures bounds == DataBounds(data)
  {
    positions := new real[|data| * 2];
    scores := new real[|data|];
    indices := new string[|data|];
    var minX: Option<real>, maxX: Option<real>, minY: Option<real> := None, None, None;
    var maxY: Option<real>, minScore: Option<real>, maxScore: Option<real> := None, None, None;
    for i := 0 to |data|
      invariant forall k :: 0 <= k < i ==> Stored(positions, scores, indices, data, k)
      invariant Tracks(minX, maxX, minY, maxY, minScore, maxScore, RunningBounds(data, i))
    {
      label before:
      var point := data[i];
      var posIndex := i * 2;
      positions[posIndex] := point.x;
      positions[posIndex + 1] := point.y;
      scores[i] := point.score;
      indices[i] := point.index;
      forall k | 0 <= k < i
        ensures Stored(positions, scores, indices, data, k)
      {
        assert old@before(Stored(positions, scores, indices, data, k));
      }
      assert Stored(positions, scores, indices, data, i);
      TracksExtend(minX, maxX, minY, maxY, minScore, maxScore, RunningBounds(data, i), point);
      minX := RunningMin(minX, point.x);
      maxX := RunningMax(maxX, point.x);
      minY := RunningMin(minY, point.y);
      maxY := RunningMax(maxY, point.y);
      minScore := RunningMin(minScore, point.score);
      maxScore := RunningMax(maxScore, point.score);
    }
    forall k | 0 <= k < |data|
      ensures positions[2 * k] == data[k].x && positions[2 * k + 1] == data[k].y
      ensures scores[k] == data[k].score && indices[k] == data[k].index
    {
      assert Stored(positions, scores, indices, data, k);
    }
    if |data| == 0 {
      bounds := Bounds(0.0, 1.0, 0.0, 1.0, 0.0, 1.0);
    } else {
      RunningBoundsAreBounds(data, |data|);
      assert data[..|data|] == data;
      bounds := Bounds(minX.value, maxX.value, minY.value, maxY.value, minScore.value, maxScore.value);
    }
  }

  // ---------------------------------------------------------------------------
  // Selection buffer

  /** The positions, in ascending order, whose index is selected. */
  function Matches(indices: seq<string>, selected: set<string>): (r: seq<nat>)
    ensures forall k :: 0 <= k < |r| ==> r[k] < |indices|
  {
    if indices == [] then []
    else
      var n := |indices| - 1;
      Matches(indices[..n], selected) + (if indices[n] in selected then [n] else [])
  }

  /** The matches are exactly the positions holding a selected index, each once, in
      ascending order. */
  lemma {:induction false} MatchesAreSelected(indices: seq<string>, selected: set<string>)
    ensures forall k :: 0 <= k < |Matches(indices, selected)| ==> indices[Matches(indices, selected)[k]] in selected
    ensures forall k, l :: 0 <= k < l < |Matches(indices, selected)| ==>
      Matches(indices, selected)[k] < Matches(indices, selected)[l]
    ensures forall i :: 0 <= i < |indices| && indices[i] in selected ==> i in Matches(indices, selected)
  {
    if indices != [] {
      var n := |indices| - 1;
      var init := indices[..n];
      MatchesAreSelected(init, selected);
      assert forall i :: 0 <= i < n ==> init[i] == indices[i];
      var r, p := Matches(indices, selected), Matches(init, selected);
      assert r == p + (if indices[n] in selected then [n] else []);
      assert |init| == n;
      assert forall k :: 0 <= k < |p| ==> p[k] < n && init[p[k]] in selected;
      assert forall k, l :: 0 <= k < l < |p| ==> p[k] < p[l];
      forall k | 0 <= k < |r| ensures indices[r[k]] in selected {
        if k < |p| {
          assert r[k] == p[k];
          assert indices[p[k]] == init[p[k]];
        } else {
          assert r[k] == n;
        }
      }
      forall k, l | 0 <= k < l < |r| ensures r[k] < r[l] {
        assert r[k] == p[k];
        if l >= |p| {
          assert r[l] == n;
        } else {
          assert r[l] == p[l];
        }
      }
    }
  }

  /** One more buffer entry adds its position when its index is selected. */
  lemma MatchesSnoc(indices: seq<string>, i: nat, selected: set<string>)
    requires i < |indices|
    ensures Matches(indices[..i + 1], selected) ==
      Matches(indices[..i], selected) + (if indices[i] in selected then [i] else [])
  {
    assert indices[..i + 1][..i] == indices[..i];
  }

  /** The selected index values that occur in the buffer. */
  function MatchedValues(indices: seq<string>, selected: set<string>): (r: set<string>)
    ensures r <= selected
    ensures forall v :: v in r ==> v in indices
  {
    if indices == [] then {}
    else
      var n := |indices| - 1;
      MatchedValues(indices[..n], selected) + (if indices[n] in selected then {indices[n]} else {})
  }

  predicate DistinctIndices(indices: seq<string>) {
    forall i, j :: 0 <= i < j < |indices| ==> indices[i] != indices[j]
  }

  /** With distinct indices each match is a different selected value, so there are
      exactly as many matches as matched values. */
  lemma {:induction false} MatchesCount(indices: seq<string>, selected: set<string>)
    requires DistinctIndices(indices)
    ensures |Matches(indices, selected)| == |MatchedValues(indices, selected)|
  {
    if indices != [] {
      var n := |indices| - 1;
      var init := indices[..n];
      MatchesCount(init, selected);
      assert indices[n] !in init;
    }
  }

  /** With distinct indices the number of matches never exceeds the number of
      selected indices, so every write lands inside the selection buffers. */
  lemma MatchesFit(indices: seq<string>, selected: set<string>)
    requires DistinctIndices(indices)
    ensures |Matches(indices, selected)| <= |selected|
  {
    MatchesCount(indices, selected);
    SubsetCard(MatchedValues(indices, selected), selected);
  }

  lemma SubsetCard(a: set<string>, b: set<string>)
    requires a <= b
    ensures |a| <= |b|
  {
    assert b == a + (b - a);
  }

  /** The selection buffers for the matches `m`: slot `k` holds the position pair and
      score of entry `m[k]` for each match that fits among the `count` slots, and the
      slots past the last match hold zeros. */
  ghost predicate Compacted(selPositions: seq<real>, selScores: seq<real>, positions: seq<real>,
                            scores: seq<real>, m: seq<nat>, count: nat)
  {
    |selPositions| == 2 * count && |selScores| == count &&
    (forall k :: 0 <= k < |m| ==> 2 * m[k] + 1 < |positions| && m[k] < |scores|) &&
    (forall k :: 0 <= k < count && k < |m| ==>
      selPositions[2 * k] == positions[2 * m[k]] && selPositions[2 * k + 1] == positions[2 * m[k] + 1] &&
      selScores[k] == scores[m[k]]) &&
    (forall k :: |m| <= k < count ==>
      selPositions[2 * k] == 0.0 && selPositions[2 * k + 1] == 0.0 && selScores[k] == 0.0)
  }

  /** Zero-filled buffers are the compacted form of no matches. */
  lemma CompactedEmpty(selPositions: seq<real>, selScores: seq<real>, positions: seq<real>,
                       scores: seq<real>, count: nat)
    requires |selPositions| == 2 * count && |selScores| == count
    requires forall j :: 0 <= j < |selPositions| ==> selPositions[j] == 0.0
    requires forall j :: 0 <= j < |selScores| ==> selScores[j] == 0.0
    ensures Compacted(selPositions, selScores, positions, scores, [], count)
  {
  }

  /** One more match while there is a free slot: it is written into the next slot. */
  lemma CompactedWrite(selPositions: seq<real>, selScores: seq<real>, positions: seq<real>,
                       scores: seq<real>, m: seq<nat>, count: nat, i: nat)
    requires Compacted(selPositions, selScores, positions, scores, m, count)
    requires 2 * i + 1 < |positions| && i < |scores| && |m| < count
    ensures Compacted(selPositions[2 * |m| := positions[2 * i]][2 * |m| + 1 := positions[2 * i + 1]],
                      selScores[|m| := scores[i]], positions, scores, m + [i], count)
  {
    var m' := m + [i];
    var w := |m|;
    var p := selPositions[2 * w := positions[2 * i]][2 * w + 1 := positions[2 * i + 1]];
    var q := selScores[w := scores[i]];
    forall k | 0 <= k < count && k < |m'|
      ensures p[2 * k] == positions[2 * m'[k]] && p[2 * k + 1] == positions[2 * m'[k] + 1] && q[k] == scores[m'[k]]
    {
      if k < w {
        assert m'[k] == m[k];
        assert p[2 * k] == selPositions[2 * k] && p[2 * k + 1] == selPositions[2 * k + 1];
      }
    }
    forall k | |m'| <= k < count
      ensures p[2 * k] == 0.0 && p[2 * k + 1] == 0.0 && q[k] == 0.0
    {
      assert p[2 * k] == selPositions[2 * k] && p[2 * k + 1] == selPositions[2 * k + 1];
    }
  }

  /** One more match once every slot is taken: it is dropped. */
  lemma CompactedDrop(selPositions: seq<real>, selScores: seq<real>, positions: seq<real>,
                      scores: seq<real>, m: seq<nat>, count: nat, i: nat)
    requires Compacted(selPositions, selScores, positions, scores, m, count)
    requires 2 * i + 1 < |positions| && i < |scores| && |m| >= count
    ensures Compacted(selPositions, selScores, positions, scores, m + [i], count)
  {
    assert forall k :: 0 <= k < |m| ==> (m + [i])[k] == m[k];
  }

  /** One entry of the copy loop: a selected entry's position pair and score go to
      the write slot while it is inside the buffers, and the write index advances. */
  function BufferStep(b: (seq<real>, seq<real>, nat), positions: seq<real>, scores: seq<real>,
                      index: string, selected: set<string>, i: nat): (seq<real>, seq<real>, nat)
    requires 2 * i + 1 < |positions| && i < |scores|
  {
    if index !in selected then b
    else if b.2 < |b.1| && 2 * b.2 + 1 < |b.0| then
      (b.0[2 * b.2 := positions[2 * i]][2 * b.2 + 1 := positions[2 * i + 1]], b.1[b.2 := scores[i]], b.2 + 1)
    else (b.0, b.1, b.2 + 1)
  }

  /** The buffers and the write index after the first `i` entries of the copy loop,
      from the buffers and write index `start`. */
  ghost function Buffers(positions: seq<real>, scores: seq<real>, indices: seq<string>,
                         selected: set<string>, start: (seq<real>, seq<real>, nat), i: nat): (seq<real>, seq<real>, nat)
    requires i <= |indices| && |positions| == 2 * |indices| && |scores| == |indices|
  {
    if i == 0 then start
    else BufferStep(Buffers(positions, scores, indices, selected, start, i - 1),
                    positions, scores, indices[i - 1], selected, i - 1)
  }

  /** Zero-filled buffers with `count` slots and the write index at the first. */
  ghost predicate ZeroBuffers(start: (seq<real>, seq<real>, nat), count: nat) {
    |start.0| == 2 * count && |start.1| == count && start.2 == 0 &&
    (forall j :: 0 <= j < |start.0| ==> start.0[j] == 0.0) &&
    (forall j :: 0 <= j < |start.1| ==> start.1[j] == 0.0)
  }

  /** After `i` entries from zero-filled buffers, the write index counts the matches
      so far and the buffers are their compacted form. */
  ghost predicate BuffersInvariant(positions: seq<real>, scores: seq<real>, indices: seq<string>,
                                   selected: set<string>, start: (seq<real>, seq<real>, nat), count: nat, i: nat)
    requires i <= |indices| && |positions| == 2 * |indices| && |scores| == |indices|
  {
    var b := Buffers(positions, scores, indices, selected, start, i);
    b.2 == |Matches(indices[..i], selected)| &&
    Compacted(b.0, b.1, positions, scores, Matches(indices[..i], selected), count)
  }

  /** The copy loop keeps the buffers compacted for every prefix of the entries. */
  lemma {:induction false} BuffersCompacted(positions: seq<real>, scores: seq<real>, indices: seq<string>,
                                            selected: set<string>, start: (seq<real>, seq<real>, nat),
                                            count: nat, i: nat)
    requires i <= |indices| && |positions| == 2 * |indices| && |scores| == |indices|
    requires ZeroBuffers(start, count)
    ensures BuffersInvariant(positions, scores, indices, selected, start, count, i)
  {
    if i == 0 {
      CompactedEmpty(start.0, start.1, positions, scores, count);
    } else {
      BuffersCompacted(positions, scores, indices, selected, start, count, i - 1);
      BuffersNext(positions, scores, indices, selected, start, count, i);
    }
  }

  lemma BuffersNext(positions: seq<real>, scores: seq<real>, indices: seq<string>,
                    selected: set<string>, start: (seq<real>, seq<real>, nat), count: nat, i: nat)
    requires 0 < i <= |indices| && |positions| == 2 * |indices| && |scores| == |indices|
    requires BuffersInvariant(positions, scores, indices, selected, start, count, i - 1)
    ensures BuffersInvariant(positions, scores, indices, selected, start, count, i)
  {
    MatchesSnoc(indices, i - 1, selected);
    var prev := Buffers(positions, scores, indices, selected, start, i - 1);
    BufferStepCompacted(prev, positions, scores, indices[i - 1], selected, count, i - 1,
                        Matches(indices[..i - 1], selected));
  }

  /** One entry keeps the buffers compacted: a selected entry extends the matches. */
  lemma BufferStepCompacted(b: (seq<real>, seq<real>, nat), positions: seq<real>, scores: seq<real>,
                            index: string, selected: set<string>, count: nat, i: nat, m: seq<nat>)
    requires 2 * i + 1 < |positions| && i < |scores|
    requires b.2 == |m| && Compacted(b.0, b.1, positions, scores, m, count)
    ensures var next := BufferStep(b, positions, scores, index, selected, i);
      var m' := m + (if index in selected then [i] else []);
      next.2 == |m'| && Compacted(next.0, next.1, positions, scores, m', count)
  {
    if index in selected {
      if |m| < count {
        CompactedWrite(b.0, b.1, positions, scores, m, count, i);
      } else {
        CompactedDrop(b.0, b.1, positions, scores, m, count, i);
      }
    } else {
      assert m + [] == m;
    }
  }

  /** The copy loop of `createSelectionBuffer`: each selected entry's position pair
      and score are written at the write index while it is inside the buffers. */
  method CopySelected(selectedIndices: set<string>, positions: array<real>, scores: array<real>,
                      indices: array<string>, selectedPositions: array<real>, selectedScores: array<real>)
    requires positions.Length == 2 * indices.Length && scores.Length == indices.Length
    requires selectedPositions.Length == 2 * selectedScores.Length
    requires selectedPositions != positions && selectedPositions != scores
    requires selectedScores != positions && selectedScores != scores
    modifies selectedPositions, selectedScores
    ensures (selectedPositions[..], selectedScores[..]) ==
      var b := Buffers(positions[..], scores[..], indices[..], selectedIndices,
                       (old(selectedPositions[..]), old(selectedScores[..]), 0), indices.Length);
      (b.0, b.1)
  {
    var writeIndex := 0;
    ghost var P, S, I := positions[..], scores[..], indices[..];
    ghost var start := (selectedPositions[..], selectedScores[..], 0);
    for i := 0 to indices.Length
      invariant positions[..] == P && scores[..] == S
      invariant (selectedPositions[..], selectedScores[..], writeIndex) == Buffers(P, S, I, selectedIndices, start, i)
    {
      ghost var before := (selectedPositions[..], selectedScores[..], writeIndex);
      if indices[i] in selectedIndices {
        var readIndex := i * 2;
        var writePosIndex := writeIndex * 2;
        if writeIndex < selectedScores.Length {
          selectedPositions[writePosIndex] := positions[readIndex];
          selectedPositions[writePosIndex + 1] := positions[readIndex + 1];
          selectedScores[writeIndex] := scores[i];
          assert selectedPositions[..] == before.0[writePosIndex := P[readIndex]][writePosIndex + 1 := P[readIndex + 1]];
          assert selectedScores[..] == before.1[writeIndex := S[i]];
        }
        writeIndex := writeIndex + 1;
      }
      assert (selectedPositions[..], selectedScores[..], writeIndex) ==
        BufferStep(before, P, S, I[i], selectedIndices, i);
    }
  }

  /** `createSelectionBuffer`: buffers sized by the number of selected indices; the
      matching entries are copied in buffer order. A write past the end of a typed
      array is dropped, so only the first `selectedCount` matches land; slots no match
      reaches stay `0`. */
  method CreateSelectionBuffer(selectedIndices: set<string>, positions: array<real>,
                               scores: array<real>, indices: array<string>)
    returns (selectedPositions: array<real>, selectedScores: array<real>, selectedCount: nat)
    requires positions.Length == 2 * indices.Length && scores.Length == indices.Length
    ensures selectedCount == |selectedIndices|
    ensures Compacted(selectedPositions[..], selectedScores[..], positions[..], scores[..],
                      Matches(indices[..], selectedIndices), selectedCount)
  {
    selectedCount := |selectedIndices|;
    selectedPositions := new real[selectedCount * 2](_ => 0.0);
    selectedScores := new real[selectedCount](_ => 0.0);
    ghost var start := (selectedPositions[..], selectedScores[..], 0);
    assert ZeroBuffers(start, selectedCount);
    CopySelected(selectedIndices, positions, scores, indices, selectedPositions, selectedScores);
    BuffersCompacted(positions[..], scores[..], indices[..], selectedIndices, start, selectedCount, indices.Length);
    assert indices[..][..indices.Length] == indices[..];
  }

  // ---------------------------------------------------------------------------
  // Normalisation

  /** A coordinate mapped from `[lo, hi]` onto `[-1, 1]`. */
  function NormalizeCoord(v: real, lo: real, hi: real): (r: real)
    requires hi != lo
    ensures v == lo ==> r == -1.0
    ensures v == hi ==> r == 1.0
    ensures lo < hi && lo <= v <= hi ==> -1.0 <= r <= 1.0
  {
    RatioFacts(v, lo, hi);
    (v - lo) / (hi - lo) * 2.0 - 1.0
  }

  /** Where `v` sits in `[lo, hi]`, as a fraction of the range. */
  lemma RatioFacts(v: real, lo: real, hi: real)
    requires hi != lo
    ensures v == lo ==> (v - lo) / (hi - lo) == 0.0
    ensures v == hi ==> (v - lo) / (hi - lo) == 1.0
    ensures lo < hi && lo <= v <= hi ==> 0.0 <= (v - lo) / (hi - lo) <= 1.0
  {
    if v == hi {
      SelfRatio(hi - lo);
    }
    if lo < hi && lo <= v <= hi {
      UnitRatio(v - lo, hi - lo);
    }
  }

  /** `normalizePositions`: each x and y mapped onto `[-1, 1]` by its own range. */
  method NormalizePositions(positions: array<real>, bounds: Bounds) returns (normalized: array<real>)
    requires positions.Length % 2 == 0
    requires bounds.maxX != bounds.minX && bounds.maxY != bounds.minY
    ensures normalized.Length == positions.Length
    ensures forall k :: 0 <= k && 2 * k + 1 < positions.Length ==>
      normalized[2 * k] == NormalizeCoord(positions[2 * k], bounds.minX, bounds.maxX) &&
      normalized[2 * k + 1] == NormalizeCoord(positions[2 * k + 1], bounds.minY, bounds.maxY)
  {
    normalized := new real[positions.Length];
    var rangeX := bounds.maxX - bounds.minX;
    var rangeY := bounds.maxY - bounds.minY;
    ghost var pairs := positions.Length / 2;
    assert positions.Length == 2 * pairs;
    var i := 0;
    ghost var j := 0;
    while i < positions.Length
      invariant i == 2 * j && 0 <= j <= pairs
      invariant forall k :: 0 <= k < j ==>
        normalized[2 * k] == NormalizeCoord(positions[2 * k], bounds.minX, bounds.maxX) &&
        normalized[2 * k + 1] == NormalizeCoord(positions[2 * k + 1], bounds.minY, bounds.maxY)
    {
      normalized[i] := ((positions[i] - bounds.minX) / rangeX) * 2.0 - 1.0;
      normalized[i + 1] := ((positions[i + 1] - bounds.minY) / rangeY) * 2.0 - 1.0;
      i, j := i + 2, j + 1;
    }
  }

  /** A score mapped from `[lo, hi]` onto `[0, 1]`, or `0` for an empty range. */
  function NormalizeScore(v: real, lo: real, hi: real): (r: real)
    ensures hi == lo ==> r == 0.0
    ensures v == lo ==> r == 0.0
    ensures v == hi && hi != lo ==> r == 1.0
    ensures lo < hi && lo <= v <= hi ==> 0.0 <= r <= 1.0
  {
    if hi - lo == 0.0 then 0.0
    else
      var t := (v - lo) / (hi - lo);
      assert v == hi ==> t == 1.0 by {
        SelfRatio(hi - lo);
      }
      assert lo < hi && lo <= v <= hi ==> 0.0 <= t <= 1.0 by {
        if lo < hi && lo <= v <= hi {
          UnitRatio(v - lo, hi - lo);
        }
      }
      t
  }

  /** `normalizeScores`: every score mapped by the score range. */
  method NormalizeScores(scores: array<real>, bounds: Bounds) returns (normalized: array<real>)
    ensures normalized.Length == scores.Length
    ensures forall i :: 0 <= i < scores.Length ==>
      normalized[i] == NormalizeScore(scores[i], bounds.minScore, bounds.maxScore)
  {
    normalized := new real[scores.Length];
    var range := bounds.maxScore - bounds.minScore;
    for i := 0 to scores.Length
      invariant forall k :: 0 <= k < i ==> normalized[k] == NormalizeScore(scores[k], bounds.minScore, bounds.maxScore)
    {
      normalized[i] := if range == 0.0 then 0.0 else (scores[i] - bounds.minScore) / range;
    }
  }

  /** Normalising the data's own buffers: every score lands in `[0, 1]`, the lowest on
      `0` and (for a non-empty range) the highest on `1`. */
  lemma NormalizedScoresInUnit(data: seq<DataPoint>, i: nat)
    requires i < |data|
    ensures 0.0 <= NormalizeScore(data[i].score, DataBounds(data).minScore, DataBounds(data).maxScore) <= 1.0
  {
    var b := DataBounds(data);
    if b.minScore == b.maxScore {
      // an empty range normalises every score to 0 (NormalizeScore's first ensures)
    } else {
      // otherwise the score lies between the bounds (DataBoundsAreExtremes), and
      // NormalizeScore maps that range into [0, 1]
      assert b.minScore < b.maxScore;
    }
  }
}
