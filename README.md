# MatriViz selection engine and its surroundings, in Dafny

MatriViz is an Electron viewer for single-cell expression data: a UMAP scatter plot
whose points can be selected with a rectangle, a circle or a freehand lasso, scored
by the expression of a chosen gene set, annotated, cached and exported. This project
models the selection engine at its core and the logic around it, and proves what
that code promises:

- **Geometry** (`geometry.dfy`): the inclusive rectangle test, the squared-distance
  circle test, bounding boxes of vertex lists, and the even-odd ray-casting loop.
- **Spatial grid** (`spatial_grid.dfy`, `selection.dfy`): 50-pixel buckets keyed by
  `floor(c / 50)`, the inclusive cell-range walk, and the proof that
  index-then-filter selects exactly what a brute-force filter over all points selects.
- **Gesture state machines**, one module per variant of the selection hook
  (`lasso_simple.dfy`, `lasso_instant.dfy`, `lasso_optimized.dfy`, `lasso_original.dfy`,
  `lasso_worker.dfy`, `pixel_selection.dfy`, `pixel_selection_fast.dfy`). Each is a
  class whose fields are the hook's state and refs. The handlers are methods.
- **Workers** (`selection_worker.dfy`, `selection_worker_optimized.dfy`, and the
  lasso worker inside `lasso_worker.dfy`): message dispatch and replies.
- **Plots** (`plot_state.dfy`, `plot_canvas.dfy`, `canvas_color.dfy`, `plot.dfy`,
  `score_order.dfy`):
  - auto-scaling of the colour range;
  - the linear scales and their inverses;
  - hex colour parsing;
  - label hit-testing;
  - zoom;
  - the stale-selection filter;
  - the fill rule.
- **Application state** (`app.dfy`): resource and category changes, rescoring of the
  selection, and fallback score assembly.
- **Gene list and annotation list** (`gene_checkbox_list.dfy`, `annotation_list.dfy`).
- **Services** (`data_processor.dfy`, `dataset_cache.dfy`, `duckdb.dfy`, `export.dfy`):
  - GPU buffer packing and normalisation;
  - the dataset cache's key hash and oldest-first eviction;
  - the SQL text built for DuckDB;
  - the CSV export.

Coordinates and scores are reals. `Math.sqrt` does not appear; where the source
compares a distance obtained by `Math.sqrt`, the model compares squares, and a lemma
shows the two agree. Foreign code becomes a parameter:

- d3's `polygonContains`;
- Flatbush's item order (the build takes it as a parameter; the box search is modelled as the in-box items in that order);
- DuckDB's query execution;
- `parseFloat` on text;
- number formatting;
- the clock.

React state updates are modelled as sequential assignments.

## Model

| member | source | states |
|---|---|---|
| Geometry.RectBetween | src/renderer/src/components/lasso-instant.tsx:64-75 | the inclusive rectangle test holds iff each coordinate lies between the two corners' coordinates, so swapping corners changes nothing |
| Geometry.SqrtComparison | src/renderer/src/workers/selection-worker.ts:40-54 | for non-negative square roots, `distance <= radius` iff the squared distance is at most the squared radius |
| Geometry.CircleInsideBox | src/renderer/src/components/lasso-instant.tsx:197-208 | a point in a circle of non-negative radius lies in the query box centre ± radius |
| Geometry.MinX | src/renderer/src/components/lasso-optimized.tsx:88-98 | `Math.min(...xs)` is at most every x and equals one of them |
| Geometry.MaxX | src/renderer/src/components/lasso-optimized.tsx:88-98 | `Math.max(...xs)` is at least every x and equals one of them |
| Geometry.MinY | src/renderer/src/components/lasso-optimized.tsx:88-98 | `Math.min(...ys)` is at most every y and equals one of them |
| Geometry.MaxY | src/renderer/src/components/lasso-optimized.tsx:88-98 | `Math.max(...ys)` is at least every y and equals one of them |
| Geometry.Bounds | src/renderer/src/components/lasso-optimized.tsx:92-97 | the bounds of a non-empty vertex list enclose every vertex |
| Geometry.BoundingBox | src/renderer/src/components/lasso-original.tsx:11-21 | `getBoundingBox` is null iff there are no vertices; otherwise it encloses every vertex and each side is attained by a vertex |
| Geometry.PointInPolygon | src/renderer/src/components/lasso-simple.tsx:48-61 | the ray-casting loop over edges (i, i-1 mod n) returns exactly the even-odd rule |
| Geometry.DegeneratePolygonEmpty | src/renderer/src/components/lasso-simple.tsx:48-61 | a polygon with fewer than 3 vertices contains no point (the two crossings of a 2-vertex polygon cancel) |
| Geometry.InPolygonWithinBounds | src/renderer/src/components/lasso-instant.tsx:210-232 | a point the polygon test accepts lies in the polygon's bounding box, so the box prefilter loses nothing |
| SpatialGrid.BoxInRange | src/renderer/src/components/lasso-simple.tsx:25-29 | a point inside the query box falls in a cell of the box's floor(c/50) cell range |
| SpatialGrid.RangeKeysFacts | src/renderer/src/components/lasso-optimized.tsx:20-36 | the listed keys are exactly the cells of the inclusive range, each once, (endX-startX+1)·(endY-startY+1) of them or none for an empty range |
| SpatialGrid.IntersectingCells | src/renderer/src/components/lasso-optimized.tsx:20-36 | the nested loops produce exactly that key list |
| SpatialGrid.CreateSpatialGrid | src/renderer/src/components/lasso-optimized.tsx:7-17 | every point goes into exactly the bucket of its cell, buckets keep input order, and no bucket is empty |
| SpatialGrid.GatheredGrid | src/renderer/src/components/lasso-optimized.tsx:155-165 | gathering the buckets of distinct keys gives, as a multiset, exactly the points whose cell is among the keys |
| SpatialGrid.GatheredRange | src/renderer/src/components/lasso-simple.tsx:25-44 | walking a cell range gathers, as a multiset, exactly the points whose cell lies in the range |
| SpatialGrid.BlockComplete | src/renderer/src/components/lasso-simple.tsx:25-44 | grid completeness: every indexed point inside the query box is among the gathered candidates |
| SpatialGrid.BlockBounded | src/renderer/src/components/lasso-simple.tsx:25-44 | candidates are indexed points and none occurs more often than in the input |
| SpatialGrid.IndexThenFilter | src/renderer/src/components/lasso-instant.tsx:186-208 | when the exact test only accepts points inside the query box, filtering the grid candidates equals filtering all points (as multisets) |
| SpatialGrid.CollectCells | src/renderer/src/components/lasso-simple.tsx:30-42 | the search loops append the bucket of every cell of the range, in cell order |
| SpatialGrid.PushKept | src/renderer/src/components/pixel-selection.tsx:112-118 | the inner loop appends exactly the bucket's points passing the test, in order |
| SpatialGrid.WalkCells | src/renderer/src/components/pixel-selection.tsx:107-121 | the cell walk with the exact test equals filtering the gathered candidates |
| SpatialGrid.GatherKeys | src/renderer/src/components/lasso-optimized.tsx:157-165 | `intersectingCells.forEach` appends the bucket of every listed key |
| SpatialGrid.GridIndex.constructor | src/renderer/src/components/lasso-simple.tsx:6-8 | a new index holds no points |
| SpatialGrid.GridIndex.Build | src/renderer/src/components/lasso-simple.tsx:10-23 | `build` discards the old buckets and indexes exactly the given points |
| SpatialGrid.GridIndex.Search | src/renderer/src/components/lasso-simple.tsx:25-44 | `search` returns the buckets of the box's cell range, as a multiset exactly the indexed points in that range |
| Selection.Precomputed | src/renderer/src/components/lasso-simple.tsx:80-84 | precomputation maps every point, keeping the order and the count |
| Selection.PrecomputeFacts | src/renderer/src/components/lasso-simple.tsx:80-84 | a precomputed point keeps its data fields; a missing or zero `cx`/`cy` becomes the scaled coordinate, a non-zero one is kept |
| Selection.RectViaGrid | src/renderer/src/components/lasso-simple.tsx:174-194 | rectangle selection through the grid equals the brute-force rectangle filter over all points |
| Selection.CircleViaGrid | src/renderer/src/components/lasso-simple.tsx:196-214 | circle selection through the grid equals the brute-force squared-distance filter |
| Selection.PolygonViaGrid | src/renderer/src/components/lasso-instant.tsx:210-232 | lasso selection through the grid equals the brute-force polygon filter |
| Selection.FilterInPolygon | src/renderer/src/components/lasso-simple.tsx:234-238 | filtering the candidates keeps exactly those inside the polygon, in order |
| Selection.LassoPrefilter | src/renderer/src/components/pixel-selection-fast.tsx:79-86 | the bounding-box test in front of the polygon test changes no result |
| Selection.LassoViaGrid | src/renderer/src/components/pixel-selection.tsx:156-189 | the grid walk with box and polygon tests equals the brute-force polygon filter |
| Selection.SelectWhere | src/renderer/src/components/pixel-selection-fast.tsx:42-49 | the indexed loop pushing passing points is the order-preserving filter |
| Selection.SelectInLasso | src/renderer/src/components/pixel-selection-fast.tsx:79-89 | the brute-force lasso loop is the filter by box and polygon tests |
| Selection.CloseAfterMove | src/renderer/src/components/lasso-optimized.tsx:128-138 | a lasso move drops the closing copy, appends the point and closes again with the first vertex |
| Selection.ClosedLassoGrows | src/renderer/src/components/lasso-optimized.tsx:128-138 | after k ≥ 1 moves the lasso is the down point, the k moves and a closing copy of the down point |
| Selection.RefAfterMoveShape | src/renderer/src/components/lasso-simple.tsx:144-158 | rebuilding the ref as `slice(0,-1)` plus the new point keeps at most two vertices: the first and the latest |
| Selection.RefAfterMovesShape | src/renderer/src/components/lasso-simple.tsx:144-158 | after mouse-down and any moves the ref is `[down]` or `[down, latest]` |
| LassoSimple.TwoVertexLassoFallsBack | src/renderer/src/components/lasso-simple.tsx:240-258 | with the two vertices the ref can hold, the polygon test selects nothing, so the lasso query always goes through the fallback circle around the bounding box |
| LassoSimple.SimpleLasso.constructor | src/renderer/src/components/lasso-simple.tsx:71-104 | the hook starts inactive with no lasso, rectangle, circle or ref, its index built over the precomputed points |
| LassoSimple.SimpleLasso.MouseDown | src/renderer/src/components/lasso-simple.tsx:106-126 | mouse-down activates and starts the rectangle, the circle, or a lasso and ref of just the point, by mode; the other shapes are untouched |
| LassoSimple.SimpleLasso.MouseMove | src/renderer/src/components/lasso-simple.tsx:128-162 | nothing changes while inactive; otherwise the rectangle's second corner, the circle's radius (the distance to the centre) or the lasso and ref (ref = drawn lasso without its closing copy) are updated |
| LassoSimple.SimpleLasso.PerformSelection | src/renderer/src/components/lasso-simple.tsx:164-277 | rectangle and circle queries select, up to order, exactly what the exact tests select over all indexed points; a lasso needs two ref vertices and then selects the polygon's points, or the fallback-circle points when there are none |
| LassoSimple.SimpleLasso.MouseUp | src/renderer/src/components/lasso-simple.tsx:279-290 | mouse-up emits one selection, deactivates and clears every shape; a lasso with two ref vertices emits the fallback-circle selection |
| LassoInstant.InstantLasso.constructor | src/renderer/src/components/lasso-instant.tsx:97-121 | the hook starts inactive with no shapes and its index built over the precomputed points |
| LassoInstant.InstantLasso.MouseDown | src/renderer/src/components/lasso-instant.tsx:123-137 | mouse-down activates and starts the shape of the mode from the point |
| LassoInstant.InstantLasso.MouseMove | src/renderer/src/components/lasso-instant.tsx:139-180 | nothing changes while inactive; a lasso move is kept only when the ref is empty or the point moved more than 2 pixels along an axis from the ref's last vertex |
| LassoInstant.InstantLasso.PerformSelection | src/renderer/src/components/lasso-instant.tsx:182-235 | rectangle and circle select exactly the exact tests' points over all indexed points; a lasso with more than two ref vertices selects exactly the polygon's points, otherwise nothing |
| LassoInstant.InstantLasso.MouseUp | src/renderer/src/components/lasso-instant.tsx:237-248 | mouse-up emits one selection and clears every shape; a lasso gesture always emits the empty selection because the ref never exceeds two vertices |
| LassoOptimized.CloseAfterMoveClosed | src/renderer/src/components/lasso-optimized.tsx:128-138 | a lasso move keeps the list closed (its last vertex a copy of its first) and, past the first move, one vertex longer |
| LassoOptimized.OptimizedLasso.constructor | src/renderer/src/components/lasso-optimized.tsx:78-85 | the hook starts inactive with its grid built by `createSpatialGrid` over the precomputed points |
| LassoOptimized.OptimizedLasso.MouseDown | src/renderer/src/components/lasso-optimized.tsx:100-112 | mouse-down activates and starts the shape of the mode from the point |
| LassoOptimized.OptimizedLasso.MouseMove | src/renderer/src/components/lasso-optimized.tsx:114-141 | nothing changes while inactive; otherwise the rectangle corner, circle radius or closed lasso is updated |
| LassoOptimized.OptimizedLasso.Candidates | src/renderer/src/components/lasso-optimized.tsx:155-163 | the candidates of a box are the buckets of its intersecting cells, as a multiset exactly the points whose cell is in the box's range |
| LassoOptimized.OptimizedLasso.PerformSelection | src/renderer/src/components/lasso-optimized.tsx:143-219 | rectangle and circle select, up to order, exactly what their exact tests select over all points; a lasso of more than two listed vertices selects the grid candidates of its bounding box that the polygon test, without the closing copy, accepts |
| LassoOptimized.LassoSelectsAll | src/renderer/src/components/lasso-optimized.tsx:189-215 | when the polygon test accepts only positions inside the polygon's bounding box, the lasso selection is, up to order, exactly what the test accepts over all points |
| LassoOptimized.ContainsViaGrid | src/renderer/src/components/lasso-optimized.tsx:200-215 | filtering the bounding box's grid candidates equals, as a multiset, filtering every indexed point, for such a test |
| LassoOptimized.EvenOddWithinBounds | src/renderer/src/components/lasso-optimized.tsx:211-215 | the even-odd polygon test accepts only positions inside the polygon's bounding box |
| LassoOptimized.OptimizedLasso.MouseUp | src/renderer/src/components/lasso-optimized.tsx:221-230 | mouse-up emits one selection, deactivates and clears the shapes |
| LassoOriginal.SelectionPolygon | src/renderer/src/components/lasso-original.tsx:40-62 | after mouse-down at d and moves ps, the polygon handed to `polygonContains` is exactly d followed by ps |
| LassoOriginal.OriginalLasso.constructor | src/renderer/src/components/lasso-original.tsx:6-8 | the hook starts inactive with no lasso |
| LassoOriginal.OriginalLasso.MouseDown | src/renderer/src/components/lasso-original.tsx:23-30 | mouse-down activates and sets the lasso to the point |
| LassoOriginal.OriginalLasso.MouseMove | src/renderer/src/components/lasso-original.tsx:32-55 | nothing changes while inactive; otherwise the point goes before the closing copy of the first vertex |
| LassoOriginal.OriginalLasso.MouseUp | src/renderer/src/components/lasso-original.tsx:57-98 | an empty lasso selects nothing; otherwise exactly the data points, in order, inside both the bounding box and the polygon (closing copy removed past two vertices); the lasso is cleared |
| LassoWorker.SelectionWorker.constructor | src/renderer/src/workers/lasso-worker.js:81 | the worker starts with no index |
| LassoWorker.SelectionWorker.OnMessage | src/renderer/src/workers/lasso-worker.js:84-153 | `INIT_DATA` builds a fresh index of exactly the points and answers `INIT_COMPLETE`; queries before it, lassos under three vertices and unknown types get no answer; otherwise the answer is, up to order, exactly the indexed points the exact test accepts |
| LassoWorker.InitMessage | src/renderer/src/components/lasso-worker.tsx:39-53 | `INIT_DATA` is posted iff there is a worker and data, carrying every point precomputed, in order |
| LassoWorker.Delivered | src/renderer/src/components/lasso-worker.tsx:25-30 | only a `SELECTION_RESULT` reaches `onSelection`, with its points unchanged |
| LassoWorker.WorkerLasso.constructor | src/renderer/src/components/lasso-worker.tsx:10-18 | the hook starts inactive with no shapes and an empty ref |
| LassoWorker.WorkerLasso.MouseDown | src/renderer/src/components/lasso-worker.tsx:55-69 | mouse-down activates and starts the shape of the mode from the point |
| LassoWorker.WorkerLasso.MouseMove | src/renderer/src/components/lasso-worker.tsx:71-112 | nothing changes while inactive; a lasso move is kept only past the 2-pixel threshold |
| LassoWorker.WorkerLasso.PerformSelection | src/renderer/src/components/lasso-worker.tsx:114-133 | without a worker nothing is posted; otherwise the rectangle, the circle, or a lasso ref of more than two vertices is posted as its request, and a posted lasso always meets the worker's three-vertex minimum |
| LassoWorker.WorkerLasso.MouseUp | src/renderer/src/components/lasso-worker.tsx:135-146 | mouse-up posts the query and clears every shape; a lasso gesture never posts, because the ref never exceeds two vertices |
| PixelSelection.Latest | src/renderer/src/components/pixel-selection.tsx:267-270 | the point a mouse-up selects with is the ref's point when the ref holds one, else the state's; there is one iff either holds one |
| PixelSelection.PixelSelector.constructor | src/renderer/src/components/pixel-selection.tsx:28-64 | the component starts not selecting, with no points and its grid built over the data |
| PixelSelection.PixelSelector.RebuildGrid | src/renderer/src/components/pixel-selection.tsx:43-64 | a data change clears the grid and re-buckets exactly the new data, leaving the gesture untouched |
| PixelSelection.PixelSelector.PerformPixelSelection | src/renderer/src/components/pixel-selection.tsx:78-192 | without start and current points nothing is emitted; otherwise, up to order, exactly the points the mode's exact test accepts (a lasso of at most two vertices selects nothing) |
| PixelSelection.PixelSelector.MouseDown | src/renderer/src/components/pixel-selection.tsx:216-230 | without a canvas point nothing changes; otherwise selection starts with start, current and ref at the point, and a lasso of just the point |
| PixelSelection.PixelSelector.MouseMove | src/renderer/src/components/pixel-selection.tsx:233-254 | while selecting, the ref takes the point and a lasso grows by it; the current-point state is untouched |
| PixelSelection.PixelSelector.MouseUp | src/renderer/src/components/pixel-selection.tsx:256-280 | the intended mouse-up: a no-op unless selecting; otherwise, up to order, exactly what the mode's test accepts for the gesture from the start to the pointer's latest position, then the gesture is reset |
| PixelSelection.PixelSelector.MouseUpAsWritten | src/renderer/src/components/pixel-selection.tsx:256-280 | the mouse-up as the component runs it: the selection uses the `currentPoint` state the memoised callback holds, not the ref's latest point, then the gesture is reset |
| PixelSelection.PixelSelector.StaleGesture | src/renderer/src/components/pixel-selection.tsx:216-280 | a rectangle or circle gesture of a press, any moves and the as-written mouse-up selects, up to order, exactly the points drawn at the press position |
| PixelSelection.StaleRectangleSelectsPressPoint | src/renderer/src/components/pixel-selection.tsx:94-121 | a rectangle whose corners coincide selects exactly the points at that corner |
| PixelSelection.StaleCircleSelectsPressPoint | src/renderer/src/components/pixel-selection.tsx:123-154 | a circle whose edge point is its centre (radius 0) selects exactly the points at the centre |
| PixelSelection.ZeroCircle | src/renderer/src/components/pixel-selection.tsx:148 | with a radius that squares to 0 the inclusive squared-distance test holds only at the centre |
| PixelSelection.StaleCurrentMissesDrag | src/renderer/src/components/pixel-selection.tsx:256-273 | a point at (5, 5), pressed at (0, 0) and released at (10, 10): the intended rectangle selects it, the one the as-written mouse-up tests selects nothing |
| PixelSelection.PixelSelector.MouseLeave | src/renderer/src/components/pixel-selection.tsx:282-287 | leaving while selecting completes the gesture exactly as a mouse-up; otherwise nothing happens |
| PixelSelectionFast.FastSelector.constructor | src/renderer/src/components/pixel-selection-fast.tsx:23-27 | the component starts not selecting, with no points |
| PixelSelectionFast.FastSelector.PerformSelection | src/renderer/src/components/pixel-selection-fast.tsx:30-92 | without start and current points nothing is emitted; otherwise the data points, in data order, that the mode's exact test accepts |
| PixelSelectionFast.FastSelector.MouseDown | src/renderer/src/components/pixel-selection-fast.tsx:123-134 | without a canvas point nothing changes; otherwise selection starts at the point |
| PixelSelectionFast.FastSelector.MouseMove | src/renderer/src/components/pixel-selection-fast.tsx:137-151 | while selecting, the current point moves and a lasso grows by the point |
| PixelSelectionFast.FastSelector.MouseUp | src/renderer/src/components/pixel-selection-fast.tsx:153-163 | a no-op unless selecting; otherwise the scan's selection is emitted and the gesture reset |
| PixelSelectionFast.FastSelector.MouseLeave | src/renderer/src/components/pixel-selection-fast.tsx:165-169 | leaving while selecting is a mouse-up; otherwise nothing happens |
| SelectionWorker.DistanceTest | src/renderer/src/workers/selection-worker.ts:40-54 | comparing the two square roots `distance <= radius` is the squared-distance test |
| SelectionWorker.OnMessage | src/renderer/src/workers/selection-worker.ts:26-60 | the reply is the sub-list of the points, in order and with repetitions, that the test accepts: for a rectangle the points between the corners, for a circle those within the start-to-end distance of the start, and nothing for any other type |
| SelectionWorker.RectangleCornerOrder | src/renderer/src/workers/selection-worker.ts:30-39 | swapping the rectangle's start and end corners changes no reply |
| SelectionWorkerOptimized.KeepInPolygon | src/renderer/src/workers/selection-worker-optimized.ts:101-103 | the filter keeps exactly the candidates inside the polygon, in order |
| SelectionWorkerOptimized.TreeOrderPermutes | src/renderer/src/workers/selection-worker-optimized.ts:38-44 | the packed tree's item order holds valid indices, and the points it picks are, as a multiset, exactly the indexed points |
| SelectionWorkerOptimized.PickFilter | src/renderer/src/workers/selection-worker-optimized.ts:57-58 | the points at the search's hits, in tree order, are the tree-ordered points filtered by the box |
| SelectionWorkerOptimized.InBoxIndices | src/renderer/src/workers/selection-worker-optimized.ts:57 | the box search returns valid indices whose points are the tree-ordered points inside the closed box, and as a multiset exactly the points in the box |
| SelectionWorkerOptimized.CircleKeepsRoot | src/renderer/src/workers/selection-worker-optimized.ts:64-84 | the squared-distance test against the square-rooted radius is the squared-distance test against the squared extent |
| SelectionWorkerOptimized.OptimizedSelectionWorker.constructor | src/renderer/src/workers/selection-worker-optimized.ts:27-29 | the worker starts with no index and no points |
| SelectionWorkerOptimized.OptimizedSelectionWorker.BuildSpatialIndex | src/renderer/src/workers/selection-worker-optimized.ts:31-47 | building always keeps the given points; a non-empty list becomes the index, with the tree order `finish()` gives it, while an empty one fails (`new Flatbush(0)` throws) and leaves the old index in place |
| SelectionWorkerOptimized.OptimizedSelectionWorker.Search | src/renderer/src/workers/selection-worker-optimized.ts:57-58 | the index search gives valid indices of the indexed points in the box, in tree order, and as a multiset exactly the points in the box |
| SelectionWorkerOptimized.OptimizedSelectionWorker.SelectRectangle | src/renderer/src/workers/selection-worker-optimized.ts:49-59 | without an index nothing; otherwise the points between the corners in tree order, which up to order are exactly the rectangle filter over all points; over an index left from before a failed build, nothing but one `undefined` per hit |
| SelectionWorkerOptimized.OptimizedSelectionWorker.SelectCircle | src/renderer/src/workers/selection-worker-optimized.ts:61-85 | without an index nothing; otherwise the points within the start-to-end distance of the start in tree order, which up to order are exactly the circle filter over all points; over an index left from before a failed build, nothing, and it throws exactly when the old index has a hit in the shape's box |
| SelectionWorkerOptimized.OptimizedSelectionWorker.SelectLasso | src/renderer/src/workers/selection-worker-optimized.ts:87-104 | without an index or with fewer than three vertices nothing; otherwise the points inside the polygon in tree order, which up to order are exactly the polygon filter over all points; over an index left from before a failed build, nothing, and it throws exactly when the old index has a hit in the shape's box |
| SelectionWorkerOptimized.OptimizedSelectionWorker.HandleMessage | src/renderer/src/workers/selection-worker-optimized.ts:122-169 | the index is rebuilt, over the new tree order, only when missing or when the point count changed; a rebuild over no points throws, is caught and answered with nothing, and keeps the old index with the points cleared; with an index over the points each request type answers with its selection in tree order, which up to order is the brute-force filter, and a request without bounds or polygon answers nothing; over an index left from a failed build a rectangle answers one `undefined` per old hit and a circle or lasso nothing |
| SelectionWorkerOptimized.EmptyAfterPoints | src/renderer/src/workers/selection-worker-optimized.ts:34-37 | one point, then two empty messages: the second is answered with nothing after its build fails, and the third searches the first index and answers a rectangle around the old point with one `undefined` |
| Common.SeqMin | src/renderer/src/components/plot-canvas.tsx:51-57 | the running minimum of a non-empty list is at most every element and equals one |
| Common.SeqMax | src/renderer/src/components/plot-canvas.tsx:51-57 | the running maximum of a non-empty list is at least every element and equals one |
| PlotSettings.ExtentEqual | src/renderer/src/components/plot-canvas.tsx:75 | `minScore === maxScore` holds iff every score equals the first |
| PlotSettings.AutoScale | src/renderer/src/components/plot-canvas.tsx:45-106 | without an auto flag the range is kept; uniform expression data gets score ± 0.1; differing scores get the extremes where flagged and 0 / 10 where not; no data or uniform non-expression data gets 0 and 1 / 10 |
| PlotSettings.ComputeAutoScale | src/renderer/src/components/plot-canvas.tsx:47-102 | the one-pass loop over the scores followed by the case analysis computes exactly `AutoScale` |
| PlotSettings.AutoScaleOrdered | src/renderer/src/components/plot-canvas.tsx:72-101 | with a flag set the new minimum is at most the new maximum, unless exactly one flag is set and its data extreme lies beyond the fixed default it is paired with (above 10, or below 0) |
| CanvasColor.HexDigit | src/renderer/src/components/plot-canvas.tsx:175 | a hex digit has a value below 16, and a decimal digit its own value |
| CanvasColor.PairValue | src/renderer/src/components/plot-canvas.tsx:181-183 | `parseInt` of two hex digits is a byte |
| CanvasColor.ColourDigits | src/renderer/src/components/plot-canvas.tsx:175 | the pattern `^#?([a-f\d]{2}){3}$` (case-insensitive) matches iff the text is six hex digits, optionally after `#` |
| CanvasColor.HexToRgb | src/renderer/src/components/plot-canvas.tsx:168-185 | every parsed channel is a byte |
| CanvasColor.DigitChar | src/renderer/src/components/plot-canvas.tsx:175 | the digit written for a value below 16 parses back to that value |
| CanvasColor.ToHex | src/renderer/src/components/plot-canvas.tsx:168-185 | the hex text of a colour is `#` and six characters |
| CanvasColor.HexRoundTrip | src/renderer/src/components/plot-canvas.tsx:168-185 | parsing the hex text of a byte-range colour gives the colour back |
| CanvasColor.ShortHex | src/renderer/src/components/plot-canvas.tsx:171-173 | a `#rgb` colour is read as `#rrggbb`, each channel 17 times its digit |
| CanvasColor.MalformedIsBlack | src/renderer/src/components/plot-canvas.tsx:176-179 | text that is neither `#rgb` nor six hex digits parses as black |
| CanvasColor.ChannelBetween | src/renderer/src/components/plot-canvas.tsx:190-192 | the floored interpolated channel for a position in [0, 1] lies between the two end channels |
| CanvasColor.ChannelEnds | src/renderer/src/components/plot-canvas.tsx:190-192 | the interpolated channel is the minimum colour's at 0 and the maximum colour's at 1 |
| CanvasColor.ColorScale | src/renderer/src/components/plot-canvas.tsx:159-197 | an empty score range gives the minimum colour as written; otherwise the range's ends map to the parsed end colours |
| CanvasColor.ColorScaleInRange | src/renderer/src/components/plot-canvas.tsx:159-197 | a score within a non-empty range gets an `rgb(…)` colour whose channels are bytes |
| PlotCanvas.MakeScales | src/renderer/src/components/plot-canvas.tsx:109-151 | there are no scales iff there is no data; otherwise both domains enclose every data and label position with 2 units to spare on each side |
| PlotCanvas.ScalesFromBounds | src/renderer/src/components/plot-canvas.tsx:137-139 | the domains are the scanned bounds widened by 2 on each side |
| PlotCanvas.ScanData | src/renderer/src/components/plot-canvas.tsx:115-123 | the data loop computes the bounds of the data positions |
| PlotCanvas.ScanLabels | src/renderer/src/components/plot-canvas.tsx:126-131 | the label loop extends the bounds so far by the label positions |
| PlotCanvas.ComputeScales | src/renderer/src/components/plot-canvas.tsx:109-151 | the two loops compute exactly `MakeScales` |
| PlotCanvas.ScaleRoundTrip | src/renderer/src/components/plot-canvas.tsx:146-151 | the scale and its inverse undo each other in both directions |
| PlotCanvas.PaddedInsideCanvas | src/renderer/src/components/plot-canvas.tsx:137-147 | a value at least 2 inside its domain lands strictly inside the canvas |
| PlotCanvas.PositionsOnCanvas | src/renderer/src/components/plot-canvas.tsx:109-151 | every data and label position lands strictly inside the canvas and inverts back to itself |
| PlotCanvas.ClosestUpTo | src/renderer/src/components/plot-canvas.tsx:365-395 | the loop's pick among the first k labels is none iff none lies within 20 pixels; otherwise it lies within 20 pixels, is nearest, and is the first of the nearest |
| PlotCanvas.FindLabelAtPoint | src/renderer/src/components/plot-canvas.tsx:365-395 | `findLabelAtPoint` is null without scales or when no label lies within 20 pixels; otherwise the first of the nearest labels within 20 pixels |
| PlotCanvas.ReplaceLabel | src/renderer/src/components/plot-canvas.tsx:550-569 | starting a drag copies the labels with each one of the grabbed name replaced by the grabbed label |
| PlotCanvas.MoveLabel | src/renderer/src/components/plot-canvas.tsx:571-596 | a drag move sets the position of the labels of that name and changes nothing else |
| PlotCanvas.FreeformSpaced | src/renderer/src/components/plot-canvas.tsx:445-458 | a freeform move appends the point iff it lies more than 10 pixels from the last vertex (or starts the path), so path vertices stay more than 10 pixels apart |
| PlotCanvas.SelectInSquare | src/renderer/src/components/plot-canvas.tsx:523-539 | the square loop selects exactly the data points, in order, whose canvas position lies in the square |
| PlotCanvas.SelectInPath | src/renderer/src/components/plot-canvas.tsx:494-504 | the path loop selects exactly the data points, in order, whose canvas position lies inside the path |
| PlotCanvas.SquareCornersCommute | src/renderer/src/components/plot-canvas.tsx:525-529 | swapping the square's start and end changes no selection |
| PlotCanvas.PathSelectionBounded | src/renderer/src/components/plot-canvas.tsx:494-504 | a point the path selects lies, on the canvas, inside the path's bounding box |
| PlotCanvas.ShortPathSelectsNothing | src/renderer/src/components/plot-canvas.tsx:480-489 | a path of fewer than three vertices selects nothing |
| PlotCanvas.CanvasPlot.constructor | src/renderer/src/components/plot-canvas.tsx:25-43 | the component starts idle with no path, square, drag, hover or selection, its scales `MakeScales` of the data and labels |
| PlotCanvas.CanvasPlot.AutoScaleEffect | src/renderer/src/components/plot-canvas.tsx:45-106 | the effect replaces the score range by `AutoScale` and keeps every other setting |
| PlotCanvas.CanvasPlot.MouseDown | src/renderer/src/components/plot-canvas.tsx:398-432 | a press on a displayed label starts dragging it and no selection; otherwise a freeform path or a square starts at the point |
| PlotCanvas.CanvasPlot.MouseMove | src/renderer/src/components/plot-canvas.tsx:434-466 | a dragged label follows the mouse in data coordinates; while drawing without a drag the path grows or the square's end moves; otherwise the label under the mouse becomes the hovered one |
| PlotCanvas.CanvasPlot.MouseUp | src/renderer/src/components/plot-canvas.tsx:468-547 | ends any drag; without a gesture reports nothing; otherwise reports, and keeps as selected, the path's or square's points, or the empty selection for a short path or a missing square |
| ScoreOrder.Insert | src/renderer/src/components/plot.tsx:249 | inserting into an ordered list keeps it ordered and adds exactly the element |
| ScoreOrder.SortByKey | src/renderer/src/components/plot.tsx:249 | sorting by a key gives an ordered permutation of the input |
| Plot.XDomain | src/renderer/src/components/plot.tsx:68-76 | no data gives [0, 1]; otherwise the domain encloses every x with 2 to spare, the padding attained at both ends |
| Plot.YDomain | src/renderer/src/components/plot.tsx:78-86 | no data gives [0, 1]; otherwise the domain encloses every y with 2 to spare, the padding attained at both ends |
| Plot.ComputeXDomain | src/renderer/src/components/plot.tsx:68-76 | the extent loop computes exactly `XDomain` |
| Plot.ComputeYDomain | src/renderer/src/components/plot.tsx:78-86 | the extent loop computes exactly `YDomain` |
| Plot.ZoomKeepsMousePoint | src/renderer/src/components/plot.tsx:128-137 | zooming about the mouse keeps the data point under the mouse fixed |
| Plot.StaleFilter | src/renderer/src/components/plot.tsx:212-244 | with no data, or every selected point still present, nothing changes; otherwise the selection keeps, in order, the points still present and the message counts all or the number lost |
| Plot.Fills | src/renderer/src/components/plot.tsx:274-296 | a point is gray iff there is a selection and it is not in it; every other point is coloured by its score |
| Plot.SvgPlot.constructor | src/renderer/src/components/plot.tsx:35-86 | the plot starts unzoomed with no message and its domains `XDomain` and `YDomain` |
| Plot.SvgPlot.Wheel | src/renderer/src/components/plot.tsx:115-143 | a wheel event outside the plot area changes nothing; otherwise the zoom is divided or multiplied by 1.1; above 1 it resets to 1 with no translation, else the translation zooms about the mouse |
| Plot.SvgPlot.AutoScaleEffect | src/renderer/src/components/plot.tsx:157-209 | the effect replaces the score range by `AutoScale` and keeps the rest |
| Plot.SvgPlot.StaleSelectionEffect | src/renderer/src/components/plot.tsx:212-244 | the selection and its message become what `StaleFilter` gives, or stay when it changes nothing |
| Plot.SvgPlot.ReportedSelection | src/renderer/src/components/plot.tsx:248-255 | the reported selection is a permutation of the selected points, each recoloured by `colorScale` of its score, in descending score order |
| Plot.RecoloredPermutation | src/renderer/src/components/plot.tsx:249-253 | recolouring two lists holding the same points gives lists holding the same recoloured points, so sorting before the `map` loses nothing |
| Plot.RecoloredAt | src/renderer/src/components/plot.tsx:250-253 | recolouring keeps the length and gives each point the colour of its own score, all other fields kept |
| App.FindResource | src/renderer/src/App.tsx:362 | `resources.find` gives nothing iff no resource has the name, else the first one that has it |
| App.LastWithIndex | src/renderer/src/App.tsx:548 | the `Map` built from the data finds nothing iff no point has the index, else the last point with it |
| App.Rescore | src/renderer/src/App.tsx:544-566 | nothing happens when the selection or the data is empty; otherwise every selected point keeps its index and position and takes score and colour from the current point with its index, or stays as it was |
| App.RescoreIdempotent | src/renderer/src/App.tsx:544-566 | re-scoring a second time against the same data changes nothing |
| App.ExpressionTargets | src/renderer/src/App.tsx:443-455 | the computation returns early iff there is no resource, no gene or no base data; otherwise it targets the selected indices, or every base index without a selection |
| App.GeneSumAppend | src/renderer/src/App.tsx:507-510 | the per-point gene sum is additive over the gene list |
| App.GeneSumSingle | src/renderer/src/App.tsx:507-510 | the sum over one gene is that gene's value |
| App.FallbackPoint | src/renderer/src/App.tsx:511-518 | a fallback point takes its position from `umap_1`/`umap_2`, its index from the row, no colour, and the expression flag |
| App.AssembleFallback | src/renderer/src/App.tsx:504-522 | the fallback loop produces one scored point per row, sorted by ascending score |
| App.ExpressionPoints | src/renderer/src/App.tsx:477-487 | the DuckDB rows become expression points, a permutation sorted by ascending score |
| App.AppState.constructor | src/renderer/src/App.tsx:24-46 | the shell starts loading, with no resource, no category, `All_Genes` selected and no data or selection |
| App.AppState.ResourceChange | src/renderer/src/App.tsx:359-367 | choosing a resource starts loading, takes the first resource of that name, resets the category to `default` and selects `All_Genes` |
| App.AppState.CategoryChange | src/renderer/src/App.tsx:369-375 | the `default` category clears the genes; any other category selects its gene list; minor loading starts |
| App.AppState.RescoreEffect | src/renderer/src/App.tsx:544-566 | the selection becomes `Rescore` of itself against the data, or stays when that is nothing |
| GeneCheckboxList.FilteredGenes | src/renderer/src/components/gene-checkbox-list.tsx:21-27 | an empty search keeps every gene; otherwise exactly the genes, in order, whose lower-cased text contains the lower-cased search |
| GeneCheckboxList.SearchIgnoresCase | src/renderer/src/components/gene-checkbox-list.tsx:23-25 | two searches equal up to case filter alike |
| GeneCheckboxList.Partition | src/renderer/src/components/gene-checkbox-list.tsx:30-41 | the selected section is the filtered selected genes in order; the unselected section is the rest in order, or when not showing all its first 50 (all of them when there are fewer) |
| GeneCheckboxList.PartitionCovers | src/renderer/src/components/gene-checkbox-list.tsx:30-41 | showing all, the two sections together are exactly the filtered genes |
| GeneCheckboxList.Apply | src/renderer/src/components/gene-checkbox-list.tsx:43-73 | select-all gives `All_Genes` alone and clear-all nothing; `All_Genes` is exclusive; checking a gene drops `All_Genes` and appends it; unchecking removes every copy and keeps the rest |
| GeneCheckboxList.CheckThenUncheck | src/renderer/src/components/gene-checkbox-list.tsx:43-65 | checking and then unchecking an unselected gene restores a selection without `All_Genes` |
| GeneCheckboxList.ItemChange | src/renderer/src/components/gene-checkbox-list.tsx:150 | a box that becomes checked selects its gene and one that becomes unchecked deselects it |
| GeneCheckboxList.SelectedClickKeepsGene | src/renderer/src/components/gene-checkbox-list.tsx:124 | as written, clicking a selected box appends its gene once more (`All_Genes` stays selected alone) instead of deselecting it |
| AnnotationList.LexTotal | src/renderer/src/components/annotation-list.tsx:38 | the name order compares any two names |
| AnnotationList.LexTrans | src/renderer/src/components/annotation-list.tsx:38 | the name order is transitive |
| AnnotationList.LexAntisym | src/renderer/src/components/annotation-list.tsx:38 | names ordered both ways are equal |
| AnnotationList.LastByName | src/renderer/src/components/annotation-list.tsx:37 | the `Map` holds nothing for a name iff no label has it, else a label of that name after which no label has that name |
| AnnotationList.PutByName | src/renderer/src/components/annotation-list.tsx:37 | `Map.set` replaces the entry of the label's name or adds one, keeping names distinct |
| AnnotationList.MapValues | src/renderer/src/components/annotation-list.tsx:36-37 | the map's values have distinct names, the labels' names, each the last label of its name |
| AnnotationList.InsertByName | src/renderer/src/components/annotation-list.tsx:38 | inserting into a name-sorted list keeps it sorted and adds exactly the label |
| AnnotationList.InsertKeepsDistinct | src/renderer/src/components/annotation-list.tsx:38 | inserting a new name keeps names distinct |
| AnnotationList.SortByName | src/renderer/src/components/annotation-list.tsx:38 | the sort gives a name-sorted permutation that keeps names distinct |
| AnnotationList.UniqueLabels | src/renderer/src/components/annotation-list.tsx:35-38 | the list shows one label per name, sorted by name, each the last label of its name |
| AnnotationList.UniqueLabelsStrictlyOrdered | src/renderer/src/components/annotation-list.tsx:35-38 | the shown names are strictly increasing |
| AnnotationList.VisibleEntries | src/renderer/src/components/annotation-list.tsx:43-52 | over the one-per-name entries, the visible names are exactly the names the visibility set holds (every name when the set is empty) |
| AnnotationList.HighlightedEntries | src/renderer/src/components/annotation-list.tsx:43-52 | two entries are highlighted at once only when the hovered and the selected annotation have different names, so at most two are |
| DataProcessor.DataBounds | src/renderer/src/services/data-processor.ts:62-69 | no data gives the defaults 0 and 1 for every range |
| DataProcessor.DataBoundsAreExtremes | src/renderer/src/services/data-processor.ts:28-69 | every bound encloses every point's x, y and score |
| DataProcessor.DataBoundsAttained | src/renderer/src/services/data-processor.ts:28-69 | with data, each of the six bounds is the value of some point |
| DataProcessor.RunningBoundsAreBounds | src/renderer/src/services/data-processor.ts:33-54 | the running extremes after i points are the bounds of the first i points |
| DataProcessor.ProcessDataForGpu | src/renderer/src/services/data-processor.ts:18-73 | the buffers hold each point's x and y interleaved, its score and its index, and the bounds are `DataBounds` |
| DataProcessor.Matches | src/renderer/src/services/data-processor.ts:90-91 | the matching entries are valid positions |
| DataProcessor.MatchesAreSelected | src/renderer/src/services/data-processor.ts:90-91 | the matches are exactly the selected entries, in increasing order |
| DataProcessor.MatchedValues | src/renderer/src/services/data-processor.ts:90-91 | the matched indices are selected ones present in the data |
| DataProcessor.MatchesFit | src/renderer/src/services/data-processor.ts:85-101 | with distinct indices, the matches never outnumber the selected set, so every match gets a slot |
| DataProcessor.CompactedWrite | src/renderer/src/services/data-processor.ts:91-99 | while a slot remains, one more match lands in the next slot and the buffers stay compacted |
| DataProcessor.CompactedDrop | src/renderer/src/services/data-processor.ts:91-99 | once every slot is taken, a further match is dropped and the buffers stay compacted |
| DataProcessor.CreateSelectionBuffer | src/renderer/src/services/data-processor.ts:80-108 | the count is the selected set's size; slot k holds the k-th matching entry's position and score, and slots past the last match stay 0 |
| DataProcessor.NormalizeCoord | src/renderer/src/services/data-processor.ts:120-122 | the range's ends map to -1 and 1 and a value within the range lands in [-1, 1] |
| DataProcessor.NormalizePositions | src/renderer/src/services/data-processor.ts:110-126 | every x and y is normalised against its own range |
| DataProcessor.NormalizeScore | src/renderer/src/services/data-processor.ts:136 | an empty range gives 0; otherwise the ends map to 0 and 1 and a score within the range lands in [0, 1] |
| DataProcessor.NormalizeScores | src/renderer/src/services/data-processor.ts:128-140 | every score is normalised against the score range |
| DataProcessor.NormalizedScoresInUnit | src/renderer/src/services/data-processor.ts:128-140 | a point's score normalised against its data's bounds lies in [0, 1] |
| DatasetCache.Lookup | src/renderer/src/services/dataset-cache.ts:38-60 | a lookup misses exactly when no entry has the key, and otherwise returns a stored entry with that key |
| DatasetCache.Touch | src/renderer/src/services/dataset-cache.ts:211-225 | only the entry with the key gets the new timestamp; every other entry and the order are kept |
| DatasetCache.Put | src/renderer/src/services/dataset-cache.ts:62-86 | storing keeps keys distinct, makes the key find the new entry, and leaves every other key's lookup unchanged |
| DatasetCache.WithoutDistinct | src/renderer/src/services/dataset-cache.ts:183-209 | deleting several keys keeps the stored keys distinct |
| DatasetCache.WithoutSnoc | src/renderer/src/services/dataset-cache.ts:183-209 | deleting the keys one after another equals deleting them together |
| DatasetCache.StatsOf | src/renderer/src/services/dataset-cache.ts:118-147 | the count and total size of the store, with the oldest and newest timestamps being the least and greatest stored ones (both 0 when empty) |
| DatasetCache.SumSizesAppend | src/renderer/src/services/dataset-cache.ts:136 | the total size of two stores is the sum of their totals |
| DatasetCache.CursorOrder | src/renderer/src/services/dataset-cache.ts:167-178 | the timestamp-index cursor visits the entries oldest first, each exactly once |
| DatasetCache.EvictCount | src/renderer/src/services/dataset-cache.ts:167-178 | the number of entries evicted lies between the start and the store size |
| DatasetCache.EvictCountMinimal | src/renderer/src/services/dataset-cache.ts:149-181 | eviction stops at the first oldest-first prefix whose removal makes the new entry fit, or evicts everything |
| DatasetCache.FitsEvictsNothing | src/renderer/src/services/dataset-cache.ts:152-154 | when the new entry already fits under the size limit nothing is evicted |
| DatasetCache.ToInt32 | src/renderer/src/services/dataset-cache.ts:246 | the 32-bit conversion of `hash & hash` lies in the signed 32-bit range and agrees with its input modulo 2^32 |
| DatasetCache.ToInt32Congruent | src/renderer/src/services/dataset-cache.ts:246 | inputs equal modulo 2^32 convert to the same 32-bit value |
| DatasetCache.HashStepIsTimes31 | src/renderer/src/services/dataset-cache.ts:245-246 | one hash step is `hash * 31 + charCode` wrapped to 32 bits |
| DatasetCache.Hash | src/renderer/src/services/dataset-cache.ts:242-247 | the string hash is a signed 32-bit integer |
| DatasetCache.InsertString | src/renderer/src/services/dataset-cache.ts:238 | inserting into a sorted gene list keeps it sorted and adds exactly the new gene |
| DatasetCache.SortStrings | src/renderer/src/services/dataset-cache.ts:238 | the sorted gene list is ordered and a permutation of the genes |
| DatasetCache.SortedUnique | src/renderer/src/services/dataset-cache.ts:238 | two sorted permutations of the same genes are equal |
| DatasetCache.CacheKey | src/renderer/src/services/dataset-cache.ts:233-250 | the key is `dataset_` followed by the base-36 digits of the absolute hash of the key data |
| DatasetCache.CacheKeyIgnoresGeneOrder | src/renderer/src/services/dataset-cache.ts:238-249 | gene lists that are permutations of each other give the same cache key |
| DatasetCache.HashLoop | src/renderer/src/services/dataset-cache.ts:242-247 | the character loop computes the 32-bit string hash |
| DatasetCache.GenerateCacheKey | src/renderer/src/services/dataset-cache.ts:233-250 | the key is `dataset_` followed by the base-36 digits of the absolute hash of the file, sorted genes and highlighted gene |
| DatasetCache.Cache.constructor | src/renderer/src/services/dataset-cache.ts:9-13 | a new cache is empty and not yet initialised |
| DatasetCache.Cache.Initialize | src/renderer/src/services/dataset-cache.ts:15-36 | initialising opens the store and keeps its contents |
| DatasetCache.Cache.Get | src/renderer/src/services/dataset-cache.ts:38-60 | a miss returns nothing and changes nothing; a hit returns the entry's data and refreshes its timestamp |
| DatasetCache.Cache.UpdateTimestamp | src/renderer/src/services/dataset-cache.ts:211-225 | without a database nothing changes; otherwise the key's timestamp is set to now |
| DatasetCache.Cache.GetStats | src/renderer/src/services/dataset-cache.ts:118-147 | the statistics are those of the stored entries, which are unchanged |
| DatasetCache.Cache.DeleteMultiple | src/renderer/src/services/dataset-cache.ts:183-209 | exactly the entries with the given keys are removed |
| DatasetCache.EvictionKeys | src/renderer/src/services/dataset-cache.ts:167-174 | the cursor walk collects exactly the keys of the shortest timestamp-ordered prefix after which the new dataset fits (all keys when none does) |
| DatasetCache.Cache.EnsureSpace | src/renderer/src/services/dataset-cache.ts:149-181 | the oldest entries are removed, in timestamp order, until the required size fits |
| DatasetCache.Cache.Set | src/renderer/src/services/dataset-cache.ts:62-86 | the new store is the old one without the oldest-first records `ensureSpace` evicts, with the new entry put under its key; the key finds it |
| DatasetCache.Cache.Delete | src/renderer/src/services/dataset-cache.ts:88-101 | exactly the entry with the key is removed, after which the key misses |
| DatasetCache.Cache.Clear | src/renderer/src/services/dataset-cache.ts:103-116 | the store is empty |
| DuckDb.EscapePath | src/main/duckdb.ts:46 | a path without backslashes is unchanged and escaping never shortens a path |
| DuckDb.EscapeRoundTrip | src/main/duckdb.ts:46 | the escaped path reads back as the original path |
| DuckDb.ColumnListPieces | src/main/duckdb.ts:48 | splitting the select list at commas gives back each quoted column, in order |
| DuckDb.AverageIsMean | src/main/duckdb.ts:88-94 | the average-expression term evaluates to the mean of the expression columns |
| DuckDb.SumIsSum | src/main/duckdb.ts:88-94 | the sum term evaluates to the sum of the column values |
| DuckDb.AverageSql | src/main/duckdb.ts:88-94 | no columns give no term; one column is just its cast; several are the parenthesised sum divided by the column count |
| DuckDb.AverageDivisor | src/main/duckdb.ts:92-94 | the divisor printed in the term reads back as the column count |
| DuckDb.ToQueryResult | src/main/duckdb.ts:59-60 | the columns are the first row's keys and each data row holds that row's values in order |
| DuckDb.FirstRowRebuilt | src/main/duckdb.ts:59-60 | pairing the columns with the first data row gives back the first row |
| DuckDb.GeneColumns | src/main/duckdb.ts:145-148 | a column is kept exactly when its lower-cased name is not a coordinate or index column, with its multiplicity |
| DuckDb.GeneColumnsKeepAll | src/main/duckdb.ts:145-148 | when no column is a default column the filter keeps the list unchanged |
| DuckDb.DescribedNames | src/main/duckdb.ts:137-146 | the DESCRIBE rows yield their names in order, or fail exactly when some row has no string name |
| DuckDb.Service.constructor | src/main/duckdb.ts:8-11 | a new service is not initialised |
| DuckDb.Service.Initialize | src/main/duckdb.ts:13-29 | a second call succeeds without reopening; a first call succeeds when the database opens and otherwise fails with the error and stays uninitialised |
| DuckDb.Service.QueryParquetFile | src/main/duckdb.ts:31-70 | without a connection the query fails with "DuckDB not initialized"; otherwise it returns the converted rows of the SELECT or its error |
| DuckDb.Service.QueryParquetFileWithExpression | src/main/duckdb.ts:72-125 | without a connection it fails; otherwise it returns the converted rows of the SELECT with the average expression, or its error |
| DuckDb.Service.GetParquetColumns | src/main/duckdb.ts:127-153 | without a connection it fails; otherwise it returns the DESCRIBE names without the default columns, or the query's error |
| DuckDb.Service.Close | src/main/duckdb.ts:155-165 | after closing the service is neither connected nor initialised |
| DuckDb.InitializeTwice | src/main/duckdb.ts:13-29 | initialising twice agrees with initialising once |
| Export.TotalScoreAppend | src/main/export.ts:19-25 | the total score over two gene lists is the sum of their totals |
| Export.NonNumericAddsNothing | src/main/export.ts:22 | a missing, null or unparsable gene value adds 0 to the score |
| Export.TotalScorePermutation | src/main/export.ts:19-25 | the total score does not depend on the order of the selected genes |
| Export.Scored | src/main/export.ts:19-25 | the record gains `total_score`, the sum of its parsed gene values, and keeps every other field |
| Export.ScoreAll | src/main/export.ts:19-25 | every record in the array is replaced by its scored copy |
| Export.ByScore | src/main/export.ts:27 | the records are ordered by descending total score and are a permutation of the input |
| Export.CsvHeader | src/main/export.ts:30-33 | splitting the header line at commas gives index, total_score, umap_1, umap_2, then the selected genes as given |
| Export.CsvLines | src/main/export.ts:33-35 | splitting the CSV at line breaks gives the header line followed by one line per record |
| Export.CsvCells | src/main/export.ts:33-35 | splitting a record's line at commas gives its cells in header order |
| Export.WriteToCsv | src/main/export.ts:4-44 | a failed query writes nothing; otherwise the written text is the CSV of the scored records sorted by descending score |
| Common.DigitsRoundTrip | src/renderer/src/services/dataset-cache.ts:249 | a number written in base 36 reads back as the number |
| Common.SplitJoin | src/main/export.ts:33-35 | joining pieces free of the separator and splitting again gives back the pieces |

## Left out

- Flatbush: the spatial index library is modelled by what its `search` returns for point boxes: the in-box item indices in a fixed item order of its packed tree (the order in which its depth-first search over the tree that `finish()` packs by Hilbert value reaches the items; it depends on the tree, not on the query). That order is a parameter of the build, constrained only to be a permutation of the indices, so the selections the worker returns are stated in that order and, up to order, as the brute-force filters. Its tree layout and node size are not otherwise modelled.
- Distances: `Math.sqrt` is not modelled. Circle tests compare squared distances. Where a handler needs a radius, it receives the distance as an argument that is tied to the squared distance.
- d3's `polygonContains` is a function parameter, and so is DuckDB's execution of a statement. Only the SQL text and the handling of the returned rows are modelled.
- React scheduling: stale closures, batched state updates, effects that run after a render, `requestAnimationFrame` and timers are modelled as updates applied one after another.
- PixelSelection.PixelSelector.MouseUp: this is the intended mouse-up, which selects with the ref's latest point (`PixelSelection.Latest`). In `pixel-selection.tsx` (lines 256-280) mouse-up calls the memoised `performPixelSelection`, which still holds the `currentPoint` of the last render; only a mouse-down sets that state, and `setCurrentPoint(currentPointRef.current)` takes effect only at the next render. As written, every rectangle or circle gesture therefore selects only the points lying exactly at the press position; that behaviour is `PixelSelector.MouseUpAsWritten` and `PixelSelector.StaleGesture`, and it is listed under Findings. A lasso is unaffected, apart from a last move whose animation frame the mouse-up cancels.
- Drawing: canvas and SVG painting, the tooltip, the hover highlight styling and the DOM are left out. What is modelled is the state they are drawn from.
- Web Worker plumbing: `postMessage`, `terminate` and the wiring of a worker's reply to the `onSelection` callback are modelled only as the message the worker would deliver.
- Text: `toLowerCase` lowers only ASCII letters, and string comparison (`localeCompare`, `sort`) is code-point order. `charCodeAt` is the character's code, so characters outside the Basic Multilingual Plane are not split into surrogate pairs.
- Numbers are reals. Float32 rounding in the GPU buffers and NaN and infinities are not modelled. `parseFloat` and number-to-text formatting are function parameters.
- The DuckDB `WHERE` clause is passed through as text. IPC between the main and renderer processes and the database file itself are not part of this model.
- App.ExpressionTargets: App builds a `WHERE index IN (...)` clause from these targets (`App.tsx`, lines 466-474) and passes it as a fourth argument, but the preload bridge (`preload/index.ts`, lines 153-159) forwards only three, so `duckdb.ts` always receives an empty `whereClause` and the expression query covers every row. The model stops at the targets App computes; that the restriction never reaches DuckDB is not modelled.
- The dataset cache's clock (`Date.now`) and the Blob size of an entry are parameters. IndexedDB's asynchronous requests are modelled as completing in order and always succeeding: a request's `onerror`, which rejects the `get`, `set`, `delete` or `clear` promise, is not modelled.
- DatasetCache.CursorOrder: the timestamp cursor orders entries by timestamp, but ties are not put in primary-key order. The ordering is proved; the stability of the sort is not.
- ScoreOrder.SortByKey: proved ordered and a permutation; stability is not proved.
- DuckDb.Service.Initialize: a failed open leaves the service unchanged, so the source's partly assigned database handle before a failing `connect()` is not modelled.
- Export.WriteToCsv: a failure of `writeFileSync` is not modelled. Only a failed query produces the error result.
- App.AppState.CategoryChange: requires a category that is `default` or a key of the category map, because the select offers only those. Any other value would store `undefined` as the gene list in the source.
- App.AssembleFallback: requires every row to hold the selected gene columns. A missing column would yield NaN in the source.
- DataProcessor.NormalizePositions: requires non-zero ranges and an even number of coordinates. A zero range divides by zero in the source, and an odd length reads past the array's end.
- SelectionWorkerOptimized.OptimizedSelectionWorker.HandleMessage: the reply's `undefined` entries are counted (`holes`) rather than stored, and `processingTime` is not modelled. Of the errors the catch can see, only the failing empty build and the `undefined` read after it are modelled. The worker adds exactly as many items as it sizes the index for, and coordinates are reals here, so no other Flatbush error is modelled.
- PlotCanvas.MakeScales: requires a positive canvas width and height. The source passes `window.innerHeight - 50` without checking it (`plot-canvas.tsx`, lines 28 and 654), so a window no more than 50 pixels tall, which gives an empty or inverted range, is not modelled.
- Logging (`console.log`, `console.error`) and the loading spinners' rendering are left out.

## Findings

| source | as written | input that shows it | evidently intended | confidence | as-written member | corrected member |
|---|---|---|---|---|---|---|
| src/renderer/src/components/gene-checkbox-list.tsx:124 | the Selected section calls the toggle handler with `!e.target.checked` | a selected gene whose box is clicked off is appended again instead of removed, and clicking `All_Genes` off keeps it selected | pass `e.target.checked`, as the unselected section does, so unchecking removes the gene | not executed | GeneCheckboxList.SelectedClickKeepsGene | GeneCheckboxList.ItemChange |
| src/renderer/src/components/pixel-selection.tsx:256-273 | mouse-up runs the memoised `performPixelSelection`, whose `currentPoint` is still the press point set at mouse-down, in the same tick as `setCurrentPoint(currentPointRef.current)` | a point at (5, 5), pressed at (0, 0) and released at (10, 10) in rectangle mode is not selected; any rectangle or circle gesture selects only points exactly at the press position | select with the pointer's latest position, e.g. read `currentPointRef.current` inside the selection | not executed | PixelSelection.StaleCurrentMissesDrag | PixelSelection.PixelSelector.MouseUp |
