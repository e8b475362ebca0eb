# Occlusion-query culling demo, modelled in Dafny

The demo draws a 10 × 10 grid of spheres. It uses one GPU occlusion query per sphere
(conservative "any samples passed") to hide spheres whose bounding box is fully
covered by nearer geometry. Results are read back one frame late, so the pipeline
never stalls. This project models the bookkeeping behind that scheme. It also
models the two pure pieces it relies on: the grid placement of the spheres, and the
36-vertex box proxy drawn inside each query.

- `grid.dfy`, module `Grid`: the sphere-creation loop of `init()`. Sphere *i* goes
  to row ⌊i/10⌋ and column i mod 10. Its position is ((row − 4.5)·35, 0,
  (col − 4.5)·35), computed over `real`.
- `bounding_box.dfy`, module `BoundingBox`: `computeBoundingBoxPositions`. Given an
  axis-aligned box, it returns the flat table of 108 coordinates in the source's
  own order: 6 faces × 2 triangles × 3 vertices.
- `occlusion.dfy`, module `Occlusion`: `render()`. The class `Demo` holds the
  sphere array, `firstRender` and `occludedSpheres`. It also has a ghost counter
  `passes`, the number of occlusion passes run so far. Each sphere is a
  `SphereState` record: creation index, position, `queryInProgress`, `occluded`
  and `visible`.
  - `Frame` is one `render()`. It resets the counter. On every frame but the first,
    it depth-sorts the array (`DepthSort`) and runs the per-sphere loop
    (`OcclusionPass`). Then it clears `firstRender`.
  - `Animate` runs `init()` followed by a sequence of frames.
  - The GPU is an oracle. For each sphere's query object, a `QueryReading` says
    whether the result is available and whether any sample passed.
  - The depth sort is also an oracle: a permutation of the array.
  - The `beginQuery`/`drawArrays`/`endQuery` group is recorded as an
    output log: the ids of the spheres whose query was begun, in visiting order.

A new query is begun only when none is in flight (main.js:259-264). If the
previous result is not yet available, nothing is issued, and the stale
`occluded` flag keeps deciding visibility.

## Model

| member | source | states |
|---|---|---|
| `Grid.CellOf` | main.js:83-85 | sphere i is placed in row ⌊i/10⌋, column i mod 10: i = row·10 + col, and for i < 100 the cell lies inside the 10 × 10 grid |
| `Grid.IndexOf` | main.js:83-85 | every cell of the grid is the cell of exactly the index row·10 + col, and that index is below 100 (inverse of `CellOf`) |
| `Grid.CellOfBijective` | main.js:67-85 | distinct spheres get distinct cells, and every grid cell receives a sphere |
| `Grid.PlacementOf` | main.js:83-91 | every sphere sits at height 0, and its x and z lie within ±4.5·35 of the origin |
| `Grid.PlacementInjective` | main.js:83-91 | no two of the 100 spheres are placed at the same position |
| `BoundingBox.CornersOf` | main.js:289-296 | the eight corners spanned from min by the extent: left corners have x = min.x and right ones x = min.x + width; bottom ones have y = min.y and top ones y = min.y + height; back ones have z = min.z and front ones z = min.z + depth |
| `BoundingBox.Triangles` | main.js:298-418 | the triangle list has 36 vertices, each one of the eight corners, except entry 12 (the back face's first vertex, main.js:340), which takes x from fbr and y, z from bbr |
| `BoundingBox.Flatten` | main.js:298-418 | the Float32Array layout: vertex k occupies entries 3k, 3k+1 and 3k+2 as x, y and z |
| `BoundingBox.Sub` | main.js:281 | the extent d = max − min satisfies min + d = max component-wise |
| `BoundingBox.ComputeBoundingBoxPositions` | main.js:280-421 | the table has 108 numbers |
| `BoundingBox.ComputeBoundingBoxPositionsAsWritten` | main.js:280-281 | the code as written returns the same table, but leaves the caller's box with max replaced by max − min |
| `BoundingBox.VerticesAreCorners` | main.js:280-421 | the table holds 36 vertices (the count given to drawArrays, main.js:261), and each is one of the box's 8 corners |
| `BoundingBox.VerticesWithinBox` | main.js:280-421 | for a box with min ≤ max, every vertex lies between min and max component-wise |
| `BoundingBox.FacesArePlanar` | main.js:298-418 | the six groups of six vertices lie, in order, on the front, right, back, left, top and bottom planes of the box |
| `BoundingBox.EveryCornerDrawn` | main.js:289-418 | each of the 8 corners occurs in the table |
| `BoundingBox.AsWrittenMutatesBox` | main.js:281 | the code as written leaves the box unchanged if and only if min is the origin |
| `BoundingBox.AsWrittenSecondCallDiffers` | main.js:281-296 | for a sphere box of any radius r > 0 centred at the origin, a second call on the same box object gives a different table, with a vertex outside the box |
| `Occlusion.InitialSphere` | main.js:92-94 | sphere i starts with id i at PlacementOf(i), no query in flight, not occluded and visible |
| `Occlusion.ReadResult` | main.js:247-257 | an in-flight query whose result is available is consumed: occluded becomes !anySamplesPassed and the query is no longer in flight; otherwise nothing changes |
| `Occlusion.IssueQuery` | main.js:259-264 | afterwards a query is in flight; the sphere changes if and only if none was in flight, and only in that flag |
| `Occlusion.UpdateVisibility` | main.js:266-268 | visible becomes !occluded (visible is set at main.js:224 and cleared when occluded), and nothing else changes |
| `Occlusion.IssuesOnlyWhenIdle` | main.js:247-264 | a query is begun exactly when none was in flight, or when the one in flight has just been read |
| `Occlusion.Step` | main.js:223-268 | after one sphere's update: a query is in flight, visible == !occluded, and occluded == !anySamplesPassed if the in-flight result was available; otherwise occluded is unchanged |
| `Occlusion.Pass` | main.js:223-269 | the loop as a value: one entry per sphere visited, each with a query in flight afterwards |
| `Occlusion.PassEffect` | main.js:223-269 | after the pass, every sphere has a query in flight and visible == !occluded. A sphere's occluded flag changed only if its result was read. A sphere whose result was unavailable keeps its stale flag, and that flag decides its visibility |
| `Occlusion.CountNewlyOccluded` | main.js:247-257 | the counter of spheres whose result was read this frame with no sample passed is at most the number of spheres |
| `Occlusion.NewlyOccludedIsSetSize` | main.js:247-257 | that counter equals the size of the set of positions whose result was read with no sample passed |
| `Occlusion.FirstPassCountsNone` | main.js:247-257 | in the first occlusion pass no result is read, so the counter stays 0 |
| `Occlusion.SteadyStateCount` | main.js:247-257 | once every sphere has a query outstanding, the counter equals the number of query objects whose result is available with no sample passed, whatever the visiting order |
| `Occlusion.CounterExcludesStale` | main.js:247-268 | spheres flagged occluded after the pass = counted ones + ones hidden by a stale flag, so occludedSpheres never counts a stale sphere |
| `Occlusion.Begins` | main.js:259-264 | the log of begun queries is no longer than the spheres visited, and names only those spheres |
| `Occlusion.BeginsOncePerSphere` | main.js:259-264 | the log of begun queries is a sub-multiset of the visited ids: no sphere's query is begun twice in one pass |
| `Occlusion.FirstPassBeginsAll` | main.js:259-264 | in the first occlusion pass (no query in flight), every sphere begins a query, in visiting order |
| `Occlusion.SteadyStateBegins` | main.js:247-264 | once every sphere has a query outstanding, sphere k begins a new one exactly when its outstanding result is available |
| `Occlusion.Reorder` | main.js:214 | the sorted array has one entry per position of the permutation, each a sphere of the old array |
| `Occlusion.ReorderKeepsSpheres` | main.js:214 | sorting by a permutation keeps every sphere exactly once |
| `Occlusion.ReorderKeepsValid` | main.js:214 | the depth sort keeps the array invariant, and keeps "no query in flight" and "all in flight" |
| `Occlusion.PassKeepsValid` | main.js:223-269 | the pass keeps the array invariant, leaves every query in flight, and its counter is at most the number of occluded spheres |
| `Occlusion.BeginsOfFrame` | main.js:209-269 | over a whole frame (sort, then pass): from a state with no query, every sphere begins one; from a steady state, exactly the spheres whose result is available do |
| `Occlusion.CountOfFrame` | main.js:200-269 | over a whole frame (sort, then pass): the counter is 0 in the first pass, and afterwards the number of results available with no sample passed |
| `Occlusion.InitialSpheresValid` | main.js:83-95 | the spheres init() creates satisfy the invariant, with no query and nothing occluded |
| `Occlusion.PristineHasNoneOccluded` | main.js:93-94 | with no sphere flagged occluded, the occluded count is 0 |
| `Occlusion.Demo.constructor` | main.js:83-95 | sphere i is created with index i, position PlacementOf(i), no query in flight, not occluded, visible; firstRender is true and the counter is 0 |
| `Occlusion.Demo.DepthSort` | main.js:214 | the array becomes the old array reordered by the sort's permutation |
| `Occlusion.Demo.OcclusionPass` | main.js:223-269 | the array becomes Step applied to each sphere in order. The counter grows by the number of results read with no sample passed. The begin log is `Begins` of the sorted array |
| `Occlusion.Demo.Frame` | main.js:193-278 | on the first render, no sphere is touched, the counter is 0 and nothing is begun. Otherwise the new array is the pass over the sorted array, and the counter and log are as above. Afterwards firstRender is false, the invariant holds, and 0 ≤ occludedSpheres ≤ 100 |
| `Occlusion.Tick` | main.js:176-180 | one animate() tick: render(), then occludedSpheres as render() leaves it. On the first render the spheres are untouched, nothing is begun and the counter is 0. In the first occlusion pass every sphere is begun and the counter is 0. Afterwards exactly the available results are re-issued, and the counter is the number of available results with no sample passed |
| `Occlusion.Animate` | main.js:176-180 | over any run of frames: the first frame begins nothing and leaves occludedSpheres at 0. The second begins a query for every sphere and also leaves 0. Each later frame re-issues exactly the queries whose results are available, and occludedSpheres is the number of those results that report no sample passed |

## Findings

| source | as written | input that shows it | evidently intended | confidence | as-written member | corrected member |
|---|---|---|---|---|---|---|
| main.js:281 | `box.max.sub(box.min)` overwrites the caller's `box.max` with the box's extent (Vector3.sub works in place) | the bounding box of the demo's radius-20 sphere, min (−20, −20, −20), max (20, 20, 20): afterwards max is (40, 40, 40), and a second call would put vertex 1 at (40, −20, 40), outside the box | compute the extent without modifying the box (subtract into a copy) | not executed; here the function runs once, so the only effect is a changed `geometry.boundingBox` | `BoundingBox.AsWrittenSecondCallDiffers` | `BoundingBox.VerticesWithinBox` |

## Left out

- The three.js scene graph, camera, OrbitControls, lights, materials, `Stats` and `renderer.render`: these are library objects whose behaviour is not visible here.
- WebGL itself. Context creation and its "WebGL 2 not available" branch (main.js:55-65) are left out. So are shader compile/link and the error logging (main.js:109-138), uniform locations and uploads, buffers and the vertex array (main.js:142-164, 229-245), colour and depth masks, and `flush`. The query object of `gl.createQuery` (main.js:92) is identified with the sphere's creation index. Query results and availability are oracle inputs. `beginQuery`/`drawArrays`/`endQuery` are recorded only as the begin log.
- The oracle is unconstrained: the model does not require the GPU to report a result only for a query that was actually begun.
- `depthSort` (main.js:182-191) is floating-point matrix arithmetic. The sort is an oracle permutation, so the far-to-near order itself is not modelled.
- Floating point: `rotation.y += 0.003` (main.js:225), `Float32Array` rounding of the table, and the aspect ratio arithmetic. Coordinates are `real`.
- DOM and UI: the counter elements (main.js:18-20, 70, 98, 272), the polygon count and `console.log` (main.js:81, 87, 97), window resize (main.js:166-174), and the unused `Date.now()` timer (main.js:194). The camera and light updates at the top of `render()` (main.js:197-198) are left out too.
- The page's counter element is written only on non-first frames (main.js:272 sits inside the `!firstRender` branch). The model returns occludedSpheres as render() leaves it, and does not model the element, which keeps its previous content after the first render().
- `requestAnimationFrame` recursion: `Animate` runs a finite sequence of frames.
- Each sphere is a mesh object in the source. Here it is a record in the array, so aliasing between meshes is not represented. Each mesh occurs once in the array, so the record form loses nothing the pass depends on.
- Tick: states the counter and the begin log of each frame, but not the new sphere array. Frame, which Tick calls, states that array: the pass over the sorted spheres.
- `BoundingBox.ComputeBoundingBoxPositions` models the function without its in-place change to `box.max`. The change itself is modelled by `ComputeBoundingBoxPositionsAsWritten` (see Findings).
