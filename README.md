# planetSimulation: renderer trails, view controls and camera framing in Dafny

This project models the bookkeeping of the planetSimulation repository that
surrounds its bodies:

- **Trail history** (`Renderer::updateTrails`, `drawTrails`, `clearTrails`).
  The renderer keeps one bounded FIFO deque of past positions per body. Each
  update resizes the vector of trails to the body count, appends every body's
  position and pops the front while a trail exceeds `maxTrailLength` (500).
  Drawing skips trails of fewer than two samples and labels sample `j` of an
  `n`-sample trail with the age `j / (n - 1)`. Both renderer sources, the
  current `src/core/Renderer.cpp` and the older `src/rendering/renderer.cpp`,
  contain the same code for these parts. The `Renderer` class cites the first;
  several value-level lemmas cite the second.
- **Renderer view controls** (`setZoom`, `pan`, `handleInput`).
  - `setZoom` clamps to [0.1, 10].
  - `pan` divides the offset by the zoom. The arrow keys already pass
    `0.01 / zoom`, so one frame of an arrow key moves the view by
    `0.01 / zoom / zoom`.
  - The T key goes through a static latch that flips the trail switch once
    per press.
- **Camera** (`src/core/Camera.cpp`).
  - Mutators: `setZoom`, `zoomBy`, `pan`, `reset`, and `update`'s target
    choice, first-frame snap and later smoothing.
  - `computeCenterOfMass`: mass-weighted, skipping masses ≤ 0.
  - `computeInliers`: the bodies within `outlierMultiplier` times the median
    distance of the all-body centre.
  - `computeOptimalZoom`: the clamped zoom that fits the padded bounding box of
    the inliers into the window.
- **`Vector2`**: the value type with componentwise `+`, `-`, scalar `*` and `/`,
  unary minus and a zero-safe `normalized`. Each binary operator works on a
  copy, so a datatype with functions models it.

Every C++ `float`/`double` is a Dafny `real`; rounding, infinities and NaN are
not modelled.

Each state-changing operation is a method of a class over the fields the C++
updates. Its postcondition ties the new state to a specification function, and
the lemmas prove what that function promises:
- `Renderer.UpdateTrails` matches `UpdatedTrails`, with `UpdatedTrailsShape` and
  `PushedKeepsNewest`.
- `Renderer.HandleInput` matches `ArrowPanned`, `KeyZoomed` and `TStep`, with
  `TRunFlipsOncePerPress`.
- The camera queries match `CenterOfMass`, `Inliers` and `OptimalZoom`, with
  `CenterOfMassInBox`, `InliersAreTheCloseBodies`, `InliersAreMajority` and
  `FitZoomFitsTheBox`.

Files:
- `scalars.dfy`: `std::min`, `std::max`, `std::clamp`.
- `vector2.dfy`: `Vector2`.
- `planet.dfy`: the body record.
- `trail_buffer.dfy`: trail values.
- `view_controls.dfy`: zoom, pan and the T latch as values.
- `renderer.dfy`: the `Renderer` class.
- `framing.dfy`: centre of mass, inliers, bounding box and zoom as values.
- `camera.dfy`: the `Camera` class.

Notes on the code:
- The modelled trail history is the renderer's. Its capacity
  `maxTrailLength` is 500 (`src/core/Renderer.cpp:227`), and `drawTrails`
  fills the deques by calling `updateTrails` (`src/core/Renderer.cpp:518`).
- `computeCenterOfMass` skips bodies of non-positive mass; `computeInliers`
  and `update`'s inlier centre sum every mass, whatever its sign.
- The outlier multiplier changes at run time: the GUI slider hands
  `setOutlierMultiplier` values in [1, 10] (`src/core/GUI.cpp:161-163`). The
  camera invariant keeps it at least 1, which the inlier lemmas rely on.
- The headers `include/planets/Camera.hpp` and `include/planets/Renderer.hpp`
  are out of step with the `.cpp` files. The state is taken from the `.cpp`
  files (`zoomOffset`, `followedPlanetIndex`, `initialized`,
  `outlierMultiplier`, `computeInliers`).

## Model

| member | source | states |
|---|---|---|
| Scalars.Min | src/core/Camera.cpp:134-137 | `std::min`: at most both arguments and equal to one of them |
| Scalars.Max | src/core/Camera.cpp:134-137 | `std::max`: at least both arguments and equal to one of them |
| Scalars.Clamp | src/core/Camera.cpp:66-76 | `std::clamp`: result in [lo, hi]; the value itself when inside; the nearer bound when outside |
| Vectors.Zero | include/planets/Vector2.hpp:15 | the default constructor, (0, 0); `ZeroIsAdditiveIdentity` proves it is the identity of `+` |
| Vectors.Add | include/planets/Vector2.hpp:45 | `+` on a copy: the componentwise sum; `AddCommutesAndAssociates` and `SubInvertsAdd` prove its laws |
| Vectors.Sub | include/planets/Vector2.hpp:46 | `-` on a copy: the componentwise difference; `SubInvertsAdd` proves it undoes `+` |
| Vectors.Scale | include/planets/Vector2.hpp:47 | `v * s`: both components times `s`; `ScaleLaws` proves it distributes over `+` |
| Vectors.ScaleLeft | include/planets/Vector2.hpp:55 | the friend `s * v`, defined as `v * s`; `ScaleLaws` proves the two agree |
| Vectors.Div | include/planets/Vector2.hpp:48 | `v / s` for `s != 0`: both components divided by `s`; `ScaleLaws` proves it undoes `* s` |
| Vectors.Neg | include/planets/Vector2.hpp:57 | unary minus on both components; `NegIsAdditiveInverse` proves `v + (-v) == 0` |
| Vectors.Normalized | include/planets/Vector2.hpp:51-52 | the zero vector for length 0, otherwise `v / len`; `NormalizedIsZeroOrRescaled` states both cases |
| Vectors.ZeroIsAdditiveIdentity | include/planets/Vector2.hpp:15 | the default constructor is (0, 0), and that is the identity of `+` |
| Vectors.AddCommutesAndAssociates | include/planets/Vector2.hpp:25-28 | componentwise `+` is commutative and associative |
| Vectors.SubInvertsAdd | include/planets/Vector2.hpp:29-32 | `-` undoes `+` in both orders, and `a - b == a + (-b)` |
| Vectors.NegIsAdditiveInverse | include/planets/Vector2.hpp:57 | `v + (-v)` is the zero vector and `-(-v) == v` |
| Vectors.ScaleLaws | include/planets/Vector2.hpp:33-55 | `s * v == v * s`; scaling distributes over `+`; for `s != 0`, `/ s` and `* s` undo each other |
| Vectors.NormalizedIsZeroOrRescaled | include/planets/Vector2.hpp:51-52 | `normalized()` of the zero vector is zero; a zero length gives zero; otherwise scaling back by the length recovers `v` |
| Planets.Positions | src/core/Renderer.cpp:507-508 | one position per body, body `i`'s position at index `i` |
| TrailBuffer.Evict | src/core/Renderer.cpp:509-511 | the `pop_front` loop: drop the oldest sample while longer than `cap`; `EvictKeepsNewest` proves it keeps the newest `min(n, cap)` in order |
| TrailBuffer.Pushed | src/core/Renderer.cpp:508-511 | `push_back` then the eviction loop; `PushedKeepsNewest` proves what survives |
| TrailBuffer.UpdatedTrails | src/core/Renderer.cpp:502-513 | resize to the body count, then push each body's position into its own trail; `UpdatedTrailsShape` proves the shape |
| TrailBuffer.Age | src/core/Renderer.cpp:530-534 | the age `j / (n - 1)` of sample `j`; `AgesRamp` proves the 0-to-1 ramp |
| TrailBuffer.Batches | src/core/Renderer.cpp:524-545 | the trails of at least two samples, in body order, with their vertex data; `BatchesDrawLongTrails` proves exactly those are drawn |
| TrailBuffer.EvictKeepsNewest | src/rendering/renderer.cpp:366-368 | the `pop_front` loop leaves exactly the newest `min(n, cap)` samples, in order |
| TrailBuffer.PushedKeepsNewest | src/rendering/renderer.cpp:362-369 | after push and evict, the trail is the newest `min(n+1, cap)` samples of `old ++ [p]`; its length is at most `cap`; for `cap > 0` it ends with `p`, preceded by a suffix of the old trail |
| TrailBuffer.RecordedKeepsLatest | src/core/Renderer.cpp:507-512 | after N recordings the trail is the last `min(N, cap)` samples; once N ≥ cap > 0 its length is exactly `cap` and its oldest entry is sample `N - cap` |
| TrailBuffer.Resized | src/rendering/renderer.cpp:357-359 | `resize(n)` yields exactly `n` trails |
| TrailBuffer.UpdatedTrailsShape | src/rendering/renderer.cpp:355-370 | after an update there is one trail per body: a surviving trail is pushed with the body's position, a new trail starts empty, and none exceeds `cap` |
| TrailBuffer.Cleared | src/rendering/renderer.cpp:422-426 | `clearTrails` empties every trail and keeps their number |
| TrailBuffer.TrailVertices | src/rendering/renderer.cpp:389-394 | one vertex per sample |
| TrailBuffer.AgesRamp | src/rendering/renderer.cpp:389-394 | ages run from 0 at the oldest sample to 1 at the newest, strictly increasing, within [0, 1] |
| TrailBuffer.BatchesAreLongTrails | src/rendering/renderer.cpp:382-394 | every drawn batch is a trail of at least two samples with its own age-ramped vertices, in increasing body order |
| TrailBuffer.BatchesCoverLongTrails | src/rendering/renderer.cpp:382-383 | every trail with at least two samples is drawn |
| TrailBuffer.BatchesDrawLongTrails | src/core/Renderer.cpp:524-545 | exactly the trails with at least two samples are drawn, in body order, each with its own vertex data |
| ViewControls.ClampedViewZoom | src/core/Renderer.cpp:373-376 | `max(0.1, min(10, z))`; `ClampedViewZoomRange` proves the range and the identity inside it |
| ViewControls.Panned | src/core/Renderer.cpp:378-382 | the offset divided by the zoom, added to the position; `PannedIsInvertible` proves the inverse pan |
| ViewControls.ArrowPanned | src/core/Renderer.cpp:572-584 | the four arrow pans of one frame at speed `0.01 / zoom`; `ArrowPanDividesTwice` proves the net move |
| ViewControls.KeyZoomed | src/core/Renderer.cpp:586-591 | `=` zooms by 1.05, then `-` by 0.95, each through `setZoom`; `KeyZoomedRange` proves the range |
| ViewControls.TStep | src/core/Renderer.cpp:593-599 | one poll of the T latch; `TRunFlipsOncePerPress` and `HeldKeyFlipsOnce` prove one flip per press |
| ViewControls.ClampedViewZoomRange | src/rendering/renderer.cpp:292-295 | zoom lands in [0.1, 10]; the identity inside, the nearer bound outside |
| ViewControls.PannedIsInvertible | src/rendering/renderer.cpp:297-301 | panning by `(dx, dy)` and then by `(-dx, -dy)` restores the position; at zoom 1 it moves by exactly `(dx, dy)` |
| ViewControls.ArrowPanDividesTwice | src/core/Renderer.cpp:572-584 | one frame of arrow keys moves the view by `0.01 / zoom / zoom` per axis; opposite arrows cancel |
| ViewControls.KeyZoomedRange | src/core/Renderer.cpp:586-591 | the `=`/`-` keys keep a zoom within [0.1, 10]; with neither key the zoom is unchanged |
| ViewControls.TRunFlipsOncePerPress | src/rendering/renderer.cpp:458-464 | after any key sequence the latch holds the last key state, and the switch has flipped once per press (up-to-down edge) |
| ViewControls.HeldKeyFlipsOnce | src/core/Renderer.cpp:593-599 | holding T for any number of frames from the released state flips the switch exactly once |
| ViewControls.HeldPressesCountOne | src/core/Renderer.cpp:593-599 | a held key counts as a single press |
| Rendering.BuildTrailData | src/core/Renderer.cpp:527-535 | the vertex vector built by appending equals the age-ramped `TrailVertices` |
| Rendering.Renderer.constructor | src/core/Renderer.cpp:221-231 | camera at the origin, zoom 1, trails on, no trails, latch released, `maxTrailLength` 500 |
| Rendering.Renderer.SetZoom | src/core/Renderer.cpp:373-376 | zoom becomes `max(0.1, min(10, z))`; nothing else changes |
| Rendering.Renderer.Pan | src/core/Renderer.cpp:378-382 | position moves by `(dx, dy) / zoom`; nothing else changes |
| Rendering.Renderer.UpdateTrails | src/core/Renderer.cpp:502-513 | the trails become `UpdatedTrails` of the old trails and the body positions, staying within `maxTrailLength`; nothing else changes |
| Rendering.Renderer.DrawTrails | src/core/Renderer.cpp:515-550 | with trails off or no bodies nothing changes; otherwise the trails are updated and the uploaded batches are `Batches` of the updated trails |
| Rendering.Renderer.ClearTrails | src/core/Renderer.cpp:561-565 | every trail emptied, their count and all other state unchanged |
| Rendering.Renderer.HandleInput | src/core/Renderer.cpp:567-600 | Escape requests closing; position, zoom and toggle become `ArrowPanned`, `KeyZoomed` and `TStep` of the old state; trails unchanged |
| Rendering.Renderer.PanArrowKeys | src/core/Renderer.cpp:572-584 | the arrow-key pans yield `ArrowPanned` of the old position at the old zoom |
| Rendering.Renderer.ZoomKeys | src/core/Renderer.cpp:586-591 | the zoom keys yield `KeyZoomed` of the old zoom |
| Rendering.Renderer.PollTKey | src/core/Renderer.cpp:593-599 | switch and latch become `TStep` of their old values |
| Framing.DotBounds | src/core/Camera.cpp:98-109 | a non-negatively weighted sum of values in [lo, hi] lies between `lo` and `hi` times the total weight |
| Framing.MeanAbove | src/core/Camera.cpp:111-113 | a weighted mean of values at least `lo` is at least `lo` |
| Framing.MeanBelow | src/core/Camera.cpp:111-113 | a weighted mean of values at most `hi` is at most `hi` |
| Framing.TotalsSnoc | src/core/Camera.cpp:107-108 | accumulating one more body adds its mass and its weighted position |
| Framing.TotalsConcat | src/core/Camera.cpp:98-109 | the sums over a concatenation are the sums over the parts |
| Framing.CenterOfMassIgnoresNonPositive | src/core/Camera.cpp:98-100 | inserting a body of mass ≤ 0 anywhere does not move the centre of mass |
| Framing.CenterOfMassOfOneBody | src/core/Camera.cpp:92-115 | one body of positive mass is its own centre of mass |
| Framing.CenterOfMassWithoutPositiveMass | src/core/Camera.cpp:111 | without any positive mass the result is the origin |
| Framing.WeightedMeanInBox | src/core/Camera.cpp:181-188 | a positively weighted mean of positions in a box lies in that box |
| Framing.CenterOfMassInBox | src/core/Camera.cpp:92-115 | the centre of mass lies in every box that contains the positive-mass bodies |
| Framing.CenterOfMass | src/core/Camera.cpp:92-115 | the mass-weighted mean position over the bodies of positive mass, the origin without any; `CenterOfMassInBox` and its neighbours prove its properties |
| Framing.Insert | src/core/Camera.cpp:198-201 | inserting keeps a sequence ascending, lengthens it by one, and every entry is the new element or an old one |
| Framing.InsertAddsOne | src/core/Camera.cpp:198-201 | inserting adds exactly the new element to the multiset of entries |
| Framing.SortedCopy | src/core/Camera.cpp:198-201 | the sorted copy of the distances is ascending, with the same length |
| Framing.SortedCopyIsPermutation | src/core/Camera.cpp:198-201 | the sorted copy is a permutation of the distances |
| Framing.CountSortedCopy | src/core/Camera.cpp:198-201 | sorting does not change how many distances lie at or below a bound |
| Framing.CountRank | src/core/Camera.cpp:200-202 | in ascending order at least `k + 1` entries are at most entry `k` |
| Framing.IndicesWithinCounts | src/core/Camera.cpp:206-208 | the selection loop picks one index per distance within the threshold |
| Framing.IndicesWithinSound | src/core/Camera.cpp:206-208 | every picked index is valid and within the threshold, and the indices strictly increase |
| Framing.IndicesWithinComplete | src/core/Camera.cpp:206-208 | every index whose distance is within the threshold is picked |
| Framing.IndicesWithinSelects | src/core/Camera.cpp:205-208 | the selection is exactly the entries within the threshold, ascending, one each |
| Framing.AllBodyCenter | src/core/Camera.cpp:181-188 | the preliminary centre over every body, any mass sign; the origin unless the total mass is positive |
| Framing.Median | src/core/Camera.cpp:197-202 | element `size / 2` of the ascending order; `ThresholdAtLeastMedian` and `MedianCloseBodiesAreInliers` use it |
| Framing.InlierThreshold | src/core/Camera.cpp:203-205 | the multiplier times the median, the median floored to 1e-4; `ThresholdAtLeastMedian` bounds it |
| Framing.IndicesWithin | src/core/Camera.cpp:206-208 | the ascending indices of the distances within the threshold; `IndicesWithinSelects` proves exactly those |
| Framing.Inliers | src/core/Camera.cpp:176-209 | no bodies: none; otherwise `IndicesWithin` of the distances to `AllBodyCenter`; `InliersAreTheCloseBodies` and `InliersAreMajority` prove its properties |
| Framing.Distances | src/core/Camera.cpp:191-195 | one distance per body |
| Framing.InliersAreTheCloseBodies | src/core/Camera.cpp:176-209 | no bodies give no inliers; inliers are strictly increasing valid indices; a body is an inlier iff its distance to the all-body centre is within `outlierMultiplier` times the floored median |
| Framing.ThresholdAtLeastMedian | src/core/Camera.cpp:202-205 | with a multiplier ≥ 1 the threshold is at least the median |
| Framing.MedianCloseBodiesAreInliers | src/core/Camera.cpp:200-208 | with a multiplier ≥ 1 every body at most the median distance away is an inlier |
| Framing.InliersAreMajority | src/core/Camera.cpp:200-208 | with a multiplier ≥ 1 more than half of the bodies are inliers, so the list is never empty |
| Framing.Select | src/core/Camera.cpp:140-141 | one picked body per index |
| Framing.Extend | src/core/Camera.cpp:140-149 | one body's disc widens the min/max box |
| Framing.BoxOf | src/core/Camera.cpp:124-150 | the box accumulated from `max()`/`lowest()` over the bodies; `BoxEnclosesBodies` proves it encloses them |
| Framing.Padded | src/core/Camera.cpp:156-162 | a side padded by 20% and floored at 1e-4; `FitZoomFitsTheBox` proves it positive |
| Framing.FitZoom | src/core/Camera.cpp:152-173 | the clamped smaller of `2 / width` and `2 / height`; `FitZoomFitsTheBox` proves the fit |
| Framing.FramedBodies | src/core/Camera.cpp:120-150 | the inliers, or every body when there are none; `FramedBodiesAreInliers` proves the inliers are used |
| Framing.BoxEnclosesBodies | src/core/Camera.cpp:124-150 | the min/max box encloses every framed body's disc |
| Framing.OptimalZoom | src/core/Camera.cpp:117-174 | the fitted zoom always lies in [0.0005, 100] |
| Framing.FitZoomFitsTheBox | src/core/Camera.cpp:152-173 | padded sides are positive; unless clamped from below, both padded sides fit the window span of 2; unless clamped, the tighter side spans it exactly |
| Framing.FramedBodiesAreInliers | src/core/Camera.cpp:120-150 | with a multiplier ≥ 1 there are inliers, and exactly they are framed (the all-bodies fallback is unused) |
| Framing.FollowTarget | src/core/Camera.cpp:15-44 | the followed body's position when the index is valid, else the inlier centre or the centre of mass; `TargetLiesAmongInliers` proves where it lies |
| Framing.TargetLiesAmongInliers | src/core/Camera.cpp:19-44 | when no body is followed and all masses are positive, the target lies in every box containing the inliers |
| Cameras.TargetZoom | src/core/Camera.cpp:60-61 | the fitted zoom times the user's offset; `ScaledZoomBounds` bounds it |
| Cameras.Lerp | src/core/Camera.cpp:63 | `a + (b - a) * f`; `LerpStaysBetween` and `LerpEndpoints` prove its properties |
| Cameras.LerpVector | src/core/Camera.cpp:56 | the same step on both coordinates; `LerpVectorStaysBetween` proves its properties |
| Cameras.LerpStaysBetween | src/core/Camera.cpp:56-63 | a factor in [0, 1] moves toward the target without passing it |
| Cameras.LerpEndpoints | src/core/Camera.cpp:56-63 | factor 0 keeps the value, factor 1 reaches the target |
| Cameras.LerpVectorStaysBetween | src/core/Camera.cpp:56 | each coordinate of the smoothed position lies between the old position and the target |
| Cameras.ScaledZoomBounds | src/core/Camera.cpp:49 | a fitted zoom times an offset in [0.1, 10] is positive and at most 1000 |
| Cameras.Camera.constructor | src/core/Camera.cpp:7-9 | origin position and target, zoom 1, offset 1, following the centre, not initialised, the given outlier multiplier (at least 1) |
| Cameras.Camera.SetZoom | src/core/Camera.cpp:66-70 | zoom becomes `clamp(z, 0.0005, 100)`; nothing else changes |
| Cameras.Camera.ZoomBy | src/core/Camera.cpp:72-76 | offset becomes `clamp(offset * factor, 0.1, 10)`; nothing else changes |
| Cameras.Camera.Pan | src/core/Camera.cpp:78-80 | position moves by `(dx, dy)` in world units; nothing else changes |
| Cameras.Camera.SetOutlierMultiplier | src/core/GUI.cpp:161-163 | the multiplier becomes the slider's value (at least 1); nothing else changes |
| Cameras.Camera.Reset | src/core/Camera.cpp:211-218 | origin, zoom 1, offset 1, index -1, snap again on the next update |
| Cameras.Camera.ComputeCenterOfMass | src/core/Camera.cpp:92-115 | the loop with `continue` computes `CenterOfMass` |
| Cameras.Camera.ComputeInliers | src/core/Camera.cpp:176-209 | the computed list is `Inliers` of the bodies; on a valid camera with bodies, more than half of them are inliers |
| Cameras.Camera.SumOverAll | src/core/Camera.cpp:181-187 | the preliminary loop sums every body's mass and weighted position, any sign |
| Cameras.Camera.DistancesTo | src/core/Camera.cpp:191-195 | the distance loop yields `Distances` |
| Cameras.Camera.IndicesAtMost | src/core/Camera.cpp:205-208 | the selection loop yields `IndicesWithin` |
| Cameras.Camera.BoundingBox | src/core/Camera.cpp:122-150 | the min/max loops yield the box of all bodies when there are no inliers, otherwise of the inliers |
| Cameras.Camera.ComputeOptimalZoom | src/core/Camera.cpp:117-174 | the computed zoom is `OptimalZoom` |
| Cameras.Camera.ZoomToFit | src/core/Camera.cpp:152-173 | padding, flooring, `min` and clamp yield `FitZoom` |
| Cameras.Camera.SumOverInliers | src/core/Camera.cpp:28-40 | the loop over the inliers sums their masses and weighted positions |
| Cameras.Camera.ChooseTarget | src/core/Camera.cpp:14-45 | the target becomes `FollowTarget`; an out-of-range index is reset to -1 |
| Cameras.Camera.Update | src/core/Camera.cpp:11-64 | no bodies: nothing changes; otherwise the target is chosen, the first update snaps to it at fitted zoom times offset, and later ones move by the smoothing factors; the offset never changes and the camera stays valid |
| Cameras.Camera.SnapToTarget | src/core/Camera.cpp:46-51 | position becomes the target, zoom the fitted zoom times the offset, and the camera is initialised |
| Cameras.Camera.MoveTowardTarget | src/core/Camera.cpp:53-63 | position and zoom move by the given factors toward the target and the fitted zoom times the offset |

## Left out

- Gravity, integration and orbit setup: `src/main.cpp` force loop and `Simulation` call an engine and `Planet` methods that the repository does not define; floating-point `sqrt` numerics.
- OpenGL, GLFW, shaders, the starfield generator and the GUI: foreign-API I/O. `drawTrails` is modelled up to the vertex data it uploads; the trail colour uniform (per-body in one renderer, fixed light blue in the other) and the draw calls are not.
- `handleInput` polls the keyboard; the model takes one frame's key states as a `Keys` value. The Escape key's window-close flag is returned instead of set on the window.
- The static `tKeyPressed` latch is a field of `Renderer`: the model assumes one renderer per process.
- Camera smoothing factors `1 - exp(-smoothing * dt)` are transcendental: `Camera.Update` takes both factors as parameters in [0, 1]. The `smoothing` and `aspect` fields and `getViewMatrix` are not modelled.
- `glm::length` and the square root are not modelled: distances come from a caller-supplied `length` function, and `Normalized` takes the length as a parameter.
- `std::nth_element` is modelled by an insertion-sorted copy; element `size / 2` of it is the same value `nth_element` places there.
- Float rounding, overflow to infinity, NaN, and the `float`/`double` casts: every number is a real. `std::numeric_limits<float>::max()` seeds the bounding box as the exact real 3.4028234663852886e38.
- Camera fields without an initialiser in `Camera.cpp` (`zoomOffset`, `followedPlanetIndex`, `initialized`, `outlierMultiplier`): the constructor gives them the values `reset` uses (1, -1, false), and `outlierMultiplier` is a constructor parameter of at least 1.
- Cameras.Camera.SetOutlierMultiplier: `getOutlierMultiplier`/`setOutlierMultiplier` are called from `src/core/GUI.cpp:161-163` but not defined in the repository; the setter is modelled as a plain assignment, and its callers are required to pass at least 1, the slider's lower end.
- The per-body trail of `Planet`: `src/main.cpp:113` calls `recordPosition` and `src/core/GUI.cpp:126-128` calls `clearTrail`, but `Planet` does not define those methods in the repository, so only the renderer's trail history is modelled.
- Vectors.NormalizedIsZeroOrRescaled: does not state that a normalised vector has unit length, because the length is a parameter rather than a square root.
- Cameras.Camera.Update: requires the smoothing factors in [0, 1], which `1 - exp(-x)` gives for non-negative `smoothing * dt`; negative time steps are not modelled.
