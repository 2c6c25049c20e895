# TriangleImagePositionLocator in Dafny

This project models the core of `TriangleImagePositionLocator`, the part of the
ImagePositionLocator library that maps a GPS position to a pixel of a map image.
It uses markers: known pairs of a real-world point and an image pixel.

The locator keeps one piece of state, the triangle set `projs`. It is `null` until
`newMarkerAdded` first receives at least two markers.

- **Rebuild.** `newMarkerAdded` rebuilds the triangle set from a new marker list:
  - With fewer than two markers, the set is left as it is.
  - With exactly two markers, the set becomes one two-marker triangle.
  - With more markers, the image points are triangulated (Delaunay). Each vertex
    of each Delaunay triangle is mapped back to a marker with `findMarkerByPoint`.
    This is a first-match search on the `(int)`-cast pixel.
  - A triangle is kept only when all three of its vertices resolve.
  - Every kept triangle is then offered every other one for grouping, and the new
    list replaces `projs`.
- **Query.** `getPointPosition` works in two passes:
  - It measures the distance from the query point to each triangle's pivot, and
    finds the closest pivot.
  - It weighs each triangle with the falloff curve `distanceFallofFunction`, applied
    to `closest / d`, times the triangle's own weight.
  - It returns the weighted blend of the triangles' local projections.

The model has seven modules:

| module | contents |
|---|---|
| `Wrappers` | `Option`, which stands for `null`, and `Result`, which stands for a thrown exception |
| `Numerics` | A Java `double` (a finite value or NaN), the `(int)` cast and `Double.MAX_VALUE` |
| `Geometry` | The value types `GpsPoint`, `Point2D`, `FPoint2D`, `Marker` and the settings |
| `Projection` | `ProjectionTriangle`, kept opaque |
| `Rebuild` | The specification functions for `newMarkerAdded` and `findMarkerByPoint`, with their lemmas |
| `Fusion` | The specification functions for `getPointPosition` and `distanceFallofFunction`, with their lemmas |
| `Locator` | The class `TriangleImagePositionLocator` |

In `ProjectionTriangle`, a triangle records only:
- its backing markers;
- the tuning it was built with;
- the triangles offered to it through `tryAddToProjGroup`.

In `Locator`, the `projs` field is mutable state. `newMarkerAdded` and
`findMarkerByPoint` are loops proved against `Rebuild`. `getPointPosition` is a pair
of loops over a `distances` array, proved against `Fusion.Query`.

The query's collaborators are passed in as functions (`Fusion.Collaborators`):
- the pivot distance, taken to be finite and non-negative;
- the triangle weight, taken to be non-negative;
- the local projection;
- `Math.pow` on [0, 1] with a finite exponent, taken to be finite and non-negative. As in Java, it is exactly 1 for the base 1 for every finite exponent (`Fusion.Power`).

The Delaunay triangulation is passed to `newMarkerAdded` as a function. It maps the
image size and the marker pixels to a list of 6-tuples (`Rebuild.Triangulator`).

Where the intent and the code part ways, the model follows the code:
- **Closeness hint.** For a pivot nearer than 0.01, the cast truncates `0.01 - d`
  before the multiplication by 1000, so the hint is 0, not a magnification.
- **Exact pivot hit.** A query exactly on a pivot makes the ratio `0 / 0`, which is
  NaN. With a non-zero exponent this poisons the whole blend: the blended `FPoint2D`
  is (NaN, NaN), not that pivot's position. `getPointPosition` returns
  `new Point2D` of that point; the conversion is not represented in this model.
- **Zero total weight.** If every Delaunay triangle fails to resolve, the triangle
  set is empty but not `null`. The same happens to a non-empty set whose weights
  add up to exactly 0. In both cases the final division is 0 / 0, and the blended
  `FPoint2D` is (NaN, NaN) rather than `null`. As above, `getPointPosition` returns
  `new Point2D` of it, which this model does not represent.

## Model

| member | source | states |
|---|---|---|
| Locator.TriangleImagePositionLocator.constructor | TriangleImagePositionLocator.java:38-41 | A new locator keeps the given image size and settings, and has no triangle set. |
| Locator.TriangleImagePositionLocator.FindMarkerByPoint | TriangleImagePositionLocator.java:139-147 | The linear search with early return yields exactly `Lookup` of the vertex whose coordinates are both cast to `int`. |
| Rebuild.Lookup | TriangleImagePositionLocator.java:139-147 | The result is `null` exactly when no marker sits on the pixel. A found marker belongs to the list and sits on the pixel. |
| Rebuild.LookupFindsFirstMatch | TriangleImagePositionLocator.java:140-144 | When several markers share the pixel, the first in list order is returned. |
| Numerics.Trunc | TriangleImagePositionLocator.java:141-142 | The `(int)` cast truncates toward zero, for non-negative and for negative values. |
| Geometry.ImagePoints | TriangleImagePositionLocator.java:104-105 | The triangulation receives one point per marker, in list order: that marker's pixel. |
| Locator.TriangleImagePositionLocator.NewMarkerAdded | TriangleImagePositionLocator.java:91-133 | Fewer than two markers leave `projs` as it was. Two markers give a fresh one-element list whose triangle has exactly those two markers and was offered nothing. Three or more give fresh, distinct triangles: one per resolved Delaunay triangle, in order, each offered every other one. `projs` is set exactly when it was set before or at least two markers arrived. Triangles of the previous set are not touched. |
| Locator.TriangleImagePositionLocator.BuildTriangle | TriangleImagePositionLocator.java:112-121 | One 6-tuple yields at most one triangle. That triangle is fresh, is built from the resolved markers in vertex order with the settings' tuning, and has no offers yet. Nothing is built when a vertex does not resolve. |
| Locator.TriangleImagePositionLocator.BuildTriangles | TriangleImagePositionLocator.java:111-122 | The loop stepping by 6 builds one fresh triangle per element of `Resolve`, in the same order (`Built`). The triangles are distinct, carry the settings' tuning and have no offers yet. |
| Locator.TriangleImagePositionLocator.GroupTriangles | TriangleImagePositionLocator.java:124-129 | For distinct triangles, each triangle is offered every other triangle of the list, in list order, and never itself. |
| Rebuild.ResolveShape | TriangleImagePositionLocator.java:111-122 | The rebuild keeps at most one triangle per Delaunay triangle. Every kept triangle has three corners, each a marker of the list. |
| Rebuild.ResolveOneTuple | TriangleImagePositionLocator.java:113-121 | A 6-tuple contributes the triangle (m1, m2, m3) exactly when all three vertices resolve, and nothing otherwise. |
| Rebuild.ResolveAppend | TriangleImagePositionLocator.java:112-122 | Output order follows input order: the triangles of a concatenation are those of the first part followed by those of the second. |
| Rebuild.ResolvePrefixStep | TriangleImagePositionLocator.java:112 | Each step of the loop extends the triangles kept so far by those of the next 6-tuple. |
| Rebuild.ResolveKeepsAllIff | TriangleImagePositionLocator.java:117-121 | The rebuild keeps as many triangles as the Delaunay output has exactly when every vertex of every Delaunay triangle resolves. |
| Rebuild.Without | TriangleImagePositionLocator.java:125-127 | The inner grouping loop offers a triangle every element of the list except itself, and nothing else. |
| Rebuild.WithoutDistinct | TriangleImagePositionLocator.java:124-129 | In a list of distinct triangles, the `i`-th is offered the list without position `i`: n - 1 offers, in list order. |
| Rebuild.GroupingPassCallCount | TriangleImagePositionLocator.java:124-129 | The grouping pass over n distinct triangles calls `tryAddToProjGroup` n * (n - 1) times. |
| Projection.ProjectionTriangle.Pair | TriangleImagePositionLocator.java:97 | The two-marker triangle is backed by the two markers, in order, with no tuning. |
| Projection.ProjectionTriangle.Triple | TriangleImagePositionLocator.java:118-121 | The three-marker triangle is backed by the three markers, in order, with the three settings. |
| Projection.ProjectionTriangle.TryAddToProjGroup | TriangleImagePositionLocator.java:127 | The call records that one more triangle was offered, after those offered before. |
| Locator.TriangleImagePositionLocator.GetPointPosition | TriangleImagePositionLocator.java:47-85 | The result is `null` exactly when there is no triangle set or no query point. Otherwise it is `Query`: the blend divided by the weight sum. |
| Locator.TriangleImagePositionLocator.ClosestPivot | TriangleImagePositionLocator.java:55-63 | The first loop fills a fresh `distances` array with `Distances`, and finds `RunningMin` of it. |
| Locator.TriangleImagePositionLocator.Blend | TriangleImagePositionLocator.java:65-79 | Given a closest distance that is at most every entry of `distances`, the second loop accumulates exactly `Accumulate` over all triangles, and the falloff guard never fires. |
| Fusion.Query | TriangleImagePositionLocator.java:47-80 | The query answers `null` exactly when the triangle set or the position is `null`. The value of a non-`null` answer is stated by `SingleTriangleQuery`, `QueryWithinBounds`, `QueryAtPivot`, `EmptySetQuery` and `ZeroWeightQuery`. |
| Locator.QueryAfterUpdates | TriangleImagePositionLocator.java:48-97 | Over a locator's lifetime, a query answers `null` exactly when there is no query point or no marker list so far had two or more markers. |
| Fusion.Distances | TriangleImagePositionLocator.java:59-60 | `distances[i]` is the pivot distance of the `i`-th triangle. |
| Fusion.RunningMin | TriangleImagePositionLocator.java:56-63 | Starting from `Double.MAX_VALUE`, the first loop finds a value that is at most every distance, and is one of them when there is at least one. |
| Fusion.Ratio | TriangleImagePositionLocator.java:66 | `closest / d` is NaN exactly when `d` is 0. Otherwise it lies in [0, 1], is positive for a positive closest distance, and is 1 for the closest pivot. |
| Fusion.DistanceFallofFunction | TriangleImagePositionLocator.java:149-153 | The curve throws, with its message, exactly for a finite argument above 1. NaN passes the guard. A finite result is non-negative. |
| Fusion.FalloffNeverThrows | TriangleImagePositionLocator.java:66-68 | Fed the ratio of the closest distance to any distance, the falloff curve never throws. |
| Fusion.FusionWeight | TriangleImagePositionLocator.java:68 | A triangle's weight is NaN exactly when the query sits on its pivot (with a non-zero exponent), and is otherwise non-negative. |
| Fusion.ClosenessHint | TriangleImagePositionLocator.java:70-71 | The hint is 0 for a pivot nearer than 0.01 and 1 otherwise. |
| Fusion.Step | TriangleImagePositionLocator.java:75-76 | `fma` and `sum += tmp` keep the weight sum NaN or non-negative, and keep the accumulated point balanced against it. |
| Fusion.Accumulate | TriangleImagePositionLocator.java:65-79 | After any number of iterations the weight sum is NaN or non-negative. A zero sum comes with a zero or NaN point, so the final division never yields an infinity. |
| Fusion.AccumulateStepNaN | TriangleImagePositionLocator.java:76 | One iteration leaves the weight sum NaN exactly when it already was NaN, or when the query sits on that triangle's pivot with a non-zero exponent. |
| Fusion.AccumulateAfterPivotHit | TriangleImagePositionLocator.java:65-79 | Once a triangle whose pivot is at the query point has been blended in, the weight sum and both coordinates are NaN. |
| Fusion.QueryAtPivot | TriangleImagePositionLocator.java:66-80 | For a query exactly on some pivot, the blended point is (NaN, NaN). |
| Fusion.EmptySetQuery | TriangleImagePositionLocator.java:80 | For an empty triangle set, the blended point is (NaN, NaN), not `null`. |
| Fusion.SingleTriangleQuery | TriangleImagePositionLocator.java:53-80 | With a single triangle, as after a two-marker update, the answer is that triangle's own projection. This needs a positive weight, a finite projection, and a query off the pivot unless the exponent is 0. |
| Fusion.AccumulateWithin | TriangleImagePositionLocator.java:65-79 | Throughout the second loop, each finite coordinate lies between `lo` and `hi` times the weight sum, whenever every projected coordinate lies in [lo, hi]. |
| Fusion.QueryWithinBounds | TriangleImagePositionLocator.java:53-80 | The weighted-centroid bound: when every triangle's projection lies in a box, each finite coordinate of the answer lies in that box too. |
| Fusion.ZeroWeightQuery | TriangleImagePositionLocator.java:65-80 | For any triangle set whose weights add up to exactly 0, the blended point is (NaN, NaN), not `null`. |
| Locator.TriangleImagePositionLocator.GetProjectionTriangles | TriangleImagePositionLocator.java:43-45 | The getter returns the triangle set itself, `null` until a rebuild with at least two markers. |
| Rebuild.Vertex | TriangleImagePositionLocator.java:141-142 | A Delaunay vertex denotes the pixel whose coordinates are its own, each truncated toward zero. |
| Rebuild.TupleTriangles | TriangleImagePositionLocator.java:113-121 | A 6-tuple yields at most one triangle. It yields one exactly when all three vertices resolve. That triangle has three corners, all markers of the list, and the `k`-th sits on the `k`-th vertex's pixel. |
| Rebuild.Resolve | TriangleImagePositionLocator.java:111-122 | The triangles the rebuild keeps: each 6-tuple's contribution, in Delaunay order. Its properties are the lemmas `ResolveShape`, `ResolveAppend` and `ResolveKeepsAllIff`. |
| Rebuild.CallCount | TriangleImagePositionLocator.java:124-129 | The first `k` outer iterations call `tryAddToProjGroup` at most `k` times the list length. |
| Numerics.Add | TriangleImagePositionLocator.java:76 | `sum += tmp` is NaN exactly when an operand is NaN, and is otherwise the exact sum. |
| Numerics.Mul | TriangleImagePositionLocator.java:68 | The falloff times the triangle weight is NaN exactly when a factor is NaN, even against 0, and is otherwise the exact product. |
| Numerics.Div | TriangleImagePositionLocator.java:80 | The quotient is NaN exactly when the numerator is NaN or the divisor is 0. Otherwise it times the divisor gives the numerator. It is only defined where no infinity can arise. |
| Geometry.FPoint2D.Fma | TriangleImagePositionLocator.java:75 | `result.fma(p, w)` adds `p` scaled by `w` to each coordinate. A coordinate becomes NaN exactly when it, `p`'s coordinate or `w` is NaN. |
| Geometry.FPoint2D.DivBy | TriangleImagePositionLocator.java:80 | `result.div(sum)` divides each coordinate by `sum`. A coordinate becomes NaN exactly when it is NaN or `sum` is 0. |

## Left out

- The Delaunay triangulation (OpenCV `Subdiv2D`, `MatOfFloat6`, lines 99-109) is foreign code. It is a function parameter whose result has a length that is a multiple of 6. Its coordinates are `float` in Java and exact reals here. It cannot fail here. In Java, `Subdiv2D.insert` (line 105) throws for a marker pixel outside the image rectangle (line 100), and `newMarkerAdded` then stops with `projs` unchanged. The model's `NewMarkerAdded` always replaces `projs` for three or more markers.
- `Projection.ProjectionTriangle` is a stand-in for the source's class. It records the corners, the tuning and the offers its constructors and `tryAddToProjGroup` receive. Its internals are not modelled: the pivot, the weight, the projection and the grouping decision of `tryAddToProjGroup`. The query reaches the first three only through `Fusion.Collaborators`.
- `settings` is a value fixed at construction. In Java it is a reference to an `IPLSettingsContainer`. Its getters are read again at every rebuild (lines 119-121) and at every falloff evaluation (line 152). Settings that change between calls cannot be expressed here.
- `GpsPoint.getSphericalDistance` and `Math.pow` are floating-point numerics. They are collaborator functions. The model assumes the distance is finite and non-negative, the triangle weight is non-negative, and `Math.pow` of a value in [0, 1] with a finite exponent is finite, non-negative, and exactly 1 for the base 1.
- The falloff exponent (`Settings.fallofExponent`, read through `getFallofExponent()` at line 152) is a finite real here. A NaN or infinite exponent is not represented: for it, Java's `Math.pow` gives NaN, at the base 1 as well. Nor is the infinity `Math.pow(0, y)` gives for a negative exponent, reached when the closest pivot is at distance 0 and another is not.
- Floating-point rounding, overflow and infinities are not modelled. Doubles are exact reals or NaN, and the constant 0.01 is the exact real 0.01.
- Numerics.Trunc: the `(int)` cast's saturation at the bounds of `int`, and its mapping of NaN to 0, are not represented.
- Locator.TriangleImagePositionLocator.GetPointPosition: it answers the blended `FPoint2D`. The final conversion `new Point2D(result)` (line 84) is not part of this model, because `Point2D` is not part of this model.
- The source of `FPoint2D.fma` and `FPoint2D.div` is not part of this model. The model defines them coordinate by coordinate, as `x += p.x * w` and `x /= s`.
- The `System.out.println` diagnostics (lines 51, 78, 82, 103) are output only.
- Locator.TriangleImagePositionLocator.GetProjectionTriangles: in Java it hands callers the live `ArrayList`, and they could change it in place. Here the set is a `seq` value, so a caller's change to the shared list (aliasing) cannot be expressed.
- Locator.TriangleImagePositionLocator.NewMarkerAdded: in the two-marker branch Java publishes the empty list before adding the triangle (lines 96-97). The model performs the same two steps, but a concurrent reader in between is not modelled.
- The loops of `newMarkerAdded` and `getPointPosition` are written as methods of their own:
  - `BuildTriangles` and `GroupTriangles` for `newMarkerAdded`; `BuildTriangle` is one iteration of the first loop;
  - `ClosestPivot` and `Blend` for `getPointPosition`.
  Each method performs its loop's statements. Each step of the step-6 loop of `newMarkerAdded` calls `BuildTriangle` and appends what it built; everything else in that step is ghost bookkeeping. One initialisation moved: Java sets up `result` and `sum` (lines 53-54) before `distances` and the first loop. In the model, `Blend` sets them up after `ClosestPivot` has run. The first loop neither reads nor writes them, so the result is the same.
