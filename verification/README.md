# Curvature embedding: a Dafny model

This project models the per-vertex curvature signal of the curvature-embedding
dataset pipeline, and proves properties of that model.

The estimator is `crv_measure`. It computes a modified discrete mean curvature
measure (Cohen-Steiner and Morvan) of a ball of radius `r` around each query
point. The display transform then turns the raw values into vertex colours in
the two embed scripts. The estimator works in three steps:

- **Box.** Each point `x` gets the axis-aligned box `[x - r, x + r]`
  (`Geometry.QueryBoxes`). The spatial index over the shared edges answers
  each box with candidate edge indices.
- **Filter.** A candidate edge is kept when one of its endpoints is "in" the
  coordinates of the query vertex's 1-ring neighbours (`Curvature.Kept`,
  computed by the loop in `Curvature.FilterCandidates`).
- **Sum.** The value is half the sum, over the kept edges, of
  length-inside-the-ball × dihedral angle × (+1 if convex, −1 if concave)
  (`Curvature.MeasureOver`).

`Curvature.CrvMeasure` is the whole function. Its ensures ties the output
array, which is filled in place one entry per point, to the specification
function `Curvature.MeanCurvatures`. The lemmas beside it prove what that
function promises.

The colouring (`Colouring`) is written once. Both `EmbedGraspnet.VertexColours`
and `EmbedAcronym.VertexColours` use it. It clamps the array in place, takes
the sign flags, rescales in place with those flags, and builds one colour
triple per value.

Inputs that stand for trimesh:

- The mesh adjacency data is a value, `Curvature.Mesh`. `Mesh.Valid` states
  the 1:1 correspondence of the per-edge arrays and the index bounds.
- The R-tree query is a function-valued parameter `tree: Box -> seq<nat>`.
  Its answers are indices of shared edges.
- The segment/ball intersection length is a function-valued parameter
  `ballLength`. It is applied to each kept edge, in order.

`CrvMeasure` also returns the boxes it hands to the spatial index. This states
two things: no query is made when the shape check fails, and on success one
box per point goes out, in point order.

How the code reads where it is easy to misread:

- **The 1-ring filter.** The docstring of `crv_measure`
  (curvature_utils.py:12) says only edges of the 1-ring neighbourhood are
  used. The test at curvature_utils.py:37 is `gen[0] in x_neighbors` on NumPy
  arrays, which means `(x_neighbors == gen[0]).any()`. That holds as soon as
  one coordinate of the endpoint equals the same-axis coordinate of any
  neighbour. `Curvature.CoordinateIn` is exactly that test. The filter the
  docstring describes, an endpoint being one of the neighbours, is a separate
  refinement, `Curvature.KeptByIndex`. It is proved to keep only edges the
  code keeps (`KeptByIndexRefinesKept`).
  `CoordinateFilterKeepsEdgeOutsideRing` shows, on a corner of a unit cube,
  the code keeping an edge with no endpoint in the 1-ring. On that cube the
  edge reaches the filter only for a radius of at least 1, the side length.
- **Channel colours.** The code (embed_graspnet.py:67, embed_acronym.py:42)
  puts non-negative values, the convex ones, in the first colour component
  and negative values, the concave ones, in the second.

embed_acronym.py:52 builds the bounds list exactly as embed_graspnet.py:15
does. `Colouring.CrvBounds` models both lines.

## Model

| member | source | states |
|---|---|---|
| Geometry.QueryBox | curvature_utils.py:23-25 | the box of point `x` holds exactly the points within `r` of `x` on every axis |
| Geometry.QueryBoxes | curvature_utils.py:24-25 | one box per point, in point order; box `k` holds exactly the points within `r` of point `k` on every axis |
| Geometry.BallInsideQueryBox | curvature_utils.py:23-28 | the box test is conservative: every point of the ball of radius `r` around `x` is inside `x`'s box |
| Geometry.QueryBoxGrows | curvature_utils.py:24-25 | a larger radius never shrinks the box |
| Geometry.AsPoints | curvature_utils.py:19-21 | ValueError with the message `points must be (n,3)!` exactly when the array is not shaped `(n,3)`; otherwise `n` points whose coordinates, row by row, are the array's elements |
| Geometry.PointArrayRoundTrip | curvature_utils.py:19-21 | a vertex array passes the shape check and its points are read back unchanged |
| Curvature.Ring | curvature_utils.py:33 | the ring has one point per neighbour of the vertex |
| Curvature.RingHoldsNeighbours | curvature_utils.py:33 | a point is in the ring exactly when it is the position of one of the vertex's neighbours |
| Curvature.CoordinateIn | curvature_utils.py:37 | a point that is a row of the ring passes the test, and nothing passes against an empty ring |
| Curvature.EndpointInRingTouches | curvature_utils.py:37 | an edge with an endpoint whose position is in the ring passes the filter; with an empty ring no edge passes |
| Curvature.Kept | curvature_utils.py:34-38 | the kept list is no longer than the candidate list, and every entry is a shared-edge index |
| Curvature.FilterCandidates | curvature_utils.py:34-38 | the appending loop over one point's candidates yields exactly the kept list |
| Curvature.KeptIsOrderedFilter | curvature_utils.py:34-38 | the kept list takes, in increasing position order, exactly the candidates whose edge has an endpoint coordinate-matching the 1-ring |
| Curvature.KeptCounts | curvature_utils.py:34-38 | no deduplication: a passing candidate is kept as often as it occurs, and a failing one never |
| Curvature.KeptMembership | curvature_utils.py:35-38 | an edge is kept if and only if it is a candidate and passes the filter |
| Curvature.KeptMonotone | curvature_utils.py:27-38 | when every candidate of one list is a candidate of another, every edge kept from the first is kept from the second |
| Curvature.Signs | curvature_utils.py:46 | each sign is +1 or −1, and positive exactly when the kept edge at that position is convex |
| Curvature.Lengths | curvature_utils.py:39-44 | one length per kept edge, and the same edge index gives the same length |
| Curvature.Gather | curvature_utils.py:45 | one value per index, each drawn from the array, and equal indices give equal values |
| Curvature.TripleSumZeroAngles | curvature_utils.py:47 | the sum of length × angle × sign products is 0 when every angle is 0 |
| Curvature.TripleSumNegatedSigns | curvature_utils.py:46-47 | negating every sign negates the sum of products |
| Curvature.TripleSumPositive | curvature_utils.py:47 | the sum of length × angle × sign products is at least 0 when no product is negative, and positive when in addition one product is positive |
| Curvature.MeasureOver | curvature_utils.py:39-47 | the measure over no kept edge is 0 |
| Curvature.MeasureIsHalfEdgeSum | curvature_utils.py:39-47 | gathering lengths, angles and signs with the same index list and summing their products equals half the edge-by-edge sum of length × angle × sign |
| Curvature.FlatNeighbourhood | curvature_utils.py:45-47 | when every kept edge has angle 0, the value is 0 |
| Curvature.FlipConvexityNegates | curvature_utils.py:46-47 | flipping every convexity flag negates the value |
| Curvature.ConvexNeighbourhoodIsPositive | curvature_utils.py:46-47 | kept edges that are all convex, none with a negative angle or length, and one with positive angle and positive length give a positive value; flat diagonals and zero-length edges may be among them |
| Curvature.ConcaveNeighbourhoodIsNegative | curvature_utils.py:46-47 | the same premises with every kept edge concave give a negative value |
| Curvature.NoPassingCandidateIsFlat | curvature_utils.py:33-47 | the value at a vertex is 0 when none of its candidates passes the filter, and always when the vertex has no neighbours |
| Curvature.MeanCurvatures | curvature_utils.py:31-47 | one value per point |
| Curvature.IsolatedVertexIsFlat | curvature_utils.py:31-47 | a vertex with no neighbours gets the value 0 |
| Curvature.MeanCurvaturesPrefix | curvature_utils.py:31-47 | each point is measured on its own: the values of a prefix of the points are the prefix of the values |
| Curvature.CrvMeasure | curvature_utils.py:5-49 | a badly shaped array gives ValueError and no query; otherwise one box per point is queried in order, the output has one entry per point, and entry `i` is the measure of point `i` over its own candidates that pass the filter |
| Curvature.PointCurvature | curvature_utils.py:33-47 | one turn of the outer loop computes exactly the specified value for point `i` over its own candidates |
| Curvature.KeptByIndex | curvature_utils.py:12 | refinement, not the code: the index-based 1-ring filter keeps no more entries than there are candidates, all of them edge indices |
| Curvature.KeptByIndexCounts | curvature_utils.py:12 | refinement: a candidate with an endpoint among the neighbours is kept as often as it occurs, any other never |
| Curvature.KeptByIndexMembership | curvature_utils.py:12 | refinement: an edge is kept if and only if it is a candidate with an endpoint among the neighbours |
| Curvature.IndexMatchImpliesCoordinateMatch | curvature_utils.py:33-37 | an edge with an endpoint that is a neighbour by index passes the coordinate test |
| Curvature.KeptByIndexRefinesKept | curvature_utils.py:33-38 | filtering the code's kept list by index gives the index filter's list, so the refinement only drops edges |
| Curvature.UnitCube | curvature_utils.py:33-36 | the triangulated unit cube used below is valid adjacency data; vertex 0's neighbours are 1, 2 and 4, and shared edge 7 joins vertices 3 and 7 |
| Curvature.CoordinateFilterKeepsEdgeOutsideRing | curvature_utils.py:37 | at a corner of a unit cube the code keeps an edge that has no endpoint in the 1-ring, and the index filter drops it |
| Colouring.CrvBounds | embed_graspnet.py:15 | the bounds are symmetric around 0, and for a positive bound the lower one is negative and the upper one positive |
| Colouring.Clamp | embed_graspnet.py:62-63 | the clamped value lies in `[lo, hi]`; it equals the raw value exactly when that is already inside, and is the nearer bound otherwise |
| Colouring.ClampIdempotent | embed_graspnet.py:62-63 | clamping twice equals clamping once |
| Colouring.ClampInPlace | embed_graspnet.py:62-63 | after the two masked assignments, every entry is the clamp of its old value |
| Colouring.Rescaled | embed_graspnet.py:65-66 | each formula maps its own side of the bounds into `[0, 1]`, sends only 0 to 0, and sends its own bound to 1 |
| Colouring.Intensity | embed_graspnet.py:65-66 | the intensity is never negative, and 0 only for the value 0 |
| Colouring.RescaleInPlace | embed_graspnet.py:64-66 | each entry is rescaled by the formula its precomputed flag selects, and only once |
| Colouring.RescaledIsIntensity | embed_graspnet.py:64-66 | with the sign flag, `1 - (c - lo)/(0 - lo)` and `(c - 0)/(hi - 0)` equal `c/lo` and `c/hi` |
| Colouring.IntensityInUnitRange | embed_graspnet.py:65-66 | a clamped value's intensity lies in `[0, 1]`, or in `(0, 1]` when it is negative; 0 maps to 0 and each bound to 1 |
| Colouring.IntensityMonotone | embed_graspnet.py:65-66 | a larger non-negative value, or a more negative value, gets a strictly larger intensity |
| Colouring.ColourOf | embed_graspnet.py:62-67 | the third component is 0; the first is positive iff the raw value is positive, the second iff it is negative; both lie in `[0, 1]`; raw values at or beyond a bound saturate to 1 |
| Colouring.DefaultBoundExamples | embed_graspnet.py:62-67 | with bound 0.1: 0.05 gives `[0.5,0,0]`, −0.05 gives `[0,0.5,0]`, 0.2 gives `[1,0,0]` |
| Colouring.ColourList | embed_graspnet.py:67 | one colour per value; the third component is 0, the value sits in the first when its flag is set and in the second otherwise, and the other of the two is 0 |
| Colouring.Colourize | embed_graspnet.py:62-67 | one colour per value, in order, each the colour of its raw value; each array entry ends as its clamped value's intensity |
| EmbedGraspnet.VertexColours | embed_graspnet.py:60-67 | the estimator on the mesh's own vertices never raises; each vertex gets the colour of its own curvature value under bounds `[-crv_bound, crv_bound]` |
| EmbedAcronym.ManagerBoundsAccepted | embed_acronym.py:52 | the list `manager` builds is accepted by `embed` and saturates both channels at `crv_bound` |
| EmbedAcronym.VertexColours | embed_acronym.py:35-42 | each vertex gets the colour of its own curvature value under the given bounds |

## Left out

- Spatial index: how trimesh's R-tree is built and what it answers are not modelled. `tree` is any function from a box to shared-edge indices. So the model does not know that the answer contains every edge whose bounding box meets the query box. Nor does it say what the index answers for the inverted boxes a negative radius builds: `CrvMeasure` accepts any radius, as the code does, and whatever `tree` returns for such a box is measured.
- Segment/ball intersection: trimesh's `line_ball_intersection` is an opaque function applied to each kept edge. Its geometry is not modelled (zero outside the ball, the full length inside, clipping at the sphere).
- Adjacency precomputation: vertex neighbours, shared edges, dihedral angles and convexity flags are inputs. Their computation from the faces is not modelled.
- Geometry.AsPoints: only arrays with two dimensions and three columns pass. trimesh's `is_shape(points, (-1, 3))` also accepts any two-dimensional array with zero rows. So for an array shaped `(0, k)` with `k` not 3 the code returns an empty result, while the model raises ValueError. That library is not part of this model.
- Curvature.CrvMeasure: requires at most as many points as mesh vertices. A longer point array would make `mesh.vertex_neighbors[i]` raise IndexError; callers always pass the mesh's own vertices.
- Curvature.CrvMeasure: the result is returned as a sequence. The array the code fills in place is a local array in the method.
- Floating point: coordinates, angles, lengths and colours are reals. Rounding, NaN and infinity are not modelled, nor is the `float64` conversion of the input.
- Colouring.RescaleInPlace: requires `lo < 0 < hi`. With a bound of 0 the code divides by zero, and NumPy would give infinities or NaN. A negative bound runs in the code with `lo > hi`: every value clamps to `hi < 0` and comes out as `[0, -1, 0]`. Such bounds are meaningless and are excluded.
- EmbedGraspnet.VertexColours: requires a positive `crv_bound`, for the same reason: 0 divides by zero and a negative bound turns every colour into `[0, -1, 0]`.
- Colour conversion: turning the colour list into trimesh vertex colours is not modelled.
- Scene assembly: loading scene, pose and mesh files is not modelled. Neither are camera and renderer setup, rendering, image writing and mesh export.
- Mesh preparation in the ACRONYM script is not modelled: scaling, centring, transforming and optional subdivision. The mesh is an input.
- Orchestration: the multiprocessing pools in both `manager` functions, timing output and argument parsing are not modelled.
- Other modules: pose-file parsing, quaternion and Euler conversions and point transforms in graspnet_utils.py are not part of this model. Neither are the scale loading in acronym_utils.py and the decimation script graspnet_decimate.py.
