/**
 * The modified discrete mean curvature measure (Cohen-Steiner and Morvan) of
 * a ball around each query point, restricted to the edges the 1-ring filter
 * keeps: `crv_measure` in curvature_utils.py.
 *
 * What trimesh precomputes for a mesh (vertex neighbours, the shared edges
 * with their dihedral angles and convexity flags) is an input value; the
 * R-tree over the shared edges and the segment/ball intersection length are
 * function-valued inputs whose geometry is not modelled.
 */
module Curvature {
  import opened Wrappers
  import opened Geometry

  /** The two vertex indices of an edge shared by two faces. */
  datatype Edge = Edge(v0: nat, v1: nat)

  /**
   * The adjacency data the estimator reads. Index `c` names one shared edge
   * across `faceAdjacencyEdges`, `faceAdjacencyAngles` and
   * `faceAdjacencyConvex`.
   */
  datatype Mesh = Mesh(
    vertices: seq<Point>,
    vertexNeighbors: seq<seq<nat>>,
    faceAdjacencyEdges: seq<Edge>,
    faceAdjacencyAngles: seq<real>,
    faceAdjacencyConvex: seq<bool>)
  {
    predicate Valid() {
      && |vertexNeighbors| == |vertices|
      && (forall i, k :: 0 <= i < |vertexNeighbors| && 0 <= k < |vertexNeighbors[i]| ==>
            vertexNeighbors[i][k] < |vertices|)
      && EdgesIn(vertices, faceAdjacencyEdges)
      && |faceAdjacencyAngles| == |faceAdjacencyEdges|
      && |faceAdjacencyConvex| == |faceAdjacencyEdges|
    }
  }

  predicate EdgesIn(vertices: seq<Point>, edges: seq<Edge>) {
    forall c :: 0 <= c < |edges| ==> edges[c].v0 < |vertices| && edges[c].v1 < |vertices|
  }

  predicate IndicesBelow(idx: seq<nat>, n: nat) {
    forall k :: 0 <= k < |idx| ==> idx[k] < n
  }

  /** The spatial index answers every box with indices of shared edges. */
  ghost predicate IndexesEdges(tree: Box -> seq<nat>, edgeCount: nat) {
    forall b :: IndicesBelow(tree(b), edgeCount)
  }

  /** `x_neighbors`: the coordinates of the 1-ring neighbours of vertex `i`. */
  function Ring(mesh: Mesh, i: nat): (ring: seq<Point>)
    requires mesh.Valid() && i < |mesh.vertexNeighbors|
    ensures |ring| == |mesh.vertexNeighbors[i]|
  {
    seq(|mesh.vertexNeighbors[i]|, k requires 0 <= k < |mesh.vertexNeighbors[i]| =>
      mesh.vertices[mesh.vertexNeighbors[i][k]])
  }

  /** The 1-ring holds exactly the positions of the vertex's neighbours. */
  lemma RingHoldsNeighbours(mesh: Mesh, i: nat, p: Point)
    requires mesh.Valid() && i < |mesh.vertexNeighbors|
    ensures p in Ring(mesh, i) <==> exists j :: j in mesh.vertexNeighbors[i] && mesh.vertices[j] == p
  {
    var ring, nb := Ring(mesh, i), mesh.vertexNeighbors[i];
    if p in ring {
      var k :| 0 <= k < |ring| && ring[k] == p;
      assert nb[k] in nb;
    }
    if exists j :: j in nb && mesh.vertices[j] == p {
      var j :| j in nb && mesh.vertices[j] == p;
      var k :| 0 <= k < |nb| && nb[k] == j;
      assert ring[k] == p;
    }
  }

  /**
   * NumPy's `p in ring` for a point `p` and a `(k, 3)` array `ring`: it means
   * `(ring == p).any()`, so it holds as soon as ONE coordinate of `p` equals
   * the coordinate on the same axis of ANY row of `ring`.
   */
  predicate CoordinateIn(p: Point, ring: seq<Point>)
    ensures p in ring ==> CoordinateIn(p, ring)
    ensures CoordinateIn(p, ring) ==> ring != []
  {
    exists k :: 0 <= k < |ring| && (ring[k].x == p.x || ring[k].y == p.y || ring[k].z == p.z)
  }

  /** The filter's test for candidate edge `c`: either endpoint is "in" the ring. */
  predicate TouchesRing(vertices: seq<Point>, edges: seq<Edge>, ring: seq<Point>, c: nat)
    requires EdgesIn(vertices, edges) && c < |edges|
  {
    CoordinateIn(vertices[edges[c].v0], ring) || CoordinateIn(vertices[edges[c].v1], ring)
  }

  /**
   * The test is looser than ring membership: an edge with an endpoint whose
   * position is in the ring passes, and with an empty ring nothing passes.
   */
  lemma EndpointInRingTouches(vertices: seq<Point>, edges: seq<Edge>, ring: seq<Point>, c: nat)
    requires EdgesIn(vertices, edges) && c < |edges|
    ensures vertices[edges[c].v0] in ring || vertices[edges[c].v1] in ring ==> TouchesRing(vertices, edges, ring, c)
    ensures ring == [] ==> !TouchesRing(vertices, edges, ring, c)
  {
  }

  /** `ref_x_candidates`: the candidates that pass the filter, in candidate order. */
  function Kept(vertices: seq<Point>, edges: seq<Edge>, ring: seq<Point>, cands: seq<nat>): (kept: seq<nat>)
    requires EdgesIn(vertices, edges) && IndicesBelow(cands, |edges|)
    ensures |kept| <= |cands|
    ensures IndicesBelow(kept, |edges|)
    decreases |cands|
  {
    if cands == [] then []
    else
      var last := cands[|cands| - 1];
      Kept(vertices, edges, ring, cands[..|cands| - 1])
        + (if TouchesRing(vertices, edges, ring, last) then [last] else [])
  }

  /** The positions in `cands` of the candidates that pass the filter, in increasing order. */
  ghost function KeptPositions(vertices: seq<Point>, edges: seq<Edge>, ring: seq<Point>, cands: seq<nat>): seq<nat>
    requires EdgesIn(vertices, edges) && IndicesBelow(cands, |edges|)
    decreases |cands|
  {
    if cands == [] then []
    else
      var n := |cands| - 1;
      KeptPositions(vertices, edges, ring, cands[..n])
        + (if TouchesRing(vertices, edges, ring, cands[n]) then [n] else [])
  }

  /**
   * The kept list is the order-preserving subsequence of the candidates that
   * pass the filter: it picks, in increasing order, exactly the positions
   * whose candidate touches the ring.
   */
  lemma {:induction false} KeptIsOrderedFilter(vertices: seq<Point>, edges: seq<Edge>, ring: seq<Point>, cands: seq<nat>)
    requires EdgesIn(vertices, edges) && IndicesBelow(cands, |edges|)
    ensures var kept, pos := Kept(vertices, edges, ring, cands), KeptPositions(vertices, edges, ring, cands);
      && |kept| == |pos|
      && (forall k :: 0 <= k < |pos| ==> pos[k] < |cands| && kept[k] == cands[pos[k]])
      && (forall k, l :: 0 <= k < l < |pos| ==> pos[k] < pos[l])
      && (forall j :: 0 <= j < |cands| ==> (j in pos <==> TouchesRing(vertices, edges, ring, cands[j])))
  {
    if cands != [] {
      var n := |cands| - 1;
      var pre := cands[..n];
      KeptIsOrderedFilter(vertices, edges, ring, pre);
      var kept0, pos0 := Kept(vertices, edges, ring, pre), KeptPositions(vertices, edges, ring, pre);
      var kept, pos := Kept(vertices, edges, ring, cands), KeptPositions(vertices, edges, ring, cands);
      if TouchesRing(vertices, edges, ring, cands[n]) {
        assert kept == kept0 + [cands[n]] && pos == pos0 + [n];
      } else {
        assert kept == kept0 && pos == pos0;
        assert n !in pos;
      }
    }
  }

  /**
   * No deduplication: a candidate that passes the filter is kept as many
   * times as it occurs among the candidates, and one that fails is dropped.
   */
  lemma {:induction false} KeptCounts(vertices: seq<Point>, edges: seq<Edge>, ring: seq<Point>, cands: seq<nat>, c: nat)
    requires EdgesIn(vertices, edges) && IndicesBelow(cands, |edges|) && c < |edges|
    ensures multiset(Kept(vertices, edges, ring, cands))[c] ==
      if TouchesRing(vertices, edges, ring, c) then multiset(cands)[c] else 0
  {
    if cands != [] {
      var n := |cands| - 1;
      var pre := cands[..n];
      KeptCounts(vertices, edges, ring, pre, c);
      assert cands == pre + [cands[n]];
      assert multiset(cands) == multiset(pre) + multiset{cands[n]};
      var added := if TouchesRing(vertices, edges, ring, cands[n]) then [cands[n]] else [];
      assert Kept(vertices, edges, ring, cands) == Kept(vertices, edges, ring, pre) + added;
      assert multiset(Kept(vertices, edges, ring, cands)) == multiset(Kept(vertices, edges, ring, pre)) + multiset(added);
    }
  }

  /** An edge is kept if and only if it is a candidate that passes the filter. */
  lemma KeptMembership(vertices: seq<Point>, edges: seq<Edge>, ring: seq<Point>, cands: seq<nat>, c: nat)
    requires EdgesIn(vertices, edges) && IndicesBelow(cands, |edges|) && c < |edges|
    ensures c in Kept(vertices, edges, ring, cands) <==> c in cands && TouchesRing(vertices, edges, ring, c)
  {
  }

  /**
   * More candidates never lose a kept edge: when every candidate of `small`
   * is also one of `large` (for instance the answer of the spatial index for
   * a box inside a bigger one), every edge kept from `small` is kept from
   * `large`.
   */
  lemma KeptMonotone(vertices: seq<Point>, edges: seq<Edge>, ring: seq<Point>, small: seq<nat>, large: seq<nat>)
    requires EdgesIn(vertices, edges) && IndicesBelow(small, |edges|) && IndicesBelow(large, |edges|)
    requires forall c :: c in small ==> c in large
    ensures forall c :: c in Kept(vertices, edges, ring, small) ==> c in Kept(vertices, edges, ring, large)
  {
    forall c | c in Kept(vertices, edges, ring, small)
      ensures c in Kept(vertices, edges, ring, large)
    {
      var kept := Kept(vertices, edges, ring, small);
      var k :| 0 <= k < |kept| && kept[k] == c;
      KeptMembership(vertices, edges, ring, small, c);
      KeptMembership(vertices, edges, ring, large, c);
    }
  }

  /** `lengths`: the length of each kept edge inside the ball of radius `r` around `x`. */
  function Lengths(mesh: Mesh, kept: seq<nat>, x: Point, r: real,
                   ballLength: (Point, Point, Point, real) -> real): (lengths: seq<real>)
    requires mesh.Valid() && IndicesBelow(kept, |mesh.faceAdjacencyEdges|)
    ensures |lengths| == |kept|
    ensures forall k, m :: 0 <= k < |kept| && 0 <= m < |kept| && kept[k] == kept[m] ==> lengths[k] == lengths[m]
  {
    seq(|kept|, k requires 0 <= k < |kept| =>
      ballLength(mesh.vertices[mesh.faceAdjacencyEdges[kept[k]].v0],
                 mesh.vertices[mesh.faceAdjacencyEdges[kept[k]].v1], x, r))
  }

  /** NumPy fancy indexing `a[idx]`. */
  function Gather(a: seq<real>, idx: seq<nat>): (g: seq<real>)
    requires IndicesBelow(idx, |a|)
    ensures |g| == |idx|
    ensures forall k :: 0 <= k < |idx| ==> g[k] in a
    ensures forall k, m :: 0 <= k < |idx| && 0 <= m < |idx| && idx[k] == idx[m] ==> g[k] == g[m]
  {
    seq(|idx|, k requires 0 <= k < |idx| => a[idx[k]])
  }

  /** `np.where(convex[idx], 1, -1)`. */
  function Signs(convex: seq<bool>, idx: seq<nat>): (s: seq<real>)
    requires IndicesBelow(idx, |convex|)
    ensures |s| == |idx|
    ensures forall k :: 0 <= k < |idx| ==> (s[k] == 1.0 || s[k] == -1.0) && (s[k] > 0.0 <==> convex[idx[k]])
  {
    seq(|idx|, k requires 0 <= k < |idx| => if convex[idx[k]] then 1.0 else -1.0)
  }

  /** `(l * a * s).sum()` over three equally long arrays. */
  function TripleSum(l: seq<real>, a: seq<real>, s: seq<real>): real
    requires |l| == |a| == |s|
  {
    if l == [] then 0.0 else l[0] * a[0] * s[0] + TripleSum(l[1..], a[1..], s[1..])
  }

  /**
   * The measure of one ball over a list of kept edges: half the sum of
   * length times dihedral angle times convexity sign, the three arrays
   * gathered with the same index list.
   */
  function MeasureOver(mesh: Mesh, x: Point, r: real,
                       ballLength: (Point, Point, Point, real) -> real, kept: seq<nat>): (m: real)
    requires mesh.Valid() && IndicesBelow(kept, |mesh.faceAdjacencyEdges|)
    ensures kept == [] ==> m == 0.0
  {
    TripleSum(Lengths(mesh, kept, x, r, ballLength),
              Gather(mesh.faceAdjacencyAngles, kept),
              Signs(mesh.faceAdjacencyConvex, kept)) / 2.0
  }

  /** The curvature value of query point `x`, the `i`-th point, from its candidates. */
  function CurvatureAt(mesh: Mesh, i: nat, x: Point, cands: seq<nat>, r: real,
                       ballLength: (Point, Point, Point, real) -> real): real
    requires mesh.Valid() && i < |mesh.vertexNeighbors| && IndicesBelow(cands, |mesh.faceAdjacencyEdges|)
  {
    MeasureOver(mesh, x, r, ballLength,
                Kept(mesh.vertices, mesh.faceAdjacencyEdges, Ring(mesh, i), cands))
  }

  /**
   * When no candidate passes the filter the value is 0; in particular a
   * vertex without neighbours always gets 0.
   */
  lemma NoPassingCandidateIsFlat(mesh: Mesh, i: nat, x: Point, cands: seq<nat>, r: real,
                                 ballLength: (Point, Point, Point, real) -> real)
    requires mesh.Valid() && i < |mesh.vertexNeighbors| && IndicesBelow(cands, |mesh.faceAdjacencyEdges|)
    requires (forall k :: 0 <= k < |cands| ==> !TouchesRing(mesh.vertices, mesh.faceAdjacencyEdges, Ring(mesh, i), cands[k]))
      || mesh.vertexNeighbors[i] == []
    ensures CurvatureAt(mesh, i, x, cands, r, ballLength) == 0.0
  {
    var kept := Kept(mesh.vertices, mesh.faceAdjacencyEdges, Ring(mesh, i), cands);
    if kept != [] {
      KeptMembership(mesh.vertices, mesh.faceAdjacencyEdges, Ring(mesh, i), cands, kept[0]);
    }
  }

  /** The whole output: one curvature value per point, from the candidates of its query box. */
  function MeanCurvatures(mesh: Mesh, points: seq<Point>, r: real, tree: Box -> seq<nat>,
                          ballLength: (Point, Point, Point, real) -> real): (values: seq<real>)
    requires mesh.Valid() && |points| <= |mesh.vertexNeighbors|
    requires IndexesEdges(tree, |mesh.faceAdjacencyEdges|)
    ensures |values| == |points|
  {
    seq(|points|, i requires 0 <= i < |points| =>
      CurvatureAt(mesh, i, points[i], tree(QueryBox(points[i], r)), r, ballLength))
  }
  /** A vertex with no neighbours has an empty ring, keeps no edge and gets 0. */
  lemma IsolatedVertexIsFlat(mesh: Mesh, points: seq<Point>, r: real, tree: Box -> seq<nat>,
                             ballLength: (Point, Point, Point, real) -> real, i: nat)
    requires mesh.Valid() && |points| <= |mesh.vertexNeighbors|
    requires IndexesEdges(tree, |mesh.faceAdjacencyEdges|)
    requires i < |points| && mesh.vertexNeighbors[i] == []
    ensures MeanCurvatures(mesh, points, r, tree, ballLength)[i] == 0.0
  {
    NoPassingCandidateIsFlat(mesh, i, points[i], tree(QueryBox(points[i], r)), r, ballLength);
  }

  /**
   * Each point is measured on its own: the values for a prefix of the points
   * are the prefix of the values.
   */
  lemma MeanCurvaturesPrefix(mesh: Mesh, points: seq<Point>, r: real, tree: Box -> seq<nat>,
                             ballLength: (Point, Point, Point, real) -> real, n: nat)
    requires mesh.Valid() && |points| <= |mesh.vertexNeighbors|
    requires IndexesEdges(tree, |mesh.faceAdjacencyEdges|)
    requires n <= |points|
    ensures MeanCurvatures(mesh, points[..n], r, tree, ballLength) == MeanCurvatures(mesh, points, r, tree, ballLength)[..n]
  {
  }


  /**
   * `crv_measure(mesh, points, radius)`. A `points` array not shaped `(n, 3)`
   * is rejected with a ValueError before any box is built or any query is
   * made; otherwise the result holds, for each point in order, the measure
   * over the candidates the spatial index returns for that point's box and
   * that pass the 1-ring filter. `boxes` lists the boxes handed to the index,
   * in the order they were handed to it.
   */
  method CrvMeasure(mesh: Mesh, points: NdArray, radius: real, tree: Box -> seq<nat>,
                    ballLength: (Point, Point, Point, real) -> real)
    returns (result: Result<seq<real>, Error>, boxes: seq<Box>)
    requires mesh.Valid() && WellFormed(points)
    requires IsPointArray(points) ==> points.shape[0] <= |mesh.vertices|
    requires IndexesEdges(tree, |mesh.faceAdjacencyEdges|)
    ensures !IsPointArray(points) ==> result == Failure(ValueError(ShapeMessage)) && boxes == []
    ensures IsPointArray(points) ==>
      && result.Success?
      && |result.value| == points.shape[0]
      && var pts := AsPoints(points).value;
      && boxes == QueryBoxes(pts, radius)
      && result.value == MeanCurvatures(mesh, pts, radius, tree, ballLength)
  {
    var checked := AsPoints(points);
    if checked.Failure? {
      return Failure(checked.error), [];
    }
    var pts := checked.value;

    // axis-aligned bounds, then the candidates of each box
    boxes := QueryBoxes(pts, radius);
    var candidates := seq(|boxes|, k requires 0 <= k < |boxes| => tree(boxes[k]));

    var meanCurv := new real[|pts|];
    var i := 0;
    while i < |pts|
      invariant 0 <= i <= |pts|
      invariant forall k :: 0 <= k < i ==>
        meanCurv[k] == CurvatureAt(mesh, k, pts[k], candidates[k], radius, ballLength)
    {
      meanCurv[i] := PointCurvature(mesh, i, pts[i], candidates[i], radius, ballLength);
      i := i + 1;
    }
    ghost var expected := MeanCurvatures(mesh, pts, radius, tree, ballLength);
    forall k | 0 <= k < |pts| ensures meanCurv[k] == expected[k] {
      assert candidates[k] == tree(QueryBox(pts[k], radius));
    }
    assert meanCurv[..] == expected;
    result := Success(meanCurv[..]);
  }

  /**
   * One turn of the outer loop of `crv_measure`: the ring of vertex `i`, the
   * kept candidates, and half the sum of length times angle times sign over
   * them.
   */
  method PointCurvature(mesh: Mesh, i: nat, x: Point, xCandidates: seq<nat>, radius: real,
                        ballLength: (Point, Point, Point, real) -> real)
    returns (value: real)
    requires mesh.Valid() && i < |mesh.vertexNeighbors| && IndicesBelow(xCandidates, |mesh.faceAdjacencyEdges|)
    ensures value == CurvatureAt(mesh, i, x, xCandidates, radius, ballLength)
  {
    var xNeighbors := Ring(mesh, i);
    var refCandidates := FilterCandidates(mesh, xNeighbors, xCandidates);
    var lengths := Lengths(mesh, refCandidates, x, radius, ballLength);
    var angles := Gather(mesh.faceAdjacencyAngles, refCandidates);
    var signs := Signs(mesh.faceAdjacencyConvex, refCandidates);
    value := TripleSum(lengths, angles, signs) / 2.0;
  }

  /**
   * The inner loop of `crv_measure`: walks the candidates of one point and
   * appends each one whose edge touches the ring.
   */
  method FilterCandidates(mesh: Mesh, xNeighbors: seq<Point>, xCandidates: seq<nat>)
    returns (refCandidates: seq<nat>)
    requires mesh.Valid() && IndicesBelow(xCandidates, |mesh.faceAdjacencyEdges|)
    ensures refCandidates == Kept(mesh.vertices, mesh.faceAdjacencyEdges, xNeighbors, xCandidates)
  {
    refCandidates := [];
    var j := 0;
    while j < |xCandidates|
      invariant 0 <= j <= |xCandidates|
      invariant refCandidates == Kept(mesh.vertices, mesh.faceAdjacencyEdges, xNeighbors, xCandidates[..j])
    {
      var c := xCandidates[j];
      var gen := mesh.faceAdjacencyEdges[c];
      if CoordinateIn(mesh.vertices[gen.v0], xNeighbors) || CoordinateIn(mesh.vertices[gen.v1], xNeighbors) {
        refCandidates := refCandidates + [c];
      }
      assert xCandidates[..j + 1][..j] == xCandidates[..j];
      j := j + 1;
    }
    assert xCandidates[..j] == xCandidates;
  }

  // ---------------------------------------------------------------------
  // Properties of the measure

  /** The contribution of one shared edge: length in the ball times angle times sign. */
  function EdgeTerm(mesh: Mesh, x: Point, r: real,
                    ballLength: (Point, Point, Point, real) -> real, c: nat): real
    requires mesh.Valid() && c < |mesh.faceAdjacencyEdges|
  {
    var e := mesh.faceAdjacencyEdges[c];
    ballLength(mesh.vertices[e.v0], mesh.vertices[e.v1], x, r)
      * mesh.faceAdjacencyAngles[c]
      * (if mesh.faceAdjacencyConvex[c] then 1.0 else -1.0)
  }

  /** The sum of the contributions of the listed edges, one edge at a time. */
  function EdgeSum(mesh: Mesh, x: Point, r: real,
                   ballLength: (Point, Point, Point, real) -> real, kept: seq<nat>): real
    requires mesh.Valid() && IndicesBelow(kept, |mesh.faceAdjacencyEdges|)
  {
    if kept == [] then 0.0 else EdgeTerm(mesh, x, r, ballLength, kept[0]) + EdgeSum(mesh, x, r, ballLength, kept[1..])
  }

  /**
   * The vectorised computation pairs lengths, angles and signs position by
   * position: it equals half the edge-by-edge sum over the same edges.
   */
  lemma {:induction false} MeasureIsHalfEdgeSum(mesh: Mesh, x: Point, r: real,
                                                ballLength: (Point, Point, Point, real) -> real, kept: seq<nat>)
    requires mesh.Valid() && IndicesBelow(kept, |mesh.faceAdjacencyEdges|)
    ensures MeasureOver(mesh, x, r, ballLength, kept) == EdgeSum(mesh, x, r, ballLength, kept) / 2.0
  {
    GatheredSum(mesh, x, r, ballLength, kept);
  }

  lemma {:induction false} GatheredSum(mesh: Mesh, x: Point, r: real,
                                       ballLength: (Point, Point, Point, real) -> real, kept: seq<nat>)
    requires mesh.Valid() && IndicesBelow(kept, |mesh.faceAdjacencyEdges|)
    ensures TripleSum(Lengths(mesh, kept, x, r, ballLength),
                      Gather(mesh.faceAdjacencyAngles, kept),
                      Signs(mesh.faceAdjacencyConvex, kept)) == EdgeSum(mesh, x, r, ballLength, kept)
  {
    if kept != [] {
      var l, a, s := Lengths(mesh, kept, x, r, ballLength),
                     Gather(mesh.faceAdjacencyAngles, kept),
                     Signs(mesh.faceAdjacencyConvex, kept);
      assert l[1..] == Lengths(mesh, kept[1..], x, r, ballLength);
      assert a[1..] == Gather(mesh.faceAdjacencyAngles, kept[1..]);
      assert s[1..] == Signs(mesh.faceAdjacencyConvex, kept[1..]);
      GatheredSum(mesh, x, r, ballLength, kept[1..]);
    }
  }

  /** A sum of triple products vanishes when every angle does. */
  lemma {:induction false} TripleSumZeroAngles(l: seq<real>, a: seq<real>, s: seq<real>)
    requires |l| == |a| == |s|
    requires forall k :: 0 <= k < |a| ==> a[k] == 0.0
    ensures TripleSum(l, a, s) == 0.0
  {
    if l != [] {
      TripleSumZeroAngles(l[1..], a[1..], s[1..]);
    }
  }

  /** Negating every sign negates a sum of triple products. */
  lemma {:induction false} TripleSumNegatedSigns(l: seq<real>, a: seq<real>, s: seq<real>, t: seq<real>)
    requires |l| == |a| == |s| == |t|
    requires forall k :: 0 <= k < |s| ==> t[k] == -s[k]
    ensures TripleSum(l, a, t) == -TripleSum(l, a, s)
  {
    if l != [] {
      TripleSumNegatedSigns(l[1..], a[1..], s[1..], t[1..]);
    }
  }

  /**
   * A sum of triple products none of which is negative is not negative, and
   * it is positive as soon as one of them is.
   */
  lemma {:induction false} TripleSumPositive(l: seq<real>, a: seq<real>, s: seq<real>)
    requires |l| == |a| == |s|
    requires forall k :: 0 <= k < |l| ==> l[k] * a[k] * s[k] >= 0.0
    ensures TripleSum(l, a, s) >= 0.0
    ensures (exists j :: 0 <= j < |l| && l[j] * a[j] * s[j] > 0.0) ==> TripleSum(l, a, s) > 0.0
  {
    if l != [] {
      var lt, at, st := l[1..], a[1..], s[1..];
      forall k | 0 <= k < |lt| ensures lt[k] * at[k] * st[k] >= 0.0 {
        assert lt[k] == l[k + 1] && at[k] == a[k + 1] && st[k] == s[k + 1];
      }
      TripleSumPositive(lt, at, st);
      var head := l[0] * a[0] * s[0];
      assert head >= 0.0;
      assert TripleSum(l, a, s) == head + TripleSum(lt, at, st);
      if exists j :: 0 <= j < |l| && l[j] * a[j] * s[j] > 0.0 {
        var j :| 0 <= j < |l| && l[j] * a[j] * s[j] > 0.0;
        if j > 0 {
          assert lt[j - 1] == l[j] && at[j - 1] == a[j] && st[j - 1] == s[j];
          assert lt[j - 1] * at[j - 1] * st[j - 1] > 0.0;
        }
      }
    }
  }

  /** A flat neighbourhood: if every kept edge has dihedral angle 0, the value is 0. */
  lemma FlatNeighbourhood(mesh: Mesh, x: Point, r: real,
                          ballLength: (Point, Point, Point, real) -> real, kept: seq<nat>)
    requires mesh.Valid() && IndicesBelow(kept, |mesh.faceAdjacencyEdges|)
    requires forall k :: 0 <= k < |kept| ==> mesh.faceAdjacencyAngles[kept[k]] == 0.0
    ensures MeasureOver(mesh, x, r, ballLength, kept) == 0.0
  {
    TripleSumZeroAngles(Lengths(mesh, kept, x, r, ballLength),
                        Gather(mesh.faceAdjacencyAngles, kept),
                        Signs(mesh.faceAdjacencyConvex, kept));
  }

  /** The mesh with every convexity flag flipped. */
  function FlipConvexity(mesh: Mesh): (flipped: Mesh)
    ensures flipped.Valid() <==> mesh.Valid()
  {
    mesh.(faceAdjacencyConvex := seq(|mesh.faceAdjacencyConvex|, c requires 0 <= c < |mesh.faceAdjacencyConvex| =>
                                       !mesh.faceAdjacencyConvex[c]))
  }

  /**
   * Flipping every convexity flag keeps the same edges and negates every
   * curvature value.
   */
  lemma FlipConvexityNegates(mesh: Mesh, i: nat, x: Point, cands: seq<nat>, r: real,
                             ballLength: (Point, Point, Point, real) -> real)
    requires mesh.Valid() && i < |mesh.vertexNeighbors| && IndicesBelow(cands, |mesh.faceAdjacencyEdges|)
    ensures CurvatureAt(FlipConvexity(mesh), i, x, cands, r, ballLength) == -CurvatureAt(mesh, i, x, cands, r, ballLength)
  {
    var flipped := FlipConvexity(mesh);
    assert Ring(flipped, i) == Ring(mesh, i);
    var kept := Kept(mesh.vertices, mesh.faceAdjacencyEdges, Ring(mesh, i), cands);
    assert Lengths(flipped, kept, x, r, ballLength) == Lengths(mesh, kept, x, r, ballLength);
    TripleSumNegatedSigns(Lengths(mesh, kept, x, r, ballLength),
                          Gather(mesh.faceAdjacencyAngles, kept),
                          Signs(mesh.faceAdjacencyConvex, kept),
                          Signs(flipped.faceAdjacencyConvex, kept));
  }

  /**
   * A convex neighbourhood has positive curvature: if every kept edge is
   * convex, with a dihedral angle and a length inside the ball that are not
   * negative, and at least one kept edge has both positive, the value is
   * positive. Flat diagonals (angle 0) and edges that only graze the box
   * (length 0) may be among the kept edges, as at a corner of a
   * triangulated cube.
   */
  lemma ConvexNeighbourhoodIsPositive(mesh: Mesh, x: Point, r: real,
                                      ballLength: (Point, Point, Point, real) -> real, kept: seq<nat>)
    requires mesh.Valid() && IndicesBelow(kept, |mesh.faceAdjacencyEdges|)
    requires forall k :: 0 <= k < |kept| ==> mesh.faceAdjacencyConvex[kept[k]]
    requires forall k :: 0 <= k < |kept| ==> mesh.faceAdjacencyAngles[kept[k]] >= 0.0
    requires forall k :: 0 <= k < |kept| ==> Lengths(mesh, kept, x, r, ballLength)[k] >= 0.0
    requires exists j :: 0 <= j < |kept| && mesh.faceAdjacencyAngles[kept[j]] > 0.0
                                        && Lengths(mesh, kept, x, r, ballLength)[j] > 0.0
    ensures MeasureOver(mesh, x, r, ballLength, kept) > 0.0
  {
    var l, a, s := Lengths(mesh, kept, x, r, ballLength),
                   Gather(mesh.faceAdjacencyAngles, kept),
                   Signs(mesh.faceAdjacencyConvex, kept);
    forall k | 0 <= k < |l| ensures l[k] * a[k] * s[k] >= 0.0 {
      assert s[k] == 1.0;
      if l[k] > 0.0 && a[k] > 0.0 {
        PositiveProduct(l[k], a[k]);
      }
    }
    var j :| 0 <= j < |kept| && a[j] > 0.0 && l[j] > 0.0;
    PositiveProduct(l[j], a[j]);
    assert s[j] == 1.0;
    assert l[j] * a[j] * s[j] > 0.0;
    TripleSumPositive(l, a, s);
  }

  /**
   * And a concave one negative: the same with every kept edge concave.
   */
  lemma ConcaveNeighbourhoodIsNegative(mesh: Mesh, x: Point, r: real,
                                       ballLength: (Point, Point, Point, real) -> real, kept: seq<nat>)
    requires mesh.Valid() && IndicesBelow(kept, |mesh.faceAdjacencyEdges|)
    requires forall k :: 0 <= k < |kept| ==> !mesh.faceAdjacencyConvex[kept[k]]
    requires forall k :: 0 <= k < |kept| ==> mesh.faceAdjacencyAngles[kept[k]] >= 0.0
    requires forall k :: 0 <= k < |kept| ==> Lengths(mesh, kept, x, r, ballLength)[k] >= 0.0
    requires exists j :: 0 <= j < |kept| && mesh.faceAdjacencyAngles[kept[j]] > 0.0
                                        && Lengths(mesh, kept, x, r, ballLength)[j] > 0.0
    ensures MeasureOver(mesh, x, r, ballLength, kept) < 0.0
  {
    var flipped := FlipConvexity(mesh);
    assert Lengths(flipped, kept, x, r, ballLength) == Lengths(mesh, kept, x, r, ballLength);
    ConvexNeighbourhoodIsPositive(flipped, x, r, ballLength, kept);
    TripleSumNegatedSigns(Lengths(mesh, kept, x, r, ballLength),
                          Gather(mesh.faceAdjacencyAngles, kept),
                          Signs(mesh.faceAdjacencyConvex, kept),
                          Signs(flipped.faceAdjacencyConvex, kept));
  }

  // ---------------------------------------------------------------------
  // Refinement: the 1-ring filter on vertex indices

  /**
   * The filter the 1-ring restriction describes, on vertex indices: an
   * endpoint of the edge IS one of the neighbours of the query vertex.
   * This is not what the code computes (see `CoordinateIn`); it is kept
   * apart from the model of `crv_measure`.
   */
  predicate TouchesRingByIndex(edges: seq<Edge>, neighbours: seq<nat>, c: nat)
    requires c < |edges|
  {
    edges[c].v0 in neighbours || edges[c].v1 in neighbours
  }

  function KeptByIndex(edges: seq<Edge>, neighbours: seq<nat>, cands: seq<nat>): (kept: seq<nat>)
    requires IndicesBelow(cands, |edges|)
    ensures |kept| <= |cands|
    ensures IndicesBelow(kept, |edges|)
    decreases |cands|
  {
    if cands == [] then []
    else
      var last := cands[|cands| - 1];
      KeptByIndex(edges, neighbours, cands[..|cands| - 1])
        + (if TouchesRingByIndex(edges, neighbours, last) then [last] else [])
  }

  /**
   * No deduplication in the refinement either: a candidate whose edge has an
   * endpoint among the neighbours is kept as often as it occurs, any other
   * never.
   */
  lemma {:induction false} KeptByIndexCounts(edges: seq<Edge>, neighbours: seq<nat>, cands: seq<nat>, c: nat)
    requires IndicesBelow(cands, |edges|) && c < |edges|
    ensures multiset(KeptByIndex(edges, neighbours, cands))[c] ==
      if TouchesRingByIndex(edges, neighbours, c) then multiset(cands)[c] else 0
  {
    if cands != [] {
      var n := |cands| - 1;
      KeptByIndexCounts(edges, neighbours, cands[..n], c);
      assert cands == cands[..n] + [cands[n]];
    }
  }

  /** The index filter keeps an edge if and only if it is a candidate with an endpoint among the neighbours. */
  lemma KeptByIndexMembership(edges: seq<Edge>, neighbours: seq<nat>, cands: seq<nat>, c: nat)
    requires IndicesBelow(cands, |edges|) && c < |edges|
    ensures c in KeptByIndex(edges, neighbours, cands) <==> c in cands && TouchesRingByIndex(edges, neighbours, c)
  {
    KeptByIndexCounts(edges, neighbours, cands, c);
  }

  /** An endpoint that is a neighbour shares all its coordinates with it, so the coordinate test passes. */
  lemma IndexMatchImpliesCoordinateMatch(mesh: Mesh, i: nat, c: nat)
    requires mesh.Valid() && i < |mesh.vertexNeighbors| && c < |mesh.faceAdjacencyEdges|
    requires TouchesRingByIndex(mesh.faceAdjacencyEdges, mesh.vertexNeighbors[i], c)
    ensures TouchesRing(mesh.vertices, mesh.faceAdjacencyEdges, Ring(mesh, i), c)
  {
    var e := mesh.faceAdjacencyEdges[c];
    var ring := Ring(mesh, i);
    var nb := mesh.vertexNeighbors[i];
    if e.v0 in nb {
      var k :| 0 <= k < |nb| && nb[k] == e.v0;
      assert ring[k] == mesh.vertices[e.v0];
    } else {
      var k :| 0 <= k < |nb| && nb[k] == e.v1;
      assert ring[k] == mesh.vertices[e.v1];
    }
  }

  /**
   * The index filter refines the coordinate filter: filtering the edges the
   * code keeps by index gives exactly the edges the index filter keeps from
   * all candidates, so it only ever drops edges the code keeps.
   */
  lemma {:induction false} KeptByIndexRefinesKept(mesh: Mesh, i: nat, cands: seq<nat>)
    requires mesh.Valid() && i < |mesh.vertexNeighbors| && IndicesBelow(cands, |mesh.faceAdjacencyEdges|)
    ensures var edges, nb := mesh.faceAdjacencyEdges, mesh.vertexNeighbors[i];
      KeptByIndex(edges, nb, Kept(mesh.vertices, edges, Ring(mesh, i), cands)) == KeptByIndex(edges, nb, cands)
  {
    if cands != [] {
      var edges, nb, ring := mesh.faceAdjacencyEdges, mesh.vertexNeighbors[i], Ring(mesh, i);
      var n := |cands| - 1;
      var last := cands[n];
      var kept0 := Kept(mesh.vertices, edges, ring, cands[..n]);
      KeptByIndexRefinesKept(mesh, i, cands[..n]);
      KeptByIndexAppend(edges, nb, kept0, if TouchesRing(mesh.vertices, edges, ring, last) then [last] else []);
      if TouchesRingByIndex(edges, nb, last) {
        IndexMatchImpliesCoordinateMatch(mesh, i, last);
      }
    }
  }

  lemma {:induction false} KeptByIndexAppend(edges: seq<Edge>, neighbours: seq<nat>, a: seq<nat>, b: seq<nat>)
    requires IndicesBelow(a, |edges|) && IndicesBelow(b, |edges|)
    ensures KeptByIndex(edges, neighbours, a + b) == KeptByIndex(edges, neighbours, a) + KeptByIndex(edges, neighbours, b)
    decreases |b|
  {
    if b != [] {
      var n := |b| - 1;
      assert (a + b)[..|a + b| - 1] == a + b[..n];
      KeptByIndexAppend(edges, neighbours, a, b[..n]);
    } else {
      assert a + b == a;
    }
  }

  /**
   * A unit cube as trimesh would hold it: vertex `x + 2y + 4z` at
   * `(x, y, z)`, each square face split by a diagonal that avoids vertex 0,
   * the twelve cube edges (dihedral angle pi/2, convex) followed by the six
   * diagonals (angle 0) as shared edges.
   */
  function UnitCube(): (mesh: Mesh)
    ensures mesh.Valid()
    ensures |mesh.faceAdjacencyEdges| == 18 && mesh.faceAdjacencyEdges[7] == Edge(3, 7)
    ensures mesh.vertexNeighbors[0] == [1, 2, 4]
  {
    var halfPi := 1.5707963267948966;
    Mesh([Point(0.0, 0.0, 0.0), Point(1.0, 0.0, 0.0), Point(0.0, 1.0, 0.0), Point(1.0, 1.0, 0.0),
          Point(0.0, 0.0, 1.0), Point(1.0, 0.0, 1.0), Point(0.0, 1.0, 1.0), Point(1.0, 1.0, 1.0)],
         [[1, 2, 4], [0, 2, 3, 4, 5], [0, 1, 3, 4, 6], [1, 2, 5, 6, 7],
          [0, 1, 2, 5, 6], [1, 3, 4, 6, 7], [2, 3, 4, 5, 7], [3, 5, 6]],
         [Edge(0, 1), Edge(0, 2), Edge(0, 4), Edge(1, 3), Edge(1, 5), Edge(2, 3),
          Edge(2, 6), Edge(3, 7), Edge(4, 5), Edge(4, 6), Edge(5, 7), Edge(6, 7),
          Edge(1, 2), Edge(1, 4), Edge(2, 4), Edge(5, 6), Edge(3, 6), Edge(3, 5)],
         seq(12, _ => halfPi) + seq(6, _ => 0.0),
         seq(18, _ => true))
  }

  /**
   * The coordinate test keeps edges outside the 1-ring. At corner 0 of the
   * unit cube the ring is vertices 1, 2 and 4. The vertical edge 7 joins
   * vertices 3 = (1, 1, 0) and 7 = (1, 1, 1), neither of them a neighbour,
   * but vertex 3 has the x and z of vertex 1 = (1, 0, 0). The code keeps the
   * edge; the index filter drops it. The edge's bounding box has x = y = 1,
   * so the spatial index hands it to vertex 0 only for a radius of at least
   * 1; at smaller radii this extra edge never reaches the filter.
   */
  lemma CoordinateFilterKeepsEdgeOutsideRing()
    ensures var cube := UnitCube();
      && Kept(cube.vertices, cube.faceAdjacencyEdges, Ring(cube, 0), [7]) == [7]
      && KeptByIndex(cube.faceAdjacencyEdges, cube.vertexNeighbors[0], [7]) == []
  {
    var cube := UnitCube();
    var ring := Ring(cube, 0);
    assert ring[0] == Point(1.0, 0.0, 0.0);
    assert CoordinateIn(cube.vertices[3], ring);
    assert [7][..0] == [];
  }
}
