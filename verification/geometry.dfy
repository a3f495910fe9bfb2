/**
 * Coordinates, axis-aligned query boxes and the array of query points handed
 * to the curvature estimator.
 */
module Geometry {
  import opened Wrappers

  datatype Point = Point(x: real, y: real, z: real)

  /** An axis-aligned box; one row `[minx, miny, minz, maxx, maxy, maxz]` of the bounds array. */
  datatype Box = Box(lo: Point, hi: Point)

  function Abs(a: real): real { if a < 0.0 then -a else a }

  predicate InBox(p: Point, b: Box) {
    && b.lo.x <= p.x <= b.hi.x
    && b.lo.y <= p.y <= b.hi.y
    && b.lo.z <= p.z <= b.hi.z
  }

  function SquaredDistance(p: Point, q: Point): real {
    (p.x - q.x) * (p.x - q.x) + (p.y - q.y) * (p.y - q.y) + (p.z - q.z) * (p.z - q.z)
  }

  /**
   * The box `[x - r, x + r]` built for a query point `x`: it holds exactly the
   * points that lie within `r` of `x` on every axis.
   */
  function QueryBox(x: Point, r: real): (b: Box)
    ensures forall p :: InBox(p, b) <==>
      Abs(p.x - x.x) <= r && Abs(p.y - x.y) <= r && Abs(p.z - x.z) <= r
  {
    Box(Point(x.x - r, x.y - r, x.z - r), Point(x.x + r, x.y + r, x.z + r))
  }

  /** One query box per point, in point order. */
  function QueryBoxes(points: seq<Point>, r: real): (boxes: seq<Box>)
    ensures |boxes| == |points|
    ensures forall k :: 0 <= k < |points| ==>
      forall p :: InBox(p, boxes[k]) <==>
        Abs(p.x - points[k].x) <= r && Abs(p.y - points[k].y) <= r && Abs(p.z - points[k].z) <= r
  {
    seq(|points|, k requires 0 <= k < |points| => QueryBox(points[k], r))
  }

  lemma PositiveProduct(u: real, v: real)
    requires 0.0 < u && 0.0 < v
    ensures 0.0 < u * v
  {
  }

  lemma SquareBound(a: real, r: real)
    requires 0.0 <= r && a * a <= r * r
    ensures Abs(a) <= r
  {
    var t := Abs(a);
    assert t * t == a * a;
    if t > r {
      PositiveProduct(t - r, t + r);
      assert false;
    }
  }

  /**
   * The box test is conservative: every point of the closed ball of radius
   * `r` around `x` lies in the query box of `x`.
   */
  lemma BallInsideQueryBox(x: Point, r: real, p: Point)
    requires 0.0 <= r && SquaredDistance(p, x) <= r * r
    ensures InBox(p, QueryBox(x, r))
  {
    var dx, dy, dz := p.x - x.x, p.y - x.y, p.z - x.z;
    assert 0.0 <= dx * dx && 0.0 <= dy * dy && 0.0 <= dz * dz;
    SquareBound(dx, r);
    SquareBound(dy, r);
    SquareBound(dz, r);
  }

  /** A larger radius never shrinks the query box. */
  lemma QueryBoxGrows(x: Point, r1: real, r2: real, p: Point)
    requires r1 <= r2 && InBox(p, QueryBox(x, r1))
    ensures InBox(p, QueryBox(x, r2))
  {
  }

  /**
   * An n-dimensional array of floats: its shape and its elements in
   * row-major order.
   */
  datatype NdArray = NdArray(shape: seq<nat>, data: seq<real>)

  function Size(shape: seq<nat>): nat {
    if shape == [] then 1 else shape[0] * Size(shape[1..])
  }

  predicate WellFormed(a: NdArray) {
    |a.data| == Size(a.shape)
  }

  /** The array is shaped `(n, 3)`. */
  predicate IsPointArray(a: NdArray) {
    |a.shape| == 2 && a.shape[1] == 3
  }

  /** The row-major elements of a sequence of points. */
  function Flatten(points: seq<Point>): (data: seq<real>)
    ensures |data| == 3 * |points|
  {
    if points == [] then [] else [points[0].x, points[0].y, points[0].z] + Flatten(points[1..])
  }

  /** The rows of an `(n, 3)` array, read three coordinates at a time. */
  function Rows(data: seq<real>): (points: seq<Point>)
    requires |data| % 3 == 0
    ensures 3 * |points| == |data|
  {
    if data == [] then [] else [Point(data[0], data[1], data[2])] + Rows(data[3..])
  }

  lemma {:induction false} RowsOfFlatten(points: seq<Point>)
    ensures Rows(Flatten(points)) == points
  {
    if points != [] {
      var data := Flatten(points);
      assert data[3..] == Flatten(points[1..]);
      RowsOfFlatten(points[1..]);
    }
  }

  lemma {:induction false} FlattenOfRows(data: seq<real>)
    requires |data| % 3 == 0
    ensures Flatten(Rows(data)) == data
  {
    if data != [] {
      var points := Rows(data);
      assert points[1..] == Rows(data[3..]);
      FlattenOfRows(data[3..]);
    }
  }

  /** The `(n, 3)` array holding a sequence of points, e.g. a mesh's vertices. */
  function PointArray(points: seq<Point>): (a: NdArray)
    ensures WellFormed(a) && IsPointArray(a)
  {
    assert Size([3]) == 3 by { assert [3][1..] == []; }
    assert [|points|, 3][1..] == [3];
    NdArray([|points|, 3], Flatten(points))
  }

  const ShapeMessage := "points must be (n,3)!"

  /**
   * The shape check that opens the estimator: anything not shaped `(n, 3)` is
   * rejected with a ValueError, and an accepted array yields its `n` rows.
   */
  function AsPoints(a: NdArray): (r: Result<seq<Point>, Error>)
    requires WellFormed(a)
    ensures r.Failure? <==> !IsPointArray(a)
    ensures r.Failure? ==> r.error == ValueError(ShapeMessage)
    ensures r.Success? ==> |r.value| == a.shape[0] && Flatten(r.value) == a.data
  {
    if !IsPointArray(a) then Failure(ValueError(ShapeMessage))
    else
      assert Size(a.shape) == a.shape[0] * 3 by {
        assert a.shape[1..] == [3] && Size([3]) == 3;
      }
      FlattenOfRows(a.data);
      Success(Rows(a.data))
  }

  /** The points of a point array are read back unchanged. */
  lemma PointArrayRoundTrip(points: seq<Point>)
    ensures AsPoints(PointArray(points)) == Success(points)
  {
    RowsOfFlatten(points);
  }
}
