/**
 * The curvature colouring of a GraspNet scene mesh in `embed` of
 * embed_graspnet.py: the bounds built from `crv_bound`, the curvature of
 * every vertex, and the colour of every vertex.
 */
module EmbedGraspnet {
  import opened Wrappers
  import opened Geometry
  import opened Curvature
  import opened Colouring

  /**
   * `crv = crv_measure(mesh, mesh.vertices, rad)` followed by the clamp,
   * the rescale and the colour list with bounds `[-crv_bound, crv_bound]`.
   * The vertex array always has shape `(n, 3)`, so the estimator does not
   * raise; each vertex gets the colour of its own curvature value.
   */
  method VertexColours(mesh: Mesh, crvBound: real, rad: real, tree: Box -> seq<nat>,
                       ballLength: (Point, Point, Point, real) -> real)
    returns (colors: seq<Colour>)
    requires mesh.Valid() && IndexesEdges(tree, |mesh.faceAdjacencyEdges|)
    requires crvBound > 0.0
    ensures |colors| == |mesh.vertices|
    ensures forall k :: 0 <= k < |colors| ==>
      colors[k] == ColourOf(-crvBound, crvBound, MeanCurvatures(mesh, mesh.vertices, rad, tree, ballLength)[k])
  {
    var crvBounds := CrvBounds(crvBound);
    PointArrayRoundTrip(mesh.vertices);
    var result, _ := CrvMeasure(mesh, PointArray(mesh.vertices), rad, tree, ballLength);
    var values := result.value;
    var crv := new real[|values|](k requires 0 <= k < |values| => values[k]);
    colors := Colourize(crv, crvBounds[0], crvBounds[1]);
  }
}
