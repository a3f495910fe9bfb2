/**
 * The curvature colouring of an ACRONYM scene mesh in `embed` of
 * embed_acronym.py, with the bounds list built once by `manager` and passed
 * to every scene.
 */
module EmbedAcronym {
  import opened Wrappers
  import opened Geometry
  import opened Curvature
  import opened Colouring

  /**
   * The bounds list `manager` builds from `crv_bound` is one `embed` accepts,
   * and it is symmetric, so both channels saturate at the same magnitude.
   */
  lemma ManagerBoundsAccepted(crvBound: real, v: real)
    requires crvBound > 0.0
    ensures var bounds := CrvBounds(crvBound);
      && |bounds| == 2 && ValidBounds(bounds[0], bounds[1])
      && (v >= crvBound ==> ColourOf(bounds[0], bounds[1], v).red == 1.0)
      && (v <= -crvBound ==> ColourOf(bounds[0], bounds[1], v).green == 1.0)
  {
  }

  /**
   * `crv = crv_measure(mesh, mesh.vertices, rad)` followed by the clamp to
   * `crv_bounds`, the rescale and the colour list: each vertex gets the
   * colour of its own curvature value.
   */
  method VertexColours(mesh: Mesh, crvBounds: seq<real>, rad: real, tree: Box -> seq<nat>,
                       ballLength: (Point, Point, Point, real) -> real)
    returns (colors: seq<Colour>)
    requires mesh.Valid() && IndexesEdges(tree, |mesh.faceAdjacencyEdges|)
    requires |crvBounds| == 2 && ValidBounds(crvBounds[0], crvBounds[1])
    ensures |colors| == |mesh.vertices|
    ensures forall k :: 0 <= k < |colors| ==>
      colors[k] == ColourOf(crvBounds[0], crvBounds[1], MeanCurvatures(mesh, mesh.vertices, rad, tree, ballLength)[k])
  {
    PointArrayRoundTrip(mesh.vertices);
    var result, _ := CrvMeasure(mesh, PointArray(mesh.vertices), rad, tree, ballLength);
    var values := result.value;
    var crv := new real[|values|](k requires 0 <= k < |values| => values[k]);
    colors := Colourize(crv, crvBounds[0], crvBounds[1]);
  }
}
