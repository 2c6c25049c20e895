/** The ProjectionTriangle collaborator, kept opaque: the model records which
    markers back a triangle, the tuning it was built with, and which other
    triangles were offered to its projection group. Pivot, weight and the local
    projection are supplied to the query as functions (see module Fusion). */
module Projection {
  import opened Wrappers
  import opened Geometry

  /** The three settings a three-marker triangle is built with. */
  datatype Tuning = Tuning(maxDissimilarityPercent: real, badTriWeightPenalty: real, minTriAngleSize: real)

  class ProjectionTriangle {
    /** The backing markers, in constructor-argument order. */
    const corners: seq<Marker>
    /** The tuning of a three-marker triangle; absent for the two-marker one. */
    const tuning: Option<Tuning>
    /** The triangles offered through `tryAddToProjGroup`, in call order.
        It stands for the grouping state, whose decisions are not modelled. */
    var offers: seq<ProjectionTriangle>

    /** `new ProjectionTriangle(m1, m2)`: the two-marker triangle. */
    constructor Pair(m1: Marker, m2: Marker)
      ensures corners == [m1, m2] && tuning == None && offers == []
    {
      corners := [m1, m2];
      tuning := None;
      offers := [];
    }

    /** `new ProjectionTriangle(m1, m2, m3, maxDissimilarity, badTriPenalty, minTriAngle)`. */
    constructor Triple(m1: Marker, m2: Marker, m3: Marker, t: Tuning)
      ensures corners == [m1, m2, m3] && tuning == Some(t) && offers == []
    {
      corners := [m1, m2, m3];
      tuning := Some(t);
      offers := [];
    }

    /** `tryAddToProjGroup(other)`: offers `other` to this triangle's group. */
    method TryAddToProjGroup(other: ProjectionTriangle)
      modifies this
      ensures offers == old(offers) + [other]
    {
      offers := offers + [other];
    }
  }
}
