/**
 Points and triangles of the height-field mesh. Coordinates are reals: the
 float rounding of the original program is not modelled.
 */
module Geometry {

  /** One mesh vertex `[x, y, z]`. */
  datatype Vertex = Vertex(x: real, y: real, z: real)

  /** The all-zero vertex a freshly allocated mesh record holds. */
  const Origin: Vertex := Vertex(0.0, 0.0, 0.0)

  /** A face: three vertices in their winding order. */
  datatype Triangle = Triangle(v1: Vertex, v2: Vertex, v3: Vertex) {

    /** Vertex number `j` of the face, as `face[j]` indexes it. */
    function Corner(j: nat): (v: Vertex)
      requires j < 3
      ensures v in Vertices()
    {
      if j == 0 then v1 else if j == 1 then v2 else v3
    }

    function Vertices(): set<Vertex> {
      {v1, v2, v3}
    }

    /** The three directed edges walked in winding order. */
    function Edges(): set<(Vertex, Vertex)> {
      {(v1, v2), (v2, v3), (v3, v1)}
    }

    /**
     Twice the signed area of the projection onto the XY plane; positive when
     the vertices run counter-clockwise seen from +Z, so the face normal of
     the winding order points up.
     */
    function SignedArea2(): real {
      (v2.x - v1.x) * (v3.y - v1.y) - (v3.x - v1.x) * (v2.y - v1.y)
    }
  }

  predicate SameXY(a: Vertex, b: Vertex) {
    a.x == b.x && a.y == b.y
  }

  /** A face of positive area has three pairwise distinct XY positions. */
  lemma PositiveAreaDistinctXY(t: Triangle)
    requires t.SignedArea2() > 0.0
    ensures !SameXY(t.v1, t.v2) && !SameXY(t.v2, t.v3) && !SameXY(t.v3, t.v1)
  {
  }
}
