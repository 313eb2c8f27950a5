/**
 The mesh object the faces are copied into: a table of face records whose
 `vectors[i][j]` is corner `j` of face `i`. Normals and the file layout
 belong to the mesh library and are not modelled.
 */
module StlMesh {
  import opened Geometry

  class Mesh {
    /** `vectors[i, j]`: corner `j` of face record `i`. */
    var vectors: array2<Vertex>

    ghost predicate Valid()
      reads this
    {
      vectors.Length1 == 3
    }

    /** The faces the records hold, in record order. */
    function Faces(): (faces: seq<Triangle>)
      reads this, vectors
      requires Valid()
      ensures |faces| == vectors.Length0
      ensures forall i, j :: 0 <= i < |faces| && 0 <= j < 3 ==> faces[i].Corner(j) == vectors[i, j]
    {
      seq(vectors.Length0, i reads this, vectors requires 0 <= i < vectors.Length0 && vectors.Length1 == 3 =>
        Triangle(vectors[i, 0], vectors[i, 1], vectors[i, 2]))
    }

    /** A mesh of `count` zero-filled face records. */
    constructor Zeros(count: nat)
      ensures Valid() && fresh(vectors)
      ensures vectors.Length0 == count
      ensures forall i, j :: 0 <= i < count && 0 <= j < 3 ==> vectors[i, j] == Origin
    {
      vectors := new Vertex[count, 3]((i, j) => Origin);
    }

    /**
     Overwrites record `i`, corner by corner, with face `i`: every corner of
     every record is set and the mesh then holds exactly `faces`, in order.
     */
    method CopyFaces(faces: seq<Triangle>)
      requires Valid() && vectors.Length0 == |faces|
      modifies vectors
      ensures Valid()
      ensures forall i, j :: 0 <= i < |faces| && 0 <= j < 3 ==> vectors[i, j] == faces[i].Corner(j)
      ensures Faces() == faces
    {
      var i := 0;
      while i < |faces|
        invariant 0 <= i <= |faces|
        invariant forall a, b :: 0 <= a < i && 0 <= b < 3 ==> vectors[a, b] == faces[a].Corner(b)
      {
        var f := faces[i];
        var j := 0;
        while j < 3
          invariant 0 <= j <= 3
          invariant forall a, b :: 0 <= a < i && 0 <= b < 3 ==> vectors[a, b] == faces[a].Corner(b)
          invariant forall b :: 0 <= b < j ==> vectors[i, b] == f.Corner(b)
        {
          vectors[i, j] := f.Corner(j);
          j := j + 1;
        }
        i := i + 1;
      }
      assert forall k :: 0 <= k < |faces| ==> Faces()[k] == faces[k] by {
        forall k | 0 <= k < |faces| ensures Faces()[k] == faces[k] {
          assert Faces()[k].Corner(0) == faces[k].Corner(0);
          assert Faces()[k].Corner(1) == faces[k].Corner(1);
          assert Faces()[k].Corner(2) == faces[k].Corner(2);
        }
      }
    }
  }
}
