/**
 The mesh script end to end: map the sample table to scaled coordinates,
 lay a 100 x 100 lattice over the scaled XY extent, triangulate the height
 field, add the base plate, copy both face lists into mesh records and
 concatenate them, surface first.

 The heights `Z` on the lattice come from scattered-data interpolation in a
 library; here they are a parameter of the lattice's shape.
 */
module MakeMesh {
  import opened Geometry
  import opened Stats
  import opened Coordinates
  import opened Lattice
  import opened HeightField
  import opened BasePlate
  import opened StlMesh

  /**
   Why no mesh is built: the table is empty (no column has a minimum), or the
   linear interpolation has no triangulation of the scaled sample points
   (every three of them lie on one line).
   */
  datatype MeshError = EmptyTable | FlatSamples

  datatype Result<T> = Success(value: T) | Failure(error: MeshError)

  /** Number of surface faces on the 100 x 100 lattice. */
  const SurfaceFaceCount: nat := 2 * ((LatticeSize - 1) * (LatticeSize - 1))

  /** The two lattice axes, `numpy.linspace(min, max, 100)` of the scaled `x` and `y` columns. */
  function TableAxes(table: seq<Sample>): (axes: (seq<real>, seq<real>))
    requires |table| > 0
  {
    var scaled := MapCoordinates(table);
    (Linspace(SeqMin(scaled.x), SeqMax(scaled.x), LatticeSize),
     Linspace(SeqMin(scaled.y), SeqMax(scaled.y), LatticeSize))
  }

  /**
   Each axis has 100 non-decreasing values from 0 to the largest scaled
   coordinate, and rises strictly exactly when the table's column takes two
   different values.
   */
  lemma TableAxesBounds(table: seq<Sample>)
    requires |table| > 0
    ensures |TableAxes(table).0| == LatticeSize && |TableAxes(table).1| == LatticeSize
    ensures TableAxes(table).0[0] == 0.0 && TableAxes(table).0[LatticeSize - 1] == SeqMax(MapCoordinates(table).x)
    ensures TableAxes(table).1[0] == 0.0 && TableAxes(table).1[LatticeSize - 1] == SeqMax(MapCoordinates(table).y)
    ensures NonDecreasing(TableAxes(table).0) && NonDecreasing(TableAxes(table).1)
    ensures Varies(TColumn(table)) <==> StrictlyIncreasing(TableAxes(table).0)
    ensures Varies(LogVColumn(table)) <==> StrictlyIncreasing(TableAxes(table).1)
  {
    var scaled := MapCoordinates(table);
    MapColumnVaries(TColumn(table), TScale);
    MapColumnVaries(LogVColumn(table), VScale);
    LinspaceIncreasing(SeqMin(scaled.x), SeqMax(scaled.x), LatticeSize);
    LinspaceIncreasing(SeqMin(scaled.y), SeqMax(scaled.y), LatticeSize);
    var (xs, ys) := TableAxes(table);
    if StrictlyIncreasing(xs) {
      assert xs[0] < xs[LatticeSize - 1];
    }
    if StrictlyIncreasing(ys) {
      assert ys[0] < ys[LatticeSize - 1];
    }
  }

  /** The combined mesh on a lattice: surface faces, then the plate faces. */
  function Combined(X: seq<seq<real>>, Y: seq<seq<real>>, Z: seq<seq<real>>): seq<Triangle>
    requires IsGrid(X, Y, Z) && HasEntry(X) && HasEntry(Y)
  {
    SurfaceFaces(X, Y, Z) + BaseLatticeFaces(X, Y)
  }

  /** The XY positions of scaled samples `a`, `b`, `c` as a face at height 0. */
  function SampleTriangle(s: Scaled, a: nat, b: nat, c: nat): Triangle
    requires a < |s.x| && b < |s.x| && c < |s.x| && |s.y| == |s.x|
  {
    Triangle(Vertex(s.x[a], s.y[a], 0.0), Vertex(s.x[b], s.y[b], 0.0), Vertex(s.x[c], s.y[c], 0.0))
  }

  /**
   The scaled `(x, y)` points of the table admit a Delaunay triangulation,
   which the linear interpolation needs: some three of them span a triangle
   of non-zero area.
   */
  predicate Triangulable(table: seq<Sample>) {
    |table| > 0 &&
    var s := MapCoordinates(table);
    exists a, b, c :: 0 <= a < |table| && 0 <= b < |table| && 0 <= c < |table| &&
      SampleTriangle(s, a, b, c).SignedArea2() != 0.0
  }

  /** Samples of equal temperature get the same scaled `x`, samples of equal volume the same `y`. */
  lemma EqualColumnsMapEqual(table: seq<Sample>, a: nat, b: nat)
    requires a < |table| && b < |table|
    ensures table[a].t == table[b].t ==> MapCoordinates(table).x[a] == MapCoordinates(table).x[b]
    ensures table[a].logV == table[b].logV ==> MapCoordinates(table).y[a] == MapCoordinates(table).y[b]
  {
    var s := MapCoordinates(table);
    assert s.x[a] - s.x[b] == (table[a].t - table[b].t) * TScale;
    assert s.y[a] - s.y[b] == (table[a].logV - table[b].logV) * VScale;
  }

  /** Three points sharing their `x`, or sharing their `y`, span no area. */
  lemma AlignedSamplesFlat(s: Scaled, a: nat, b: nat, c: nat)
    requires a < |s.x| && b < |s.x| && c < |s.x| && |s.y| == |s.x|
    requires (s.x[a] == s.x[b] && s.x[a] == s.x[c]) || (s.y[a] == s.y[b] && s.y[a] == s.y[c])
    ensures SampleTriangle(s, a, b, c).SignedArea2() == 0.0
  {
  }

  /**
   A table whose temperatures, or whose volumes, are all equal has its
   scaled points on one line, so no triangulation.
   */
  lemma TriangulableVaries(table: seq<Sample>)
    ensures Triangulable(table) ==> Varies(TColumn(table)) && Varies(LogVColumn(table))
  {
    if Triangulable(table) {
      var s := MapCoordinates(table);
      var a, b, c :| 0 <= a < |table| && 0 <= b < |table| && 0 <= c < |table| &&
        SampleTriangle(s, a, b, c).SignedArea2() != 0.0;
      EqualColumnsMapEqual(table, a, b);
      EqualColumnsMapEqual(table, a, c);
      if !Varies(TColumn(table)) {
        var col := TColumn(table);
        assert !(col[a] < col[b]) && !(col[b] < col[a]) && !(col[a] < col[c]) && !(col[c] < col[a]);
        AlignedSamplesFlat(s, a, b, c);
      } else if !Varies(LogVColumn(table)) {
        var col := LogVColumn(table);
        assert !(col[a] < col[b]) && !(col[b] < col[a]) && !(col[a] < col[c]) && !(col[c] < col[a]);
        AlignedSamplesFlat(s, a, b, c);
      }
    }
  }

  /** A table of one sample has no triangulation: its three points coincide. */
  lemma SingleSampleFlat(sample: Sample)
    ensures !Triangulable([sample])
  {
    AlignedSamplesFlat(MapCoordinates([sample]), 0, 0, 0);
  }

  /**
   On the 100 x 100 lattice the combined mesh has `2 * 99 * 99 + 2` faces:
   the surface faces first, then the two plate faces.
   */
  lemma CombinedLayout(X: seq<seq<real>>, Y: seq<seq<real>>, Z: seq<seq<real>>)
    requires IsMatrix(X, LatticeSize, LatticeSize) && IsMatrix(Y, LatticeSize, LatticeSize)
    requires IsMatrix(Z, LatticeSize, LatticeSize)
    ensures IsGrid(X, Y, Z) && HasEntry(X) && HasEntry(Y)
    ensures |Combined(X, Y, Z)| == SurfaceFaceCount + 2
    ensures Combined(X, Y, Z)[..SurfaceFaceCount] == SurfaceFaces(X, Y, Z)
    ensures Combined(X, Y, Z)[SurfaceFaceCount..] == BaseLatticeFaces(X, Y)
  {
    assert |X[0]| > 0 && |Y[0]| > 0;
    SurfaceCount(X, Y, Z);
    BaseIsOneCell(X, Y);
  }

  /** Every vertex of the two plate faces of the combined mesh lies at the plate height. */
  lemma CombinedBaseHeight(X: seq<seq<real>>, Y: seq<seq<real>>, Z: seq<seq<real>>)
    requires IsMatrix(X, LatticeSize, LatticeSize) && IsMatrix(Y, LatticeSize, LatticeSize)
    requires IsMatrix(Z, LatticeSize, LatticeSize)
    ensures IsGrid(X, Y, Z) && HasEntry(X) && HasEntry(Y)
    ensures forall f, c :: SurfaceFaceCount <= f < |Combined(X, Y, Z)| && 0 <= c < 3 ==>
              Combined(X, Y, Z)[f].Corner(c).z == BaseHeight
  {
    CombinedLayout(X, Y, Z);
    var all, plate := Combined(X, Y, Z), BaseLatticeFaces(X, Y);
    BasePlateFlat(X, Y);
    forall f, c | SurfaceFaceCount <= f < |all| && 0 <= c < 3 ensures all[f].Corner(c).z == BaseHeight {
      assert all[f] == plate[f - SurfaceFaceCount];
    }
  }

  /** With no negative height, the plate lies below every surface vertex. */
  lemma CombinedBaseBelow(X: seq<seq<real>>, Y: seq<seq<real>>, Z: seq<seq<real>>)
    requires IsMatrix(X, LatticeSize, LatticeSize) && IsMatrix(Y, LatticeSize, LatticeSize)
    requires IsMatrix(Z, LatticeSize, LatticeSize)
    requires forall a, b :: 0 <= a < LatticeSize && 0 <= b < LatticeSize ==> Z[a][b] >= 0.0
    ensures IsGrid(X, Y, Z) && HasEntry(X) && HasEntry(Y)
    ensures |Combined(X, Y, Z)| == SurfaceFaceCount + 2
    ensures forall f, c :: 0 <= f < SurfaceFaceCount && 0 <= c < 3 ==> BaseHeight < Combined(X, Y, Z)[f].Corner(c).z
  {
    CombinedLayout(X, Y, Z);
    BaseBelowSurface(X, Y, Z);
    var all := Combined(X, Y, Z);
    forall f, c | 0 <= f < SurfaceFaceCount && 0 <= c < 3 ensures BaseHeight < all[f].Corner(c).z {
      assert all[f] == SurfaceFaces(X, Y, Z)[f];
    }
  }

  /** Over strictly increasing axes of two or more values the plate faces run counter-clockwise. */
  lemma PlateCounterClockwise(xs: seq<real>, ys: seq<real>)
    requires |xs| > 1 && |ys| > 1 && StrictlyIncreasing(xs) && StrictlyIncreasing(ys)
    ensures HasEntry(Meshgrid(xs, ys).0) && HasEntry(Meshgrid(xs, ys).1)
    ensures forall t :: t in BaseLatticeFaces(Meshgrid(xs, ys).0, Meshgrid(xs, ys).1) ==> t.SignedArea2() > 0.0
  {
    var (X, Y) := Meshgrid(xs, ys);
    MeshgridBounds(xs, ys);
    assert xs[0] < xs[|xs| - 1] && ys[0] < ys[|ys| - 1];
    BaseCounterClockwise(X, Y);
  }

  /**
   On a lattice of strictly increasing axes of two or more values every face
   of the combined mesh, the two plate faces included, runs counter-clockwise
   seen from +Z.
   */
  lemma CombinedCounterClockwise(xs: seq<real>, ys: seq<real>, Z: seq<seq<real>>)
    requires |xs| > 1 && |ys| > 1 && StrictlyIncreasing(xs) && StrictlyIncreasing(ys)
    requires IsMatrix(Z, |ys|, |xs|)
    ensures IsGrid(Meshgrid(xs, ys).0, Meshgrid(xs, ys).1, Z)
    ensures HasEntry(Meshgrid(xs, ys).0) && HasEntry(Meshgrid(xs, ys).1)
    ensures forall t :: t in Combined(Meshgrid(xs, ys).0, Meshgrid(xs, ys).1, Z) ==> t.SignedArea2() > 0.0
  {
    var (X, Y) := Meshgrid(xs, ys);
    SurfaceCounterClockwise(xs, ys, Z);
    PlateCounterClockwise(xs, ys);
    var surface, plate := SurfaceFaces(X, Y, Z), BaseLatticeFaces(X, Y);
    assert Combined(X, Y, Z) == surface + plate;
    forall t: Triangle | t in surface + plate ensures t.SignedArea2() > 0.0 {
      if t in surface {
      } else {
        assert t in plate;
      }
    }
  }

  /**
   When the table's temperatures and volumes both take two different values,
   every face of the mesh built from it runs counter-clockwise seen from +Z.
   */
  lemma TableCounterClockwise(table: seq<Sample>, Z: seq<seq<real>>)
    requires |table| > 0 && Varies(TColumn(table)) && Varies(LogVColumn(table))
    requires IsMatrix(Z, LatticeSize, LatticeSize)
    ensures IsGrid(Meshgrid(TableAxes(table).0, TableAxes(table).1).0, Meshgrid(TableAxes(table).0, TableAxes(table).1).1, Z)
    ensures HasEntry(Meshgrid(TableAxes(table).0, TableAxes(table).1).0)
    ensures HasEntry(Meshgrid(TableAxes(table).0, TableAxes(table).1).1)
    ensures forall t :: t in Combined(Meshgrid(TableAxes(table).0, TableAxes(table).1).0,
                                      Meshgrid(TableAxes(table).0, TableAxes(table).1).1, Z) ==>
              t.SignedArea2() > 0.0
  {
    TableAxesBounds(table);
    CombinedCounterClockwise(TableAxes(table).0, TableAxes(table).1, Z);
  }

  /**
   The plate of the mesh built from a table spans the scaled extent: its
   corners are `(0, 0)`, `(xmax, 0)`, `(0, ymax)` and `(xmax, ymax)` at the
   plate height, where `xmax` and `ymax` are the largest scaled temperature
   and `log10(v)`.
   */
  lemma TablePlateCorners(table: seq<Sample>)
    requires |table| > 0
    ensures HasEntry(Meshgrid(TableAxes(table).0, TableAxes(table).1).0)
    ensures HasEntry(Meshgrid(TableAxes(table).0, TableAxes(table).1).1)
    ensures var plate := BaseLatticeFaces(Meshgrid(TableAxes(table).0, TableAxes(table).1).0,
                                          Meshgrid(TableAxes(table).0, TableAxes(table).1).1);
            var xmax, ymax := SeqMax(MapCoordinates(table).x), SeqMax(MapCoordinates(table).y);
            plate == [Triangle(Vertex(0.0, 0.0, BaseHeight), Vertex(xmax, 0.0, BaseHeight), Vertex(0.0, ymax, BaseHeight)),
                      Triangle(Vertex(xmax, 0.0, BaseHeight), Vertex(xmax, ymax, BaseHeight), Vertex(0.0, ymax, BaseHeight))]
  {
    TableAxesBounds(table);
    var (xs, ys) := TableAxes(table);
    MeshgridBounds(xs, ys);
    BaseIsOneCell(Meshgrid(xs, ys).0, Meshgrid(xs, ys).1);
  }

  /**
   Runs the whole script on a sample table. An empty table, or one whose
   scaled points all lie on one line, yields no mesh: the interpolation has
   no triangulation to work on. Otherwise the result is the combined mesh on
   the lattice of the table's axes (the surface faces copied out of their
   mesh records, then the plate faces copied out of theirs), and every face
   of it runs counter-clockwise seen from +Z.
   */
  method MakeMesh(table: seq<Sample>, Z: seq<seq<real>>) returns (r: Result<seq<Triangle>>)
    requires IsMatrix(Z, LatticeSize, LatticeSize)
    ensures r == Failure(EmptyTable) <==> |table| == 0
    ensures r == Failure(FlatSamples) <==> |table| > 0 && !Triangulable(table)
    ensures r.Success? <==> Triangulable(table)
    ensures r.Success? ==>
              var (X, Y) := Meshgrid(TableAxes(table).0, TableAxes(table).1);
              IsGrid(X, Y, Z) && HasEntry(X) && HasEntry(Y) && r.value == Combined(X, Y, Z)
    ensures r.Success? ==> forall t :: t in r.value ==> t.SignedArea2() > 0.0
  {
    if |table| == 0 {
      return Failure(EmptyTable);
    }
    if !Triangulable(table) {
      return Failure(FlatSamples);
    }
    var axes := TableAxes(table);
    var X, Y := Meshgrid(axes.0, axes.1).0, Meshgrid(axes.0, axes.1).1;
    TableAxesBounds(table);
    CombinedLayout(X, Y, Z);
    TriangulableVaries(table);
    TableCounterClockwise(table, Z);

    var faces := CreateHeightFieldMesh(X, Y, Z);
    var surfaceMesh := new Mesh.Zeros(|faces|);
    surfaceMesh.CopyFaces(faces);
    var surface := surfaceMesh.Faces();

    var baseFaces := MakeBasePlate(X, Y);
    var baseMesh := new Mesh.Zeros(|baseFaces|);
    baseMesh.CopyFaces(baseFaces);
    var plate := baseMesh.Faces();

    assert surface == faces;
    r := Success(surface + plate);
  }
}
