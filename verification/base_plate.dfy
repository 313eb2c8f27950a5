/**
 The base plate: two triangles over the XY bounding rectangle of the lattice
 at the fixed height -5. They follow the vertex pattern of a surface cell, so
 the plate is exactly one lattice cell spanned over the bounding box.
 */
module BasePlate {
  import opened Geometry
  import opened Stats
  import opened Lattice
  import opened HeightField

  /** Height of the plate, an absolute coordinate (mm). */
  const BaseHeight: real := -5.0

  /** The heights of a 2x2 lattice lying flat at the plate height. */
  const BaseHeights: seq<seq<real>> := [[BaseHeight, BaseHeight], [BaseHeight, BaseHeight]]

  /**
   Axes `[X.min(), X.max()]` and `[Y.min(), Y.max()]`: each is a pair of
   entries of its matrix that encloses every entry.
   */
  function BoundingAxes(X: seq<seq<real>>, Y: seq<seq<real>>): (axes: (seq<real>, seq<real>))
    requires HasEntry(X) && HasEntry(Y)
    ensures axes.0 == [MatrixMin(X), MatrixMax(X)] && axes.1 == [MatrixMin(Y), MatrixMax(Y)]
    ensures forall i, j :: 0 <= i < |X| && 0 <= j < |X[i]| ==> axes.0[0] <= X[i][j] <= axes.0[1]
    ensures forall i, j :: 0 <= i < |Y| && 0 <= j < |Y[i]| ==> axes.1[0] <= Y[i][j] <= axes.1[1]
  {
    ([MatrixMin(X), MatrixMax(X)], [MatrixMin(Y), MatrixMax(Y)])
  }

  /** The surface faces of the one-cell lattice over the bounding box, flat at the plate height. */
  function BaseLatticeFaces(X: seq<seq<real>>, Y: seq<seq<real>>): seq<Triangle>
    requires HasEntry(X) && HasEntry(Y)
  {
    var axes := BoundingAxes(X, Y);
    var grid := Meshgrid(axes.0, axes.1);
    assert IsGrid(grid.0, grid.1, BaseHeights);
    SurfaceFaces(grid.0, grid.1, BaseHeights)
  }

  /**
   Builds the plate by appending two faces over the corners
   `(X.min(), Y.min())`, `(X.max(), Y.min())`, `(X.min(), Y.max())`,
   `(X.max(), Y.max())`. The plate is the one-cell lattice over the bounding
   box, every vertex lies at the plate height, and the four corners are
   exactly the vertices used.
   */
  method MakeBasePlate(X: seq<seq<real>>, Y: seq<seq<real>>) returns (baseFaces: seq<Triangle>)
    requires HasEntry(X) && HasEntry(Y)
    ensures baseFaces == BaseLatticeFaces(X, Y)
    ensures |baseFaces| == 2
    ensures forall f, c :: 0 <= f < 2 && 0 <= c < 3 ==> baseFaces[f].Corner(c).z == BaseHeight
    ensures baseFaces[0].Vertices() + baseFaces[1].Vertices() ==
            {Vertex(MatrixMin(X), MatrixMin(Y), BaseHeight), Vertex(MatrixMax(X), MatrixMin(Y), BaseHeight),
             Vertex(MatrixMin(X), MatrixMax(Y), BaseHeight), Vertex(MatrixMax(X), MatrixMax(Y), BaseHeight)}
  {
    baseFaces := [];
    var v1 := Vertex(MatrixMin(X), MatrixMin(Y), BaseHeight);
    var v2 := Vertex(MatrixMax(X), MatrixMin(Y), BaseHeight);
    var v3 := Vertex(MatrixMin(X), MatrixMax(Y), BaseHeight);
    var v4 := Vertex(MatrixMax(X), MatrixMax(Y), BaseHeight);
    baseFaces := baseFaces + [Triangle(v1, v2, v3)];
    baseFaces := baseFaces + [Triangle(v2, v4, v3)];
    BaseIsOneCell(X, Y);
  }

  /** The one-cell lattice over the bounding box, face by face. */
  lemma BaseIsOneCell(X: seq<seq<real>>, Y: seq<seq<real>>)
    requires HasEntry(X) && HasEntry(Y)
    ensures BaseLatticeFaces(X, Y) ==
            [Triangle(Vertex(MatrixMin(X), MatrixMin(Y), BaseHeight), Vertex(MatrixMax(X), MatrixMin(Y), BaseHeight),
                      Vertex(MatrixMin(X), MatrixMax(Y), BaseHeight)),
             Triangle(Vertex(MatrixMax(X), MatrixMin(Y), BaseHeight), Vertex(MatrixMax(X), MatrixMax(Y), BaseHeight),
                      Vertex(MatrixMin(X), MatrixMax(Y), BaseHeight))]
  {
    var axes := BoundingAxes(X, Y);
    var grid := Meshgrid(axes.0, axes.1);
    var (BX, BY) := grid;
    assert IsGrid(BX, BY, BaseHeights) && CellRows(BaseHeights) == 1 && CellCols(BaseHeights) == 1;
    assert GridFaces(BX, BY, BaseHeights, 1, 1) == RowFaces(BX, BY, BaseHeights, 0, 1);
    assert RowFaces(BX, BY, BaseHeights, 0, 1) == [Lower(BX, BY, BaseHeights, 0, 0), Upper(BX, BY, BaseHeights, 0, 0)];
  }

  /** Every vertex of the plate lies at the plate height. */
  lemma BasePlateFlat(X: seq<seq<real>>, Y: seq<seq<real>>)
    requires HasEntry(X) && HasEntry(Y)
    ensures |BaseLatticeFaces(X, Y)| == 2
    ensures forall f, c :: 0 <= f < 2 && 0 <= c < 3 ==> BaseLatticeFaces(X, Y)[f].Corner(c).z == BaseHeight
  {
    BaseIsOneCell(X, Y);
  }

  /**
   Over a bounding box of positive width and depth both plate triangles run
   counter-clockwise seen from +Z, like the surface faces: the plate's
   winding is not reversed.
   */
  lemma BaseCounterClockwise(X: seq<seq<real>>, Y: seq<seq<real>>)
    requires HasEntry(X) && HasEntry(Y)
    requires MatrixMin(X) < MatrixMax(X) && MatrixMin(Y) < MatrixMax(Y)
    ensures forall t :: t in BaseLatticeFaces(X, Y) ==> t.SignedArea2() > 0.0
  {
    var axes := BoundingAxes(X, Y);
    assert StrictlyIncreasing(axes.0) && StrictlyIncreasing(axes.1);
    SurfaceCounterClockwise(axes.0, axes.1, BaseHeights);
  }

  /**
   When no height is negative (the mapped heights start at 0 and cells
   outside the data are filled with 0), the plate lies strictly below every
   vertex of the surface.
   */
  lemma BaseBelowSurface(X: seq<seq<real>>, Y: seq<seq<real>>, Z: seq<seq<real>>)
    requires IsGrid(X, Y, Z)
    requires forall a, b :: 0 <= a < |Z| && 0 <= b < Cols(Z) ==> Z[a][b] >= 0.0
    ensures forall f, c :: 0 <= f < |SurfaceFaces(X, Y, Z)| && 0 <= c < 3 ==>
              BaseHeight < SurfaceFaces(X, Y, Z)[f].Corner(c).z
  {
    var s := SurfaceFaces(X, Y, Z);
    SurfaceVerticesOnLattice(X, Y, Z);
    forall f, c | 0 <= f < |s| && 0 <= c < 3 ensures BaseHeight < s[f].Corner(c).z {
      assert OnLattice(X, Y, Z, s[f].Corner(c));
      var a, b :| 0 <= a < |Z| && 0 <= b < Cols(Z) && s[f].Corner(c) == P(X, Y, Z, a, b);
    }
  }
}
