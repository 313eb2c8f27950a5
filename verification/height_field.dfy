/**
 `create_height_field_mesh`: the height field given by the lattice matrices
 X, Y and the height matrix Z becomes a list of triangles, two per lattice
 cell, appended row by row.
 */
module HeightField {
  import opened Geometry
  import opened Lattice

  /** Number of columns of a matrix (`Z.shape[1]`). */
  function Cols(m: seq<seq<real>>): nat {
    if |m| == 0 then 0 else |m[0]|
  }

  /** X, Y and Z share the rectangular shape of Z. */
  predicate IsGrid(X: seq<seq<real>>, Y: seq<seq<real>>, Z: seq<seq<real>>) {
    IsMatrix(Z, |Z|, Cols(Z)) && IsMatrix(X, |Z|, Cols(Z)) && IsMatrix(Y, |Z|, Cols(Z))
  }

  /** Rows of cells: `range(rows - 1)` is empty when there are no rows. */
  function CellRows(Z: seq<seq<real>>): nat {
    if |Z| > 0 then |Z| - 1 else 0
  }

  /** Columns of cells: `range(cols - 1)`. */
  function CellCols(Z: seq<seq<real>>): nat {
    if Cols(Z) > 0 then Cols(Z) - 1 else 0
  }

  /** Lattice point `(a, b)`: `[X[a, b], Y[a, b], Z[a, b]]`. */
  function P(X: seq<seq<real>>, Y: seq<seq<real>>, Z: seq<seq<real>>, a: nat, b: nat): Vertex
    requires IsGrid(X, Y, Z) && a < |Z| && b < Cols(Z)
  {
    Vertex(X[a][b], Y[a][b], Z[a][b])
  }

  /** First triangle of cell `(i, j)`: corners `(i, j)`, `(i, j+1)`, `(i+1, j)`. */
  function Lower(X: seq<seq<real>>, Y: seq<seq<real>>, Z: seq<seq<real>>, i: nat, j: nat): Triangle
    requires IsGrid(X, Y, Z) && i < CellRows(Z) && j < CellCols(Z)
  {
    Triangle(P(X, Y, Z, i, j), P(X, Y, Z, i, j + 1), P(X, Y, Z, i + 1, j))
  }

  /** Second triangle of cell `(i, j)`: corners `(i, j+1)`, `(i+1, j+1)`, `(i+1, j)`. */
  function Upper(X: seq<seq<real>>, Y: seq<seq<real>>, Z: seq<seq<real>>, i: nat, j: nat): Triangle
    requires IsGrid(X, Y, Z) && i < CellRows(Z) && j < CellCols(Z)
  {
    Triangle(P(X, Y, Z, i, j + 1), P(X, Y, Z, i + 1, j + 1), P(X, Y, Z, i + 1, j))
  }

  /**
   Row-major index of cell `(i, j)` in rows of `w` cells, counted one row at
   a time; `CellIndexIsRowMajor` shows it is `i w + j`.
   */
  function CellIndex(i: nat, j: nat, w: nat): nat {
    if i == 0 then j else CellIndex(i - 1, j, w) + w
  }

  lemma {:induction false} CellIndexIsRowMajor(i: nat, j: nat, w: nat)
    ensures CellIndex(i, j, w) == i * w + j
  {
    if i > 0 {
      CellIndexIsRowMajor(i - 1, j, w);
      assert i * w == (i - 1) * w + w;
    }
  }

  /** Within a row the cells follow the first cell of the row one by one. */
  lemma {:induction false} CellIndexInRow(i: nat, j: nat, w: nat)
    ensures CellIndex(i, j, w) == CellIndex(i, 0, w) + j
  {
    if i > 0 {
      CellIndexInRow(i - 1, j, w);
    }
  }

  /** A cell of the first `m` rows comes before every cell of row `m`. */
  lemma {:induction false} CellIndexBound(i: nat, j: nat, w: nat, m: nat)
    requires i < m && j < w
    ensures CellIndex(i, j, w) < CellIndex(m, 0, w)
  {
    if i < m - 1 {
      CellIndexBound(i, j, w, m - 1);
    } else {
      CellIndexInRow(i, j, w);
    }
  }

  /** The faces of the first `n` cells of cell row `i`, two per cell. */
  function RowFaces(X: seq<seq<real>>, Y: seq<seq<real>>, Z: seq<seq<real>>, i: nat, n: nat): seq<Triangle>
    requires IsGrid(X, Y, Z) && i < CellRows(Z) && n <= CellCols(Z)
  {
    if n == 0 then []
    else RowFaces(X, Y, Z, i, n - 1) + [Lower(X, Y, Z, i, n - 1), Upper(X, Y, Z, i, n - 1)]
  }

  /** The faces of the first `m` cell rows, each row `w` cells wide: two per cell. */
  function GridFaces(X: seq<seq<real>>, Y: seq<seq<real>>, Z: seq<seq<real>>, m: nat, w: nat): seq<Triangle>
    requires IsGrid(X, Y, Z) && m <= CellRows(Z) && w <= CellCols(Z)
  {
    if m == 0 then []
    else GridFaces(X, Y, Z, m - 1, w) + RowFaces(X, Y, Z, m - 1, w)
  }

  /** The whole surface: every cell of the lattice, row by row. */
  function SurfaceFaces(X: seq<seq<real>>, Y: seq<seq<real>>, Z: seq<seq<real>>): seq<Triangle>
    requires IsGrid(X, Y, Z)
  {
    GridFaces(X, Y, Z, CellRows(Z), CellCols(Z))
  }

  /**
   Builds the face list by appending two triangles per cell inside the two
   nested loops. The result is the whole surface, cell row by cell row:
   `SurfaceCount` gives its length and `SurfaceFaceOrder` the position of
   every cell's two triangles.
   */
  method CreateHeightFieldMesh(X: seq<seq<real>>, Y: seq<seq<real>>, Z: seq<seq<real>>)
    returns (faces: seq<Triangle>)
    requires IsGrid(X, Y, Z)
    ensures faces == SurfaceFaces(X, Y, Z)
  {
    var rows: int, cols: int := |Z|, Cols(Z);
    ghost var w := CellCols(Z);
    faces := [];
    var i: int := 0;
    while i < rows - 1
      invariant 0 <= i <= CellRows(Z)
      invariant faces == GridFaces(X, Y, Z, i, w)
    {
      var j: int := 0;
      while j < cols - 1
        invariant 0 <= j <= w
        invariant faces == GridFaces(X, Y, Z, i, w) + RowFaces(X, Y, Z, i, j)
      {
        var v1 := Vertex(X[i][j], Y[i][j], Z[i][j]);
        var v2 := Vertex(X[i][j + 1], Y[i][j + 1], Z[i][j + 1]);
        var v3 := Vertex(X[i + 1][j], Y[i + 1][j], Z[i + 1][j]);
        var v4 := Vertex(X[i + 1][j + 1], Y[i + 1][j + 1], Z[i + 1][j + 1]);
        faces := faces + [Triangle(v1, v2, v3)];
        faces := faces + [Triangle(v2, v4, v3)];
        assert RowFaces(X, Y, Z, i, j + 1) == RowFaces(X, Y, Z, i, j) + [Lower(X, Y, Z, i, j), Upper(X, Y, Z, i, j)];
        j := j + 1;
      }
      assert GridFaces(X, Y, Z, i + 1, w) == GridFaces(X, Y, Z, i, w) + RowFaces(X, Y, Z, i, w);
      i := i + 1;
    }
  }

  /** The first `n` cells of a row hold `2 n` faces. */
  lemma {:induction false} RowFacesLength(X: seq<seq<real>>, Y: seq<seq<real>>, Z: seq<seq<real>>, i: nat, n: nat)
    requires IsGrid(X, Y, Z) && i < CellRows(Z) && n <= CellCols(Z)
    ensures |RowFaces(X, Y, Z, i, n)| == 2 * n
  {
    if n > 0 {
      RowFacesLength(X, Y, Z, i, n - 1);
    }
  }

  /** The first `m` rows of `w` cells hold two faces for each of their `CellIndex(m, 0, w)` cells. */
  lemma {:induction false} GridFacesLength(X: seq<seq<real>>, Y: seq<seq<real>>, Z: seq<seq<real>>, m: nat, w: nat)
    requires IsGrid(X, Y, Z) && m <= CellRows(Z) && w <= CellCols(Z)
    ensures |GridFaces(X, Y, Z, m, w)| == 2 * CellIndex(m, 0, w)
  {
    if m > 0 {
      GridFacesLength(X, Y, Z, m - 1, w);
      RowFacesLength(X, Y, Z, m - 1, w);
    }
  }

  /** Faces `2j` and `2j+1` of a row prefix are the two triangles of cell `j`. */
  lemma {:induction false} RowFacesAt(X: seq<seq<real>>, Y: seq<seq<real>>, Z: seq<seq<real>>, i: nat, n: nat, j: nat)
    requires IsGrid(X, Y, Z) && i < CellRows(Z) && n <= CellCols(Z) && j < n
    ensures 2 * j + 1 < |RowFaces(X, Y, Z, i, n)|
    ensures RowFaces(X, Y, Z, i, n)[2 * j] == Lower(X, Y, Z, i, j)
    ensures RowFaces(X, Y, Z, i, n)[2 * j + 1] == Upper(X, Y, Z, i, j)
  {
    RowFacesLength(X, Y, Z, i, n);
    if j < n - 1 {
      RowFacesAt(X, Y, Z, i, n - 1, j);
    }
  }

  /** Faces `2k`, `2k+1` of the first `m` rows belong to cell `k = CellIndex(i, j, w)`. */
  lemma {:induction false} GridFacesAt(X: seq<seq<real>>, Y: seq<seq<real>>, Z: seq<seq<real>>, m: nat, w: nat, i: nat, j: nat)
    requires IsGrid(X, Y, Z) && m <= CellRows(Z) && w <= CellCols(Z) && i < m && j < w
    ensures 2 * CellIndex(i, j, w) + 1 < |GridFaces(X, Y, Z, m, w)|
    ensures GridFaces(X, Y, Z, m, w)[2 * CellIndex(i, j, w)] == Lower(X, Y, Z, i, j)
    ensures GridFaces(X, Y, Z, m, w)[2 * CellIndex(i, j, w) + 1] == Upper(X, Y, Z, i, j)
  {
    CellIndexBound(i, j, w, m);
    GridFacesLength(X, Y, Z, m, w);
    GridFacesLength(X, Y, Z, m - 1, w);
    var prefix := GridFaces(X, Y, Z, m - 1, w);
    var row := RowFaces(X, Y, Z, m - 1, w);
    assert GridFaces(X, Y, Z, m, w) == prefix + row;
    if i < m - 1 {
      GridFacesAt(X, Y, Z, m - 1, w, i, j);
    } else {
      CellIndexInRow(i, j, w);
      RowFacesAt(X, Y, Z, m - 1, w, j);
    }
  }

  /**
   The surface faces come in row-major cell order: cell `(i, j)` owns faces
   `2k` and `2k+1` with `k = CellIndex(i, j, cols-1) = i (cols-1) + j`.
   */
  lemma SurfaceFaceOrder(X: seq<seq<real>>, Y: seq<seq<real>>, Z: seq<seq<real>>)
    requires IsGrid(X, Y, Z)
    ensures forall i, j :: 0 <= i < CellRows(Z) && 0 <= j < CellCols(Z) ==>
              2 * CellIndex(i, j, CellCols(Z)) + 1 < |SurfaceFaces(X, Y, Z)| &&
              SurfaceFaces(X, Y, Z)[2 * CellIndex(i, j, CellCols(Z))] == Lower(X, Y, Z, i, j) &&
              SurfaceFaces(X, Y, Z)[2 * CellIndex(i, j, CellCols(Z)) + 1] == Upper(X, Y, Z, i, j)
  {
    forall i, j | 0 <= i < CellRows(Z) && 0 <= j < CellCols(Z)
      ensures 2 * CellIndex(i, j, CellCols(Z)) + 1 < |SurfaceFaces(X, Y, Z)|
      ensures SurfaceFaces(X, Y, Z)[2 * CellIndex(i, j, CellCols(Z))] == Lower(X, Y, Z, i, j)
      ensures SurfaceFaces(X, Y, Z)[2 * CellIndex(i, j, CellCols(Z)) + 1] == Upper(X, Y, Z, i, j)
    {
      GridFacesAt(X, Y, Z, CellRows(Z), CellCols(Z), i, j);
    }
  }

  /**
   For `rows, cols >= 1` there are exactly `2 (rows-1) (cols-1)` faces
   whatever the heights; a single row or column of lattice points gives none.
   */
  lemma SurfaceCount(X: seq<seq<real>>, Y: seq<seq<real>>, Z: seq<seq<real>>)
    requires IsGrid(X, Y, Z)
    ensures |Z| >= 1 && Cols(Z) >= 1 ==> |SurfaceFaces(X, Y, Z)| == 2 * ((|Z| - 1) * (Cols(Z) - 1))
    ensures |Z| <= 1 || Cols(Z) <= 1 ==> SurfaceFaces(X, Y, Z) == []
  {
    GridFacesLength(X, Y, Z, CellRows(Z), CellCols(Z));
    CellIndexIsRowMajor(CellRows(Z), 0, CellCols(Z));
    if |Z| <= 1 || Cols(Z) <= 1 {
      assert CellRows(Z) == 0 || CellCols(Z) == 0;
      assert CellIndex(CellRows(Z), 0, CellCols(Z)) == 0;
    }
  }

  /** `t` is one of the two triangles of some lattice cell. */
  predicate IsCellFace(X: seq<seq<real>>, Y: seq<seq<real>>, Z: seq<seq<real>>, t: Triangle)
    requires IsGrid(X, Y, Z)
  {
    exists i, j :: 0 <= i < CellRows(Z) && 0 <= j < CellCols(Z) &&
      (t == Lower(X, Y, Z, i, j) || t == Upper(X, Y, Z, i, j))
  }

  lemma {:induction false} RowFacesAreCellFaces(X: seq<seq<real>>, Y: seq<seq<real>>, Z: seq<seq<real>>, i: nat, n: nat)
    requires IsGrid(X, Y, Z) && i < CellRows(Z) && n <= CellCols(Z)
    ensures forall t :: t in RowFaces(X, Y, Z, i, n) ==> IsCellFace(X, Y, Z, t)
  {
    if n > 0 {
      RowFacesAreCellFaces(X, Y, Z, i, n - 1);
      assert IsCellFace(X, Y, Z, Lower(X, Y, Z, i, n - 1));
      assert IsCellFace(X, Y, Z, Upper(X, Y, Z, i, n - 1));
    }
  }

  lemma {:induction false} GridFacesAreCellFaces(X: seq<seq<real>>, Y: seq<seq<real>>, Z: seq<seq<real>>, m: nat)
    requires IsGrid(X, Y, Z) && m <= CellRows(Z)
    ensures forall t :: t in GridFaces(X, Y, Z, m, CellCols(Z)) ==> IsCellFace(X, Y, Z, t)
  {
    if m > 0 {
      var w := CellCols(Z);
      var upTo, row := GridFaces(X, Y, Z, m - 1, w), RowFaces(X, Y, Z, m - 1, w);
      GridFacesAreCellFaces(X, Y, Z, m - 1);
      RowFacesAreCellFaces(X, Y, Z, m - 1, w);
      assert GridFaces(X, Y, Z, m, w) == upTo + row;
      forall t | t in upTo + row ensures IsCellFace(X, Y, Z, t) {
        if t in upTo {
        } else {
          assert t in row;
        }
      }
    }
  }

  /** `v` is the lattice point `P(a, b)` of some row `a` and column `b`. */
  predicate OnLattice(X: seq<seq<real>>, Y: seq<seq<real>>, Z: seq<seq<real>>, v: Vertex)
    requires IsGrid(X, Y, Z)
  {
    exists a, b :: 0 <= a < |Z| && 0 <= b < Cols(Z) && v == P(X, Y, Z, a, b)
  }

  /** The three corners of a cell triangle are lattice points. */
  lemma CellFaceOnLattice(X: seq<seq<real>>, Y: seq<seq<real>>, Z: seq<seq<real>>, t: Triangle)
    requires IsGrid(X, Y, Z) && IsCellFace(X, Y, Z, t)
    ensures OnLattice(X, Y, Z, t.v1) && OnLattice(X, Y, Z, t.v2) && OnLattice(X, Y, Z, t.v3)
  {
    var i, j :| 0 <= i < CellRows(Z) && 0 <= j < CellCols(Z) &&
      (t == Lower(X, Y, Z, i, j) || t == Upper(X, Y, Z, i, j));
    if t == Lower(X, Y, Z, i, j) {
      assert t.v1 == P(X, Y, Z, i, j) && t.v2 == P(X, Y, Z, i, j + 1) && t.v3 == P(X, Y, Z, i + 1, j);
    } else {
      assert t.v1 == P(X, Y, Z, i, j + 1) && t.v2 == P(X, Y, Z, i + 1, j + 1) && t.v3 == P(X, Y, Z, i + 1, j);
    }
  }

  /**
   No other face is produced: every surface face is a triangle of a cell,
   and so every one of its corners is a lattice point `P(a, b)` with
   `a < rows` and `b < cols`.
   */
  lemma SurfaceVerticesOnLattice(X: seq<seq<real>>, Y: seq<seq<real>>, Z: seq<seq<real>>)
    requires IsGrid(X, Y, Z)
    ensures forall t :: t in SurfaceFaces(X, Y, Z) ==> IsCellFace(X, Y, Z, t)
    ensures forall f, c :: 0 <= f < |SurfaceFaces(X, Y, Z)| && 0 <= c < 3 ==>
              OnLattice(X, Y, Z, SurfaceFaces(X, Y, Z)[f].Corner(c))
  {
    var s := SurfaceFaces(X, Y, Z);
    GridFacesAreCellFaces(X, Y, Z, CellRows(Z));
    forall f, c | 0 <= f < |s| && 0 <= c < 3 ensures OnLattice(X, Y, Z, s[f].Corner(c)) {
      assert s[f] in s;
      CellFaceOnLattice(X, Y, Z, s[f]);
    }
  }

  /**
   Consistent winding: every edge two neighbouring triangles share is walked
   in opposite directions by them, inside a cell (the diagonal) and across
   the cell's right and top sides.
   */
  lemma WindingConsistent(X: seq<seq<real>>, Y: seq<seq<real>>, Z: seq<seq<real>>, i: nat, j: nat)
    requires IsGrid(X, Y, Z) && i < CellRows(Z) && j < CellCols(Z)
    ensures (P(X, Y, Z, i, j + 1), P(X, Y, Z, i + 1, j)) in Lower(X, Y, Z, i, j).Edges()
    ensures (P(X, Y, Z, i + 1, j), P(X, Y, Z, i, j + 1)) in Upper(X, Y, Z, i, j).Edges()
    ensures j + 1 < CellCols(Z) ==>
              (P(X, Y, Z, i, j + 1), P(X, Y, Z, i + 1, j + 1)) in Upper(X, Y, Z, i, j).Edges() &&
              (P(X, Y, Z, i + 1, j + 1), P(X, Y, Z, i, j + 1)) in Lower(X, Y, Z, i, j + 1).Edges()
    ensures i + 1 < CellRows(Z) ==>
              (P(X, Y, Z, i + 1, j + 1), P(X, Y, Z, i + 1, j)) in Upper(X, Y, Z, i, j).Edges() &&
              (P(X, Y, Z, i + 1, j), P(X, Y, Z, i + 1, j + 1)) in Lower(X, Y, Z, i + 1, j).Edges()
  {
  }

  /**
   On a meshgrid of strictly increasing axes both triangles of a cell run
   counter-clockwise seen from +Z (positive signed XY area, whatever the
   heights), and they share exactly the diagonal `P(i, j+1)`-`P(i+1, j)`.
   */
  lemma CellGeometry(xs: seq<real>, ys: seq<real>, Z: seq<seq<real>>, i: nat, j: nat)
    requires StrictlyIncreasing(xs) && StrictlyIncreasing(ys) && IsMatrix(Z, |ys|, |xs|)
    requires IsGrid(Meshgrid(xs, ys).0, Meshgrid(xs, ys).1, Z)
    requires i < CellRows(Z) && j < CellCols(Z)
    ensures Lower(Meshgrid(xs, ys).0, Meshgrid(xs, ys).1, Z, i, j).SignedArea2() > 0.0
    ensures Upper(Meshgrid(xs, ys).0, Meshgrid(xs, ys).1, Z, i, j).SignedArea2() > 0.0
    ensures Lower(Meshgrid(xs, ys).0, Meshgrid(xs, ys).1, Z, i, j).Vertices() *
            Upper(Meshgrid(xs, ys).0, Meshgrid(xs, ys).1, Z, i, j).Vertices() ==
            {P(Meshgrid(xs, ys).0, Meshgrid(xs, ys).1, Z, i, j + 1), P(Meshgrid(xs, ys).0, Meshgrid(xs, ys).1, Z, i + 1, j)}
  {
    var (X, Y) := Meshgrid(xs, ys);
    var p00, p01, p10, p11 := P(X, Y, Z, i, j), P(X, Y, Z, i, j + 1), P(X, Y, Z, i + 1, j), P(X, Y, Z, i + 1, j + 1);
    var dx, dy := xs[j + 1] - xs[j], ys[i + 1] - ys[i];
    assert dx > 0.0 && dy > 0.0;
    assert p00.x == xs[j] && p00.y == ys[i] && p01.x == xs[j + 1] && p01.y == ys[i];
    assert p10.x == xs[j] && p10.y == ys[i + 1] && p11.x == xs[j + 1] && p11.y == ys[i + 1];
    var lower, upper := Lower(X, Y, Z, i, j), Upper(X, Y, Z, i, j);
    assert lower.SignedArea2() == dx * dy - 0.0 * 0.0;
    assert upper.SignedArea2() == 0.0 * dy - (-dx) * dy;
    assert lower.Vertices() * upper.Vertices() == {p01, p10} by {
      assert p00 != p01 && p00 != p10 && p00 != p11;
      assert p11 != p01 && p11 != p10;
    }
  }

  /**
   On a meshgrid of strictly increasing axes every surface face runs
   counter-clockwise seen from +Z, so its three corners have pairwise
   distinct XY positions, independently of Z.
   */
  lemma SurfaceCounterClockwise(xs: seq<real>, ys: seq<real>, Z: seq<seq<real>>)
    requires StrictlyIncreasing(xs) && StrictlyIncreasing(ys) && IsMatrix(Z, |ys|, |xs|)
    ensures IsGrid(Meshgrid(xs, ys).0, Meshgrid(xs, ys).1, Z)
    ensures forall t :: t in SurfaceFaces(Meshgrid(xs, ys).0, Meshgrid(xs, ys).1, Z) ==>
              t.SignedArea2() > 0.0 && !SameXY(t.v1, t.v2) && !SameXY(t.v2, t.v3) && !SameXY(t.v3, t.v1)
  {
    var (X, Y) := Meshgrid(xs, ys);
    assert IsGrid(X, Y, Z);
    SurfaceVerticesOnLattice(X, Y, Z);
    forall t | t in SurfaceFaces(X, Y, Z)
      ensures t.SignedArea2() > 0.0 && !SameXY(t.v1, t.v2) && !SameXY(t.v2, t.v3) && !SameXY(t.v3, t.v1)
    {
      var i, j :| 0 <= i < CellRows(Z) && 0 <= j < CellCols(Z) &&
        (t == Lower(X, Y, Z, i, j) || t == Upper(X, Y, Z, i, j));
      CellGeometry(xs, ys, Z, i, j);
      PositiveAreaDistinctXY(t);
    }
  }
}
