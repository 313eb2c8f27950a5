# Height-field mesh construction, modelled in Dafny

This project models the mesh script of the refrigerant p-T-v surface
(`src/20_make_mesh.py`). The script takes a table of samples, each holding a
temperature `T`, a specific volume `v` (used as `log_v = log10(v)`) and a
pressure `p`. It then:

- shifts each column by its minimum over the whole table and scales it into
  millimetres (`x`, `y`, `z`, all non-negative);
- lays a regular 100 x 100 lattice over the scaled XY extent
  (`numpy.linspace` plus `numpy.meshgrid`, `xy` indexing);
- triangulates the lattice heights `Z` into two triangles per cell;
- adds a two-triangle base plate at `z = -5`;
- copies both face lists into mesh records and concatenates them, the
  surface first.

The modules follow those stages:

| file | module | what it holds |
|---|---|---|
| `geometry.dfy` | `Geometry` | vertices, triangles, directed edges, doubled signed XY area |
| `stats.dfy` | `Stats` | column minimum/maximum, minimum/maximum over every entry of a matrix |
| `coordinates.dfy` | `Coordinates` | the offset-and-scale mapping of the three columns |
| `lattice.dfy` | `Lattice` | `linspace`, `meshgrid`, matrix shape |
| `height_field.dfy` | `HeightField` | `create_height_field_mesh` as a loop method, its recursive specification and its lemmas |
| `base_plate.dfy` | `BasePlate` | the base plate as an appending method, proved equal to one lattice cell at `z = -5` |
| `stl_mesh.dfy` | `StlMesh` | a mesh record table (`array2` of vertices) and the corner-by-corner copy loops |
| `make_mesh.dfy` | `MakeMesh` | the whole script as a method, with the lattice heights `Z` as a parameter |

Coordinates are `real`. The lattice heights `Z`, which the script obtains
from scattered-data interpolation, are an input matrix of the lattice's
shape. Where a property needs `Z >= 0`, that is a hypothesis. The mapped
heights are non-negative and cells outside the data get the fill value 0, and
together those are what make the hypothesis hold.

Where the design description and the code differ, the model follows the code:

- The base plate lies at the absolute height `-5`
  (`src/20_make_mesh.py:67`), not at `min(Z) - 5`.
- The base triangles use the same vertex pattern as a surface cell
  (`src/20_make_mesh.py:75-76` against `:50-51`). Their winding is therefore
  counter-clockwise seen from +Z, like the surface, and not reversed.
  `BasePlate.BaseCounterClockwise` proves this.
- An empty sample table has no minimum. The script then computes on NaN and
  the interpolation step fails. The model returns `Failure(EmptyTable)`.
- Linear interpolation (`src/20_make_mesh.py:33`) triangulates the scaled
  sample points and fails when they admit no triangulation: fewer than three
  distinct points, or all of them on one line. The model returns
  `Failure(FlatSamples)` for a non-empty table in which no three scaled
  points span a triangle of non-zero area.

## Model

| member | source | states |
|---|---|---|
| Stats.SeqMin | src/20_make_mesh.py:18-20 | the column minimum is an element of the column and lies below every element |
| Stats.SeqMax | src/20_make_mesh.py:28-29 | the column maximum is an element of the column and lies above every element |
| Stats.SeqMinIs | src/20_make_mesh.py:18-20 | a value present in a column and below every element is the column minimum |
| Stats.SeqMaxIs | src/20_make_mesh.py:28-29 | a value present in a column and above every element is the column maximum |
| Stats.Flatten | src/20_make_mesh.py:70-73 | the entries of a matrix, as a sequence containing every entry and nothing else |
| Stats.MatrixMin | src/20_make_mesh.py:70-73 | `ndarray.min()` is an entry of the matrix and lies below every entry |
| Stats.MatrixMax | src/20_make_mesh.py:71-73 | `ndarray.max()` is an entry of the matrix and lies above every entry |
| Stats.MatrixMinIs | src/20_make_mesh.py:70-73 | an entry below every entry is the matrix minimum |
| Stats.MatrixMaxIs | src/20_make_mesh.py:71-73 | an entry above every entry is the matrix maximum |
| Coordinates.TColumn | src/20_make_mesh.py:18 | the `T` column, one value per sample, in table order |
| Coordinates.LogVColumn | src/20_make_mesh.py:19 | the `log_v` column, one value per sample, in table order |
| Coordinates.PColumn | src/20_make_mesh.py:20 | the `p` column, one value per sample, in table order |
| Coordinates.Shifted | src/20_make_mesh.py:23-25 | `(col - lo) * scale` entry by entry, one value per entry of the column |
| Coordinates.ShiftedNonNegative | src/20_make_mesh.py:23-25 | with a positive scale and an offset below every element, every shifted value is non-negative |
| Coordinates.ShiftedAtOffset | src/20_make_mesh.py:23-25 | the entry equal to the offset is mapped to 0 |
| Coordinates.ShiftedDifferences | src/20_make_mesh.py:23-25 | the difference of two shifted values is the scaled difference of the originals, whatever the offset |
| Coordinates.MapColumn | src/20_make_mesh.py:18-25 | with a positive scale, the mapped column has one value per sample, all of them non-negative, at least one equal to 0, and differences equal to the scaled differences of the input column |
| Coordinates.MapColumnMin | src/20_make_mesh.py:18-25 | the minimum of a mapped column is exactly 0 |
| Coordinates.AffineOrder | src/20_make_mesh.py:23-25 | a map that scales differences by a positive factor keeps the strict order of any two samples, in both directions |
| Coordinates.MapColumnVaries | src/20_make_mesh.py:18-25 | a mapped column spans a positive range exactly when the input column holds two different values |
| Coordinates.MapCoordinates | src/20_make_mesh.py:13-25 | on a non-empty table each mapped column has one value per sample, is non-negative and has minimum 0; differences scale by 1 mm/K, 50 mm per decade and 1/20000 mm/Pa |
| Lattice.Step | src/20_make_mesh.py:28 | the spacing `(hi - lo) / (n - 1)` of `linspace` |
| Lattice.StepSpan | src/20_make_mesh.py:28 | `n - 1` steps of the spacing cover exactly `hi - lo` |
| Lattice.StepSign | src/20_make_mesh.py:28 | the spacing is non-negative when `lo <= hi`, and positive when `lo < hi` and `n > 1` |
| Lattice.Linspace | src/20_make_mesh.py:28-29 | `n` values whose first is `lo` and whose last is exactly `hi`, with equal spacing `(hi - lo)/(n - 1)` between neighbours |
| Lattice.LinspaceOrder | src/20_make_mesh.py:28-29 | for `lo <= hi` an earlier value is at most a later one, and strictly below it when `lo < hi` |
| Lattice.LinspaceIncreasing | src/20_make_mesh.py:28-29 | for `lo <= hi` the values are non-decreasing and within `[lo, hi]`, and strictly increasing when `lo < hi` |
| Lattice.Meshgrid | src/20_make_mesh.py:30 | `X` and `Y` are `len(y) x len(x)` matrices with `X[i][j] == x[j]` and `Y[i][j] == y[i]` |
| Lattice.MeshgridBounds | src/20_make_mesh.py:30 | over non-decreasing axes, the minimum and maximum of `X` are the first and last `x`, and those of `Y` the first and last `y` |
| HeightField.P | src/20_make_mesh.py:44-47 | lattice point `(a, b)` as the vertex `[X[a, b], Y[a, b], Z[a, b]]` |
| HeightField.Lower | src/20_make_mesh.py:44-50 | the first triangle `[v1, v2, v3]` of cell `(i, j)` |
| HeightField.Upper | src/20_make_mesh.py:45-51 | the second triangle `[v2, v4, v3]` of cell `(i, j)` |
| HeightField.RowFaces | src/20_make_mesh.py:42-51 | the faces the inner loop appends for the first `n` cells of row `i`, two per cell in cell order |
| HeightField.GridFaces | src/20_make_mesh.py:41-51 | the faces the outer loop appends for the first `m` rows, row after row |
| HeightField.SurfaceFaces | src/20_make_mesh.py:36-53 | the face list `create_height_field_mesh` returns: every cell row of the lattice, in order |
| HeightField.CellIndexIsRowMajor | src/20_make_mesh.py:41-42 | the cell index counted row by row is `i w + j` |
| HeightField.CellIndexInRow | src/20_make_mesh.py:42 | within a row, cell `j` comes `j` places after the row's first cell |
| HeightField.CreateHeightFieldMesh | src/20_make_mesh.py:36-53 | the nested loops build exactly the surface specification: for every cell row in turn, for every cell of the row in turn, `[P(i,j), P(i,j+1), P(i+1,j)]` then `[P(i,j+1), P(i+1,j+1), P(i+1,j)]` |
| HeightField.RowFacesLength | src/20_make_mesh.py:42-51 | the first `n` cells of a row hold `2n` faces |
| HeightField.GridFacesLength | src/20_make_mesh.py:41-51 | the first `m` rows of `w` cells hold two faces per cell |
| HeightField.RowFacesAt | src/20_make_mesh.py:42-51 | within a row, faces `2j` and `2j+1` are the two triangles of cell `j` |
| HeightField.CellIndexBound | src/20_make_mesh.py:41-42 | every cell of the first `m` rows comes before the first cell of row `m` |
| HeightField.GridFacesAt | src/20_make_mesh.py:41-51 | in the first `m` rows, faces `2k` and `2k+1` of cell `k = CellIndex(i, j, w)` exist and are the two triangles of cell `(i, j)` |
| HeightField.SurfaceFaceOrder | src/20_make_mesh.py:41-51 | the surface faces come in row-major cell order: faces `2k` and `2k+1`, with `k = CellIndex(i, j, cols-1)` (which `CellIndexIsRowMajor` equates with `i (cols-1) + j`), exist and are `[P(i,j), P(i,j+1), P(i+1,j)]` and `[P(i,j+1), P(i+1,j+1), P(i+1,j)]` |
| HeightField.SurfaceCount | src/20_make_mesh.py:36-53 | for `rows, cols >= 1` there are exactly `2 (rows-1)(cols-1)` faces, whatever the heights; with one row or one column the list is empty |
| HeightField.RowFacesAreCellFaces | src/20_make_mesh.py:42-51 | every face of a row is one of the two triangles of one of its cells |
| HeightField.GridFacesAreCellFaces | src/20_make_mesh.py:41-51 | every face of the first `m` rows is a triangle of one of their cells |
| HeightField.CellFaceOnLattice | src/20_make_mesh.py:44-51 | the three corners of a cell triangle are lattice points |
| HeightField.SurfaceVerticesOnLattice | src/20_make_mesh.py:44-51 | every corner of every face is a lattice point `P(a, b)` with `a < rows`, `b < cols` |
| HeightField.WindingConsistent | src/20_make_mesh.py:50-51 | the two triangles of a cell traverse their shared diagonal in opposite directions, and so do neighbouring cells along their shared edges |
| HeightField.CellGeometry | src/20_make_mesh.py:44-51 | on strictly increasing axes both triangles of a cell have positive signed XY area, and they share exactly the two vertices of the diagonal `P(i,j+1)`-`P(i+1,j)` |
| HeightField.SurfaceCounterClockwise | src/20_make_mesh.py:44-51 | on strictly increasing axes every surface face runs counter-clockwise seen from +Z and its three vertices have pairwise distinct XY, independent of Z |
| Geometry.Triangle.Corner | src/20_make_mesh.py:64 | corner `j` of a face is one of its three vertices |
| Geometry.PositiveAreaDistinctXY | src/20_make_mesh.py:44-51 | a triangle of positive signed area has pairwise distinct XY vertices |
| BasePlate.BoundingAxes | src/20_make_mesh.py:70-73 | the axes are `[X.min(), X.max()]` and `[Y.min(), Y.max()]`; each encloses every entry of its matrix |
| BasePlate.BaseLatticeFaces | src/20_make_mesh.py:75-76 | the plate faces: the surface faces of the one-cell lattice over the bounding axes, at the plate height |
| BasePlate.MakeBasePlate | src/20_make_mesh.py:66-76 | the appended faces are the one-cell lattice over the bounding box: two faces, every corner at `z = -5`, and their vertices exactly the four bounding-box corners |
| BasePlate.BaseIsOneCell | src/20_make_mesh.py:70-76 | the plate is `[v1, v2, v3]` then `[v2, v4, v3]` over the corners `(xmin, ymin)`, `(xmax, ymin)`, `(xmin, ymax)`, `(xmax, ymax)` |
| BasePlate.BasePlateFlat | src/20_make_mesh.py:67-76 | the plate has two faces and every vertex lies at `z = -5` |
| BasePlate.BaseCounterClockwise | src/20_make_mesh.py:70-76 | over a box of positive width and depth both plate faces run counter-clockwise seen from +Z, the same way as the surface |
| BasePlate.BaseBelowSurface | src/20_make_mesh.py:66-67 | when no height is negative, the plate height lies strictly below every surface vertex |
| StlMesh.Mesh.Faces | src/20_make_mesh.py:61-64 | the faces held by the records, one per record, with corner `j` of face `i` equal to `vectors[i][j]` |
| StlMesh.Mesh.Zeros | src/20_make_mesh.py:61 | a fresh table of `count` records, three corners each, all at the origin |
| StlMesh.Mesh.CopyFaces | src/20_make_mesh.py:62-64 | every corner of every record is overwritten with the matching face corner, and only the record table changes; afterwards the mesh holds exactly the given faces, in order |
| MakeMesh.TableAxes | src/20_make_mesh.py:28-29 | the two lattice axes: 100 evenly spaced values from the minimum to the maximum of the scaled `x`, and of the scaled `y` |
| MakeMesh.Triangulable | src/20_make_mesh.py:33 | the linear interpolation has a triangulation to work on: the table is non-empty and some three scaled `(x, y)` points span a triangle of non-zero area |
| MakeMesh.EqualColumnsMapEqual | src/20_make_mesh.py:23-24 | samples of equal temperature get the same `x`, samples of equal `log_v` the same `y` |
| MakeMesh.AlignedSamplesFlat | src/20_make_mesh.py:33 | three points sharing their `x`, or sharing their `y`, span no area |
| MakeMesh.TriangulableVaries | src/20_make_mesh.py:18-33 | a table with a triangulation has two different temperatures and two different volumes, so its lattice axes rise strictly |
| MakeMesh.SingleSampleFlat | src/20_make_mesh.py:33 | a table of one sample has no triangulation |
| MakeMesh.TableAxesBounds | src/20_make_mesh.py:28-29 | each table axis has 100 non-decreasing values from 0 to the largest scaled coordinate, and rises strictly exactly when its column takes two different values |
| MakeMesh.Combined | src/20_make_mesh.py:85 | the concatenated mesh: the surface faces, then the plate faces |
| MakeMesh.CombinedLayout | src/20_make_mesh.py:85 | on the 100 x 100 lattice the combined mesh has `2 * 99 * 99 + 2` faces: the surface faces first, then the two plate faces |
| MakeMesh.CombinedBaseHeight | src/20_make_mesh.py:75-85 | every vertex of the faces after the surface lies at `z = -5` |
| MakeMesh.CombinedBaseBelow | src/20_make_mesh.py:67-85 | when no height is negative, every vertex of the `2 * 99 * 99` surface faces at the front of the combined mesh lies above the plate height |
| MakeMesh.PlateCounterClockwise | src/20_make_mesh.py:70-76 | over strictly increasing axes of two or more values both plate faces run counter-clockwise |
| MakeMesh.CombinedCounterClockwise | src/20_make_mesh.py:41-85 | over strictly increasing axes of two or more values every face of the combined mesh runs counter-clockwise seen from +Z |
| MakeMesh.TableCounterClockwise | src/20_make_mesh.py:18-85 | when the table's temperatures vary and its volumes vary, every face of the mesh built from it runs counter-clockwise |
| MakeMesh.TablePlateCorners | src/20_make_mesh.py:70-76 | the plate built from a table has the corners `(0, 0)`, `(xmax, 0)`, `(0, ymax)`, `(xmax, ymax)` at `z = -5`, where `xmax` and `ymax` are the largest scaled temperature and `log10(v)` |
| MakeMesh.MakeMesh | src/20_make_mesh.py:7-85 | an empty table fails with `EmptyTable`, a non-empty table whose scaled points span no triangle fails with `FlatSamples`, and every other table succeeds; on success the result is the surface faces of the table's lattice followed by the plate faces, read back out of the two copied mesh record tables, and every face runs counter-clockwise seen from +Z |

## Left out

- CSV loading and `log10` (`src/20_make_mesh.py:7-10`): file I/O and a transcendental float function. `log_v` is a column of the input table.
- Scattered-data interpolation (`scipy.interpolate.griddata`, `src/20_make_mesh.py:33`): it lives in a library. The lattice heights `Z` are a parameter. `Z >= 0` is a hypothesis of the properties that need it.
- The mesh library: normals, the record layout other than the vertices, and writing the file (`src/20_make_mesh.py:61`, `79`, `85`, `88`). `StlMesh.Mesh` models only the `vectors` table that the copy loops write. The concatenation is modelled on the faces the two tables hold.
- The final message print (`src/20_make_mesh.py:90`): output only.
- IEEE-754 rounding: coordinates are exact reals. `linspace`'s interior values are therefore exactly `lo + k * step`.
- `MakeMesh.MakeMesh`: the script fails inside the interpolation library on an empty table and on sample points with no triangulation. The model returns `Failure(EmptyTable)` or `Failure(FlatSamples)` instead of modelling those library errors. The triangulation test is exact: a triangulation that fails only through float precision on nearly collinear points is not modelled.
- `src/10_sample_pTv.py`, `src/30_plots_qc.py` and `src/40_cycle_analysis.py` are not part of this model. They are property-library lookups, plotting and printed analysis.
- Side walls between the surface boundary and the plate: the script does not generate any, so the model has none.
