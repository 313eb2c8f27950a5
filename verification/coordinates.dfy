/**
 The coordinate mapping of the mesh script: every column of the sample table
 is shifted by its own minimum over the whole table, then multiplied by a
 fixed positive scale. The second column is `log10(v)`, taken here as a
 column of the input table.
 */
module Coordinates {
  import opened Stats

  /** One row of the sample table: temperature, log10 of specific volume, pressure. */
  datatype Sample = Sample(t: real, logV: real, p: real)

  /** mm per kelvin */
  const TScale: real := 1.0
  /** mm per decade of specific volume */
  const VScale: real := 50.0
  /** mm per pascal */
  const PScale: real := 1.0 / 20000.0

  function TColumn(table: seq<Sample>): (c: seq<real>)
    ensures |c| == |table| && forall i :: 0 <= i < |c| ==> c[i] == table[i].t
  {
    seq(|table|, i requires 0 <= i < |table| => table[i].t)
  }

  function LogVColumn(table: seq<Sample>): (c: seq<real>)
    ensures |c| == |table| && forall i :: 0 <= i < |c| ==> c[i] == table[i].logV
  {
    seq(|table|, i requires 0 <= i < |table| => table[i].logV)
  }

  function PColumn(table: seq<Sample>): (c: seq<real>)
    ensures |c| == |table| && forall i :: 0 <= i < |c| ==> c[i] == table[i].p
  {
    seq(|table|, i requires 0 <= i < |table| => table[i].p)
  }

  /** Some two entries of the column differ. */
  predicate Varies(col: seq<real>) {
    exists i, j :: 0 <= i < |col| && 0 <= j < |col| && col[i] < col[j]
  }

  /** Differences between entries of `r` are the differences between entries of `col`, times `scale`. */
  predicate ScalesDifferences(col: seq<real>, r: seq<real>, scale: real) {
    |r| == |col| &&
    forall i, j :: 0 <= i < |r| && 0 <= j < |r| ==> r[i] - r[j] == (col[i] - col[j]) * scale
  }

  /** `(col - lo) * scale`, entry by entry. */
  function Shifted(col: seq<real>, lo: real, scale: real): (r: seq<real>)
    ensures |r| == |col|
  {
    seq(|col|, i requires 0 <= i < |col| => (col[i] - lo) * scale)
  }

  /** Shifting by a lower bound of the column leaves nothing negative. */
  lemma ShiftedNonNegative(col: seq<real>, lo: real, scale: real)
    requires scale > 0.0
    requires forall i :: 0 <= i < |col| ==> lo <= col[i]
    ensures forall i :: 0 <= i < |col| ==> Shifted(col, lo, scale)[i] >= 0.0
  {
  }

  /** The entry equal to the offset is mapped to 0. */
  lemma ShiftedAtOffset(col: seq<real>, lo: real, scale: real, k: int)
    requires 0 <= k < |col| && col[k] == lo
    ensures Shifted(col, lo, scale)[k] == 0.0
  {
    assert Shifted(col, lo, scale)[k] == 0.0 * scale;
  }

  /** One offset for every row: differences between rows are only scaled. */
  lemma ShiftedDifferences(col: seq<real>, lo: real, scale: real)
    ensures ScalesDifferences(col, Shifted(col, lo, scale), scale)
  {
  }

  /**
   `(col - col.min()) * scale`. The offset is one minimum for the whole
   column, so the result is the column under one affine map: differences are
   scaled, nothing is negative and the smallest value is exactly zero.
   */
  function MapColumn(col: seq<real>, scale: real): (r: seq<real>)
    requires |col| > 0 && scale > 0.0
    ensures |r| == |col|
    ensures ScalesDifferences(col, r, scale)
    ensures forall i :: 0 <= i < |r| ==> r[i] >= 0.0
    ensures exists i :: 0 <= i < |r| && r[i] == 0.0
  {
    var lo := SeqMin(col);
    var r := Shifted(col, lo, scale);
    ShiftedNonNegative(col, lo, scale);
    ShiftedDifferences(col, lo, scale);
    var k :| 0 <= k < |col| && col[k] == lo;
    ShiftedAtOffset(col, lo, scale, k);
    r
  }

  /** The mapped column has minimum exactly 0. */
  lemma MapColumnMin(col: seq<real>, scale: real)
    requires |col| > 0 && scale > 0.0
    ensures SeqMin(MapColumn(col, scale)) == 0.0
  {
    var r := MapColumn(col, scale);
    var z :| 0 <= z < |r| && r[z] == 0.0;
    SeqMinIs(r, 0.0);
  }

  /** Under a positive scale, entries compare as the input entries do. */
  lemma AffineOrder(col: seq<real>, r: seq<real>, scale: real, i: int, j: int)
    requires scale > 0.0 && ScalesDifferences(col, r, scale)
    requires 0 <= i < |col| && 0 <= j < |col|
    ensures col[i] < col[j] <==> r[i] < r[j]
  {
    var d := col[j] - col[i];
    assert r[j] - r[i] == d * scale;
  }

  /** The mapped column spreads out exactly when the input column does. */
  lemma MapColumnVaries(col: seq<real>, scale: real)
    requires |col| > 0 && scale > 0.0
    ensures Varies(col) <==> SeqMin(MapColumn(col, scale)) < SeqMax(MapColumn(col, scale))
  {
    var r := MapColumn(col, scale);
    if Varies(col) {
      var i, j :| 0 <= i < |col| && 0 <= j < |col| && col[i] < col[j];
      AffineOrder(col, r, scale, i, j);
      assert SeqMin(r) <= r[i] < r[j] <= SeqMax(r);
    }
    if SeqMin(r) < SeqMax(r) {
      var i :| 0 <= i < |r| && r[i] == SeqMin(r);
      var j :| 0 <= j < |r| && r[j] == SeqMax(r);
      AffineOrder(col, r, scale, i, j);
      assert col[i] < col[j];
    }
  }

  /** The `x`, `y` and `z` columns the script adds to the table. */
  datatype Scaled = Scaled(x: seq<real>, y: seq<real>, z: seq<real>)

  /**
   Maps the whole table. Each of the three columns keeps one row per sample,
   is non-negative, reaches 0, and is the input column shifted by one
   table-wide offset and multiplied by its scale.
   */
  function MapCoordinates(table: seq<Sample>): (r: Scaled)
    requires |table| > 0
    ensures |r.x| == |table| && |r.y| == |table| && |r.z| == |table|
    ensures forall i :: 0 <= i < |table| ==> r.x[i] >= 0.0 && r.y[i] >= 0.0 && r.z[i] >= 0.0
    ensures SeqMin(r.x) == 0.0 && SeqMin(r.y) == 0.0 && SeqMin(r.z) == 0.0
    ensures forall i, j :: 0 <= i < |table| && 0 <= j < |table| ==>
              r.x[i] - r.x[j] == (table[i].t - table[j].t) * TScale &&
              r.y[i] - r.y[j] == (table[i].logV - table[j].logV) * VScale &&
              r.z[i] - r.z[j] == (table[i].p - table[j].p) * PScale
  {
    MapColumnMin(TColumn(table), TScale);
    MapColumnMin(LogVColumn(table), VScale);
    MapColumnMin(PColumn(table), PScale);
    Scaled(MapColumn(TColumn(table), TScale),
           MapColumn(LogVColumn(table), VScale),
           MapColumn(PColumn(table), PScale))
  }
}
