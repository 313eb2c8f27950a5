/**
 Minimum and maximum of a column (`Series.min()`, `Series.max()`) and of a
 whole matrix (`ndarray.min()`, `ndarray.max()`, taken over every entry).
 */
module Stats {

  function SeqMin(s: seq<real>): (m: real)
    requires |s| > 0
    ensures m in s
    ensures forall k :: 0 <= k < |s| ==> m <= s[k]
  {
    if |s| == 1 then s[0]
    else
      var rest := SeqMin(s[1..]);
      if s[0] <= rest then s[0] else rest
  }

  function SeqMax(s: seq<real>): (m: real)
    requires |s| > 0
    ensures m in s
    ensures forall k :: 0 <= k < |s| ==> s[k] <= m
  {
    if |s| == 1 then s[0]
    else
      var rest := SeqMax(s[1..]);
      if s[0] >= rest then s[0] else rest
  }

  /** A value present in `s` and below every element is its minimum. */
  lemma SeqMinIs(s: seq<real>, v: real)
    requires v in s
    requires forall k :: 0 <= k < |s| ==> v <= s[k]
    ensures SeqMin(s) == v
  {
  }

  /** A value present in `s` and above every element is its maximum. */
  lemma SeqMaxIs(s: seq<real>, v: real)
    requires v in s
    requires forall k :: 0 <= k < |s| ==> s[k] <= v
    ensures SeqMax(s) == v
  {
  }

  /** The entries of a matrix, row after row. */
  function Flatten(m: seq<seq<real>>): (r: seq<real>)
    ensures forall i, j :: 0 <= i < |m| && 0 <= j < |m[i]| ==> m[i][j] in r
    ensures forall v :: v in r ==> exists i, j :: 0 <= i < |m| && 0 <= j < |m[i]| && m[i][j] == v
  {
    if |m| == 0 then []
    else
      var rest := Flatten(m[1..]);
      assert forall i, j :: 1 <= i < |m| && 0 <= j < |m[i]| ==> m[i][j] == m[1..][i - 1][j];
      m[0] + rest
  }

  predicate HasEntry(m: seq<seq<real>>) {
    exists i :: 0 <= i < |m| && |m[i]| > 0
  }

  function MatrixMin(m: seq<seq<real>>): (r: real)
    requires HasEntry(m)
    ensures exists i, j :: 0 <= i < |m| && 0 <= j < |m[i]| && m[i][j] == r
    ensures forall i, j :: 0 <= i < |m| && 0 <= j < |m[i]| ==> r <= m[i][j]
  {
    var i :| 0 <= i < |m| && |m[i]| > 0;
    assert m[i][0] in Flatten(m);
    SeqMin(Flatten(m))
  }

  function MatrixMax(m: seq<seq<real>>): (r: real)
    requires HasEntry(m)
    ensures exists i, j :: 0 <= i < |m| && 0 <= j < |m[i]| && m[i][j] == r
    ensures forall i, j :: 0 <= i < |m| && 0 <= j < |m[i]| ==> m[i][j] <= r
  {
    var i :| 0 <= i < |m| && |m[i]| > 0;
    assert m[i][0] in Flatten(m);
    SeqMax(Flatten(m))
  }

  /** An entry below every entry is the matrix minimum. */
  lemma MatrixMinIs(m: seq<seq<real>>, i: int, j: int)
    requires 0 <= i < |m| && 0 <= j < |m[i]|
    requires forall a, b :: 0 <= a < |m| && 0 <= b < |m[a]| ==> m[i][j] <= m[a][b]
    ensures HasEntry(m) && MatrixMin(m) == m[i][j]
  {
  }

  /** An entry above every entry is the matrix maximum. */
  lemma MatrixMaxIs(m: seq<seq<real>>, i: int, j: int)
    requires 0 <= i < |m| && 0 <= j < |m[i]|
    requires forall a, b :: 0 <= a < |m| && 0 <= b < |m[a]| ==> m[a][b] <= m[i][j]
    ensures HasEntry(m) && MatrixMax(m) == m[i][j]
  {
  }
}
