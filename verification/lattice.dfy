/**
 The regular lattice the surface is sampled on: `numpy.linspace` for each
 axis and `numpy.meshgrid` (default `xy` indexing) to combine them.
 */
module Lattice {
  import opened Stats

  /** Number of lattice values per axis. */
  const LatticeSize: nat := 100

  /** `m` has `rows` rows of `cols` entries each. */
  predicate IsMatrix(m: seq<seq<real>>, rows: nat, cols: nat) {
    |m| == rows && forall i :: 0 <= i < rows ==> |m[i]| == cols
  }

  predicate StrictlyIncreasing(s: seq<real>) {
    forall a, b :: 0 <= a < b < |s| ==> s[a] < s[b]
  }

  predicate NonDecreasing(s: seq<real>) {
    forall a, b :: 0 <= a < b < |s| ==> s[a] <= s[b]
  }

  /** Distance between neighbouring values of `Linspace(lo, hi, n)`. */
  function Step(lo: real, hi: real, n: nat): real {
    if n > 1 then (hi - lo) / ((n - 1) as real) else 0.0
  }

  lemma StepSpan(lo: real, hi: real, n: nat)
    requires n > 1
    ensures lo + ((n - 1) as real) * Step(lo, hi, n) == hi
  {
  }

  lemma StepSign(lo: real, hi: real, n: nat)
    requires n > 1
    ensures lo < hi ==> Step(lo, hi, n) > 0.0
    ensures lo <= hi ==> Step(lo, hi, n) >= 0.0
  {
  }

  /**
   `numpy.linspace(lo, hi, n)`: `n` evenly spaced values from `lo` to `hi`
   inclusive; the last value is `hi` itself, and `n == 1` gives `[lo]`.
   */
  function Linspace(lo: real, hi: real, n: nat): (r: seq<real>)
    ensures |r| == n
    ensures n > 0 ==> r[0] == lo
    ensures n > 1 ==> r[n - 1] == hi
    ensures forall k :: 0 <= k < n - 1 ==> r[k + 1] - r[k] == Step(lo, hi, n)
  {
    var r := seq(n, k requires 0 <= k < n => if n > 1 && k == n - 1 then hi else lo + (k as real) * Step(lo, hi, n));
    forall k | 0 <= k < n - 1 ensures r[k + 1] - r[k] == Step(lo, hi, n) {
      if k + 1 == n - 1 {
        StepSpan(lo, hi, n);
      }
    }
    r
  }

  /** Two values of an axis compare as their positions do. */
  lemma {:induction false} LinspaceOrder(lo: real, hi: real, n: nat, a: nat, b: nat)
    requires lo <= hi && a < b < n
    ensures Linspace(lo, hi, n)[a] <= Linspace(lo, hi, n)[b]
    ensures lo < hi ==> Linspace(lo, hi, n)[a] < Linspace(lo, hi, n)[b]
    decreases b
  {
    StepSign(lo, hi, n);
    if a < b - 1 {
      LinspaceOrder(lo, hi, n, a, b - 1);
    }
  }

  /** An axis over a non-empty range rises strictly and stays within `[lo, hi]`. */
  lemma LinspaceIncreasing(lo: real, hi: real, n: nat)
    requires lo <= hi
    ensures NonDecreasing(Linspace(lo, hi, n))
    ensures lo < hi ==> StrictlyIncreasing(Linspace(lo, hi, n))
    ensures forall k :: 0 <= k < n ==> lo <= Linspace(lo, hi, n)[k] <= hi
  {
    var r := Linspace(lo, hi, n);
    forall a, b | 0 <= a < b < n
      ensures r[a] <= r[b]
      ensures lo < hi ==> r[a] < r[b]
    {
      LinspaceOrder(lo, hi, n, a, b);
    }
    forall k | 0 <= k < n ensures lo <= r[k] <= hi {
      if k > 0 { LinspaceOrder(lo, hi, n, 0, k); }
      if k < n - 1 { LinspaceOrder(lo, hi, n, k, n - 1); }
    }
  }

  /**
   `numpy.meshgrid(xs, ys)`: two `|ys| x |xs|` matrices, the first repeating
   `xs` along every row, the second repeating `ys` down every column.
   */
  function Meshgrid(xs: seq<real>, ys: seq<real>): (g: (seq<seq<real>>, seq<seq<real>>))
    ensures IsMatrix(g.0, |ys|, |xs|) && IsMatrix(g.1, |ys|, |xs|)
    ensures forall i, j :: 0 <= i < |ys| && 0 <= j < |xs| ==> g.0[i][j] == xs[j] && g.1[i][j] == ys[i]
  {
    (seq(|ys|, i => xs),
     seq(|ys|, i requires 0 <= i < |ys| => seq(|xs|, j => ys[i])))
  }

  /**
   The extremes of a meshgrid matrix (what `X.min()` and friends return) are
   the end values of its axes.
   */
  lemma MeshgridBounds(xs: seq<real>, ys: seq<real>)
    requires |xs| > 0 && |ys| > 0
    requires NonDecreasing(xs) && NonDecreasing(ys)
    ensures HasEntry(Meshgrid(xs, ys).0) && HasEntry(Meshgrid(xs, ys).1)
    ensures MatrixMin(Meshgrid(xs, ys).0) == xs[0] && MatrixMax(Meshgrid(xs, ys).0) == xs[|xs| - 1]
    ensures MatrixMin(Meshgrid(xs, ys).1) == ys[0] && MatrixMax(Meshgrid(xs, ys).1) == ys[|ys| - 1]
  {
    var (gx, gy) := Meshgrid(xs, ys);
    var last, top := |xs| - 1, |ys| - 1;
    forall a, b | 0 <= a < |gx| && 0 <= b < |gx[a]| ensures gx[0][0] <= gx[a][b] <= gx[0][last] {
      assert b > 0 ==> xs[0] <= xs[b];
      assert b < last ==> xs[b] <= xs[last];
    }
    forall a, b | 0 <= a < |gy| && 0 <= b < |gy[a]| ensures gy[0][0] <= gy[a][b] <= gy[top][0] {
      assert a > 0 ==> ys[0] <= ys[a];
      assert a < top ==> ys[a] <= ys[top];
    }
    MatrixMinIs(gx, 0, 0);
    MatrixMaxIs(gx, 0, last);
    MatrixMinIs(gy, 0, 0);
    MatrixMaxIs(gy, top, 0);
  }
}
