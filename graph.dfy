/** The matrices of the SymNMF similarity graph, defined entry by entry:
    squared distances, the Gaussian similarity A, the diagonal degree
    matrix D and the normalised similarity W = D^-1/2 . A . D^-1/2. The
    exponential, square root and power functions of <math.h> are
    parameters, so nothing here depends on floating-point rounding. */
module Graph {
  import opened Matrices

  /** Sum over the first `d` coordinates of the squared differences. */
  function SquaredDistance(x: seq<real>, y: seq<real>, d: nat): real
    requires d <= |x| && d <= |y|
  {
    if d == 0 then 0.0
    else SquaredDistance(x, y, d - 1) + (x[d - 1] - y[d - 1]) * (x[d - 1] - y[d - 1])
  }

  lemma {:induction false} SquaredDistanceNonNegative(x: seq<real>, y: seq<real>, d: nat)
    requires d <= |x| && d <= |y|
    ensures SquaredDistance(x, y, d) >= 0.0
  {
    if d > 0 {
      SquaredDistanceNonNegative(x, y, d - 1);
    }
  }

  lemma {:induction false} SquaredDistanceSymmetric(x: seq<real>, y: seq<real>, d: nat)
    requires d <= |x| && d <= |y|
    ensures SquaredDistance(x, y, d) == SquaredDistance(y, x, d)
  {
    if d > 0 {
      SquaredDistanceSymmetric(x, y, d - 1);
      assert (x[d - 1] - y[d - 1]) * (x[d - 1] - y[d - 1]) == (y[d - 1] - x[d - 1]) * (y[d - 1] - x[d - 1]);
    }
  }

  lemma {:induction false} SquaredDistanceSelf(x: seq<real>, d: nat)
    requires d <= |x|
    ensures SquaredDistance(x, x, d) == 0.0
  {
    if d > 0 {
      SquaredDistanceSelf(x, d - 1);
    }
  }

  /** The similarity matrix of the n points `x` in d dimensions: zero on the
      diagonal, exp(-0.5 * squared distance) elsewhere. */
  function Similarity(x: Mat, d: nat, exp: real -> real): (a: Mat)
    requires IsMatrix(x, |x|, d)
    ensures IsMatrix(a, |x|, |x|)
  {
    seq(|x|, i requires 0 <= i < |x| => seq(|x|, j requires 0 <= j < |x| =>
      if i == j then 0.0 else exp(-0.5 * SquaredDistance(x[i], x[j], d))))
  }

  /** The similarity matrix is symmetric with a zero diagonal. */
  lemma SimilaritySymmetric(x: Mat, d: nat, exp: real -> real)
    requires IsMatrix(x, |x|, d)
    ensures Symmetric(Similarity(x, d, exp), |x|)
    ensures forall i :: 0 <= i < |x| ==> Similarity(x, d, exp)[i][i] == 0.0
  {
    forall i, j | 0 <= i < |x| && 0 <= j < |x|
      ensures Similarity(x, d, exp)[i][j] == Similarity(x, d, exp)[j][i]
    {
      SquaredDistanceSymmetric(x[i], x[j], d);
    }
  }

  /** When exp is positive and at most 1 on non-positive arguments, every
      off-diagonal similarity lies in (0, 1], and every entry in [0, 1]. */
  lemma SimilarityBounds(x: Mat, d: nat, exp: real -> real)
    requires IsMatrix(x, |x|, d)
    requires forall t :: exp(t) > 0.0
    requires forall t :: t <= 0.0 ==> exp(t) <= 1.0
    ensures forall i, j :: 0 <= i < |x| && 0 <= j < |x| && i != j ==>
      0.0 < Similarity(x, d, exp)[i][j] <= 1.0
    ensures NonNegative(Similarity(x, d, exp))
  {
    forall i, j | 0 <= i < |x| && 0 <= j < |x| && i != j
      ensures 0.0 < Similarity(x, d, exp)[i][j] <= 1.0
    {
      SquaredDistanceNonNegative(x[i], x[j], d);
    }
  }

  /** Two distinct points at the same place have similarity exp(0). */
  lemma SimilarityOfCoincidentPoints(x: Mat, d: nat, exp: real -> real, i: nat, j: nat)
    requires IsMatrix(x, |x|, d) && i < |x| && j < |x| && i != j && x[i] == x[j]
    ensures Similarity(x, d, exp)[i][j] == exp(0.0)
  {
    SquaredDistanceSelf(x[i], d);
  }

  /** Sum of the first `n` entries of a row, left to right. */
  function RowSum(row: seq<real>, n: nat): real
    requires n <= |row|
  {
    if n == 0 then 0.0 else RowSum(row, n - 1) + row[n - 1]
  }

  lemma {:induction false} RowSumNonNegative(row: seq<real>, n: nat)
    requires n <= |row|
    requires forall j :: 0 <= j < |row| ==> row[j] >= 0.0
    ensures RowSum(row, n) >= 0.0
  {
    if n > 0 {
      RowSumNonNegative(row, n - 1);
    }
  }

  /** The degree matrix of the rows x cols matrix `a`, in its shape: the
      sum of row i at (i, i), zero everywhere else. */
  function Degree(a: Mat, rows: nat, cols: nat): (dg: Mat)
    requires IsMatrix(a, rows, cols)
    ensures IsMatrix(dg, rows, cols)
  {
    seq(rows, i requires 0 <= i < rows => seq(cols, j requires 0 <= j < cols =>
      if i == j then RowSum(a[i], cols) else 0.0))
  }

  /** The degree matrix is diagonal, and non-negative when `a` is. */
  lemma DegreeShape(a: Mat, n: nat)
    requires IsMatrix(a, n, n)
    ensures Diagonal(Degree(a, n, n), n)
    ensures NonNegative(a) ==> NonNegative(Degree(a, n, n))
  {
    if NonNegative(a) {
      forall i | 0 <= i < n
        ensures RowSum(a[i], n) >= 0.0
      {
        RowSumNonNegative(a[i], n);
      }
    }
  }

  /** The factor a diagonal entry contributes after being raised to -1/2
      the way the diagonal power does it: zero stays zero. */
  function InvSqrt(x: real, pow: (real, real) -> real): real
  {
    if x != 0.0 then pow(x, -0.5) else 0.0
  }

  /** The normalised similarity as the reference pipeline computes it: D is
      raised to -1/2 on its diagonal, then W = (D' . A) . D'. */
  function Normalized(a: Mat, n: nat, pow: (real, real) -> real): (w: Mat)
    requires IsMatrix(a, n, n)
    ensures IsMatrix(w, n, n)
  {
    var p := DiagPowered(Degree(a, n, n), -0.5, pow);
    Product(Product(p, a, n), p, n)
  }

  /** D raised to -1/2 is diagonal, with InvSqrt of row i's sum at (i, i). */
  lemma PoweredDegree(a: Mat, n: nat, pow: (real, real) -> real)
    requires IsMatrix(a, n, n)
    ensures IsMatrix(DiagPowered(Degree(a, n, n), -0.5, pow), n, n)
    ensures Diagonal(DiagPowered(Degree(a, n, n), -0.5, pow), n)
    ensures forall i :: 0 <= i < n ==> DiagPowered(Degree(a, n, n), -0.5, pow)[i][i] == InvSqrt(RowSum(a[i], n), pow)
  {
    DegreeShape(a, n);
    DiagPoweredDiagonal(Degree(a, n, n), n, -0.5, pow);
  }

  /** Entry (i, j) of W is A[i][j] scaled by D[i][i]^-1/2 and D[j][j]^-1/2. */
  lemma NormalizedEntries(a: Mat, n: nat, pow: (real, real) -> real)
    requires IsMatrix(a, n, n)
    ensures forall i, j :: 0 <= i < n && 0 <= j < n ==>
      Normalized(a, n, pow)[i][j] == InvSqrt(RowSum(a[i], n), pow) * a[i][j] * InvSqrt(RowSum(a[j], n), pow)
  {
    PoweredDegree(a, n, pow);
    DiagonalScaling(DiagPowered(Degree(a, n, n), -0.5, pow), a, n);
  }

  /** W is symmetric whenever A is. */
  lemma NormalizedSymmetric(a: Mat, n: nat, pow: (real, real) -> real)
    requires IsMatrix(a, n, n) && Symmetric(a, n)
    ensures Symmetric(Normalized(a, n, pow), n)
  {
    PoweredDegree(a, n, pow);
    DiagonalScalingSymmetric(DiagPowered(Degree(a, n, n), -0.5, pow), a, n);
  }
}
