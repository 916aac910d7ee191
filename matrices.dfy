/** Pure view of the dense row-major matrices of mat_utils.c and of the
    reference matrix library: a matrix value is a sequence of rows over the
    reals. The buffers that the C code fills in place are `array2<real>`
    values; `Cells` reads such a buffer as a matrix value. */
module Matrices {

  type Mat = seq<seq<real>>

  /** `m` has `rows` rows of exactly `cols` entries each. */
  predicate IsMatrix(m: Mat, rows: nat, cols: nat)
  {
    |m| == rows && forall i :: 0 <= i < rows ==> |m[i]| == cols
  }

  /** The contents of a buffer, row by row. */
  function Cells(a: array2<real>): (m: Mat)
    reads a
    ensures IsMatrix(m, a.Length0, a.Length1)
    ensures forall i, j :: 0 <= i < a.Length0 && 0 <= j < a.Length1 ==> m[i][j] == a[i, j]
  {
    seq(a.Length0, i requires 0 <= i < a.Length0 reads a =>
      seq(a.Length1, j requires 0 <= j < a.Length1 reads a => a[i, j]))
  }

  /** A buffer whose entries agree with `m` holds `m`. */
  lemma CellsAre(a: array2<real>, m: Mat)
    requires IsMatrix(m, a.Length0, a.Length1)
    requires forall i, j :: 0 <= i < a.Length0 && 0 <= j < a.Length1 ==> a[i, j] == m[i][j]
    ensures Cells(a) == m
  {
    var c := Cells(a);
    forall i | 0 <= i < a.Length0
      ensures c[i] == m[i]
    {
    }
  }

  /** The square matrix `m` of order `n` is equal to its transpose. */
  predicate Symmetric(m: Mat, n: nat)
    requires IsMatrix(m, n, n)
  {
    forall i, j :: 0 <= i < n && 0 <= j < n ==> m[i][j] == m[j][i]
  }

  /** Every off-diagonal entry of the square matrix `m` is zero. */
  predicate Diagonal(m: Mat, n: nat)
    requires IsMatrix(m, n, n)
  {
    forall i, j :: 0 <= i < n && 0 <= j < n && i != j ==> m[i][j] == 0.0
  }

  /** Every entry of `m` is at least zero. */
  predicate NonNegative(m: Mat)
  {
    forall i, j :: 0 <= i < |m| && 0 <= j < |m[i]| ==> m[i][j] >= 0.0
  }

  /** The all-zero matrix. */
  function Zeros(rows: nat, cols: nat): (z: Mat)
    ensures IsMatrix(z, rows, cols)
    ensures forall i, j :: 0 <= i < rows && 0 <= j < cols ==> z[i][j] == 0.0
  {
    seq(rows, i => seq(cols, j => 0.0))
  }

  /** Entrywise sum of two matrices of the same shape. */
  function Plus(a: Mat, b: Mat, rows: nat, cols: nat): (s: Mat)
    requires IsMatrix(a, rows, cols) && IsMatrix(b, rows, cols)
    ensures IsMatrix(s, rows, cols)
  {
    seq(rows, i requires 0 <= i < rows => seq(cols, j requires 0 <= j < cols => a[i][j] + b[i][j]))
  }

  /** Row `i` of `a` times column `j` of `b` over the first `n` inner
      indices, accumulated from 0 in increasing inner index. */
  function Dot(a: Mat, b: Mat, i: nat, j: nat, n: nat): real
    requires i < |a| && n <= |a[i]| && n <= |b|
    requires forall k :: 0 <= k < n ==> j < |b[k]|
  {
    if n == 0 then 0.0 else Dot(a, b, i, j, n - 1) + a[i][n - 1] * b[n - 1][j]
  }

  /** The matrix product of `a` (with |b| columns) and `b` (with `cols`
      columns). */
  function Product(a: Mat, b: Mat, cols: nat): (p: Mat)
    requires IsMatrix(a, |a|, |b|) && IsMatrix(b, |b|, cols)
    ensures IsMatrix(p, |a|, cols)
    ensures forall i, j :: 0 <= i < |a| && 0 <= j < cols ==> p[i][j] == Dot(a, b, i, j, |b|)
  {
    seq(|a|, i requires 0 <= i < |a| => seq(cols, j requires 0 <= j < cols => Dot(a, b, i, j, |b|)))
  }

  /** The transpose of `a`, which has `cols` columns. */
  function Transposed(a: Mat, cols: nat): (t: Mat)
    requires IsMatrix(a, |a|, cols)
    ensures IsMatrix(t, cols, |a|)
    ensures forall i, j :: 0 <= i < cols && 0 <= j < |a| ==> t[i][j] == a[j][i]
  {
    seq(cols, i requires 0 <= i < cols => seq(|a|, j requires 0 <= j < |a| => a[j][i]))
  }

  /** Each non-zero entry on the main diagonal raised to `p` by `pow`; zero
      diagonal entries and all off-diagonal entries stay as they are. */
  function DiagPowered(m: Mat, p: real, pow: (real, real) -> real): (r: Mat)
    ensures |r| == |m|
    ensures forall i :: 0 <= i < |m| ==> |r[i]| == |m[i]|
  {
    seq(|m|, i requires 0 <= i < |m| =>
      seq(|m[i]|, j requires 0 <= j < |m[i]| =>
        if i == j && m[i][j] != 0.0 then pow(m[i][j], p) else m[i][j]))
  }

  /** Transposing twice gives back the original matrix. */
  lemma TransposeInvolution(a: Mat, cols: nat)
    requires IsMatrix(a, |a|, cols)
    ensures Transposed(Transposed(a, cols), |a|) == a
  {
    var t := Transposed(Transposed(a, cols), |a|);
    forall i | 0 <= i < |a|
      ensures t[i] == a[i]
    {
    }
  }

  /** The worked example [[1,2],[3,4]] . [[5,6],[7,8]] = [[19,22],[43,50]]. */
  lemma ProductExample()
    ensures Product([[1.0, 2.0], [3.0, 4.0]], [[5.0, 6.0], [7.0, 8.0]], 2) == [[19.0, 22.0], [43.0, 50.0]]
  {
    var a: Mat := [[1.0, 2.0], [3.0, 4.0]];
    var b: Mat := [[5.0, 6.0], [7.0, 8.0]];
    var p := Product(a, b, 2);
    assert Dot(a, b, 0, 0, 2) == 19.0;
    assert Dot(a, b, 0, 1, 2) == 22.0;
    assert Dot(a, b, 1, 0, 2) == 43.0;
    assert Dot(a, b, 1, 1, 2) == 50.0;
    assert p[0] == [19.0, 22.0];
    assert p[1] == [43.0, 50.0];
  }

  /** With a diagonal left factor only the term k == i survives. */
  lemma {:induction false} DotDiagonalLeft(d: Mat, a: Mat, n: nat, cols: nat, i: nat, j: nat, m: nat)
    requires IsMatrix(d, n, n) && Diagonal(d, n) && IsMatrix(a, n, cols)
    requires i < n && j < cols && m <= n
    ensures Dot(d, a, i, j, m) == if i < m then d[i][i] * a[i][j] else 0.0
  {
    if m > 0 {
      DotDiagonalLeft(d, a, n, cols, i, j, m - 1);
    }
  }

  /** With a diagonal right factor only the term k == j survives. */
  lemma {:induction false} DotDiagonalRight(a: Mat, d: Mat, n: nat, i: nat, j: nat, m: nat)
    requires IsMatrix(d, n, n) && Diagonal(d, n) && IsMatrix(a, |a|, n)
    requires i < |a| && j < n && m <= n
    ensures Dot(a, d, i, j, m) == if j < m then a[i][j] * d[j][j] else 0.0
  {
    if m > 0 {
      DotDiagonalRight(a, d, n, i, j, m - 1);
    }
  }

  /** Multiplying by a diagonal matrix on both sides scales entry (i, j) by
      the i-th and the j-th diagonal entries: (P.A).P = [p_ii a_ij p_jj]. */
  lemma DiagonalScaling(p: Mat, a: Mat, n: nat)
    requires IsMatrix(p, n, n) && Diagonal(p, n) && IsMatrix(a, n, n)
    ensures forall i, j :: 0 <= i < n && 0 <= j < n ==>
      Product(Product(p, a, n), p, n)[i][j] == p[i][i] * a[i][j] * p[j][j]
  {
    var left := Product(p, a, n);
    forall i, j | 0 <= i < n && 0 <= j < n
      ensures Product(left, p, n)[i][j] == p[i][i] * a[i][j] * p[j][j]
    {
      DotDiagonalLeft(p, a, n, n, i, j, n);
      DotDiagonalRight(left, p, n, i, j, n);
    }
  }

  /** Each raised diagonal stays diagonal. */
  lemma DiagPoweredDiagonal(m: Mat, n: nat, p: real, pow: (real, real) -> real)
    requires IsMatrix(m, n, n) && Diagonal(m, n)
    ensures IsMatrix(DiagPowered(m, p, pow), n, n) && Diagonal(DiagPowered(m, p, pow), n)
  {
  }

  /** A symmetric matrix scaled on both sides by the same diagonal matrix is
      symmetric. */
  lemma DiagonalScalingSymmetric(p: Mat, a: Mat, n: nat)
    requires IsMatrix(p, n, n) && Diagonal(p, n) && IsMatrix(a, n, n) && Symmetric(a, n)
    ensures Symmetric(Product(Product(p, a, n), p, n), n)
  {
    DiagonalScaling(p, a, n);
  }

  /** A sum of products of non-negative entries is non-negative. */
  lemma {:induction false} DotNonNegative(a: Mat, b: Mat, i: nat, j: nat, n: nat)
    requires i < |a| && n <= |a[i]| && n <= |b|
    requires forall k :: 0 <= k < n ==> j < |b[k]|
    requires NonNegative(a) && NonNegative(b)
    ensures Dot(a, b, i, j, n) >= 0.0
  {
    if n > 0 {
      DotNonNegative(a, b, i, j, n - 1);
      assert a[i][n - 1] >= 0.0 && b[n - 1][j] >= 0.0;
    }
  }

  /** The product of non-negative matrices is non-negative. */
  lemma ProductNonNegative(a: Mat, b: Mat, cols: nat)
    requires IsMatrix(a, |a|, |b|) && IsMatrix(b, |b|, cols)
    requires NonNegative(a) && NonNegative(b)
    ensures NonNegative(Product(a, b, cols))
  {
    forall i, j | 0 <= i < |a| && 0 <= j < cols
      ensures Dot(a, b, i, j, |b|) >= 0.0
    {
      DotNonNegative(a, b, i, j, |b|);
    }
  }
}
