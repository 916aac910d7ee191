/** symnmf.c: the first draft of graph construction over raw `double **`
    buffers. Each constructor allocates its result (rows by `malloc` or
    `calloc`; a failed allocation is not checked there and is not
    modelled) and fills it in nested loops, without touching its inputs. */
module DraftSymNmf {
  import opened Matrices
  import opened Graph

  /** euclidean_distance: the loop sum of pow(x[i] - y[i], 2) over the
      first d coordinates, with pow(t, 2) taken as t * t. */
  method EuclideanDistance(x: seq<real>, y: seq<real>, d: nat) returns (sum: real)
    requires d <= |x| && d <= |y|
    ensures sum == SquaredDistance(x, y, d)
  {
    sum := 0.0;
    for i := 0 to d
      invariant sum == SquaredDistance(x, y, i)
    {
      sum := sum + (x[i] - y[i]) * (x[i] - y[i]);
    }
  }

  /** calculate_similarity_matrix: a `calloc`ed N x N matrix whose
      off-diagonal entries are exp(-dist(X[i], X[j]) / 2); the diagonal is
      skipped and so stays 0. */
  method CalculateSimilarityMatrix(x: array2<real>, exp: real -> real) returns (a: array2<real>)
    ensures fresh(a)
    ensures Cells(a) == Similarity(Cells(x), x.Length1, exp)
  {
    var n := x.Length0;
    ghost var S := Similarity(Cells(x), x.Length1, exp);
    a := new real[n, n]((i, j) => 0.0);
    for i := 0 to n
      invariant forall i', j :: 0 <= i' < n && 0 <= j < n ==> a[i', j] == if i' < i then S[i'][j] else 0.0
    {
      for j := 0 to n
        invariant forall i', j' :: 0 <= i' < n && 0 <= j' < n ==>
          a[i', j'] == if i' < i || (i' == i && j' < j) then S[i'][j'] else 0.0
      {
        if i != j {
          var dist := EuclideanDistance(Cells(x)[i], Cells(x)[j], x.Length1);
          assert -dist / 2.0 == -0.5 * dist;
          a[i, j] := exp(-dist / 2.0);
        }
      }
    }
    CellsAre(a, S);
  }

  /** calculate_diagonal_degree_matrix: a `calloc`ed matrix in which
      D[i][i] accumulates A[i][j] over j; every other entry stays 0. */
  method CalculateDiagonalDegreeMatrix(a: array2<real>) returns (dg: array2<real>)
    requires a.Length0 == a.Length1
    ensures fresh(dg)
    ensures Cells(dg) == Degree(Cells(a), a.Length0, a.Length0)
  {
    var n := a.Length0;
    ghost var A := Cells(a);
    ghost var G := Degree(A, n, n);
    dg := new real[n, n]((i, j) => 0.0);
    for i := 0 to n
      invariant forall i', j :: 0 <= i' < n && 0 <= j < n ==> dg[i', j] == if i' < i then G[i'][j] else 0.0
    {
      for j := 0 to n
        invariant dg[i, i] == RowSum(A[i], j)
        invariant forall i', j' :: 0 <= i' < n && 0 <= j' < n && (i' != i || j' != i) ==>
          dg[i', j'] == if i' < i then G[i'][j'] else 0.0
      {
        dg[i, i] := dg[i, i] + a[i, j];
      }
    }
    CellsAre(dg, G);
  }

  /** One entry of the draft's normalisation as written. */
  function SqrtEntry(x: real, di: real, dj: real, sqrt: real -> real): real
  {
    x * sqrt(di) * sqrt(dj)
  }

  /** One entry of the intended normalisation. */
  function InvSqrtEntry(x: real, di: real, dj: real, pow: (real, real) -> real): real
  {
    InvSqrt(di, pow) * x * InvSqrt(dj, pow)
  }

  /** The draft's normalisation as written: A[i][j] * sqrt(D[i][i]) *
      sqrt(D[j][j]). */
  function SqrtScaled(a: Mat, dg: Mat, n: nat, sqrt: real -> real): (w: Mat)
    requires IsMatrix(a, n, n) && IsMatrix(dg, n, n)
    ensures IsMatrix(w, n, n)
  {
    seq(n, i requires 0 <= i < n => seq(n, j requires 0 <= j < n =>
      SqrtEntry(a[i][j], dg[i][i], dg[j][j], sqrt)))
  }

  /** The normalisation W = D^-1/2 . A . D^-1/2 written entrywise: A[i][j]
      scaled by D[i][i]^-1/2 and D[j][j]^-1/2, zero diagonal entries of D
      giving factor 0 as in the reference pipeline. */
  function InvSqrtScaled(a: Mat, dg: Mat, n: nat, pow: (real, real) -> real): (w: Mat)
    requires IsMatrix(a, n, n) && IsMatrix(dg, n, n)
    ensures IsMatrix(w, n, n)
  {
    seq(n, i requires 0 <= i < n => seq(n, j requires 0 <= j < n =>
      InvSqrtEntry(a[i][j], dg[i][i], dg[j][j], pow)))
  }

  /** calculate_normalized_similarity exactly as written: it multiplies by
      sqrt(D) where D^-1/2 is meant. */
  method CalculateNormalizedSimilarity(a: array2<real>, dg: array2<real>, sqrt: real -> real) returns (w: array2<real>)
    requires a.Length0 == a.Length1 && dg.Length0 == dg.Length1 == a.Length0
    ensures fresh(w)
    ensures Cells(w) == SqrtScaled(Cells(a), Cells(dg), a.Length0, sqrt)
  {
    var n := a.Length0;
    w := new real[n, n];
    for i := 0 to n
      invariant forall i', j :: 0 <= i' < i && 0 <= j < n ==> w[i', j] == SqrtEntry(a[i', j], dg[i', i'], dg[j, j], sqrt)
    {
      for j := 0 to n
        invariant forall i', j' :: 0 <= i' < i && 0 <= j' < n ==> w[i', j'] == SqrtEntry(a[i', j'], dg[i', i'], dg[j', j'], sqrt)
        invariant forall j' :: 0 <= j' < j ==> w[i, j'] == SqrtEntry(a[i, j'], dg[i, i], dg[j', j'], sqrt)
      {
        w[i, j] := SqrtEntry(a[i, j], dg[i, i], dg[j, j], sqrt);
      }
    }
    CellsAre(w, SqrtScaled(Cells(a), Cells(dg), n, sqrt));
  }

  /** The same loop with the intended factors D[i][i]^-1/2 and D[j][j]^-1/2. */
  method CalculateNormalizedSimilarityCorrected(a: array2<real>, dg: array2<real>, pow: (real, real) -> real) returns (w: array2<real>)
    requires a.Length0 == a.Length1 && dg.Length0 == dg.Length1 == a.Length0
    ensures fresh(w)
    ensures Cells(w) == InvSqrtScaled(Cells(a), Cells(dg), a.Length0, pow)
  {
    var n := a.Length0;
    w := new real[n, n];
    for i := 0 to n
      invariant forall i', j :: 0 <= i' < i && 0 <= j < n ==> w[i', j] == InvSqrtEntry(a[i', j], dg[i', i'], dg[j, j], pow)
    {
      for j := 0 to n
        invariant forall i', j' :: 0 <= i' < i && 0 <= j' < n ==> w[i', j'] == InvSqrtEntry(a[i', j'], dg[i', i'], dg[j', j'], pow)
        invariant forall j' :: 0 <= j' < j ==> w[i, j'] == InvSqrtEntry(a[i, j'], dg[i, i], dg[j', j'], pow)
      {
        w[i, j] := InvSqrtEntry(a[i, j], dg[i, i], dg[j, j], pow);
      }
    }
    CellsAre(w, InvSqrtScaled(Cells(a), Cells(dg), n, pow));
  }

  /** Both normalisations keep symmetry: W is symmetric whenever A is. */
  lemma ScaledSymmetric(a: Mat, dg: Mat, n: nat, sqrt: real -> real, pow: (real, real) -> real)
    requires IsMatrix(a, n, n) && IsMatrix(dg, n, n) && Symmetric(a, n)
    ensures Symmetric(SqrtScaled(a, dg, n, sqrt), n)
    ensures Symmetric(InvSqrtScaled(a, dg, n, pow), n)
  {
    forall i, j | 0 <= i < n && 0 <= j < n
      ensures SqrtScaled(a, dg, n, sqrt)[i][j] == SqrtScaled(a, dg, n, sqrt)[j][i]
    {
      assert a[i][j] == a[j][i];
    }
  }

  /** The corrected draft computes exactly the reference pipeline's
      normalised matrix (D' . A) . D' when D is the degree matrix of A. */
  lemma CorrectedAgreesWithReference(a: Mat, n: nat, pow: (real, real) -> real)
    requires IsMatrix(a, n, n)
    ensures InvSqrtScaled(a, Degree(a, n, n), n, pow) == Normalized(a, n, pow)
  {
    NormalizedEntries(a, n, pow);
    var u := InvSqrtScaled(a, Degree(a, n, n), n, pow);
    var v := Normalized(a, n, pow);
    forall i | 0 <= i < n
      ensures u[i] == v[i]
    {
      forall j | 0 <= j < n
        ensures u[i][j] == v[i][j]
      {
        assert Degree(a, n, n)[i][i] == RowSum(a[i], n);
        assert Degree(a, n, n)[j][j] == RowSum(a[j], n);
      }
    }
  }

  /** The draft's sqrt factor differs from the intended one: for
      A = [[0,4],[4,0]] (degree 4 on both rows), with sqrt(4) = 2 and
      4^-1/2 = 1/2, the draft gives W[0][1] = 16 where 1 is intended. */
  lemma SqrtScaledCounterexample(sqrt: real -> real, pow: (real, real) -> real)
    requires sqrt(4.0) == 2.0 && pow(4.0, -0.5) == 0.5
    ensures SqrtScaled([[0.0, 4.0], [4.0, 0.0]], Degree([[0.0, 4.0], [4.0, 0.0]], 2, 2), 2, sqrt)[0][1] == 16.0
    ensures Normalized([[0.0, 4.0], [4.0, 0.0]], 2, pow)[0][1] == 1.0
  {
    var a: Mat := [[0.0, 4.0], [4.0, 0.0]];
    var dg := Degree(a, 2, 2);
    assert RowSum(a[0], 2) == 4.0;
    assert RowSum(a[1], 2) == 4.0;
    assert dg[0][0] == 4.0 && dg[1][1] == 4.0;
    NormalizedEntries(a, 2, pow);
  }
}
