/** The matrix-library helpers that reference/symnmf.c calls. Their source
    (matrix.c) is not part of this model; their behaviour is taken from the
    mat_utils.c counterparts and from what the call sites rely on. A NULL
    argument, or operands whose shapes do not conform, makes a helper do
    nothing or return NULL. Matrices are `array2?<real>` buffers as in
    MatUtils. */
module MatrixHelpers {
  import opened Matrices
  import opened Graph

  /** Rows of an operand as the multiplication reads it. */
  function RowsOf(a: array2<real>, transposed: bool): nat
  {
    if transposed then a.Length1 else a.Length0
  }

  /** Columns of an operand as the multiplication reads it. */
  function ColsOf(a: array2<real>, transposed: bool): nat
  {
    if transposed then a.Length0 else a.Length1
  }

  /** `dest` can receive op(a) . op(b). */
  predicate Conform(dest: array2<real>, a: array2<real>, b: array2<real>, transA: bool, transB: bool)
  {
    dest.Length0 == RowsOf(a, transA) && ColsOf(a, transA) == RowsOf(b, transB) && dest.Length1 == ColsOf(b, transB)
  }

  /** Entry (i, k) of op(a). */
  function Entry(a: array2<real>, i: nat, k: nat, transposed: bool): real
    requires i < RowsOf(a, transposed) && k < ColsOf(a, transposed)
    reads a
  {
    if transposed then a[k, i] else a[i, k]
  }

  /** An operand as the multiplication reads it: the buffer itself, or its
      transpose when its TRANSPOSED flag is set. */
  function Oriented(a: array2<real>, transposed: bool): (m: Mat)
    reads a
    ensures IsMatrix(m, RowsOf(a, transposed), ColsOf(a, transposed))
    ensures forall i, k :: 0 <= i < RowsOf(a, transposed) && 0 <= k < ColsOf(a, transposed) ==>
      m[i][k] == Entry(a, i, k, transposed)
  {
    seq(RowsOf(a, transposed), i requires 0 <= i < RowsOf(a, transposed) reads a =>
      seq(ColsOf(a, transposed), k requires 0 <= k < ColsOf(a, transposed) reads a => Entry(a, i, k, transposed)))
  }

  /** The oriented operand is the buffer's contents, or their transpose. */
  lemma OrientedCells(a: array2<real>, transposed: bool)
    ensures Oriented(a, transposed) == if transposed then Transposed(Cells(a), a.Length1) else Cells(a)
  {
    var m := Oriented(a, transposed);
    var c := if transposed then Transposed(Cells(a), a.Length1) else Cells(a);
    forall i | 0 <= i < |m|
      ensures m[i] == c[i]
    {
    }
  }

  /** The inner loop: row i of op(a) times column j of op(b), summed from
      zero in increasing inner index. */
  method OrientedDot(a: array2<real>, b: array2<real>, transA: bool, transB: bool, i: nat, j: nat) returns (s: real)
    requires ColsOf(a, transA) == RowsOf(b, transB) && i < RowsOf(a, transA) && j < ColsOf(b, transB)
    ensures s == Dot(Oriented(a, transA), Oriented(b, transB), i, j, ColsOf(a, transA))
  {
    ghost var A := Oriented(a, transA);
    ghost var B := Oriented(b, transB);
    s := 0.0;
    for k := 0 to ColsOf(a, transA)
      invariant s == Dot(A, B, i, j, k)
    {
      s := s + Entry(a, i, k, transA) * Entry(b, k, j, transB);
    }
  }

  /** The row and column loops of matrix_multiply_in_place on conforming
      operands. */
  method MultiplyOriented(dest: array2<real>, a: array2<real>, b: array2<real>, transA: bool, transB: bool)
    requires dest != a && dest != b && Conform(dest, a, b, transA, transB)
    modifies dest
    ensures Cells(dest) == Product(Oriented(a, transA), Oriented(b, transB), dest.Length1)
  {
    ghost var P := Product(Oriented(a, transA), Oriented(b, transB), dest.Length1);
    for i := 0 to dest.Length0
      invariant forall i', j :: 0 <= i' < i && 0 <= j < dest.Length1 ==> dest[i', j] == P[i'][j]
    {
      for j := 0 to dest.Length1
        invariant forall i', j' :: 0 <= i' < i && 0 <= j' < dest.Length1 ==> dest[i', j'] == P[i'][j']
        invariant forall j' :: 0 <= j' < j ==> dest[i, j'] == P[i][j']
      {
        var s := OrientedDot(a, b, transA, transB, i, j);
        dest[i, j] := s;
      }
    }
    CellsAre(dest, P);
  }

  /** matrix_multiply_in_place(dest, A, B, tA, tB): overwrites dest with
      op(A) . op(B), accumulated from zero in row, column, inner-index
      order; leaves dest alone when an argument is NULL or the shapes do
      not conform. */
  method MatrixMultiplyInPlace(dest: array2?<real>, a: array2?<real>, b: array2?<real>, transA: bool, transB: bool)
    requires dest != null ==> dest != a && dest != b
    modifies dest
    ensures dest != null && a != null && b != null && Conform(dest, a, b, transA, transB) ==>
      Cells(dest) == Product(Oriented(a, transA), Oriented(b, transB), dest.Length1)
    ensures dest != null && !(a != null && b != null && Conform(dest, a, b, transA, transB)) ==>
      Cells(dest) == old(Cells(dest))
  {
    if dest != null && a != null && b != null && Conform(dest, a, b, transA, transB) {
      MultiplyOriented(dest, a, b, transA, transB);
    }
  }

  /** matrix_multiply(A, B): NULL when an operand is NULL, the shapes do
      not conform or storage is refused; otherwise a fresh A.rows x B.cols
      buffer holding A . B. */
  method MatrixMultiply(a: array2?<real>, b: array2?<real>, granted: bool) returns (r: array2?<real>)
    ensures r == null <==> (a == null || b == null || a.Length1 != b.Length0 || !granted)
    ensures r != null ==> fresh(r) && r.Length0 == a.Length0 && r.Length1 == b.Length1
    ensures r != null ==> Cells(r) == Product(Cells(a), Cells(b), b.Length1)
  {
    if a == null || b == null || a.Length1 != b.Length0 || !granted {
      return null;
    }
    r := new real[a.Length0, b.Length1];
    MultiplyOriented(r, a, b, false, false);
    OrientedCells(a, false);
    OrientedCells(b, false);
  }

  /** copy_matrix: a fresh buffer with the same shape and entries, or NULL
      for a NULL argument or when storage is refused. */
  method CopyMatrix(a: array2?<real>, granted: bool) returns (c: array2?<real>)
    ensures c == null <==> (a == null || !granted)
    ensures c != null ==> fresh(c) && c.Length0 == a.Length0 && c.Length1 == a.Length1 && Cells(c) == Cells(a)
  {
    if a == null || !granted {
      return null;
    }
    c := new real[a.Length0, a.Length1];
    for i := 0 to a.Length0
      invariant forall i', j :: 0 <= i' < i && 0 <= j < a.Length1 ==> c[i', j] == a[i', j]
    {
      for j := 0 to a.Length1
        invariant forall i', j' :: 0 <= i' < i && 0 <= j' < a.Length1 ==> c[i', j'] == a[i', j']
        invariant forall j' :: 0 <= j' < j ==> c[i, j'] == a[i, j']
      {
        c[i, j] := a[i, j];
      }
    }
    CellsAre(c, Cells(a));
  }

  /** diag_matrix_to_power_of(X, p): like diag_pow, each non-zero diagonal
      entry x becomes pow(x, p), here with a `double` power; a NULL matrix
      is left alone. */
  method DiagMatrixToPowerOf(x: array2?<real>, p: real, pow: (real, real) -> real)
    modifies x
    ensures x != null ==> Cells(x) == DiagPowered(old(Cells(x)), p, pow)
  {
    if x == null {
      return;
    }
    ghost var before := Cells(x);
    var n := if x.Length0 <= x.Length1 then x.Length0 else x.Length1;
    for i := 0 to n
      invariant forall i', j :: 0 <= i' < x.Length0 && 0 <= j < x.Length1 ==>
        x[i', j] == (if i' == j && i' < i && before[i'][j] != 0.0 then pow(before[i'][j], p) else before[i'][j])
    {
      if x[i, i] != 0.0 {
        x[i, i] := pow(x[i, i], p);
      }
    }
    CellsAre(x, DiagPowered(before, p, pow));
  }

  /** get_sum_of_array(row, n): the sum of the first n entries, left to
      right. */
  method GetSumOfArray(row: seq<real>, n: nat) returns (s: real)
    requires n <= |row|
    ensures s == RowSum(row, n)
  {
    s := 0.0;
    for j := 0 to n
      invariant s == RowSum(row, j)
    {
      s := s + row[j];
    }
  }

  /** calc_squared_distance_two_vectors(x[i], x[j], d) over two rows of
      the points buffer: the loop sum of the squared coordinate
      differences. */
  method CalcSquaredDistanceTwoVectors(x: array2<real>, i: nat, j: nat) returns (s: real)
    requires i < x.Length0 && j < x.Length0
    ensures s == SquaredDistance(Cells(x)[i], Cells(x)[j], x.Length1)
  {
    ghost var X := Cells(x);
    s := 0.0;
    for c := 0 to x.Length1
      invariant s == SquaredDistance(X[i], X[j], c)
    {
      s := s + (x[i, c] - x[j, c]) * (x[i, c] - x[j, c]);
    }
  }
}
