/** mat_utils.c: allocation, multiplication, transposition, in-place
    diagonal power and the printer's separator layout for the `Matrix`
    record. A `Matrix*` is an `array2?<real>` (its `rows` and `cols` are
    the two lengths, `cords` its entries); NULL is `null`. Whether an
    allocation request is met is the parameter `granted`; allocation is
    all-or-nothing. A freshly allocated buffer has arbitrary contents, as
    `malloc` gives. */
module MatUtils {
  import opened Matrices
  import opened Text

  /** allocate_matrix: a rows x cols buffer with unspecified contents, or
      null when storage cannot be obtained. */
  method AllocateMatrix(rows: nat, cols: nat, granted: bool) returns (m: array2?<real>)
    ensures (m != null) == granted
    ensures m != null ==> fresh(m) && m.Length0 == rows && m.Length1 == cols
  {
    if !granted {
      return null;
    }
    m := new real[rows, cols];
  }

  /** The innermost loop of matrix_mul: result->cords[i][j] +=
      A->cords[i][k] * B->cords[k][j] over k, the running entry kept in a
      local (the result buffer is fresh, so nothing aliases it). */
  method AddDot(s0: real, a: array2<real>, b: array2<real>, i: nat, j: nat) returns (s: real)
    requires a.Length1 == b.Length0 && i < a.Length0 && j < b.Length1
    ensures s == s0 + Dot(Cells(a), Cells(b), i, j, a.Length1)
  {
    ghost var A, B := Cells(a), Cells(b);
    s := s0;
    for k := 0 to a.Length1
      invariant s == s0 + Dot(A, B, i, j, k)
    {
      s := s + a[i, k] * b[k, j];
    }
  }

  /** The triple loop of matrix_mul: adds a . b onto whatever `r` holds,
      in row, column, inner-index order. */
  method Accumulate(r: array2<real>, a: array2<real>, b: array2<real>)
    requires r != a && r != b
    requires a.Length1 == b.Length0 && r.Length0 == a.Length0 && r.Length1 == b.Length1
    modifies r
    ensures Cells(r) == Plus(old(Cells(r)), Product(Cells(a), Cells(b), b.Length1), a.Length0, b.Length1)
  {
    ghost var start := Cells(r);
    ghost var A, B := Cells(a), Cells(b);
    ghost var P := Product(A, B, b.Length1);
    for i := 0 to a.Length0
      invariant forall i', j :: 0 <= i' < a.Length0 && 0 <= j < b.Length1 ==>
        r[i', j] == if i' < i then start[i'][j] + P[i'][j] else start[i'][j]
    {
      for j := 0 to b.Length1
        invariant forall i', j' :: 0 <= i' < a.Length0 && 0 <= j' < b.Length1 ==>
          r[i', j'] == if i' < i || (i' == i && j' < j) then start[i'][j'] + P[i'][j'] else start[i'][j']
      {
        var s := AddDot(r[i, j], a, b, i, j);
        r[i, j] := s;
      }
    }
    CellsAre(r, Plus(start, P, a.Length0, b.Length1));
  }

  /** matrix_mul exactly as written: the accumulator is a fresh `malloc`
      buffer that is never zeroed, so the result is its initial contents
      `start` plus the product. */
  method MatrixMulAsWritten(a: array2?<real>, b: array2?<real>, granted: bool) returns (r: array2?<real>, ghost start: Mat)
    ensures r == null <==> (a == null || b == null || a.Length1 != b.Length0 || !granted)
    ensures r != null ==> fresh(r) && r.Length0 == a.Length0 && r.Length1 == b.Length1
    ensures r != null ==> IsMatrix(start, a.Length0, b.Length1)
    ensures r != null ==> Cells(r) == Plus(start, Product(Cells(a), Cells(b), b.Length1), a.Length0, b.Length1)
  {
    start := [];
    if a == null || b == null || a.Length1 != b.Length0 {
      return null, start;
    }
    r := AllocateMatrix(a.Length0, b.Length1, granted);
    if r == null {
      return null, start;
    }
    start := Cells(r);
    Accumulate(r, a, b);
  }

  /** A non-zero starting buffer changes the product: with start [[1]] and
      the 1 x 1 operands [[0]] and [[0]], matrix_mul yields [[1]], not [[0]]. */
  lemma UnzeroedAccumulatorCounterexample()
    ensures Plus([[1.0]], Product([[0.0]], [[0.0]], 1), 1, 1) != Product([[0.0]], [[0.0]], 1)
  {
    var p := Product([[0.0]], [[0.0]], 1);
    assert p[0][0] == Dot([[0.0]], [[0.0]], 0, 0, 1) == 0.0;
    assert Plus([[1.0]], p, 1, 1)[0][0] == 1.0;
  }

  /** Starting from zero adds nothing: the intended accumulator. */
  lemma PlusZeros(p: Mat, rows: nat, cols: nat)
    requires IsMatrix(p, rows, cols)
    ensures Plus(Zeros(rows, cols), p, rows, cols) == p
  {
    var s := Plus(Zeros(rows, cols), p, rows, cols);
    forall i | 0 <= i < rows
      ensures s[i] == p[i]
    {
    }
  }

  /** matrix_mul as intended: null when an operand is null, the shapes do
      not conform or storage is refused; otherwise a fresh A.rows x B.cols
      buffer holding the product, accumulated from zero. */
  method MatrixMul(a: array2?<real>, b: array2?<real>, granted: bool) returns (r: array2?<real>)
    ensures r == null <==> (a == null || b == null || a.Length1 != b.Length0 || !granted)
    ensures r != null ==> fresh(r) && r.Length0 == a.Length0 && r.Length1 == b.Length1
    ensures r != null ==> Cells(r) == Product(Cells(a), Cells(b), b.Length1)
  {
    if a == null || b == null || a.Length1 != b.Length0 {
      return null;
    }
    r := AllocateMatrix(a.Length0, b.Length1, granted);
    if r == null {
      return null;
    }
    forall i, j | 0 <= i < r.Length0 && 0 <= j < r.Length1 {
      r[i, j] := 0.0;
    }
    CellsAre(r, Zeros(a.Length0, b.Length1));
    Accumulate(r, a, b);
    PlusZeros(Product(Cells(a), Cells(b), b.Length1), a.Length0, b.Length1);
  }

  /** diag_pow: each non-zero diagonal entry x becomes pow(x, power); the
      power is a C `int`, passed to `pow` as a double. Zero diagonal
      entries and every off-diagonal entry are left alone. */
  method DiagPow(x: array2<real>, power: int, pow: (real, real) -> real)
    requires x.Length0 <= x.Length1
    modifies x
    ensures Cells(x) == DiagPowered(old(Cells(x)), power as real, pow)
  {
    ghost var before := Cells(x);
    for i := 0 to x.Length0
      invariant forall i', j :: 0 <= i' < x.Length0 && 0 <= j < x.Length1 ==>
        x[i', j] == (if i' == j && i' < i && before[i'][j] != 0.0 then pow(before[i'][j], power as real) else before[i'][j])
    {
      if x[i, i] != 0.0 {
        x[i, i] := pow(x[i, i], power as real);
      }
    }
    CellsAre(x, DiagPowered(before, power as real, pow));
  }

  /** transpose: a fresh cols x rows buffer with T[j][i] = X[i][j], or null
      when storage is refused; X is not changed. */
  method Transpose(x: array2<real>, granted: bool) returns (t: array2?<real>)
    ensures (t != null) == granted
    ensures t != null ==> fresh(t) && Cells(t) == Transposed(Cells(x), x.Length1)
  {
    t := AllocateMatrix(x.Length1, x.Length0, granted);
    if t == null {
      return null;
    }
    for i := 0 to x.Length0
      invariant forall i', j :: 0 <= i' < i && 0 <= j < x.Length1 ==> t[j, i'] == x[i', j]
    {
      for j := 0 to x.Length1
        invariant forall i', j' :: 0 <= i' < i && 0 <= j' < x.Length1 ==> t[j', i'] == x[i', j']
        invariant forall j' :: 0 <= j' < j ==> t[j', i] == x[i, j']
      {
        t[j, i] := x[i, j];
      }
    }
    CellsAre(t, Transposed(Cells(x), x.Length1));
  }

  /** The printed form of each entry of a row. */
  function EntryTexts(row: seq<real>, fmt: real -> string): (ts: seq<string>)
    ensures |ts| == |row|
  {
    seq(|row|, j requires 0 <= j < |row| => fmt(row[j]))
  }

  /** Each row's entries joined by ','. */
  function RowTexts(m: Mat, fmt: real -> string): (ts: seq<string>)
    ensures |ts| == |m|
  {
    seq(|m|, i requires 0 <= i < |m| => Join(',', EntryTexts(m[i], fmt)))
  }

  /** print_matrix's output: rows joined by '\n' (none after the last
      row), entries joined by ',' (none after the last column). */
  function MatrixText(m: Mat, fmt: real -> string): string
  {
    Join('\n', RowTexts(m, fmt))
  }

  /** One step of a left-to-right join. */
  lemma JoinStep(sep: char, parts: seq<string>, j: nat)
    requires j < |parts|
    ensures Join(sep, parts[..j + 1]) == if j == 0 then parts[0] else Join(sep, parts[..j]) + [sep] + parts[j]
  {
    if j > 0 {
      assert parts[..j + 1][..j] == parts[..j];
    }
  }

  /** print_matrix, with `%.4f` abstracted as `fmt`: writes every entry,
      a ',' after every column but the last and a '\n' after every row but
      the last. */
  method PrintMatrix(x: array2<real>, fmt: real -> string) returns (out: string)
    ensures out == MatrixText(Cells(x), fmt)
  {
    ghost var M := Cells(x);
    ghost var R := RowTexts(M, fmt);
    out := "";
    for i := 0 to x.Length0
      invariant out == Join('\n', R[..i]) + (if 0 < i < x.Length0 then "\n" else "")
    {
      ghost var T := EntryTexts(M[i], fmt);
      var line := "";
      for j := 0 to x.Length1
        invariant line == Join(',', T[..j]) + (if 0 < j < x.Length1 then "," else "")
      {
        JoinStep(',', T, j);
        assert T[j] == fmt(x[i, j]);
        line := line + fmt(x[i, j]);
        if j != x.Length1 - 1 {
          line := line + ",";
        }
      }
      assert T[..x.Length1] == T;
      assert line == R[i];
      JoinStep('\n', R, i);
      out := out + line;
      if i != x.Length0 - 1 {
        out := out + "\n";
      }
    }
    assert R[..x.Length0] == R;
  }
}
