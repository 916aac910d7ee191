/** reference/symnmf.c: the graph matrices sym, ddg and norm over the
    matrix library, and the SymNMF factorisation loop calc_symnmf_python
    with its update and convergence helpers. Matrices are `array2?<real>`
    buffers, NULL is `null`, and whether each allocation succeeds is a
    parameter. */
module SymNmf {
  import opened Matrices
  import opened Graph
  import MatUtils
  import opened MatrixHelpers
  import opened Factorization
  import opened Wrappers

  /** calc_sym: NULL for a NULL input or refused storage; otherwise a
      fresh N x N matrix with 0 on the diagonal, exp(-0.5 * squared
      distance) above it, and below it a copy of the mirror entry. */
  method CalcSym(inp: array2?<real>, exp: real -> real, granted: bool) returns (sym: array2?<real>)
    ensures sym == null <==> (inp == null || !granted)
    ensures sym != null ==> fresh(sym) && Cells(sym) == Similarity(Cells(inp), inp.Length1, exp)
  {
    if inp == null {
      return null;
    }
    sym := MatUtils.AllocateMatrix(inp.Length0, inp.Length0, granted);
    if sym == null {
      return null;
    }
    var n := inp.Length0;
    ghost var S := Similarity(Cells(inp), inp.Length1, exp);
    SimilaritySymmetric(Cells(inp), inp.Length1, exp);
    for i := 0 to n
      invariant forall i', j :: 0 <= i' < i && 0 <= j < n ==> sym[i', j] == S[i'][j]
    {
      for j := 0 to n
        invariant forall i', j' :: 0 <= i' < i && 0 <= j' < n ==> sym[i', j'] == S[i'][j']
        invariant forall j' :: 0 <= j' < j ==> sym[i, j'] == S[i][j']
      {
        if i == j {
          sym[i, j] := 0.0;
        } else if i < j {
          var d := CalcSquaredDistanceTwoVectors(inp, i, j);
          sym[i, j] := exp(-0.5 * d);
        } else {
          // row j is complete, and S[j][i] == S[i][j]
          sym[i, j] := sym[j, i];
        }
      }
    }
    CellsAre(sym, S);
  }

  /** calc_ddg: NULL for a NULL input or refused storage; otherwise a
      fresh matrix of the input's shape with the row sums on the diagonal
      and 0 everywhere else. */
  method CalcDdg(sym: array2?<real>, granted: bool) returns (ddg: array2?<real>)
    ensures ddg == null <==> (sym == null || !granted)
    ensures ddg != null ==> fresh(ddg) && ddg.Length0 == sym.Length0 && ddg.Length1 == sym.Length1
    ensures ddg != null ==> Cells(ddg) == Degree(Cells(sym), sym.Length0, sym.Length1)
  {
    if sym == null {
      return null;
    }
    ddg := MatUtils.AllocateMatrix(sym.Length0, sym.Length1, granted);
    if ddg == null {
      return null;
    }
    ghost var G := Degree(Cells(sym), sym.Length0, sym.Length1);
    for i := 0 to ddg.Length0
      invariant forall i', j :: 0 <= i' < i && 0 <= j < ddg.Length1 ==> ddg[i', j] == G[i'][j]
    {
      for j := 0 to ddg.Length1
        invariant forall i', j' :: 0 <= i' < i && 0 <= j' < ddg.Length1 ==> ddg[i', j'] == G[i'][j']
        invariant forall j' :: 0 <= j' < j ==> ddg[i, j'] == G[i][j']
      {
        if i == j {
          var sum := GetSumOfArray(Cells(sym)[i], sym.Length1);
          ddg[i, j] := sum;
        } else {
          ddg[i, j] := 0.0;
        }
      }
    }
    CellsAre(ddg, G);
  }

  /** calc_norm: D from calc_ddg, its diagonal raised in place to D_POWER
      = -0.5, then (D' . A) . D'. NULL when the input is NULL, when it is
      not square (the products do not conform) or when any of the three
      allocations is refused. */
  method CalcNorm(sym: array2?<real>, pow: (real, real) -> real, grantDdg: bool, grantFirst: bool, grantNorm: bool)
    returns (norm: array2?<real>)
    ensures norm == null <==> (sym == null || sym.Length0 != sym.Length1 || !grantDdg || !grantFirst || !grantNorm)
    ensures norm != null ==> fresh(norm) && Cells(norm) == Normalized(Cells(sym), sym.Length0, pow)
  {
    var ddg := CalcDdg(sym, grantDdg);
    DiagMatrixToPowerOf(ddg, -0.5, pow);
    var first := MatrixMultiply(ddg, sym, grantFirst);
    norm := MatrixMultiply(first, ddg, grantNorm);
  }

  /** update_h_by_rule: 0 when a matrix is NULL; otherwise it writes
      h_next entry by entry in row-major order and returns 0 at the first
      zero denominator, 1 when there is none. */
  method UpdateHByRule(hNext: array2?<real>, hCurr: array2?<real>, whMat: array2?<real>, hhThMat: array2?<real>)
    returns (status: int)
    requires hNext != null && hCurr != null && whMat != null && hhThMat != null ==>
      hCurr.Length0 == whMat.Length0 == hhThMat.Length0 == hNext.Length0 &&
      hCurr.Length1 == whMat.Length1 == hhThMat.Length1 == hNext.Length1
    requires hNext != null ==> hNext != hCurr && hNext != whMat && hNext != hhThMat
    modifies hNext
    ensures status == 0 || status == 1
    ensures (hNext == null || hCurr == null || whMat == null || hhThMat == null) ==> status == 0
    ensures hNext != null && (hCurr == null || whMat == null || hhThMat == null) ==> Cells(hNext) == old(Cells(hNext))
    ensures hNext != null && hCurr != null && whMat != null && hhThMat != null ==>
      Cells(hNext) == Updated(old(Cells(hNext)), Cells(hCurr), Cells(whMat), Cells(hhThMat), hNext.Length0, hNext.Length1) &&
      (status == 1 <==> AllNonZero(Cells(hhThMat), hNext.Length0, hNext.Length1))
  {
    if hNext == null || hCurr == null || whMat == null || hhThMat == null {
      return 0;
    }
    var rows, cols := hNext.Length0, hNext.Length1;
    ghost var N, C, WHm, D := Cells(hNext), Cells(hCurr), Cells(whMat), Cells(hhThMat);
    for i := 0 to rows
      invariant forall r, c :: 0 <= r < i && 0 <= c < cols ==> D[r][c] != 0.0
      invariant forall r, c :: 0 <= r < rows && 0 <= c < cols ==>
        hNext[r, c] == if r < i then Rule(C[r][c], WHm[r][c], D[r][c]) else N[r][c]
    {
      for j := 0 to cols
        invariant forall r, c :: 0 <= r < i && 0 <= c < cols ==> D[r][c] != 0.0
        invariant forall c :: 0 <= c < j ==> D[i][c] != 0.0
        invariant forall r, c :: 0 <= r < rows && 0 <= c < cols ==>
          hNext[r, c] == if Before(r, c, i, j) then Rule(C[r][c], WHm[r][c], D[r][c]) else N[r][c]
      {
        if hhThMat[i, j] == 0.0 {
          UpdatedStopsAtFirstZero(N, C, WHm, D, rows, cols, i, j);
          CellsAre(hNext, Updated(N, C, WHm, D, rows, cols));
          return 0;
        }
        hNext[i, j] := hCurr[i, j] * (1.0 - Beta + Beta * (whMat[i, j] / hhThMat[i, j]));
      }
    }
    UpdatedComplete(N, C, WHm, D, rows, cols);
    CellsAre(hNext, Updated(N, C, WHm, D, rows, cols));
    return 1;
  }

  /** get_squared_frob_norm_of_difference: -1.0 when the shapes differ,
      otherwise the sum over all entries of the squared difference. */
  method GetSquaredFrobNormOfDifference(hNext: array2<real>, hCurr: array2<real>) returns (sum: real)
    ensures (hNext.Length0 != hCurr.Length0 || hNext.Length1 != hCurr.Length1) ==> sum == -1.0
    ensures hNext.Length0 == hCurr.Length0 && hNext.Length1 == hCurr.Length1 ==>
      sum == SqFrob(Cells(hNext), Cells(hCurr), hNext.Length0, hNext.Length1)
  {
    if hNext.Length0 != hCurr.Length0 || hNext.Length1 != hCurr.Length1 {
      return -1.0;
    }
    ghost var A, B := Cells(hNext), Cells(hCurr);
    sum := 0.0;
    for i := 0 to hNext.Length0
      invariant sum == SqFrob(A, B, i, hNext.Length1)
    {
      for j := 0 to hNext.Length1
        invariant sum == SqFrob(A, B, i, hNext.Length1) + SquaredDistance(A[i], B[i], j)
      {
        sum := sum + (hNext[i, j] - hCurr[i, j]) * (hNext[i, j] - hCurr[i, j]);
      }
    }
  }

  /** converged: the squared distance is below EPSILON, which a shape
      mismatch (-1.0) also is. */
  method Converged(hNext: array2<real>, hCurr: array2<real>) returns (c: bool)
    ensures c <==> (hNext.Length0 != hCurr.Length0 || hNext.Length1 != hCurr.Length1 ||
                    SqFrob(Cells(hNext), Cells(hCurr), hNext.Length0, hNext.Length1) < Epsilon)
  {
    var d := GetSquaredFrobNormOfDifference(hNext, hCurr);
    c := d < Epsilon;
  }

  /** All five buffers of calc_symnmf_python were obtained. */
  predicate AllGranted(grants: seq<bool>)
    requires |grants| == 5
  {
    grants[0] && grants[1] && grants[2] && grants[3] && grants[4]
  }

  /** The working buffers of calc_symnmf_python for an n x k estimate:
      each has its shape, and no two of them are the same buffer. hhT_mat
      may be missing (NULL); the pass then leaves hhTh_mat as it was. */
  predicate Workspace(hNext: array2<real>, hCurr: array2<real>, whMat: array2<real>, hhTMat: array2?<real>,
                      hhThMat: array2<real>, n: nat, k: nat)
  {
    hNext.Length0 == n && hNext.Length1 == k && hCurr.Length0 == n && hCurr.Length1 == k &&
    whMat.Length0 == n && whMat.Length1 == k && hhThMat.Length0 == n && hhThMat.Length1 == k &&
    hNext != hCurr && hNext != whMat && hNext != hhThMat &&
    hCurr != whMat && hCurr != hhThMat && whMat != hhThMat &&
    (hhTMat != null ==>
      hhTMat.Length0 == n && hhTMat.Length1 == n &&
      hhTMat != hNext && hhTMat != hCurr && hhTMat != whMat && hhTMat != hhThMat)
  }

  /** The denominators a pass divides by: computed from h_curr when hhT_mat
      is there (`stale` is None), and otherwise the contents `stale` that
      hhTh_mat keeps throughout. */
  ghost predicate Denominating(hhTMat: array2?<real>, hhThMat: array2<real>, stale: Option<Mat>)
    reads hhThMat
  {
    (hhTMat == null <==> stale.Some?) && (stale.Some? ==> Cells(hhThMat) == stale.value)
  }

  /** The state at the head of the loop of calc_symnmf_python after
      `iterations` passes: h_next holds `next` and h_curr holds `curr`,
      and the run from there ends in `target`. */
  ghost predicate Tracking(w: array2<real>, hNext: array2<real>, hCurr: array2<real>, whMat: array2<real>,
                           hhTMat: array2?<real>, hhThMat: array2<real>, n: nat, k: nat, iterations: nat,
                           wm: Mat, stale: Option<Mat>, next: Mat, curr: Mat, target: Outcome)
    reads w, hNext, hCurr, hhThMat
  {
    w.Length0 == n && w.Length1 == n && iterations <= MaxIter &&
    Workspace(hNext, hCurr, whMat, hhTMat, hhThMat, n, k) &&
    hNext != w && hCurr != w && whMat != w && hhTMat != w && hhThMat != w &&
    Denominating(hhTMat, hhThMat, stale) &&
    Cells(w) == wm && Cells(hNext) == next && Cells(hCurr) == curr &&
    Run(next, curr, wm, stale, n, k, iterations) == target
  }

  /** The products and the update of one pass of the loop of
      calc_symnmf_python, then the convergence test. It is one step of Run:
      h_next receives the updated estimate; when the pass stops the loop
      that estimate is the run's outcome, and otherwise the run goes on from
      h_curr and the updated estimate. */
  method Pass(w: array2<real>, hNext: array2<real>, hCurr: array2<real>, whMat: array2<real>,
              hhTMat: array2?<real>, hhThMat: array2<real>, ghost n: nat, ghost k: nat, ghost iterations: nat,
              ghost wm: Mat, ghost stale: Option<Mat>, ghost next: Mat, ghost curr: Mat, ghost target: Outcome)
    returns (stop: bool, ghost updated: Mat)
    requires w.Length0 == n && w.Length1 == n && iterations < MaxIter
    requires Workspace(hNext, hCurr, whMat, hhTMat, hhThMat, n, k)
    requires hNext != w && whMat != w && hhTMat != w && hhThMat != w
    requires Denominating(hhTMat, hhThMat, stale)
    requires Cells(w) == wm && Cells(hNext) == next && Cells(hCurr) == curr
    requires Run(next, curr, wm, stale, n, k, iterations) == target
    modifies hNext, whMat, hhTMat, hhThMat
    ensures IsMatrix(updated, n, k) && Cells(hNext) == updated
    ensures Denominating(hhTMat, hhThMat, stale)
    ensures stop ==> updated == target.h
    ensures !stop ==> Run(curr, updated, wm, stale, n, k, iterations + 1) == target
  {
    MatrixMultiplyInPlace(whMat, w, hCurr, false, false);
    MatrixMultiplyInPlace(hhTMat, hCurr, hCurr, false, true);
    MatrixMultiplyInPlace(hhThMat, hhTMat, hCurr, false, false);
    OrientedCells(w, false);
    OrientedCells(hCurr, false);
    assert Cells(whMat) == WH(wm, curr, n, k);
    if hhTMat != null {
      OrientedCells(hCurr, true);
      OrientedCells(hhTMat, false);
      assert Cells(hhThMat) == HHtH(curr, n, k);
    }
    assert Cells(hhThMat) == Denominators(curr, stale, n, k);
    var status := UpdateHByRule(hNext, hCurr, whMat, hhThMat);
    updated := Cells(hNext);
    if status == 0 {
      return true, updated;
    }
    stop := Converged(hNext, hCurr);
  }

  /** The body of the loop of calc_symnmf_python: a pass and, when the loop
      goes on, the swap of the two estimate buffers. When it stops, h_next
      holds the estimate of the run's outcome; otherwise the swapped state
      is one pass further along the same run. */
  method Step(w: array2<real>, hNext: array2<real>, hCurr: array2<real>, whMat: array2<real>,
              hhTMat: array2?<real>, hhThMat: array2<real>, ghost n: nat, ghost k: nat, ghost iterations: nat,
              ghost wm: Mat, ghost stale: Option<Mat>, ghost next: Mat, ghost curr: Mat, ghost target: Outcome)
    returns (stop: bool, hNext': array2<real>, hCurr': array2<real>, ghost next': Mat, ghost curr': Mat)
    requires iterations < MaxIter
    requires Tracking(w, hNext, hCurr, whMat, hhTMat, hhThMat, n, k, iterations, wm, stale, next, curr, target)
    modifies hNext, whMat, hhTMat, hhThMat
    ensures stop ==> hNext' == hNext && Cells(hNext) == target.h
    ensures !stop ==> hNext' == hCurr && hCurr' == hNext
    ensures !stop ==> Tracking(w, hNext', hCurr', whMat, hhTMat, hhThMat, n, k, iterations + 1, wm, stale, next', curr', target)
  {
    ghost var updated;
    stop, updated := Pass(w, hNext, hCurr, whMat, hhTMat, hhThMat, n, k, iterations, wm, stale, next, curr, target);
    hNext', hCurr', next', curr' := hNext, hCurr, next, curr;
    if !stop {
      hNext', hCurr', next', curr' := hCurr, hNext, curr, updated;
    }
  }

  /** The loop of calc_symnmf_python: at most MAX_ITER passes; the result
      is the h_next of the last pass, which holds the estimate of Run from
      the initial contents of the two estimate buffers, with the
      denominators `stale` says. */
  method Iterate(w: array2<real>, hNext0: array2<real>, hCurr0: array2<real>, whMat: array2<real>,
                 hhTMat: array2?<real>, hhThMat: array2<real>, ghost n: nat, ghost k: nat, ghost stale: Option<Mat>)
    returns (r: array2<real>)
    requires w.Length0 == n && w.Length1 == n
    requires Workspace(hNext0, hCurr0, whMat, hhTMat, hhThMat, n, k)
    requires hNext0 != w && hCurr0 != w && whMat != w && hhTMat != w && hhThMat != w
    requires Denominating(hhTMat, hhThMat, stale)
    modifies hNext0, hCurr0, whMat, hhTMat, hhThMat
    ensures r == hNext0 || r == hCurr0
    ensures Cells(r) == Run(old(Cells(hNext0)), old(Cells(hCurr0)), Cells(w), stale, n, k, 0).h
  {
    ghost var wm, next, curr := Cells(w), Cells(hNext0), Cells(hCurr0);
    ghost var target := Run(next, curr, wm, stale, n, k, 0);
    var hNext, hCurr := hNext0, hCurr0;
    var iterations := 0;
    while iterations < MaxIter
      invariant (hNext == hNext0 && hCurr == hCurr0) || (hNext == hCurr0 && hCurr == hNext0)
      invariant w.Length0 == n && w.Length1 == n && iterations <= MaxIter
      invariant Workspace(hNext, hCurr, whMat, hhTMat, hhThMat, n, k)
      invariant hNext != w && hCurr != w && whMat != w && hhTMat != w && hhThMat != w
      invariant Denominating(hhTMat, hhThMat, stale)
      invariant Cells(w) == wm
      invariant Cells(hNext) == next
      invariant Cells(hCurr) == curr
      invariant Run(next, curr, wm, stale, n, k, iterations) == target
    {
      var stop;
      stop, hNext, hCurr, next, curr := Step(w, hNext, hCurr, whMat, hhTMat, hhThMat, n, k, iterations, wm, stale, next, curr, target);
      if stop {
        break;
      }
      iterations := iterations + 1;
    }
    r := hNext;
  }

  /** calc_symnmf_python as written: allocates h_next, copies H into h_curr
      and allocates the three work buffers (grants[0..5] say which of these
      five requests succeed), then runs the loop. With every buffer it
      returns the estimate of Run, started from h_next's initial contents
      `garbage`. When only hhT_mat is refused, no pass writes hhTh_mat, and
      the loop runs with its initial contents `stale` as denominators. When
      h_curr, wh_mat or hhTh_mat is refused, the first pass's
      update_h_by_rule fails and h_next comes back as it was allocated, or
      NULL when h_next itself was refused. */
  method CalcSymnmfPython(hInit: array2<real>, w: array2<real>, grants: seq<bool>)
    returns (r: array2?<real>, ghost garbage: Mat, ghost stale: Mat)
    requires |grants| == 5
    requires w.Length0 == w.Length1 == hInit.Length0
    ensures (r != null) == grants[0]
    ensures r != null ==> fresh(r) && r.Length0 == hInit.Length0 && r.Length1 == hInit.Length1
    ensures r != null ==> IsMatrix(garbage, hInit.Length0, hInit.Length1)
    ensures grants[4] ==> IsMatrix(stale, hInit.Length0, hInit.Length1)
    ensures AllGranted(grants) ==> Cells(r) == Run(garbage, Cells(hInit), Cells(w), None, hInit.Length0, hInit.Length1, 0).h
    ensures grants[0] && grants[1] && grants[2] && !grants[3] && grants[4] ==>
      Cells(r) == Run(garbage, Cells(hInit), Cells(w), Some(stale), hInit.Length0, hInit.Length1, 0).h
    ensures grants[0] && !(grants[1] && grants[2] && grants[4]) ==> Cells(r) == garbage
  {
    var n, k := hInit.Length0, hInit.Length1;
    var hNext := MatUtils.AllocateMatrix(n, k, grants[0]);
    var hCurr := CopyMatrix(hInit, grants[1]);
    var whMat := MatUtils.AllocateMatrix(n, k, grants[2]);
    var hhTMat := MatUtils.AllocateMatrix(n, n, grants[3]);
    var hhThMat := MatUtils.AllocateMatrix(n, k, grants[4]);
    garbage := if hNext != null then Cells(hNext) else [];
    stale := if hhThMat != null then Cells(hhThMat) else [];
    if hNext == null || hCurr == null || whMat == null || hhThMat == null {
      return hNext, garbage, stale;
    }
    r := Iterate(w, hNext, hCurr, whMat, hhTMat, hhThMat, n, k, if hhTMat == null then Some(stale) else None);
  }

  /** calc_symnmf_python as intended: a missing buffer of any of the five,
      hhT_mat included, ends the call before any pass, so that whatever it
      returns other than the unwritten h_next is the estimate of Run with
      denominators computed from h_curr on every pass. */
  method CalcSymnmfPythonCorrected(hInit: array2<real>, w: array2<real>, grants: seq<bool>)
    returns (r: array2?<real>, ghost garbage: Mat)
    requires |grants| == 5
    requires w.Length0 == w.Length1 == hInit.Length0
    ensures (r != null) == grants[0]
    ensures r != null ==> fresh(r) && r.Length0 == hInit.Length0 && r.Length1 == hInit.Length1
    ensures r != null ==> IsMatrix(garbage, hInit.Length0, hInit.Length1)
    ensures AllGranted(grants) ==> Cells(r) == Run(garbage, Cells(hInit), Cells(w), None, hInit.Length0, hInit.Length1, 0).h
    ensures grants[0] && !AllGranted(grants) ==> Cells(r) == garbage
  {
    var n, k := hInit.Length0, hInit.Length1;
    var hNext := MatUtils.AllocateMatrix(n, k, grants[0]);
    var hCurr := CopyMatrix(hInit, grants[1]);
    var whMat := MatUtils.AllocateMatrix(n, k, grants[2]);
    var hhTMat := MatUtils.AllocateMatrix(n, n, grants[3]);
    var hhThMat := MatUtils.AllocateMatrix(n, k, grants[4]);
    garbage := if hNext != null then Cells(hNext) else [];
    if hNext == null || hCurr == null || whMat == null || hhTMat == null || hhThMat == null {
      return hNext, garbage;
    }
    r := Iterate(w, hNext, hCurr, whMat, hhTMat, hhThMat, n, k, None);
  }
}
