/** The factorisation loop of reference/symnmf.c on matrix values: the
    multiplicative update rule, the update pass that stops at the first
    zero denominator, the squared Frobenius distance between successive
    estimates, and the capped iteration with its three ways to stop. H is
    n x k and W is n x n throughout. The loop as written is also modelled
    for a refused hhT_mat, where every pass divides by the unwritten
    contents of hhTh_mat. */
module Factorization {
  import opened Wrappers
  import opened Matrices
  import opened Graph

  /** BETA, EPSILON and MAX_ITER of reference/symnmf.c. */
  const Beta: real := 0.5
  const Epsilon: real := 0.0001
  const MaxIter: nat := 300

  /** The update of one entry: h * (1 - BETA + BETA * (wh / hhth)). */
  function Rule(h: real, wh: real, hhth: real): real
    requires hhth != 0.0
  {
    h * (1.0 - Beta + Beta * (wh / hhth))
  }

  /** Non-negative inputs and a positive denominator give a non-negative
      entry. */
  lemma RuleNonNegative(h: real, wh: real, hhth: real)
    requires h >= 0.0 && wh >= 0.0 && hhth > 0.0
    ensures Rule(h, wh, hhth) >= 0.0
  {
    var q := wh / hhth;
    assert q >= 0.0;
    var f := 1.0 - Beta + Beta * q;
    assert f > 0.0;
    assert Rule(h, wh, hhth) == h * f;
  }

  /** An entry whose numerator equals its denominator does not move. */
  lemma RuleFixed(h: real, x: real)
    requires x != 0.0
    ensures Rule(h, x, x) == h
  {
    assert x / x == 1.0;
  }

  /** W . H */
  function WH(w: Mat, h: Mat, n: nat, k: nat): (p: Mat)
    requires IsMatrix(w, n, n) && IsMatrix(h, n, k)
    ensures IsMatrix(p, n, k)
  {
    Product(w, h, k)
  }

  /** (H . H^T) . H */
  function HHtH(h: Mat, n: nat, k: nat): (p: Mat)
    requires IsMatrix(h, n, k)
    ensures IsMatrix(p, n, k)
  {
    Product(Product(h, Transposed(h, k), n), h, k)
  }

  /** Every entry of `d` is non-zero. */
  predicate AllNonZero(d: Mat, rows: nat, cols: nat)
    requires IsMatrix(d, rows, cols)
  {
    forall r, c :: 0 <= r < rows && 0 <= c < cols ==> d[r][c] != 0.0
  }

  /** (r, c) comes strictly before (i, j) in row-major order. */
  predicate Before(r: nat, c: nat, i: nat, j: nat)
  {
    r < i || (r == i && c < j)
  }

  /** Every entry of `d` up to and including (i, j), in row-major order, is
      non-zero. */
  predicate ClearThrough(d: Mat, rows: nat, cols: nat, i: nat, j: nat)
    requires IsMatrix(d, rows, cols)
  {
    forall r, c :: 0 <= r < rows && 0 <= c < cols && (Before(r, c, i, j) || (r == i && c == j)) ==> d[r][c] != 0.0
  }

  /** The rule applied to every entry. */
  function Applied(curr: Mat, wh: Mat, hhth: Mat, rows: nat, cols: nat): (u: Mat)
    requires IsMatrix(curr, rows, cols) && IsMatrix(wh, rows, cols) && IsMatrix(hhth, rows, cols)
    requires AllNonZero(hhth, rows, cols)
    ensures IsMatrix(u, rows, cols)
  {
    seq(rows, i requires 0 <= i < rows => seq(cols, j requires 0 <= j < cols =>
      Rule(curr[i][j], wh[i][j], hhth[i][j])))
  }

  /** What an update pass leaves in `next`: the rule at every entry up to
      the first zero denominator in row-major order, and the old contents
      from that entry on. */
  function Updated(next: Mat, curr: Mat, wh: Mat, hhth: Mat, rows: nat, cols: nat): (u: Mat)
    requires IsMatrix(next, rows, cols) && IsMatrix(curr, rows, cols)
    requires IsMatrix(wh, rows, cols) && IsMatrix(hhth, rows, cols)
    ensures IsMatrix(u, rows, cols)
  {
    seq(rows, i requires 0 <= i < rows => seq(cols, j requires 0 <= j < cols =>
      if ClearThrough(hhth, rows, cols, i, j) then Rule(curr[i][j], wh[i][j], hhth[i][j]) else next[i][j]))
  }

  /** A pass that meets no zero denominator applies the rule everywhere,
      whatever `next` held. */
  lemma UpdatedComplete(next: Mat, curr: Mat, wh: Mat, hhth: Mat, rows: nat, cols: nat)
    requires IsMatrix(next, rows, cols) && IsMatrix(curr, rows, cols)
    requires IsMatrix(wh, rows, cols) && IsMatrix(hhth, rows, cols)
    requires AllNonZero(hhth, rows, cols)
    ensures Updated(next, curr, wh, hhth, rows, cols) == Applied(curr, wh, hhth, rows, cols)
  {
    var u := Updated(next, curr, wh, hhth, rows, cols);
    var a := Applied(curr, wh, hhth, rows, cols);
    forall i | 0 <= i < rows
      ensures u[i] == a[i]
    {
      forall j | 0 <= j < cols
        ensures u[i][j] == a[i][j]
      {
        assert ClearThrough(hhth, rows, cols, i, j);
      }
    }
  }

  /** A pass that meets its first zero denominator at (i, j) has written
      every entry before (i, j) and left (i, j) and every later entry as
      they were. */
  lemma UpdatedStopsAtFirstZero(next: Mat, curr: Mat, wh: Mat, hhth: Mat, rows: nat, cols: nat, i: nat, j: nat)
    requires IsMatrix(next, rows, cols) && IsMatrix(curr, rows, cols)
    requires IsMatrix(wh, rows, cols) && IsMatrix(hhth, rows, cols)
    requires i < rows && j < cols && hhth[i][j] == 0.0
    requires forall r, c :: 0 <= r < rows && 0 <= c < cols && Before(r, c, i, j) ==> hhth[r][c] != 0.0
    ensures forall r, c :: 0 <= r < rows && 0 <= c < cols ==>
      Updated(next, curr, wh, hhth, rows, cols)[r][c] ==
        if Before(r, c, i, j) then Rule(curr[r][c], wh[r][c], hhth[r][c]) else next[r][c]
  {
    forall r, c | 0 <= r < rows && 0 <= c < cols
      ensures Updated(next, curr, wh, hhth, rows, cols)[r][c] ==
        if Before(r, c, i, j) then Rule(curr[r][c], wh[r][c], hhth[r][c]) else next[r][c]
    {
      if Before(r, c, i, j) {
        assert ClearThrough(hhth, rows, cols, r, c);
      } else {
        assert !ClearThrough(hhth, rows, cols, r, c) by {
          assert Before(i, j, r, c) || (r == i && c == j);
        }
      }
    }
  }

  /** Applying the rule to non-negative matrices with positive
      denominators gives a non-negative matrix. */
  lemma AppliedNonNegative(curr: Mat, wh: Mat, hhth: Mat, rows: nat, cols: nat)
    requires IsMatrix(curr, rows, cols) && IsMatrix(wh, rows, cols) && IsMatrix(hhth, rows, cols)
    requires AllNonZero(hhth, rows, cols)
    requires NonNegative(curr) && NonNegative(wh) && NonNegative(hhth)
    ensures NonNegative(Applied(curr, wh, hhth, rows, cols))
  {
    forall i, j | 0 <= i < rows && 0 <= j < cols
      ensures Applied(curr, wh, hhth, rows, cols)[i][j] >= 0.0
    {
      RuleNonNegative(curr[i][j], wh[i][j], hhth[i][j]);
    }
  }

  /** Sum over the first `m` rows of the squared differences of the first
      `cols` entries, row after row. */
  function SqFrob(a: Mat, b: Mat, m: nat, cols: nat): real
    requires m <= |a| && m <= |b|
    requires forall r :: 0 <= r < m ==> cols <= |a[r]| && cols <= |b[r]|
  {
    if m == 0 then 0.0 else SqFrob(a, b, m - 1, cols) + SquaredDistance(a[m - 1], b[m - 1], cols)
  }

  lemma {:induction false} SqFrobNonNegative(a: Mat, b: Mat, m: nat, cols: nat)
    requires m <= |a| && m <= |b|
    requires forall r :: 0 <= r < m ==> cols <= |a[r]| && cols <= |b[r]|
    ensures SqFrob(a, b, m, cols) >= 0.0
  {
    if m > 0 {
      SqFrobNonNegative(a, b, m - 1, cols);
      SquaredDistanceNonNegative(a[m - 1], b[m - 1], cols);
    }
  }

  lemma {:induction false} SqFrobSelf(a: Mat, m: nat, cols: nat)
    requires m <= |a|
    requires forall r :: 0 <= r < m ==> cols <= |a[r]|
    ensures SqFrob(a, a, m, cols) == 0.0
  {
    if m > 0 {
      SqFrobSelf(a, m - 1, cols);
      SquaredDistanceSelf(a[m - 1], cols);
    }
  }

  lemma {:induction false} SqFrobSymmetric(a: Mat, b: Mat, m: nat, cols: nat)
    requires m <= |a| && m <= |b|
    requires forall r :: 0 <= r < m ==> cols <= |a[r]| && cols <= |b[r]|
    ensures SqFrob(a, b, m, cols) == SqFrob(b, a, m, cols)
  {
    if m > 0 {
      SqFrobSymmetric(a, b, m - 1, cols);
      SquaredDistanceSymmetric(a[m - 1], b[m - 1], cols);
    }
  }

  /** How calc_symnmf_python stopped. */
  datatype Stop = Failed | Converged | CapReached

  /** The buffer it returns, how many update passes ran, and why it
      stopped. */
  datatype Outcome = Outcome(h: Mat, passes: nat, stop: Stop)

  /** A stale denominator matrix, when there is one, is n x k. */
  predicate StaleShape(stale: Option<Mat>, n: nat, k: nat)
  {
    stale.Some? ==> IsMatrix(stale.value, n, k)
  }

  /** The denominators a pass of calc_symnmf_python divides by:
      (H . H^T) . H of the estimate h_curr holds, or `stale`, the contents
      hhTh_mat was allocated with, when hhT_mat was refused: with hhT_mat
      NULL, matrix_multiply_in_place leaves hhTh_mat unwritten, and
      update_h_by_rule does not look at hhT_mat. */
  function Denominators(curr: Mat, stale: Option<Mat>, n: nat, k: nat): (d: Mat)
    requires IsMatrix(curr, n, k) && StaleShape(stale, n, k)
    ensures IsMatrix(d, n, k)
  {
    if stale.Some? then stale.value else HHtH(curr, n, k)
  }

  /** The loop of calc_symnmf_python as written, at its head after
      `iterations` passes, with h_next holding `next` and h_curr holding
      `curr`, and `stale` as in Denominators: after MAX_ITER passes the
      loop ends and h_next, which the last swap made the older estimate,
      is returned; otherwise the loop makes a pass. */
  function Run(next: Mat, curr: Mat, w: Mat, stale: Option<Mat>, n: nat, k: nat, iterations: nat): (o: Outcome)
    requires IsMatrix(next, n, k) && IsMatrix(curr, n, k) && IsMatrix(w, n, n) && StaleShape(stale, n, k)
    ensures IsMatrix(o.h, n, k)
    decreases MaxIter - iterations, 1
  {
    if iterations >= MaxIter then Outcome(next, iterations, CapReached)
    else Continue(next, curr, w, stale, n, k, iterations)
  }

  /** One pass of that loop: h_next is written from h_curr; a failed pass
      or a converged one stops with h_next; otherwise the buffers swap and
      the loop goes back to its head. */
  function Continue(next: Mat, curr: Mat, w: Mat, stale: Option<Mat>, n: nat, k: nat, iterations: nat): (o: Outcome)
    requires IsMatrix(next, n, k) && IsMatrix(curr, n, k) && IsMatrix(w, n, n) && StaleShape(stale, n, k)
    requires iterations < MaxIter
    ensures IsMatrix(o.h, n, k)
    decreases MaxIter - iterations, 0
  {
    var hhth := Denominators(curr, stale, n, k);
    var updated := NextEstimate(next, curr, w, stale, n, k);
    if !AllNonZero(hhth, n, k) then Outcome(updated, iterations + 1, Failed)
    else if SqFrob(updated, curr, n, k) < Epsilon then Outcome(updated, iterations + 1, Converged)
    else Run(curr, updated, w, stale, n, k, iterations + 1)
  }

  /** The outcome of the intended algorithm: no factor when a denominator
      is zero, otherwise the newest estimate. */
  datatype Estimate = Singular(passes: nat) | Factor(h: Mat, passes: nat, converged: bool)

  /** The intended iteration, from estimate `curr` after `iterations`
      passes: apply the rule; stop with the new estimate once it is within
      EPSILON of the last one or MAX_ITER passes have run; report failure
      when a denominator is zero. */
  function Factorize(curr: Mat, w: Mat, n: nat, k: nat, iterations: nat): (e: Estimate)
    requires IsMatrix(curr, n, k) && IsMatrix(w, n, n) && iterations < MaxIter
    ensures e.Factor? ==> IsMatrix(e.h, n, k)
    decreases MaxIter - iterations
  {
    var hhth := HHtH(curr, n, k);
    if !AllNonZero(hhth, n, k) then Singular(iterations + 1)
    else
      var s := Applied(curr, WH(w, curr, n, k), hhth, n, k);
      if SqFrob(s, curr, n, k) < Epsilon then Factor(s, iterations + 1, true)
      else if iterations + 1 == MaxIter then Factor(s, MaxIter, false)
      else Factorize(s, w, n, k, iterations + 1)
  }

  /** The estimate one pass writes from h_curr, with the denominators
      that pass divides by. */
  function NextEstimate(next: Mat, curr: Mat, w: Mat, stale: Option<Mat>, n: nat, k: nat): (u: Mat)
    requires IsMatrix(next, n, k) && IsMatrix(curr, n, k) && IsMatrix(w, n, n) && StaleShape(stale, n, k)
    ensures IsMatrix(u, n, k)
  {
    Updated(next, curr, WH(w, curr, n, k), Denominators(curr, stale, n, k), n, k)
  }

  /** One pass below the cap: the loop stops, failed or converged, with
      the next estimate after one more pass, or goes on from h_curr and
      that estimate. */
  lemma PassCases(next: Mat, curr: Mat, w: Mat, stale: Option<Mat>, n: nat, k: nat, iterations: nat)
    requires IsMatrix(next, n, k) && IsMatrix(curr, n, k) && IsMatrix(w, n, n) && StaleShape(stale, n, k)
    requires iterations < MaxIter
    ensures var o, u := Run(next, curr, w, stale, n, k, iterations), NextEstimate(next, curr, w, stale, n, k);
      o == Outcome(u, iterations + 1, Failed) || o == Outcome(u, iterations + 1, Converged) ||
      o == Run(curr, u, w, stale, n, k, iterations + 1)
  {
    assert Run(next, curr, w, stale, n, k, iterations) == Continue(next, curr, w, stale, n, k, iterations);
  }

  /** Once MAX_ITER passes have run the loop stops with h_next. */
  lemma RunAtCap(next: Mat, curr: Mat, w: Mat, stale: Option<Mat>, n: nat, k: nat, iterations: nat)
    requires IsMatrix(next, n, k) && IsMatrix(curr, n, k) && IsMatrix(w, n, n) && StaleShape(stale, n, k)
    requires MaxIter <= iterations
    ensures Run(next, curr, w, stale, n, k, iterations) == Outcome(next, iterations, CapReached)
  {
  }

  /** The loop runs at most MAX_ITER passes. */
  lemma {:induction false} RunBounds(next: Mat, curr: Mat, w: Mat, stale: Option<Mat>, n: nat, k: nat, iterations: nat)
    requires IsMatrix(next, n, k) && IsMatrix(curr, n, k) && IsMatrix(w, n, n) && StaleShape(stale, n, k) && iterations <= MaxIter
    ensures Run(next, curr, w, stale, n, k, iterations).passes <= MaxIter
    decreases MaxIter - iterations
  {
    if iterations < MaxIter {
      RunBounds(curr, NextEstimate(next, curr, w, stale, n, k), w, stale, n, k, iterations + 1);
      PassCases(next, curr, w, stale, n, k, iterations);
    } else {
      RunAtCap(next, curr, w, stale, n, k, iterations);
    }
  }

  /** From any state below the cap the loop makes at least one more
      pass. */
  lemma {:induction false} RunAdvances(next: Mat, curr: Mat, w: Mat, stale: Option<Mat>, n: nat, k: nat, iterations: nat)
    requires IsMatrix(next, n, k) && IsMatrix(curr, n, k) && IsMatrix(w, n, n) && StaleShape(stale, n, k) && iterations < MaxIter
    ensures iterations < Run(next, curr, w, stale, n, k, iterations).passes
    decreases MaxIter - iterations
  {
    var u := NextEstimate(next, curr, w, stale, n, k);
    if iterations + 1 < MaxIter {
      RunAdvances(curr, u, w, stale, n, k, iterations + 1);
    } else {
      RunAtCap(curr, u, w, stale, n, k, iterations + 1);
    }
    PassCases(next, curr, w, stale, n, k, iterations);
  }

  /** The cap stops the loop only after exactly MAX_ITER passes. */
  lemma {:induction false} RunCapped(next: Mat, curr: Mat, w: Mat, stale: Option<Mat>, n: nat, k: nat, iterations: nat)
    requires IsMatrix(next, n, k) && IsMatrix(curr, n, k) && IsMatrix(w, n, n) && StaleShape(stale, n, k) && iterations <= MaxIter
    ensures Run(next, curr, w, stale, n, k, iterations).stop == CapReached ==> Run(next, curr, w, stale, n, k, iterations).passes == MaxIter
    decreases MaxIter - iterations
  {
    if iterations < MaxIter {
      RunCapped(curr, NextEstimate(next, curr, w, stale, n, k), w, stale, n, k, iterations + 1);
      PassCases(next, curr, w, stale, n, k, iterations);
    } else {
      RunAtCap(next, curr, w, stale, n, k, iterations);
    }
  }

  /** As written against as intended, from any state below the cap: both
      fail on the same pass; on convergence both give the same estimate
      after the same number of passes; at the cap the returned buffer is
      the estimate of the previous pass, and the newest estimate, one rule
      application further and at least EPSILON away from it, is the one
      intended. */
  lemma {:induction false} RunVersusFactorize(next: Mat, curr: Mat, w: Mat, n: nat, k: nat, iterations: nat)
    requires IsMatrix(next, n, k) && IsMatrix(curr, n, k) && IsMatrix(w, n, n) && iterations < MaxIter
    ensures var o, e := Run(next, curr, w, None, n, k, iterations), Factorize(curr, w, n, k, iterations);
      (o.stop == Failed <==> e.Singular?) && (o.stop == Failed ==> o.passes == e.passes)
    ensures var o, e := Run(next, curr, w, None, n, k, iterations), Factorize(curr, w, n, k, iterations);
      o.stop == Converged <==> e.Factor? && e.converged
    ensures var o, e := Run(next, curr, w, None, n, k, iterations), Factorize(curr, w, n, k, iterations);
      o.stop == Converged ==> e == Factor(o.h, o.passes, true)
    ensures var o, e := Run(next, curr, w, None, n, k, iterations), Factorize(curr, w, n, k, iterations);
      o.stop == CapReached ==>
        e.Factor? && !e.converged && e.passes == o.passes == MaxIter &&
        AllNonZero(HHtH(o.h, n, k), n, k) &&
        e.h == Applied(o.h, WH(w, o.h, n, k), HHtH(o.h, n, k), n, k) &&
        SqFrob(e.h, o.h, n, k) >= Epsilon
    decreases MaxIter - iterations
  {
    assert Run(next, curr, w, None, n, k, iterations) == Continue(next, curr, w, None, n, k, iterations);
    var hhth := HHtH(curr, n, k);
    var updated := Updated(next, curr, WH(w, curr, n, k), hhth, n, k);
    if AllNonZero(hhth, n, k) {
      UpdatedComplete(next, curr, WH(w, curr, n, k), hhth, n, k);
      if SqFrob(updated, curr, n, k) >= Epsilon && iterations + 1 < MaxIter {
        RunVersusFactorize(curr, updated, w, n, k, iterations + 1);
      }
    }
  }

  /** From non-negative H and W, every estimate that the loop returns
      without failing is non-negative: entries of W . H are non-negative
      and the denominators, (H . H^T) . H or a non-negative stale matrix,
      positive wherever the pass succeeds. */
  lemma {:induction false} RunNonNegative(next: Mat, curr: Mat, w: Mat, stale: Option<Mat>, n: nat, k: nat, iterations: nat)
    requires IsMatrix(next, n, k) && IsMatrix(curr, n, k) && IsMatrix(w, n, n) && StaleShape(stale, n, k)
    requires NonNegative(curr) && NonNegative(w) && (iterations >= MaxIter ==> NonNegative(next))
    requires stale.Some? ==> NonNegative(stale.value)
    ensures Run(next, curr, w, stale, n, k, iterations).stop != Failed ==> NonNegative(Run(next, curr, w, stale, n, k, iterations).h)
    decreases MaxIter - iterations
  {
    if iterations < MaxIter {
      var hhth := Denominators(curr, stale, n, k);
      var wh := WH(w, curr, n, k);
      if AllNonZero(hhth, n, k) {
        ProductNonNegative(w, curr, k);
        if stale.None? {
          ProductNonNegative(curr, Transposed(curr, k), n);
          ProductNonNegative(Product(curr, Transposed(curr, k), n), curr, k);
        }
        UpdatedComplete(next, curr, wh, hhth, n, k);
        AppliedNonNegative(curr, wh, hhth, n, k);
        var updated := Updated(next, curr, wh, hhth, n, k);
        if SqFrob(updated, curr, n, k) >= Epsilon {
          RunNonNegative(curr, updated, w, stale, n, k, iterations + 1);
        }
      }
    }
  }

  /** At a fixed point of the rule (W . H equal to (H . H^T) . H with no
      zero entry) the next pass changes nothing and the loop stops there,
      converged, with H itself. */
  lemma FixedPointConverges(next: Mat, curr: Mat, w: Mat, n: nat, k: nat, iterations: nat)
    requires IsMatrix(next, n, k) && IsMatrix(curr, n, k) && IsMatrix(w, n, n) && iterations < MaxIter
    requires WH(w, curr, n, k) == HHtH(curr, n, k) && AllNonZero(HHtH(curr, n, k), n, k)
    ensures Run(next, curr, w, None, n, k, iterations) == Outcome(curr, iterations + 1, Converged)
  {
    var hhth := HHtH(curr, n, k);
    UpdatedComplete(next, curr, hhth, hhth, n, k);
    var a := Applied(curr, hhth, hhth, n, k);
    forall i | 0 <= i < n
      ensures a[i] == curr[i]
    {
      forall j | 0 <= j < k
        ensures a[i][j] == curr[i][j]
      {
        RuleFixed(curr[i][j], hhth[i][j]);
      }
    }
    assert a == curr;
    SqFrobSelf(curr, n, k);
  }

  /** A 1 x 1 matrix is the entry it holds. */
  lemma Single(m: Mat)
    requires IsMatrix(m, 1, 1)
    ensures m == [[m[0][0]]]
  {
    assert m[0] == [m[0][0]];
  }

  /** H = [[0]]: (H . H^T) . H is [[0]], so the first pass fails at once
      and the loop returns h_next as it was allocated, whatever it held,
      where the intended algorithm reports that there is no factor. */
  lemma SingularReturnsUnwrittenBuffer(garbage: Mat)
    requires IsMatrix(garbage, 1, 1)
    ensures Run(garbage, [[0.0]], [[0.0]], None, 1, 1, 0) == Outcome(garbage, 1, Failed)
    ensures Factorize([[0.0]], [[0.0]], 1, 1, 0) == Singular(1)
  {
    var h: Mat := [[0.0]];
    var hht := Product(h, Transposed(h, 1), 1);
    assert hht[0][0] == Dot(h, Transposed(h, 1), 0, 0, 1) == 0.0;
    Single(hht);
    var hhth := HHtH(h, 1, 1);
    assert hhth[0][0] == Dot(hht, h, 0, 0, 1) == 0.0;
    assert !AllNonZero(hhth, 1, 1);
    var u := Updated(garbage, h, WH([[0.0]], h, 1, 1), hhth, 1, 1);
    assert !ClearThrough(hhth, 1, 1, 0, 0);
    Single(u);
    Single(garbage);
  }

  /** The pass quantities of a 1 x 1 estimate [[x]] against W = [[w]]:
      W . H = [[w x]] and (H . H^T) . H = [[x x x]]. */
  lemma SinglePass(w: real, x: real)
    ensures WH([[w]], [[x]], 1, 1) == [[w * x]]
    ensures HHtH([[x]], 1, 1) == [[x * x * x]]
  {
    var h: Mat := [[x]];
    var t := Transposed(h, 1);
    Single(t);
    assert t == h;
    var hht := Product(h, h, 1);
    assert Dot(h, h, 0, 0, 1) == Dot(h, h, 0, 0, 0) + x * x;
    assert hht[0][0] == x * x;
    Single(hht);
    assert hht == [[x * x]];
    var hhth := Product(hht, h, 1);
    assert Dot(hht, h, 0, 0, 1) == Dot(hht, h, 0, 0, 0) + (x * x) * x;
    assert hhth[0][0] == x * x * x;
    Single(hhth);
    var wh := Product([[w]], h, 1);
    assert Dot([[w]], h, 0, 0, 1) == Dot([[w]], h, 0, 0, 0) + w * x;
    assert wh[0][0] == w * x;
    Single(wh);
  }

  /** W = [[-3]]: the rule sends [[s]], for s = 1 or s = -1, to [[-s]],
      moving the estimate by 4, so the loop never converges. */
  lemma OscillationPass(next: Mat, s: real)
    requires IsMatrix(next, 1, 1) && (s == 1.0 || s == -1.0)
    ensures AllNonZero(HHtH([[s]], 1, 1), 1, 1)
    ensures Updated(next, [[s]], WH([[-3.0]], [[s]], 1, 1), HHtH([[s]], 1, 1), 1, 1) == [[-s]]
    ensures Applied([[s]], WH([[-3.0]], [[s]], 1, 1), HHtH([[s]], 1, 1), 1, 1) == [[-s]]
    ensures SqFrob([[-s]], [[s]], 1, 1) == 4.0
  {
    SinglePass(-3.0, s);
    var wh: Mat := [[-3.0 * s]];
    var hhth: Mat := [[s * s * s]];
    assert s * s * s == s;
    assert Rule(s, -3.0 * s, s) == -s;
    assert ClearThrough(hhth, 1, 1, 0, 0);
    var u := Updated(next, [[s]], wh, hhth, 1, 1);
    Single(u);
    var a := Applied([[s]], wh, hhth, 1, 1);
    Single(a);
    assert SquaredDistance([-s], [s], 1) == (-s - s) * (-s - s) == 4.0;
  }

  /** The estimate after `t` passes of the oscillating run. */
  function Alternate(t: nat): Mat
  {
    if t % 2 == 0 then [[1.0]] else [[-1.0]]
  }

  lemma {:induction false} OscillationRun(t: nat)
    requires 1 <= t <= MaxIter
    ensures Run(Alternate(t + 1), Alternate(t), [[-3.0]], None, 1, 1, t) == Outcome([[-1.0]], MaxIter, CapReached)
    decreases MaxIter - t
  {
    if t < MaxIter {
      var s := if t % 2 == 0 then 1.0 else -1.0;
      assert Alternate(t) == [[s]] && Alternate(t + 1) == [[-s]] && Alternate(t + 2) == [[s]];
      OscillationPass(Alternate(t + 1), s);
      OscillationRun(t + 1);
    }
  }

  /** For H = [[1]] and W = [[-3]] the loop reaches the cap and returns
      [[-1]], the estimate after 299 passes. */
  lemma CapReturnsPreviousEstimate()
    ensures Run([[0.0]], [[1.0]], [[-3.0]], None, 1, 1, 0) == Outcome([[-1.0]], MaxIter, CapReached)
  {
    OscillationPass([[0.0]], 1.0);
    assert Alternate(1) == [[-1.0]] && Alternate(2) == [[1.0]];
    OscillationRun(1);
  }

  /** For the same input the intended result is [[1]], the estimate after
      the 300th pass. */
  lemma CapIntendedEstimate()
    ensures Factorize([[1.0]], [[-3.0]], 1, 1, 0) == Factor([[1.0]], MaxIter, false)
  {
    CapReturnsPreviousEstimate();
    RunVersusFactorize([[0.0]], [[1.0]], [[-3.0]], 1, 1, 0);
    OscillationPass([[-1.0]], -1.0);
  }

  /** A refused hhT_mat goes unnoticed: for H = [[1]] and W = [[1]], with
      hhTh_mat allocated holding [[1]] and h_next holding [[5]], the first
      pass divides by the unwritten [[1]], writes [[1]] into h_next and
      converges, so the unwritten [[5]] is not what comes back. */
  lemma StaleDenominatorsCounterexample()
    ensures Run([[5.0]], [[1.0]], [[1.0]], Some([[1.0]]), 1, 1, 0) == Outcome([[1.0]], 1, Converged)
  {
    var h: Mat := [[1.0]];
    var wh := WH([[1.0]], h, 1, 1);
    assert Dot([[1.0]], h, 0, 0, 1) == Dot([[1.0]], h, 0, 0, 0) + 1.0 * 1.0;
    Single(wh);
    assert wh == [[1.0]];
    assert Rule(1.0, 1.0, 1.0) == 1.0;
    assert ClearThrough([[1.0]], 1, 1, 0, 0);
    var u := Updated([[5.0]], h, wh, [[1.0]], 1, 1);
    Single(u);
    assert u == [[1.0]];
    assert SquaredDistance([1.0], [1.0], 1) == 0.0;
  }
}
