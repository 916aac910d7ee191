# SymNMF in Dafny

A model of the SymNMF clustering project (symmetric non-negative matrix
factorisation) with proofs about it. The model follows the project's C
matrix pipeline and its Python drivers:

- dense matrix primitives (`mat_utils.c`);
- the first draft of graph construction (`symnmf.c`);
- the reference graph matrices and the multiplicative factorisation loop
  (`reference/symnmf.c`);
- the line reader and shape counter (`reference/file.c`);
- the k-means baseline (`reference/kmeans.py`);
- the hard clustering by row argmax and the Python row printer
  (`reference/symnmf.py`).

Arithmetic is over `real`. `exp`, `sqrt`, `pow`, the `%.4f` number
formatting and `np.linalg.norm` are function-typed parameters, so no
floating-point rounding enters any proof. Allocation that can fail is a
parameter too. Matrix allocation takes a `granted` flag and is
all-or-nothing. The line reader takes a byte `limit`, and any request above
it is refused. Matrices are `array2<real>` buffers; C's `NULL` is a null
`array2?`. The pure layer (`Matrices`) works on `seq<seq<real>>`, and
`Cells` reads a buffer into it.

Modules, one per source file where the source has one:

- `Matrices`: the matrix algebra the buffers are specified by (product,
  transpose, diagonal power, symmetry, diagonal scaling).
- `MatUtils`: `allocate_matrix`, `matrix_mul` (as written and as intended),
  `diag_pow`, `transpose` and `print_matrix`.
- `MatrixHelpers`: the `matrix.c` helpers that `reference/symnmf.c` calls.
  `matrix.c` is not part of this model, so their contracts are inferred
  from their call sites and from their `mat_utils.c` counterparts. This is
  an assumption of the model.
- `Graph`: the similarity, degree and normalised matrices on values.
- `DraftSymNmf`: the draft in `symnmf.c`.
- `Factorization`: the update rule, the squared Frobenius distance, and the
  factorisation loop on values, as written (`Run`) and as intended
  (`Factorize`).
- `SymNmf`: the reference C code, i.e. `calc_sym`, `calc_ddg`,
  `calc_norm`, `update_h_by_rule`, the convergence test and
  `calc_symnmf_python`. The loop swaps two buffer references each pass.
- `Text`, `FileReader`: joining and `strtok` tokens, and
  `custom_getline`/`count_rows_cols_in_file` over a character stream.
- `Lists`, `Wrappers`: list helpers (`index`, `remove`, `max`) and
  `Option`.
- `KMeans`: the classes `Point`, `Cluster` and `Kmeans`, with their
  membership lists updated in place.
- `SymNmfPy`: `parse_to_clusters` and `print_formatted_matrix`.

## Model

| member | source | states |
|---|---|---|
| Matrices.Product | mat_utils.c:64-70 | the product has |a| rows and `cols` columns; entry (i, j) is the dot product of row i of a and column j of b |
| Matrices.Transposed | mat_utils.c:88-92 | a cols x rows matrix with t[i][j] == a[j][i] |
| Matrices.TransposeInvolution | mat_utils.c:83-93 | transposing twice gives back the original matrix |
| Matrices.ProductExample | mat_utils.c:64-70 | [[1,2],[3,4]] . [[5,6],[7,8]] == [[19,22],[43,50]] |
| Matrices.DiagPowered | mat_utils.c:74-81 | same shape as the input; each non-zero diagonal entry becomes pow(x, p), every other entry is kept |
| Matrices.DiagPoweredDiagonal | reference/symnmf.c:106-107 | raising the diagonal of a diagonal matrix keeps it diagonal |
| Matrices.DiagonalScaling | reference/symnmf.c:107-109 | P . A . P with P diagonal scales A[i][j] by P[i][i] and P[j][j] |
| Matrices.DiagonalScalingSymmetric | reference/symnmf.c:103-113 | scaling a symmetric matrix on both sides by one diagonal matrix keeps it symmetric |
| Matrices.DotDiagonalLeft | reference/symnmf.c:108 | with a diagonal left factor only the term k == i of the dot product survives |
| Matrices.DotDiagonalRight | reference/symnmf.c:109 | with a diagonal right factor only the term k == j survives |
| Matrices.ProductNonNegative | reference/symnmf.c:135-137 | the product of non-negative matrices is non-negative |
| Matrices.DotNonNegative | reference/symnmf.c:135-137 | a dot product of non-negative entries is non-negative |
| Matrices.Zeros | mat_utils.c:60-67 | the all-zero rows x cols matrix |
| Matrices.Plus | mat_utils.c:67 | entrywise sum, of the same shape |
| MatUtils.AllocateMatrix | mat_utils.c:33-54 | null exactly when storage is refused; otherwise a fresh buffer of the requested rows and cols |
| MatUtils.AddDot | mat_utils.c:66-68 | the inner loop adds the dot product of row i of A with column j of B onto the entry it starts from |
| MatUtils.Accumulate | mat_utils.c:64-70 | the triple loop adds a . b onto whatever the result buffer held |
| MatUtils.MatrixMulAsWritten | mat_utils.c:56-72 | null iff an operand is null, A.cols != B.rows or storage is refused; otherwise an A.rows x B.cols buffer holding start + A . B for an unspecified start |
| MatUtils.UnzeroedAccumulatorCounterexample | mat_utils.c:60-67 | with start [[1]], [[0]] . [[0]] does not give the product [[0]] |
| MatUtils.PlusZeros | mat_utils.c:60-67 | starting from zero adds nothing: 0 + P == P |
| MatUtils.MatrixMul | mat_utils.c:56-72 | the same NULL cases and shape; on success the buffer holds exactly A . B |
| MatUtils.DiagPow | mat_utils.c:74-81 | in place: the buffer becomes DiagPowered of its old contents with the int power |
| MatUtils.Transpose | mat_utils.c:83-94 | null exactly when storage is refused; otherwise a fresh buffer holding the transpose |
| MatUtils.PrintMatrix | mat_utils.c:96-108 | the output is the rows joined by '\n' and each row's entries joined by ',': no ',' after the last column, no '\n' after the last row |
| Text.TokensOfJoin | reference/file.c:63-69 | the strtok tokens of non-empty, comma-free pieces joined by ',' are those pieces |
| Graph.SquaredDistanceNonNegative | symnmf.c:36-43 | the squared distance is at least 0 |
| Graph.SquaredDistanceSymmetric | symnmf.c:36-43 | the squared distance is symmetric in its two points |
| Graph.SquaredDistanceSelf | symnmf.c:36-43 | the squared distance of a point to itself is 0 |
| Graph.Similarity | reference/symnmf.c:50-67 | an n x n matrix for n points |
| Graph.SimilaritySymmetric | reference/symnmf.c:54-65 | the similarity matrix is symmetric with a zero diagonal |
| Graph.SimilarityBounds | reference/symnmf.c:60 | when exp is positive and at most 1 on non-positive arguments, off-diagonal entries lie in (0, 1] and the matrix is non-negative |
| Graph.SimilarityOfCoincidentPoints | reference/symnmf.c:60 | two distinct points at the same place have similarity exp(0) |
| Graph.RowSumNonNegative | reference/symnmf.c:91 | the row sum of a non-negative row is non-negative |
| Graph.Degree | reference/symnmf.c:85-98 | the degree matrix has the shape of its input |
| Graph.DegreeShape | reference/symnmf.c:85-98 | the degree matrix is diagonal, and non-negative when its input is |
| Graph.Normalized | reference/symnmf.c:103-113 | the normalised matrix is n x n |
| Graph.PoweredDegree | reference/symnmf.c:106-107 | the degree matrix raised to -1/2 is diagonal, with f(row sum i) at (i, i), where f is pow(., -0.5) except at 0 |
| Graph.NormalizedEntries | reference/symnmf.c:103-113 | W[i][j] == A[i][j] * f(D[i][i]) * f(D[j][j]) |
| Graph.NormalizedSymmetric | reference/symnmf.c:103-113 | W is symmetric whenever A is |
| DraftSymNmf.EuclideanDistance | symnmf.c:36-43 | the loop returns the sum of squared coordinate differences |
| DraftSymNmf.CalculateSimilarityMatrix | symnmf.c:46-58 | a fresh buffer holding the similarity matrix (zero diagonal from calloc) |
| DraftSymNmf.CalculateDiagonalDegreeMatrix | symnmf.c:61-71 | a fresh buffer holding the degree matrix |
| DraftSymNmf.SqrtScaled | symnmf.c:80 | the normalisation as written is n x n |
| DraftSymNmf.InvSqrtScaled | symnmf.c:80 | the intended normalisation is n x n |
| DraftSymNmf.CalculateNormalizedSimilarity | symnmf.c:74-84 | as written: W[i][j] == A[i][j] * sqrt(D[i][i]) * sqrt(D[j][j]) |
| DraftSymNmf.CalculateNormalizedSimilarityCorrected | symnmf.c:74-84 | corrected: the buffer holds the D^-1/2 scaling |
| DraftSymNmf.ScaledSymmetric | symnmf.c:74-84 | both scalings keep a symmetric A symmetric |
| DraftSymNmf.CorrectedAgreesWithReference | symnmf.c:74-84 | the corrected draft computes exactly the reference calc_norm result |
| DraftSymNmf.SqrtScaledCounterexample | symnmf.c:80 | for A = [[0,4],[4,0]] the draft gives 16 where D^-1/2 A D^-1/2 gives 1 |
| MatrixHelpers.Oriented | reference/symnmf.c:135-137 | an operand read as given or transposed, in the right shape |
| MatrixHelpers.OrientedCells | reference/symnmf.c:136 | the oriented operand is the buffer's contents or their transpose |
| MatrixHelpers.OrientedDot | reference/symnmf.c:135-137 | the inner loop sums row i of op(A) times column j of op(B) |
| MatrixHelpers.MultiplyOriented | reference/symnmf.c:135-137 | on conforming shapes dest is overwritten with op(A) . op(B) |
| MatrixHelpers.MatrixMultiplyInPlace | reference/symnmf.c:135-137 | with non-null conforming operands dest holds op(A) . op(B); otherwise dest is unchanged |
| MatrixHelpers.MatrixMultiply | reference/symnmf.c:108-109 | NULL cases and shape as matrix_mul; otherwise a fresh buffer holding A . B |
| MatrixHelpers.CopyMatrix | reference/symnmf.c:127 | null iff the input is null or storage is refused; otherwise a fresh copy |
| MatrixHelpers.DiagMatrixToPowerOf | reference/symnmf.c:107 | in place: each non-zero diagonal entry raised to p |
| MatrixHelpers.GetSumOfArray | reference/symnmf.c:91 | the sum of the first n entries |
| MatrixHelpers.CalcSquaredDistanceTwoVectors | reference/symnmf.c:60 | the squared distance between two rows |
| SymNmf.CalcSym | reference/symnmf.c:37-69 | NULL iff the input is NULL or storage is refused; otherwise a fresh buffer holding the similarity matrix |
| SymNmf.CalcDdg | reference/symnmf.c:71-101 | NULL iff the input is NULL or storage is refused; otherwise a fresh buffer of the input's shape holding the degree matrix |
| SymNmf.CalcNorm | reference/symnmf.c:103-113 | NULL iff the input is NULL, not square, or a buffer is refused; otherwise a fresh buffer holding D^-1/2 . A . D^-1/2 |
| SymNmf.UpdateHByRule | reference/symnmf.c:160-180 | 0 when a matrix is NULL; otherwise h_next holds the rule applied in row-major order up to the first zero denominator, and 1 iff there is none |
| SymNmf.GetSquaredFrobNormOfDifference | reference/symnmf.c:192-211 | -1.0 when the shapes differ; otherwise the squared Frobenius distance |
| SymNmf.Converged | reference/symnmf.c:182-185 | true iff that value is below EPSILON (a shape mismatch counts as converged) |
| SymNmf.Pass | reference/symnmf.c:135-144 | the three products and the update of one pass, with the loop's value-level run unchanged |
| SymNmf.Step | reference/symnmf.c:132-151 | a pass followed by the swap of the two estimate buffers when the loop goes on |
| SymNmf.Iterate | reference/symnmf.c:132-157 | the returned buffer is one of the two H buffers and holds the estimate that Factorization.Run returns |
| SymNmf.CalcSymnmfPython | reference/symnmf.c:116-158 | as written: null iff h_next is refused; with every buffer granted, the result of Run from the unwritten h_next and a copy of H; with only hhT_mat refused, the result of Run dividing on every pass by the unwritten hhTh_mat; with h_curr, wh_mat or hhTh_mat refused, the unwritten h_next |
| SymNmf.CalcSymnmfPythonCorrected | reference/symnmf.c:116-158 | as intended: the same with every buffer granted, and the unwritten h_next whenever any of the five buffers is refused |
| Factorization.RuleNonNegative | reference/symnmf.c:176 | non-negative inputs and a positive denominator give a non-negative entry |
| Factorization.RuleFixed | reference/symnmf.c:176 | an entry whose numerator equals its denominator does not move |
| Factorization.WH | reference/symnmf.c:135 | W . H is n x k |
| Factorization.HHtH | reference/symnmf.c:136-137 | (H . H^T) . H is n x k |
| Factorization.Applied | reference/symnmf.c:168-178 | the rule at every entry, n x k |
| Factorization.Updated | reference/symnmf.c:168-178 | what a pass leaves in h_next, of the same shape |
| Factorization.UpdatedComplete | reference/symnmf.c:168-179 | a pass with no zero denominator applies the rule everywhere |
| Factorization.UpdatedStopsAtFirstZero | reference/symnmf.c:168-175 | at the first zero denominator, entries before it hold the rule and the rest keep h_next's old values |
| Factorization.AppliedNonNegative | reference/symnmf.c:176 | the rule keeps non-negative matrices non-negative |
| Factorization.SqFrobNonNegative | reference/symnmf.c:192-211 | the squared Frobenius distance is at least 0 |
| Factorization.SqFrobSelf | reference/symnmf.c:192-211 | the distance of a matrix to itself is 0 |
| Factorization.SqFrobSymmetric | reference/symnmf.c:192-211 | the distance is symmetric |
| Factorization.Denominators | reference/symnmf.c:135-139 | the denominators of a pass are n x k: (H . H^T) . H, or the unwritten hhTh_mat when hhT_mat is NULL |
| Factorization.Run | reference/symnmf.c:132-157 | the loop as written returns an n x k buffer |
| Factorization.Continue | reference/symnmf.c:139-151 | one pass keeps the shape |
| Factorization.Factorize | reference/symnmf.c:132-157 | the intended loop returns an n x k factor, unless a denominator is zero |
| Factorization.RunBounds | reference/symnmf.c:132-150 | at most MAX_ITER passes |
| Factorization.RunAdvances | reference/symnmf.c:132-150 | from any state below the cap the loop makes at least one more pass |
| Factorization.RunCapped | reference/symnmf.c:132-150 | when the cap stops the loop, exactly MAX_ITER passes were made |
| Factorization.RunVersusFactorize | reference/symnmf.c:139-157 | as written and as intended fail on the same pass and converge to the same estimate; at the cap the written loop returns the previous estimate, not the newest one |
| Factorization.RunNonNegative | reference/symnmf.c:132-157 | from non-negative H and W, and non-negative unwritten denominators if hhT_mat is NULL, every estimate the loop returns without failing is non-negative |
| Factorization.FixedPointConverges | reference/symnmf.c:139-143 | at a fixed point of the rule the loop converges after one pass and returns the fixed point |
| Factorization.SingularReturnsUnwrittenBuffer | reference/symnmf.c:139-157 | H = [[0]]: the first pass fails, and the unwritten h_next is returned |
| Factorization.OscillationPass | reference/symnmf.c:176 | W = [[-3]] sends [[s]] to [[-s]] for s = 1 or -1, at distance 4 |
| Factorization.OscillationRun | reference/symnmf.c:132-157 | from pass t on, the oscillating run ends at the cap with [[-1]] |
| Factorization.CapReturnsPreviousEstimate | reference/symnmf.c:147-157 | for H = [[1]], W = [[-3]] the written loop returns [[-1]] after 300 passes |
| Factorization.CapIntendedEstimate | reference/symnmf.c:132-157 | for that input the intended result is [[1]], the 300th estimate |
| Factorization.StaleDenominatorsCounterexample | reference/symnmf.c:135-143 | with hhT_mat NULL, H = [[1]], W = [[1]], hhTh_mat holding [[1]] and h_next holding [[5]], the first pass divides by the unwritten [[1]] and converges with [[1]] |
| FileReader.Stream.Fgetc | reference/file.c:25 | the next character and the advanced position, or EOF at the end |
| FileReader.LineAt | reference/file.c:25-42 | the characters up to the first newline or the end, without the newline |
| FileReader.After | reference/file.c:25 | the position past the newline that ends the line |
| FileReader.CapacityBounds | reference/file.c:27-39 | the buffer never shrinks, always has room for the characters and the NUL, and is at most double what they need |
| FileReader.CapacityMonotone | reference/file.c:27-39 | the buffer size only grows as characters are stored |
| FileReader.FitsFinal | reference/file.c:27-36 | a line fits iff it needs no reallocation or its final size is within the limit |
| FileReader.FitsPrefix | reference/file.c:27-36 | a line that fits has prefixes that fit |
| FileReader.Realloc | reference/file.c:31 | refused iff the size is over the limit; otherwise a fresh buffer that starts with the old contents |
| FileReader.Put | reference/file.c:27-41 | the buffer doubles when pos + 1 reaches its size, then the character is stored at pos; a refused reallocation stores nothing |
| FileReader.StoreLine | reference/file.c:25-42 | the loop stores the line at the read position and stands past its newline, unless a reallocation is refused |
| FileReader.CustomGetline | reference/file.c:10-49 | -1 iff the text is at its end or storage is refused; otherwise the line, NUL-terminated, its length, the new size and the position past the line |
| FileReader.LinesRead | reference/file.c:58-60 | the number of lines successive custom_getline calls return before the first -1 |
| FileReader.LinesReadBound | reference/file.c:58-60 | no more lines are read than the text has |
| FileReader.LinesReadUnlimited | reference/file.c:58-60 | with room for twice the text every line is read |
| FileReader.CountRowsColsInFile | reference/file.c:51-77 | the length is exactly the number of lines read before the first refused allocation, at most the number of lines; the width is the strtok token count of the first line, or -1 when no line was read; with enough memory every line is read |
| FileReader.LinesFromSuffix | reference/file.c:10-49 | the lines read from a position depend only on the text from there on |
| FileReader.FirstLineSplit | reference/file.c:10-49 | a newline-free line and a newline in front of a text add that line in front of the text's lines |
| FileReader.LinesOfTerminated | reference/file.c:10-49 | custom_getline reads newline-terminated lines back as themselves |
| Lists.IndexOf | reference/symnmf.py:75 | list.index: the first position of x, or |s| when x is absent |
| Lists.MaxOf | reference/symnmf.py:75 | max: an element of the row that no entry exceeds |
| Lists.RemoveFirst | reference/kmeans.py:76-77 | list.remove: one fewer element; the multiset loses one copy of x |
| KMeans.Average | reference/kmeans.py:87 | np.mean over axis 0: None (NaN) for no rows, otherwise d coordinates |
| KMeans.ColumnSumOfCopies | reference/kmeans.py:87 | the column sum of n copies of x is n * x[j] |
| KMeans.AverageOfCopies | reference/kmeans.py:87 | the mean of copies of one point is that point |
| KMeans.Nearest | reference/kmeans.py:44-53 | the chosen cluster is cluster 0 or one of the clusters compared |
| KMeans.NearestIsFirstMinimum | reference/kmeans.py:44-53 | the chosen cluster is at minimal distance, with ties going to the first cluster |
| KMeans.NearestOfUndefinedFirst | reference/kmeans.py:44-53 | a NaN distance to cluster 0 keeps cluster 0 |
| KMeans.Relisted | reference/kmeans.py:34-42 | the membership lists after a reassignment keep their number |
| KMeans.Reassigned | reference/kmeans.py:34-42 | owners and lists after reassigning point i keep their lengths |
| KMeans.ReassignedConsistent | reference/kmeans.py:34-42 | reassigning a point keeps the membership bookkeeping consistent, and the point then belongs to its new cluster |
| KMeans.ConsistentMembership | reference/kmeans.py:34-42 | under consistent bookkeeping a point is in cluster c's list iff it is assigned to c |
| KMeans.Point.constructor | reference/kmeans.py:30-32 | the given coordinates and no cluster |
| KMeans.Point.UpdateCluster | reference/kmeans.py:34-42 | nothing changes for the same cluster; otherwise the point leaves its old list and joins the end of the new one; means are untouched |
| KMeans.Point.FindBestClusterForPoint | reference/kmeans.py:44-53 | returns the first cluster at minimal distance to its current mean |
| KMeans.Cluster.constructor | reference/kmeans.py:64-68 | a cluster of the initial point alone, whose coordinates are both means |
| KMeans.Cluster.RemovePoint | reference/kmeans.py:76-77 | the first occurrence of the point is removed from the list |
| KMeans.Cluster.AddPoint | reference/kmeans.py:79-80 | the point is appended to the list |
| KMeans.Cluster.UpdateMean | reference/kmeans.py:82-87 | the previous mean becomes the old mean, and the new mean is the average of the members |
| KMeans.Kmeans.constructor | reference/kmeans.py:102-108 | the given data and parameters, with no points and no clusters |
| KMeans.Kmeans.SeededValid | reference/kmeans.py:110-120 | seeding establishes the membership bookkeeping |
| KMeans.Kmeans.KmeansAlgoInit | reference/kmeans.py:110-120 | a point per row, and cluster c seeded with point c alone; the rest unassigned |
| KMeans.Kmeans.Membership | reference/kmeans.py:34-42 | a point is in cluster c's list iff it is assigned to cluster c |
| KMeans.Kmeans.MovedValid | reference/kmeans.py:134-136 | the bookkeeping after one move is consistent |
| KMeans.Kmeans.Move | reference/kmeans.py:136 | point i moves to cluster b and the bookkeeping stays consistent; owners change at i only, the lists as Relisted says; means unchanged |
| KMeans.Kmeans.AssignPoint | reference/kmeans.py:134-136 | point i is assigned to its nearest cluster under the current means; other points and all means unchanged |
| KMeans.Kmeans.AssignmentPass | reference/kmeans.py:134-136 | every point is assigned to its nearest cluster under the means the pass began with |
| KMeans.Kmeans.RefreshMean | reference/kmeans.py:138-139 | cluster c's previous mean is its old mean, and its mean is the average of its members |
| KMeans.Kmeans.MeansPass | reference/kmeans.py:138-139 | every cluster's mean is refreshed; memberships unchanged |
| KMeans.Kmeans.Pass | reference/kmeans.py:134-139 | after a pass each point is in its nearest cluster under the previous means, and each mean is its members' average |
| KMeans.Kmeans.AllClustersConverged | reference/kmeans.py:123-127 | true iff every mean moved by less than epsilon |
| KMeans.Kmeans.Round | reference/kmeans.py:134-143 | one pass, then the convergence test |
| KMeans.Kmeans.MainLoop | reference/kmeans.py:132-143 | at most max_iter passes, at least one when max_iter >= 1; a stop before max_iter means convergence; the state after the last pass |
| KMeans.Kmeans.RunKmeans | reference/kmeans.py:130-143 | initialisation, then the main loop with the same guarantees |
| KMeans.Kmeans.Labels | reference/kmeans.py:147-149 | each point's label is the id of its cluster |
| KMeans.Kmeans.LabelsAreMemberships | reference/kmeans.py:147-149 | label i is c iff point i is in cluster c's list |
| KMeans.Kmeans.LabelsAreNearest | reference/kmeans.py:147-149 | each label is the nearest cluster under the previous means |
| KMeans.Kmeans.GetKmeansResult | reference/kmeans.py:145-150 | one label in [0, k) per row; label i is c iff point i is in cluster c; after a pass each label is the nearest cluster under the previous means |
| SymNmfPy.Label | reference/symnmf.py:75 | the position of the first largest entry: no entry exceeds it, and every earlier entry is strictly smaller |
| SymNmfPy.ParseToClusters | reference/symnmf.py:71-77 | None iff a row is empty (max raises); otherwise one label per row, each that row's Label |
| SymNmfPy.CommasJoin | reference/symnmf.py:65-67 | entries each followed by ',', then one more entry, are the entries joined by ',' |
| SymNmfPy.PrintRow | reference/symnmf.py:65-67 | ok iff 1 <= len(matrix[0]) <= len(row); then the first len(matrix[0]) entries joined by ',' and a newline |
| SymNmfPy.PrintFormattedMatrix | reference/symnmf.py:63-67 | ok iff the first row is non-empty and no row is shorter; then every row printed as wide as the first row, each ended by a newline |
| SymNmfPy.TerminatedIsJoin | reference/symnmf.py:63-67 | newline-terminated lines are the lines joined by '\n' plus a final newline |
| SymNmfPy.PrintersAgree | reference/symnmf.py:63-67 | on a rectangular matrix the Python printer prints print_matrix's text plus a final newline |
| SymNmfPy.PrintedShapeReadsBack | reference/file.c:51-77 | a printed matrix read back gives one line per row, each with as many tokens as the first row has entries |

## Left out

- File I/O, the CLI `main` functions and printing to stdout are not modelled. Printers return their text, and the line reader works on a character stream.
- pandas and numpy reading, `init_h` (numpy random), `reference/analysis.py`, `reference/setup.py` and the debug printer `Kmeans.print_clusters` are left out.
- The Python/C binding modules are left out.
- Floating point: rounding, NaN/Inf and `%.4f` are not modelled. `exp`, `sqrt`, `pow`, `fmt` and `norm` are parameters, except `pow(t, 2)` in the draft's `euclidean_distance`, which is written as `t * t`.
- A NaN k-means mean (numpy's mean over no points) is modelled as `None`. The distances to it are `None`, and no comparison holds of them.
- The `Point` objects that numpy wraps cluster means in are modelled as their coordinates.
- `matrix.c` is not part of this model. The contracts of its helpers are inferred from their call sites and from `mat_utils.c`.
- Memory release (`free`, `free_matrix` and related functions) is not modelled, so buffer identity is only tracked as Dafny references.
- After a refused reallocation `custom_getline` frees the line buffer but leaves `*lineptr` pointing at it. `count_rows_cols_in_file` then frees it again (reference/file.c:34 and reference/file.c:74). The model has no `free`, so this double free is not captured.
- Allocation sizes are not checked against the C type widths, and `int`/`size_t` overflow is not modelled.
- `allocate_matrix` is all-or-nothing. The path where a row allocation fails and the loop frees earlier rows and continues (mat_utils.c:49-51) is not modelled.
- `diag_pow` takes an `int` power and `diag_matrix_to_power_of` a `double` power. Both go to the same `pow` parameter.
- MatUtils.DiagPow: requires at most as many rows as columns. The source loops over all rows and reads `cords[i][i]` out of bounds on a taller matrix (mat_utils.c:76-77). MatrixHelpers.DiagMatrixToPowerOf stops at the smaller dimension, as `matrix.c` is assumed to.
- The draft constructors `calculate_similarity_matrix`, `calculate_diagonal_degree_matrix` and `calculate_normalized_similarity` use `malloc`/`calloc` results without checking them (symnmf.c:48-50, symnmf.c:63-65, symnmf.c:76-78). The model always allocates, so their NULL dereference on refused storage is not captured.
- DraftSymNmf.CalculateSimilarityMatrix: takes N and d from the shape of the points buffer. The source takes them as arguments and trusts them to match the rows it indexes (symnmf.c:46).
- DraftSymNmf.EuclideanDistance: fixes `pow(t, 2)` as `t * t`, while `pow` is a parameter elsewhere. Under the real arithmetic of the model the two agree (symnmf.c:40).
- Graph.SquaredDistanceSelf: states only that a point's distance to itself is 0, not the converse "distance 0 implies equal points".
- SymNmf.UpdateHByRule: requires the four matrices to share h_next's shape. The source indexes all of them by h_next's dimensions whatever their shapes.
- SymNmf.CalcSymnmfPython: requires W to be n x n for an n x k H. The source reads W with whatever shape it has.
- SymNmf.CalcSymnmfPython: when h_next, h_curr, wh_mat or hhTh_mat is missing, the model returns before the loop. The source makes one pass in which `update_h_by_rule` returns 0 without writing h_next, then breaks, so h_next comes back the same way. The products that pass writes into the buffers that exist are freed unread and are not modelled.
- SymNmfPy.PrintFormattedMatrix: on an IndexError the contract states only `ok == false`. The body returns exactly the text printed before the failing index, but no ensures describes it.
- FileReader.StoreLine: on a refused reallocation the contract says the stream moved forward and the buffer has the size the stored characters need. It does not name the character at which the refusal happens.
- KMeans.Point.UpdateCluster: requires an assigned point to be in its cluster's list. Otherwise `list.remove` raises ValueError, which cannot happen while the bookkeeping is consistent.
- KMeans.Kmeans.GetKmeansResult: requires `k <= len(data)` and `k > 0` for non-empty data. Otherwise the source raises IndexError at reference/kmeans.py:118 or reference/kmeans.py:46.
- KMeans.Kmeans.GetKmeansResult: requires `max_iter >= 1` or `k == len(data)`. Otherwise unassigned points make `point.assigned_cluster.id` raise AttributeError at reference/kmeans.py:149.
- KMeans.Kmeans.MainLoop: states that a stop before `max_iter` passes follows a converged pass, not that every earlier pass left some mean moved by `epsilon` or more. That would need a record of the cluster means after each pass, and the model keeps only the current objects' state.
- KMeans.Kmeans.RunKmeans: states no history of earlier passes. It states only that a stop before `max_iter` means the last pass converged.
- A second `get_kmeans_result` call on the same object, which appends duplicate points, is not modelled. The model requires a fresh object.
- The `sym`, `ddg` and `norm` wrappers of `reference/symnmf.py` only call the C functions, which are modelled in `SymNmf`.

## Findings

| source | as written | input that shows it | evidently intended | confidence | as-written member | corrected member |
|---|---|---|---|---|---|---|
| mat_utils.c:48-67 | `matrix_mul` accumulates `+=` into a freshly `malloc`ed result that is never zeroed | any product whose buffer starts non-zero, e.g. start [[1]] with [[0]] . [[0]] | the accumulator starts at 0, so the result is exactly A . B | not executed | MatUtils.MatrixMulAsWritten, MatUtils.UnzeroedAccumulatorCounterexample | MatUtils.MatrixMul, MatUtils.PlusZeros |
| symnmf.c:80 | W[i][j] = A[i][j] * sqrt(D[i][i]) * sqrt(D[j][j]) | A = [[0,4],[4,0]]: the draft gives 16, D^-1/2 A D^-1/2 gives 1 | W = D^-1/2 . A . D^-1/2, as the reference calc_norm computes | not executed | DraftSymNmf.CalculateNormalizedSimilarity, DraftSymNmf.SqrtScaledCounterexample | DraftSymNmf.CalculateNormalizedSimilarityCorrected, DraftSymNmf.CorrectedAgreesWithReference |
| reference/symnmf.c:147-157 | after the swap of the 300th pass, `h_next` holds the previous estimate, which is returned at the cap | H = [[1]], W = [[-3]]: returns [[-1]] after 300 passes | the newest estimate, [[1]] | not executed | Factorization.Run, Factorization.CapReturnsPreviousEstimate | Factorization.Factorize, Factorization.CapIntendedEstimate |
| reference/symnmf.c:118-139 | a refused `hhT_mat` is not caught: `matrix_multiply_in_place` leaves `hhTh_mat` unwritten and `update_h_by_rule` never looks at `hhT_mat`, so every pass divides by the contents `hhTh_mat` was allocated with | H = [[1]], W = [[1]], hhTh_mat allocated holding [[1]], h_next holding [[5]]: the first pass converges and returns [[1]] | the NULL is caught through the failed update status, as the comment at reference/symnmf.c:118-121 says, and the unwritten h_next is returned | not executed | SymNmf.CalcSymnmfPython, Factorization.StaleDenominatorsCounterexample | SymNmf.CalcSymnmfPythonCorrected |
| reference/symnmf.c:139-157 | a failed update breaks out of the loop and returns `h_next`, written by the rule only up to the first zero denominator in row-major order; on the first pass the rest is the unwritten allocation, on a later pass the older estimate | H = [[0]], W = [[0]]: nothing is written and the unwritten buffer is returned; H = [[1],[0]]: row 0 is written and the pass fails at (1,0) | signal failure instead of returning a factor | not executed | Factorization.Run, Factorization.SingularReturnsUnwrittenBuffer | Factorization.Factorize, Factorization.RunVersusFactorize |
