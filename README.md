# Thick-restart Lanczos controller

This project models the control logic of QUDA's thick-restart Lanczos eigensolver
(`TRLM` in `lib/eigensolve_quda.cpp`) and proves properties of it in Dafny. The
floating-point vector arithmetic is left abstract. What the model covers is the integer and
ordering logic that decides what happens to the Krylov basis `kSpace` and to the coefficient
arrays `alpha`, `beta` and `residua`:

- **Construction.** The `EigenSolver` and `TRLM` constructors check the sizes, deduce the
  sort direction `reverse` from the spectrum letter and polynomial acceleration, and check
  the restart buffer and the real spectrum. The factory `EigenSolver::create` builds only the
  TR Lanczos solver (`config.dfy`, module `Config`).
- **The Lanczos step.** `lanczosStep` is modelled together with its recurrence window: after
  a restart it reduces against every kept vector, and after that it follows the three-term
  recurrence (`krylov.dfy`, `trlm.dfy`).
- **The arrow matrix.** `eigensolveFromArrowMat` lays out the arrow matrix
  (`arrow.dfy`, module `Arrow`). It inverts the spectrum before the dense eigensolve and
  restores the sign afterwards. It stores the Ritz values, the Ritz matrix and the residual
  estimates (`trlm.dfy`).
- **The restart pass.** `operator()` runs the running maximum `mat_norm`, the locking and
  convergence scans and the `iter_keep` formula (`scan.dfy`, module `Scan`). It then does the
  basis compression of `computeKeptRitz`, the counter update, the termination rule and the
  final truncation (`trlm.dfy`, class `Trlm.Solver`).
- **The final sort.** `reorder` is a gnome sort of the Ritz values that is meant to carry the
  Krylov vectors along (`reorder.dfy`, module `Reorder`).

How the model is built:

- **The solver is a class.** `Trlm.Solver` holds `alpha`, `beta` and `residua` as arrays of
  length `nKr` and the counters as fields; its methods update them in place, as the source
  does.
- **The basis is a sequence of vector contents.** `kSpace` is a `seq<Krylov.Vec>` passed in
  and out. Each `Vec` is the term that produced it (`Applied`, `Axpy`, `MultiAxpy`, …), so the
  proofs track which coefficients and which basis vectors every slot is built from, without
  computing a number.
- **Oracles.** The dense symmetric eigensolver is a function parameter, constrained by
  `Trlm.DenseOracle`: it returns `dim` eigenvalues in increasing order and `dim` eigenvectors
  of length `dim`. The scalar BLAS results (the real part of a dot product and the norm) are
  function parameters too, with non-negative norms.
- **Epsilon is a parameter.** The locking threshold `epsilon` that the source derives from the
  field precision is a parameter of `Solve`.

## Model

| member | source | states |
|---|---|---|
| Config.SizeChecksAsWritten | lib/eigensolve_quda.cpp:56-60 | The constructor's size checks exactly as written pass iff nEv < nKr, nConv <= nEv and none of the three sizes equals zero; the first two failures are reported first. |
| Config.SizeChecksAsWrittenAdmitNegativeSizes | lib/eigensolve_quda.cpp:56-60 | nEv = 4, nKr = 10, nConv = -4 passes the size checks as written and the restart-buffer check, but the corrected checks reject it as a non-positive nConv. |
| Config.SizeChecksAsWrittenIgnoreSign | lib/eigensolve_quda.cpp:56-60 | Every negative nConv that meets the ordering checks passes the checks as written and is rejected by the corrected ones. |
| Config.SizeChecks | lib/eigensolve_quda.cpp:56-60 | The corrected size checks pass iff 0 < nConv <= nEv < nKr, report the same first two failures, and reject everything the as-written checks reject. |
| Config.DeduceOrdering | lib/eigensolve_quda.cpp:80-88 | The sort is reversed iff polynomial acceleration is on or the spectrum starts with 'L'; with acceleration the first letter flips S/L, without it the letter is kept. |
| Config.RestartBufferCheck | lib/eigensolve_quda.cpp:508 | The TRLM restart-buffer check passes iff nEv + 6 <= nKr. |
| Config.ConstructTrlm | lib/eigensolve_quda.cpp:508-512 | The EigenSolver checks followed by the TRLM checks succeed iff 0 < nConv <= nEv, nEv + 6 <= nKr and the spectrum is a real-part one (LR or SR). |
| Config.Create | lib/eigensolve_quda.cpp:113-121 | The factory succeeds iff the type is TR Lanczos and the TRLM checks pass. IR Arnoldi and IR Lanczos fail as not implemented. A success keeps the sizes, tolerance, restart limit and require-convergence flag, and carries the deduced sort direction and spectrum letter. |
| Config.CreateGivesValidSettings | lib/eigensolve_quda.cpp:113-121 | Every solver the factory creates has 0 < nConv <= nEv and nEv + 6 <= nKr, so nConv + 6 <= nKr. |
| Trlm.Solver.constructor | lib/eigensolve_quda.cpp:500-505 | A constructed solver holds the settings, starts with every counter at zero and not converged, and has fresh, zero-filled alpha, beta and residua of length nKr. |
| Trlm.Solver.Build | lib/eigensolve_quda.cpp:113-121 | Building a solver succeeds iff the factory's checks pass, reports the factory's error otherwise, and yields a fresh solver in its initial state with the requested sizes and sort direction. |
| Krylov.InitialGuess | lib/eigensolve_quda.cpp:527-543 | The initial guess is always a quotient: v0 / norm(v0) when that norm is non-zero, and otherwise the random source divided by its own norm. |
| Krylov.ShortRecurrence | lib/eigensolve_quda.cpp:753-758 | A step after the first of a sweep (j > num_keep) reduces only against v[j - 1]: it depends on beta only through beta[j - 1] and is the three-term recurrence followed by orthogonalisation. |
| Krylov.RestartStepReadsAllKept | lib/eigensolve_quda.cpp:753-758 | The first step of a sweep (j == num_keep) reduces against every earlier vector: two beta sequences give the same residual iff they agree on every beta[i] with i < j, and that residual is A v[j] - alpha[j] v[j] minus every beta[i] v[i] with i < j, then orthogonalised. |
| Trlm.Solver.LanczosStep | lib/eigensolve_quda.cpp:740-771 | Step j writes alpha[j] (the Rayleigh coefficient of v[j]), the residual r, beta[j] = norm of r and v[j + 1] = r / beta[j]. It changes no other entry of alpha, beta or the basis. |
| Trlm.Solver.Expand | lib/eigensolve_quda.cpp:594-595 | After the steps num_keep .. nKr - 1, the Lanczos relation holds for every step of the sweep and every new beta is non-negative. Slots up to num_keep and above nKr, and alpha and beta below num_keep, are unchanged. |
| Arrow.ArrowPos | lib/eigensolve_quda.cpp:598 | arrow_pos is at least 2 and at least num_keep - num_locked + 1, and equals one of them. |
| Arrow.ArrowMatrixShape | lib/eigensolve_quda.cpp:821-840 | The arrow matrix is symmetric and has alpha on the diagonal. Row and column arrow_pos - 1 hold beta for the rows before it, the band from arrow_pos - 1 on holds beta, and every other entry is zero. |
| Arrow.FillDiagonal | lib/eigensolve_quda.cpp:821-826 | The diagonal loop on the zeroed matrix sets A(i, i) = alpha[num_locked + i] and leaves every other entry zero. |
| Arrow.FillArrow | lib/eigensolve_quda.cpp:828-833 | The arrow loop sets A(i, p) = A(p, i) = beta[num_locked + i] for i < p and keeps what the diagonal loop wrote. |
| Arrow.FillBand | lib/eigensolve_quda.cpp:835-840 | The band loop sets A(i, i + 1) = A(i + 1, i) = beta[num_locked + i] from p on and keeps the diagonal and the arrow. |
| Arrow.ArrowMatrix | lib/eigensolve_quda.cpp:821-840 | The arrow matrix laid out from a window of dim diagonal entries is square of size dim; its entries are characterised by `Arrow.ArrowMatrixShape`. |
| Arrow.Build | lib/eigensolve_quda.cpp:821-840 | The three fill loops on the zeroed matrix produce exactly the arrow matrix. |
| Trlm.Solver.InvertWindow | lib/eigensolve_quda.cpp:813-819 | When sorting in reverse, alpha[num_locked ..] and beta[num_locked .. nKr - 1) are negated. beta[nKr - 1] and everything below num_locked keep their values: beta is exactly `InvertedCouplings` of the old beta. |
| Trlm.NegateRange | lib/eigensolve_quda.cpp:857-859 | Negates exactly the entries in [lo, hi) and leaves the rest unchanged. |
| Trlm.Negated | lib/eigensolve_quda.cpp:813-819 | The inverted window has the same length, with each entry negated when the spectrum is inverted. |
| Trlm.ArrowSpectrum | lib/eigensolve_quda.cpp:843-844 | The dense eigensolve of a dim x dim arrow matrix returns dim increasing eigenvalues and dim eigenvectors of length dim. |
| Trlm.Solver.StoreRitz | lib/eigensolve_quda.cpp:850-854 | residua[num_locked + i] is the absolute value of beta[nKr - 1] times the last entry of eigenvector i, and alpha[num_locked + i] is eigenvalue i. Entries below num_locked are unchanged. |
| Trlm.RestoredWindowSorted | lib/eigensolve_quda.cpp:857-859 | Increasing eigenvalues, copied back with their sign restored, are in the solver's sort order: increasing, or decreasing when sorting in reverse. |
| Trlm.Solver.StoreRestored | lib/eigensolve_quda.cpp:847-859 | After the Ritz matrix is stored, the eigenvalues are stored and the sign is restored, the alpha window holds the eigenvalues with their sign restored in the solver's sort order, and residua holds the residual estimates. |
| Trlm.RitzStoredResiduaNonNegative | lib/eigensolve_quda.cpp:851 | Every residual estimate stored from a decomposition is non-negative. |
| Trlm.Solver.Decompose | lib/eigensolve_quda.cpp:813-844 | The decomposition is the dense eigensolve of the arrow matrix laid out from the alpha and beta windows, negated when sorting in reverse. beta ends as `InvertedCouplings` of the old beta (negated exactly on [num_locked, nKr - 1) when sorting in reverse), and alpha below num_locked is unchanged. |
| Trlm.Solver.EigensolveFromArrowMat | lib/eigensolve_quda.cpp:802-862 | The decomposition is the dense eigensolve of the arrow matrix laid out from the (inverted) alpha and beta windows. The Ritz matrix holds its eigenvectors, and the alpha window holds the eigenvalues in sort order with non-negative residua. Locked entries are unchanged, and beta ends as `InvertedCouplings` of the old beta, so beta[nKr - 1] is untouched. |
| Trlm.Solver.Sweep | lib/eigensolve_quda.cpp:594-601 | The Lanczos sweep adds nKr - num_keep to iter and establishes the Lanczos relation for the new steps, with coefficients `sweptAlpha` and `sweptBeta`. Below num_keep these equal alpha and beta before the sweep: the previous restart's Ritz values and couplings, which form the kept block of the arrow matrix. The Ritz values of the dense eigensolve of the arrow matrix of that swept window then land, in sort order, in alpha[num_locked ..], with their residua. beta afterwards is `InvertedCouplings` of `sweptBeta`, so the residua are scaled by the swept beta[nKr - 1]. The locked prefix and the kept slots are unchanged. |
| Scan.MatNorm | lib/eigensolve_quda.cpp:605-606 | mat_norm never decreases, bounds abs(alpha[i]) for num_locked <= i < nKr, and is either its old value or one of those. |
| Scan.RunEnd | lib/eigensolve_quda.cpp:609-633 | The scan returns the end of the run of residua below the bound that starts at the given offset: every residuum in the run is below the bound, and the next one inside the window is not. |
| Scan.RunEndUnique | lib/eigensolve_quda.cpp:609-633 | The end of the run is determined by the residua: two results that meet the scan's contract are equal. |
| Scan.LockedImpliesConverged | lib/eigensolve_quda.cpp:623-633 | With epsilon <= tol, 0 <= iter_locked <= iter_converged < nKr - num_locked, and every residuum up to iter_converged is below tol * mat_norm. |
| Scan.HalfTowardZero | lib/eigensolve_quda.cpp:635 | C++ division by 2 truncates toward zero: for x >= 0 the result r has 2r <= x < 2r + 2, and for x < 0 it has r <= 0 and x <= 2r <= x + 1, which excludes the floored quotient of odd negative x. |
| Scan.IterKeepAsWritten | lib/eigensolve_quda.cpp:635 | iter_keep as written is at most nKr - num_locked - 12 and at most iter_converged + (nKr - num_converged) / 2, and equals one of them. It is negative whenever nKr - num_locked < 12. |
| Scan.IterKeepAsWrittenNegativeOnFirstSweep | lib/eigensolve_quda.cpp:635 | For nEv = 4 and nKr = 10 (which passes nKr >= nEv + 6), the first sweep gives iter_keep = -2, so slot num_locked + iter_keep is -2. |
| Scan.IterKeepAsWrittenBelowLockedExample | lib/eigensolve_quda.cpp:635 | For nEv = nConv = 16 and nKr = 24 with 13 locked and 14 converged pairs on the first sweep, iter_keep as written is 12, below iter_locked = 13, so num_keep < num_locked; the corrected IterKeep gives 13. |
| Scan.IterKeep | lib/eigensolve_quda.cpp:635 | The corrected iter_keep lies in [iter_locked, nKr - num_locked) and agrees with the as-written formula whenever that is at least iter_locked. |
| Trlm.Solver.Check | lib/eigensolve_quda.cpp:605-635 | After a sweep, mat_norm is the larger of its old value and the largest |alpha[k]| in the window: it bounds the window and equals the old value or one of those entries. iter_locked and iter_converged end the locking run (under epsilon * mat_norm) and the convergence run (under tol * mat_norm), with 0 <= iter_locked <= iter_converged < nKr - num_locked. iter_keep is the corrected formula. |
| Krylov.KeptVector | lib/eigensolve_quda.cpp:880-897 | Compressed vector i is ritz[i][0] times the first window vector plus one multi-axpy over the other dim - 1 window vectors. |
| Trlm.Solver.Grow | lib/eigensolve_quda.cpp:870-875 | The basis grows to max(its size, nKr + 1 + iter_keep) slots with fresh fields at the end; existing slots are kept. |
| Trlm.Solver.Compress | lib/eigensolve_quda.cpp:880-897 | Slot nKr + 1 + i receives row i of the Ritz matrix applied to kSpace[num_locked .. nKr) for i < iter_keep; no other slot changes. |
| Trlm.Solver.CopyBack | lib/eigensolve_quda.cpp:901 | Slot to + i receives slot from + i for i < count; no other slot changes. |
| Trlm.Solver.RewriteBeta | lib/eigensolve_quda.cpp:904 | beta[num_locked + i] becomes beta[nKr - 1] times the last entry of eigenvector i for i < iter_keep; every other entry is unchanged. |
| Trlm.Solver.ComputeKeptRitz | lib/eigensolve_quda.cpp:864-905 | The basis has at least nKr + 1 + iter_keep slots. Slots num_locked + i and nKr + 1 + i hold compressed vector i, and slot num_locked + iter_keep holds the old kSpace[nKr]. beta is rewritten with the couplings, and every other slot and entry is unchanged. |
| Trlm.Solver.Place | lib/eigensolve_quda.cpp:880-902 | On a basis with room for the copies, the compression, the copy back and the move of kSpace[nKr] to slot num_locked + iter_keep give exactly the kept layout: compressed vectors at num_locked + i and nKr + 1 + i, the old residual vector after them, every other slot unchanged. |
| Trlm.Solver.Relocate | lib/eigensolve_quda.cpp:870-902 | Growing the basis to max(its size, nKr + 1 + iter_keep) slots before placing the vectors gives the kept layout over the original basis: the fresh slots are only ever overwritten. |
| Trlm.Solver.Compact | lib/eigensolve_quda.cpp:636-665 | The compression followed by the counter update keeps the solver invariant, advances restart_iter by one with the counter equations, and yields `Compacted`: the compressed basis has the kept layout of `computeKeptRitz` and beta its couplings. The result is that basis with alpha unchanged, or once converged their reorder with (value, vector) pairs moved together. |
| Reorder.IterationAsWritten | lib/eigensolve_quda.cpp:780-787 | One pass of the loop body as written is the step that swaps the alpha pair and then the vectors one slot lower (slot -1 at the bottom). |
| Reorder.Iteration | lib/eigensolve_quda.cpp:780-787 | One pass of the corrected loop body swaps the alpha pair and the vector pair at the same slots. |
| Reorder.StepAsWrittenMovesWrongVectors | lib/eigensolve_quda.cpp:784-785 | When the loop as written swaps alpha[i-1] and alpha[i], it exchanges vectors i-2 and i-1, or touches slot -1 when i == 1. The corrected step moves the same alpha values. |
| Reorder.ReorderAsWritten | lib/eigensolve_quda.cpp:773-800 | reorder as written terminates, leaves alpha sorted (decreasing when reverse) and a permutation of its input, and leaves a sorted input alone. It permutes the vectors only while no swap reaches slot -1. |
| Reorder.ReorderAsWrittenMisplacesExample | lib/eigensolve_quda.cpp:773-800 | On alpha = [1, 3, 2] with vectors [v0, v1, v2], sorting ascending, reorder as written stops after five passes with alpha [1, 2, 3] and vectors [v1, v0, v2]: value 1 now sits beside v1, a pair that did not exist before. |
| Reorder.Reorder | lib/eigensolve_quda.cpp:773-800 | The corrected reorder terminates and leaves alpha sorted and a permutation of its input. Each vector stays with its Ritz value, the (value, vector) pairs are a permutation, and a sorted input (so a second call) is left unchanged. |
| Reorder.ReorderExample | lib/eigensolve_quda.cpp:773-800 | The corrected reorder on the same input stops after five passes with alpha [1, 2, 3] and vectors [v0, v2, v1], each beside its own value. |
| Trlm.Solver.Advance | lib/eigensolve_quda.cpp:639-665 | The counters are updated from the old num_locked: num_converged = num_locked + iter_converged, num_keep = num_locked + iter_keep, then num_locked += iter_locked, and restart_iter is incremented. converged is set iff num_converged >= nConv. Unconverged, the basis and alpha are unchanged. Converged, reorder leaves alpha sorted and a permutation of its old contents, moves each vector with its Ritz value, keeps the basis beyond nKr, and changes nothing on a sorted alpha. |
| Trlm.Solver.EndSweep | lib/eigensolve_quda.cpp:605-665 | The check, the compression and the counter update keep the solver invariant, advance restart_iter by one with the counter equations, and yield the same `Compacted` relation between the basis before the compression, the compressed basis and the result. |
| Trlm.Solver.Solve | lib/eigensolve_quda.cpp:527-690 | operator() runs at most max_restarts passes of the restart loop, each a `Sweep` followed by `EndSweep`, and reports convergence iff num_converged >= nConv, with alpha sorted. Without convergence it stops after exactly max_restarts passes and aborts iff require_convergence is set. The basis and the eigenvalue list are cut to exactly nConv entries. |
| Krylov.Resize | lib/eigensolve_quda.cpp:673-675 | resize keeps the first n entries and pads with the fill value up to length n. |

## Left out

- The vector arithmetic (`blas::` calls, `chebyOp`, `blockOrthogonalize`) is symbolic: a slot's contents are the term that produced them (`Krylov.Vec`), and dot products and norms are uninterpreted function parameters. Floating-point rounding is not modelled; `alpha`, `beta` and `residua` are exact reals.
- The dense symmetric eigensolve (`SelfAdjointEigenSolver`) is an oracle that returns increasing eigenvalues and conforming eigenvectors. That they are eigenpairs of the arrow matrix is not modelled.
- The locking threshold `epsilon` comes from a table on the field precision. Here it is a parameter of `Trlm.Solver.Solve`, and the table and its unsupported-precision error are not modelled.
- Loading eigenvectors from a file (the `vec_infile` branch of `operator()`), `computeEvals`, `saveVectors`, RNG seeding, profiling and printing are not modelled: they are file I/O, vector arithmetic or output. `Solve` leaves the first nConv entries of `evals` as passed in (padded with zeros), where the source overwrites them through `computeEvals` on convergence.
- `chebyOp`, `deflate`, `deflateSVD`, `computeSVD` and all of `lib/blas_magma.cpp` are not part of this model: they are numerical routines over external libraries.
- The zero-fill and resize of `ritz_mat` are not modelled: the Ritz matrix is assigned the eigensolver's vectors as a whole, as a dim x dim sequence of rows.
- The residual field `r` is created zeroed at the start of `Solve` and freed at the end; the freeing is not modelled.
- Trlm.Solver.ComputeKeptRitz: the beta loop is run before the vector loops rather than after. It reads and writes no basis vector, so the resulting state is the same.
- Trlm.Solver.Solve: only a first call on a freshly constructed solver is modelled (`Initial()`). A second call on the same object, which starts from the previous counters, is not.
- Trlm.Solver.EndSweep: the exact values of iter_locked, iter_converged and iter_keep (the scans and the formula), and the matrix norm estimate, are stated on `Trlm.Solver.Check`, not repeated in EndSweep's contract.
- Config.ConstructTrlm: applies the corrected size checks (`Config.SizeChecks`, `<= 0`), so it rejects a negative nConv or nEv that the source's `== 0` tests accept, for example nEv = 4, nKr = 10, nConv = -4. The as-written checks are `Config.SizeChecksAsWritten`, recorded under Findings.
- Config.Create: inherits the corrected size checks of `ConstructTrlm`, and so rejects the same negative sizes that the source accepts.
- Trlm.Solver.Build: built through `Config.Create`, so it inherits the corrected size checks.
- Trlm.Solver.EigensolveFromArrowMat: when sorting in reverse, beta[num_locked .. nKr - 1) stays negated after the eigensolve, as in the source. The model states this but proves nothing about its effect, because the entries are rewritten or read again only after the next sweep.
- The restart loop uses the corrected `Scan.IterKeep` and the corrected `Reorder.Reorder`. The as-written versions are modelled and their defects exhibited, but they are not run inside `Solve`. The as-written iter_keep can fall below iter_locked, so a slot counted as locked receives the residual vector and the next sweep overwrites locked Ritz values; when it is negative, line 902 writes slot num_locked + iter_keep, below num_locked or below zero. The as-written reorder leaves vectors beside the wrong Ritz values after any swap, not only at slot -1.

## Findings

| source | as written | input that shows it | evidently intended | confidence | as-written member | corrected member |
|---|---|---|---|---|---|---|
| lib/eigensolve_quda.cpp:784-785 | The vector swap runs after `--i`, so it exchanges kSpace[i-1] and kSpace[i-2], one slot below the alpha pair, and reads kSpace[-1] when the pair is at slots 0 and 1 (also 795-796). | alpha = [1, 3, 2], vectors [v0, v1, v2], ascending: alpha ends [1, 2, 3] but the vectors end [v1, v0, v2], so value 1 sits beside v1 | swap kSpace[i-1] and kSpace[i] with the alpha pair, so each vector stays with its Ritz value | not executed | Reorder.ReorderAsWrittenMisplacesExample | Reorder.Reorder |
| lib/eigensolve_quda.cpp:635 | iter_keep = min(iter_converged + (nKr - num_converged) / 2, nKr - num_locked - 12) has no lower bound. When it is negative, computeKeptRitz writes slot num_locked + iter_keep (line 902), which lies below num_locked (a locked vector) and, on the first sweep, below zero. | nEv = 4, nKr = 10, nConv = 3 (passes nKr >= nEv + 6), first sweep: iter_keep = -2 | at least iter_locked kept vectors, so the kept block covers the newly locked block and no locked slot is overwritten | not executed | Scan.IterKeepAsWrittenNegativeOnFirstSweep | Scan.IterKeep |
| lib/eigensolve_quda.cpp:635 | The same formula can be non-negative but below iter_locked. Then num_keep = num_locked + iter_keep is below the new num_locked = num_locked + iter_locked: line 902 puts the residual vector into a slot the new num_locked counts as locked, and the next sweep starts at j = num_keep, overwriting locked Ritz values. | nEv = nConv = 16, nKr = 24, first sweep with iter_locked = 13 and iter_converged = 14: iter_keep = 12, so slot 12 holds the residual although 13 vectors count as locked, and the next sweep rewrites alpha[12] | as above: iter_keep >= iter_locked, here 13 | not executed | Scan.IterKeepAsWrittenBelowLockedExample | Scan.IterKeep |
| lib/eigensolve_quda.cpp:56-60 | The checks test nEv, nKr and nConv for `== 0`, so negative sizes pass. | nEv = 4, nKr = 10, nConv = -4 passes every size check and the restart-buffer check (nKr >= nEv + 6) | reject non-positive sizes (`<= 0`) | not executed | Config.SizeChecksAsWrittenAdmitNegativeSizes | Config.SizeChecks |
