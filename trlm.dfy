/** The thick-restart Lanczos solver (`TRLM`): its coefficient arrays alpha,
    beta and residua, the Ritz matrix, the residual vector and the restart
    counters, and the member functions that update them in place. The Krylov
    basis `kSpace` is a sequence of vector contents (see `Krylov.Vec`) passed
    in and out, as the source passes its vector of fields by reference. The
    dense symmetric eigensolver and the scalar BLAS results are oracles. */
module Trlm {
  import opened Config
  import Scan
  import Arrow
  import Reorder
  import opened Krylov

  /** What the dense symmetric eigensolver returns: the eigenvalues and the
      eigenvectors; vectors[i] is the eigenvector of values[i]. */
  datatype Decomposition = Decomposition(values: seq<real>, vectors: seq<seq<real>>)

  /** A decomposition of a dim x dim matrix: dim eigenvalues in increasing
      order, dim eigenvectors of dim entries each. */
  ghost predicate Conforms(d: Decomposition, dim: int) {
    && |d.values| == dim && |d.vectors| == dim
    && (forall i :: 0 <= i < dim ==> |d.vectors[i]| == dim)
    && Reorder.SortedBetween(d.values, 0, dim, false)
  }

  /** The dense eigensolver conforms on every square matrix. */
  ghost predicate DenseOracle(eig: Arrow.Matrix -> Decomposition) {
    forall m :: Arrow.Square(m, |m|) ==> Conforms(eig(m), |m|)
  }

  /** The decomposition the dense eigensolver returns for the arrow matrix
      laid out from the windows diag and off. */
  function ArrowSpectrum(eig: Arrow.Matrix -> Decomposition, diag: seq<real>, off: seq<real>, arrowPos: int): (d: Decomposition)
    requires DenseOracle(eig) && 2 <= arrowPos <= |diag| && |diag| - 1 <= |off|
    ensures Conforms(d, |diag|)
  {
    eig(Arrow.ArrowMatrix(diag, off, arrowPos))
  }

  /** How `operator()` ends: converged, out of restarts with a warning, or
      out of restarts with `require_convergence` set, where the solver aborts. */
  datatype Outcome = Converged | Exhausted | Aborted

  /** The window s with every entry negated when `on` holds: the spectrum
      inversion applied before the dense eigensolve when sorting in reverse. */
  function Negated(s: seq<real>, on: bool): (r: seq<real>)
    ensures |r| == |s|
    ensures forall i :: 0 <= i < |s| ==> r[i] == if on then -s[i] else s[i]
  {
    seq(|s|, i requires 0 <= i < |s| => if on then -s[i] else s[i])
  }

  /** beta after the coupling loop of `computeKeptRitz`: entry nl + i, for
      i < keep, becomes the last entry of beta times the last entry of row i
      of the Ritz matrix; every other entry is kept. */
  function Coupled(beta: seq<real>, ritz: seq<seq<real>>, nl: int, keep: int): (r: seq<real>)
    requires 0 <= nl && 0 <= keep && 1 <= |ritz| && nl + keep <= |beta|
    requires forall i :: 0 <= i < |ritz| ==> |ritz[i]| == |ritz|
    requires keep <= |ritz|
    ensures |r| == |beta|
  {
    seq(|beta|, k requires 0 <= k < |beta| =>
          if nl <= k < nl + keep then beta[|beta| - 1] * ritz[k - nl][|ritz| - 1] else beta[k])
  }

  /** beta after the spectrum inversion: negated on [nl, |beta| - 1) when `on`
      holds; the last entry, which couples the window to the residual, keeps
      its sign. */
  function InvertedCouplings(beta: seq<real>, nl: int, on: bool): (r: seq<real>)
    requires 0 <= nl < |beta|
    ensures |r| == |beta|
    ensures forall k :: 0 <= k < |beta| ==> r[k] == if on && nl <= k < |beta| - 1 then -beta[k] else beta[k]
  {
    seq(|beta|, k requires 0 <= k < |beta| => if on && nl <= k < |beta| - 1 then -beta[k] else beta[k])
  }

  /** The window [nl, |alpha|) once a decomposition d of the arrow matrix is
      stored: alpha holds its eigenvalues with their sign restored, in the
      order the solver sorts in, and residua holds the residual estimates
      |betaLast * (last entry of each eigenvector)|. */
  ghost predicate RitzStored(alpha: seq<real>, residua: seq<real>, betaLast: real, nl: int, d: Decomposition, reverse: bool) {
    && 0 <= nl <= |alpha| && |residua| == |alpha| && Conforms(d, |alpha| - nl)
    && (forall k :: nl <= k < |alpha| ==> alpha[k] == if reverse then -d.values[k - nl] else d.values[k - nl])
    && (forall k :: nl <= k < |alpha| ==> residua[k] == Scan.Abs(betaLast * d.vectors[k - nl][|alpha| - nl - 1]))
    && Reorder.SortedBetween(alpha, nl, |alpha|, reverse)
  }

  /** Every residual estimate stored with a decomposition is non-negative. */
  lemma RitzStoredResiduaNonNegative(alpha: seq<real>, residua: seq<real>, betaLast: real, nl: int,
                                     d: Decomposition, reverse: bool)
    requires RitzStored(alpha, residua, betaLast, nl, d, reverse)
    ensures forall k :: nl <= k < |residua| ==> residua[k] >= 0.0
  {
  }

  /** Slot s of the basis after `computeKeptRitz`, given the basis v before
      it: for i < keep, slots nl + i and nKr + 1 + i hold compressed vector i
      (row i of the Ritz matrix applied to the window v[nl .. nKr)), slot
      nl + keep holds the last Lanczos vector v[nKr], and every other slot
      keeps its vector, or is a fresh field where the basis grew. */
  function KeptSlot(v: seq<Vec>, ritz: seq<seq<real>>, nl: int, keep: int, nKr: int, s: int): Vec
    requires 0 <= nl && 0 <= keep < nKr - nl && nKr + 1 <= |v| && 0 <= s
    requires |ritz| == nKr - nl && forall i :: 0 <= i < |ritz| ==> |ritz[i]| == nKr - nl
  {
    if nl <= s < nl + keep then KeptVector(ritz[s - nl], v[nl..nKr])
    else if s == nl + keep then v[nKr]
    else if nKr + 1 <= s < nKr + 1 + keep then KeptVector(ritz[s - nKr - 1], v[nl..nKr])
    else if s < |v| then v[s]
    else Blank
  }

  /** The basis v' is v after `computeKeptRitz`, slot by slot. */
  ghost predicate KeptLayout(v: seq<Vec>, v': seq<Vec>, ritz: seq<seq<real>>, nl: int, keep: int, nKr: int) {
    && 0 <= nl && 0 <= keep < nKr - nl && nKr + 1 <= |v| && nKr + 1 + keep <= |v'|
    && |ritz| == nKr - nl && (forall i :: 0 <= i < |ritz| ==> |ritz[i]| == nKr - nl)
    && forall s :: 0 <= s < |v'| ==> v'[s] == KeptSlot(v, ritz, nl, keep, nKr, s)
  }

  /** The compression loop (built), then the copy loop (copied), then the
      last Lanczos vector moved to slot nl + keep give the layout of
      `computeKeptRitz`. */
  lemma {:induction false} PlacedLayout(v: seq<Vec>, built: seq<Vec>, copied: seq<Vec>, ritz: seq<seq<real>>,
                                        nl: int, keep: int, nKr: int)
    requires 0 <= nl && 0 <= keep < nKr - nl && nKr + 1 + keep <= |v|
    requires |ritz| == nKr - nl && forall i :: 0 <= i < |ritz| ==> |ritz[i]| == nKr - nl
    requires |built| == |v|
    requires forall s {:trigger built[s]} :: 0 <= s < |v| ==>
               built[s] == if nKr + 1 <= s < nKr + 1 + keep then KeptVector(ritz[s - nKr - 1], v[nl..nKr]) else v[s]
    requires |copied| == |v|
    requires forall s {:trigger copied[s]} :: 0 <= s < |v| ==>
               copied[s] == if nl <= s < nl + keep then built[s - nl + nKr + 1] else built[s]
    ensures KeptLayout(v, copied[nl + keep := copied[nKr]], ritz, nl, keep, nKr)
  {
    var v' := copied[nl + keep := copied[nKr]];
    forall s | 0 <= s < |v'|
      ensures v'[s] == KeptSlot(v, ritz, nl, keep, nKr, s)
    {
      if s == nl + keep {
        assert v'[s] == copied[nKr] == built[nKr];
      } else if nl <= s < nl + keep {
        assert v'[s] == copied[s] == built[s - nl + nKr + 1];
      } else {
        assert v'[s] == copied[s] == built[s];
      }
    }
  }

  /** Growing the basis with fresh fields first does not change the layout:
      the window, the last Lanczos vector and the old slots are where they
      were. */
  lemma {:induction false} GrownLayout(v: seq<Vec>, grown: seq<Vec>, v': seq<Vec>, ritz: seq<seq<real>>,
                                       nl: int, keep: int, nKr: int)
    requires nKr + 1 <= |v| <= |grown|
    requires forall s {:trigger grown[s]} :: 0 <= s < |grown| ==> grown[s] == if s < |v| then v[s] else Blank
    requires KeptLayout(grown, v', ritz, nl, keep, nKr)
    ensures KeptLayout(v, v', ritz, nl, keep, nKr)
  {
    assert grown[nl..nKr] == v[nl..nKr];
    forall s | 0 <= s < |v'|
      ensures v'[s] == KeptSlot(v, ritz, nl, keep, nKr, s)
    {
      assert grown[nKr] == v[nKr];
      if s < |grown| {
        assert grown[s] == if s < |v| then v[s] else Blank;
      }
    }
  }

  /** A slice whose entries are those of s0, negated when `on`, is the
      negated slice of s0. */
  lemma NegatedSlice(s: seq<real>, s0: seq<real>, lo: int, hi: int, on: bool)
    requires 0 <= lo <= hi <= |s| == |s0|
    requires forall k :: lo <= k < hi ==> s[k] == if on then -s0[k] else s0[k]
    ensures s[lo..hi] == Negated(s0[lo..hi], on)
  {
  }

  /** A sequence whose entries are those of s0, negated on [nl, |s0| - 1)
      when `on`, is the inverted couplings of s0. */
  lemma InvertedCouplingsOf(s: seq<real>, s0: seq<real>, nl: int, on: bool)
    requires 0 <= nl < |s| == |s0|
    requires forall k :: 0 <= k < |s| ==> s[k] == if on && nl <= k < |s| - 1 then -s0[k] else s0[k]
    ensures s == InvertedCouplings(s0, nl, on)
  {
  }

  /** alpha[i] *= -1.0 for i in [lo, hi). */
  method NegateRange(a: array<real>, lo: int, hi: int)
    requires 0 <= lo <= hi <= a.Length
    modifies a
    ensures forall k :: 0 <= k < a.Length ==> a[k] == if lo <= k < hi then -old(a[k]) else old(a[k])
  {
    var i := lo;
    while i < hi
      invariant lo <= i <= hi
      invariant forall k :: 0 <= k < a.Length ==> a[k] == if lo <= k < i then -old(a[k]) else old(a[k])
    {
      a[i] := -a[i];
      i := i + 1;
    }
  }

  /** Eigenvalues in increasing order, copied to s[lo ..] with their sign
      restored, are in the order the solver sorts in: increasing, or
      decreasing when sorting in reverse. */
  lemma {:induction false} RestoredWindowSorted(s: seq<real>, values: seq<real>, lo: int, reverse: bool)
    requires 0 <= lo && |s| == lo + |values|
    requires Reorder.SortedBetween(values, 0, |values|, false)
    requires forall i :: 0 <= i < |values| ==> s[lo + i] == if reverse then -values[i] else values[i]
    ensures Reorder.SortedBetween(s, lo, |s|, reverse)
  {
    forall p, q | lo <= p < q < |s|
      ensures Reorder.InOrder(s[p], s[q], reverse)
    {
      assert s[p] == s[lo + (p - lo)] && s[q] == s[lo + (q - lo)];
      assert Reorder.InOrder(values[p - lo], values[q - lo], false);
    }
  }

  class Solver {
    const nEv: int
    const nKr: int
    const nConv: int
    const tol: real
    const maxRestarts: int
    const reverse: bool
    const requireConvergence: bool
    const eig: Arrow.Matrix -> Decomposition
    const blas: Blas

    /** The arrow (tridiagonal after the restart point) matrix coefficients and
        the residual estimates, each of length nKr. */
    const alpha: array<real>
    const beta: array<real>
    const residua: array<real>

    /** `ritz_mat`, dim x dim for dim = nKr - num_locked; ritzMat[i][j] is the
        source's ritz_mat[dim * i + j], entry j of eigenvector i. */
    var ritzMat: seq<seq<real>>
    /** The residual vector r[0]. */
    var r: Vec

    var numKeep: int
    var numLocked: int
    var numConverged: int
    var iterKeep: int
    var iterLocked: int
    var iterConverged: int
    var restartIter: int
    var iter: int
    var converged: bool

    /** The sizes fixed at construction. */
    ghost predicate Shaped() {
      && 0 < nConv <= nEv && nEv + 6 <= nKr
      && alpha.Length == nKr && beta.Length == nKr && residua.Length == nKr
      && alpha != beta && alpha != residua && beta != residua
    }

    /** What the dense eigensolver and the BLAS results may be relied on for. */
    ghost predicate Oracles() {
      DenseOracle(eig) && ValidBlas(blas)
    }

    ghost predicate Valid()
      reads this`numKeep, this`numLocked, this`numConverged, this`restartIter, this`converged
    {
      && Shaped()
      && 0 <= numLocked <= numKeep < nKr
      && numLocked <= numConverged < nKr
      && 0 <= restartIter
      && (converged <==> numConverged >= nConv)
    }

    /** The state a freshly constructed solver starts `operator()` from. */
    predicate Initial()
      reads this
    {
      && numKeep == 0 && numLocked == 0 && numConverged == 0
      && iterKeep == 0 && iterLocked == 0 && iterConverged == 0
      && restartIter == 0 && iter == 0 && !converged
    }

    /** The EigenSolver and TRLM constructors once every check has passed:
        counters zero, alpha, beta and residua zero-filled. */
    constructor(s: Settings, eig: Arrow.Matrix -> Decomposition, blas: Blas)
      requires ValidSettings(s) && DenseOracle(eig) && ValidBlas(blas)
      ensures Valid() && Oracles() && Initial()
      ensures nEv == s.nEv && nKr == s.nKr && nConv == s.nConv && tol == s.tol
      ensures maxRestarts == s.maxRestarts && reverse == s.reverse && requireConvergence == s.requireConvergence
      ensures this.eig == eig && this.blas == blas
      ensures fresh(alpha) && fresh(beta) && fresh(residua)
      ensures forall k :: 0 <= k < nKr ==> alpha[k] == 0.0 && beta[k] == 0.0 && residua[k] == 0.0
    {
      nEv := s.nEv;
      nKr := s.nKr;
      nConv := s.nConv;
      tol := s.tol;
      maxRestarts := s.maxRestarts;
      reverse := s.reverse;
      requireConvergence := s.requireConvergence;
      this.eig := eig;
      this.blas := blas;
      residua := new real[s.nKr](_ => 0.0);
      alpha := new real[s.nKr](_ => 0.0);
      beta := new real[s.nKr](_ => 0.0);
      ritzMat := [];
      r := Zero;
      numKeep, numLocked, numConverged := 0, 0, 0;
      iterKeep, iterLocked, iterConverged := 0, 0, 0;
      restartIter, iter := 0, 0;
      converged := false;
    }

    /** `EigenSolver::create` followed by the constructors: a solver exactly
        when the parameters pass every check, the first failing check otherwise. */
    static method Build(p: EigParam, eig: Arrow.Matrix -> Decomposition, blas: Blas)
      returns (res: Result<Solver, ConfigError>)
      requires DenseOracle(eig) && ValidBlas(blas)
      ensures res.Success? <==> Create(p).Success?
      ensures res.Failure? ==> res.error == Create(p).error
      ensures res.Success? ==>
        && fresh(res.value) && res.value.Valid() && res.value.Oracles() && res.value.Initial()
        && res.value.nEv == p.nEv && res.value.nKr == p.nKr && res.value.nConv == p.nConv
        && res.value.maxRestarts == p.maxRestarts && res.value.requireConvergence == p.requireConvergence
        && res.value.reverse == Create(p).value.reverse
    {
      match Create(p)
      case Failure(e) =>
        res := Failure(e);
      case Success(s) =>
        CreateGivesValidSettings(p);
        var solver := new Solver(s, eig, blas);
        res := Success(solver);
    }

    /** `lanczosStep(v, j)`: one step of the Lanczos recurrence. It writes
        alpha[j], the residual r, beta[j] = ||r|| and the next basis vector
        v[j + 1] = r / beta[j]; the recurrence reads beta[i] v[i] for i from
        `RecurrenceStart(j, num_keep)` up to j - 1. */
    method LanczosStep(v: seq<Vec>, j: int) returns (v': seq<Vec>)
      requires alpha.Length == nKr && beta.Length == nKr && alpha != beta
      requires 0 <= numKeep && 0 <= j < nKr && nKr + 1 <= |v|
      modifies this`r, alpha, beta
      ensures alpha[..] == old(alpha[..])[j := blas.reDot(v[j], Applied(v[j]))]
      ensures r == LanczosResidual(v, alpha[j], old(beta[..]), j, numKeep)
      ensures beta[..] == old(beta[..])[j := blas.norm(r)]
      ensures v' == v[j + 1 := Quotient(r, beta[j])]
    {
      var res := Applied(v[j]);
      alpha[j] := blas.reDot(v[j], res);
      res := Axpy(-alpha[j], v[j], res);
      ghost var res0 := res;
      var start := RecurrenceStart(j, numKeep);
      var i := start;
      while i < j
        invariant start <= i <= j
        invariant res == Deflate(res0, beta[..], v, start, i)
      {
        res := Axpy(-beta[i], v[i], res);
        i := i + 1;
      }
      if j > 0 {
        res := Orthogonalised(res, v[..j + 1]);
      }
      r := res;
      beta[j] := blas.norm(r);
      v' := v[j + 1 := Quotient(r, beta[j])];
    }

    /** The Lanczos steps num_keep .. nKr - 1 of one restart sweep. Afterwards
        the Lanczos relation holds for every new step, the slots up to
        num_keep and beyond nKr are untouched, and so are alpha and beta below
        num_keep. */
    method Expand(v: seq<Vec>) returns (v': seq<Vec>)
      requires alpha.Length == nKr && beta.Length == nKr && alpha != beta
      requires 0 <= numKeep < nKr && nKr + 1 <= |v| && ValidBlas(blas)
      modifies this`r, alpha, beta
      ensures |v'| == |v|
      ensures forall k :: 0 <= k <= numKeep || nKr < k < |v| ==> v'[k] == v[k]
      ensures forall k :: 0 <= k < numKeep ==> alpha[k] == old(alpha[k]) && beta[k] == old(beta[k])
      ensures forall k :: numKeep <= k < nKr ==> beta[k] >= 0.0
      ensures forall k :: numKeep <= k < nKr ==> LanczosRelation(v', alpha[..], beta[..], k, numKeep, blas)
    {
      v' := v;
      var step := numKeep;
      while step < nKr
        invariant numKeep <= step <= nKr
        invariant |v'| == |v|
        invariant forall k :: 0 <= k <= numKeep || step < k < |v| ==> v'[k] == v[k]
        invariant forall k :: 0 <= k < numKeep ==> alpha[k] == old(alpha[k]) && beta[k] == old(beta[k])
        invariant forall k :: numKeep <= k < step ==> beta[k] >= 0.0
        invariant forall k :: numKeep <= k < step ==> LanczosRelation(v', alpha[..], beta[..], k, numKeep, blas)
      {
        ghost var (v0, alpha0, beta0) := (v', alpha[..], beta[..]);
        v' := LanczosStep(v', step);
        assert beta[step] >= 0.0;
        forall k | numKeep <= k < step
          ensures LanczosRelation(v', alpha[..], beta[..], k, numKeep, blas)
        {
          assert v'[..k + 2] == v0[..k + 2];
          LanczosRelationFrame(v0, alpha0, beta0, v', alpha[..], beta[..], k, numKeep, blas);
        }
        assert LanczosRelation(v', alpha[..], beta[..], step, numKeep, blas) by {
          assert v'[..step + 1] == v0[..step + 1];
          LanczosResidualReads(v0, v', alpha[step], beta0, beta[..], step, numKeep);
        }
        step := step + 1;
      }
    }

    /** The spectrum inversion before the dense eigensolve, when sorting in
        reverse: alpha and beta are negated on [num_locked, nKr - 1), then
        alpha[nKr - 1]; beta[nKr - 1] keeps its sign. */
    method InvertWindow(nl: int)
      requires alpha.Length == nKr && beta.Length == nKr && alpha != beta
      requires 0 <= nl <= nKr - 2
      modifies alpha, beta
      ensures forall k :: 0 <= k < nl ==> alpha[k] == old(alpha[k])
      ensures alpha[nl..] == Negated(old(alpha[nl..]), reverse)
      ensures beta[nl..nKr - 1] == Negated(old(beta[nl..nKr - 1]), reverse)
      ensures beta[..] == InvertedCouplings(old(beta[..]), nl, reverse)
    {
      ghost var alpha0, beta0 := alpha[..], beta[..];
      if reverse {
        NegateRange(alpha, nl, nKr - 1);
        NegateRange(beta, nl, nKr - 1);
        alpha[nKr - 1] := -alpha[nKr - 1];
      }
      NegatedSlice(alpha[..], alpha0, nl, nKr, reverse);
      NegatedSlice(beta[..], beta0, nl, nKr - 1, reverse);
      InvertedCouplingsOf(beta[..], beta0, nl, reverse);
    }

    /** The loop after the dense eigensolve: residua[num_locked + i] is
        |beta[nKr - 1] * (last entry of eigenvector i)| and
        alpha[num_locked + i] eigenvalue i. */
    method StoreRitz(nl: int, d: Decomposition)
      requires alpha.Length == nKr && beta.Length == nKr && residua.Length == nKr
      requires alpha != beta && alpha != residua && beta != residua
      requires 0 <= nl <= nKr - 2 && Conforms(d, nKr - nl)
      modifies alpha, residua
      ensures forall k :: 0 <= k < nKr ==>
                alpha[k] == (if nl <= k then d.values[k - nl] else old(alpha[k]))
      ensures forall k :: 0 <= k < nKr ==>
                residua[k] == (if nl <= k then Scan.Abs(beta[nKr - 1] * d.vectors[k - nl][nKr - nl - 1]) else old(residua[k]))
    {
      var dim := nKr - nl;
      var i := 0;
      while i < dim
        invariant 0 <= i <= dim
        invariant forall k :: 0 <= k < nKr ==>
                    alpha[k] == (if nl <= k < nl + i then d.values[k - nl] else old(alpha[k]))
        invariant forall k :: 0 <= k < nKr ==>
                    residua[k] == (if nl <= k < nl + i then Scan.Abs(beta[nKr - 1] * d.vectors[k - nl][dim - 1])
                                   else old(residua[k]))
      {
        residua[i + nl] := Scan.Abs(beta[nKr - 1] * d.vectors[i][dim - 1]);
        alpha[i + nl] := d.values[i];
        i := i + 1;
      }
    }

    /** The sign restore after the dense eigensolve: the loop of `StoreRitz`,
        then alpha[num_locked .. nKr) negated back when sorting in reverse.
        The Ritz values of the window end up in the order the solver sorts
        in, and every residual estimate is non-negative. */
    method StoreRestored(nl: int, d: Decomposition)
      requires alpha.Length == nKr && beta.Length == nKr && residua.Length == nKr
      requires alpha != beta && alpha != residua && beta != residua
      requires 0 <= nl <= nKr - 2 && Conforms(d, nKr - nl)
      modifies this`ritzMat, alpha, residua
      ensures ritzMat == d.vectors
      ensures RitzStored(alpha[..], residua[..], beta[nKr - 1], nl, d, reverse)
      ensures forall k :: 0 <= k < nl ==> alpha[k] == old(alpha[k]) && residua[k] == old(residua[k])
    {
      ritzMat := d.vectors;
      StoreRitz(nl, d);
      ghost var stored := residua[..];
      if reverse {
        NegateRange(alpha, nl, nKr);
      }
      forall k | nl <= k < nKr
        ensures residua[..][k] == Scan.Abs(beta[nKr - 1] * d.vectors[k - nl][nKr - nl - 1])
      {
        assert residua[..][k] == stored[k] == residua[k];
      }
      RestoredWindowSorted(alpha[..], d.values, nl, reverse);
      assert |alpha[..]| == nKr;
      assert forall k :: nl <= k < |alpha[..]| ==> residua[..][k] == Scan.Abs(beta[nKr - 1] * d.vectors[k - nl][|alpha[..]| - nl - 1]);
      assert RitzStored(alpha[..], residua[..], beta[nKr - 1], nl, d, reverse);
    }

    /** `eigensolveFromArrowMat(num_locked, arrow_pos)`: invert the windows
        when sorting in reverse, lay out the arrow matrix of dimension
        dim = nKr - num_locked, hand it to the dense eigensolver, store its
        eigenvectors as the Ritz matrix, its eigenvalues (sign restored) in
        alpha and the residual estimates in residua. The Ritz values of the
        window come out in the order the solver sorts in, every residual
        estimate is non-negative, and beta[num_locked .. nKr - 1) keeps the
        inverted sign. */
    method EigensolveFromArrowMat(nl: int, arrowPos: int) returns (ghost d: Decomposition)
      requires alpha.Length == nKr && beta.Length == nKr && residua.Length == nKr
      requires alpha != beta && alpha != residua && beta != residua && DenseOracle(eig)
      requires 0 <= nl <= nKr - 2 && 2 <= arrowPos <= nKr - nl
      modifies this`ritzMat, alpha, beta, residua
      ensures d == ArrowSpectrum(eig, Negated(old(alpha[nl..]), reverse), Negated(old(beta[nl..nKr - 1]), reverse), arrowPos)
      ensures ritzMat == d.vectors
      ensures RitzStored(alpha[..], residua[..], beta[nKr - 1], nl, d, reverse)
      ensures forall k :: 0 <= k < nl ==> alpha[k] == old(alpha[k]) && residua[k] == old(residua[k])
      ensures beta[..] == InvertedCouplings(old(beta[..]), nl, reverse)
    {
      var dec := Decompose(nl, arrowPos);
      d := dec;
      StoreRestored(nl, dec);
    }

    /** The first half of `eigensolveFromArrowMat`: invert the window when
        sorting in reverse, lay out the arrow matrix from it and run the dense
        eigensolver on it. */
    method Decompose(nl: int, arrowPos: int) returns (d: Decomposition)
      requires alpha.Length == nKr && beta.Length == nKr && alpha != beta && DenseOracle(eig)
      requires 0 <= nl <= nKr - 2 && 2 <= arrowPos <= nKr - nl
      modifies alpha, beta
      ensures d == ArrowSpectrum(eig, Negated(old(alpha[nl..]), reverse), Negated(old(beta[nl..nKr - 1]), reverse), arrowPos)
      ensures forall k :: 0 <= k < nl ==> alpha[k] == old(alpha[k])
      ensures beta[..] == InvertedCouplings(old(beta[..]), nl, reverse)
    {
      InvertWindow(nl);
      var a := Arrow.Build(alpha[nl..], beta[nl..nKr - 1], arrowPos);
      d := eig(a);
    }

    /** The growth loop of `computeKeptRitz`: push fresh fields until there
        are at least `size` slots. */
    static method Grow(kSpace: seq<Vec>, size: int) returns (kSpace': seq<Vec>)
      ensures |kSpace'| == Scan.Max(|kSpace|, size)
      ensures forall s {:trigger kSpace'[s]} :: 0 <= s < |kSpace'| ==> kSpace'[s] == if s < |kSpace| then kSpace[s] else Blank
    {
      kSpace' := kSpace;
      if |kSpace'| < size {
        var i := |kSpace'|;
        while i < size
          invariant |kSpace| <= i <= size && |kSpace'| == i
          invariant forall s :: 0 <= s < i ==> kSpace'[s] == if s < |kSpace| then kSpace[s] else Blank
        {
          kSpace' := kSpace' + [Blank];
          i := i + 1;
        }
      }
    }

    /** The compression loop of `computeKeptRitz`: slot nKr + 1 + i receives
        row i of the Ritz matrix applied to kSpace[num_locked .. nKr), built
        in r as ritz[i][0] * kSpace[num_locked] plus one multi-axpy. */
    method Compress(kSpace: seq<Vec>) returns (kSpace': seq<Vec>)
      requires 0 <= numLocked && 0 <= iterKeep < nKr - numLocked && nKr + 1 + iterKeep <= |kSpace|
      requires |ritzMat| == nKr - numLocked && forall i :: 0 <= i < |ritzMat| ==> |ritzMat[i]| == nKr - numLocked
      modifies this`r
      ensures |kSpace'| == |kSpace|
      ensures forall s {:trigger kSpace'[s]} :: 0 <= s < |kSpace| ==>
                kSpace'[s] == if nKr + 1 <= s < nKr + 1 + iterKeep then KeptVector(ritzMat[s - nKr - 1], kSpace[numLocked..nKr])
                              else kSpace[s]
      ensures iterKeep > 0 ==> r == Scaled(ritzMat[iterKeep - 1][0], kSpace[numLocked])
      ensures iterKeep == 0 ==> r == old(r)
    {
      var offset := nKr + 1;
      var dim := nKr - numLocked;
      kSpace' := kSpace;
      var i := 0;
      while i < iterKeep
        invariant 0 <= i <= iterKeep && |kSpace'| == |kSpace|
        invariant forall s :: 0 <= s < |kSpace| ==>
                    kSpace'[s] == if offset <= s < offset + i then KeptVector(ritzMat[s - offset], kSpace[numLocked..nKr])
                                  else kSpace[s]
        invariant i > 0 ==> r == Scaled(ritzMat[i - 1][0], kSpace[numLocked])
        invariant i == 0 ==> r == old(r)
      {
        var k := offset + i;
        r := Scaled(ritzMat[i][0], kSpace'[numLocked]);
        assert kSpace'[numLocked + 1..numLocked + dim] == kSpace[numLocked..nKr][1..];
        kSpace' := kSpace'[k := MultiAxpy(ritzMat[i][1..], kSpace'[numLocked + 1..numLocked + dim], r)];
        i := i + 1;
      }
    }

    /** The copy loop of `computeKeptRitz`: slot `to + i` receives slot
        `from + i` for i < count; the source slots lie above the targets. */
    static method CopyBack(kSpace: seq<Vec>, from: int, to: int, count: int) returns (kSpace': seq<Vec>)
      requires 0 <= to && 0 <= count && to + count <= from && from + count <= |kSpace|
      ensures |kSpace'| == |kSpace|
      ensures forall s {:trigger kSpace'[s]} :: 0 <= s < |kSpace| ==> kSpace'[s] == if to <= s < to + count then kSpace[s - to + from] else kSpace[s]
    {
      kSpace' := kSpace;
      var i := 0;
      while i < count
        invariant 0 <= i <= count && |kSpace'| == |kSpace|
        invariant forall s {:trigger kSpace'[s]} :: 0 <= s < |kSpace| ==> kSpace'[s] == if to <= s < to + i then kSpace[s - to + from] else kSpace[s]
      {
        kSpace' := kSpace'[i + to := kSpace'[from + i]];
        i := i + 1;
      }
    }

    /** The last loop of `computeKeptRitz`: the arrow couplings
        beta[num_locked + i] = beta[nKr - 1] * (last entry of eigenvector i). */
    method RewriteBeta()
      requires beta.Length == nKr && 0 <= numLocked && 0 <= iterKeep < nKr - numLocked
      requires |ritzMat| == nKr - numLocked && forall i :: 0 <= i < |ritzMat| ==> |ritzMat[i]| == nKr - numLocked
      modifies beta
      ensures beta[..] == Coupled(old(beta[..]), ritzMat, numLocked, iterKeep)
    {
      var dim := nKr - numLocked;
      var i := 0;
      while i < iterKeep
        invariant 0 <= i <= iterKeep
        invariant forall k :: 0 <= k < nKr ==>
                    beta[k] == if numLocked <= k < numLocked + i then old(beta[nKr - 1]) * ritzMat[k - numLocked][dim - 1]
                               else old(beta[k])
      {
        beta[i + numLocked] := beta[nKr - 1] * ritzMat[i][dim - 1];
        i := i + 1;
      }
      ghost var c := Coupled(old(beta[..]), ritzMat, numLocked, iterKeep);
      assert forall k :: 0 <= k < nKr ==> beta[k] == c[k];
    }

    /** The compression and copy loops of `computeKeptRitz` on a basis that
        already has nKr + 1 + iter_keep slots, then the last Lanczos vector
        moved after the kept block. */
    method Place(kSpace: seq<Vec>) returns (kSpace': seq<Vec>)
      requires 0 <= numLocked && 0 <= iterKeep < nKr - numLocked && nKr + 1 + iterKeep <= |kSpace|
      requires |ritzMat| == nKr - numLocked && forall i :: 0 <= i < |ritzMat| ==> |ritzMat[i]| == nKr - numLocked
      modifies this`r
      ensures |kSpace'| == |kSpace|
      ensures KeptLayout(kSpace, kSpace', ritzMat, numLocked, iterKeep, nKr)
      ensures iterKeep > 0 ==> r == Scaled(ritzMat[iterKeep - 1][0], kSpace[numLocked])
      ensures iterKeep == 0 ==> r == old(r)
    {
      var built := Compress(kSpace);
      var copied := CopyBack(built, nKr + 1, numLocked, iterKeep);
      kSpace' := copied[numLocked + iterKeep := copied[nKr]];
      PlacedLayout(kSpace, built, copied, ritzMat, numLocked, iterKeep, nKr);
    }

    /** The vector part of `computeKeptRitz`: grow the basis, compress the
        window into the slots above nKr, copy them back to num_locked and put
        the last Lanczos vector after them. */
    method Relocate(kSpace: seq<Vec>) returns (kSpace': seq<Vec>)
      requires 0 <= numLocked && 0 <= iterKeep < nKr - numLocked && nKr + 1 <= |kSpace|
      requires |ritzMat| == nKr - numLocked && forall i :: 0 <= i < |ritzMat| ==> |ritzMat[i]| == nKr - numLocked
      modifies this`r
      ensures |kSpace'| == Scan.Max(|kSpace|, nKr + 1 + iterKeep)
      ensures KeptLayout(kSpace, kSpace', ritzMat, numLocked, iterKeep, nKr)
      ensures iterKeep > 0 ==> r == Scaled(ritzMat[iterKeep - 1][0], kSpace[numLocked])
      ensures iterKeep == 0 ==> r == old(r)
    {
      var grown := Grow(kSpace, nKr + 1 + iterKeep);
      kSpace' := Place(grown);
      GrownLayout(kSpace, grown, kSpace', ritzMat, numLocked, iterKeep, nKr);
    }

    /** `computeKeptRitz`: compress the basis window kSpace[num_locked .. nKr)
        into iter_keep Ritz vectors. The basis grows to at least
        nKr + 1 + iter_keep slots; slot nKr + 1 + i receives row i of the Ritz
        matrix applied to the window and is copied to slot num_locked + i;
        slot num_locked + iter_keep receives the last Lanczos vector
        kSpace[nKr]; beta[num_locked + i] becomes the coupling
        beta[nKr - 1] * (last entry of eigenvector i). Nothing else changes. */
    method ComputeKeptRitz(kSpace: seq<Vec>) returns (kSpace': seq<Vec>)
      requires beta.Length == nKr && 0 <= numLocked && 0 <= iterKeep < nKr - numLocked && nKr + 1 <= |kSpace|
      requires |ritzMat| == nKr - numLocked && forall i :: 0 <= i < |ritzMat| ==> |ritzMat[i]| == nKr - numLocked
      modifies this`r, beta
      ensures |kSpace'| == Scan.Max(|kSpace|, nKr + 1 + iterKeep)
      ensures KeptLayout(kSpace, kSpace', ritzMat, numLocked, iterKeep, nKr)
      ensures beta[..] == Coupled(old(beta[..]), ritzMat, numLocked, iterKeep)
      ensures iterKeep > 0 ==> r == Scaled(ritzMat[iterKeep - 1][0], kSpace[numLocked])
      ensures iterKeep == 0 ==> r == old(r)
    {
      // The beta loop reads and writes no basis vector, so running it first
      // gives the same state as the source's order.
      RewriteBeta();
      kSpace' := Relocate(kSpace);
    }

    /** The first half of one restart of `operator()`: the Lanczos sweep from
        num_keep to nKr, then the dense eigensolve of the arrow matrix. The
        sweep's coefficients are returned as `sweptAlpha` and `sweptBeta`;
        below num_keep they are the values the previous restart left, so the
        kept block of the arrow matrix holds the previous Ritz values and
        couplings. */
    method Sweep(kSpace: seq<Vec>)
      returns (kSpace': seq<Vec>, ghost sweptAlpha: seq<real>, ghost sweptBeta: seq<real>, ghost d: Decomposition)
      requires Valid() && Oracles() && !converged && nKr + 1 <= |kSpace|
      modifies this`r, this`iter, this`ritzMat, alpha, beta, residua
      ensures numLocked <= nKr - 7
      ensures iter == old(iter) + (nKr - numKeep)
      ensures |kSpace'| == |kSpace|
      ensures forall k :: 0 <= k <= numKeep || nKr < k < |kSpace| ==> kSpace'[k] == kSpace[k]
      ensures |sweptAlpha| == |sweptBeta| == nKr
      ensures forall k :: 0 <= k < numKeep ==> sweptAlpha[k] == old(alpha[k]) && sweptBeta[k] == old(beta[k])
      ensures forall k :: numKeep <= k < nKr ==> LanczosRelation(kSpace', sweptAlpha, sweptBeta, k, numKeep, blas)
      ensures d == ArrowSpectrum(eig, Negated(sweptAlpha[numLocked..], reverse),
                                 Negated(sweptBeta[numLocked..nKr - 1], reverse), Arrow.ArrowPos(numKeep, numLocked))
      ensures Conforms(d, nKr - numLocked) && ritzMat == d.vectors
      ensures RitzStored(alpha[..], residua[..], beta[nKr - 1], numLocked, d, reverse)
      ensures forall k :: 0 <= k < numLocked ==> alpha[k] == old(alpha[k]) && residua[k] == old(residua[k])
      ensures beta[..] == InvertedCouplings(sweptBeta, numLocked, reverse)
    {
      kSpace' := Expand(kSpace);
      iter := iter + (nKr - numKeep);
      assert Valid();
      sweptAlpha, sweptBeta := alpha[..], beta[..];
      assert sweptAlpha[numLocked..] == alpha[numLocked..] && sweptBeta[numLocked..nKr - 1] == beta[numLocked..nKr - 1];
      d := EigensolveFromArrowMat(numLocked, Arrow.ArrowPos(numKeep, numLocked));
    }

    /** The convergence check after a sweep: the matrix norm estimate, then
        how many leading Ritz values lock (against epsilon) and converge
        (against tol), and how many vectors the next restart keeps. */
    method Check(epsilon: real, matNorm: real) returns (matNorm': real)
      requires Valid() && numLocked <= nKr - 7
      modifies this`iterLocked, this`iterConverged, this`iterKeep
      ensures Valid() && 0 <= iterLocked <= iterConverged < nKr - numLocked
      ensures matNorm <= matNorm' && forall k :: numLocked <= k < nKr ==> Scan.Abs(alpha[k]) <= matNorm'
      ensures matNorm' == matNorm || exists k :: numLocked <= k < nKr && matNorm' == Scan.Abs(alpha[k])
      ensures Scan.RunEndsAt(residua[..], numLocked, 1, nKr - numLocked, epsilon * matNorm', iterLocked)
      ensures Scan.RunEndsAt(residua[..], numLocked, iterLocked + 1, nKr - numLocked, tol * matNorm', iterConverged)
      ensures iterKeep == Scan.IterKeep(iterLocked, iterConverged, numConverged, numLocked, nKr)
    {
      matNorm' := Scan.MatNorm(alpha, numLocked, nKr, matNorm);
      var locked := Scan.RunEnd(residua, numLocked, 1, nKr - numLocked, epsilon * matNorm');
      var conv := Scan.RunEnd(residua, numLocked, locked + 1, nKr - numLocked, tol * matNorm');
      iterLocked, iterConverged := locked, conv;
      iterKeep := Scan.IterKeep(locked, conv, numConverged, numLocked, nKr);
    }

    /** The end of a restart pass, after the kept Ritz vectors are
        compressed: advance the counters and, once nConv pairs have converged,
        reorder the Ritz values and vectors and flag convergence. */
    method Advance(kSpace: seq<Vec>) returns (kSpace': seq<Vec>)
      requires Valid() && !converged && nKr + 1 <= |kSpace|
      requires 0 <= iterLocked <= iterConverged < nKr - numLocked && iterLocked <= iterKeep < nKr - numLocked
      modifies this`numConverged, this`numKeep, this`numLocked, this`converged, this`restartIter, alpha
      ensures Valid() && restartIter == old(restartIter) + 1
      ensures nKr + 1 <= |kSpace'|
      ensures numLocked == old(numLocked) + iterLocked
      ensures numConverged == old(numLocked) + iterConverged
      ensures numKeep == old(numLocked) + iterKeep
      ensures converged ==> Reorder.Sorted(alpha[..], reverse)
      ensures !converged ==> kSpace' == kSpace && alpha[..] == old(alpha[..])
      ensures converged ==> |kSpace'| == |kSpace| && kSpace'[nKr..] == kSpace[nKr..]
      ensures converged ==> multiset(alpha[..]) == multiset(old(alpha[..]))
      ensures converged ==> multiset(Reorder.Pairs(alpha[..], kSpace')) == multiset(Reorder.Pairs(old(alpha[..]), kSpace))
      ensures converged && Reorder.Sorted(old(alpha[..]), reverse) ==> alpha[..] == old(alpha[..]) && kSpace' == kSpace
    {
      kSpace' := kSpace;
      numConverged := numLocked + iterConverged;
      numKeep := numLocked + iterKeep;
      numLocked := numLocked + iterLocked;
      if numConverged >= nConv {
        ghost var steps;
        kSpace', steps := Reorder.Reorder(alpha, kSpace', reverse);
        converged := true;
      }
      restartIter := restartIter + 1;
    }

    /** The state after the compression and the counter update, from the
        basis, alpha and beta before them: `kept` is the compressed basis of
        `computeKeptRitz` and beta holds its couplings; unless the pass
        converged, the basis and alpha are left as compressed, and once it
        converged, alpha and the basis are the reorder of them, (value,
        vector) pairs moved together. */
    ghost predicate Compacted(kSpace: seq<Vec>, kept: seq<Vec>, kSpace': seq<Vec>, alpha0: seq<real>, beta0: seq<real>, nl: int)
      reads this, alpha, beta
      requires Valid()
    {
      && 0 <= nl && 0 <= iterKeep < nKr - nl && nKr + 1 <= |kSpace|
      && |ritzMat| == nKr - nl && (forall i :: 0 <= i < |ritzMat| ==> |ritzMat[i]| == nKr - nl)
      && |beta0| == nKr && |alpha0| == nKr
      && |kept| == Scan.Max(|kSpace|, nKr + 1 + iterKeep)
      && KeptLayout(kSpace, kept, ritzMat, nl, iterKeep, nKr)
      && beta[..] == Coupled(beta0, ritzMat, nl, iterKeep)
      && (!converged ==> kSpace' == kept && alpha[..] == alpha0)
      && (converged ==> |kSpace'| == |kept| && kSpace'[nKr..] == kept[nKr..]
                        && multiset(alpha[..]) == multiset(alpha0)
                        && multiset(Reorder.Pairs(alpha[..], kSpace')) == multiset(Reorder.Pairs(alpha0, kept)))
    }

    /** The end of a restart pass once the scans are done: the compression
        of the kept Ritz vectors, then the counter update. */
    method Compact(kSpace: seq<Vec>) returns (kSpace': seq<Vec>, ghost kept: seq<Vec>)
      requires Valid() && !converged && nKr + 1 <= |kSpace|
      requires |ritzMat| == nKr - numLocked && forall i :: 0 <= i < |ritzMat| ==> |ritzMat[i]| == nKr - numLocked
      requires 0 <= iterLocked <= iterConverged < nKr - numLocked && iterLocked <= iterKeep < nKr - numLocked
      modifies this`r, this`numConverged, this`numKeep, this`numLocked, this`converged, this`restartIter, alpha, beta
      ensures Valid() && restartIter == old(restartIter) + 1
      ensures nKr + 1 <= |kSpace'|
      ensures numLocked == old(numLocked) + iterLocked
      ensures numConverged == old(numLocked) + iterConverged
      ensures numKeep == old(numLocked) + iterKeep
      ensures converged ==> Reorder.Sorted(alpha[..], reverse)
      ensures Compacted(kSpace, kept, kSpace', old(alpha[..]), old(beta[..]), old(numLocked))
    {
      kSpace' := ComputeKeptRitz(kSpace);
      kept := kSpace';
      assert Valid();
      kSpace' := Advance(kSpace');
    }

    /** The restart pass after the sweep: the convergence check, the
        compression of the kept Ritz vectors, and the counter update. */
    method EndSweep(kSpace: seq<Vec>, epsilon: real, matNorm: real)
      returns (kSpace': seq<Vec>, matNorm': real, ghost kept: seq<Vec>)
      requires Valid() && !converged && numLocked <= nKr - 7 && nKr + 1 <= |kSpace|
      requires |ritzMat| == nKr - numLocked && forall i :: 0 <= i < |ritzMat| ==> |ritzMat[i]| == nKr - numLocked
      modifies this`r, this`iterLocked, this`iterConverged, this`iterKeep
      modifies this`numConverged, this`numKeep, this`numLocked, this`converged, this`restartIter, alpha, beta
      ensures Valid() && restartIter == old(restartIter) + 1
      ensures nKr + 1 <= |kSpace'|
      ensures numLocked == old(numLocked) + iterLocked
      ensures numConverged == old(numLocked) + iterConverged
      ensures numKeep == old(numLocked) + iterKeep
      ensures converged ==> Reorder.Sorted(alpha[..], reverse)
      ensures Compacted(kSpace, kept, kSpace', old(alpha[..]), old(beta[..]), old(numLocked))
    {
      matNorm' := Check(epsilon, matNorm);
      kSpace', kept := Compact(kSpace);
    }

    /** `operator()` on a solver fresh from its constructor: normalise the
        initial guess (random noise when it is zero), grow the basis to
        nKr + 1 fields and the eigenvalue list to nEv entries, run restart
        passes until nConv pairs converge or max_restarts passes are spent,
        then cut the basis and the eigenvalue list back to nConv. */
    method Solve(kSpace: seq<Vec>, evals: seq<Complex>, epsilon: real)
      returns (kSpace': seq<Vec>, evals': seq<Complex>, outcome: Outcome)
      requires Valid() && Oracles() && Initial() && nConv <= |kSpace|
      modifies this, alpha, beta, residua
      ensures Valid()
      ensures |kSpace'| == nConv && |evals'| == nConv
      ensures evals' == Resize(evals + seq(nEv - nConv, _ => Complex(0.0, 0.0)), nConv, Complex(0.0, 0.0))
      ensures outcome == Converged <==> converged
      ensures converged ==> numConverged >= nConv && Reorder.Sorted(alpha[..], reverse)
      ensures !converged ==> restartIter == Scan.Max(maxRestarts, 0)
      ensures !converged ==> (outcome == Aborted <==> requireConvergence)
      ensures restartIter <= Scan.Max(maxRestarts, 0)
    {
      kSpace' := kSpace[0 := InitialGuess(kSpace[0], blas)];
      kSpace' := kSpace' + seq(nKr + 1 - nConv, _ => Blank);
      r := Zero;
      evals' := evals + seq(nEv - nConv, _ => Complex(0.0, 0.0));
      var matNorm := 0.0;
      while restartIter < maxRestarts && !converged
        invariant Valid() && Oracles() && nKr + 1 <= |kSpace'|
        invariant 0 <= restartIter <= Scan.Max(maxRestarts, 0)
        invariant converged ==> Reorder.Sorted(alpha[..], reverse)
        decreases maxRestarts - restartIter
      {
        ghost var sweptAlpha, sweptBeta, d, kept;
        kSpace', sweptAlpha, sweptBeta, d := Sweep(kSpace');
        kSpace', matNorm, kept := EndSweep(kSpace', epsilon, matNorm);
      }
      kSpace' := kSpace'[..nConv];
      evals' := Resize(evals', nConv, Complex(0.0, 0.0));
      outcome := if converged then Converged else if requireConvergence then Aborted else Exhausted;
    }
  }
}
