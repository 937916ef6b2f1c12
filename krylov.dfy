/** The contents of the Krylov basis. The vector arithmetic itself (BLAS, the
    Chebyshev-accelerated operator, block orthogonalisation) stays abstract:
    a field's contents are the term that produced them, so the model tracks
    which coefficients and which basis vectors every slot is built from
    without computing any floating-point value. */
module Krylov {

  datatype Complex = Complex(re: real, im: real)

  /** The contents of one vector field. */
  datatype Vec =
    | Given(id: int)                                  // a vector the caller passed in
    | Blank                                           // a freshly created field, not yet written
    | Zero                                            // a field created zeroed
    | Noise                                           // the random source of an empty initial guess
    | Applied(v: Vec)                                 // chebyOp(mat, v): the (accelerated) operator applied to v
    | Scaled(a: real, v: Vec)                         // blas::ax(a, v)
    | Quotient(v: Vec, d: real)                       // v / d, the normalisation by a norm
    | Axpy(a: real, x: Vec, y: Vec)                   // blas::axpy(a, x, y): y + a x
    | MultiAxpy(coeffs: seq<real>, xs: seq<Vec>, y: Vec)  // multi-BLAS axpy: y + sum of coeffs[k] xs[k]
    | Orthogonalised(v: Vec, basis: seq<Vec>)         // blockOrthogonalize(basis, v)

  /** The scalar BLAS results the core consumes: the real part of a dot
      product and the 2-norm sqrt(norm2(v)). */
  datatype Blas = Blas(reDot: (Vec, Vec) -> real, norm: Vec -> real)

  ghost predicate ValidBlas(b: Blas) {
    forall v :: b.norm(v) >= 0.0
  }

  /** std::vector::resize: keep the first n entries, pad with `fill`. */
  function Resize<T>(s: seq<T>, n: nat, fill: T): (r: seq<T>)
    ensures |r| == n
    ensures forall i :: 0 <= i < n && i < |s| ==> r[i] == s[i]
    ensures forall i :: |s| <= i < n ==> r[i] == fill
  {
    if n <= |s| then s[..n] else s + seq(n - |s|, _ => fill)
  }

  /** The initial guess of `operator()`: an all-zero input is replaced by the
      random source, then the vector is divided by its norm. */
  function InitialGuess(v0: Vec, blas: Blas): (r: Vec)
    ensures r.Quotient?
    ensures blas.norm(v0) != 0.0 ==> r == Quotient(v0, blas.norm(v0))
    ensures blas.norm(v0) == 0.0 ==> r == Quotient(Noise, blas.norm(Noise))
  {
    var v := if blas.norm(v0) == 0.0 then Noise else v0;
    Quotient(v, blas.norm(v))
  }

  /** First index of the explicit recurrence of Lanczos step j: the first
      step after a restart (j == num_keep) reduces the residual against every
      earlier basis vector through the arrow couplings; every later step only
      against the previous vector, the three-term recurrence. */
  function RecurrenceStart(j: int, numKeep: int): (r: int)
    ensures j > numKeep ==> r == j - 1
    ensures j <= numKeep ==> r == 0
  {
    if j > numKeep then j - 1 else 0
  }

  /** `r` after the loop r -= beta[i] v[i] for i = lo .. hi - 1, in that order. */
  function Deflate(r: Vec, beta: seq<real>, v: seq<Vec>, lo: int, hi: int): Vec
    requires 0 <= lo <= hi <= |beta| && hi <= |v|
    decreases hi - lo
  {
    if hi == lo then r else Axpy(-beta[hi - 1], v[hi - 1], Deflate(r, beta, v, lo, hi - 1))
  }

  /** The reduction reads only the window [lo, hi) of beta and of the basis. */
  lemma {:induction false} DeflateReadsWindow(r: Vec, beta: seq<real>, v: seq<Vec>, beta': seq<real>, v': seq<Vec>,
                                              lo: int, hi: int)
    requires 0 <= lo <= hi <= |beta| && hi <= |v| && hi <= |beta'| && hi <= |v'|
    requires forall i :: lo <= i < hi ==> beta[i] == beta'[i] && v[i] == v'[i]
    ensures Deflate(r, beta, v, lo, hi) == Deflate(r, beta', v', lo, hi)
    decreases hi - lo
  {
    if hi > lo {
      DeflateReadsWindow(r, beta, v, beta', v', lo, hi - 1);
    }
  }

  /** The reduction reads every entry of the window [lo, hi) of beta: two
      coefficient arrays that give the same result agree on all of it. */
  lemma {:induction false} DeflateSeesWindow(r: Vec, beta: seq<real>, beta': seq<real>, v: seq<Vec>, lo: int, hi: int)
    requires 0 <= lo <= hi <= |beta| && hi <= |beta'| && hi <= |v|
    requires Deflate(r, beta, v, lo, hi) == Deflate(r, beta', v, lo, hi)
    ensures forall i :: lo <= i < hi ==> beta[i] == beta'[i]
    decreases hi - lo
  {
    if hi > lo {
      assert -beta[hi - 1] == -beta'[hi - 1];
      DeflateSeesWindow(r, beta, beta', v, lo, hi - 1);
    }
  }

  /** The residual r of Lanczos step j before its norm is taken: the operator
      applied to v[j], minus alpha_j v[j], minus the recurrence terms, then
      orthogonalised against v[0 .. j] when j > 0. */
  function LanczosResidual(v: seq<Vec>, alphaJ: real, beta: seq<real>, j: int, numKeep: int): Vec
    requires 0 <= j < |v| && j <= |beta| && 0 <= numKeep
  {
    var start := RecurrenceStart(j, numKeep);
    var d := Deflate(Axpy(-alphaJ, v[j], Applied(v[j])), beta, v, start, j);
    if j > 0 then Orthogonalised(d, v[..j + 1]) else d
  }

  /** Every step after the first of a sweep is a three-term recurrence: its
      residual depends on beta only through beta[j - 1], so two coefficient
      arrays agreeing there give the same residual. */
  lemma {:induction false} ShortRecurrence(v: seq<Vec>, alphaJ: real, beta: seq<real>, beta': seq<real>,
                                           j: int, numKeep: int)
    requires 0 <= j < |v| && j <= |beta| && j <= |beta'|
    requires 0 <= numKeep < j && beta[j - 1] == beta'[j - 1]
    ensures LanczosResidual(v, alphaJ, beta, j, numKeep) == LanczosResidual(v, alphaJ, beta', j, numKeep)
    ensures LanczosResidual(v, alphaJ, beta, j, numKeep)
            == Orthogonalised(Axpy(-beta[j - 1], v[j - 1], Axpy(-alphaJ, v[j], Applied(v[j]))), v[..j + 1])
  {
    DeflateReadsWindow(Axpy(-alphaJ, v[j], Applied(v[j])), beta, v, beta', v, j - 1, j);
  }

  /** The first step of a sweep (j == num_keep) subtracts beta[i] v[i] for
      every i < j: two coefficient arrays give the same residual exactly when
      they agree on every entry below j, so the step reads all of them and
      nothing at or above j. */
  lemma {:induction false} RestartStepReadsAllKept(v: seq<Vec>, alphaJ: real, beta: seq<real>, beta': seq<real>,
                                                   j: int, numKeep: int)
    requires 0 <= j < |v| && j <= |beta| && j <= |beta'|
    requires 0 <= j <= numKeep
    ensures LanczosResidual(v, alphaJ, beta, j, numKeep) == LanczosResidual(v, alphaJ, beta', j, numKeep)
            <==> forall i :: 0 <= i < j ==> beta[i] == beta'[i]
    ensures 0 < j ==>
              LanczosResidual(v, alphaJ, beta, j, numKeep)
              == Orthogonalised(Deflate(Axpy(-alphaJ, v[j], Applied(v[j])), beta, v, 0, j), v[..j + 1])
  {
    var r := Axpy(-alphaJ, v[j], Applied(v[j]));
    if forall i :: 0 <= i < j ==> beta[i] == beta'[i] {
      DeflateReadsWindow(r, beta, v, beta', v, 0, j);
    }
    if LanczosResidual(v, alphaJ, beta, j, numKeep) == LanczosResidual(v, alphaJ, beta', j, numKeep) {
      assert Deflate(r, beta, v, 0, j) == Deflate(r, beta', v, 0, j);
      DeflateSeesWindow(r, beta, beta', v, 0, j);
    }
  }

  /** Step j reads only v[0 .. j] and beta[0 .. j - 1]. */
  lemma {:induction false} LanczosResidualReads(v: seq<Vec>, v': seq<Vec>, alphaJ: real, beta: seq<real>, beta': seq<real>,
                                                j: int, numKeep: int)
    requires 0 <= j < |v| && j < |v'| && j <= |beta| && j <= |beta'| && 0 <= numKeep
    requires v'[..j + 1] == v[..j + 1]
    requires forall i :: 0 <= i < j ==> beta'[i] == beta[i]
    ensures LanczosResidual(v, alphaJ, beta, j, numKeep) == LanczosResidual(v', alphaJ, beta', j, numKeep)
  {
    assert v'[j] == v'[..j + 1][j] == v[..j + 1][j] == v[j];
    assert forall i :: 0 <= i < j ==> v'[i] == v'[..j + 1][i] == v[..j + 1][i] == v[i];
    DeflateReadsWindow(Axpy(-alphaJ, v[j], Applied(v[j])), beta, v, beta', v', RecurrenceStart(j, numKeep), j);
  }

  /** The Lanczos relation of step k, read on the basis and coefficients
      after the sweep: alpha[k] is the Rayleigh coefficient of v[k], beta[k]
      the norm of the step's residual, and v[k + 1] that residual divided by
      beta[k]. */
  ghost predicate LanczosRelation(v: seq<Vec>, alpha: seq<real>, beta: seq<real>, k: int, numKeep: int, blas: Blas) {
    && 0 <= numKeep && 0 <= k < |alpha| && k < |beta| && k + 1 < |v|
    && alpha[k] == blas.reDot(v[k], Applied(v[k]))
    && var res := LanczosResidual(v, alpha[k], beta, k, numKeep);
       beta[k] == blas.norm(res) && v[k + 1] == Quotient(res, beta[k])
  }

  /** Step k reads only v[0 .. k + 1], alpha[k] and beta[0 .. k]: later steps,
      which write above those, keep its relation. */
  lemma {:induction false} LanczosRelationFrame(v: seq<Vec>, alpha: seq<real>, beta: seq<real>,
                                                v': seq<Vec>, alpha': seq<real>, beta': seq<real>,
                                                k: int, numKeep: int, blas: Blas)
    requires LanczosRelation(v, alpha, beta, k, numKeep, blas)
    requires k + 1 < |v'| && v'[..k + 2] == v[..k + 2]
    requires k < |alpha'| && k < |beta'| && alpha'[k] == alpha[k]
    requires forall i :: 0 <= i <= k ==> beta'[i] == beta[i]
    ensures LanczosRelation(v', alpha', beta', k, numKeep, blas)
  {
    assert v'[k + 1] == v'[..k + 2][k + 1] == v[..k + 2][k + 1] == v[k + 1];
    assert v'[..k + 1] == v[..k + 1] by {
      assert v'[..k + 1] == v'[..k + 2][..k + 1];
      assert v[..k + 1] == v[..k + 2][..k + 1];
    }
    LanczosResidualReads(v, v', alpha[k], beta, beta', k, numKeep);
  }

  /** Compressed vector i of `computeKeptRitz`: row i of the Ritz matrix
      applied to the window kSpace[num_locked .. nKr), computed as
      row[0] * window[0] followed by one multi-axpy of the rest. */
  function KeptVector(row: seq<real>, window: seq<Vec>): (r: Vec)
    requires 1 <= |row| == |window|
    ensures r.MultiAxpy? && |r.coeffs| == |r.xs| == |window| - 1
  {
    MultiAxpy(row[1..], window[1..], Scaled(row[0], window[0]))
  }
}
