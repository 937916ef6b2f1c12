/** The integer bookkeeping of one restart sweep of `TRLM::operator()`: the
    running maximum of |alpha| (`mat_norm`), the locking and convergence scans
    over the residua, and the number of Ritz vectors kept for the next sweep. */
module Scan {

  function Abs(x: real): real {
    if x < 0.0 then -x else x
  }

  function Min(a: int, b: int): int {
    if a <= b then a else b
  }

  function Max(a: int, b: int): int {
    if a >= b then a else b
  }

  /** C++ integer division by 2, which truncates toward zero (Dafny's `/` is
      Euclidean). */
  function HalfTowardZero(x: int): (r: int)
    ensures 0 <= x ==> 0 <= r && r + r <= x < r + r + 2
    ensures x < 0 ==> r <= 0 && x <= r + r <= x + 1
  {
    if x >= 0 then x / 2 else -((-x) / 2)
  }

  /** `last` ends the run of residua below `bound` that starts at offset `from`
      of the window res[base .. base + count): every offset from `from` to
      `last` is below the bound, and the next offset, if inside the window, is
      not. `last == from - 1` means the run is empty. */
  ghost predicate RunEndsAt(res: seq<real>, base: int, from: int, count: int, bound: real, last: int)
    requires 0 <= base && base + count <= |res| && 1 <= from
  {
    && from - 1 <= last < count
    && (forall k :: base + from <= k <= base + last ==> res[k] < bound)
    && (0 <= last + 1 < count ==> res[base + last + 1] >= bound)
  }

  /** The scan shared by the locking check (from offset 1 under
      epsilon * mat_norm) and the convergence check (from iter_locked + 1 under
      tol * mat_norm): walk up from `from` while residua stay below `bound`,
      stop at the first that does not. */
  method RunEnd(res: array<real>, base: int, from: int, count: int, bound: real) returns (last: int)
    requires 0 <= base && base + count <= res.Length
    requires 1 <= from <= count
    ensures RunEndsAt(res[..], base, from, count, bound, last)
  {
    last := from - 1;
    var i := from;
    while i < count
      invariant from <= i <= count
      invariant last == i - 1
      invariant forall k :: base + from <= k < base + i ==> res[k] < bound
    {
      if res[base + i] < bound {
        last := i;
      } else {
        break;
      }
      i := i + 1;
    }
  }

  /** Two runs that end at the same place from the same start are the same run:
      the scan's result is determined by the residua. */
  lemma {:induction false} RunEndUnique(res: seq<real>, base: int, from: int, count: int, bound: real, l1: int, l2: int)
    requires 0 <= base && base + count <= |res| && 1 <= from
    requires RunEndsAt(res, base, from, count, bound, l1)
    requires RunEndsAt(res, base, from, count, bound, l2)
    ensures l1 == l2
  {
  }

  /** The locking run lies inside the convergence run when the convergence
      bound is the looser one: every locked residuum is also converged. */
  lemma {:induction false} LockedImpliesConverged(res: seq<real>, base: int, count: int, eps: real, tol: real,
                                                  locked: int, conv: int)
    requires 0 <= base && base + count <= |res| && 1 <= count
    requires eps <= tol
    requires RunEndsAt(res, base, 1, count, eps, locked)
    requires RunEndsAt(res, base, locked + 1, count, tol, conv)
    ensures 0 <= locked <= conv < count
    ensures forall k :: base + 1 <= k <= base + conv ==> res[k] < tol
  {
    forall k | base + 1 <= k <= base + conv
      ensures res[k] < tol
    {
      if k <= base + locked {
        assert res[k] < eps;
      }
    }
  }

  /** The mat_norm update: the running maximum of |alpha[i]| over [lo, hi). */
  method MatNorm(alpha: array<real>, lo: int, hi: int, prior: real) returns (norm: real)
    requires 0 <= lo <= hi <= alpha.Length
    ensures prior <= norm
    ensures forall k :: lo <= k < hi ==> Abs(alpha[k]) <= norm
    ensures norm == prior || exists k :: lo <= k < hi && norm == Abs(alpha[k])
  {
    norm := prior;
    var i := lo;
    while i < hi
      invariant lo <= i <= hi
      invariant prior <= norm
      invariant forall k :: lo <= k < i ==> Abs(alpha[k]) <= norm
      invariant norm == prior || exists k :: lo <= k < i && norm == Abs(alpha[k])
    {
      if Abs(alpha[i]) > norm {
        norm := Abs(alpha[i]);
      }
      i := i + 1;
    }
  }

  /** iter_keep exactly as written: converged vectors plus half the
      unconverged ones, capped to leave twelve working slots, with no lower
      bound. */
  function IterKeepAsWritten(iterConverged: int, numConverged: int, numLocked: int, nKr: int): (r: int)
    ensures r <= nKr - numLocked - 12
    ensures r <= iterConverged + HalfTowardZero(nKr - numConverged)
    ensures r == nKr - numLocked - 12 || r == iterConverged + HalfTowardZero(nKr - numConverged)
    ensures nKr - numLocked < 12 ==> r < 0
  {
    Min(iterConverged + HalfTowardZero(nKr - numConverged), nKr - numLocked - 12)
  }

  /** The first sweep of a valid configuration (nEv = 4, nKr = 10, nConv = 3:
      nKr >= nEv + 6) keeps -2 vectors, so the copy of the residual vector into
      slot num_locked + iter_keep targets slot -2. */
  lemma IterKeepAsWrittenNegativeOnFirstSweep()
    ensures 4 + 6 <= 10
    ensures IterKeepAsWritten(0, 0, 0, 10) == -2
    ensures 0 + IterKeepAsWritten(0, 0, 0, 10) < 0
  {
  }

  /** A non-negative iter_keep can still fall below iter_locked: on the first
      sweep of nEv = nConv = 16, nKr = 24 with 13 locked and 14 converged
      pairs, iter_keep is 12, so num_keep < num_locked: slot 12, counted as
      locked, receives the residual vector, and the next sweep starting at
      j = num_keep = 12 rewrites the locked Ritz value alpha[12]. */
  lemma IterKeepAsWrittenBelowLockedExample()
    ensures 16 + 6 <= 24
    ensures IterKeepAsWritten(14, 0, 0, 24) == 12
    ensures 0 + IterKeepAsWritten(14, 0, 0, 24) < 0 + 13
    ensures IterKeep(13, 14, 0, 0, 24) == 13
  {
  }

  /** iter_keep with the evidently intended lower bound: never fewer kept
      vectors than newly locked ones, so the locked block stays inside the kept
      block and no slot below num_locked is written. */
  function IterKeep(iterLocked: int, iterConverged: int, numConverged: int, numLocked: int, nKr: int): (r: int)
    requires 0 <= iterLocked <= iterConverged < nKr - numLocked
    ensures iterLocked <= r < nKr - numLocked
    ensures r <= Max(iterLocked, nKr - numLocked - 12)
    ensures IterKeepAsWritten(iterConverged, numConverged, numLocked, nKr) >= iterLocked ==>
              r == IterKeepAsWritten(iterConverged, numConverged, numLocked, nKr)
    ensures numConverged <= nKr && nKr - numLocked >= 12 + iterConverged ==> iterConverged <= r
  {
    Max(iterLocked, IterKeepAsWritten(iterConverged, numConverged, numLocked, nKr))
  }
}
