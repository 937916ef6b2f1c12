/** The arrow matrix of a thick restart: after a restart the projected matrix
    is no longer tridiagonal. The Ritz values sit on the diagonal, the kept
    Ritz vectors couple to the first new Lanczos vector through one row and
    one column (the "arrow"), and the Lanczos vectors after it are tridiagonal
    again. `eigensolveFromArrowMat` lays this matrix out from the windows
    alpha[num_locked .. nKr) and beta[num_locked .. nKr - 1). */
module Arrow {
  import Scan

  /** A dense matrix as a sequence of rows. */
  type Matrix = seq<seq<real>>

  predicate Square(m: Matrix, n: int) {
    |m| == n && forall i :: 0 <= i < n ==> |m[i]| == n
  }

  /** `arrow_pos`: one past the last row coupled through the arrow. The kept
      block num_keep - num_locked is coupled through row arrow_pos - 1, and
      at least row 1 is used even when nothing was kept. */
  function ArrowPos(numKeep: int, numLocked: int): (r: int)
    ensures 2 <= r && numKeep - numLocked + 1 <= r
    ensures r == 2 || r == numKeep - numLocked + 1
  {
    Scan.Max(numKeep - numLocked + 1, 2)
  }

  /** The zero-initialised dim x dim matrix. */
  function Zero(n: nat): (m: Matrix)
    ensures Square(m, n)
    ensures forall i, j :: 0 <= i < n && 0 <= j < n ==> m[i][j] == 0.0
  {
    seq(n, _ => seq(n, _ => 0.0))
  }

  /** A(i, j) = x. */
  function Put(m: Matrix, i: int, j: int, x: real): (r: Matrix)
    requires Square(m, |m|) && 0 <= i < |m| && 0 <= j < |m|
    ensures Square(r, |m|)
    ensures r[i][j] == x
    ensures forall p, q :: 0 <= p < |m| && 0 <= q < |m| && (p != i || q != j) ==> r[p][q] == m[p][q]
  {
    m[i := m[i][j := x]]
  }

  /** The entry at (i, j) of the arrow matrix whose arrow runs through row and
      column p: the diagonal, the arrow for the rows before p, the band from p
      on, zero elsewhere. */
  function Layout(diag: seq<real>, off: seq<real>, p: int, i: int, j: int): real
    requires 0 <= i < |diag| && 0 <= j < |diag| && p < |diag| && |diag| - 1 <= |off|
  {
    if i == j then diag[i]
    else if j == p && i < p then off[i]
    else if i == p && j < p then off[j]
    else if p <= i && j == i + 1 then off[i]
    else if p <= j && i == j + 1 then off[j]
    else 0.0
  }

  /** The arrow matrix A_{dim,dim} of the windows diag = alpha[num_locked ..]
      and off = beta[num_locked ..], entry by entry. */
  function ArrowMatrix(diag: seq<real>, off: seq<real>, arrowPos: int): (a: Matrix)
    requires 2 <= arrowPos <= |diag| && |diag| - 1 <= |off|
    ensures Square(a, |diag|)
  {
    seq(|diag|, i requires 0 <= i < |diag| =>
          seq(|diag|, j requires 0 <= j < |diag| => Layout(diag, off, arrowPos - 1, i, j)))
  }

  /** The matrix after the fill loops have set the diagonal for the rows
      below d, the arrow row and column p for the rows below k, and the band
      for the rows p .. b - 1; every other entry is still zero. */
  ghost predicate Filled(a: Matrix, diag: seq<real>, off: seq<real>, p: int, d: int, k: int, b: int) {
    && Square(a, |diag|) && |diag| - 1 <= |off| && 0 <= d <= |diag| && 0 <= k <= p <= b < |diag|
    && (forall r :: 0 <= r < d ==> a[r][r] == diag[r])
    && (forall r :: 0 <= r < k ==> a[r][p] == off[r] && a[p][r] == off[r])
    && (forall r :: p <= r < b ==> a[r][r + 1] == off[r] && a[r + 1][r] == off[r])
    && (forall r, c ::
          (&& 0 <= r < |diag| && 0 <= c < |diag| && !(r == c && r < d)
           && !(c == p && r < k) && !(r == p && c < k)
           && !(p <= r < b && c == r + 1) && !(p <= c < b && r == c + 1)) ==>
          a[r][c] == 0.0)
  }

  /** The diagonal loop: A(i, i) = alpha[i + num_locked] on the zeroed matrix. */
  method FillDiagonal(diag: seq<real>, off: seq<real>, p: int) returns (a: Matrix)
    requires |diag| - 1 <= |off| && 0 <= p < |diag|
    ensures Filled(a, diag, off, p, |diag|, 0, p)
  {
    var dim := |diag|;
    a := Zero(dim);
    var i := 0;
    while i < dim
      invariant 0 <= i <= dim && Filled(a, diag, off, p, i, 0, p)
    {
      a := Put(a, i, i, diag[i]);
      i := i + 1;
    }
  }

  /** The arrow loop: A(i, p) = A(p, i) = beta[i + num_locked] for i < p. */
  method FillArrow(a: Matrix, diag: seq<real>, off: seq<real>, p: int) returns (a': Matrix)
    requires Filled(a, diag, off, p, |diag|, 0, p)
    ensures Filled(a', diag, off, p, |diag|, p, p)
  {
    a' := a;
    var i := 0;
    while i < p
      invariant 0 <= i <= p && Filled(a', diag, off, p, |diag|, i, p)
    {
      a' := Put(Put(a', i, p, off[i]), p, i, off[i]);
      i := i + 1;
    }
  }

  /** The band loop: A(i, i + 1) = A(i + 1, i) = beta[i + num_locked] for
      p <= i < dim - 1. */
  method FillBand(a: Matrix, diag: seq<real>, off: seq<real>, p: int) returns (a': Matrix)
    requires Filled(a, diag, off, p, |diag|, p, p)
    ensures Filled(a', diag, off, p, |diag|, p, |diag| - 1)
  {
    a' := a;
    var i := p;
    while i < |diag| - 1
      invariant p <= i <= |diag| - 1 && Filled(a', diag, off, p, |diag|, p, i)
    {
      a' := Put(Put(a', i, i + 1, off[i]), i + 1, i, off[i]);
      i := i + 1;
    }
  }

  /** The three fill loops of `eigensolveFromArrowMat` on the zeroed matrix.
      They write disjoint positions, so the result is the arrow matrix. */
  method Build(diag: seq<real>, off: seq<real>, arrowPos: int) returns (a: Matrix)
    requires 2 <= arrowPos <= |diag| && |diag| - 1 <= |off|
    ensures a == ArrowMatrix(diag, off, arrowPos)
  {
    var p := arrowPos - 1;
    a := FillDiagonal(diag, off, p);
    a := FillArrow(a, diag, off, p);
    a := FillBand(a, diag, off, p);
    ghost var spec := ArrowMatrix(diag, off, arrowPos);
    forall r | 0 <= r < |diag|
      ensures a[r] == spec[r]
    {
      forall c | 0 <= c < |diag|
        ensures a[r][c] == spec[r][c]
      {
        assert spec[r][c] == Layout(diag, off, p, r, c);
        if r == p && c < p {
          assert a[p][c] == off[c];
        } else if p <= c && r == c + 1 {
          assert a[c + 1][c] == off[c];
        }
      }
    }
  }

  /** The shape of the arrow matrix: symmetric, alpha on the diagonal, the
      arrow row and column arrow_pos - 1 holding beta for the rows before it,
      the tridiagonal band from arrow_pos - 1 on, and zero everywhere else. */
  lemma ArrowMatrixShape(diag: seq<real>, off: seq<real>, arrowPos: int)
    requires 2 <= arrowPos <= |diag| && |diag| - 1 <= |off|
    ensures var a := ArrowMatrix(diag, off, arrowPos);
      && (forall i, j :: 0 <= i < |diag| && 0 <= j < |diag| ==> a[i][j] == a[j][i])
      && (forall i :: 0 <= i < |diag| ==> a[i][i] == diag[i])
      && (forall i :: 0 <= i < arrowPos - 1 ==> a[i][arrowPos - 1] == off[i])
      && (forall i :: arrowPos - 1 <= i < |diag| - 1 ==> a[i][i + 1] == off[i])
      && (forall i, j ::
            (&& 0 <= i < |diag| && 0 <= j < |diag| && i != j
             && !(j == arrowPos - 1 && i < arrowPos - 1) && !(i == arrowPos - 1 && j < arrowPos - 1)
             && !(arrowPos - 1 <= i && j == i + 1) && !(arrowPos - 1 <= j && i == j + 1)) ==>
            a[i][j] == 0.0)
  {
  }
}
