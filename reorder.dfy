/** `TRLM::reorder`: the in-place gnome sort of the Ritz values alpha[0 .. nKr)
    that runs once the solver has converged, meant to carry the Krylov vectors
    along. The loop is modelled twice: exactly as written, where the vector
    swap happens after `--i` and so exchanges the two slots just below the
    alpha pair (slot -1 when the alpha pair is at 0 and 1), and corrected, where
    both swaps act on the same pair. The vectors are of any type `V`. */
module Reorder {

  /** The order `reorder` establishes between earlier and later entries:
      non-decreasing, or non-increasing when `reverse`. */
  predicate InOrder(x: real, y: real, reverse: bool) {
    if reverse then x >= y else x <= y
  }

  ghost predicate SortedBetween(s: seq<real>, lo: int, hi: int, reverse: bool)
    requires 0 <= lo <= hi <= |s|
  {
    forall p, q :: lo <= p < q < hi ==> InOrder(s[p], s[q], reverse)
  }

  ghost predicate Sorted(s: seq<real>, reverse: bool) {
    SortedBetween(s, 0, |s|, reverse)
  }

  function Swap<T>(s: seq<T>, p: int, q: int): (r: seq<T>)
    requires 0 <= p < |s| && 0 <= q < |s|
    ensures |r| == |s| && r[p] == s[q] && r[q] == s[p]
    ensures forall k :: 0 <= k < |s| && k != p && k != q ==> r[k] == s[k]
  {
    s[p := s[q]][q := s[p]]
  }

  lemma SwapPermutes<T>(s: seq<T>, p: int, q: int)
    requires 0 <= p < |s| && 0 <= q < |s|
    ensures multiset(Swap(s, p, q)) == multiset(s)
  {
  }

  /** The state of the reorder loop: alpha, the Krylov vectors, the cursor `i`,
      and whether an access below slot 0 has happened. */
  datatype Cursor<V> = Cursor(alpha: seq<real>, kSpace: seq<V>, i: int, outOfRange: bool)

  /** The loop condition `i < nKr`, with the cursor inside alpha and alpha no
      longer than the vector list. */
  predicate Running<V>(c: Cursor<V>) {
    0 <= c.i < |c.alpha| <= |c.kSpace|
  }

  /** Whether iteration `c.i` swaps: `i > 0` and alpha[i-1], alpha[i] out of order. */
  predicate Swaps<V>(c: Cursor<V>, reverse: bool)
    requires Running(c)
  {
    c.i != 0 && !InOrder(c.alpha[c.i - 1], c.alpha[c.i], reverse)
  }

  /** One iteration of the loop as written: alpha[i-1] and alpha[i] are
      exchanged, `--i` runs, and then kSpace[i] and kSpace[i-1] are exchanged
      with the decremented `i`; at `i == 0` that second index is -1, which
      `outOfRange` records (the vector list is left as it was). */
  function StepAsWritten<V>(c: Cursor<V>, reverse: bool): Cursor<V>
    requires Running(c)
  {
    if !Swaps(c, reverse) then c.(i := c.i + 1)
    else
      var j := c.i - 1;
      c.(alpha := Swap(c.alpha, j, c.i),
         kSpace := if j >= 1 then Swap(c.kSpace, j, j - 1) else c.kSpace,
         i := j,
         outOfRange := c.outOfRange || j < 1)
  }

  /** One iteration with the vector swap on the same pair as the alpha swap. */
  function Step<V>(c: Cursor<V>, reverse: bool): Cursor<V>
    requires Running(c)
  {
    if !Swaps(c, reverse) then c.(i := c.i + 1)
    else c.(alpha := Swap(c.alpha, c.i - 1, c.i), kSpace := Swap(c.kSpace, c.i - 1, c.i), i := c.i - 1)
  }

  /** The loop state after `k` iterations (as written when `asWritten`), or
      the final state if the loop ends sooner. */
  function Iterate<V>(c: Cursor<V>, reverse: bool, asWritten: bool, k: nat): Cursor<V>
  {
    if k == 0 then c
    else
      var p := Iterate(c, reverse, asWritten, k - 1);
      if !Running(p) then p
      else if asWritten then StepAsWritten(p, reverse)
      else Step(p, reverse)
  }

  /** Each alpha value paired with the vector in the same slot. */
  function Pairs<V>(alpha: seq<real>, kSpace: seq<V>): (r: seq<(real, V)>)
    requires |alpha| <= |kSpace|
    ensures |r| == |alpha|
    ensures forall k :: 0 <= k < |alpha| ==> r[k] == (alpha[k], kSpace[k])
  {
    seq(|alpha|, k requires 0 <= k < |alpha| => (alpha[k], kSpace[k]))
  }

  /** When the loop as written swaps the alpha pair (i-1, i), the vectors that
      move are those in slots i-2 and i-1, or none at all with an access to
      slot -1 when i == 1: alpha[i-1] ends up beside a vector that was never
      beside it. The corrected step moves the vector pair with the alpha pair. */
  lemma {:induction false} StepAsWrittenMovesWrongVectors<V>(c: Cursor<V>, reverse: bool)
    requires Running(c) && Swaps(c, reverse)
    ensures StepAsWritten(c, reverse).alpha == Step(c, reverse).alpha == Swap(c.alpha, c.i - 1, c.i)
    ensures c.i >= 2 ==> StepAsWritten(c, reverse).kSpace == Swap(c.kSpace, c.i - 2, c.i - 1)
    ensures c.i >= 2 ==> StepAsWritten(c, reverse).kSpace[c.i - 1] == c.kSpace[c.i - 2]
    ensures c.i == 1 ==> StepAsWritten(c, reverse).outOfRange
    ensures Step(c, reverse).kSpace[c.i - 1] == c.kSpace[c.i]
  {
  }

  /** The corrected step keeps every (alpha value, vector) pair together. */
  lemma {:induction false} StepKeepsPairs<V>(c: Cursor<V>, reverse: bool)
    requires Running(c)
    ensures |Step(c, reverse).alpha| <= |Step(c, reverse).kSpace|
    ensures multiset(Pairs(Step(c, reverse).alpha, Step(c, reverse).kSpace)) == multiset(Pairs(c.alpha, c.kSpace))
  {
    var d := Step(c, reverse);
    if Swaps(c, reverse) {
      var ps := Pairs(c.alpha, c.kSpace);
      assert Pairs(d.alpha, d.kSpace) == Swap(ps, c.i - 1, c.i);
      SwapPermutes(ps, c.i - 1, c.i);
    }
  }

  /** One more iteration of a running loop is one more step. */
  lemma {:induction false} IterateNext<V>(c: Cursor<V>, reverse: bool, asWritten: bool, k: nat)
    requires Running(Iterate(c, reverse, asWritten, k))
    ensures Iterate(c, reverse, asWritten, k + 1) ==
            if asWritten then StepAsWritten(Iterate(c, reverse, asWritten, k), reverse)
            else Step(Iterate(c, reverse, asWritten, k), reverse)
  {
  }

  /** Once the loop has stopped it stays where it stopped. */
  lemma {:induction false} IterateStopped<V>(c: Cursor<V>, reverse: bool, asWritten: bool, k0: nat, k: nat)
    requires k0 <= k
    requires !Running(Iterate(c, reverse, asWritten, k0))
    ensures Iterate(c, reverse, asWritten, k) == Iterate(c, reverse, asWritten, k0)
    decreases k
  {
    if k > k0 {
      IterateStopped(c, reverse, asWritten, k0, k - 1);
    }
  }

  /** A step that does not swap only advances the cursor, in both versions. */
  lemma {:induction false} NoSwapStep<V>(c: Cursor<V>, reverse: bool)
    requires Running(c) && !Swaps(c, reverse)
    ensures StepAsWritten(c, reverse) == Step(c, reverse) == c.(i := c.i + 1)
  {
  }

  /** A concrete run: alpha = [1, 3, 2] with vectors [v0, v1, v2], sorted
      ascending. The loop as written stops after five iterations with
      alpha = [1, 2, 3] but vectors [v1, v0, v2]: value 1 now sits beside v1,
      the vector of value 3, a pair that did not exist before. */
  lemma {:induction false} ReorderAsWrittenMisplacesExample(k: nat)
    ensures Running(Iterate(Cursor([1.0, 3.0, 2.0], [0, 1, 2], 0, false), false, true, k)) <==> k < 5
    ensures 5 <= k ==> Iterate(Cursor([1.0, 3.0, 2.0], [0, 1, 2], 0, false), false, true, k) ==
                       Cursor([1.0, 2.0, 3.0], [1, 0, 2], 3, false)
    ensures (1.0, 1) in Pairs([1.0, 2.0, 3.0], [1, 0, 2]) && (1.0, 1) !in Pairs([1.0, 3.0, 2.0], [0, 1, 2])
  {
    var c0 := Cursor([1.0, 3.0, 2.0], [0, 1, 2], 0, false);
    var c1 := c0.(i := 1);
    var c2 := c0.(i := 2);
    var c3 := Cursor([1.0, 2.0, 3.0], [1, 0, 2], 1, false);
    var c4 := c3.(i := 2);
    NoSwapStep(c0, false);
    NoSwapStep(c1, false);
    assert Swap(c2.alpha, 1, 2) == c3.alpha;
    assert Swap(c2.kSpace, 1, 0) == c3.kSpace;
    NoSwapStep(c3, false);
    NoSwapStep(c4, false);
    IterateNext(c0, false, true, 0);
    IterateNext(c0, false, true, 1);
    IterateNext(c0, false, true, 2);
    IterateNext(c0, false, true, 3);
    IterateNext(c0, false, true, 4);
    if 5 <= k {
      IterateStopped(c0, false, true, 5, k);
    }
    assert Pairs([1.0, 2.0, 3.0], [1, 0, 2])[0] == (1.0, 1);
  }

  /** The same run with the corrected loop ends with the vectors [v0, v2, v1]:
      each still beside its own value. */
  lemma {:induction false} ReorderExample(k: nat)
    ensures Running(Iterate(Cursor([1.0, 3.0, 2.0], [0, 1, 2], 0, false), false, false, k)) <==> k < 5
    ensures 5 <= k ==> Iterate(Cursor([1.0, 3.0, 2.0], [0, 1, 2], 0, false), false, false, k) ==
                       Cursor([1.0, 2.0, 3.0], [0, 2, 1], 3, false)
  {
    var c0 := Cursor([1.0, 3.0, 2.0], [0, 1, 2], 0, false);
    var c1 := c0.(i := 1);
    var c2 := c0.(i := 2);
    var c3 := Cursor([1.0, 2.0, 3.0], [0, 2, 1], 1, false);
    var c4 := c3.(i := 2);
    NoSwapStep(c0, false);
    NoSwapStep(c1, false);
    assert Swap(c2.alpha, 1, 2) == c3.alpha;
    assert Swap(c2.kSpace, 1, 2) == c3.kSpace;
    NoSwapStep(c3, false);
    NoSwapStep(c4, false);
    IterateNext(c0, false, false, 0);
    IterateNext(c0, false, false, 1);
    IterateNext(c0, false, false, 2);
    IterateNext(c0, false, false, 3);
    IterateNext(c0, false, false, 4);
    if 5 <= k {
      IterateStopped(c0, false, false, 5, k);
    }
  }

  // ---------------------------------------------------------------------------
  // The two phases of the gnome sort, used as loop invariants. While climbing,
  // alpha[0 .. hi) is sorted and i <= hi. While sinking, the element at i is
  // being moved down past larger (in the sort order) elements: both sides of
  // it are sorted, everything left of it is in order with everything right of
  // it, and it is strictly before everything in (i, hi].

  ghost predicate Climbing(s: seq<real>, i: int, hi: int, reverse: bool) {
    0 <= i <= hi <= |s| && SortedBetween(s, 0, hi, reverse)
  }

  ghost predicate Sinking(s: seq<real>, i: int, hi: int, reverse: bool) {
    && 0 <= i <= hi < |s|
    && SortedBetween(s, 0, i, reverse)
    && SortedBetween(s, i + 1, hi + 1, reverse)
    && (forall p, q :: 0 <= p < i < q <= hi ==> InOrder(s[p], s[q], reverse))
    && (forall q :: i < q <= hi ==> !InOrder(s[q], s[i], reverse))
  }

  lemma InOrderTransitive(x: real, y: real, z: real, reverse: bool)
    requires InOrder(x, y, reverse) && InOrder(y, z, reverse)
    ensures InOrder(x, z, reverse)
  {
  }

  /** Climbing past an in-order neighbour. */
  lemma {:induction false} ClimbStep(s: seq<real>, i: int, hi: int, reverse: bool)
    requires Climbing(s, i, hi, reverse) && i < |s|
    requires i == 0 || InOrder(s[i - 1], s[i], reverse)
    ensures Climbing(s, i + 1, if i == hi then hi + 1 else hi, reverse)
  {
    if i == hi {
      forall p, q | 0 <= p < q < hi + 1
        ensures InOrder(s[p], s[q], reverse)
      {
        if q == hi && p < hi - 1 {
          InOrderTransitive(s[p], s[hi - 1], s[hi], reverse);
        }
      }
    }
  }

  /** While climbing, every pair below the frontier is in order. */
  lemma {:induction false} ClimbInOrderBelowFrontier(s: seq<real>, i: int, hi: int, reverse: bool)
    requires Climbing(s, i, hi, reverse) && 0 < i < hi
    ensures InOrder(s[i - 1], s[i], reverse)
  {
  }

  /** Swapping the frontier element down starts sinking it. */
  lemma {:induction false} ClimbSwap(s: seq<real>, hi: int, reverse: bool)
    requires Climbing(s, hi, hi, reverse) && 0 < hi < |s|
    requires !InOrder(s[hi - 1], s[hi], reverse)
    ensures Sinking(Swap(s, hi - 1, hi), hi - 1, hi, reverse)
  {
    var t := Swap(s, hi - 1, hi);
    assert SortedBetween(t, 0, hi - 1, reverse) by {
      forall p, q | 0 <= p < q < hi - 1 ensures InOrder(t[p], t[q], reverse) {
        assert InOrder(s[p], s[q], reverse);
      }
    }
    forall p, q | 0 <= p < hi - 1 < q <= hi
      ensures InOrder(t[p], t[q], reverse)
    {
      assert InOrder(s[p], s[hi - 1], reverse);
    }
  }

  /** Sinking one more place. */
  lemma {:induction false} SinkSwap(s: seq<real>, i: int, hi: int, reverse: bool)
    requires Sinking(s, i, hi, reverse) && 0 < i
    requires !InOrder(s[i - 1], s[i], reverse)
    ensures Sinking(Swap(s, i - 1, i), i - 1, hi, reverse)
  {
    var t := Swap(s, i - 1, i);
    assert SortedBetween(t, 0, i - 1, reverse) by {
      forall p, q | 0 <= p < q < i - 1 ensures InOrder(t[p], t[q], reverse) {
        assert InOrder(s[p], s[q], reverse);
      }
    }
    assert SortedBetween(t, i, hi + 1, reverse) by {
      forall p, q | i <= p < q < hi + 1 ensures InOrder(t[p], t[q], reverse) {
        if p == i {
          assert InOrder(s[i - 1], s[q], reverse);
        } else {
          assert InOrder(s[p], s[q], reverse);
        }
      }
    }
    forall p, q | 0 <= p < i - 1 < q <= hi
      ensures InOrder(t[p], t[q], reverse)
    {
      if q == i {
        assert InOrder(s[p], s[i - 1], reverse);
      } else {
        assert InOrder(s[p], s[q], reverse);
      }
    }
    forall q | i - 1 < q <= hi
      ensures !InOrder(t[q], t[i - 1], reverse)
    {
      if q > i {
        assert !InOrder(s[q], s[i], reverse);
      }
    }
  }

  /** The sinking element has found its place: alpha[0 .. hi] is sorted. */
  lemma {:induction false} SinkStop(s: seq<real>, i: int, hi: int, reverse: bool)
    requires Sinking(s, i, hi, reverse)
    requires i == 0 || InOrder(s[i - 1], s[i], reverse)
    ensures Climbing(s, i + 1, hi + 1, reverse)
  {
    forall p, q | 0 <= p < q < hi + 1
      ensures InOrder(s[p], s[q], reverse)
    {
      if p < i && q == i {
        if p < i - 1 {
          assert InOrder(s[p], s[i - 1], reverse);
          InOrderTransitive(s[p], s[i - 1], s[i], reverse);
        }
      } else if p == i {
        assert !InOrder(s[q], s[i], reverse);
      } else if p < i && i < q {
        assert InOrder(s[p], s[q], reverse);
      } else if p < i {
        assert InOrder(s[p], s[q], reverse);
      } else {
        assert InOrder(s[p], s[q], reverse);
      }
    }
  }

  /** An already sorted alpha never swaps. */
  lemma {:induction false} SortedNeverSwaps(s: seq<real>, i: int, reverse: bool)
    requires Sorted(s, reverse) && 0 < i < |s|
    ensures InOrder(s[i - 1], s[i], reverse)
  {
  }

  ghost predicate Phase(s: seq<real>, i: int, hi: int, sinking: bool, reverse: bool) {
    if sinking then Sinking(s, i, hi, reverse) else Climbing(s, i, hi, reverse)
  }

  /** The loop's measure (n - hi, phase, position) goes down from (hi, sinking, i)
      to (hi', sinking', i'). */
  predicate Progress(n: int, hi: int, sinking: bool, i: int, hi': int, sinking': bool, i': int) {
    || n - hi' < n - hi
    || (hi' == hi && sinking' && !sinking)
    || (hi' == hi && sinking' == sinking && sinking && i' < i)
    || (hi' == hi && sinking' == sinking && !sinking && hi' - i' < hi - i)
  }

  /** Everything the loop of either version does to alpha: one step keeps the
      phase invariant, with the ghost frontier `hi` and phase `sinking`
      updated, and the measure goes down. */
  lemma {:induction false} AlphaStep(s: seq<real>, i: int, hi: int, sinking: bool, reverse: bool)
    returns (hi': int, sinking': bool)
    requires 0 <= i < |s|
    requires Phase(s, i, hi, sinking, reverse)
    ensures var swaps := i != 0 && !InOrder(s[i - 1], s[i], reverse);
            var s' := if swaps then Swap(s, i - 1, i) else s;
            var i' := if swaps then i - 1 else i + 1;
            Phase(s', i', hi', sinking', reverse) && Progress(|s|, hi, sinking, i, hi', sinking', i')
    ensures !sinking && !(i != 0 && !InOrder(s[i - 1], s[i], reverse)) ==> !sinking'
  {
    if !sinking && 0 < i < hi {
      ClimbInOrderBelowFrontier(s, i, hi, reverse);
    }
    var swaps := i != 0 && !InOrder(s[i - 1], s[i], reverse);
    if !swaps {
      if sinking {
        SinkStop(s, i, hi, reverse);
        hi', sinking' := hi + 1, false;
      } else {
        ClimbStep(s, i, hi, reverse);
        hi', sinking' := if i == hi then hi + 1 else hi, false;
      }
    } else {
      if sinking {
        SinkSwap(s, i, hi, reverse);
        hi', sinking' := hi, true;
      } else {
        ClimbSwap(s, hi, reverse);
        hi', sinking' := hi, true;
      }
    }
  }

  function Next<V>(c: Cursor<V>, reverse: bool, asWritten: bool): Cursor<V>
    requires Running(c)
  {
    if asWritten then StepAsWritten(c, reverse) else Step(c, reverse)
  }

  /** What both loops keep of alpha and the vectors: lengths, the vectors past
      alpha untouched, alpha a permutation of its input, and the vectors a
      permutation of theirs (in the corrected loop, with every pair kept)
      unless slot -1 has been accessed, which only the loop as written does. */
  ghost predicate Contents<V>(init: Cursor<V>, c: Cursor<V>, asWritten: bool) {
    && |init.alpha| <= |init.kSpace|
    && |c.alpha| == |init.alpha|
    && |c.kSpace| == |init.kSpace| && c.kSpace[|c.alpha|..] == init.kSpace[|c.alpha|..]
    && multiset(c.alpha) == multiset(init.alpha)
    && (!c.outOfRange ==> multiset(c.kSpace) == multiset(init.kSpace))
    && (!asWritten ==> !c.outOfRange && multiset(Pairs(c.alpha, c.kSpace)) == multiset(Pairs(init.alpha, init.kSpace)))
  }

  lemma {:induction false} ContentsStep<V>(init: Cursor<V>, c: Cursor<V>, reverse: bool, asWritten: bool)
    requires Contents(init, c, asWritten) && Running(c)
    ensures Contents(init, Next(c, reverse, asWritten), asWritten)
  {
    if !Swaps(c, reverse) {
      assert Next(c, reverse, asWritten) == c.(i := c.i + 1);
    } else if asWritten {
      ContentsSwapAsWritten(init, c, reverse);
    } else {
      ContentsSwap(init, c, reverse);
    }
  }

  lemma {:induction false} ContentsSwap<V>(init: Cursor<V>, c: Cursor<V>, reverse: bool)
    requires Contents(init, c, false) && Running(c) && Swaps(c, reverse)
    ensures Contents(init, Step(c, reverse), false)
  {
    var i := c.i;
    var d := Step(c, reverse);
    assert d.alpha == Swap(c.alpha, i - 1, i) && d.kSpace == Swap(c.kSpace, i - 1, i) && !d.outOfRange;
    StepKeepsPairs(c, reverse);
    SwapPermutes(c.alpha, i - 1, i);
    SwapPermutes(c.kSpace, i - 1, i);
    SwapKeepsTail(c.kSpace, i - 1, i, |c.alpha|);
  }

  lemma {:induction false} ContentsSwapAsWritten<V>(init: Cursor<V>, c: Cursor<V>, reverse: bool)
    requires Contents(init, c, true) && Running(c) && Swaps(c, reverse)
    ensures Contents(init, StepAsWritten(c, reverse), true)
  {
    var i := c.i;
    var d := StepAsWritten(c, reverse);
    assert d.alpha == Swap(c.alpha, i - 1, i);
    SwapPermutes(c.alpha, i - 1, i);
    if i >= 2 {
      assert d.kSpace == Swap(c.kSpace, i - 1, i - 2);
      SwapPermutes(c.kSpace, i - 1, i - 2);
      SwapKeepsTail(c.kSpace, i - 1, i - 2, |c.alpha|);
    } else {
      assert d.kSpace == c.kSpace && d.outOfRange;
    }
  }

  lemma SwapKeepsTail<T>(s: seq<T>, p: int, q: int, n: int)
    requires 0 <= p < n && 0 <= q < n && n <= |s|
    ensures Swap(s, p, q)[n..] == s[n..]
  {
  }

  /** On sorted input no iteration swaps, in either version. */
  lemma {:induction false} SortedStep<V>(init: Cursor<V>, c: Cursor<V>, reverse: bool, asWritten: bool)
    requires Sorted(init.alpha, reverse) && c == init.(i := c.i) && Running(c)
    ensures !Swaps(c, reverse) && Next(c, reverse, asWritten) == init.(i := c.i + 1)
  {
    if 0 < c.i {
      SortedNeverSwaps(init.alpha, c.i, reverse);
    }
  }

  /** `trace` is a run of the loop: each state is the step of the one before. */
  ghost predicate IsRun<V>(trace: seq<Cursor<V>>, reverse: bool, asWritten: bool) {
    && |trace| > 0
    && forall m :: 0 <= m < |trace| - 1 ==> Running(trace[m]) && trace[m + 1] == Next(trace[m], reverse, asWritten)
  }

  lemma {:induction false} RunExtend<V>(trace: seq<Cursor<V>>, reverse: bool, asWritten: bool)
    requires IsRun(trace, reverse, asWritten) && Running(trace[|trace| - 1])
    ensures IsRun(trace + [Next(trace[|trace| - 1], reverse, asWritten)], reverse, asWritten)
  {
  }

  /** A run of k steps ends where k iterations lead. */
  lemma {:induction false} RunIterate<V>(trace: seq<Cursor<V>>, reverse: bool, asWritten: bool)
    requires IsRun(trace, reverse, asWritten)
    ensures Iterate(trace[0], reverse, asWritten, |trace| - 1) == trace[|trace| - 1]
    decreases |trace|
  {
    if |trace| > 1 {
      var prefix := trace[..|trace| - 1];
      assert IsRun(prefix, reverse, asWritten) by {
        forall m | 0 <= m < |prefix| - 1
          ensures Running(prefix[m]) && prefix[m + 1] == Next(prefix[m], reverse, asWritten)
        {
          assert prefix[m] == trace[m] && prefix[m + 1] == trace[m + 1];
        }
      }
      RunIterate(prefix, reverse, asWritten);
      IterateNext(trace[0], reverse, asWritten, |trace| - 2);
    }
  }

  /** The invariant of both loops: `trace` is the run so far from `init`,
      ending in `c`, and `c` is in the phase recorded by `hi` and `sinking`. */
  ghost predicate LoopInv<V>(init: Cursor<V>, c: Cursor<V>, trace: seq<Cursor<V>>, hi: int, sinking: bool,
                             reverse: bool, asWritten: bool)
  {
    && IsRun(trace, reverse, asWritten) && trace[0] == init && trace[|trace| - 1] == c
    && !init.outOfRange
    && 0 <= c.i <= |c.alpha| == |init.alpha| <= |init.kSpace| == |c.kSpace|
    && Phase(c.alpha, c.i, hi, sinking, reverse)
    && (Sorted(init.alpha, reverse) ==> !sinking && c == init.(i := c.i))
  }

  lemma {:induction false} LoopInvInit<V>(init: Cursor<V>, reverse: bool, asWritten: bool)
    requires |init.alpha| <= |init.kSpace| && init.i == 0 && !init.outOfRange
    ensures LoopInv(init, init, [init], 0, false, reverse, asWritten)
  {
    assert SortedBetween(init.alpha, 0, 0, reverse);
  }

  /** One iteration keeps the invariant and decreases the measure. */
  lemma {:induction false} LoopInvStep<V>(init: Cursor<V>, c: Cursor<V>, trace: seq<Cursor<V>>, hi: int, sinking: bool,
                                          reverse: bool, asWritten: bool)
    returns (hi': int, sinking': bool)
    requires LoopInv(init, c, trace, hi, sinking, reverse, asWritten)
    requires c.i < |c.alpha|
    ensures Running(c)
    ensures LoopInv(init, Next(c, reverse, asWritten), trace + [Next(c, reverse, asWritten)], hi', sinking', reverse, asWritten)
    ensures Progress(|c.alpha|, hi, sinking, c.i, hi', sinking', Next(c, reverse, asWritten).i)
  {
    hi', sinking' := AlphaStep(c.alpha, c.i, hi, sinking, reverse);
    RunExtend(trace, reverse, asWritten);
    if Sorted(init.alpha, reverse) {
      SortedStep(init, c, reverse, asWritten);
    }
  }

  /** When the loop ends, alpha is sorted and the contents facts hold of the
      final state. */
  lemma {:induction false} LoopInvDone<V>(init: Cursor<V>, c: Cursor<V>, trace: seq<Cursor<V>>, hi: int, sinking: bool,
                                          reverse: bool, asWritten: bool)
    requires LoopInv(init, c, trace, hi, sinking, reverse, asWritten)
    requires c.i >= |c.alpha|
    ensures Sorted(c.alpha, reverse)
    ensures Iterate(init, reverse, asWritten, |trace| - 1) == c && c.i == |c.alpha| == |init.alpha|
    ensures multiset(c.alpha) == multiset(init.alpha)
    ensures |c.kSpace| == |init.kSpace| && c.kSpace[|c.alpha|..] == init.kSpace[|c.alpha|..]
    ensures !c.outOfRange ==> multiset(c.kSpace) == multiset(init.kSpace)
    ensures !asWritten ==> !c.outOfRange && multiset(Pairs(c.alpha, c.kSpace)) == multiset(Pairs(init.alpha, init.kSpace))
    ensures Sorted(init.alpha, reverse) ==> c.alpha == init.alpha && c.kSpace == init.kSpace && !c.outOfRange
  {
    RunIterate(trace, reverse, asWritten);
    IterateContents(init, reverse, asWritten, |trace| - 1);
  }

  /** Every state the loop reaches keeps the contents facts. */
  lemma {:induction false} IterateContents<V>(init: Cursor<V>, reverse: bool, asWritten: bool, k: nat)
    requires |init.alpha| <= |init.kSpace| && !init.outOfRange
    ensures Contents(init, Iterate(init, reverse, asWritten, k), asWritten)
  {
    if k > 0 {
      IterateContents(init, reverse, asWritten, k - 1);
      var p := Iterate(init, reverse, asWritten, k - 1);
      if Running(p) {
        ContentsStep(init, p, reverse, asWritten);
      }
    }
  }

  /** One pass of the loop body as written, on the array: compare alpha[i-1]
      and alpha[i]; when out of order exchange them through `tmp`, decrement
      `i`, and exchange the vectors at the decremented `i` and the slot below
      it. */
  method IterationAsWritten<V>(alpha: array<real>, kSpace: seq<V>, i: int, outOfRange: bool, reverse: bool)
    returns (kSpace': seq<V>, i': int, outOfRange': bool)
    requires Running(Cursor(alpha[..], kSpace, i, outOfRange))
    modifies alpha
    ensures Cursor(alpha[..], kSpace', i', outOfRange') == StepAsWritten(Cursor(old(alpha[..]), kSpace, i, outOfRange), reverse)
  {
    kSpace', i', outOfRange' := kSpace, i, outOfRange;
    if i' == 0 || InOrder(alpha[i' - 1], alpha[i'], reverse) {
      i' := i' + 1;
    } else {
      var tmp := alpha[i'];
      alpha[i'] := alpha[i' - 1];
      i' := i' - 1;
      alpha[i'] := tmp;
      if i' >= 1 {
        kSpace' := Swap(kSpace', i', i' - 1);
      } else {
        outOfRange' := true;
      }
      assert alpha[..] == Swap(old(alpha[..]), i', i' + 1);
    }
  }

  /** One pass of the corrected loop body: the vectors are exchanged on the
      same pair as alpha. */
  method Iteration<V>(alpha: array<real>, kSpace: seq<V>, i: int, reverse: bool) returns (kSpace': seq<V>, i': int)
    requires Running(Cursor(alpha[..], kSpace, i, false))
    modifies alpha
    ensures Cursor(alpha[..], kSpace', i', false) == Step(Cursor(old(alpha[..]), kSpace, i, false), reverse)
  {
    kSpace', i' := kSpace, i;
    if i == 0 || InOrder(alpha[i - 1], alpha[i], reverse) {
      i' := i + 1;
    } else {
      var tmp := alpha[i];
      alpha[i] := alpha[i - 1];
      alpha[i - 1] := tmp;
      kSpace' := Swap(kSpace, i - 1, i);
      i' := i - 1;
      assert alpha[..] == Swap(old(alpha[..]), i - 1, i);
    }
  }

  /** `reorder` exactly as written. Alpha ends sorted and is a permutation of
      its input; the vector list is permuted only while no swap reaches slot
      -1, an already sorted input is left alone, and the result is the loop
      state of `StepAsWritten`. */
  method ReorderAsWritten<V>(alpha: array<real>, kSpace: seq<V>, reverse: bool)
    returns (kSpace': seq<V>, outOfRange: bool, ghost steps: nat)
    requires alpha.Length <= |kSpace|
    modifies alpha
    ensures Sorted(alpha[..], reverse)
    ensures multiset(alpha[..]) == multiset(old(alpha[..]))
    ensures |kSpace'| == |kSpace| && kSpace'[alpha.Length..] == kSpace[alpha.Length..]
    ensures !outOfRange ==> multiset(kSpace') == multiset(kSpace)
    ensures Sorted(old(alpha[..]), reverse) ==> alpha[..] == old(alpha[..]) && kSpace' == kSpace && !outOfRange
    ensures Iterate(Cursor(old(alpha[..]), kSpace, 0, false), reverse, true, steps)
            == Cursor(alpha[..], kSpace', alpha.Length, outOfRange)
  {
    ghost var init := Cursor(alpha[..], kSpace, 0, false);
    ghost var trace := [init];
    ghost var hi := 0;
    ghost var sinking := false;
    var n := alpha.Length;
    var i := 0;
    kSpace', outOfRange := kSpace, false;
    LoopInvInit(init, reverse, true);
    while i < n
      invariant LoopInv(init, Cursor(alpha[..], kSpace', i, outOfRange), trace, hi, sinking, reverse, true)
      decreases n - hi, if sinking then 0 else 1, if sinking then i else hi - i
    {
      ghost var cur := Cursor(alpha[..], kSpace', i, outOfRange);
      hi, sinking := LoopInvStep(init, cur, trace, hi, sinking, reverse, true);
      kSpace', i, outOfRange := IterationAsWritten(alpha, kSpace', i, outOfRange, reverse);
      trace := trace + [Next(cur, reverse, true)];
    }
    LoopInvDone(init, Cursor(alpha[..], kSpace', i, outOfRange), trace, hi, sinking, reverse, true);
    steps := |trace| - 1;
  }

  /** `reorder` with the vector swap on the alpha pair: alpha ends sorted, a
      permutation of its input, every vector stays beside its Ritz value, an
      already sorted input is left alone (so a second call changes nothing),
      and the result is the loop state of `Step`. */
  method Reorder<V>(alpha: array<real>, kSpace: seq<V>, reverse: bool) returns (kSpace': seq<V>, ghost steps: nat)
    requires alpha.Length <= |kSpace|
    modifies alpha
    ensures Sorted(alpha[..], reverse)
    ensures multiset(alpha[..]) == multiset(old(alpha[..]))
    ensures |kSpace'| == |kSpace| && kSpace'[alpha.Length..] == kSpace[alpha.Length..]
    ensures multiset(kSpace') == multiset(kSpace)
    ensures multiset(Pairs(alpha[..], kSpace')) == multiset(Pairs(old(alpha[..]), kSpace))
    ensures Sorted(old(alpha[..]), reverse) ==> alpha[..] == old(alpha[..]) && kSpace' == kSpace
    ensures Iterate(Cursor(old(alpha[..]), kSpace, 0, false), reverse, false, steps)
            == Cursor(alpha[..], kSpace', alpha.Length, false)
  {
    ghost var init := Cursor(alpha[..], kSpace, 0, false);
    ghost var trace := [init];
    ghost var hi := 0;
    ghost var sinking := false;
    var n := alpha.Length;
    var i := 0;
    kSpace' := kSpace;
    LoopInvInit(init, reverse, false);
    while i < n
      invariant LoopInv(init, Cursor(alpha[..], kSpace', i, false), trace, hi, sinking, reverse, false)
      decreases n - hi, if sinking then 0 else 1, if sinking then i else hi - i
    {
      ghost var cur := Cursor(alpha[..], kSpace', i, false);
      hi, sinking := LoopInvStep(init, cur, trace, hi, sinking, reverse, false);
      kSpace', i := Iteration(alpha, kSpace', i, reverse);
      trace := trace + [Next(cur, reverse, false)];
    }
    LoopInvDone(init, Cursor(alpha[..], kSpace', i, false), trace, hi, sinking, reverse, false);
    steps := |trace| - 1;
  }
}
