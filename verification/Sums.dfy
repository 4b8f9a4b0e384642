/** Adding up a rank over a sequence, for the termination measures. */
module Sums {
  function Sum<T>(xs: seq<T>, rank: T -> nat): nat {
    if xs == [] then 0 else rank(xs[0]) + Sum(xs[1..], rank)
  }

  lemma {:induction false} SumAfterMove<T>(xs: seq<T>, rank: T -> nat, i: nat, x: T)
    requires i < |xs|
    ensures Sum(xs[i := x], rank) + rank(xs[i]) == Sum(xs, rank) + rank(x)
  {
    if i == 0 {
      assert xs[i := x][1..] == xs[1..];
    } else {
      assert xs[i := x][1..] == xs[1..][i - 1 := x];
      SumAfterMove(xs[1..], rank, i - 1, x);
    }
  }

  /** If every rank grows by no more than `extra`, so does the sum, per element. */
  lemma {:induction false} SumGrows<T>(xs: seq<T>, ys: seq<T>, rank: T -> nat, extra: nat)
    requires |xs| == |ys| && forall i :: 0 <= i < |xs| ==> rank(ys[i]) <= rank(xs[i]) + extra
    ensures Sum(ys, rank) <= Sum(xs, rank) + extra * |xs|
  {
    if xs != [] {
      SumGrows(xs[1..], ys[1..], rank, extra);
    }
  }
}
