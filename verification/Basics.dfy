/** Bytes, parity, and sums of sequences. */
module Basics {

  type byte = x: int | 0 <= x < 256

  predicate Odd(n: nat) {
    n % 2 == 1
  }

  function Sum(xs: seq<int>): int {
    if xs == [] then 0 else Sum(xs[..|xs| - 1]) + xs[|xs| - 1]
  }

  lemma {:induction false} SumNonNegative(xs: seq<int>)
    requires forall i :: 0 <= i < |xs| ==> xs[i] >= 0
    ensures Sum(xs) >= 0 && forall i :: 0 <= i < |xs| ==> xs[i] <= Sum(xs)
  {
    if xs == [] {
    } else {
      SumNonNegative(xs[..|xs| - 1]);
    }
  }

  lemma {:induction false} SumSplit(xs: seq<int>, ys: seq<int>)
    requires xs <= ys
    ensures Sum(ys) == Sum(xs) + Sum(ys[|xs|..])
  {
    if ys == xs {
      assert ys[|xs|..] == [];
    } else {
      var n := |ys| - 1;
      SumSplit(xs, ys[..n]);
      assert ys[|xs|..][..n - |xs|] == ys[..n][|xs|..];
    }
  }
}
