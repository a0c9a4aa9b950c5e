/** Sums of a weight over a sequence: the listener's counters (slots in use, WaitGroup
    count, remaining work) are all of this form. */
module Sums {

  ghost function Sum<T>(xs: seq<T>, weight: T -> nat): nat
  {
    if xs == [] then 0 else Sum(xs[..|xs| - 1], weight) + weight(xs[|xs| - 1])
  }

  lemma SumAppend<T>(xs: seq<T>, x: T, weight: T -> nat)
    ensures Sum(xs + [x], weight) == Sum(xs, weight) + weight(x)
  {
    assert (xs + [x])[..|xs|] == xs;
  }

  lemma {:induction false} SumUpdate<T>(xs: seq<T>, i: nat, x: T, weight: T -> nat)
    requires i < |xs|
    ensures Sum(xs[i := x], weight) + weight(xs[i]) == Sum(xs, weight) + weight(x)
  {
    var last := |xs| - 1;
    if i == last {
      assert xs[i := x][..last] == xs[..last];
    } else {
      SumUpdate(xs[..last], i, x, weight);
      assert xs[i := x][..last] == xs[..last][i := x];
    }
  }

  /** One element's weight is part of the sum. */
  lemma {:induction false} SumAtLeast<T>(xs: seq<T>, i: nat, weight: T -> nat)
    requires i < |xs|
    ensures weight(xs[i]) <= Sum(xs, weight)
  {
    if i < |xs| - 1 {
      SumAtLeast(xs[..|xs| - 1], i, weight);
    }
  }

  /** Two elements' weights are both part of the sum. */
  lemma {:induction false} SumAtLeastTwo<T>(xs: seq<T>, i: nat, j: nat, weight: T -> nat)
    requires i < j < |xs|
    ensures weight(xs[i]) + weight(xs[j]) <= Sum(xs, weight)
  {
    var last := |xs| - 1;
    if j == last {
      SumAtLeast(xs[..last], i, weight);
    } else {
      SumAtLeastTwo(xs[..last], i, j, weight);
    }
  }

  lemma {:induction false} SumBounded<T>(xs: seq<T>, small: T -> nat, factor: nat, large: T -> nat)
    requires forall x :: x in xs ==> small(x) <= factor * large(x)
    ensures Sum(xs, small) <= factor * Sum(xs, large)
  {
    if xs != [] {
      SumBounded(xs[..|xs| - 1], small, factor, large);
    }
  }

  lemma {:induction false} SumZero<T>(xs: seq<T>, weight: T -> nat)
    ensures Sum(xs, weight) == 0 <==> forall i :: 0 <= i < |xs| ==> weight(xs[i]) == 0
  {
    if xs != [] {
      var init := xs[..|xs| - 1];
      SumZero(init, weight);
      assert forall i :: 0 <= i < |init| ==> init[i] == xs[i];
    }
  }
}
