/** Finite sums over sequences of reals, and the facts about them that the
    estimators rely on: prefix extension, sign, monotonicity and linearity. */
module Sums {

  /** The sum of all elements, peeled from the right, so that a loop that
      adds one element per step keeps a prefix sum. */
  function Sum(xs: seq<real>): (total: real)
  {
    if |xs| == 0 then 0.0 else Sum(xs[..|xs| - 1]) + xs[|xs| - 1]
  }

  predicate AllNonneg(xs: seq<real>)
  {
    forall i :: 0 <= i < |xs| ==> xs[i] >= 0.0
  }

  /** Extending a prefix by one element adds that element. */
  lemma PrefixStep(xs: seq<real>, i: nat)
    requires i < |xs|
    ensures Sum(xs[..i + 1]) == Sum(xs[..i]) + xs[i]
  {
    assert xs[..i + 1][..i] == xs[..i];
  }

  lemma {:induction false} Nonneg(xs: seq<real>)
    requires AllNonneg(xs)
    ensures Sum(xs) >= 0.0
    decreases |xs|
  {
    if |xs| > 0 {
      Nonneg(xs[..|xs| - 1]);
    }
  }

  /** A sum of non-negative terms vanishes exactly when every term does. */
  lemma {:induction false} ZeroIff(xs: seq<real>)
    requires AllNonneg(xs)
    ensures Sum(xs) == 0.0 <==> forall i :: 0 <= i < |xs| ==> xs[i] == 0.0
    decreases |xs|
  {
    if |xs| > 0 {
      var init := xs[..|xs| - 1];
      ZeroIff(init);
      Nonneg(init);
      if Sum(xs) == 0.0 {
        forall i | 0 <= i < |xs|
          ensures xs[i] == 0.0
        {
          if i < |init| {
            assert init[i] == xs[i];
          }
        }
      }
    }
  }

  /** Pointwise smaller terms give a smaller sum. */
  lemma {:induction false} Mono(a: seq<real>, b: seq<real>)
    requires |a| == |b|
    requires forall i :: 0 <= i < |a| ==> a[i] <= b[i]
    ensures Sum(a) <= Sum(b)
    decreases |a|
  {
    if |a| > 0 {
      Mono(a[..|a| - 1], b[..|b| - 1]);
    }
  }

  /** Pointwise smaller terms, one of them strictly, give a strictly smaller sum. */
  lemma {:induction false} StrictMono(a: seq<real>, b: seq<real>, j: nat)
    requires |a| == |b| && j < |a|
    requires forall i :: 0 <= i < |a| ==> a[i] <= b[i]
    requires a[j] < b[j]
    ensures Sum(a) < Sum(b)
    decreases |a|
  {
    var k := |a| - 1;
    if j == k {
      Mono(a[..k], b[..k]);
    } else {
      StrictMono(a[..k], b[..k], j);
    }
  }

  /** The sum of a pointwise sum is the sum of the sums. */
  lemma {:induction false} Add(a: seq<real>, b: seq<real>, c: seq<real>)
    requires |a| == |b| == |c|
    requires forall i :: 0 <= i < |c| ==> c[i] == a[i] + b[i]
    ensures Sum(c) == Sum(a) + Sum(b)
    decreases |c|
  {
    if |c| > 0 {
      var k := |c| - 1;
      Add(a[..k], b[..k], c[..k]);
    }
  }

  /** A constant factor moves out of a sum. */
  lemma {:induction false} Scale(a: seq<real>, c: seq<real>, factor: real)
    requires |a| == |c|
    requires forall i :: 0 <= i < |c| ==> c[i] == factor * a[i]
    ensures Sum(c) == factor * Sum(a)
    decreases |c|
  {
    if |c| > 0 {
      var k := |c| - 1;
      Scale(a[..k], c[..k], factor);
    }
  }
}
