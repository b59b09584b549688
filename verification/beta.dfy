/** BetaEstimator: the truncated beta of one rolling window. Each observation
    feeds three sums, each behind its own truncation test against the
    per-slot thresholds of the asset (`k`) and of the index (`kIndex`):
    `(r + rIndex)^2` is added when `|r + rIndex| <= k * kIndex`,
    `(r - rIndex)^2` is subtracted when `|r - rIndex| <= k / kIndex`, and
    `rIndex^2` enters the divisor when `|rIndex| <= kIndex`. The beta is
    `dividend / (4 * divisor)`. */
module Beta {
  import opened Numerics
  import opened Sums
  import Grid

  /** The test of the added sum. A NaN threshold fails it, as every float64
      comparison with NaN is false. */
  predicate PlusKept(r: real, rIndex: real, k: Estimate, kIndex: Estimate): (b: bool)
    ensures b <==> k.Defined? && kIndex.Defined?
                   && -(k.value * kIndex.value) <= r + rIndex <= k.value * kIndex.value
  {
    k.Defined? && kIndex.Defined? && Abs(r + rIndex) <= k.value * kIndex.value
  }

  /** The test of the subtracted sum; the quotient follows float64 division
      when `kIndex` is 0: a positive `k` over 0 is +Inf and lets every
      observation through, a zero `k` gives NaN and a negative one -Inf,
      which let none through. */
  predicate MinusKept(r: real, rIndex: real, k: Estimate, kIndex: Estimate): (b: bool)
    ensures b ==> k.Defined? && kIndex.Defined?
    ensures k.Defined? && kIndex.Defined? && kIndex.value == 0.0 ==> (b <==> k.value > 0.0)
    ensures k.Defined? && kIndex.Defined? && kIndex.value > 0.0
        ==> (b <==> Abs(r - rIndex) * kIndex.value <= k.value)
  {
    k.Defined? && kIndex.Defined? && AtMostQuotient(Abs(r - rIndex), k.value, kIndex.value)
  }

  /** The test of the divisor: the index return against the index threshold. */
  predicate IndexKept(rIndex: real, kIndex: Estimate): (b: bool)
    ensures b <==> kIndex.Defined? && -kIndex.value <= rIndex <= kIndex.value
  {
    kIndex.Defined? && Abs(rIndex) <= kIndex.value
  }

  /** What the loop reads without going out of bounds: an index return for
      every asset return, and a threshold for every slot `i % n` reached,
      which a table of one whole day of slots always provides. */
  predicate Fits(n: nat, rs: seq<real>, rsIndex: seq<real>, ks: seq<Estimate>, ksIndex: seq<Estimate>)
  {
    && n > 0
    && |rsIndex| >= |rs|
    && (|ks| >= n || |ks| >= |rs|)
    && (|ksIndex| >= n || |ksIndex| >= |rs|)
  }

  /** The threshold in force at observation `i` of a window of `len`
      observations: the table entry of its slot `i % n`. */
  function SlotOf(ks: seq<Estimate>, n: nat, len: nat, i: nat): (k: Estimate)
    requires n > 0 && i < len && (|ks| >= n || |ks| >= len)
  {
    Grid.CyclicIndex(i, n, len, |ks|);
    ks[i % n]
  }

  /** Per observation, the added square when its test passes, else 0. */
  function PlusTerms(n: nat, rs: seq<real>, rsIndex: seq<real>, ks: seq<Estimate>, ksIndex: seq<Estimate>): (ts: seq<real>)
    requires Fits(n, rs, rsIndex, ks, ksIndex)
    ensures |ts| == |rs| && AllNonneg(ts)
  {
    seq(|rs|, i requires 0 <= i < |rs| =>
      if PlusKept(rs[i], rsIndex[i], SlotOf(ks, n, |rs|, i), SlotOf(ksIndex, n, |rs|, i)) then Sq(rs[i] + rsIndex[i]) else 0.0)
  }

  /** Per observation, the subtracted square when its test passes, else 0. */
  function MinusTerms(n: nat, rs: seq<real>, rsIndex: seq<real>, ks: seq<Estimate>, ksIndex: seq<Estimate>): (ts: seq<real>)
    requires Fits(n, rs, rsIndex, ks, ksIndex)
    ensures |ts| == |rs| && AllNonneg(ts)
  {
    seq(|rs|, i requires 0 <= i < |rs| =>
      if MinusKept(rs[i], rsIndex[i], SlotOf(ks, n, |rs|, i), SlotOf(ksIndex, n, |rs|, i)) then Sq(rs[i] - rsIndex[i]) else 0.0)
  }

  /** Per observation, the squared index return when its test passes, else 0. */
  function IndexTerms(n: nat, rs: seq<real>, rsIndex: seq<real>, ksIndex: seq<Estimate>): (ts: seq<real>)
    requires n > 0 && |rsIndex| >= |rs| && (|ksIndex| >= n || |ksIndex| >= |rs|)
    ensures |ts| == |rs| && AllNonneg(ts)
  {
    seq(|rs|, i requires 0 <= i < |rs| =>
      if IndexKept(rsIndex[i], SlotOf(ksIndex, n, |rs|, i)) then Sq(rsIndex[i]) else 0.0)
  }

  /** The divisor: the kept squared index returns. */
  function Divisor(n: nat, rs: seq<real>, rsIndex: seq<real>, ksIndex: seq<Estimate>): (d: real)
    requires n > 0 && |rsIndex| >= |rs| && (|ksIndex| >= n || |ksIndex| >= |rs|)
  {
    Sum(IndexTerms(n, rs, rsIndex, ksIndex))
  }

  /** The dividend: the added squares less the subtracted ones. */
  function Dividend(n: nat, rs: seq<real>, rsIndex: seq<real>, ks: seq<Estimate>, ksIndex: seq<Estimate>): (d: real)
    requires Fits(n, rs, rsIndex, ks, ksIndex)
  {
    Sum(PlusTerms(n, rs, rsIndex, ks, ksIndex)) - Sum(MinusTerms(n, rs, rsIndex, ks, ksIndex))
  }

  /** The truncated beta of one window; a zero divisor leaves the NaN or
      infinity of a float64 division by zero. The divisor is never negative,
      so a defined beta has the sign of the dividend. */
  function BetaOf(n: nat, rs: seq<real>, rsIndex: seq<real>, ks: seq<Estimate>, ksIndex: seq<Estimate>): (beta: Estimate)
    requires Fits(n, rs, rsIndex, ks, ksIndex)
    ensures beta.Undefined? <==> Divisor(n, rs, rsIndex, ksIndex) == 0.0
    ensures beta.Defined? ==> (beta.value >= 0.0 <==> Dividend(n, rs, rsIndex, ks, ksIndex) >= 0.0)
  {
    var divisor := Divisor(n, rs, rsIndex, ksIndex);
    var dividend := Dividend(n, rs, rsIndex, ks, ksIndex);
    if divisor == 0.0 then Undefined
    else
      Nonneg(IndexTerms(n, rs, rsIndex, ksIndex));
      QuotientSign(dividend, 4.0 * divisor);
      Defined(dividend / (4.0 * divisor))
  }

  /** The source's loop: one pass over the window, thresholds read at the
      slot `i % n`, three accumulations, each behind its own test. */
  method ContinuousBeta(n: nat, rs: seq<real>, rsIndex: seq<real>, ks: seq<Estimate>, ksIndex: seq<Estimate>)
    returns (beta: Estimate)
    requires Fits(n, rs, rsIndex, ks, ksIndex)
    ensures beta == BetaOf(n, rs, rsIndex, ks, ksIndex)
  {
    var plus, minus := PlusTerms(n, rs, rsIndex, ks, ksIndex), MinusTerms(n, rs, rsIndex, ks, ksIndex);
    var index := IndexTerms(n, rs, rsIndex, ksIndex);
    var dividend, divisor := 0.0, 0.0;
    for i := 0 to |rs|
      invariant dividend == Sum(plus[..i]) - Sum(minus[..i])
      invariant divisor == Sum(index[..i])
    {
      dividend, divisor := BetaStep(n, rs, rsIndex, ks, ksIndex, i, dividend, divisor);
    }
    assert plus[..|rs|] == plus && minus[..|rs|] == minus && index[..|rs|] == index;
    beta := if divisor == 0.0 then Undefined else Defined(dividend / (4.0 * divisor));
  }

  /** One pass of the loop body of `ContinuousBeta`: observation `i`, with
      the thresholds of its slot `i % n`, adds to each sum it passes the
      test of. */
  method BetaStep(n: nat, rs: seq<real>, rsIndex: seq<real>, ks: seq<Estimate>, ksIndex: seq<Estimate>,
                  i: nat, dividend: real, divisor: real)
    returns (dividend': real, divisor': real)
    requires Fits(n, rs, rsIndex, ks, ksIndex) && i < |rs|
    requires dividend == Sum(PlusTerms(n, rs, rsIndex, ks, ksIndex)[..i]) - Sum(MinusTerms(n, rs, rsIndex, ks, ksIndex)[..i])
    requires divisor == Sum(IndexTerms(n, rs, rsIndex, ksIndex)[..i])
    ensures dividend' == Sum(PlusTerms(n, rs, rsIndex, ks, ksIndex)[..i + 1]) - Sum(MinusTerms(n, rs, rsIndex, ks, ksIndex)[..i + 1])
    ensures divisor' == Sum(IndexTerms(n, rs, rsIndex, ksIndex)[..i + 1])
  {
    TermsAt(n, rs, rsIndex, ks, ksIndex, i);
    var r, rIndex := rs[i], rsIndex[i];
    var k, kIndex := ks[i % n], ksIndex[i % n];
    PrefixStep(PlusTerms(n, rs, rsIndex, ks, ksIndex), i);
    PrefixStep(MinusTerms(n, rs, rsIndex, ks, ksIndex), i);
    PrefixStep(IndexTerms(n, rs, rsIndex, ksIndex), i);
    dividend', divisor' := dividend, divisor;
    if PlusKept(r, rIndex, k, kIndex) {
      dividend' := dividend' + Sq(r + rIndex);
    }
    if MinusKept(r, rIndex, k, kIndex) {
      dividend' := dividend' - Sq(r - rIndex);
    }
    if IndexKept(rIndex, kIndex) {
      divisor' := divisor' + Sq(rIndex);
    }
  }

  /** Observation `i`'s entry in each of the three sums. */
  lemma TermsAt(n: nat, rs: seq<real>, rsIndex: seq<real>, ks: seq<Estimate>, ksIndex: seq<Estimate>, i: nat)
    requires Fits(n, rs, rsIndex, ks, ksIndex) && i < |rs|
    ensures i % n < |ks| && i % n < |ksIndex|
    ensures SlotOf(ks, n, |rs|, i) == ks[i % n] && SlotOf(ksIndex, n, |rs|, i) == ksIndex[i % n]
    ensures PlusTerms(n, rs, rsIndex, ks, ksIndex)[i]
         == if PlusKept(rs[i], rsIndex[i], SlotOf(ks, n, |rs|, i), SlotOf(ksIndex, n, |rs|, i)) then Sq(rs[i] + rsIndex[i]) else 0.0
    ensures MinusTerms(n, rs, rsIndex, ks, ksIndex)[i]
         == if MinusKept(rs[i], rsIndex[i], SlotOf(ks, n, |rs|, i), SlotOf(ksIndex, n, |rs|, i)) then Sq(rs[i] - rsIndex[i]) else 0.0
    ensures IndexTerms(n, rs, rsIndex, ksIndex)[i]
         == if IndexKept(rsIndex[i], SlotOf(ksIndex, n, |rs|, i)) then Sq(rsIndex[i]) else 0.0
  {
    Grid.CyclicIndex(i, n, |rs|, |ks|);
    Grid.CyclicIndex(i, n, |rs|, |ksIndex|);
  }

  /** The divisor is non-negative, and the beta is undefined exactly when
      every index return that passes the index test is zero. */
  lemma UndefinedIff(n: nat, rs: seq<real>, rsIndex: seq<real>, ks: seq<Estimate>, ksIndex: seq<Estimate>)
    requires Fits(n, rs, rsIndex, ks, ksIndex)
    ensures Divisor(n, rs, rsIndex, ksIndex) >= 0.0
    ensures BetaOf(n, rs, rsIndex, ks, ksIndex).Undefined?
        <==> forall i :: 0 <= i < |rs| && IndexKept(rsIndex[i], SlotOf(ksIndex, n, |rs|, i)) ==> rsIndex[i] == 0.0
  {
    var index := IndexTerms(n, rs, rsIndex, ksIndex);
    Nonneg(index);
    ZeroIff(index);
    forall i | 0 <= i < |rs|
      ensures index[i] == 0.0 <==> (IndexKept(rsIndex[i], SlotOf(ksIndex, n, |rs|, i)) ==> rsIndex[i] == 0.0)
    {
      TermsAt(n, rs, rsIndex, ks, ksIndex, i);
      NonzeroSquare(rsIndex[i]);
    }
  }

  /** Thresholds are read at `i % n` only, so the first `n` entries of each
      table decide the beta; index returns past the window are never read. */
  lemma ReadsOneDayOfThresholds(n: nat, rs: seq<real>, rsIndex: seq<real>, ks: seq<Estimate>, ksIndex: seq<Estimate>)
    requires Fits(n, rs, rsIndex, ks, ksIndex) && |ks| >= n && |ksIndex| >= n
    ensures Fits(n, rs, rsIndex[..|rs|], ks[..n], ksIndex[..n])
    ensures BetaOf(n, rs, rsIndex[..|rs|], ks[..n], ksIndex[..n]) == BetaOf(n, rs, rsIndex, ks, ksIndex)
  {
    var ri, k, ki := rsIndex[..|rs|], ks[..n], ksIndex[..n];
    forall i | 0 <= i < |rs|
      ensures ri[i] == rsIndex[i] && k[i % n] == SlotOf(ks, n, |rs|, i) && ki[i % n] == SlotOf(ksIndex, n, |rs|, i)
    {
      Grid.CyclicIndex(i, n, |rs|, n);
    }
    assert PlusTerms(n, rs, ri, k, ki) == PlusTerms(n, rs, rsIndex, ks, ksIndex);
    assert MinusTerms(n, rs, ri, k, ki) == MinusTerms(n, rs, rsIndex, ks, ksIndex);
    assert IndexTerms(n, rs, ri, ki) == IndexTerms(n, rs, rsIndex, ksIndex);
  }

  /** (a + b)^2 - (a - b)^2 = 4ab. */
  lemma Polarization(a: real, b: real)
    ensures Sq(a + b) - Sq(a - b) == 4.0 * (a * b)
  {
  }

  /** The products r * rIndex of the window's observations. */
  function CrossProducts(rs: seq<real>, rsIndex: seq<real>): (cs: seq<real>)
    requires |rsIndex| >= |rs|
    ensures |cs| == |rs|
  {
    seq(|rs|, i requires 0 <= i < |rs| => rs[i] * rsIndex[i])
  }

  /** Whether no observation of the window is truncated by any of the three
      tests. */
  predicate NothingTruncated(n: nat, rs: seq<real>, rsIndex: seq<real>, ks: seq<Estimate>, ksIndex: seq<Estimate>)
    requires Fits(n, rs, rsIndex, ks, ksIndex)
  {
    forall i :: 0 <= i < |rs| ==> (
      && PlusKept(rs[i], rsIndex[i], SlotOf(ks, n, |rs|, i), SlotOf(ksIndex, n, |rs|, i))
      && MinusKept(rs[i], rsIndex[i], SlotOf(ks, n, |rs|, i), SlotOf(ksIndex, n, |rs|, i))
      && IndexKept(rsIndex[i], SlotOf(ksIndex, n, |rs|, i)))
  }

  /** When nothing is truncated, the two squared sums combine into four
      times the co-variation, and the beta is the regression beta
      sum(r * rIndex) / sum(rIndex^2). */
  lemma UntruncatedIsRegressionBeta(n: nat, rs: seq<real>, rsIndex: seq<real>, ks: seq<Estimate>, ksIndex: seq<Estimate>)
    requires Fits(n, rs, rsIndex, ks, ksIndex) && NothingTruncated(n, rs, rsIndex, ks, ksIndex)
    requires Divisor(n, rs, rsIndex, ksIndex) != 0.0
    ensures Divisor(n, rs, rsIndex, ksIndex) == Sum(seq(|rs|, i requires 0 <= i < |rs| => Sq(rsIndex[i])))
    ensures BetaOf(n, rs, rsIndex, ks, ksIndex)
         == Defined(Sum(CrossProducts(rs, rsIndex)) / Divisor(n, rs, rsIndex, ksIndex))
  {
    var plus, minus := PlusTerms(n, rs, rsIndex, ks, ksIndex), MinusTerms(n, rs, rsIndex, ks, ksIndex);
    var index := IndexTerms(n, rs, rsIndex, ksIndex);
    var cross := CrossProducts(rs, rsIndex);
    var four := seq(|rs|, i requires 0 <= i < |rs| => 4.0 * cross[i]);
    forall i | 0 <= i < |rs|
      ensures plus[i] == minus[i] + four[i]
    {
      Polarization(rs[i], rsIndex[i]);
    }
    Add(minus, four, plus);
    Scale(cross, four, 4.0);
    assert index == seq(|rs|, i requires 0 <= i < |rs| => Sq(rsIndex[i]));
    QuarterCancel(Sum(cross), Divisor(n, rs, rsIndex, ksIndex));
  }

  /** 4x / (4d) = x / d. */
  lemma QuarterCancel(x: real, d: real)
    requires d != 0.0
    ensures 4.0 * x / (4.0 * d) == x / d
  {
  }

  /** Self-beta: against itself (the same returns and the same thresholds),
      a window in which every observation passes the added-sum and the
      index tests has a beta of exactly 1, since the subtracted squares
      vanish and the added ones are four times the divisor's. */
  lemma SelfBetaIsOne(n: nat, rs: seq<real>, ks: seq<Estimate>)
    requires Fits(n, rs, rs, ks, ks)
    requires forall i :: 0 <= i < |rs| ==> (
      PlusKept(rs[i], rs[i], SlotOf(ks, n, |rs|, i), SlotOf(ks, n, |rs|, i)) && IndexKept(rs[i], SlotOf(ks, n, |rs|, i)))
    requires Divisor(n, rs, rs, ks) != 0.0
    ensures BetaOf(n, rs, rs, ks, ks) == Defined(1.0)
  {
    var plus, minus, index := PlusTerms(n, rs, rs, ks, ks), MinusTerms(n, rs, rs, ks, ks), IndexTerms(n, rs, rs, ks);
    forall i | 0 <= i < |rs|
      ensures plus[i] == 4.0 * index[i] && minus[i] == 0.0
    {
      assert rs[i] + rs[i] == 2.0 * rs[i];
    }
    Scale(index, plus, 4.0);
    ZeroIff(minus);
    WholeQuarter(Sum(index));
  }

  /** 4d / (4d) = 1. */
  lemma WholeQuarter(d: real)
    requires d != 0.0
    ensures 4.0 * d / (4.0 * d) == 1.0
  {
  }

  /** Self-beta under truncation: with positive thresholds of at most 2, an
      observation that passes the added-sum test `|2r| <= k^2` also passes
      the index test `|r| <= k`, so against itself every window's beta lies
      in [0, 1]. */
  lemma SelfBetaAtMostOne(n: nat, rs: seq<real>, ks: seq<Estimate>)
    requires Fits(n, rs, rs, ks, ks)
    requires forall i :: 0 <= i < |ks| ==> ks[i].Defined? && 0.0 < ks[i].value <= 2.0
    requires Divisor(n, rs, rs, ks) != 0.0
    ensures BetaOf(n, rs, rs, ks, ks).Defined?
    ensures 0.0 <= BetaOf(n, rs, rs, ks, ks).value <= 1.0
  {
    var plus, minus, index := PlusTerms(n, rs, rs, ks, ks), MinusTerms(n, rs, rs, ks, ks), IndexTerms(n, rs, rs, ks);
    var quad := seq(|rs|, i requires 0 <= i < |rs| => 4.0 * index[i]);
    forall i | 0 <= i < |rs|
      ensures plus[i] <= quad[i] && minus[i] == 0.0
    {
      SelfTermsAt(n, rs, ks, i);
    }
    Mono(plus, quad);
    Scale(index, quad, 4.0);
    ZeroIff(minus);
    Nonneg(plus);
    Nonneg(index);
    var p, d := Sum(plus), Sum(index);
    assert 0.0 <= p <= 4.0 * d;
    Ratio(p, 4.0 * d, 1.0);
    assert BetaOf(n, rs, rs, ks, ks) == Defined((p - 0.0) / (4.0 * d));
  }

  /** Against itself, with thresholds in (0, 2], observation `i` adds at most
      four times its divisor entry and subtracts nothing. */
  lemma SelfTermsAt(n: nat, rs: seq<real>, ks: seq<Estimate>, i: nat)
    requires Fits(n, rs, rs, ks, ks) && i < |rs|
    requires forall j :: 0 <= j < |ks| ==> ks[j].Defined? && 0.0 < ks[j].value <= 2.0
    ensures PlusTerms(n, rs, rs, ks, ks)[i] <= 4.0 * IndexTerms(n, rs, rs, ks)[i]
    ensures MinusTerms(n, rs, rs, ks, ks)[i] == 0.0
  {
    TermsAt(n, rs, rs, ks, ks, i);
    var r, k := rs[i], SlotOf(ks, n, |rs|, i).value;
    if PlusKept(r, r, SlotOf(ks, n, |rs|, i), SlotOf(ks, n, |rs|, i)) {
      PlusImpliesIndex(r, k);
      assert Sq(r + r) == 4.0 * Sq(r);
    }
  }

  /** For 0 < k <= 2, |2r| <= k * k implies |r| <= k. */
  lemma PlusImpliesIndex(r: real, k: real)
    requires 0.0 < k <= 2.0 && Abs(r + r) <= k * k
    ensures Abs(r) <= k
  {
    var a := Abs(r);
    assert Abs(r + r) == 2.0 * a;
    MulMono(k, k, 2.0);
    assert k * k <= 2.0 * k;
    assert 2.0 * a <= 2.0 * k;
  }
}
