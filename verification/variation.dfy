/** DailyVariationEstimator: realized variation (RV) and bipower variation
    (BV) of one day's intraday returns, and the per-day tables of both. */
module Variation {
  import opened Numerics
  import opened Sums
  import Grid

  /** The squared returns of a day; RV is their sum. */
  function Squares(day: seq<real>): (sq: seq<real>)
    ensures |sq| == |day| && AllNonneg(sq)
  {
    seq(|day|, i requires 0 <= i < |day| => Sq(day[i]))
  }

  /** The products |r_j| * |r_(j+1)| of adjacent absolute returns, one per
      adjacent pair; BV is pi/2 times their sum. */
  function AdjacentProducts(day: seq<real>): (ps: seq<real>)
    ensures |ps| == if |day| == 0 then 0 else |day| - 1
    ensures AllNonneg(ps)
  {
    if |day| == 0 then []
    else seq(|day| - 1, j requires 0 <= j < |day| - 1 => Abs(day[j]) * Abs(day[j + 1]))
  }

  /** Realized variation: the sum of the squared returns of the day. */
  function RVOf(day: seq<real>): (rv: real)
  {
    Sum(Squares(day))
  }

  /** Bipower variation: pi/2 times the sum of adjacent absolute products. */
  function BVOf(math: Math, day: seq<real>): (bv: real)
  {
    math.Pi / 2.0 * Sum(AdjacentProducts(day))
  }

  /** RV as the source computes it: one running sum of squares. */
  method RV(day: seq<real>) returns (sum: real)
    ensures sum == Sum(Squares(day))
    ensures sum >= 0.0
  {
    sum := 0.0;
    for i := 0 to |day|
      invariant sum == Sum(Squares(day)[..i])
    {
      PrefixStep(Squares(day), i);
      sum := sum + day[i] * day[i];
    }
    assert Squares(day)[..|day|] == Squares(day);
    Nonneg(Squares(day));
  }

  /** BV as the source computes it: each return is multiplied by the one
      before it, with `former` starting at 0, so the first return of the day
      contributes nothing and the sum runs over adjacent pairs only. */
  method BV(math: Math, day: seq<real>) returns (sum: real)
    requires math.Valid()
    ensures sum == math.Pi / 2.0 * Sum(AdjacentProducts(day))
    ensures sum >= 0.0
  {
    var former := 0.0;
    sum := 0.0;
    for i := 0 to |day|
      invariant former == if i == 0 then 0.0 else day[i - 1]
      invariant sum == Sum(AdjacentProducts(day[..i]))
    {
      var term := Abs(day[i]) * Abs(former);
      BVStep(day, i, former, sum);
      sum := sum + term;
      former := day[i];
    }
    assert day[..|day|] == day;
    Nonneg(AdjacentProducts(day));
    sum := sum * (math.Pi / 2.0);
  }

  /** One step of the source's BV loop keeps `sum` equal to the adjacent
      products of the prefix read so far. */
  lemma BVStep(day: seq<real>, i: nat, former: real, sum: real)
    requires i < |day|
    requires former == if i == 0 then 0.0 else day[i - 1]
    requires sum == Sum(AdjacentProducts(day[..i]))
    ensures sum + Abs(day[i]) * Abs(former) == Sum(AdjacentProducts(day[..i + 1]))
  {
    if i == 0 {
      assert AdjacentProducts(day[..1]) == [];
    } else {
      AdjacentStep(day[..i + 1], i);
      assert day[..i + 1][..i] == day[..i];
    }
  }

  /** Appending a return adds one adjacent product: the new return times
      the previous last one. */
  lemma AdjacentStep(day: seq<real>, k: nat)
    requires |day| >= 2 && k == |day| - 1
    ensures Sum(AdjacentProducts(day)) == Sum(AdjacentProducts(day[..k])) + Abs(day[k]) * Abs(day[k - 1])
  {
    var ps, qs := AdjacentProducts(day), AdjacentProducts(day[..k]);
    forall j | 0 <= j < k - 1
      ensures qs[j] == ps[j]
    {
      assert day[..k][j] == day[j] && day[..k][j + 1] == day[j + 1];
    }
    assert ps[..k - 1] == qs;
  }

  lemma RVNonneg(day: seq<real>)
    ensures RVOf(day) >= 0.0
  {
    Nonneg(Squares(day));
  }

  lemma BVNonneg(math: Math, day: seq<real>)
    requires math.Valid()
    ensures BVOf(math, day) >= 0.0
  {
    Nonneg(AdjacentProducts(day));
  }

  /** The adjacent products never exceed the squares: sum |a||b| is at most
      sum r^2 less half the last square, since |a||b| <= (a^2 + b^2) / 2. */
  lemma {:induction false} AdjacentBelowSquares(day: seq<real>)
    requires |day| > 0
    ensures Sum(AdjacentProducts(day)) <= Sum(Squares(day)) - Sq(day[|day| - 1]) / 2.0
    decreases |day|
  {
    var k := |day| - 1;
    if k == 0 {
      assert AdjacentProducts(day) == [];
      assert Squares(day) == [Sq(day[0])];
      assert Sum(AdjacentProducts(day)) == 0.0;
      assert Sum(Squares(day)) == Sq(day[0]);
    } else {
      var front, x, y := day[..k], day[k - 1], day[k];
      assert front[k - 1] == x;
      AdjacentBelowSquares(front);
      AdjacentStep(day, k);
      SquaresStep(day, k);
      ProductBound(x, y);
      BelowStep(Sum(AdjacentProducts(front)), Sum(Squares(front)), Abs(y) * Abs(x), Sq(x), Sq(y),
                Sum(AdjacentProducts(day)), Sum(Squares(day)));
    }
  }

  /** The inductive step of `AdjacentBelowSquares` on the sums alone. */
  lemma BelowStep(products: real, squares: real, p: real, x2: real, y2: real, products': real, squares': real)
    requires products <= squares - x2 / 2.0
    requires p <= (x2 + y2) / 2.0
    requires products' == products + p && squares' == squares + y2
    ensures products' <= squares' - y2 / 2.0
  {
  }

  /** Appending a return adds its square to the squares' sum. */
  lemma SquaresStep(day: seq<real>, k: nat)
    requires |day| > 0 && k == |day| - 1
    ensures Sum(Squares(day)) == Sum(Squares(day[..k])) + Sq(day[k])
  {
    assert Squares(day)[..k] == Squares(day[..k]);
    PrefixStep(Squares(day), k);
    assert Squares(day)[..k + 1] == Squares(day);
  }

  /** |x| * |y| <= (x^2 + y^2) / 2, from (|x| - |y|)^2 >= 0. */
  lemma ProductBound(x: real, y: real)
    ensures Abs(y) * Abs(x) <= (Sq(x) + Sq(y)) / 2.0
  {
    var a, b := Abs(x), Abs(y);
    var d := a - b;
    assert d * d >= 0.0;
    assert a * a == Sq(x) && b * b == Sq(y);
    assert d * d == a * a - 2.0 * a * b + b * b;
  }

  /** Bipower variation is at most pi/2 times realized variation: the
      jump-robust proxy never exceeds the scaled jump-sensitive one. */
  lemma BVAtMostScaledRV(math: Math, day: seq<real>)
    requires math.Valid()
    ensures BVOf(math, day) <= math.Pi / 2.0 * RVOf(day)
  {
    if |day| == 0 {
      assert AdjacentProducts(day) == [];
      assert Squares(day) == [];
    } else {
      AdjacentBelowSquares(day);
      MulLeReal(math.Pi / 2.0, Sum(AdjacentProducts(day)), Sum(Squares(day)));
    }
  }

  lemma MulLeReal(c: real, a: real, b: real)
    requires c >= 0.0 && a <= b
    ensures c * a <= c * b
  {
  }

  /** Day `d` of a flat series: its `n` returns `rs[d*n .. (d+1)*n]`. */
  function DayOf(n: nat, rs: seq<real>, d: nat): (day: seq<real>)
    requires n > 0 && d < |rs| / n
    ensures |day| == n
  {
    Grid.WholeDay(d, |rs|, n);
    rs[d * n .. (d + 1) * n]
  }

  /** BV of every whole day of the series. */
  function DailyBVs(math: Math, n: nat, rs: seq<real>): (bvs: seq<real>)
    requires n > 0
    ensures |bvs| == |rs| / n
  {
    seq(|rs| / n, d requires 0 <= d < |rs| / n => BVOf(math, DayOf(n, rs, d)))
  }

  /** RV of every whole day of the series. */
  function DailyRVs(n: nat, rs: seq<real>): (rvs: seq<real>)
    requires n > 0
    ensures |rvs| == |rs| / n
  {
    seq(|rs| / n, d requires 0 <= d < |rs| / n => RVOf(DayOf(n, rs, d)))
  }

  /** The first stage of the threshold computation: BV and RV of each of the
      `len(rs) / n` whole days, each from that day's own slice only. A
      trailing partial day gets no entry. */
  method DailyStats(math: Math, n: nat, rs: seq<real>) returns (bvs: seq<real>, rvs: seq<real>)
    requires n > 0 && math.Valid()
    ensures |bvs| == |rvs| == |rs| / n
    ensures forall d :: 0 <= d < |bvs| ==> bvs[d] == BVOf(math, DayOf(n, rs, d)) && bvs[d] >= 0.0
    ensures forall d :: 0 <= d < |rvs| ==> rvs[d] == RVOf(DayOf(n, rs, d)) && rvs[d] >= 0.0
  {
    var days := |rs| / n;
    bvs, rvs := [], [];
    for d := 0 to days
      invariant bvs == DailyBVs(math, n, rs)[..d]
      invariant rvs == DailyRVs(n, rs)[..d]
    {
      var interval := DayOf(n, rs, d);
      var bv := BV(math, interval);
      var rv := RV(interval);
      assert bv == DailyBVs(math, n, rs)[d];
      assert rv == DailyRVs(n, rs)[d];
      assert DailyBVs(math, n, rs)[..d + 1] == DailyBVs(math, n, rs)[..d] + [bv];
      assert DailyRVs(n, rs)[..d + 1] == DailyRVs(n, rs)[..d] + [rv];
      bvs, rvs := bvs + [bv], rvs + [rv];
    }
    forall d | 0 <= d < days
      ensures bvs[d] >= 0.0 && rvs[d] >= 0.0
    {
      BVNonneg(math, DayOf(n, rs, d));
      RVNonneg(DayOf(n, rs, d));
    }
  }
}
