/** TimeOfDayEstimator: the time-of-day factor of one intraday slot over an
    L-day window of returns, after truncating returns that exceed the limit
    of their day. */
module TimeOfDay {
  import opened Numerics
  import opened Sums
  import Grid

  /** How the window is laid out. `AsWritten` follows calc.go: the window of
      window-start day `s` begins at position `s` of the series, and slot
      `tau`'s dividend takes only window position `tau`, that is, only the
      first day. `Corrected` begins the window at position `s * n` and lets
      slot `tau`'s dividend take position `tau` of every day. */
  datatype Layout = AsWritten | Corrected

  /** Whether window position `i` feeds the dividend of slot `tau`. */
  predicate CountsFor(layout: Layout, n: nat, i: nat, tau: nat)
    requires n > 0
  {
    match layout
    case AsWritten => i == tau
    case Corrected => i % n == tau
  }

  /** Whether window position `i` feeds the dividend of one of the slots
      `0 .. t-1`. */
  predicate CountsBelow(layout: Layout, n: nat, i: nat, t: nat)
    requires n > 0
  {
    match layout
    case AsWritten => i < t
    case Corrected => i % n < t
  }

  /** The per-day statistics reach every day the window touches. */
  predicate Covers(n: nat, rs: seq<real>, bvs: seq<real>, rvs: seq<real>)
  {
    |rs| <= n * |bvs| && |rs| <= n * |rvs|
  }

  /** The truncation limit of day `d` of the window:
      limitK * sqrt(min(BV, RV)) of that day. */
  function DayLimit(cfg: Config, bvs: seq<real>, rvs: seq<real>, d: nat): (limit: real)
    requires d < |bvs| && d < |rvs|
    ensures cfg.Valid() && bvs[d] >= 0.0 && rvs[d] >= 0.0 ==> limit >= 0.0
  {
    var root := cfg.math.Sqrt(Min(bvs[d], rvs[d]));
    assert cfg.Valid() && bvs[d] >= 0.0 && rvs[d] >= 0.0 ==> cfg.limitK * root >= 0.0 by {
      if cfg.Valid() && bvs[d] >= 0.0 && rvs[d] >= 0.0 {
        MulMono(cfg.limitK, 0.0, root);
      }
    }
    cfg.limitK * root
  }

  /** The limit in force at window position `i`: that of the day `i / n`
      it falls in. */
  function LimitAt(cfg: Config, rs: seq<real>, bvs: seq<real>, rvs: seq<real>, i: nat): (limit: real)
    requires cfg.n > 0 && Covers(cfg.n, rs, bvs, rvs) && i < |rs|
    ensures cfg.Valid() && AllNonneg(bvs) && AllNonneg(rvs) ==> limit >= 0.0
  {
    Grid.DayInRange(i, |rs|, cfg.n, |bvs|);
    Grid.DayInRange(i, |rs|, cfg.n, |rvs|);
    DayLimit(cfg, bvs, rvs, i / cfg.n)
  }

  /** With the statistics taken from day `s` on, the limit at window
      position `i` is the limit of day `s + i / n` of the full statistics. */
  lemma LimitFrom(cfg: Config, rs: seq<real>, bvs: seq<real>, rvs: seq<real>, s: nat, i: nat)
    requires cfg.n > 0 && s <= |bvs| && s <= |rvs| && i < |rs|
    requires Covers(cfg.n, rs, bvs[s..], rvs[s..])
    ensures s + i / cfg.n < |bvs| && s + i / cfg.n < |rvs|
    ensures LimitAt(cfg, rs, bvs[s..], rvs[s..], i) == DayLimit(cfg, bvs, rvs, s + i / cfg.n)
  {
    var d := i / cfg.n;
    Grid.DayInRange(i, |rs|, cfg.n, |bvs| - s);
    Grid.DayInRange(i, |rs|, cfg.n, |rvs| - s);
    assert bvs[s..][d] == bvs[s + d] && rvs[s..][d] == rvs[s + d];
  }

  /** Whether the return at window position `i` survives truncation: its
      magnitude is at most the limit of its day. */
  predicate Kept(cfg: Config, rs: seq<real>, bvs: seq<real>, rvs: seq<real>, i: nat)
    requires cfg.n > 0 && Covers(cfg.n, rs, bvs, rvs) && i < |rs|
  {
    Abs(rs[i]) <= LimitAt(cfg, rs, bvs, rvs, i)
  }

  /** Per window position, the squared return if it is kept, else 0. */
  function KeptSquares(cfg: Config, rs: seq<real>, bvs: seq<real>, rvs: seq<real>): (ks: seq<real>)
    requires cfg.n > 0 && Covers(cfg.n, rs, bvs, rvs)
    ensures |ks| == |rs| && AllNonneg(ks)
  {
    seq(|rs|, i requires 0 <= i < |rs| => if Kept(cfg, rs, bvs, rvs, i) then Sq(rs[i]) else 0.0)
  }

  /** Per window position, the squared return if it is kept and counts for
      slot `tau`, else 0. */
  function SlotSquares(cfg: Config, layout: Layout, rs: seq<real>, tau: nat, bvs: seq<real>, rvs: seq<real>): (ss: seq<real>)
    requires cfg.n > 0 && Covers(cfg.n, rs, bvs, rvs)
    ensures |ss| == |rs| && AllNonneg(ss)
  {
    seq(|rs|, i requires 0 <= i < |rs| =>
      if Kept(cfg, rs, bvs, rvs, i) && CountsFor(layout, cfg.n, i, tau) then Sq(rs[i]) else 0.0)
  }

  /** The divisor: all kept squared returns of the window. */
  function Divisor(cfg: Config, rs: seq<real>, bvs: seq<real>, rvs: seq<real>): (d: real)
    requires cfg.n > 0 && Covers(cfg.n, rs, bvs, rvs)
  {
    Sum(KeptSquares(cfg, rs, bvs, rvs))
  }

  /** The dividend of slot `tau`: the kept squared returns that count for it. */
  function Dividend(cfg: Config, layout: Layout, rs: seq<real>, tau: nat, bvs: seq<real>, rvs: seq<real>): (d: real)
    requires cfg.n > 0 && Covers(cfg.n, rs, bvs, rvs)
  {
    Sum(SlotSquares(cfg, layout, rs, tau, bvs, rvs))
  }

  /** The time-of-day factor n * dividend / divisor, undefined (0/0, a NaN)
      when no non-zero return survives truncation. Since the dividend is a
      part of the divisor, a defined factor lies in [0, n]. */
  function Tod(cfg: Config, layout: Layout, rs: seq<real>, tau: nat, bvs: seq<real>, rvs: seq<real>): (tod: Estimate)
    requires cfg.n > 0 && Covers(cfg.n, rs, bvs, rvs)
    ensures tod.Undefined? <==> Divisor(cfg, rs, bvs, rvs) == 0.0
    ensures tod.Defined? ==> 0.0 <= tod.value <= cfg.n as real
  {
    var divisor := Divisor(cfg, rs, bvs, rvs);
    if divisor == 0.0 then Undefined
    else
      var dividend := Dividend(cfg, layout, rs, tau, bvs, rvs);
      DividendAtMostDivisor(cfg, layout, rs, tau, bvs, rvs);
      ScaledRange(cfg.n as real, dividend, divisor);
      Defined(Scaled(cfg.n as real, dividend, divisor))
  }

  /** The source's loop: the limit is recomputed only when a new day starts
      (`i % n == 0`) and stays in force for the rest of that day; every kept
      return adds its square to the divisor, and to the dividend when it
      counts for `tau`. */
  method TodAtTau(cfg: Config, layout: Layout, rs: seq<real>, tau: nat, bvs: seq<real>, rvs: seq<real>)
    returns (tod: Estimate)
    requires cfg.n > 0 && Covers(cfg.n, rs, bvs, rvs)
    ensures tod == Tod(cfg, layout, rs, tau, bvs, rvs)
    ensures tod.Defined? ==> 0.0 <= tod.value <= cfg.n as real
  {
    var dividend, divisor := TodSums(cfg, layout, rs, tau, bvs, rvs);
    tod := if divisor == 0.0 then Undefined else Defined(Scaled(cfg.n as real, dividend, divisor));
  }

  /** The loop of the source's TOD computation, which accumulates the
      dividend and the divisor that `TodAtTau` then divides. */
  method TodSums(cfg: Config, layout: Layout, rs: seq<real>, tau: nat, bvs: seq<real>, rvs: seq<real>)
    returns (dividend: real, divisor: real)
    requires cfg.n > 0 && Covers(cfg.n, rs, bvs, rvs)
    ensures dividend == Dividend(cfg, layout, rs, tau, bvs, rvs)
    ensures divisor == Divisor(cfg, rs, bvs, rvs)
  {
    var n := cfg.n;
    var kept, slot := KeptSquares(cfg, rs, bvs, rvs), SlotSquares(cfg, layout, rs, tau, bvs, rvs);
    var limit := 0.0;
    dividend, divisor := 0.0, 0.0;
    for i := 0 to |rs|
      invariant divisor == Sum(kept[..i])
      invariant dividend == Sum(slot[..i])
      invariant 0 < i ==> limit == LimitAt(cfg, rs, bvs, rvs, i - 1)
    {
      limit := NextLimit(cfg, rs, bvs, rvs, i, limit);
      dividend, divisor := TodStep(cfg, layout, rs, tau, bvs, rvs, i, limit, dividend, divisor);
    }
    assert kept[..|rs|] == kept && slot[..|rs|] == slot;
  }

  /** The limit update of the loop of `TodSums`: recomputed when position
      `i` starts a new day, carried over from position `i - 1` otherwise. */
  method NextLimit(cfg: Config, rs: seq<real>, bvs: seq<real>, rvs: seq<real>, i: nat, limit: real)
    returns (limit': real)
    requires cfg.n > 0 && Covers(cfg.n, rs, bvs, rvs) && i < |rs|
    requires 0 < i ==> limit == LimitAt(cfg, rs, bvs, rvs, i - 1)
    ensures limit' == LimitAt(cfg, rs, bvs, rvs, i)
  {
    var n := cfg.n;
    Grid.DayInRange(i, |rs|, n, |bvs|);
    Grid.DayInRange(i, |rs|, n, |rvs|);
    if i % n == 0 {
      limit' := cfg.limitK * cfg.math.Sqrt(Min(bvs[i / n], rvs[i / n]));
    } else {
      Grid.SameDay(i, n);
      limit' := limit;
      assert LimitAt(cfg, rs, bvs, rvs, i - 1) == LimitAt(cfg, rs, bvs, rvs, i);
    }
  }

  /** The accumulation of the loop of `TodSums`: a return within the limit
      of its day adds its square to the divisor, and to the dividend when it
      counts for `tau`. */
  method TodStep(cfg: Config, layout: Layout, rs: seq<real>, tau: nat, bvs: seq<real>, rvs: seq<real>,
                 i: nat, limit: real, dividend: real, divisor: real)
    returns (dividend': real, divisor': real)
    requires cfg.n > 0 && Covers(cfg.n, rs, bvs, rvs) && i < |rs|
    requires divisor == Sum(KeptSquares(cfg, rs, bvs, rvs)[..i])
    requires dividend == Sum(SlotSquares(cfg, layout, rs, tau, bvs, rvs)[..i])
    requires limit == LimitAt(cfg, rs, bvs, rvs, i)
    ensures divisor' == Sum(KeptSquares(cfg, rs, bvs, rvs)[..i + 1])
    ensures dividend' == Sum(SlotSquares(cfg, layout, rs, tau, bvs, rvs)[..i + 1])
  {
    PrefixStep(KeptSquares(cfg, rs, bvs, rvs), i);
    PrefixStep(SlotSquares(cfg, layout, rs, tau, bvs, rvs), i);
    KeptAt(cfg, layout, rs, tau, bvs, rvs, i, limit);
    dividend', divisor' := dividend, divisor;
    if Abs(rs[i]) <= limit {
      var r2 := Sq(rs[i]);
      if CountsFor(layout, cfg.n, i, tau) {
        dividend' := dividend + r2;
      }
      divisor' := divisor + r2;
    }
  }

  /** Position `i`'s entries of the kept and slot squares, given the limit
      of its day. */
  lemma KeptAt(cfg: Config, layout: Layout, rs: seq<real>, tau: nat, bvs: seq<real>, rvs: seq<real>, i: nat, limit: real)
    requires cfg.n > 0 && Covers(cfg.n, rs, bvs, rvs) && i < |rs|
    requires limit == LimitAt(cfg, rs, bvs, rvs, i)
    ensures KeptSquares(cfg, rs, bvs, rvs)[i] == if Abs(rs[i]) <= limit then Sq(rs[i]) else 0.0
    ensures SlotSquares(cfg, layout, rs, tau, bvs, rvs)[i]
         == if Abs(rs[i]) <= limit && CountsFor(layout, cfg.n, i, tau) then Sq(rs[i]) else 0.0
  {
  }

  /** Each slot's dividend is a part of the divisor: 0 <= dividend <= divisor. */
  lemma DividendAtMostDivisor(cfg: Config, layout: Layout, rs: seq<real>, tau: nat, bvs: seq<real>, rvs: seq<real>)
    requires cfg.n > 0 && Covers(cfg.n, rs, bvs, rvs)
    ensures 0.0 <= Dividend(cfg, layout, rs, tau, bvs, rvs) <= Divisor(cfg, rs, bvs, rvs)
  {
    Nonneg(SlotSquares(cfg, layout, rs, tau, bvs, rvs));
    Mono(SlotSquares(cfg, layout, rs, tau, bvs, rvs), KeptSquares(cfg, rs, bvs, rvs));
  }

  /** A zero divisor always comes with a zero dividend, so the source's
      division is 0/0 (NaN), never an infinity; and it happens exactly when
      every return that survives truncation is zero. */
  lemma UndefinedIff(cfg: Config, layout: Layout, rs: seq<real>, tau: nat, bvs: seq<real>, rvs: seq<real>)
    requires cfg.n > 0 && Covers(cfg.n, rs, bvs, rvs)
    ensures Tod(cfg, layout, rs, tau, bvs, rvs).Undefined?
        <==> forall i :: 0 <= i < |rs| && Kept(cfg, rs, bvs, rvs, i) ==> rs[i] == 0.0
    ensures Divisor(cfg, rs, bvs, rvs) == 0.0 ==> Dividend(cfg, layout, rs, tau, bvs, rvs) == 0.0
  {
    var kept := KeptSquares(cfg, rs, bvs, rvs);
    ZeroIff(kept);
    DividendAtMostDivisor(cfg, layout, rs, tau, bvs, rvs);
    forall i | 0 <= i < |rs|
      ensures kept[i] == 0.0 <==> (Kept(cfg, rs, bvs, rvs, i) ==> rs[i] == 0.0)
    {
      NonzeroSquare(rs[i]);
    }
  }

  /** As written, slot `tau`'s dividend is the single squared return at
      window position `tau` (when it is kept), so only the first day of
      the window ever reaches a dividend. */
  lemma AsWrittenDividendIsOnePosition(cfg: Config, rs: seq<real>, tau: nat, bvs: seq<real>, rvs: seq<real>)
    requires cfg.n > 0 && Covers(cfg.n, rs, bvs, rvs)
    ensures Dividend(cfg, AsWritten, rs, tau, bvs, rvs)
         == if tau < |rs| && Kept(cfg, rs, bvs, rvs, tau) then Sq(rs[tau]) else 0.0
  {
    var slot := SlotSquares(cfg, AsWritten, rs, tau, bvs, rvs);
    if tau < |rs| {
      var other := slot[tau := 0.0];
      var single := seq(|rs|, i requires 0 <= i < |rs| => if i == tau then slot[tau] else 0.0);
      ZeroIff(other);
      Add(other, single, slot);
      OneTerm(single, tau);
    } else {
      ZeroIff(slot);
    }
  }

  /** A sequence that is zero except at `j` sums to its entry at `j`. */
  lemma {:induction false} OneTerm(xs: seq<real>, j: nat)
    requires j < |xs|
    requires forall i :: 0 <= i < |xs| && i != j ==> xs[i] == 0.0
    ensures Sum(xs) == xs[j]
    decreases |xs|
  {
    var k := |xs| - 1;
    if j == k {
      var init := xs[..k];
      ZeroIff(init);
    } else {
      OneTerm(xs[..k], j);
    }
  }

  /** The kept squared returns counting for some slot below `t`. */
  function KeptBelow(cfg: Config, layout: Layout, rs: seq<real>, t: nat, bvs: seq<real>, rvs: seq<real>): (kb: seq<real>)
    requires cfg.n > 0 && Covers(cfg.n, rs, bvs, rvs)
    ensures |kb| == |rs| && AllNonneg(kb)
  {
    seq(|rs|, i requires 0 <= i < |rs| =>
      if Kept(cfg, rs, bvs, rvs, i) && CountsBelow(layout, cfg.n, i, t) then Sq(rs[i]) else 0.0)
  }

  /** The dividends of slots `0 .. t-1`. */
  function Dividends(cfg: Config, layout: Layout, rs: seq<real>, t: nat, bvs: seq<real>, rvs: seq<real>): (ds: seq<real>)
    requires cfg.n > 0 && Covers(cfg.n, rs, bvs, rvs)
    ensures |ds| == t
  {
    seq(t, tau requires 0 <= tau < t => Dividend(cfg, layout, rs, tau, bvs, rvs))
  }

  /** Summing the dividends of slots `0 .. t-1` counts every kept return
      that counts for one of them exactly once. */
  lemma {:induction false} DividendsTotal(cfg: Config, layout: Layout, rs: seq<real>, t: nat, bvs: seq<real>, rvs: seq<real>)
    requires cfg.n > 0 && Covers(cfg.n, rs, bvs, rvs)
    ensures Sum(Dividends(cfg, layout, rs, t, bvs, rvs)) == Sum(KeptBelow(cfg, layout, rs, t, bvs, rvs))
    decreases t
  {
    var below := KeptBelow(cfg, layout, rs, t, bvs, rvs);
    if t == 0 {
      ZeroIff(below);
    } else {
      var ds := Dividends(cfg, layout, rs, t, bvs, rvs);
      assert ds[..t - 1] == Dividends(cfg, layout, rs, t - 1, bvs, rvs);
      DividendsTotal(cfg, layout, rs, t - 1, bvs, rvs);
      KeptBelowStep(cfg, layout, rs, t - 1, bvs, rvs);
      Add(KeptBelow(cfg, layout, rs, t - 1, bvs, rvs), SlotSquares(cfg, layout, rs, t - 1, bvs, rvs), below);
    }
  }

  /** Widening the slot range by slot `t` adds exactly slot `t`'s squares. */
  lemma KeptBelowStep(cfg: Config, layout: Layout, rs: seq<real>, t: nat, bvs: seq<real>, rvs: seq<real>)
    requires cfg.n > 0 && Covers(cfg.n, rs, bvs, rvs)
    ensures forall i :: 0 <= i < |rs| ==>
      KeptBelow(cfg, layout, rs, t + 1, bvs, rvs)[i]
        == KeptBelow(cfg, layout, rs, t, bvs, rvs)[i] + SlotSquares(cfg, layout, rs, t, bvs, rvs)[i]
  {
  }

  /** The time-of-day profile of a window: the factor of every slot `0 .. n-1`,
      for a window whose divisor is non-zero. */
  function Profile(cfg: Config, layout: Layout, rs: seq<real>, bvs: seq<real>, rvs: seq<real>): (p: seq<real>)
    requires cfg.n > 0 && Covers(cfg.n, rs, bvs, rvs) && Divisor(cfg, rs, bvs, rvs) != 0.0
    ensures |p| == cfg.n
  {
    seq(cfg.n, tau requires 0 <= tau < cfg.n => Tod(cfg, layout, rs, tau, bvs, rvs).value)
  }

  /** The profile sums to n/divisor times the dividends of all slots. */
  lemma ProfileSum(cfg: Config, layout: Layout, rs: seq<real>, bvs: seq<real>, rvs: seq<real>)
    requires cfg.n > 0 && Covers(cfg.n, rs, bvs, rvs) && Divisor(cfg, rs, bvs, rvs) != 0.0
    ensures Sum(Profile(cfg, layout, rs, bvs, rvs))
         == Scaled(cfg.n as real, Sum(KeptBelow(cfg, layout, rs, cfg.n, bvs, rvs)), Divisor(cfg, rs, bvs, rvs))
  {
    var d := Divisor(cfg, rs, bvs, rvs);
    var ds := Dividends(cfg, layout, rs, cfg.n, bvs, rvs);
    DividendsTotal(cfg, layout, rs, cfg.n, bvs, rvs);
    var p := Profile(cfg, layout, rs, bvs, rvs);
    forall tau | 0 <= tau < cfg.n
      ensures p[tau] == Scaled(cfg.n as real, ds[tau], d)
    {
      assert p[tau] == Tod(cfg, layout, rs, tau, bvs, rvs).value;
      assert ds[tau] == Dividend(cfg, layout, rs, tau, bvs, rvs);
    }
    ShareSum(ds, Profile(cfg, layout, rs, bvs, rvs), cfg.n as real, d, Sum(KeptBelow(cfg, layout, rs, cfg.n, bvs, rvs)));
  }

  /** Shares c * x / d of the parts x sum to c / d times their total. */
  lemma ShareSum(xs: seq<real>, shares: seq<real>, c: real, d: real, whole: real)
    requires |shares| == |xs| && d != 0.0 && Sum(xs) == whole
    requires forall i :: 0 <= i < |xs| ==> shares[i] == Scaled(c, xs[i], d)
    ensures Sum(shares) == Scaled(c, whole, d)
  {
    var f := c / d;
    forall i | 0 <= i < |xs|
      ensures shares[i] == f * xs[i]
    {
      DivMul(c, xs[i], d);
    }
    Scale(xs, shares, f);
    assert Sum(shares) == f * whole;
    DivMul(c, whole, d);
  }

  /** c / d times a part of d is at most c, and less than c for a proper part. */
  lemma ShareBound(total: real, c: real, d: real, part: real)
    requires d > 0.0 && c > 0.0
    requires total == Scaled(c, part, d)
    requires part <= d
    ensures total <= c
    ensures part < d ==> total < c
  {
    var f := c / d;
    DivMul(c, part, d);
    DivCancel(c, d);
    MulMono(f, part, d);
    if part < d {
      MulStrict(f, part, d);
    }
  }

  /** With the corrected layout every kept return is counted for exactly
      its own slot, so the profile of every window sums to exactly n: the
      normalisation the factor is meant to have. */
  lemma CorrectedProfileSumsToN(cfg: Config, rs: seq<real>, bvs: seq<real>, rvs: seq<real>)
    requires cfg.n > 0 && Covers(cfg.n, rs, bvs, rvs) && Divisor(cfg, rs, bvs, rvs) != 0.0
    ensures Sum(Profile(cfg, Corrected, rs, bvs, rvs)) == cfg.n as real
  {
    ProfileSum(cfg, Corrected, rs, bvs, rvs);
    assert KeptBelow(cfg, Corrected, rs, cfg.n, bvs, rvs) == KeptSquares(cfg, rs, bvs, rvs);
    ScaledWhole(cfg.n as real, Divisor(cfg, rs, bvs, rvs));
  }

  /** As written the profile never sums to more than n, and it sums to
      strictly less as soon as a non-zero return past the first day of the
      window survives truncation: that return is in the divisor but in no
      slot's dividend. */
  lemma AsWrittenProfileBelowN(cfg: Config, rs: seq<real>, bvs: seq<real>, rvs: seq<real>, j: nat)
    requires cfg.n > 0 && Covers(cfg.n, rs, bvs, rvs)
    requires cfg.n <= j < |rs| && Kept(cfg, rs, bvs, rvs, j) && rs[j] != 0.0
    ensures Divisor(cfg, rs, bvs, rvs) > 0.0
    ensures Sum(Profile(cfg, AsWritten, rs, bvs, rvs)) < cfg.n as real
  {
    var kept, below := KeptSquares(cfg, rs, bvs, rvs), KeptBelow(cfg, AsWritten, rs, cfg.n, bvs, rvs);
    NonzeroSquare(rs[j]);
    Nonneg(kept);
    ZeroIff(kept);
    StrictMono(below, kept, j);
    Nonneg(below);
    var d := Divisor(cfg, rs, bvs, rvs);
    assert d == Sum(kept);
    assert Sum(below) < d;
    assert d > 0.0;
    ProfileSum(cfg, AsWritten, rs, bvs, rvs);
    ShareBound(Sum(Profile(cfg, AsWritten, rs, bvs, rvs)), cfg.n as real, Divisor(cfg, rs, bvs, rvs), Sum(below));
  }

  /** Under either layout the profile sums to at most n. */
  lemma ProfileAtMostN(cfg: Config, layout: Layout, rs: seq<real>, bvs: seq<real>, rvs: seq<real>)
    requires cfg.n > 0 && Covers(cfg.n, rs, bvs, rvs) && Divisor(cfg, rs, bvs, rvs) != 0.0
    ensures Sum(Profile(cfg, layout, rs, bvs, rvs)) <= cfg.n as real
  {
    var kept, below := KeptSquares(cfg, rs, bvs, rvs), KeptBelow(cfg, layout, rs, cfg.n, bvs, rvs);
    Mono(below, kept);
    Nonneg(kept);
    ProfileSum(cfg, layout, rs, bvs, rvs);
    ShareBound(Sum(Profile(cfg, layout, rs, bvs, rvs)), cfg.n as real, Divisor(cfg, rs, bvs, rvs), Sum(below));
  }
}
