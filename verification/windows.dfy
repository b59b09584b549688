/** WindowScheduler and the pipeline of one asset: the rolling windows of
    `L` days whose betas form the output series, the date offset that aligns
    the index series with the asset, and the one-row-per-day resampling of
    dates and closing prices that the betas are paired with. */
module Windows {
  import opened Numerics
  import Grid
  import opened Returns
  import Beta
  import opened Thresholds
  import opened TimeOfDay

  /** The index series reach every window once shifted by `sameIndex`: the
      returns up to the end of the last window, and the thresholds up to the
      end of the last window's first day. */
  predicate IndexCovers(cfg: Config, rsLen: nat, ksLen: nat, rsIndexLen: nat, ksIndexLen: nat, sameIndex: nat)
    requires cfg.n > 0
  {
    var w := WindowCount(cfg, rsLen);
    && sameIndex <= rsIndexLen && sameIndex <= ksIndexLen
    && (w > 0 ==>
          (w - 1 + cfg.L) * cfg.n <= rsIndexLen - sameIndex
          && w * cfg.n <= ksLen
          && w * cfg.n <= ksIndexLen - sameIndex)
  }

  /** The slices window `s` takes of the index series shifted by
      `sameIndex`, and of the thresholds, end within those series. */
  predicate WindowInIndex(cfg: Config, ksLen: nat, rsIndexLen: nat, ksIndexLen: nat, sameIndex: nat, s: nat)
  {
    && sameIndex + (s + cfg.L) * cfg.n <= rsIndexLen
    && (s + 1) * cfg.n <= ksLen
    && sameIndex + (s + 1) * cfg.n <= ksIndexLen
  }

  /** Checking the last window is enough: `IndexCovers` holds exactly when
      the shift itself and the slices of every window are in bounds, that
      is, exactly when every slice the windows take ends within its series. */
  lemma IndexCoversEveryWindow(cfg: Config, rsLen: nat, ksLen: nat, rsIndexLen: nat, ksIndexLen: nat, sameIndex: nat)
    requires cfg.n > 0
    ensures IndexCovers(cfg, rsLen, ksLen, rsIndexLen, ksIndexLen, sameIndex)
        <==> && sameIndex <= rsIndexLen && sameIndex <= ksIndexLen
             && forall s :: 0 <= s < WindowCount(cfg, rsLen)
                  ==> WindowInIndex(cfg, ksLen, rsIndexLen, ksIndexLen, sameIndex, s)
  {
    var w, n := WindowCount(cfg, rsLen), cfg.n;
    if IndexCovers(cfg, rsLen, ksLen, rsIndexLen, ksIndexLen, sameIndex) {
      forall s | 0 <= s < w
        ensures WindowInIndex(cfg, ksLen, rsIndexLen, ksIndexLen, sameIndex, s)
      {
        Grid.MulLe(s + cfg.L, w - 1 + cfg.L, n);
        Grid.MulLe(s + 1, w, n);
      }
    }
    if w > 0 && sameIndex <= rsIndexLen && sameIndex <= ksIndexLen
       && WindowInIndex(cfg, ksLen, rsIndexLen, ksIndexLen, sameIndex, w - 1) {
      assert IndexCovers(cfg, rsLen, ksLen, rsIndexLen, ksIndexLen, sameIndex);
    }
  }

  /** Every slice that window `s` takes is in bounds. */
  lemma WindowBounds(cfg: Config, rsLen: nat, ksLen: nat, rsIndexLen: nat, ksIndexLen: nat, sameIndex: nat, s: nat)
    requires cfg.Valid() && rsLen >= cfg.L * cfg.n
    requires IndexCovers(cfg, rsLen, ksLen, rsIndexLen, ksIndexLen, sameIndex)
    requires s < WindowCount(cfg, rsLen)
    ensures (s + cfg.L) * cfg.n <= rsLen
    ensures sameIndex + (s + cfg.L) * cfg.n <= rsIndexLen
    ensures (s + 1) * cfg.n <= ksLen
    ensures sameIndex + (s + 1) * cfg.n <= ksIndexLen
    ensures s * cfg.n <= (s + 1) * cfg.n <= (s + cfg.L) * cfg.n
    ensures (s + 1) * cfg.n - s * cfg.n == cfg.n
  {
    var n, w := cfg.n, WindowCount(cfg, rsLen);
    Grid.MulLe(s + cfg.L, w - 1 + cfg.L, n);
    Grid.MulLe(s + 1, w, n);
    Grid.MulLe(s, s + 1, n);
    Grid.MulLe(s + 1, s + cfg.L, n);
    Grid.MulLe(w + cfg.L, rsLen / n, n);
    assert (w - 1 + cfg.L) * n <= (w + cfg.L) * n;
  }

  /** The beta of window start `s`: days `s .. s+L-1` of asset and index
      returns, and the thresholds of the window's first day, the index
      series read from `sameIndex` on. */
  function WindowBeta(cfg: Config, rs: seq<real>, rsIndex: seq<real>, ks: seq<Estimate>, ksIndex: seq<Estimate>, sameIndex: nat, s: nat): (beta: Estimate)
    requires cfg.Valid() && |rs| >= cfg.L * cfg.n
    requires IndexCovers(cfg, |rs|, |ks|, |rsIndex|, |ksIndex|, sameIndex)
    requires s < WindowCount(cfg, |rs|)
  {
    WindowBounds(cfg, |rs|, |ks|, |rsIndex|, |ksIndex|, sameIndex, s);
    SpanBeta(cfg.n, rs, rsIndex, ks, ksIndex, sameIndex, s * cfg.n, (s + cfg.L) * cfg.n, (s + 1) * cfg.n)
  }

  /** The beta of the returns `start .. rsEnd` and the thresholds
      `start .. ksEnd`, the index series read from `sameIndex` on. */
  function SpanBeta(n: nat, rs: seq<real>, rsIndex: seq<real>, ks: seq<Estimate>, ksIndex: seq<Estimate>, sameIndex: nat,
                    start: nat, rsEnd: nat, ksEnd: nat): (beta: Estimate)
    requires n > 0 && start <= ksEnd <= rsEnd && ksEnd - start == n
    requires rsEnd <= |rs| && sameIndex + rsEnd <= |rsIndex|
    requires ksEnd <= |ks| && sameIndex + ksEnd <= |ksIndex|
  {
    Beta.BetaOf(n, rs[start..rsEnd], rsIndex[sameIndex + start .. sameIndex + rsEnd],
                ks[start..ksEnd], ksIndex[sameIndex + start .. sameIndex + ksEnd])
  }

  /** The source's driver: one beta per window start, each computed by the
      truncated-beta loop on the window's slices. */
  method ContinuousBetas(cfg: Config, rs: seq<real>, rsIndex: seq<real>, ks: seq<Estimate>, ksIndex: seq<Estimate>, sameIndex: nat)
    returns (betas: seq<Estimate>)
    requires cfg.Valid() && |rs| >= cfg.L * cfg.n
    requires IndexCovers(cfg, |rs|, |ks|, |rsIndex|, |ksIndex|, sameIndex)
    ensures |betas| == |rs| / cfg.n - cfg.L
    ensures forall s :: 0 <= s < |betas| ==> betas[s] == WindowBeta(cfg, rs, rsIndex, ks, ksIndex, sameIndex, s)
  {
    var n := cfg.n;
    var rsIdx, ksIdx := rsIndex[sameIndex..], ksIndex[sameIndex..];
    var validDays := |rs| / n - cfg.L;
    Grid.DaysAfter(|rs|, cfg.L, n);
    betas := [];
    for s := 0 to validDays
      invariant |betas| == s
      invariant forall j :: 0 <= j < s ==> betas[j] == WindowBeta(cfg, rs, rsIndex, ks, ksIndex, sameIndex, j)
    {
      var beta := BetaAt(cfg, rs, rsIndex, ks, ksIndex, sameIndex, rsIdx, ksIdx, s);
      betas := betas + [beta];
    }
  }

  /** One task of the driver: window `s`'s slices of the series and of the
      shifted index series `rsIdx`, `ksIdx`, and the beta loop on them. */
  method BetaAt(cfg: Config, rs: seq<real>, rsIndex: seq<real>, ks: seq<Estimate>, ksIndex: seq<Estimate>, sameIndex: nat,
                rsIdx: seq<real>, ksIdx: seq<Estimate>, s: nat)
    returns (beta: Estimate)
    requires cfg.Valid() && |rs| >= cfg.L * cfg.n
    requires IndexCovers(cfg, |rs|, |ks|, |rsIndex|, |ksIndex|, sameIndex)
    requires rsIdx == rsIndex[sameIndex..] && ksIdx == ksIndex[sameIndex..]
    requires s < WindowCount(cfg, |rs|)
    ensures beta == WindowBeta(cfg, rs, rsIndex, ks, ksIndex, sameIndex, s)
  {
    var n := cfg.n;
    WindowBounds(cfg, |rs|, |ks|, |rsIndex|, |ksIndex|, sameIndex, s);
    var start, rsEnd, ksEnd := s * n, (s + cfg.L) * n, (s + 1) * n;
    beta := SpanTask(n, rs, rsIndex, ks, ksIndex, sameIndex, rsIdx, ksIdx, start, rsEnd, ksEnd);
    assert WindowBeta(cfg, rs, rsIndex, ks, ksIndex, sameIndex, s) == SpanBeta(n, rs, rsIndex, ks, ksIndex, sameIndex, start, rsEnd, ksEnd);
  }

  /** The beta loop on the slices `start .. rsEnd` and `start .. ksEnd` of
      the series and of the shifted index series. */
  method SpanTask(n: nat, rs: seq<real>, rsIndex: seq<real>, ks: seq<Estimate>, ksIndex: seq<Estimate>, sameIndex: nat,
                  rsIdx: seq<real>, ksIdx: seq<Estimate>, start: nat, rsEnd: nat, ksEnd: nat)
    returns (beta: Estimate)
    requires n > 0 && start <= ksEnd <= rsEnd && ksEnd - start == n
    requires rsEnd <= |rs| && sameIndex + rsEnd <= |rsIndex|
    requires ksEnd <= |ks| && sameIndex + ksEnd <= |ksIndex|
    requires rsIdx == rsIndex[sameIndex..] && ksIdx == ksIndex[sameIndex..]
    ensures beta == SpanBeta(n, rs, rsIndex, ks, ksIndex, sameIndex, start, rsEnd, ksEnd)
  {
    Shifted(rsIndex, sameIndex, start, rsEnd);
    Shifted(ksIndex, sameIndex, start, ksEnd);
    beta := Beta.ContinuousBeta(n, rs[start..rsEnd], rsIdx[start..rsEnd], ks[start..ksEnd], ksIdx[start..ksEnd]);
  }

  /** Slicing a series shifted by `off` is slicing the series `off` later. */
  lemma Shifted<T>(xs: seq<T>, off: nat, a: nat, b: nat)
    requires off + b <= |xs| && a <= b
    ensures xs[off..][a..b] == xs[off + a .. off + b]
  {
  }

  /** Position of the first `x` in `xs`, or `|xs|` when there is none. */
  function Position(xs: seq<string>, x: string): (i: nat)
    ensures i <= |xs|
  {
    if |xs| == 0 then 0
    else if xs[0] == x then 0
    else 1 + Position(xs[1..], x)
  }

  /** `Position` finds the first occurrence, and reaches `|xs|` exactly when
      `x` does not occur. */
  lemma {:induction false} PositionIsFirst(xs: seq<string>, x: string)
    ensures Position(xs, x) < |xs| <==> x in xs
    ensures Position(xs, x) < |xs| ==> xs[Position(xs, x)] == x
    ensures forall j :: 0 <= j < Position(xs, x) ==> xs[j] != x
    decreases |xs|
  {
    if |xs| > 0 && xs[0] != x {
      PositionIsFirst(xs[1..], x);
      assert xs == [xs[0]] + xs[1..];
      forall j | 0 <= j < Position(xs, x)
        ensures xs[j] != x
      {
        if j > 0 {
          assert xs[j] == xs[1..][j - 1];
        }
      }
    }
  }

  /** The alignment offset: the position of the asset's first date among the
      index dates, defaulting to 0 when the date is not there. */
  function SameIndex(indexDates: seq<string>, first: string): (sameIndex: nat)
    ensures first in indexDates ==> sameIndex < |indexDates| && indexDates[sameIndex] == first
    ensures first in indexDates ==> forall j :: 0 <= j < sameIndex ==> indexDates[j] != first
    ensures first !in indexDates ==> sameIndex == 0
  {
    PositionIsFirst(indexDates, first);
    var i := Position(indexDates, first);
    if i < |indexDates| then i else 0
  }

  /** The source's search: scan the index dates, stop at the first match. */
  method FirstMatch(indexDates: seq<string>, first: string) returns (sameIndex: nat)
    ensures sameIndex == SameIndex(indexDates, first)
    ensures first in indexDates ==> indexDates[sameIndex] == first
    ensures forall j :: 0 <= j < sameIndex ==> indexDates[j] != first
  {
    PositionIsFirst(indexDates, first);
    sameIndex := 0;
    var i := 0;
    while i < |indexDates|
      invariant i <= |indexDates|
      invariant forall j :: 0 <= j < i ==> indexDates[j] != first
      invariant sameIndex == 0
    {
      if indexDates[i] == first {
        sameIndex := i;
        break;
      }
      i := i + 1;
    }
    if i < |indexDates| {
      FirstMatchAt(indexDates, first, i);
    } else {
      assert first !in indexDates;
    }
  }

  /** A match at `i` with none before it is the position `SameIndex` names. */
  lemma FirstMatchAt(indexDates: seq<string>, first: string, i: nat)
    requires i < |indexDates| && indexDates[i] == first
    requires forall j :: 0 <= j < i ==> indexDates[j] != first
    ensures SameIndex(indexDates, first) == i
  {
    PositionIsFirst(indexDates, first);
  }

  /** The dates and closing prices of a series of bars. */
  function Dates(bars: seq<Bar>): (ds: seq<string>)
    ensures |ds| == |bars|
  {
    seq(|bars|, i requires 0 <= i < |bars| => bars[i].date)
  }

  function Closes(bars: seq<Bar>): (cs: seq<real>)
    ensures |cs| == |bars|
  {
    seq(|bars|, i requires 0 <= i < |bars| => bars[i].close)
  }

  /** The first and the last row of whole day `d` of a series. */
  function FirstOfDay<T>(n: nat, xs: seq<T>, d: nat): (x: T)
    requires n > 0 && d < |xs| / n
  {
    Grid.WholeDay(d, |xs|, n);
    Grid.MulLe(d, d + 1, n);
    xs[d * n]
  }

  function LastOfDay<T>(n: nat, xs: seq<T>, d: nat): (x: T)
    requires n > 0 && d < |xs| / n
  {
    Grid.WholeDay(d, |xs|, n);
    xs[(d + 1) * n - 1]
  }

  /** One row per whole day after the first `L` days: the day's first date
      and its last closing price. */
  method Resample(cfg: Config, dates: seq<string>, closes: seq<real>)
    returns (newDates: seq<string>, newCloses: seq<real>)
    requires cfg.Valid() && |dates| == |closes| >= cfg.L * cfg.n
    ensures |newDates| == |newCloses| == |dates| / cfg.n - cfg.L
    ensures forall i :: 0 <= i < |newDates| ==>
      cfg.L + i < |dates| / cfg.n
      && newDates[i] == FirstOfDay(cfg.n, dates, cfg.L + i)
      && newCloses[i] == LastOfDay(cfg.n, closes, cfg.L + i)
  {
    var n, skip := cfg.n, cfg.L * cfg.n;
    var ds, cs := dates[skip..], closes[skip..];
    Grid.DaysAfter(|dates|, cfg.L, n);
    newDates, newCloses := [], [];
    for i := 0 to |ds| / n
      invariant |newDates| == |newCloses| == i
      invariant forall j :: 0 <= j < i ==>
        cfg.L + j < |dates| / n
        && newDates[j] == FirstOfDay(n, dates, cfg.L + j)
        && newCloses[j] == LastOfDay(n, closes, cfg.L + j)
    {
      Grid.WholeDay(i, |ds|, n);
      Grid.MulLe(i, i + 1, n);
      ResampleRow(cfg, dates, closes, i);
      newDates := newDates + [ds[i * n]];
      newCloses := newCloses + [cs[(i + 1) * n - 1]];
    }
  }

  /** Row `i * n` of the series with its first `L` days dropped is the first
      row of day `L + i` of the whole series, and likewise for the last row. */
  lemma ResampleRow(cfg: Config, dates: seq<string>, closes: seq<real>, i: nat)
    requires cfg.Valid() && |dates| == |closes| >= cfg.L * cfg.n
    requires i < (|dates| - cfg.L * cfg.n) / cfg.n
    ensures cfg.L + i < |dates| / cfg.n
    ensures (i + 1) * cfg.n <= |dates| - cfg.L * cfg.n
    ensures dates[cfg.L * cfg.n..][i * cfg.n] == FirstOfDay(cfg.n, dates, cfg.L + i)
    ensures closes[cfg.L * cfg.n..][(i + 1) * cfg.n - 1] == LastOfDay(cfg.n, closes, cfg.L + i)
  {
    var n := cfg.n;
    Grid.DaysAfter(|dates|, cfg.L, n);
    Grid.WholeDay(i, |dates| - cfg.L * n, n);
    Grid.MulLe(i, i + 1, n);
    assert cfg.L * n + i * n == (cfg.L + i) * n;
    assert cfg.L * n + (i + 1) * n == (cfg.L + i + 1) * n;
  }

  /** The days of the dates and closes of a series of bars are the days of
      the bars. */
  lemma DaysOfBars(n: nat, bars: seq<Bar>, d: nat)
    requires n > 0 && d < |bars| / n
    ensures FirstOfDay(n, Dates(bars), d) == FirstOfDay(n, bars, d).date
    ensures LastOfDay(n, Closes(bars), d) == LastOfDay(n, bars, d).close
  {
    Grid.WholeDay(d, |bars|, n);
    Grid.MulLe(d, d + 1, n);
  }

  /** The thresholds of a series as a value: the entry of every written
      position, and 0 in the never-written tail. */
  function KsOf(cfg: Config, layout: Layout, rs: seq<real>): (ks: seq<Estimate>)
    requires cfg.Valid() && |rs| >= cfg.L * cfg.n
    ensures |ks| == Intervals(cfg, |rs|)
  {
    Coverage(cfg, |rs|);
    seq(Intervals(cfg, |rs|), p requires 0 <= p < Intervals(cfg, |rs|) =>
      if p < Written(cfg, |rs|) then ThresholdAtPos(cfg, layout, rs, p) else Defined(0.0))
  }

  /** The outcome of one asset: too little data (no more than `L` days of
      bars), an index series too short for the windows, or the report of
      one row per beta. */
  datatype Outcome =
    | InsufficientData
    | IndexOutOfRange
    | Report(dates: seq<string>, closes: seq<real>, betas: seq<Estimate>)

  /** The pipeline of one asset against an index whose dates, returns and
      thresholds are given. */
  method BetasForCode(cfg: Config, layout: Layout, bars: seq<Bar>, indexDates: seq<string>,
                      rsIndex: seq<real>, ksIndex: seq<Estimate>)
    returns (out: Outcome)
    requires cfg.Valid()
    ensures out.InsufficientData? <==> |bars| <= cfg.L * cfg.n
    ensures out.IndexOutOfRange? <==>
      |bars| > cfg.L * cfg.n
      && !IndexCovers(cfg, |bars|, Intervals(cfg, |bars|), |rsIndex|, |ksIndex|, SameIndex(indexDates, bars[0].date))
    ensures out.Report? ==>
      && |out.dates| == |out.closes| == |out.betas| == |bars| / cfg.n - cfg.L
      && (forall s :: 0 <= s < |out.betas| ==>
            cfg.L + s < |bars| / cfg.n
            && out.dates[s] == FirstOfDay(cfg.n, bars, cfg.L + s).date
            && out.closes[s] == LastOfDay(cfg.n, bars, cfg.L + s).close)
      && (var rs := Returns.Returns(cfg.math, bars);
          forall s :: 0 <= s < |out.betas| ==>
            out.betas[s] == WindowBeta(cfg, rs, rsIndex, KsOf(cfg, layout, rs), ksIndex, SameIndex(indexDates, bars[0].date), s))
  {
    if |bars| <= cfg.L * cfg.n {
      return InsufficientData;
    }
    var rs := GetRs(cfg.math, bars);
    assert rs == Returns.Returns(cfg.math, bars);
    var ks := GetKs(cfg, layout, rs);
    assert ks == KsOf(cfg, layout, rs);
    var dates := Dates(bars);
    var sameIndex := FirstMatch(indexDates, dates[0]);
    var newDates, newCloses := Resample(cfg, dates, Closes(bars));
    forall s | 0 <= s < |newDates|
      ensures cfg.L + s < |bars| / cfg.n
      ensures newDates[s] == FirstOfDay(cfg.n, bars, cfg.L + s).date
      ensures newCloses[s] == LastOfDay(cfg.n, bars, cfg.L + s).close
    {
      DaysOfBars(cfg.n, bars, cfg.L + s);
    }
    if !IndexCovers(cfg, |rs|, |ks|, |rsIndex|, |ksIndex|, sameIndex) {
      return IndexOutOfRange;
    }
    var betas := ContinuousBetas(cfg, rs, rsIndex, ks, ksIndex, sameIndex);
    out := Report(newDates, newCloses, betas);
  }

  /** Window `s` reads the thresholds of window start `s` itself: entry
      `tau` of its threshold slice is the threshold of window `s`, slot
      `tau`. */
  lemma WindowReadsOwnThresholds(cfg: Config, layout: Layout, rs: seq<real>, s: nat, tau: nat)
    requires cfg.Valid() && |rs| >= cfg.L * cfg.n
    requires s < WindowCount(cfg, |rs|) && tau < cfg.n
    ensures (s + 1) * cfg.n <= |KsOf(cfg, layout, rs)|
    ensures s * cfg.n <= (s + 1) * cfg.n
    ensures KsOf(cfg, layout, rs)[s * cfg.n .. (s + 1) * cfg.n][tau] == ThresholdAt(cfg, layout, rs, s, tau)
  {
    var n := cfg.n;
    DayEnd(cfg, |rs|, s);
    ThresholdAtSlot(cfg, layout, rs, s, tau);
    var p := s * n + tau;
    KsOfAt(cfg, layout, rs, p);
    SliceAt(KsOf(cfg, layout, rs), s * n, (s + 1) * n, tau);
  }

  /** Written position `p` of the thresholds holds the threshold that
      belongs there. */
  lemma KsOfAt(cfg: Config, layout: Layout, rs: seq<real>, p: nat)
    requires cfg.Valid() && |rs| >= cfg.L * cfg.n && p < Written(cfg, |rs|)
    ensures p < |KsOf(cfg, layout, rs)|
    ensures KsOf(cfg, layout, rs)[p] == ThresholdAtPos(cfg, layout, rs, p)
  {
    Coverage(cfg, |rs|);
  }

  /** The first day of window `s` lies inside the thresholds. */
  lemma DayEnd(cfg: Config, len: nat, s: nat)
    requires cfg.Valid() && len >= cfg.L * cfg.n && s < WindowCount(cfg, len)
    ensures 0 <= s * cfg.n
    ensures s * cfg.n + cfg.n == (s + 1) * cfg.n <= Intervals(cfg, len)
  {
    Grid.MulLe(0, s, cfg.n);
    Coverage(cfg, len);
    Grid.MulLe(s + 1, WindowCount(cfg, len), cfg.n);
  }

  lemma SliceAt<T>(xs: seq<T>, a: nat, b: nat, i: nat)
    requires a <= b <= |xs| && i < b - a
    ensures xs[a..b][i] == xs[a + i]
  {
  }

  /** Against itself, with every threshold in (0, 2], each defined beta of
      the series lies in [0, 1]. */
  lemma SelfBetasAtMostOne(cfg: Config, rs: seq<real>, ks: seq<Estimate>, s: nat)
    requires cfg.Valid() && |rs| >= cfg.L * cfg.n
    requires IndexCovers(cfg, |rs|, |ks|, |rs|, |ks|, 0)
    requires forall p :: 0 <= p < |ks| ==> ks[p].Defined? && 0.0 < ks[p].value <= 2.0
    requires s < WindowCount(cfg, |rs|)
    ensures WindowBeta(cfg, rs, rs, ks, ks, 0, s).Defined? ==> 0.0 <= WindowBeta(cfg, rs, rs, ks, ks, 0, s).value <= 1.0
  {
    var n := cfg.n;
    WindowBounds(cfg, |rs|, |ks|, |rs|, |ks|, 0, s);
    var start, rsEnd, ksEnd := s * n, (s + cfg.L) * n, (s + 1) * n;
    var r, k := rs[start..rsEnd], ks[start..ksEnd];
    assert SpanBeta(n, rs, rs, ks, ks, 0, start, rsEnd, ksEnd) == Beta.BetaOf(n, r, r, k, k);
    if Beta.Divisor(n, r, r, k) != 0.0 {
      PositiveSlice(ks, start, ksEnd);
      Beta.SelfBetaAtMostOne(n, r, k);
    }
  }

  /** A slice of thresholds that all lie in (0, 2] lies in (0, 2] too. */
  lemma PositiveSlice(ks: seq<Estimate>, lo: nat, hi: nat)
    requires lo <= hi <= |ks|
    requires forall p :: 0 <= p < |ks| ==> ks[p].Defined? && 0.0 < ks[p].value <= 2.0
    ensures forall i :: 0 <= i < hi - lo ==> ks[lo..hi][i].Defined? && 0.0 < ks[lo..hi][i].value <= 2.0
  {
    forall i | 0 <= i < hi - lo
      ensures ks[lo..hi][i].Defined? && 0.0 < ks[lo..hi][i].value <= 2.0
    {
      assert ks[lo..hi][i] == ks[lo + i];
    }
  }
}
