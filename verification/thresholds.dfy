/** ThresholdCalculator, with the table layout it shares with the
    time-of-day stage: for every window start `s` (a day with `L` whole days
    after it) and slot `tau`, the entry at position `s * n + tau` of a table
    of `len(rs) - L * n` entries. */
module Thresholds {
  import opened Numerics
  import Grid
  import opened Variation
  import opened TimeOfDay

  /** Number of window starts, `days - L`; also the number of betas. */
  function WindowCount(cfg: Config, len: nat): (w: int)
    requires cfg.n > 0
  {
    len / cfg.n - cfg.L
  }

  /** Number of table positions the stages write, one per window start
      and slot. */
  function Written(cfg: Config, len: nat): (count: int)
    requires cfg.n > 0
  {
    WindowCount(cfg, len) * cfg.n
  }

  /** Size of the TOD and threshold tables, `len(rs) - L * n`. */
  function Intervals(cfg: Config, len: nat): (size: int)
  {
    len - cfg.L * cfg.n
  }

  /** Position of the first return of window `s` in the series. */
  function WindowStart(layout: Layout, n: nat, s: nat): (start: nat)
  {
    match layout
    case AsWritten => s
    case Corrected => s * n
  }

  /** Per-day statistics with one entry per whole day of the series. */
  predicate StatsFit(cfg: Config, rs: seq<real>, bvs: seq<real>, rvs: seq<real>)
    requires cfg.n > 0
  {
    |bvs| == |rs| / cfg.n && |rvs| == |rs| / cfg.n
  }

  /** Window `s` fits in the series, and the statistics from day `s` on
      reach every day it spans, so every lookup `BVs[s + i / n]` made while
      scanning it is in bounds. */
  lemma WindowFits(cfg: Config, layout: Layout, len: nat, s: nat)
    requires cfg.Valid() && len >= cfg.L * cfg.n && s < WindowCount(cfg, len)
    ensures WindowStart(layout, cfg.n, s) + cfg.L * cfg.n <= len
    ensures cfg.L * cfg.n <= cfg.n * (len / cfg.n - s)
  {
    var n, days, L := cfg.n, len / cfg.n, cfg.L;
    assert len == days * n + len % n;
    Grid.MulLe(1, n, s);
    assert s <= s * n;
    Grid.MulLe(s + L, days, n);
    assert (s + L) * n == s * n + L * n;
    Grid.MulLe(L, days - s, n);
    assert (days - s) * n == n * (days - s);
  }

  /** The L-day window of returns that the TOD of window start `s` scans. */
  function Window(cfg: Config, layout: Layout, rs: seq<real>, s: nat): (w: seq<real>)
    requires cfg.Valid() && |rs| >= cfg.L * cfg.n && s < WindowCount(cfg, |rs|)
    ensures |w| == cfg.L * cfg.n
  {
    WindowFits(cfg, layout, |rs|, s);
    var start := WindowStart(layout, cfg.n, s);
    rs[start .. start + cfg.L * cfg.n]
  }

  /** TOD of window start `s`, slot `tau`, with the statistics from day `s` on. */
  function TodAt(cfg: Config, layout: Layout, rs: seq<real>, bvs: seq<real>, rvs: seq<real>, s: nat, tau: nat): (tod: Estimate)
    requires cfg.Valid() && |rs| >= cfg.L * cfg.n && StatsFit(cfg, rs, bvs, rvs)
    requires s < WindowCount(cfg, |rs|)
  {
    WindowFits(cfg, layout, |rs|, s);
    Tod(cfg, layout, Window(cfg, layout, rs, s), tau, bvs[s..], rvs[s..])
  }

  /** The threshold limitK * sqrt(min(BV, RV) * TOD); a NaN TOD gives a NaN
      threshold. */
  function Combine(cfg: Config, bv: real, rv: real, tod: Estimate): (k: Estimate)
    ensures tod.Undefined? ==> k.Undefined?
    ensures cfg.Valid() && bv >= 0.0 && rv >= 0.0 && tod.Defined? && tod.value >= 0.0
        ==> k.Defined? && k.value >= 0.0
  {
    match tod
    case Undefined => Undefined
    case Defined(t) =>
      var k := cfg.limitK * cfg.math.Sqrt(Min(bv, rv) * t);
      assert cfg.Valid() && bv >= 0.0 && rv >= 0.0 && t >= 0.0 ==> Min(bv, rv) * t >= 0.0;
      Defined(k)
  }

  /** The threshold of window start `s`, slot `tau`: the window-start day's
      own BV and RV, and the TOD of that window and slot. */
  function ThresholdAt(cfg: Config, layout: Layout, rs: seq<real>, s: nat, tau: nat): (k: Estimate)
    requires cfg.Valid() && |rs| >= cfg.L * cfg.n && s < WindowCount(cfg, |rs|)
    ensures k.Undefined? <==> TodAt(cfg, layout, rs, DailyBVs(cfg.math, cfg.n, rs), DailyRVs(cfg.n, rs), s, tau).Undefined?
  {
    var bvs, rvs := DailyBVs(cfg.math, cfg.n, rs), DailyRVs(cfg.n, rs);
    Combine(cfg, bvs[s], rvs[s], TodAt(cfg, layout, rs, bvs, rvs, s, tau))
  }

  /** Every threshold is NaN or non-negative. */
  lemma ThresholdNonneg(cfg: Config, layout: Layout, rs: seq<real>, s: nat, tau: nat)
    requires cfg.Valid() && |rs| >= cfg.L * cfg.n && s < WindowCount(cfg, |rs|)
    ensures ThresholdAt(cfg, layout, rs, s, tau).Defined? ==> ThresholdAt(cfg, layout, rs, s, tau).value >= 0.0
  {
    var bvs, rvs := DailyBVs(cfg.math, cfg.n, rs), DailyRVs(cfg.n, rs);
    BVNonneg(cfg.math, DayOf(cfg.n, rs, s));
    RVNonneg(DayOf(cfg.n, rs, s));
    WindowFits(cfg, layout, |rs|, s);
  }

  /** The write positions `s * n + tau` of the table stages: each lies in
      the table, before `WindowCount * n`, decodes back to its own window
      start and slot, and two of them coincide only for the same pair. */
  lemma WritePositions(cfg: Config, len: nat, s1: nat, t1: nat, s2: nat, t2: nat)
    requires cfg.n > 0 && len >= cfg.L * cfg.n
    requires s1 < WindowCount(cfg, len) && t1 < cfg.n
    requires s2 < WindowCount(cfg, len) && t2 < cfg.n
    ensures s1 * cfg.n + t1 < Written(cfg, len) <= Intervals(cfg, len)
    ensures (s1 * cfg.n + t1) / cfg.n == s1 && (s1 * cfg.n + t1) % cfg.n == t1
    ensures s1 * cfg.n + t1 == s2 * cfg.n + t2 <==> s1 == s2 && t1 == t2
  {
    var n := cfg.n;
    Grid.Decode(s1, t1, n);
    Grid.Decode(s2, t2, n);
    Grid.MulLe(s1 + 1, WindowCount(cfg, len), n);
    Coverage(cfg, len);
  }

  /** The write positions fill the table exactly when `n` divides the
      series length; otherwise the last `len % n` entries are never written
      and keep their initial 0. */
  lemma Coverage(cfg: Config, len: nat)
    requires cfg.n > 0 && len >= cfg.L * cfg.n
    ensures WindowCount(cfg, len) >= 0
    ensures Intervals(cfg, len) - Written(cfg, len) == len % cfg.n
    ensures Written(cfg, len) == Intervals(cfg, len) <==> len % cfg.n == 0
  {
    var n := cfg.n;
    Grid.DaysAfter(len, cfg.L, n);
    assert (len / n - cfg.L) * n == (len / n) * n - cfg.L * n;
  }

  /** A written position `p` belongs to window start `p / n`, which is a
      valid window start. */
  lemma SlotInTable(cfg: Config, len: nat, p: nat)
    requires cfg.n > 0 && len >= cfg.L * cfg.n && p < Written(cfg, len)
    ensures p / cfg.n < WindowCount(cfg, len)
    ensures p < Intervals(cfg, len)
  {
    Coverage(cfg, len);
    Grid.DayInRange(p, Written(cfg, len), cfg.n, WindowCount(cfg, len));
  }

  /** The TOD that belongs at written position `p`: window start `p / n`,
      slot `p % n`. */
  function TodAtPos(cfg: Config, layout: Layout, rs: seq<real>, bvs: seq<real>, rvs: seq<real>, p: nat): (tod: Estimate)
    requires cfg.Valid() && |rs| >= cfg.L * cfg.n && StatsFit(cfg, rs, bvs, rvs)
    requires p < Written(cfg, |rs|)
  {
    SlotInTable(cfg, |rs|, p);
    TodAt(cfg, layout, rs, bvs, rvs, p / cfg.n, p % cfg.n)
  }

  /** The threshold that belongs at written position `p` of a series' table. */
  function ThresholdAtPos(cfg: Config, layout: Layout, rs: seq<real>, p: nat): (k: Estimate)
    requires cfg.Valid() && |rs| >= cfg.L * cfg.n && p < Written(cfg, |rs|)
  {
    SlotInTable(cfg, |rs|, p);
    ThresholdAt(cfg, layout, rs, p / cfg.n, p % cfg.n)
  }

  /** Stage two: the TOD of every window start `s` and slot `tau`, written
      at `s * n + tau` of a zero-filled table. The source's nested loops over
      `s` and `tau` visit these positions in increasing order, one after the
      other (see `WritePositions`), so a single loop over the position that
      appends each entry, followed by the never-written zero tail, builds the
      same table. */
  method TodTable(cfg: Config, layout: Layout, rs: seq<real>, bvs: seq<real>, rvs: seq<real>)
    returns (tods: seq<Estimate>)
    requires cfg.Valid() && |rs| >= cfg.L * cfg.n && StatsFit(cfg, rs, bvs, rvs)
    ensures |tods| == Intervals(cfg, |rs|)
    ensures forall p :: 0 <= p < Written(cfg, |rs|) ==> tods[p] == TodAtPos(cfg, layout, rs, bvs, rvs, p)
    ensures forall p :: 0 <= p < |tods| && p >= Written(cfg, |rs|) ==> tods[p] == Defined(0.0)
  {
    var written := Written(cfg, |rs|);
    Coverage(cfg, |rs|);
    tods := [];
    for p := 0 to written
      invariant |tods| == p
      invariant forall q :: 0 <= q < p ==> tods[q] == TodAtPos(cfg, layout, rs, bvs, rvs, q)
    {
      var tod := TodEntry(cfg, layout, rs, bvs, rvs, p);
      tods := tods + [tod];
    }
    tods := tods + seq(|rs| % cfg.n, _ => Defined(0.0));
  }

  /** The TOD written at position `p`: window start `p / n`, slot `p % n`,
      computed by the source's scan of that window. */
  method TodEntry(cfg: Config, layout: Layout, rs: seq<real>, bvs: seq<real>, rvs: seq<real>, p: nat)
    returns (tod: Estimate)
    requires cfg.Valid() && |rs| >= cfg.L * cfg.n && StatsFit(cfg, rs, bvs, rvs)
    requires p < Written(cfg, |rs|)
    ensures tod == TodAtPos(cfg, layout, rs, bvs, rvs, p)
  {
    var n := cfg.n;
    var s, tau := p / n, p % n;
    SlotInTable(cfg, |rs|, p);
    WindowFits(cfg, layout, |rs|, s);
    var window, bvsFrom, rvsFrom := Window(cfg, layout, rs, s), bvs[s..], rvs[s..];
    assert |window| == cfg.L * n <= n * |bvsFrom|;
    assert |rvsFrom| == |bvsFrom|;
    tod := TodAtTau(cfg, layout, window, tau, bvsFrom, rvsFrom);
    assert TodAtPos(cfg, layout, rs, bvs, rvs, p) == TodAt(cfg, layout, rs, bvs, rvs, s, tau);
  }

  /** The threshold written at position `p` from the stage-one statistics
      of day `p / n` and the TOD table. */
  function CombineAt(cfg: Config, len: nat, bvs: seq<real>, rvs: seq<real>, tods: seq<Estimate>, p: nat): (k: Estimate)
    requires cfg.n > 0 && len >= cfg.L * cfg.n
    requires |bvs| == |rvs| == len / cfg.n && |tods| == Intervals(cfg, len)
    requires p < Written(cfg, len)
  {
    SlotInTable(cfg, len, p);
    Combine(cfg, bvs[p / cfg.n], rvs[p / cfg.n], tods[p])
  }

  /** Stage three: the threshold of every window start and slot, from the
      window-start day's BV and RV and the TOD at the same position. */
  method ThresholdTable(cfg: Config, len: nat, bvs: seq<real>, rvs: seq<real>, tods: seq<Estimate>)
    returns (ks: seq<Estimate>)
    requires cfg.n > 0 && len >= cfg.L * cfg.n
    requires |bvs| == |rvs| == len / cfg.n && |tods| == Intervals(cfg, len)
    ensures |ks| == |tods|
    ensures forall p :: 0 <= p < Written(cfg, len) ==> ks[p] == CombineAt(cfg, len, bvs, rvs, tods, p)
    ensures forall p :: 0 <= p < |ks| && p >= Written(cfg, len) ==> ks[p] == Defined(0.0)
  {
    var written := Written(cfg, len);
    Coverage(cfg, len);
    ks := [];
    for p := 0 to written
      invariant |ks| == p
      invariant forall q :: 0 <= q < p ==> ks[q] == CombineAt(cfg, len, bvs, rvs, tods, q)
    {
      ks := ks + [CombineAt(cfg, len, bvs, rvs, tods, p)];
    }
    ks := ks + seq(len % cfg.n, _ => Defined(0.0));
  }

  /** The thresholds of a return series, stage by stage as the source
      computes them: daily BV and RV, then the TOD table, then the
      thresholds. Positions past the last whole window keep 0. */
  method GetKs(cfg: Config, layout: Layout, rs: seq<real>) returns (ks: seq<Estimate>)
    requires cfg.Valid() && |rs| >= cfg.L * cfg.n
    ensures |ks| == Intervals(cfg, |rs|)
    ensures forall p :: 0 <= p < Written(cfg, |rs|) ==> ks[p] == ThresholdAtPos(cfg, layout, rs, p)
    ensures forall p :: 0 <= p < |ks| && p >= Written(cfg, |rs|) ==> ks[p] == Defined(0.0)
    ensures forall p :: 0 <= p < |ks| && ks[p].Defined? ==> ks[p].value >= 0.0
  {
    var bvs, rvs := DailyStats(cfg.math, cfg.n, rs);
    assert bvs == DailyBVs(cfg.math, cfg.n, rs);
    assert rvs == DailyRVs(cfg.n, rs);
    var tods := TodTable(cfg, layout, rs, bvs, rvs);
    ks := ThresholdTable(cfg, |rs|, bvs, rvs, tods);
    forall p | 0 <= p < Written(cfg, |rs|)
      ensures ks[p] == ThresholdAtPos(cfg, layout, rs, p)
    {
      StagesCompose(cfg, layout, rs, tods, p);
    }
    TableNonneg(cfg, layout, rs, ks);
  }

  /** A table holding the thresholds at the written positions and 0 after
      them has no negative entry. */
  lemma TableNonneg(cfg: Config, layout: Layout, rs: seq<real>, ks: seq<Estimate>)
    requires cfg.Valid() && |rs| >= cfg.L * cfg.n
    requires |ks| == Intervals(cfg, |rs|)
    requires forall p :: 0 <= p < Written(cfg, |rs|) ==> ks[p] == ThresholdAtPos(cfg, layout, rs, p)
    requires forall p :: 0 <= p < |ks| && p >= Written(cfg, |rs|) ==> ks[p] == Defined(0.0)
    ensures forall p :: 0 <= p < |ks| && ks[p].Defined? ==> ks[p].value >= 0.0
  {
    forall p | 0 <= p < |ks| && ks[p].Defined?
      ensures ks[p].value >= 0.0
    {
      if p < Written(cfg, |rs|) {
        PosNonneg(cfg, layout, rs, p);
      }
    }
  }

  /** The threshold written at position `p` is NaN or non-negative. */
  lemma PosNonneg(cfg: Config, layout: Layout, rs: seq<real>, p: nat)
    requires cfg.Valid() && |rs| >= cfg.L * cfg.n && p < Written(cfg, |rs|)
    ensures ThresholdAtPos(cfg, layout, rs, p).Defined? ==> ThresholdAtPos(cfg, layout, rs, p).value >= 0.0
  {
    SlotInTable(cfg, |rs|, p);
    ThresholdNonneg(cfg, layout, rs, p / cfg.n, p % cfg.n);
  }

  /** Stage three applied to stage two's entry at `p`, with stage one's
      statistics, gives the threshold that belongs at `p`. */
  lemma StagesCompose(cfg: Config, layout: Layout, rs: seq<real>, tods: seq<Estimate>, p: nat)
    requires cfg.Valid() && |rs| >= cfg.L * cfg.n && p < Written(cfg, |rs|)
    requires |tods| == Intervals(cfg, |rs|)
    requires tods[p] == TodAtPos(cfg, layout, rs, DailyBVs(cfg.math, cfg.n, rs), DailyRVs(cfg.n, rs), p)
    ensures CombineAt(cfg, |rs|, DailyBVs(cfg.math, cfg.n, rs), DailyRVs(cfg.n, rs), tods, p)
         == ThresholdAtPos(cfg, layout, rs, p)
  {
  }

  /** The table entry of window start `s`, slot `tau` is the threshold of
      that window and slot. */
  lemma ThresholdAtSlot(cfg: Config, layout: Layout, rs: seq<real>, s: nat, tau: nat)
    requires cfg.Valid() && |rs| >= cfg.L * cfg.n
    requires s < WindowCount(cfg, |rs|) && tau < cfg.n
    ensures s * cfg.n + tau < Written(cfg, |rs|)
    ensures ThresholdAtPos(cfg, layout, rs, s * cfg.n + tau) == ThresholdAt(cfg, layout, rs, s, tau)
  {
    WritePositions(cfg, |rs|, s, tau, s, tau);
  }

  /** With the corrected layout, window position `i` of window start `s`
      holds slot `i % n` of day `s + i / n`, and the limit that truncates it
      is that same day's limit. */
  lemma CorrectedWindowAligned(cfg: Config, rs: seq<real>, bvs: seq<real>, rvs: seq<real>, s: nat, i: nat)
    requires cfg.Valid() && |rs| >= cfg.L * cfg.n && StatsFit(cfg, rs, bvs, rvs)
    requires s < WindowCount(cfg, |rs|) && i < cfg.L * cfg.n
    ensures (s + i / cfg.n) * cfg.n + i % cfg.n < |rs|
    ensures Window(cfg, Corrected, rs, s)[i] == rs[(s + i / cfg.n) * cfg.n + i % cfg.n]
    ensures Covers(cfg.n, Window(cfg, Corrected, rs, s), bvs[s..], rvs[s..])
    ensures s + i / cfg.n < |bvs|
    ensures LimitAt(cfg, Window(cfg, Corrected, rs, s), bvs[s..], rvs[s..], i)
         == DayLimit(cfg, bvs, rvs, s + i / cfg.n)
  {
    var n := cfg.n;
    WindowFits(cfg, Corrected, |rs|, s);
    WindowPosition(s, i, n);
    LimitFrom(cfg, Window(cfg, Corrected, rs, s), bvs, rvs, s, i);
  }

  /** Position `i` of the window that starts at day `s` is slot `i % n` of
      day `s + i / n`. */
  lemma WindowPosition(s: nat, i: nat, n: nat)
    requires n > 0
    ensures (s + i / n) * n + i % n == s * n + i
  {
    var q, r := i / n, i % n;
    assert i == q * n + r;
    assert (s + q) * n == s * n + q * n;
  }

  /** As written, the first return scanned for window start `s >= 1` (with
      `n >= 2`) is `rs[s]`, slot `s % n` of day `s / n`, an earlier day than
      `s`; yet the limit that truncates it is day `s`'s. */
  lemma AsWrittenWindowMisaligned(cfg: Config, rs: seq<real>, bvs: seq<real>, rvs: seq<real>, s: nat)
    requires cfg.Valid() && |rs| >= cfg.L * cfg.n && StatsFit(cfg, rs, bvs, rvs)
    requires s < WindowCount(cfg, |rs|) && cfg.n >= 2 && s >= 1
    ensures s < |rs| && Window(cfg, AsWritten, rs, s)[0] == rs[s]
    ensures s / cfg.n < s < |bvs|
    ensures Covers(cfg.n, Window(cfg, AsWritten, rs, s), bvs[s..], rvs[s..])
    ensures LimitAt(cfg, Window(cfg, AsWritten, rs, s), bvs[s..], rvs[s..], 0)
         == DayLimit(cfg, bvs, rvs, s)
  {
    WindowFits(cfg, AsWritten, |rs|, s);
    Grid.EarlierDay(s, cfg.n);
    LimitFrom(cfg, Window(cfg, AsWritten, rs, s), bvs, rvs, s, 0);
  }
}
