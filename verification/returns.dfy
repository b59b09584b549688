/** ReturnExtractor: intraday log returns from a series of price bars. */
module Returns {
  import opened Numerics

  /** One intraday price bar: its timestamp, opening and closing price. */
  datatype Bar = Bar(date: string, open: real, close: real)

  /** The log return of one bar, from its opening to its closing price. */
  function LogReturn(math: Math, bar: Bar): (r: real)
  {
    math.Log(bar.close) - math.Log(bar.open)
  }

  /** The return series, one return per bar, built by appending as the
      source's loop does. Position `i` of the result belongs to bar `i`. */
  method GetRs(math: Math, bars: seq<Bar>) returns (rs: seq<real>)
    ensures |rs| == |bars|
    ensures forall i :: 0 <= i < |bars| ==> rs[i] == math.Log(bars[i].close) - math.Log(bars[i].open)
  {
    rs := [];
    for i := 0 to |bars|
      invariant |rs| == i
      invariant forall j :: 0 <= j < i ==> rs[j] == LogReturn(math, bars[j])
    {
      rs := rs + [LogReturn(math, bars[i])];
    }
  }

  /** The return series as a value, for stating properties of the pipeline. */
  function Returns(math: Math, bars: seq<Bar>): (rs: seq<real>)
    ensures |rs| == |bars|
  {
    seq(|bars|, i requires 0 <= i < |bars| => LogReturn(math, bars[i]))
  }
}
