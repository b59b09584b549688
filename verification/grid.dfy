/** The flat layout of an intraday series: day `d`, slot `t` of an `n`-slot
    day sits at position `d * n + t`. These are the index facts every stage
    needs; Dafny's `/` and `%` agree with Go's on the non-negative values
    used here. */
module Grid {

  lemma MulLe(a: int, b: int, n: int)
    requires a <= b && n >= 0
    ensures a * n <= b * n
  {
  }

  /** Position `d * n + t` decodes back to day `d`, slot `t`. */
  lemma Decode(d: int, t: int, n: int)
    requires n > 0 && d >= 0 && 0 <= t < n
    ensures (d * n + t) / n == d
    ensures (d * n + t) % n == t
  {
    var p := d * n + t;
    var q, r := p / n, p % n;
    assert p == q * n + r;
    if q > d {
      MulLe(d + 1, q, n);
      assert false;
    } else if q < d {
      MulLe(q + 1, d, n);
      assert false;
    }
  }

  /** Distinct (day, slot) pairs occupy distinct positions. */
  lemma Injective(d1: int, t1: int, d2: int, t2: int, n: int)
    requires n > 0 && d1 >= 0 && d2 >= 0 && 0 <= t1 < n && 0 <= t2 < n
    requires d1 * n + t1 == d2 * n + t2
    ensures d1 == d2 && t1 == t2
  {
    Decode(d1, t1, n);
    Decode(d2, t2, n);
  }

  /** A position inside a series that spans at most `days` days belongs to
      one of those days. */
  lemma DayInRange(i: int, len: int, n: int, days: int)
    requires n > 0 && 0 <= i < len && len <= n * days
    ensures i / n < days
  {
    if i / n >= days {
      MulLe(days, i / n, n);
      assert false;
    }
  }

  /** Within a day, the next position is the next slot of the same day. */
  lemma SameDay(i: int, n: int)
    requires n > 0 && i > 0 && i % n != 0
    ensures (i - 1) / n == i / n
  {
    var q, r := i / n, i % n;
    assert i == q * n + r;
    assert i - 1 == q * n + (r - 1);
    Decode(q, r - 1, n);
  }

  /** Day `d < len / n` lies wholly inside a series of length `len`. */
  lemma WholeDay(d: int, len: int, n: int)
    requires n > 0 && 0 <= d < len / n
    ensures (d + 1) * n <= len
  {
    MulLe(d + 1, len / n, n);
  }

  /** Counting whole days after the first `days0` whole days. */
  lemma DaysAfter(len: int, days0: int, n: int)
    requires n > 0 && days0 >= 0 && len >= days0 * n
    ensures (len - days0 * n) / n == len / n - days0
    ensures len / n >= days0
  {
    var q, r := len / n, len % n;
    if q < days0 {
      MulLe(q + 1, days0, n);
      assert false;
    }
    assert len - days0 * n == (q - days0) * n + r;
    Decode(q - days0, r, n);
  }

  /** With at least two slots a day, a positive position lies on an earlier
      day than the day numbered like the position itself. */
  lemma EarlierDay(s: int, n: int)
    requires n >= 2 && s >= 1
    ensures s / n < s
  {
    var q, r := s / n, s % n;
    assert s == q * n + r;
    MulLe(2, n, q);
    assert 2 * q <= q * n;
  }

  /** The slot `i % n` of any position of a series is a valid index of a
      per-slot table that holds a whole day of slots, or at least as many
      entries as the series. */
  lemma CyclicIndex(i: int, n: int, len: int, m: int)
    requires n > 0 && 0 <= i < len && (m >= n || m >= len)
    ensures 0 <= i % n < m
  {
    if i < n {
      Decode(0, i, n);
    }
  }
}
