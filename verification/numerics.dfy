/** The numeric vocabulary shared by every stage: the run parameters, the
    float64 values that can be NaN or infinite, and the library functions
    (square root, logarithm, pi) that the estimators call but that are not
    defined here. */
module Numerics {

  /** Stand-ins for the standard library's square root, natural logarithm
      and pi. Nothing is known of them beyond what `Valid` states. */
  datatype Math = Math(Sqrt: real -> real, Log: real -> real, Pi: real)
  {
    ghost predicate Valid()
    {
      && Pi > 0.0
      && forall x: real :: 0.0 <= x ==> Sqrt(x) >= 0.0
    }
  }

  /** The run parameters: `L` days per rolling window, `n` intraday slots
      per day, the truncation constant `limitK`, and the library above. */
  datatype Config = Config(L: nat, n: nat, limitK: real, math: Math)
  {
    ghost predicate Valid()
    {
      L > 0 && n > 0 && limitK > 0.0 && math.Valid()
    }
  }

  /** A float64 result: a real number, or the NaN or infinity that a
      division by zero leaves behind. Every ordered comparison with NaN is
      false, and NaN absorbs every arithmetic operation it enters. */
  datatype Estimate = Defined(value: real) | Undefined

  function Abs(x: real): (r: real)
    ensures r >= 0.0 && (r == x || r == -x)
  {
    if x < 0.0 then -x else x
  }

  function Min(a: real, b: real): (r: real)
    ensures r <= a && r <= b && (r == a || r == b)
  {
    if a < b then a else b
  }

  function Sq(x: real): (r: real)
    ensures r >= 0.0
  {
    x * x
  }

  /** `x <= num / den` with float64 semantics for `den == 0`: a positive
      numerator gives +Inf (every finite `x` passes), zero gives NaN and a
      negative one gives -Inf (no `x` passes). */
  predicate AtMostQuotient(x: real, num: real, den: real): (b: bool)
    ensures den > 0.0 ==> (b <==> x * den <= num)
    ensures den < 0.0 ==> (b <==> x * den >= num)
    ensures den == 0.0 ==> (b <==> num > 0.0)
  {
    if den != 0.0 then
      DivCancel(num, den);
      assert den > 0.0 ==> (x <= num / den <==> x * den <= num / den * den);
      assert den < 0.0 ==> (x <= num / den <==> x * den >= num / den * den);
      x <= num / den
    else num > 0.0
  }

  /** c * x / d: the part x of the whole d, scaled by c. */
  function Scaled(c: real, x: real, d: real): (r: real)
    requires d != 0.0
  {
    c * x / d
  }

  /** 0 <= c * a / b <= c for a share a of a positive whole b. */
  lemma Ratio(a: real, b: real, c: real)
    requires 0.0 <= a <= b && b > 0.0 && c >= 0.0
    ensures 0.0 <= c * a / b <= c
  {
    var q := a / b;
    assert a == q * b;
    assert 0.0 <= q <= 1.0;
    assert c * a / b == c * q;
  }

  /** A share of a positive whole, scaled by c >= 0, lies in [0, c]. */
  lemma ScaledRange(c: real, a: real, b: real)
    requires 0.0 <= a <= b && b > 0.0 && c >= 0.0
    ensures 0.0 <= Scaled(c, a, b) <= c
  {
    Ratio(a, b, c);
  }

  lemma DivMul(c: real, a: real, d: real)
    requires d != 0.0
    ensures Scaled(c, a, d) == c / d * a
  {
  }

  lemma ScaledWhole(c: real, d: real)
    requires d != 0.0
    ensures Scaled(c, d, d) == c
  {
  }

  lemma MulMono(f: real, a: real, b: real)
    requires f >= 0.0 && a <= b
    ensures f * a <= f * b
  {
  }

  lemma MulStrict(f: real, a: real, b: real)
    requires f > 0.0 && a < b
    ensures f * a < f * b
  {
  }

  lemma NonzeroSquare(x: real)
    ensures Sq(x) == 0.0 <==> x == 0.0
  {
    if x != 0.0 {
      var y := 1.0 / x;
      assert x * y == 1.0;
      assert (x * x) * (y * y) == 1.0;
    }
  }

  /** Dividing by a positive number keeps the sign. */
  lemma QuotientSign(x: real, d: real)
    requires d > 0.0
    ensures x / d >= 0.0 <==> x >= 0.0
  {
    DivCancel(x, d);
    if x / d < 0.0 {
      MulStrict(d, x / d, 0.0);
    } else {
      MulMono(d, 0.0, x / d);
    }
  }

  lemma DivCancel(c: real, d: real)
    requires d != 0.0
    ensures c / d * d == c
  {
  }
}
