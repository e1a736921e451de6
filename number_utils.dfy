/**
 * `NumberUtils`: rounding an exact decimal (`BigDecimal`, here a `real`) to
 * an `Int`, failing rather than losing range.
 */
module NumberUtils {
  import opened KotlinInt
  import opened Outcomes

  /** `BigDecimal.toBigInteger()`: the fractional part dropped, so the value moves toward zero. */
  function Truncate(x: real): (t: int)
    ensures 0.0 <= x ==> t as real <= x < t as real + 1.0
    ensures x < 0.0 ==> t as real - 1.0 < x <= t as real
  {
    if x >= 0.0 then x.Floor else -((-x).Floor)
  }

  /** `BigInteger.intValueExact()`: the value as an `Int`, or ArithmeticException outside that range. */
  function IntValueExact(v: int): (r: Result<Int32>)
    ensures r.Ok? <==> InIntRange(v)
    ensures r.Ok? ==> r.value == v
    ensures r.Err? ==> r.error == ArithmeticOverflow
  {
    if InIntRange(v) then Ok(v) else Err(ArithmeticOverflow)
  }

  /**
   * `roundDownToIntExact`: truncate, step down once more for a negative
   * number that had a fractional part, and check that the original lies
   * in [result, result + 1). The result is the floor of x; it fails
   * exactly when that floor is not an `Int`.
   */
  function RoundDownToIntExact(x: real): (r: Result<Int32>)
    ensures r.Ok? <==> InIntRange(x.Floor)
    ensures r.Ok? ==> r.value == x.Floor
    ensures r.Err? ==> r.error == ArithmeticOverflow
  {
    var t := Truncate(x);
    if x == t as real then IntValueExact(t)
    else
      var down := if x < 0.0 then t - 1 else t;
      if down as real <= x < (down + 1) as real then IntValueExact(down)
      else Err(IllegalArgument)
  }

  /**
   * `roundToIntHalfUpExact`: truncate x + 0.5, step down once more when
   * that sum is negative and not whole, and check that the result moved
   * x by a change in (-0.5, 0.5]. The result is the floor of x + 0.5, so
   * halves go toward positive infinity; it fails exactly when that is not
   * an `Int`.
   */
  function RoundToIntHalfUpExact(x: real): (r: Result<Int32>)
    ensures r.Ok? <==> InIntRange((x + 0.5).Floor)
    ensures r.Ok? ==> r.value == (x + 0.5).Floor
    ensures r.Err? ==> r.error == ArithmeticOverflow
  {
    var plusHalf := x + 0.5;
    var t := Truncate(plusHalf);
    var rounded := if plusHalf < 0.0 && plusHalf != t as real then t - 1 else t;
    var change := rounded as real - x;
    if -0.5 < change <= 0.5 then IntValueExact(rounded)
    else Err(IllegalArgument)
  }

  /** Rounding down gives the integer r with r <= x < r + 1. */
  lemma RoundDownBrackets(x: real)
    ensures var r := RoundDownToIntExact(x);
      r.Ok? ==> r.value as real <= x < r.value as real + 1.0
  {
  }

  /** A whole number in `Int` range rounds down to itself, and one outside fails. */
  lemma RoundDownWhole(n: int)
    ensures RoundDownToIntExact(n as real) == if InIntRange(n) then Ok(n) else Err(ArithmeticOverflow)
  {
    assert (n as real).Floor == n;
  }

  /** Rounding half up moves x by a change in (-0.5, 0.5]. */
  lemma RoundHalfUpChange(x: real)
    ensures var r := RoundToIntHalfUpExact(x);
      r.Ok? ==> -0.5 < r.value as real - x <= 0.5
  {
  }

  /** A whole number rounds half up to itself, and the half above it to the next. */
  lemma RoundHalfUpWholeAndHalf(n: int)
    requires INT_MIN <= n < INT_MAX
    ensures RoundToIntHalfUpExact(n as real) == Ok(n)
    ensures RoundToIntHalfUpExact(n as real + 0.5) == Ok(n + 1)
  {
    assert (n as real + 0.5).Floor == n;
    assert (n as real + 0.5 + 0.5).Floor == n + 1;
  }

  /** The points of the rounding-down table. */
  lemma RoundDownTable()
    ensures RoundDownToIntExact(-81812663.000001) == Ok(-81812664)
    ensures RoundDownToIntExact(-2314713.999999999999) == Ok(-2314714)
    ensures RoundDownToIntExact(-200.0) == Ok(-200)
    ensures RoundDownToIntExact(-10.9) == Ok(-11)
    ensures RoundDownToIntExact(-4.51) == Ok(-5)
    ensures RoundDownToIntExact(-4.5) == Ok(-5)
    ensures RoundDownToIntExact(-4.49) == Ok(-5)
    ensures RoundDownToIntExact(-0.51) == Ok(-1)
    ensures RoundDownToIntExact(-0.5) == Ok(-1)
    ensures RoundDownToIntExact(-0.49) == Ok(-1)
    ensures RoundDownToIntExact(-0.0000000001) == Ok(-1)
    ensures RoundDownToIntExact(0.0) == Ok(0)
    ensures RoundDownToIntExact(0.000000001) == Ok(0)
    ensures RoundDownToIntExact(0.1) == Ok(0)
    ensures RoundDownToIntExact(0.49) == Ok(0)
    ensures RoundDownToIntExact(0.5) == Ok(0)
    ensures RoundDownToIntExact(0.51) == Ok(0)
    ensures RoundDownToIntExact(0.999) == Ok(0)
    ensures RoundDownToIntExact(10.3) == Ok(10)
    ensures RoundDownToIntExact(10.29381) == Ok(10)
    ensures RoundDownToIntExact(318718239.1238714192) == Ok(318718239)
    ensures RoundDownToIntExact(318718239.9238714192) == Ok(318718239)
  {
  }

  /** The points of the rounding-half-up table. */
  lemma RoundHalfUpTable()
    ensures RoundToIntHalfUpExact(-81812663.000001) == Ok(-81812663)
    ensures RoundToIntHalfUpExact(-2314713.999999999999) == Ok(-2314714)
    ensures RoundToIntHalfUpExact(-200.0) == Ok(-200)
    ensures RoundToIntHalfUpExact(-10.9) == Ok(-11)
    ensures RoundToIntHalfUpExact(-4.51) == Ok(-5)
    ensures RoundToIntHalfUpExact(-4.5) == Ok(-4)
    ensures RoundToIntHalfUpExact(-4.49) == Ok(-4)
    ensures RoundToIntHalfUpExact(-0.51) == Ok(-1)
    ensures RoundToIntHalfUpExact(-0.5) == Ok(0)
    ensures RoundToIntHalfUpExact(-0.49) == Ok(0)
    ensures RoundToIntHalfUpExact(-0.0000000001) == Ok(0)
    ensures RoundToIntHalfUpExact(0.0) == Ok(0)
    ensures RoundToIntHalfUpExact(0.000000001) == Ok(0)
    ensures RoundToIntHalfUpExact(0.1) == Ok(0)
    ensures RoundToIntHalfUpExact(0.49) == Ok(0)
    ensures RoundToIntHalfUpExact(0.5) == Ok(1)
    ensures RoundToIntHalfUpExact(0.51) == Ok(1)
    ensures RoundToIntHalfUpExact(10.3) == Ok(10)
    ensures RoundToIntHalfUpExact(10.29381) == Ok(10)
    ensures RoundToIntHalfUpExact(318718239.1238714192) == Ok(318718239)
    ensures RoundToIntHalfUpExact(318718239.9238714192) == Ok(318718240)
  {
  }

  /** The first value beyond `Int` range fails either way. */
  lemma RoundingOverflows()
    ensures RoundDownToIntExact(2147483648.0) == Err(ArithmeticOverflow)
    ensures RoundDownToIntExact(-2147483648.5) == Err(ArithmeticOverflow)
    ensures RoundToIntHalfUpExact(2147483647.5) == Err(ArithmeticOverflow)
    ensures RoundToIntHalfUpExact(-2147483648.5) == Ok(INT_MIN)
  {
  }
}
