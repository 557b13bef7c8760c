/**
 * JavaScript number values as the health screens use them. A finite number is
 * taken as an exact real: IEEE-754 rounding is not modelled, but the
 * non-finite values that a division by zero produces are.
 */
module JsValues {

  datatype Number = Finite(value: real) | PositiveInfinity | NegativeInfinity | NaN

  /** `x / y` for two finite operands. */
  function Divide(x: real, y: real): (q: Number)
    ensures q.Finite? <==> y != 0.0
    ensures q.Finite? ==> q.value * y == x
    ensures q.NaN? <==> x == 0.0 && y == 0.0
    ensures y == 0.0 && x > 0.0 ==> q.PositiveInfinity?
    ensures y == 0.0 && x < 0.0 ==> q.NegativeInfinity?
  {
    if y != 0.0 then Finite(x / y)
    else if x > 0.0 then PositiveInfinity
    else if x < 0.0 then NegativeInfinity
    else NaN
  }

  /** `n < t` for a number `n` and a finite constant `t`: every comparison with NaN is false. */
  predicate LessThan(n: Number, t: real)
    ensures LessThan(n, t) <==> n.NegativeInfinity? || (n.Finite? && n.value < t)
  {
    match n
    case Finite(v) => v < t
    case NegativeInfinity => true
    case PositiveInfinity => false
    case NaN => false
  }

  /** `r` is a whole number of tenths. */
  predicate IsTenths(r: real)
  {
    (10.0 * r).Floor as real == 10.0 * r
  }

  function Abs(x: real): real
  {
    if x < 0.0 then -x else x
  }

  /** Below this magnitude `toFixed` rounds; at or above it, it prints the number itself. */
  const FixedLimit: real := 1000000000000000000000.0

  /**
   * The value denoted by `x.toFixed(1)`: the nearest whole number of tenths,
   * a tie going away from zero (toFixed rounds the magnitude and puts the
   * sign back).
   */
  function RoundToTenth(x: real): (r: real)
    ensures Abs(r - x) <= 0.05
    ensures Abs(x) < FixedLimit ==> IsTenths(r)
    ensures Abs(x) >= FixedLimit ==> r == x
    ensures Abs(r - x) == 0.05 ==> Abs(r) > Abs(x)
    ensures x >= 0.0 ==> r >= 0.0
    ensures x <= 0.0 ==> r <= 0.0
  {
    if Abs(x) >= FixedLimit then x
    else if x < 0.0 then
      var m := RoundMagnitude(-x);
      NegatedTenths(m);
      -m
    else RoundMagnitude(x)
  }

  lemma NegatedTenths(r: real)
    requires IsTenths(r)
    ensures IsTenths(-r)
  {
    var k := (10.0 * r).Floor;
    assert 10.0 * -r == (-k) as real;
  }

  function RoundMagnitude(m: real): (r: real)
    requires m >= 0.0
    ensures r >= 0.0 && IsTenths(r)
    ensures -0.05 < r - m <= 0.05
  {
    var n := (10.0 * m + 0.5).Floor;
    assert (n as real / 10.0) * 10.0 == n as real;
    n as real / 10.0
  }

  /** The value of the string `n.toFixed(1)` when JavaScript reads it back as a number. */
  function ToFixed1(n: Number): (r: Number)
    ensures r.Finite? <==> n.Finite?
    ensures r.Finite? ==> Abs(r.value - n.value) <= 0.05
    ensures r.Finite? && Abs(n.value) < FixedLimit ==> IsTenths(r.value)
    ensures r.Finite? && Abs(n.value) >= FixedLimit ==> r == n
    ensures !r.Finite? ==> r == n
  {
    match n
    case Finite(v) => Finite(RoundToTenth(v))
    case _ => n
  }

  lemma RoundMagnitudeMonotone(x: real, y: real)
    requires 0.0 <= x <= y
    ensures RoundMagnitude(x) <= RoundMagnitude(y)
  {
    assert (10.0 * x + 0.5).Floor <= (10.0 * y + 0.5).Floor;
  }

  /** Rounding to tenths keeps the order of its arguments. */
  lemma RoundToTenthMonotone(x: real, y: real)
    requires x <= y
    ensures RoundToTenth(x) <= RoundToTenth(y)
  {
    if Abs(x) >= FixedLimit || Abs(y) >= FixedLimit {
    } else if 0.0 <= x {
      RoundMagnitudeMonotone(x, y);
    } else if y < 0.0 {
      RoundMagnitudeMonotone(-y, -x);
    }
  }
}
