/** Number helpers shared by the models: `flt(x, precision)` as decimal
    rounding of a real (amounts are exact reals here, not floats), and the
    floor-based `%` of Python on real operands. */
module Rounding {

  /** Half a unit in the last of `p` decimal places: 0.5, 0.05, 0.005, ... */
  function HalfUnit(p: nat): (h: real)
    ensures h > 0.0
  {
    if p == 0 then 0.5 else HalfUnit(p - 1) / 10.0
  }

  /** The integer nearest to `s`, halves going to the even neighbour. */
  function RoundHalfEven(s: real): (n: int)
    ensures -0.5 <= n as real - s <= 0.5
    ensures s >= 0.0 ==> n >= 0
    ensures s <= 0.0 ==> n <= 0
  {
    var f := s.Floor;
    var frac := s - f as real;
    if frac < 0.5 then f else if frac > 0.5 then f + 1 else if f % 2 == 0 then f else f + 1
  }

  /** `flt(x, precision)`: `x` rounded to `precision` decimal places, halves
      going to the even neighbour; rounding `10 x` to one place fewer and
      dividing by ten is the same rounding. */
  function Flt(x: real, precision: nat): (r: real)
    ensures -HalfUnit(precision) <= r - x <= HalfUnit(precision)
    decreases precision
  {
    if precision == 0 then RoundHalfEven(x) as real
    else Flt(10.0 * x, precision - 1) / 10.0
  }

  /** Rounding never turns a non-positive amount into a positive one. */
  lemma {:induction false} FltPositive(x: real, precision: nat)
    requires Flt(x, precision) > 0.0
    ensures x > 0.0
    decreases precision
  {
    if precision > 0 {
      FltPositive(10.0 * x, precision - 1);
    }
  }

  /** Rounding keeps a non-negative amount non-negative. */
  lemma {:induction false} FltNonNegative(x: real, precision: nat)
    requires x >= 0.0
    ensures Flt(x, precision) >= 0.0
    decreases precision
  {
    if precision > 0 {
      FltNonNegative(10.0 * x, precision - 1);
    }
  }

  /** Python's `a % b` on floats: `a` minus `b` times the floor of `a / b`,
      so the remainder takes the sign of `b`. */
  function RealMod(a: real, b: real): real
    requires b != 0.0
  {
    a - b * ((a / b).Floor as real)
  }

  /** For whole operands the real remainder is the integer one. */
  lemma {:induction false} RealModOfIntegers(a: int, b: int)
    requires a >= 0 && b > 0
    ensures RealMod(a as real, b as real) == (a % b) as real
  {
    var q, r := a / b, a % b;
    assert a == b * q + r;
    assert (a as real) / (b as real) == q as real + (r as real) / (b as real);
    assert 0.0 <= (r as real) / (b as real) < 1.0;
    assert ((a as real) / (b as real)).Floor == q;
  }
}
