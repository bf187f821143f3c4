/**
  Python's `round(x, n)`, on exact reals: the nearest multiple of 10^-n, ties
  to the even multiple. Binary floating-point representation error is not
  modelled.
*/
module Rounding {

  /** The integer nearest to `x`, halves going to the even neighbour. */
  function RoundHalfEven(x: real): (n: int)
    ensures x.Floor <= n <= x.Floor + 1
    ensures -0.5 <= n as real - x <= 0.5
    ensures x == x.Floor as real ==> n == x.Floor
    ensures x - x.Floor as real == 0.5 ==> n % 2 == 0
  {
    var f := x.Floor;
    var frac := x - f as real;
    if frac < 0.5 then f
    else if frac > 0.5 then f + 1
    else if f % 2 == 0 then f
    else f + 1
  }

  /** `round(x, 2)` */
  function Round2(x: real): (r: real)
    ensures -0.005 <= r - x <= 0.005
    ensures 0.0 <= x <= 100.0 ==> 0.0 <= r <= 100.0
    ensures x == 0.0 ==> r == 0.0
    ensures (r * 100.0).Floor as real == r * 100.0
  {
    var n := RoundHalfEven(x * 100.0);
    assert 0.0 <= x ==> n >= 0;
    assert x <= 100.0 ==> n <= 10000;
    n as real / 100.0
  }

  /** `round(x, 4)` */
  function Round4(x: real): (r: real)
    ensures -0.00005 <= r - x <= 0.00005
    ensures 0.0 <= x <= 1.0 ==> 0.0 <= r <= 1.0
    ensures x == 0.0 ==> r == 0.0
    ensures (r * 10000.0).Floor as real == r * 10000.0
  {
    var n := RoundHalfEven(x * 10000.0);
    assert 0.0 <= x ==> n >= 0;
    assert x <= 1.0 ==> n <= 10000;
    n as real / 10000.0
  }

  /** Ties go to the even neighbour: 0.125 and 0.03125 round down, 0.375
      rounds up. All three are exact in binary, so a Python float gives the
      same results. */
  lemma RoundTiesToEven()
    ensures Round2(0.125) == 0.12 && Round2(0.375) == 0.38 && Round4(0.03125) == 0.0312
  {
    assert (0.125 * 100.0).Floor == 12;
    assert (0.375 * 100.0).Floor == 37;
    assert (0.03125 * 10000.0).Floor == 312;
  }

  /** Rounding never reverses an order: `x <= y` gives `round(x) <= round(y)`. */
  lemma RoundHalfEvenMonotone(x: real, y: real)
    requires x <= y
    ensures RoundHalfEven(x) <= RoundHalfEven(y)
  {
    if x.Floor < y.Floor {
      assert RoundHalfEven(x) <= x.Floor + 1 <= y.Floor <= RoundHalfEven(y);
    }
  }

  lemma Round2Monotone(x: real, y: real)
    requires x <= y
    ensures Round2(x) <= Round2(y)
  {
    RoundHalfEvenMonotone(x * 100.0, y * 100.0);
  }
}
