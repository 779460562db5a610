/**
 * Rounding as pandas/numpy performs it for `round(series, digits)`: scale by
 * 10^digits, round half to even, scale back. Reals are exact here, so the
 * binary floating-point error of the original is not modelled.
 */
module Numeric {

  function Pow10(n: nat): (p: nat)
    ensures p >= 1
  {
    if n == 0 then 1 else 10 * Pow10(n - 1)
  }

  /** The nearest integer to `y`, ties going to the even neighbour. */
  function RoundHalfEven(y: real): (n: int)
    ensures -1.0 / 2.0 <= n as real - y <= 1.0 / 2.0
    ensures y >= 0.0 ==> n >= 0
    ensures (n as real - y == 1.0 / 2.0 || y - n as real == 1.0 / 2.0) ==> n % 2 == 0
  {
    var f := y.Floor;
    var frac := y - f as real;
    if frac < 1.0 / 2.0 then f
    else if frac > 1.0 / 2.0 then f + 1
    else if f % 2 == 0 then f
    else f + 1
  }

  /** `x` shifted left by `digits` decimal places. */
  function Shift(x: real, digits: nat): real
  {
    x * Pow10(digits) as real
  }

  /** `round(x, digits)` on exact reals. */
  function Round(x: real, digits: nat): real
  {
    RoundHalfEven(Shift(x, digits)) as real / Pow10(digits) as real
  }

  /** Rounding moves a value by at most half a unit in the last kept decimal. */
  lemma {:induction false} RoundError(x: real, digits: nat)
    ensures -1.0 / (2 * Pow10(digits)) as real <= Round(x, digits) - x <= 1.0 / (2 * Pow10(digits)) as real
  {
    var p := Pow10(digits) as real;
    var n := RoundHalfEven(Shift(x, digits)) as real;
    assert Round(x, digits) == n / p;
    assert Shift(x, digits) == x * p;
    ScaledError(x, p, n);
    assert (2 * Pow10(digits)) as real == 2.0 * p;
  }

  lemma {:induction false} ScaledError(x: real, p: real, n: real)
    requires p >= 1.0
    requires -1.0 / 2.0 <= n - x * p <= 1.0 / 2.0
    ensures -1.0 / (2.0 * p) <= n / p - x <= 1.0 / (2.0 * p)
  {
    assert n / p - x == (n - x * p) / p;
    DivBound(n - x * p, p);
  }

  lemma {:induction false} DivBound(e: real, p: real)
    requires p >= 1.0
    requires -1.0 / 2.0 <= e <= 1.0 / 2.0
    ensures -1.0 / (2.0 * p) <= e / p <= 1.0 / (2.0 * p)
  {
    assert e / p == e * (1.0 / p);
    assert 1.0 / (2.0 * p) == (1.0 / 2.0) * (1.0 / p);
  }

  /** Rounding never makes a non-negative value negative. */
  lemma {:induction false} RoundNonNegative(x: real, digits: nat)
    requires x >= 0.0
    ensures Round(x, digits) >= 0.0
  {
    var p := Pow10(digits) as real;
    assert Shift(x, digits) == x * p >= 0.0;
  }

  /** A value that already has at most `digits` decimals is left unchanged. */
  lemma {:induction false} RoundExact(n: int, digits: nat)
    ensures Round(n as real / Pow10(digits) as real, digits) == n as real / Pow10(digits) as real
  {
    var p := Pow10(digits) as real;
    var v := n as real / p;
    CancelDiv(n as real, p);
    assert Shift(v, digits) == v * p == n as real;
    assert (n as real).Floor == n;
    assert RoundHalfEven(Shift(v, digits)) == n;
  }

  lemma {:induction false} CancelDiv(a: real, p: real)
    requires p > 0.0
    ensures (a / p) * p == a
  {
  }
}
