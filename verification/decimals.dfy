/**
 * Exact decimal arithmetic. Python's `Decimal` values are modelled as Dafny
 * `real`s (exact rationals); the two rounding modes the system uses are kept
 * apart: `quantize` without a rounding argument uses the context default,
 * ROUND_HALF_EVEN, while the expression sandbox's `round` asks for
 * ROUND_HALF_UP (ties away from zero).
 */
module Decimals {

  /** One cent, the currency's minor unit (`Decimal("0.01")`). */
  const Cent: real := 0.01
  /** The four-digit unit used for intermediate fee amounts (`Decimal("0.0001")`). */
  const Basis: real := 0.0001

  function Abs(x: real): (r: real)
    ensures r >= 0.0 && (r == x || r == -x)
  {
    if x < 0.0 then -x else x
  }

  function Min(a: real, b: real): real { if a <= b then a else b }
  function Max(a: real, b: real): real { if a >= b then a else b }

  /** Left-to-right sum, as Python's `sum`. */
  function Sum(s: seq<real>): real
  {
    if s == [] then 0.0 else s[0] + Sum(s[1..])
  }

  lemma {:induction false} SumConcat(a: seq<real>, b: seq<real>)
    ensures Sum(a + b) == Sum(a) + Sum(b)
  {
    if a == [] {
      assert a + b == b;
    } else {
      assert (a + b)[1..] == a[1..] + b;
      SumConcat(a[1..], b);
    }
  }

  lemma SumSingle(x: real)
    ensures Sum([x]) == x
  {
    assert [x][1..] == [];
  }

  /** Nearest integer, ties to the even neighbour (ROUND_HALF_EVEN). */
  function RoundHalfEven(x: real): (n: int)
    ensures -0.5 <= x - n as real <= 0.5
    ensures (x - n as real == 0.5 || x - n as real == -0.5) ==> n % 2 == 0
  {
    var f := x.Floor;
    var d := x - f as real;
    if d < 0.5 then f
    else if d > 0.5 then f + 1
    else if f % 2 == 0 then f
    else f + 1
  }

  /** Nearest integer, ties away from zero (ROUND_HALF_UP). */
  function RoundHalfUp(x: real): (n: int)
    ensures -0.5 <= x - n as real <= 0.5
    ensures (x - n as real == 0.5 || x - n as real == -0.5) ==> Abs(n as real) > Abs(x)
  {
    if x >= 0.0 then (x + 0.5).Floor else -((-x + 0.5).Floor)
  }

  /** The two roundings differ only on ties: away from a tie both pick the nearest integer. */
  lemma {:induction false} NearestIsUnique(x: real, m: int, n: int)
    requires -0.5 < x - m as real < 0.5
    requires -0.5 <= x - n as real <= 0.5
    ensures m == n
  {
  }

  /** `x.quantize(unit)` under the default ROUND_HALF_EVEN context. */
  function Quantize(x: real, unit: real): real
    requires unit > 0.0
  {
    RoundHalfEven(x / unit) as real * unit
  }

  /** `x.quantize(unit, rounding=ROUND_HALF_UP)`. */
  function QuantizeHalfUp(x: real, unit: real): real
    requires unit > 0.0
  {
    RoundHalfUp(x / unit) as real * unit
  }

  /** 10 to an integer power, as `Decimal("1").scaleb(k)`. */
  function Pow10(k: int): (r: real)
    ensures r > 0.0
    decreases if k < 0 then -k else k
  {
    if k == 0 then 1.0
    else if k > 0 then 10.0 * Pow10(k - 1)
    else Pow10(k + 1) / 10.0
  }

  /** `int(x)` on a Decimal: truncation toward zero. */
  function Trunc(x: real): (n: int)
    ensures Abs(n as real) <= Abs(x) < Abs(n as real) + 1.0
    ensures x >= 0.0 ==> n >= 0
    ensures x <= 0.0 ==> n <= 0
  {
    if x >= 0.0 then x.Floor else -((-x).Floor)
  }

  /** A value is a multiple of `unit` when it is `k * unit` for an integer `k`. */
  predicate MultipleOf(x: real, unit: real)
    requires unit > 0.0
  {
    (x / unit).Floor as real == x / unit
  }

  /** Quantizing moves a value by at most half a unit, onto a multiple of the unit. */
  lemma QuantizeBounds(x: real, unit: real)
    requires unit > 0.0
    ensures MultipleOf(Quantize(x, unit), unit)
    ensures -unit / 2.0 <= Quantize(x, unit) - x <= unit / 2.0
  {
    var n := RoundHalfEven(x / unit);
    assert Quantize(x, unit) == n as real * unit;
    assert (n as real * unit) / unit == n as real;
    ScaleBound(x, unit, n);
  }

  /** Same bound for the half-up quantization of the sandbox's `round`. */
  lemma QuantizeHalfUpBounds(x: real, unit: real)
    requires unit > 0.0
    ensures MultipleOf(QuantizeHalfUp(x, unit), unit)
    ensures -unit / 2.0 <= QuantizeHalfUp(x, unit) - x <= unit / 2.0
  {
    var n := RoundHalfUp(x / unit);
    assert QuantizeHalfUp(x, unit) == n as real * unit;
    assert (n as real * unit) / unit == n as real;
    ScaleBound(x, unit, n);
  }

  lemma ScaleBound(x: real, unit: real, n: int)
    requires unit > 0.0
    requires -0.5 <= x / unit - n as real <= 0.5
    ensures -unit / 2.0 <= n as real * unit - x <= unit / 2.0
  {
    var y := x / unit;
    var d := n as real - y;
    assert x == y * unit;
    assert n as real * unit - x == d * unit;
    assert -0.5 * unit <= d * unit <= 0.5 * unit;
  }

  /** Rounding a value that lies between two integers never leaves them. */
  lemma {:induction false} RoundHalfEvenBetween(y: real, lo: int, hi: int)
    requires lo as real <= y <= hi as real
    ensures lo <= RoundHalfEven(y) <= hi
  {
  }

  /** Quantizing a non-negative value gives a non-negative value. */
  lemma QuantizeNonNegative(x: real, unit: real)
    requires unit > 0.0 && x >= 0.0
    ensures Quantize(x, unit) >= 0.0
  {
    var y := x / unit;
    assert y >= 0.0;
    RoundHalfEvenBetween(y, 0, y.Floor + 1);
  }
}
