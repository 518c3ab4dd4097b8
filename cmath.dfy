/**
 * The C and raymath arithmetic the particle code relies on, written out over
 * Dafny's unbounded `int` and `real`: float-to-int conversion truncates toward
 * zero, `fmodf` keeps the sign of its first operand, `/` and `%` on C ints
 * truncate, and raymath's `Clamp` tests the lower bound before the upper one.
 */
module CMath {

  function Min(a: int, b: int): int { if a <= b then a else b }
  function Max(a: int, b: int): int { if a >= b then a else b }

  /** C conversion of a float to `int`: truncation toward zero. */
  function Trunc(x: real): (n: int)
    ensures x >= 0.0 ==> n as real <= x < n as real + 1.0
    ensures x < 0.0 ==> n as real - 1.0 < x <= n as real
  {
    if x >= 0.0 then x.Floor else -((-x).Floor)
  }

  /** `fmodf(x, y)` for a positive divisor: the remainder of the truncating quotient. */
  function FMod(x: real, y: real): (r: real)
    requires y > 0.0
    ensures x >= 0.0 ==> 0.0 <= r < y
    ensures x < 0.0 ==> -y < r <= 0.0
  {
    RemainderBounds(x, y);
    x - (Trunc(x / y) as real) * y
  }

  lemma RemainderBounds(x: real, y: real)
    requires y > 0.0
    ensures var r := x - (Trunc(x / y) as real) * y;
      (x >= 0.0 ==> 0.0 <= r < y) && (x < 0.0 ==> -y < r <= 0.0)
  {
    var z := x / y;
    var q := Trunc(z) as real;
    DivSign(x, y);
    assert (x / y) * y == x;
    if x >= 0.0 {
      var p := ScaledBelow(z, q, y);
    } else {
      var p := ScaledAbove(z, q, y);
    }
  }

  /** A fraction `z - q` of one unit, scaled by `y`, is a fraction of `y`. */
  lemma ScaledBelow(z: real, q: real, y: real) returns (p: real)
    requires y > 0.0 && 0.0 <= z - q < 1.0
    ensures p == z * y - q * y && 0.0 <= p < y
  {
    var f := z - q;
    assert f * y == z * y - q * y;
    assert f * y < 1.0 * y;
    p := f * y;
  }

  lemma ScaledAbove(z: real, q: real, y: real) returns (p: real)
    requires y > 0.0 && -1.0 < z - q <= 0.0
    ensures p == z * y - q * y && -y < p <= 0.0
  {
    var f := z - q;
    assert f * y == z * y - q * y;
    assert (-f) * y < 1.0 * y;
    p := f * y;
  }

  lemma DivSign(x: real, y: real)
    requires y > 0.0
    ensures x >= 0.0 <==> x / y >= 0.0
  {
    assert (x / y) * y == x;
    if x / y < 0.0 {
      assert (x / y) * y < 0.0;
    }
  }

  /** A non-negative value below a positive divisor divides to a fraction of one. */
  lemma DivBelow(x: real, y: real)
    requires 0.0 <= x < y
    ensures 0.0 <= x / y < 1.0
  {
    assert (x / y) * y == x;
    DivSign(x, y);
    assert (x / y) < 1.0;
  }

  /** C integer division `a / b`: the quotient truncated toward zero. */
  function CDiv(a: int, b: int): (q: int)
    requires b != 0
    ensures a >= 0 && b > 0 ==> q == a / b
    ensures a >= 0 && b > 0 ==> q * b <= a < q * b + b
  {
    var m := (if a < 0 then -a else a) / (if b < 0 then -b else b);
    if (a < 0) != (b < 0) then -m else m
  }

  /** C remainder `a % b`, which has the sign of `a`. */
  function CMod(a: int, b: int): (r: int)
    requires b != 0
    ensures a >= 0 && b > 0 ==> r == a % b && 0 <= r < b
  {
    a - b * CDiv(a, b)
  }

  /** raymath `Clamp(value, min, max)`, applied to integral values. */
  function ClampInt(v: int, lo: int, hi: int): (r: int)
    ensures lo <= hi ==> lo <= r <= hi
    ensures lo <= v <= hi ==> r == v
    ensures v < lo && lo <= hi ==> r == lo
    ensures v > hi ==> r == hi
  {
    var low := if v < lo then lo else v;
    if low > hi then hi else low
  }
}
