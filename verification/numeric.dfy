/** Exact-arithmetic versions of the JavaScript number operations the dashboard uses. */
module Numeric {

  function Min(a: int, b: int): int { if a <= b then a else b }

  /** JavaScript's Math.round on an exact real: the nearest integer, a half rounds up (towards +infinity). */
  function Round(x: real): (r: int)
    ensures r as real - 0.5 <= x < r as real + 0.5
  {
    (x + 0.5).Floor
  }

  /** The nearest-integer characterisation picks exactly one integer. */
  lemma RoundUnique(x: real, n: int)
    requires n as real - 0.5 <= x < n as real + 0.5
    ensures Round(x) == n
  {
    var r := Round(x);
    assert r as real - 0.5 <= x < r as real + 0.5;
    assert (r - n) as real < 1.0 && (n - r) as real < 1.0;
  }

  /** Rounding never reverses an order. */
  lemma RoundMonotone(x: real, y: real)
    requires x <= y
    ensures Round(x) <= Round(y)
  {
    var rx, ry := Round(x), Round(y);
    assert rx as real - 0.5 <= x <= y < ry as real + 0.5;
    assert (rx - ry) as real < 1.0;
  }

  /** Math.round(a / b) for integers a, b with b > 0, in integer (floor) arithmetic. */
  lemma {:induction false} RoundRatio(a: int, b: int)
    requires b > 0
    ensures Round(a as real / b as real) == (2 * a + b) / (2 * b)
  {
    var q := (2 * a + b) / (2 * b);
    var m := (2 * a + b) % (2 * b);
    assert 2 * a + b == 2 * b * q + m && 0 <= m < 2 * b;
    var x := a as real / b as real;
    assert a as real == x * b as real;
    // 2a + b = 2bq + m with 0 <= m < 2b gives 2bq - b <= 2a < 2bq + b
    assert (2 * a) as real - (2 * b * q - b) as real >= 0.0;
    assert (2 * b * q + b) as real - (2 * a) as real > 0.0;
    assert 2.0 * b as real * (x - (q as real - 0.5)) == (2 * a) as real - (2 * b * q - b) as real;
    assert 2.0 * b as real * ((q as real + 0.5) - x) == (2 * b * q + b) as real - (2 * a) as real;
    CancelPositive(2.0 * b as real, x - (q as real - 0.5));
    CancelPositive(2.0 * b as real, (q as real + 0.5) - x);
    RoundUnique(x, q);
  }

  lemma CancelPositive(c: real, y: real)
    requires c > 0.0
    ensures c * y >= 0.0 ==> y >= 0.0
    ensures c * y > 0.0 ==> y > 0.0
  {
    if y < 0.0 { assert c * y < 0.0; }
    if y == 0.0 { assert c * y == 0.0; }
  }

  /** Math.round(part / whole * 100): a share written as a whole-number percentage. */
  function Percent(part: real, whole: real): (p: int)
    requires whole > 0.0
    requires 0.0 <= part <= whole
    ensures 0 <= p <= 100
  {
    var q := part / whole;
    assert whole * q == part;
    CancelPositive(whole, q);
    CancelPositive(whole, 1.0 - q);
    assert whole * (1.0 - q) == whole - part;
    Round(q * 100.0)
  }

  /** x.toFixed(1) read back as a number, in tenths: the integer n nearest 10 x. toFixed rounds the
      magnitude and puts the sign back, so a tie goes away from zero: 0.25 gives 3, -0.25 gives -3. */
  function Tenths(x: real): (n: int)
    ensures n as real - 0.5 <= 10.0 * x <= n as real + 0.5
    ensures x >= 0.0 ==> 10.0 * x < n as real + 0.5
    ensures x < 0.0 ==> n as real - 0.5 < 10.0 * x
  {
    if x >= 0.0 then Round(10.0 * x) else -Round(-10.0 * x)
  }

  /** A larger number never shows fewer tenths. */
  lemma TenthsMonotone(x: real, y: real)
    requires x <= y
    ensures Tenths(x) <= Tenths(y)
  {
    if 0.0 <= x {
      RoundMonotone(10.0 * x, 10.0 * y);
    } else if y < 0.0 {
      RoundMonotone(-10.0 * y, -10.0 * x);
    } else {
      RoundMonotone(0.0, -10.0 * x);
      RoundMonotone(0.0, 10.0 * y);
      RoundUnique(0.0, 0);
    }
  }

  /** Ties on either side of zero: 0.25 shows as 0.3 and -0.25 as -0.3. */
  lemma TenthsTies()
    ensures Tenths(0.25) == 3 && Tenths(-0.25) == -3
  {
    RoundUnique(2.5, 3);
  }
}
