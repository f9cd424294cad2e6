/**
 * Java numeric semantics that the engine relies on and that differ from
 * Dafny's: the `(int)` cast of a double truncates toward zero, `int / int`
 * truncates toward zero, and `Math.signum` / `Math.abs` on doubles.
 * Doubles are modelled as exact `real`s.
 */
module JavaNum {

  /** `(int) r`: truncation toward zero. */
  function Trunc(r: real): (t: int)
    ensures r >= 0.0 ==> t as real <= r < t as real + 1.0
    ensures r < 0.0 ==> t as real - 1.0 < r <= t as real
  {
    if r >= 0.0 then r.Floor else -((-r).Floor)
  }

  /** `a / b` on Java ints: the quotient rounded toward zero. */
  function Div(a: int, b: int): (q: int)
    requires b != 0
    ensures var rem := a - q * b;
      && (a >= 0 ==> 0 <= rem) && (a <= 0 ==> rem <= 0)
      && (b > 0 ==> -b < rem < b) && (b < 0 ==> b < rem < -b)
  {
    var n := if a >= 0 then a else -a;
    var d := if b > 0 then b else -b;
    var m := n / d;
    Euclid(n, d);
    if (a >= 0) == (b > 0) then
      assert m * b == (if b > 0 then m * d else -(m * d));
      m
    else
      assert (-m) * b == (if b > 0 then -(m * d) else m * d);
      -m
  }

  lemma Euclid(n: int, d: int)
    requires d > 0
    ensures n == (n / d) * d + n % d && 0 <= n % d < d
  {
  }

  /** `Math.abs` on a double. */
  function Abs(r: real): (a: real)
    ensures a >= 0.0 && (a == r || a == -r)
  {
    if r < 0.0 then -r else r
  }

  /** `Math.signum` on a double. */
  function Signum(r: real): (s: real)
    ensures r > 0.0 <==> s == 1.0
    ensures r < 0.0 <==> s == -1.0
    ensures r == 0.0 <==> s == 0.0
  {
    if r > 0.0 then 1.0 else if r < 0.0 then -1.0 else 0.0
  }

  lemma MulStrictMono(a: real, b: real, c: real)
    requires a < b && c > 0.0
    ensures a * c < b * c
  {
  }

  /** Squaring is strictly increasing on the non-negative reals. */
  lemma SquareGrows(a: real, b: real)
    requires 0.0 <= a < b
    ensures a * a < b * b
  {
    var d := b - a;
    assert b * b == (a + d) * (a + d) == a * a + 2.0 * a * d + d * d;
    assert d * d > 0.0;
    assert a * d >= 0.0;
  }

  lemma MulMonoLe(a: real, b: real, c: real)
    requires a <= b && c >= 0.0
    ensures a * c <= b * c
  {
    if a < b && c > 0.0 {
      MulStrictMono(a, b, c);
    }
  }

  /** `y / d` lies in [lo, lo + 1) exactly when `y` lies in [lo * d, (lo + 1) * d). */
  lemma QuotientBetween(y: real, d: real, lo: real)
    requires d > 0.0 && lo * d <= y < (lo + 1.0) * d
    ensures lo <= y / d < lo + 1.0
  {
    var x := y / d;
    assert x * d == y;
    if x < lo {
      MulStrictMono(x, lo, d);
    }
    if x >= lo + 1.0 {
      if x > lo + 1.0 {
        MulStrictMono(lo + 1.0, x, d);
      }
    }
  }

  lemma TruncNeg(r: real)
    ensures Trunc(-r) == -Trunc(r)
  {
  }

  lemma DivNeg(a: int, d: int)
    requires d > 0
    ensures Div(-a, d) == -Div(a, d)
  {
  }

  lemma DivOfTruncNonneg(r: real, d: int)
    requires d > 0 && r >= 0.0
    ensures Div(Trunc(r), d) == Trunc(r / d as real)
  {
    var t := Trunc(r);
    var q := Div(t, d);
    assert q * d <= t < q * d + d;
    var lo := q as real;
    var dr := d as real;
    assert (q * d) as real == lo * dr;
    assert (q * d + d) as real == (lo + 1.0) * dr;
    assert t as real <= r < t as real + 1.0;
    assert lo * dr <= r < (lo + 1.0) * dr;
    QuotientBetween(r, dr, lo);
  }

  /**
   * Truncating a double and then dividing by a positive int agrees with
   * truncating the double's quotient: `(int) r / d == (int) (r / d)`.
   */
  lemma DivOfTrunc(r: real, d: int)
    requires d > 0
    ensures Div(Trunc(r), d) == Trunc(r / d as real)
  {
    if r >= 0.0 {
      DivOfTruncNonneg(r, d);
    } else {
      DivOfTruncNonneg(-r, d);
      TruncNeg(r);
      DivNeg(Trunc(r), d);
      NegQuotient(r, d as real);
      TruncNeg(r / d as real);
    }
  }

  lemma NegQuotient(r: real, d: real)
    requires d != 0.0
    ensures -r / d == -(r / d)
  {
    assert (-(r / d)) * d == -r;
  }

  /** Dividing an exact multiple gives the factor back. */
  lemma DivExact(k: int, d: int)
    requires d > 0
    ensures Div(k * d, d) == k
  {
    var q := Div(k * d, d);
    var rem := k * d - q * d;
    assert rem == (k - q) * d;
    MulAwayFromZero(k - q, d);
  }

  lemma MulAwayFromZero(m: int, d: int)
    requires d > 0
    ensures m >= 1 ==> m * d >= d
    ensures m <= -1 ==> m * d <= -d
  {
  }
}
