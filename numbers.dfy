/**
 * The little of JavaScript's number semantics the pages rely on: integers, `NaN`, and the `%`
 * operator, whose remainder takes the sign of the dividend (Dafny's `%` never goes negative).
 */
module Numbers {
  /** A JavaScript number that is an integer or `NaN`. */
  datatype JsNumber = Num(value: int) | NaN

  /**
   * `a % b` for a positive `b`: the remainder of division truncated toward zero, which is the
   * Euclidean remainder for a non-negative `a` and the negated remainder of `-a` otherwise.
   */
  function JsRem(a: int, b: int): (r: int)
    requires b > 0
    ensures -b < r < b
    ensures a >= 0 ==> r == a % b
    ensures a < 0 ==> r == -((-a) % b) && r <= 0
  {
    if a >= 0 then a % b else -((-a) % b)
  }

  /** `x % n` on a JavaScript number: `NaN` for `NaN` or a zero divisor. */
  function RemNumber(x: JsNumber, n: nat): (r: JsNumber)
    ensures r.NaN? <==> x.NaN? || n == 0
    ensures r.Num? ==> r.value == JsRem(x.value, n)
  {
    if x.NaN? || n == 0 then NaN else Num(JsRem(x.value, n))
  }

  lemma MulAtLeast(d: int, n: int)
    requires d >= 1 && n >= 1
    ensures d * n >= n
  {
    assert d * n == (d - 1) * n + n;
  }

  /** The only multiple of `n` strictly between `-n` and `n` is zero. */
  lemma MultipleBetween(d: int, n: int)
    requires n > 0 && -n < d * n < n
    ensures d == 0
  {
    if d >= 1 {
      MulAtLeast(d, n);
    } else if d <= -1 {
      MulAtLeast(-d, n);
    }
  }

  /** Division with remainder has one answer. */
  lemma ModUnique(a: int, n: int, q: int, r: int)
    requires n > 0 && 0 <= r < n && a == q * n + r
    ensures a % n == r
  {
    var q0, r0 := a / n, a % n;
    assert (q - q0) * n == r0 - r by {
      assert q * n - q0 * n == (q - q0) * n;
    }
    MultipleBetween(q - q0, n);
  }

  /** Below twice the divisor, the remainder takes off the divisor at most once. */
  lemma ModSmall(x: int, n: int)
    requires n > 0 && 0 <= x < 2 * n
    ensures x % n == if x < n then x else x - n
  {
    if x < n {
      ModUnique(x, n, 0, x);
    } else {
      ModUnique(x, n, 1, x - n);
    }
  }

  /** One more step after a remainder is the remainder of one more. */
  lemma ModSucc(a: nat, n: nat)
    requires n > 0
    ensures ((a % n) + 1) % n == (a + 1) % n
  {
    var q, r := a / n, a % n;
    ModSmall(r + 1, n);
    if r + 1 < n {
      ModUnique(a + 1, n, q, r + 1);
    } else {
      assert a + 1 == (q + 1) * n + 0;
      ModUnique(a + 1, n, q + 1, 0);
    }
  }
}
