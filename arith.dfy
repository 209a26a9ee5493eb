/** Facts about Euclidean division and remainder used by the slot and roll arithmetic. */
module Arith {

  /** `k + n` has the same remainder as `k`. */
  lemma ModShift(k: int, n: int)
    requires n > 0
    ensures (k + n) % n == k % n
  {
    var q := k / n;
    assert k + n == (q + 1) * n + k % n;
    ModUnique(k + n, n, q + 1, k % n);
  }

  /** Division with remainder is unique. */
  lemma ModUnique(a: int, n: int, q: int, r: int)
    requires n > 0 && 0 <= r < n && a == q * n + r
    ensures a % n == r
  {
    var q', r' := a / n, a % n;
    assert a == q' * n + r';
    if q > q' {
      assert (q - q') * n == q * n - q' * n;
      MulAtLeast(q - q', n);
    } else if q < q' {
      assert (q' - q) * n == q' * n - q * n;
      MulAtLeast(q' - q, n);
    }
  }

  /** Subtracting whole multiples of `n` keeps the remainder. */
  lemma ModMultiple(y: int, q: int, n: int)
    requires n > 0
    ensures (y - q * n) % n == y % n
  {
    var p := y / n;
    assert y == p * n + y % n;
    assert (p - q) * n == p * n - q * n;
    ModUnique(y - q * n, n, p - q, y % n);
  }

  /** Taking the remainder before subtracting `a` does not change the remainder after it. */
  lemma ModCompose(x: int, a: int, n: int)
    requires n > 0
    ensures (x % n - a) % n == (x - a) % n
  {
    var q := x / n;
    assert x % n == x - q * n;
    assert x % n - a == (x - a) - q * n;
    ModMultiple(x - a, q, n);
  }

  /** A number below the divisor is its own remainder. */
  lemma ModSmall(i: int, n: int)
    requires 0 <= i < n
    ensures i % n == i
  {
    ModUnique(i, n, 0, i);
  }

  /** Numbers fewer than `n` apart have different remainders. */
  lemma ModDistinct(a: int, b: int, n: int)
    requires n > 0 && a < b < a + n
    ensures a % n != b % n
  {
    var qa, qb := a / n, b / n;
    if a % n == b % n {
      assert b - a == (qb - qa) * n;
      if qb - qa >= 1 {
        MulAtLeast(qb - qa, n);
      } else {
        MulAtMost(qb - qa, n);
      }
    }
  }

  lemma MulAtLeast(q: int, n: int)
    requires q >= 1 && n > 0
    ensures q * n >= n
  {
  }

  lemma MulAtMost(q: int, n: int)
    requires q <= 0 && n > 0
    ensures q * n <= 0
  {
  }
}
