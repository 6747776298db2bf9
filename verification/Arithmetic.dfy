/** Division with a given quotient and remainder. */
module Arithmetic {

  lemma {:induction false} DivisionIs(a: int, q: int, r: int, n: nat)
    requires 0 <= r < n && a == q * n + r
    ensures a % n == r && a / n == q
  {
    var k := a / n - q;
    assert k * n == r - a % n;
    assert k >= 1 ==> k * n >= n;
    assert k <= -1 ==> k * n <= -1 * n;
  }

  lemma {:induction false} SameRemainder(a: int, b: int, q: int, n: nat)
    requires n > 0 && a == b + q * n
    ensures a % n == b % n
  {
    var d, r := b / n, b % n;
    assert a == (d + q) * n + r;
    DivisionIs(a, d + q, r, n);
  }
}
