/** Division by any number, from the multiplication. */
module Arithmetic {

  lemma Product(n: nat, d: int)
    ensures (d >= 1 ==> n * d >= n) && (d <= -1 ==> n * d <= 0 - n)
  {
  }

  /** A quotient and a remainder in range are the quotient and the remainder. */
  lemma Division(a: int, n: nat, q: int, r: nat)
    requires r < n && a == n * q + r
    ensures a / n == q && a % n == r
  {
    var d := a / n - q;
    assert n * d == r - a % n;
    Product(n, d);
  }
}
