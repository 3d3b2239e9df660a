/** Facts about products, and division by a variable divisor. */
module Division {

  lemma MulAtLeast(k: int, c: int)
    requires c > 0
    ensures k >= 1 ==> k * c >= c
  {
  }

  lemma Twice(a: nat, b: nat)
    ensures 2 * a * b == 2 * (a * b) && a * (2 * b) == 2 * (a * b)
  {
  }

  /** Dividing twice is dividing by the product. */
  lemma DivTwice(n: nat, a: nat, b: nat)
    requires a > 0 && b > 0
    ensures a * b > 0 && n / a / b == n / (a * b)
  {
    MulAtLeast(a, b);
    var q, r, q2, r2 := n / a, n % a, n / a / b, n / a % b;
    assert n == a * q + r && q == b * q2 + r2;
    assert n == (a * b) * q2 + (a * r2 + r) by { assert a * (b * q2 + r2) == (a * b) * q2 + a * r2; }
    assert a * r2 + r < a * b by { MulAtLeast(b - r2, a); assert a * r2 + (b - r2) * a == a * b; }
    assert a * r2 >= 0 by { NonNegative(a, r2); }
    DivUnique(n, a * b, q2, a * r2 + r);
  }

  lemma NonNegative(a: nat, b: nat)
    ensures a * b >= 0
  {
  }

  /** Quotient and remainder are the only ones there are. */
  lemma DivUnique(a: int, c: int, q: int, r: int)
    requires c > 0 && a == q * c + r && 0 <= r < c
    ensures a / c == q && a % c == r
  {
    var k := q - a / c;
    assert k * c == a % c - r && (-k) * c == -(k * c);
    MulAtLeast(k, c);
    MulAtLeast(-k, c);
  }
}
