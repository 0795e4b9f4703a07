/** Facts about quotients and products that the solver does not find by itself. */
module Division {
  lemma Divides(n: nat, d: nat)
    requires 0 < d && n % d == 0
    ensures n / d * d == n
  {
  }

  lemma AtLeastOne(x: int, d: nat)
    requires x >= 1
    ensures x * d >= d
  {
    assert x * d == (x - 1) * d + d;
  }

  lemma OnlyZero(x: int, d: nat)
    requires 0 - d < x * d < d
    ensures x == 0
  {
    if x >= 1 {
      AtLeastOne(x, d);
    } else if x <= -1 {
      AtLeastOne(-x, d);
    }
  }

  lemma QuotientUnique(n: nat, d: nat, q: nat, r: nat)
    requires r < d && n == q * d + r
    ensures n / d == q
  {
    SplitQuotient(n, d);
    assert (n / d - q) * d == n / d * d - q * d;
    OnlyZero(n / d - q, d);
  }

  /** At least k blocks fit into n bytes that hold k blocks. */
  lemma QuotientAtLeast(n: nat, d: nat, k: nat)
    requires 0 < d && k * d <= n
    ensures k <= n / d
  {
    var r := n - k * d;
    SplitQuotient(r, d);
    assert n == (k + r / d) * d + r % d by {
      assert (k + r / d) * d == k * d + r / d * d;
    }
    QuotientUnique(n, d, k + r / d, r % d);
  }

  lemma SplitQuotient(r: nat, d: nat)
    requires 0 < d
    ensures r == r / d * d + r % d && r / d >= 0 && 0 <= r % d < d
  {
  }

  lemma TimesDiff(a: nat, b: nat, d: nat)
    requires b <= a
    ensures (a - b) * d == a * d - b * d
  {
  }

  lemma QuotientAtMost(x: nat, y: nat)
    requires y != 0
    ensures 0 <= x / y <= x
  {
    SplitQuotient(x, y);
    var q := x / y;
    ProductNotNegative(q, y - 1);
    assert q * y == q * (y - 1) + q;
  }

  lemma ProductNotNegative(a: nat, b: nat)
    ensures a * b >= 0
  {
  }
}
