/** Division of natural numbers. */
module Arithmetic {

  lemma NextMultiple(x: nat, y: nat, n: nat)
    requires x > y
    ensures x * n >= y * n + n
  {
    assert x * n == y * n + (x - y) * n;
    assert (x - y) * n == n + (x - y - 1) * n;
  }

  lemma QuotientRemainder(x: nat, n: nat)
    requires n > 0
    ensures x == (x / n) * n + x % n && x % n < n
  {
  }

  lemma SplitUnique(n: nat, q: nat, r: nat, k: nat, s: nat)
    requires q * n + r == k * n + s && r < n && s < n
    ensures k == q && s == r
  {
    if k < q { NextMultiple(q, k, n); } else if q < k { NextMultiple(k, q, n); }
  }

  /** A number splits into multiples of another and a smaller rest in one way. */
  lemma DivisionUnique(x: nat, n: nat, q: nat, r: nat)
    requires n > 0 && x == q * n + r && r < n
    ensures x / n == q && x % n == r
  {
    QuotientRemainder(x, n);
    SplitUnique(n, q, r, x / n, x % n);
  }
}
