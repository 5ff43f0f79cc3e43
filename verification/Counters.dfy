/** Free-running counters kept in fewer bits than they count. */
module Counters {
  lemma Remainder(x: nat, m: nat, q: nat, r: nat)
    requires m > 0 && x == m * q + r && r < m
    ensures x % m == r
  {
    var d := x / m;
    QuotientRemainder(x, m);
    Grows(m, q + 1, d);
    Grows(m, d + 1, q);
    assert m * (q + 1) == m * q + m && m * (d + 1) == m * d + m;
  }

  lemma Grows(m: nat, a: nat, b: nat)
    ensures a <= b ==> m * a <= m * b
  {
    if a <= b { assert m * b == m * a + m * (b - a); }
  }

  lemma QuotientRemainder(n: nat, m: nat)
    requires m > 0
    ensures n == m * (n / m) + n % m && 0 <= n % m < m
  {
  }

  lemma Regroup(m: nat, k: nat, d: nat, q: nat)
    ensures m * k * d + m * q == m * (k * d + q)
  {
    assert m * k * d == m * (k * d);
  }

  /** Fewer bits of fewer bits are fewer bits. */
  lemma Fewer(n: nat, big: nat, m: nat, k: nat)
    requires m > 0 && big > 0 && big == m * k
    ensures n % big % m == n % m
  {
    var d, e := n / big, n % big;
    var q, r := e / m, e % m;
    QuotientRemainder(n, big);
    QuotientRemainder(e, m);
    Regroup(m, k, d, q);
    Remainder(n, m, k * d + q, r);
  }

  /** Counting on in `m` bits. */
  lemma Next(n: nat, m: nat)
    requires m > 1
    ensures (n % m + 1) % m == (n + 1) % m
  {
    var d, e := n / m, n % m;
    QuotientRemainder(n, m);
    if e + 1 < m {
      Remainder(n + 1, m, d, e + 1);
      Remainder(e + 1, m, 0, e + 1);
    } else {
      assert m * (d + 1) == m * d + m;
      Remainder(n + 1, m, d + 1, 0);
      Remainder(m, m, 1, 0);
    }
  }
}
