/** Remainders, for positions on the rings. */
module Modulo {

  lemma AtLeastOne(d: int, n: nat)
    requires d >= 1
    ensures d * n >= n
  {
    assert d * n == (d - 1) * n + n;
  }

  lemma SameRest(p: int, a: int, q: int, b: int, n: nat)
    requires p * n + a == q * n + b && 0 <= a < n && 0 <= b < n
    ensures a == b
  {
    assert (p - q) * n == b - a && (q - p) * n == a - b;
    if p > q { AtLeastOne(p - q, n); }
    if q > p { AtLeastOne(q - p, n); }
  }

  lemma ModIs(x: int, n: nat, q: int, m: int)
    requires n > 0 && x == q * n + m && 0 <= m < n
    ensures x % n == m
  {
    SameRest(x / n, x % n, q, m, n);
  }

  lemma DivIs(x: int, n: nat, q: int, m: int)
    requires n > 0 && x == q * n + m && 0 <= m < n
    ensures x % n == m && x / n == q
  {
    ModIs(x, n, q, m);
    var p := x / n;
    assert (p - q) * n == 0 && (q - p) * n == 0;
    if p > q { AtLeastOne(p - q, n); }
    if q > p { AtLeastOne(q - p, n); }
  }

  /** The position `d` places after `a`. */
  lemma {:induction false} Ahead(a: nat, d: nat, n: nat)
    requires d <= n && n > 0
    ensures (a + d) % n == if a % n + d < n then a % n + d else a % n + d - n
  {
    var q, m := a / n, a % n;
    assert a == q * n + m;
    if m + d < n {
      ModIs(a + d, n, q, m + d);
    } else if m + d < 2 * n {
      assert a + d == (q + 1) * n + (m + d - n);
      ModIs(a + d, n, q + 1, m + d - n);
    }
  }

  lemma NextIs(p: nat, n: nat)
    requires p < n
    ensures (p + 1) % n == if p + 1 < n then p + 1 else 0
  {
    ModIs(p + 1, n, if p + 1 < n then 0 else 1, if p + 1 < n then p + 1 else 0);
  }
}
