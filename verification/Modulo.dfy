/** Facts about division that several models need. */
module Modulo {

  /** A number has one quotient and one remainder. */
  lemma QuotientUnique(k: int, n: nat, q: int, r: nat)
    requires n > 0 && r < n && k == q * n + r
    ensures k % n == r && k / n == q
  {
    var d := k / n - q;
    assert d * n == r - k % n by {
      assert k == k / n * n + k % n;
    }
    assert d >= 1 ==> d * n >= n;
    assert d <= -1 ==> d * n + n <= 0;
  }

  lemma DivDiv(x: nat, a: nat, b: nat)
    requires a > 0 && b > 0
    ensures a * b > 0 && x / a / b == x / (a * b)
  {
    var q, r := x / a, x % a;
    var t, u := q / b, q % b;
    assert a * b > 0;
    assert x == t * (a * b) + (u * a + r) by {
      assert x == q * a + r;
      assert q == t * b + u;
      assert t * b * a == t * (a * b);
      assert (t * b + u) * a == t * b * a + u * a;
    }
    assert u * a + r < a * b by {
      assert u + 1 <= b;
      assert (u + 1) * a <= b * a;
    }
    QuotientUnique(x, a * b, t, u * a + r);
  }

  lemma DivBelow(x: nat, a: nat, b: nat)
    requires a > 0 && x < a * b
    ensures x / a < b
  {
    var t := x / a;
    assert x == t * a + x % a;
    assert t >= b ==> t * a >= b * a;
  }

  lemma SameQuotient(x: nat, y: nat, a: nat)
    requires a > 0 && x / a == y / a && x % a == y % a
    ensures x == y
  {
    assert x == x / a * a + x % a && y == y / a * a + y % a;
  }

  lemma DivMod(x: int, n: nat)
    requires n > 0
    ensures x == x / n * n + x % n
  {
  }

  /** Whole turns from one number to another of the same remainder. */
  lemma Turns(x: nat, y: nat, n: nat) returns (k: nat)
    requires n > 0 && x <= y && x % n == y % n
    ensures y == x + n * k
  {
    DivMod(x, n);
    DivMod(y, n);
    var d := y / n - x / n;
    assert d * n == y - x;
    assert d < 0 ==> d * n < 0;
    k := d;
  }

  /** A whole turn does not change the remainder. */
  lemma ModShift(x: nat, n: nat)
    requires n > 0
    ensures (x + n) % n == x % n
  {
    var q, r := x / n, x % n;
    DivMod(x, n);
    assert (q + 1) * n == q * n + n;
    QuotientUnique(x + n, n, q + 1, r);
  }
}
