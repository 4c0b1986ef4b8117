/** Division and remainder by a positive divisor. */
module Arithmetic {
  lemma MulBound(d: int, m: int)
    requires d > 0
    ensures m >= 1 ==> d * m >= d
    ensures m <= -1 ==> d * m <= -d
  {
    if m >= 1 { assert d * m == d + d * (m - 1); }
    if m <= -1 { assert d * m == -d + d * (m + 1); }
  }

  lemma DivModUnique(x: int, d: int, q: int, r: int)
    requires d > 0 && x == d * q + r && 0 <= r < d
    ensures x / d == q && x % d == r
  {
    var q', r' := x / d, x % d;
    assert x == d * q' + r';
    assert d * (q - q') == d * q - d * q';
    MulBound(d, q - q');
  }

  lemma SameModApart(i: nat, j: nat, d: nat)
    requires d > 0 && i < j && i % d == j % d
    ensures j - i >= d
  {
    var m := j / d - i / d;
    assert j - i == d * m by { assert j == d * (j / d) + j % d && i == d * (i / d) + i % d; }
    MulBound(d, m);
  }

  /** Dividing twice is dividing by the product. */
  lemma DivDiv(n: nat, a: nat, b: nat)
    requires a > 0 && b > 0
    ensures a * b > 0 && n / a / b == n / (a * b)
  {
    var q, r := n / a, n % a;
    var q', r' := q / b, q % b;
    var low := a * r' + r;
    assert a * b > 0;
    assert n == a * b * q' + low by {
      assert n == a * q + r && q == b * q' + r';
      Distribute(a, b * q', r');
      Associate(a, b, q');
    }
    assert low < a * b by {
      Distribute(a, b, -1);
      Ordered(a, r', b - 1);
    }
    assert a * r' >= 0;
    DivModUnique(n, a * b, q', low);
  }

  lemma Distribute(a: int, b: int, c: int)
    ensures a * (b + c) == a * b + a * c
  {
  }

  lemma Associate(a: int, b: int, c: int)
    ensures a * (b * c) == a * b * c
  {
  }

  lemma Ordered(a: nat, b: int, c: int)
    requires b <= c
    ensures a * b <= a * c
  {
  }
}
