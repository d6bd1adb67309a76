/** Division with remainder on unbounded integers. */
module Modular {
  /** Quotient and remainder are unique. */
  lemma {:induction false} Euclid(m: int, x: int, q: int, r: int)
    requires m > 0 && x == q * m + r && 0 <= r < m
    ensures x % m == r && x / m == q
  {
    var d, s := x / m, x % m;
    assert x == d * m + s;
    var k := d - q;
    assert k * m == r - s;
    if k != 0 {
      Multiples(m, k);
      assert false;
    }
  }

  lemma {:induction false} Multiples(m: int, k: int)
    requires m > 0 && k != 0
    ensures k * m >= m || k * m <= -m
  {
    if k > 0 {
      MulLe(1, k, m);
    } else {
      MulLe(k, -1, m);
    }
  }

  lemma {:induction false} MulLe(a: int, b: int, c: int)
    requires a <= b && c >= 0
    ensures a * c <= b * c
  {
    var d := b - a;
    assert d * c >= 0;
    assert b * c == a * c + d * c;
  }

  lemma {:induction false} ModAdd(m: int, x: int, k: int)
    requires m > 0
    ensures (x + k * m) % m == x % m
  {
    var d := x / m;
    assert x + k * m == (d + k) * m + x % m;
    Euclid(m, x + k * m, d + k, x % m);
  }
}
