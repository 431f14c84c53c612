/** Multiplication and division of variables: monotonicity, and when a quotient and a remainder are the
    ones Euclidean division gives. */
module Arithmetic {
  // A remainder is determined by being in range and differing from n by a multiple of d.
  lemma DivisionIsUnique(d: int, q: int, r: int)
    requires 0 <= r < d
    ensures (d * q + r) / d == q && (d * q + r) % d == r
  {
    var n := d * q + r;
    var q', r' := n / d, n % d;
    assert n == d * q' + r';
    SmallMultiple(d, q' - q, r - r');
  }

  lemma SmallMultiple(d: int, k: int, m: int)
    requires d * k == m && -d < m < d
    ensures k == 0 && m == 0
  {
    assert 0 < k ==> d * k >= d;
    assert k < 0 ==> d * k <= -d;
  }

  // Stepping on by at most one period.
  lemma ModOffset(n: nat, d: nat, c: nat)
    requires 0 < c && d <= c
    ensures (n + d) % c == if n % c + d < c then n % c + d else n % c + d - c
  {
    var q, r := n / c, n % c;
    assert n == c * q + r;
    if r + d < c {
      DivisionIsUnique(c, q, r + d);
    } else {
      assert n + d == c * (q + 1) + (r + d - c);
      DivisionIsUnique(c, q + 1, r + d - c);
    }
  }

  lemma MulAtMost(x: int, y: int, c: int)
    requires x <= y && 0 <= c
    ensures x * c <= y * c && c * x <= c * y
  {
    assert y * c == x * c + (y - x) * c;
  }

  lemma MulLess(x: int, y: int, c: int)
    requires x < y && 0 < c
    ensures x * c < y * c
  {
    assert y * c == x * c + (y - x) * c;
  }
}
