/** Divisibility, primes and least prime factors. */
module Primes {
  import opened Arithmetic

  ghost predicate Divides(d: int, n: int)
  {
    d != 0 && n % d == 0
  }

  lemma DividesIs(d: int, n: int) returns (k: int)
    requires 0 < d && Divides(d, n)
    ensures n == d * k && k == n / d
  {
    k := n / d;
  }

  lemma ProductDivides(d: int, k: int)
    requires 0 < d
    ensures Divides(d, d * k) && (d * k) / d == k
  {
    DivisionIsUnique(d, k, 0);
  }

  lemma DividesProduct(d: int, a: int, b: int)
    requires 0 < d && Divides(d, a)
    ensures Divides(d, a * b) && Divides(d, b * a)
  {
    var k := DividesIs(d, a);
    assert a * b == d * (k * b);
    ProductDivides(d, k * b);
  }

  lemma DividesTrans(c: int, d: int, n: int)
    requires 0 < c && 0 < d && Divides(c, d) && Divides(d, n)
    ensures Divides(c, n)
  {
    var k := DividesIs(d, n);
    DividesProduct(c, d, k);
  }

  lemma DividesSum(d: int, a: int, b: int)
    requires 0 < d && Divides(d, a) && Divides(d, b)
    ensures Divides(d, a - b)
  {
    var k := DividesIs(d, a);
    var l := DividesIs(d, b);
    assert a - b == d * (k - l);
    ProductDivides(d, k - l);
  }

  ghost predicate Prime(n: int) {
    2 <= n && forall d :: 2 <= d < n ==> !Divides(d, n)
  }

  ghost predicate Composite(n: int) { 2 <= n && !Prime(n) }

  // ---------- Euclid's lemma ----------

  // For a prime p and 0 < a < p, p divides a * b only if it divides b: go down from a to p mod a.
  lemma {:induction false} EuclidBelow(p: int, a: int, b: int)
    requires Prime(p) && 0 < a < p && Divides(p, a * b)
    ensures Divides(p, b)
    decreases a
  {
    if a == 1 {
      assert a * b == b;
    } else {
      var q, r := p / a, p % a;
      assert !Divides(a, p);
      assert p == q * a + r && r != 0;
      assert r * b == p * b - q * (a * b) by { assert (p - q * a) * b == p * b - q * (a * b); }
      ProductDivides(p, b);
      DividesProduct(p, a * b, q);
      DividesSum(p, p * b, q * (a * b));
      EuclidBelow(p, r, b);
    }
  }

  lemma Euclid(p: int, a: int, b: int)
    requires Prime(p) && Divides(p, a * b)
    ensures Divides(p, a) || Divides(p, b)
  {
    var q, r := a / p, a % p;
    assert a == p * q + r;
    if r != 0 {
      assert r * b == a * b - p * (q * b) by { assert (a - p * q) * b == a * b - p * (q * b); }
      ProductDivides(p, q * b);
      DividesSum(p, a * b, p * (q * b));
      EuclidBelow(p, r, b);
    }
  }

  // ---------- least prime factors ----------

  ghost function LeastFrom(n: int, d: int): (f: int)
    requires 2 <= d <= n && forall e :: 2 <= e < d ==> !Divides(e, n)
    ensures 2 <= f <= n && Divides(f, n)
    ensures forall e :: 2 <= e < f ==> !Divides(e, n)
    decreases n - d
  {
    if Divides(d, n) then d else LeastFrom(n, d + 1)
  }

  // The least divisor of n from 2 on.
  ghost function Lpf(n: int): (f: int)
    requires 2 <= n
    ensures 2 <= f <= n && Divides(f, n)
    ensures forall e :: 2 <= e < f ==> !Divides(e, n)
  {
    LeastFrom(n, 2)
  }

  lemma LpfIsPrime(n: int)
    requires 2 <= n
    ensures Prime(Lpf(n)) && (Prime(n) <==> Lpf(n) == n)
  {
    var f := Lpf(n);
    forall d | 2 <= d < f ensures !Divides(d, f) {
      if Divides(d, f) { DividesTrans(d, f, n); }
    }
  }

  lemma LpfLeast(n: int, d: int)
    requires 2 <= n && 2 <= d && Divides(d, n)
    ensures Lpf(n) <= d
  {
  }

  // A composite is its least prime factor times a cofactor that has no smaller prime factor.
  lemma Cofactor(n: int)
    requires Composite(n)
    ensures var f := Lpf(n); var i := n / f;
      2 <= i < n && n == f * i && Prime(f) && f <= Lpf(i) && f <= i
  {
    LpfIsPrime(n);
    var f := Lpf(n);
    var i := DividesIs(f, n);
    CofactorRange(f, i, n);
    ProductDivides(i, f);
    assert Divides(Lpf(i), i) && Divides(i, n);
    DividesTrans(Lpf(i), i, n);
    LpfLeast(n, Lpf(i));
  }

  lemma CofactorRange(f: int, i: int, n: int)
    requires 2 <= f < n && n == f * i
    ensures 2 <= i < n && n == i * f
  {
    assert i <= 0 ==> f * i <= 0;
    assert 0 <= i ==> f * i >= 2 * i;
  }

  // A prime p no larger than the least prime factor of i is the least prime factor of p * i.
  lemma LpfOfProduct(p: int, i: int)
    requires Prime(p) && 2 <= i && p <= Lpf(i)
    ensures 2 <= p * i && Lpf(p * i) == p && (p * i) / p == i && Composite(p * i)
  {
    var n := p * i;
    ProductRange(p, i);
    ProductDivides(p, i);
    assert Divides(p, n);
    LpfLeast(n, p);
    var f := Lpf(n);
    LpfIsPrime(n);
    assert Divides(f, n);
    LpfNotBelow(f, p, i, n);
  }

  lemma ProductRange(p: int, i: int)
    requires 2 <= p && 2 <= i
    ensures p < p * i && i < p * i && 4 <= p * i
  {
    assert p * i >= p * 2;
    assert p * i >= 2 * i;
  }

  lemma LpfNotBelow(f: int, p: int, i: int, n: int)
    requires Prime(p) && Prime(f) && 2 <= i && f <= p <= Lpf(i) && n == p * i && Divides(f, n)
    ensures f == p
  {
    Euclid(f, p, i);
    if Divides(f, i) { LpfLeast(i, f); }
  }
}
