/** The two sieves of utility/math/prime.hpp, with the bound MX as a parameter. */
module PrimeSieve {
  import opened Arithmetic
  import opened Primes

  // The primes below n in ascending order.
  ghost function PrimesBelow(n: int): seq<int> {
    if n <= 2 then [] else if Prime(n - 1) then PrimesBelow(n - 1) + [n - 1] else PrimesBelow(n - 1)
  }

  lemma {:induction false} PrimesBelowIs(n: int)
    ensures forall k :: 0 <= k < |PrimesBelow(n)| ==> Prime(PrimesBelow(n)[k]) && PrimesBelow(n)[k] < n
    ensures forall k, l :: 0 <= k < l < |PrimesBelow(n)| ==> PrimesBelow(n)[k] < PrimesBelow(n)[l]
    ensures forall p :: Prime(p) && p < n ==> p in PrimesBelow(n)
  {
    if n > 2 { PrimesBelowIs(n - 1); }
  }

  ghost function Cof(j: int): int
    requires 2 <= j
  {
    j / Lpf(j)
  }

  // A crossing (p, i) writes the place p * i; p is then its least prime factor.
  ghost predicate Crossing(p: int, i: int) {
    Prime(p) && 2 <= i && p <= Lpf(i)
  }

  // The crossings with factors below i, and those of i with the listed primes.
  ghost predicate Due(p: int, i': int, i: int, listed: seq<int>) {
    Crossing(p, i') && (i' < i || (i' == i && p in listed))
  }

  ghost predicate LogIs(log: seq<(int, int)>, mx: int, i: int, listed: seq<int>) {
    && (forall p, i' {:trigger (p, i') in log} {:trigger Due(p, i', i, listed)} ::
          (p, i') in log <==> Due(p, i', i, listed) && p * i' < mx)
    && (forall p, i' {:trigger Due(p, i', i, listed)} :: Due(p, i', i, listed) ==> p * i' != mx)
    && (forall k, l :: 0 <= k < l < |log| ==> log[k] != log[l])
  }

  ghost predicate Marks(a: seq<int>, log: seq<(int, int)>) {
    && (forall j :: 0 <= j < |a| && j < 2 ==> a[j] == 1)
    && (forall j :: 2 <= j < |a| ==> a[j] == if Composite(j) && (Lpf(j), Cof(j)) in log then 0 else 1)
  }

  // is_prime and primes as both sieves must leave them.
  ghost predicate Sifted(a: seq<int>, primes: seq<int>) {
    && primes == PrimesBelow(|a|)
    && forall j :: 0 <= j < |a| ==> a[j] == if Composite(j) then 0 else 1
  }

  lemma ExtendPrimes(i: int)
    requires 2 <= i
    ensures PrimesBelow(i + 1) == if Prime(i) then PrimesBelow(i) + [i] else PrimesBelow(i)
  {
  }

  lemma Start(a: seq<int>)
    requires forall j :: 0 <= j < |a| ==> a[j] == 1
    ensures LogIs([], |a|, 2, []) && Marks(a, []) && PrimesBelow(2) == []
    ensures |a| < 2 ==> PrimesBelow(|a|) == []
  {
  }

  // At i, its own mark is already right.
  lemma OwnMark(a: seq<int>, log: seq<(int, int)>, mx: int, i: int)
    requires 2 <= i < mx == |a| && LogIs(log, mx, i, []) && Marks(a, log)
    ensures a[i] == if Prime(i) then 1 else 0
  {
    if Composite(i) {
      Cofactor(i);
      assert Due(Lpf(i), Cof(i), i, []);
    }
  }

  lemma InPrefix(s: seq<int>, u: nat, t: nat)
    requires u < |s| && t <= |s|
    ensures u < t ==> s[u] in s[..t]
  {
    if u < t { assert s[..t][u] == s[u]; }
  }

  // While no listed prime divides i, the next one is at most the least prime factor of i.
  lemma NextIsSmall(i: int, s: seq<int>, t: nat)
    requires 2 <= i && s == PrimesBelow(i + 1) && t < |s|
    requires forall q :: q in s[..t] ==> !Divides(q, i)
    ensures Crossing(s[t], i) && 2 <= s[t] && s[t] !in s[..t] && s[..t + 1] == s[..t] + [s[t]]
  {
    LpfIsPrime(i);
    PrimesBelowIs(i + 1);
    var u :| 0 <= u < |s| && s[u] == Lpf(i);
    assert Divides(s[u], i);
    InPrefix(s, u, t);
  }

  lemma CrossOne(a: seq<int>, log: seq<(int, int)>, mx: int, i: int, listed: seq<int>, p: int)
    requires Crossing(p, i) && p !in listed && p * i < mx == |a|
    requires LogIs(log, mx, i, listed) && Marks(a, log)
    ensures 0 <= p * i && LogIs(log + [(p, i)], mx, i, listed + [p])
    ensures Marks(a[p * i := 0], log + [(p, i)])
  {
    LpfOfProduct(p, i);
    CrossLog(log, mx, i, listed, p);
    CrossMarks(a, log, p, i);
  }

  lemma CrossMarks(a: seq<int>, log: seq<(int, int)>, p: int, i: int)
    requires 2 <= p * i < |a| && Lpf(p * i) == p && Cof(p * i) == i && Composite(p * i) && Marks(a, log)
    ensures Marks(a[p * i := 0], log + [(p, i)])
  {
    forall j | 2 <= j < |a| && Composite(j) && (Lpf(j), Cof(j)) == (p, i) ensures j == p * i { Cofactor(j); }
  }

  lemma CrossLog(log: seq<(int, int)>, mx: int, i: int, listed: seq<int>, p: int)
    requires Crossing(p, i) && p !in listed && p * i < mx && LogIs(log, mx, i, listed)
    ensures LogIs(log + [(p, i)], mx, i, listed + [p])
  {
    var log' := log + [(p, i)];
    assert !Due(p, i, i, listed);
    forall q, i' ensures (q, i') in log' <==> Due(q, i', i, listed + [p]) && q * i' < mx {
      assert (q, i') in log' <==> (q, i') in log || (q, i') == (p, i);
      assert Due(q, i', i, listed + [p]) <==> Due(q, i', i, listed) || (q, i') == (p, i);
    }
    forall q, i' | Due(q, i', i, listed + [p]) ensures q * i' != mx {
      assert Due(q, i', i, listed) || (q, i') == (p, i);
    }
  }

  // The row of i is complete once every small enough prime has had its turn.
  lemma RowDone(log: seq<(int, int)>, mx: int, i: int, listed: seq<int>)
    requires 2 <= i && LogIs(log, mx, i, listed)
    requires forall p :: Prime(p) && p <= Lpf(i) && p * i <= mx ==> p in listed
    ensures LogIs(log, mx, i + 1, [])
  {
    forall p, i' | p * i' <= mx ensures Due(p, i', i + 1, []) <==> Due(p, i', i, listed) {}
    forall p, i' ensures (p, i') in log <==> Due(p, i', i + 1, []) && p * i' < mx {
      if p * i' <= mx { assert Due(p, i', i + 1, []) <==> Due(p, i', i, listed); }
    }
    forall p, i' | Due(p, i', i + 1, []) ensures p * i' != mx {
      if p * i' <= mx { assert Due(p, i', i, listed); }
    }
  }

  // The three ways a row can end: at a prime too big, after the least prime factor of i, at the end of the list.
  lemma RowEnds(mx: int, i: int, s: seq<int>, t: nat)
    requires 2 <= i && s == PrimesBelow(i + 1) && t <= |s|
    requires (t < |s| && mx < s[t] * i) || (0 < t && Divides(s[t - 1], i)) || t == |s|
    ensures forall p :: Prime(p) && p <= Lpf(i) && p * i <= mx ==> p in s[..t]
  {
    PrimesBelowIs(i + 1);
    forall p | Prime(p) && p <= Lpf(i) && p * i <= mx ensures p in s[..t] {
      var u :| 0 <= u < |s| && s[u] == p;
      if t <= u && mx < s[t] * i { MulAtMost(s[t], p, i); }
      InPrefix(s, u, t);
    }
  }

  // After the last row the marks are exactly the composites, or the bound itself was written.
  lemma AllDone(a: seq<int>, log: seq<(int, int)>, mx: int)
    requires mx == |a| && LogIs(log, mx, if mx < 2 then 2 else mx, []) && Marks(a, log)
    ensures !Composite(mx) && forall j :: 0 <= j < |a| ==> a[j] == if Composite(j) then 0 else 1
    ensures forall j :: Composite(j) && j < mx ==> j in Places(log)
  {
    if Composite(mx) {
      Cofactor(mx);
      assert Due(Lpf(mx), Cof(mx), mx, []);
    }
    forall j | Composite(j) && j < mx ensures j in Places(log) && (Lpf(j), Cof(j)) in log {
      Cofactor(j);
      assert Due(Lpf(j), Cof(j), mx, []);
      var k :| 0 <= k < |log| && log[k] == (Lpf(j), Cof(j));
      assert Places(log)[k] == j;
    }
  }

  // Writing the place p * i == mx means that mx is composite.
  lemma OutOfRange(p: int, i: int)
    requires Prime(p) && 2 <= i && p <= Lpf(i)
    ensures Composite(p * i)
  {
    LpfOfProduct(p, i);
  }

  // ---------- no place is written twice, so the work is linear ----------

  lemma {:induction false} DistinctBelow(s: seq<int>, m: nat)
    requires forall k :: 0 <= k < |s| ==> 0 <= s[k] < m
    requires forall k, l :: 0 <= k < l < |s| ==> s[k] != s[l]
    ensures |s| <= m
  {
    if s != [] {
      var x := s[0];
      if k :| 0 <= k < |s| && s[k] == m - 1 {
        DistinctBelow(s[..k] + s[k + 1..], m - 1);
      } else {
        DistinctBelow(s, m - 1);
      }
    }
  }

  ghost function Places(log: seq<(int, int)>): (s: seq<int>)
    ensures |s| == |log| && forall k :: 0 <= k < |s| ==> s[k] == log[k].0 * log[k].1
  {
    seq(|log|, k requires 0 <= k < |log| => log[k].0 * log[k].1)
  }

  // Every crossing writes a place below mx that no other crossing writes.
  lemma OncePerPlace(log: seq<(int, int)>, mx: int, i: int, listed: seq<int>)
    requires LogIs(log, mx, i, listed) && 0 <= mx
    ensures forall k :: 0 <= k < |log| ==>
      Prime(log[k].0) && Composite(Places(log)[k]) && Places(log)[k] < mx && log[k].0 == Lpf(Places(log)[k])
    ensures forall k, l :: 0 <= k < l < |log| ==> Places(log)[k] != Places(log)[l]
    ensures |log| <= mx
  {
    forall k | 0 <= k < |log|
      ensures Crossing(log[k].0, log[k].1) && Composite(Places(log)[k]) && Places(log)[k] < mx
      ensures log[k].0 == Lpf(Places(log)[k]) && log[k].1 == Cof(Places(log)[k])
    {
      assert (log[k].0, log[k].1) in log;
      LpfOfProduct(log[k].0, log[k].1);
    }
    DistinctBelow(Places(log), mx);
  }

  // ---------- the sieve of Eratosthenes ----------

  // Struck out: the multiples of some prime below i, from its square on.
  ghost predicate StruckBy(j: int, i: int) {
    exists p :: 2 <= p < i && Prime(p) && Divides(p, j) && p * p <= j
  }

  ghost predicate Struck(a: seq<int>, i: int) {
    forall j :: 0 <= j < |a| ==> a[j] == if StruckBy(j, i) then 0 else 1
  }

  // In the middle of i's row: also the multiples i * i .. i * (k - 1).
  ghost predicate Striking(a: seq<int>, i: int, k: int) {
    forall j :: 0 <= j < |a| ==> a[j] == if StruckBy(j, i) || (Divides(i, j) && i * i <= j < i * k) then 0 else 1
  }

  lemma EratosStart(a: seq<int>)
    requires forall j :: 0 <= j < |a| ==> a[j] == 1
    ensures Struck(a, 2) && PrimesBelow(2) == [] && (|a| < 2 ==> PrimesBelow(|a|) == [])
  {
  }

  // A composite j is struck out by its least prime factor, and nothing else is ever struck out.
  lemma StruckIffComposite(j: int, i: int)
    requires 0 <= j <= i && 2 <= i
    ensures StruckBy(j, i) <==> Composite(j)
  {
    if Composite(j) {
      Cofactor(j);
      var f := Lpf(j);
      MulAtMost(f, j / f, f);
      assert StruckBy(j, i);
    }
    if StruckBy(j, i) {
      var p :| 2 <= p < i && Prime(p) && Divides(p, j) && p * p <= j;
      Square(p, 0);
      assert p < j && j % p == 0;
    }
  }

  lemma Square(i: int, e: int)
    requires 2 <= i && 0 <= e
    ensures i < i * i && 4 <= i * i && i * i <= i * (i + e) && i * (i + e + 1) == i * (i + e) + i
  {
    MulAtMost(2, i, i);
    MulAtMost(i, i + e, i);
  }

  lemma StruckOwn(a: seq<int>, i: int)
    requires 2 <= i < |a| && Struck(a, i)
    ensures a[i] != 0 <==> Prime(i)
  {
    StruckIffComposite(i, i);
  }

  lemma StrikeOne(a: seq<int>, i: int, k: int)
    requires 2 <= i <= k && 0 <= i * k < |a| && i * i <= i * k && Striking(a, i, k)
    ensures Striking(a[i * k := 0], i, k + 1)
  {
    ProductDivides(i, k);
    forall j | 0 <= j < |a| && Divides(i, j) && i * k <= j < i * (k + 1) ensures j == i * k {
      var m := DividesIs(i, j);
      assert i * (m - k) == j - i * k;
      SmallMultiple(i, m - k, j - i * k);
    }
    assert i * k < i * (k + 1);
  }

  lemma StrikeDone(a: seq<int>, i: int, k: int)
    requires Prime(i) && |a| <= i * k && Striking(a, i, k)
    ensures Struck(a, i + 1)
  {
    forall j | 0 <= j < |a| ensures StruckBy(j, i + 1) <==> StruckBy(j, i) || (Divides(i, j) && i * i <= j) {
      if StruckBy(j, i + 1) {
        var p :| 2 <= p < i + 1 && Prime(p) && Divides(p, j) && p * p <= j;
      }
    }
  }

  lemma StruckComposite(a: seq<int>, i: int)
    requires 2 <= i && !Prime(i) && Struck(a, i)
    ensures Struck(a, i + 1)
  {
    forall j | 0 <= j < |a| ensures StruckBy(j, i + 1) <==> StruckBy(j, i) {
      if StruckBy(j, i + 1) {
        var p :| 2 <= p < i + 1 && Prime(p) && Divides(p, j) && p * p <= j;
      }
    }
  }

  lemma EratosEnd(a: seq<int>, i: int)
    requires 2 <= i && |a| <= i && Struck(a, i)
    ensures forall j :: 0 <= j < |a| ==> a[j] == if Composite(j) then 0 else 1
  {
    forall j | 0 <= j < |a| ensures StruckBy(j, i) <==> Composite(j) { StruckIffComposite(j, i); }
  }

  class Sieve {
    const mx: nat
    var isPrime: array<int>
    var primes: seq<int>

    // As the sieves start: every place marked, and no prime listed.
    ghost predicate Fresh()
      reads this, isPrime
    {
      isPrime.Length == mx && primes == [] && forall j :: 0 <= j < mx ==> isPrime[j] == 1
    }

    constructor (mx: nat)
      ensures this.mx == mx && Fresh() && fresh(isPrime)
    {
      this.mx := mx;
      isPrime := new int[mx](_ => 1);
      primes := [];
    }

    // The linear sieve.  It tests p * i > MX before it writes is_prime[p * i], so it writes one past
    // the end exactly if MX is composite; then inRange is false.  log has the writes in order.
    method Euler() returns (inRange: bool, ghost log: seq<(int, int)>, ghost steps: nat)
      requires Fresh()
      modifies this`primes, isPrime
      ensures inRange <==> !Composite(mx)
      ensures inRange ==> Sifted(isPrime[..], primes)
      ensures forall k :: 0 <= k < |log| ==>
        Prime(log[k].0) && Composite(Places(log)[k]) && Places(log)[k] < mx && log[k].0 == Lpf(Places(log)[k])
      ensures forall k, l :: 0 <= k < l < |log| ==> Places(log)[k] != Places(log)[l]
      ensures inRange ==> forall j :: Composite(j) && j < mx ==> j in Places(log)
      ensures steps <= 2 * mx
    {
      hide LogIs, Marks, PrimesBelow, Prime, Lpf;
      log, steps := [], 0;
      var i := 2;
      Start(isPrime[..]);
      while i < mx
        invariant 2 <= i && (i <= mx || i == 2)
        invariant LogIs(log, mx, i, []) && Marks(isPrime[..], log)
        invariant primes == PrimesBelow(i)
        invariant steps <= |log| + i - 2
      {
        OwnMark(isPrime[..], log, mx, i);
        ExtendPrimes(i);
        if isPrime[i] != 0 {
          primes := primes + [i];
        }
        ghost var listed;
        inRange, log, steps, listed := EulerRow(i, log, steps);
        if !inRange {
          OncePerPlace(log, mx, i, listed);
          return;
        }
        i := i + 1;
      }
      OncePerPlace(log, mx, i, []);
      AllDone(isPrime[..], log, mx);
      inRange := true;
    }

    // The inner loop over the primes found so far.
    method EulerRow(i: int, ghost log0: seq<(int, int)>, ghost steps0: nat)
      returns (inRange: bool, ghost log: seq<(int, int)>, ghost steps: nat, ghost listed: seq<int>)
      requires 2 <= i < mx == isPrime.Length && primes == PrimesBelow(i + 1)
      requires LogIs(log0, mx, i, []) && Marks(isPrime[..], log0)
      modifies isPrime
      ensures Marks(isPrime[..], log) && steps <= steps0 + |log| - |log0| + 1
      ensures inRange ==> LogIs(log, mx, i + 1, [])
      ensures !inRange ==> Composite(mx) && LogIs(log, mx, i, listed)
    {
      hide LogIs, Marks, PrimesBelow, Prime, Lpf;
      log, steps := log0, steps0;
      var s := primes;
      var t := 0;
      assert s[..0] == [];
      while t < |s|
        invariant t <= |s| && |log0| <= |log|
        invariant LogIs(log, mx, i, s[..t]) && Marks(isPrime[..], log)
        invariant forall q :: q in s[..t] ==> !Divides(q, i)
        invariant steps <= steps0 + |log| - |log0|
      {
        var p := s[t];
        NextIsSmall(i, s, t);
        steps := steps + 1;
        if p * i > mx {
          break;
        }
        if p * i == mx {
          OutOfRange(p, i);
          return false, log, steps, s[..t];
        }
        CrossOne(isPrime[..], log, mx, i, s[..t], p);
        isPrime[p * i] := 0;
        log := log + [(p, i)];
        t := t + 1;
        if i % p == 0 {
          break;
        }
      }
      RowEnds(mx, i, s, t);
      RowDone(log, mx, i, s[..t]);
      inRange, listed := true, [];
    }

    // The sieve of Eratosthenes.
    method Eratosthenes()
      requires Fresh()
      modifies this`primes, isPrime
      ensures Sifted(isPrime[..], primes)
    {
      hide Prime, Lpf, Composite, PrimesBelow;
      var i := 2;
      EratosStart(isPrime[..]);
      while i < mx
        invariant 2 <= i && (i <= mx || i == 2)
        invariant Struck(isPrime[..], i)
        invariant primes == PrimesBelow(i)
      {
        StruckOwn(isPrime[..], i);
        ExtendPrimes(i);
        if isPrime[i] != 0 {
          primes := primes + [i];
          var j := i * i;
          Square(i, 0);
          ghost var k := i;
          while j < mx
            invariant i <= k && j == i * k
            invariant Striking(isPrime[..], i, k) && primes == PrimesBelow(i + 1)
            decreases mx - j
          {
            Square(i, k - i);
            StrikeOne(isPrime[..], i, k);
            isPrime[j] := 0;
            j := j + i;
            k := k + 1;
          }
          StrikeDone(isPrime[..], i, k);
        } else {
          StruckComposite(isPrime[..], i);
        }
        i := i + 1;
      }
      EratosEnd(isPrime[..], i);
    }
  }

  // The linear sieve with the bound 4 writes past the end: 2 * 2 is not greater than the bound.
  method BoundFour() returns (inRange: bool)
    ensures !inRange
  {
    var sieve := new Sieve(4);
    ghost var log, steps;
    inRange, log, steps := sieve.Euler();
    assert Divides(2, 4);
  }
}
