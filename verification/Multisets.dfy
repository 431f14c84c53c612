/** Rearranging and cancelling in sums of multisets. */
module Multisets {
  lemma AddNothing<T>(a: multiset<T>)
    ensures a + multiset{} == a
  {
  }

  lemma Associate<T>(a: multiset<T>, b: multiset<T>, c: multiset<T>)
    ensures (a + b) + c == a + (b + c)
  {
  }

  lemma SwapLast<T>(a: multiset<T>, x: multiset<T>, y: multiset<T>)
    ensures (a + x) + y == (a + y) + x
  {
  }

  lemma Regroup<T>(h: multiset<T>, a: multiset<T>, x: multiset<T>, b: multiset<T>, y: multiset<T>)
    requires a + x == b + y
    ensures (h + a) + x == (h + b) + y && (a + h) + x == (b + h) + y
  {
    assert (h + a) + x == h + (a + x) && (a + h) + x == (a + x) + h;
  }

  lemma AddTakeOne<T>(a: multiset<T>, v: T)
    ensures (a + multiset{v}) - multiset{v} == a
  {
  }

  lemma CancelLast<T>(a: multiset<T>, b: multiset<T>, x: multiset<T>)
    requires a + x == b + x
    ensures a == b
  {
    forall v ensures a[v] == b[v] { assert (a + x)[v] == a[v] + x[v] && (b + x)[v] == b[v] + x[v]; }
    assert a == b;
  }

  lemma Cancel<T>(a: multiset<T>, x: multiset<T>, y: multiset<T>, b: multiset<T>)
    requires a + x + b == a + y + b
    ensures x == y
  {
    forall v ensures x[v] == y[v] {
      assert (a + x + b)[v] == a[v] + x[v] + b[v] && (a + y + b)[v] == a[v] + y[v] + b[v];
    }
    assert x == y;
  }
}
