/** The ends of the ordered library containers: set, multiset and priority_queue. */
module Containers {
  ghost predicate IsMax(b: multiset<int>, m: int) {
    m in b && forall v :: v in b ==> v <= m
  }

  lemma {:induction false} MaxExists(b: multiset<int>)
    requires b != multiset{}
    ensures exists m :: IsMax(b, m)
    decreases |b|
  {
    assert (forall m :: m !in b) ==> b == multiset{};
    var m :| m in b;
    var rest := b - multiset{m};
    assert forall v :: v in b ==> v == m || v in rest;
    if rest == multiset{} {
      assert IsMax(b, m);
    } else {
      MaxExists(rest);
      var m' :| IsMax(rest, m');
      assert IsMax(b, if m' > m then m' else m);
    }
  }

  ghost predicate IsLeast(s: set<int>, l: int) {
    l in s && forall k :: k in s ==> l <= k
  }

  lemma {:induction false} LeastExists(s: set<int>)
    requires s != {}
    ensures exists l :: IsLeast(s, l)
    decreases |s|
  {
    assert (forall k :: k !in s) ==> s == {};
    var l :| l in s;
    var rest := s - {l};
    assert forall k :: k in s ==> k == l || k in rest;
    if rest == {} {
      assert IsLeast(s, l);
    } else {
      LeastExists(rest);
      var l' :| IsLeast(rest, l');
      assert IsLeast(s, if l' < l then l' else l);
    }
  }

  // The first element of an ordered set.
  method Least(s: set<int>) returns (l: int)
    requires s != {}
    ensures IsLeast(s, l)
  {
    LeastExists(s);
    l :| l in s && forall k :: k in s ==> l <= k;
  }

  // The first element greater than x, if there is one.
  method UpperBound(s: set<int>, x: int) returns (found: bool, l: int)
    ensures found ==> l in s && x < l && forall k :: k in s && x < k ==> l <= k
    ensures !found ==> forall k :: k in s ==> k <= x
  {
    var above := set k | k in s && x < k;
    assert forall k :: k in s && x < k ==> k in above;
    found, l := above != {}, 0;
    if found { l := Least(above); }
  }

  // The top of a priority queue, with the largest or with the smallest element first.
  method Largest(b: multiset<int>) returns (m: int)
    requires b != multiset{}
    ensures IsMax(b, m)
  {
    MaxExists(b);
    m :| m in b && forall v :: v in b ==> v <= m;
  }

  method Smallest(b: multiset<int>) returns (m: int)
    requires b != multiset{}
    ensures m in b && forall v :: v in b ==> m <= v
  {
    var s := set v | v in b;
    assert forall v :: v in b ==> v in s;
    assert (forall v :: v !in b) ==> b == multiset{};
    m := Least(s);
  }
}
