/** Union-find with path compression and union by rank (algo/union_find_v2.hpp). */
module UnionFind {
  import opened Power

  // ---------- the forest that parent_ and rank_ spell out ----------

  // Ranks lie between 1 and n and grow strictly along every parent link.
  ghost predicate Forest(p: seq<int>, r: seq<int>) {
    && |p| == |r|
    && forall i {:trigger p[i]} :: 0 <= i < |p| ==>
      0 <= p[i] < |p| && 1 <= r[i] <= |p| && (p[i] != i ==> r[i] < r[p[i]])
  }

  ghost function Root(p: seq<int>, r: seq<int>, x: int): (root: int)
    requires Forest(p, r) && 0 <= x < |p|
    ensures 0 <= root < |p| && p[root] == root && 1 <= r[x] <= r[root]
    decreases |p| - r[x]
  {
    if p[x] == x then x else Root(p, r, p[x])
  }

  // The elements whose root is x.
  ghost function Class(p: seq<int>, r: seq<int>, x: int): set<int>
    requires Forest(p, r)
  {
    set y | 0 <= y < |p| && Root(p, r, y) == x
  }

  // A root of rank k stands for at least 2^(k-1) elements.
  ghost predicate Heavy(p: seq<int>, r: seq<int>)
    requires Forest(p, r)
  {
    forall x {:trigger Class(p, r, x)} :: 0 <= x < |p| && p[x] == x ==> Pow2(r[x] - 1) <= |Class(p, r, x)|
  }

  ghost predicate SameRoots(p: seq<int>, p': seq<int>, r: seq<int>)
    requires Forest(p, r) && Forest(p', r)
  {
    forall y {:trigger Root(p, r, y)} {:trigger Root(p', r, y)} :: 0 <= y < |p| ==> Root(p', r, y) == Root(p, r, y)
  }

  // ---------- path compression ----------

  lemma Compressed(p: seq<int>, r: seq<int>, x: int)
    requires Forest(p, r) && 0 <= x < |p|
    ensures Forest(p[x := Root(p, r, x)], r) && SameRoots(p, p[x := Root(p, r, x)], r)
  {
    var p' := p[x := Root(p, r, x)];
    CompressedForest(p, r, x);
    forall y | 0 <= y < |p| ensures Root(p', r, y) == Root(p, r, y) { CompressedRoot(p, r, x, y); }
  }

  lemma CompressedForest(p: seq<int>, r: seq<int>, x: int)
    requires Forest(p, r) && 0 <= x < |p|
    ensures Forest(p[x := Root(p, r, x)], r)
  {
    var p' := p[x := Root(p, r, x)];
    if p[x] != x { assert r[x] < r[p[x]] <= r[Root(p, r, x)]; }
    forall i | 0 <= i < |p|
      ensures 0 <= p'[i] < |p| && 1 <= r[i] <= |p| && (p'[i] != i ==> r[i] < r[p'[i]])
    {
      assert 0 <= p[i] < |p|;
    }
  }

  lemma {:induction false} CompressedRoot(p: seq<int>, r: seq<int>, x: int, y: int)
    requires Forest(p, r) && 0 <= x < |p| && 0 <= y < |p| && Forest(p[x := Root(p, r, x)], r)
    ensures Root(p[x := Root(p, r, x)], r, y) == Root(p, r, y)
    decreases |p| - r[y]
  {
    if p[y] != y && y != x { CompressedRoot(p, r, x, p[y]); }
  }

  lemma SameRootsTrans(p: seq<int>, p': seq<int>, p'': seq<int>, r: seq<int>)
    requires Forest(p, r) && Forest(p', r) && Forest(p'', r) && SameRoots(p, p', r) && SameRoots(p', p'', r)
    ensures SameRoots(p, p'', r)
  {
    forall y | 0 <= y < |p| ensures Root(p'', r, y) == Root(p, r, y) { assert Root(p', r, y) == Root(p, r, y); }
  }

  lemma HeavySame(p: seq<int>, p': seq<int>, r: seq<int>)
    requires Forest(p, r) && Forest(p', r) && SameRoots(p, p', r) && Heavy(p, r)
    ensures Heavy(p', r)
  {
    forall x | 0 <= x < |p| && p'[x] == x ensures Pow2(r[x] - 1) <= |Class(p', r, x)| {
      assert Root(p', r, x) == Root(p, r, x);
      assert Class(p', r, x) == Class(p, r, x);
    }
  }

  // The elements from x up to its root.
  ghost function Path(p: seq<int>, r: seq<int>, x: int): set<int>
    requires Forest(p, r) && 0 <= x < |p|
    decreases |p| - r[x]
  {
    if p[x] == x then {x} else {x} + Path(p, r, p[x])
  }

  // Exactly the elements from x up to its root now point to the root.
  ghost predicate Flattened(p: seq<int>, p': seq<int>, r: seq<int>, x: int)
    requires Forest(p, r) && 0 <= x < |p|
  {
    && |p'| == |p|
    && forall y {:trigger p'[y]} :: 0 <= y < |p| ==> p'[y] == if y in Path(p, r, x) then Root(p, r, x) else p[y]
  }

  // ---------- linking two roots ----------

  ghost predicate Linkable(p: seq<int>, r: seq<int>, c: int, d: int) {
    && Forest(p, r) && Heavy(p, r)
    && 0 <= c < |p| && 0 <= d < |p| && c != d && p[c] == c && p[d] == d && r[c] <= r[d]
  }

  // The rank of d goes up if both roots had the same rank.
  ghost function Ranked(r: seq<int>, c: int, d: int): seq<int>
    requires 0 <= c < |r| && 0 <= d < |r|
  {
    if r[c] == r[d] then r[d := r[d] + 1] else r
  }

  lemma LinkedForest(p: seq<int>, r: seq<int>, c: int, d: int)
    requires Linkable(p, r, c, d)
    ensures Forest(p[c := d], Ranked(r, c, d))
    ensures r[c] == r[d] ==> Pow2(r[d]) <= |Class(p, r, c) + Class(p, r, d)| <= |p|
  {
    var cs, ds := Class(p, r, c), Class(p, r, d);
    assert cs !! ds;
    assert |cs + ds| == |cs| + |ds|;
    InRange(cs + ds, |p|);
    if r[c] == r[d] {
      assert Pow2(r[d]) <= |p|;
      PowAbove(r[d]);
    }
    var p', r' := p[c := d], Ranked(r, c, d);
    forall i | 0 <= i < |p'| ensures 0 <= p'[i] < |p| && 1 <= r'[i] <= |p| && (p'[i] != i ==> r'[i] < r'[p'[i]]) {
      assert 0 <= p[i] < |p|;
    }
  }

  lemma {:induction false} PowAbove(k: nat)
    ensures k < Pow2(k)
  {
    if k > 0 { PowAbove(k - 1); }
  }

  lemma {:induction false} InRange(s: set<int>, n: nat)
    requires forall x :: x in s ==> 0 <= x < n
    ensures |s| <= n
    decreases n
  {
    if n == 0 {
      assert forall x :: x !in s;
      assert s == {};
    } else {
      InRange(s - {n - 1}, n - 1);
    }
  }

  lemma {:induction false} LinkedRoot(p: seq<int>, r: seq<int>, c: int, d: int, y: int)
    requires Linkable(p, r, c, d) && 0 <= y < |p| && Forest(p[c := d], Ranked(r, c, d))
    ensures Root(p[c := d], Ranked(r, c, d), y) == if Root(p, r, y) == c then d else Root(p, r, y)
    decreases |p| - r[y]
  {
    if p[y] == y {
      if y == c { assert Root(p[c := d], Ranked(r, c, d), d) == d; }
    } else {
      LinkedRoot(p, r, c, d, p[y]);
    }
  }

  lemma LinkedClass(p: seq<int>, r: seq<int>, c: int, d: int, x: int)
    requires Linkable(p, r, c, d) && Forest(p[c := d], Ranked(r, c, d)) && 0 <= x < |p| && x != c
    ensures Class(p[c := d], Ranked(r, c, d), x) ==
      if x == d then Class(p, r, c) + Class(p, r, d) else Class(p, r, x)
  {
    forall y | 0 <= y < |p| { LinkedRoot(p, r, c, d, y); }
  }

  lemma LinkedHeavyAt(p: seq<int>, r: seq<int>, c: int, d: int, x: int)
    requires Linkable(p, r, c, d) && Forest(p[c := d], Ranked(r, c, d)) && 0 <= x < |p| && p[c := d][x] == x
    ensures Pow2(Ranked(r, c, d)[x] - 1) <= |Class(p[c := d], Ranked(r, c, d), x)|
  {
    LinkedForest(p, r, c, d);
    LinkedClass(p, r, c, d, x);
    hide Forest, Class, Pow2;
    if x == d {
      assert Pow2(r[d] - 1) <= |Class(p, r, d)|;
      Grows(Class(p, r, c), Class(p, r, d));
    }
  }

  lemma LinkedHeavy(p: seq<int>, r: seq<int>, c: int, d: int)
    requires Linkable(p, r, c, d) && Forest(p[c := d], Ranked(r, c, d))
    ensures Heavy(p[c := d], Ranked(r, c, d))
  {
    hide Class, Pow2;
    forall x | 0 <= x < |p| && p[c := d][x] == x
      ensures Pow2(Ranked(r, c, d)[x] - 1) <= |Class(p[c := d], Ranked(r, c, d), x)|
    {
      LinkedHeavyAt(p, r, c, d, x);
    }
  }

  lemma {:induction false} Grows(a: set<int>, b: set<int>)
    ensures |b| <= |a + b|
  {
    assert a + b == (a - b) + b;
  }

  // ---------- the equivalence closure of the united pairs ----------

  ghost predicate Adjacent(u: seq<(int, int)>, x: int, y: int) {
    (x, y) in u || (y, x) in u
  }

  // path is a chain of united pairs, taken in either direction.
  ghost predicate Chain(u: seq<(int, int)>, path: seq<int>) {
    path != [] && forall i {:trigger path[i]} :: 0 <= i < |path| - 1 ==> Adjacent(u, path[i], path[i + 1])
  }

  ghost predicate Joins(u: seq<(int, int)>, path: seq<int>, x: int, y: int) {
    Chain(u, path) && path[0] == x && path[|path| - 1] == y
  }

  ghost predicate Related(u: seq<(int, int)>, x: int, y: int) {
    exists path :: Joins(u, path, x, y)
  }

  lemma RelatedSelf(u: seq<(int, int)>, x: int)
    ensures Related(u, x, x)
  {
    assert Joins(u, [x], x, x);
  }

  lemma RelatedStep(u: seq<(int, int)>, x: int, y: int)
    requires Adjacent(u, x, y)
    ensures Related(u, x, y)
  {
    assert Joins(u, [x, y], x, y);
  }

  lemma RelatedSym(u: seq<(int, int)>, x: int, y: int)
    requires Related(u, x, y)
    ensures Related(u, y, x)
  {
    var path :| Joins(u, path, x, y);
    var back := seq(|path|, i requires 0 <= i < |path| => path[|path| - 1 - i]);
    forall i | 0 <= i < |back| - 1 ensures Adjacent(u, back[i], back[i + 1]) {
      assert Adjacent(u, path[|path| - 2 - i], path[|path| - 2 - i + 1]);
    }
    assert Joins(u, back, y, x);
  }

  lemma RelatedTrans(u: seq<(int, int)>, x: int, y: int, z: int)
    requires Related(u, x, y) && Related(u, y, z)
    ensures Related(u, x, z)
  {
    var p :| Joins(u, p, x, y);
    var q :| Joins(u, q, y, z);
    var path := p + q[1..];
    forall i | 0 <= i < |path| - 1 ensures Adjacent(u, path[i], path[i + 1]) {
      if i < |p| - 1 {
        assert path[i] == p[i] && path[i + 1] == p[i + 1];
      } else {
        assert path[i] == q[i - |p| + 1] && path[i + 1] == q[i - |p| + 2];
      }
    }
    assert Joins(u, path, x, z);
  }

  lemma RelatedMore(u: seq<(int, int)>, pair: (int, int), x: int, y: int)
    requires Related(u, x, y)
    ensures Related(u + [pair], x, y)
  {
    var path :| Joins(u, path, x, y);
    assert Joins(u + [pair], path, x, y);
  }

  // Two elements have the same root exactly if the united pairs relate them.
  ghost predicate Represents(p: seq<int>, r: seq<int>, u: seq<(int, int)>)
    requires Forest(p, r)
  {
    && (forall k {:trigger u[k]} :: 0 <= k < |u| ==> 0 <= u[k].0 < |p| && 0 <= u[k].1 < |p|)
    && forall x, y {:trigger Root(p, r, x), Root(p, r, y)} ::
         0 <= x < |p| && 0 <= y < |p| ==> (Root(p, r, x) == Root(p, r, y) <==> Related(u, x, y))
  }

  lemma {:induction false} ChainInRange(n: int, u: seq<(int, int)>, path: seq<int>)
    requires forall k {:trigger u[k]} :: 0 <= k < |u| ==> 0 <= u[k].0 < n && 0 <= u[k].1 < n
    requires Chain(u, path) && 0 <= path[0] < n
    ensures forall i :: 0 <= i < |path| ==> 0 <= path[i] < n
  {
    if |path| > 1 {
      assert Adjacent(u, path[0], path[1]);
      forall i | 0 <= i < |path[1..]| - 1 ensures Adjacent(u, path[1..][i], path[1..][i + 1]) {
        assert Adjacent(u, path[i + 1], path[i + 1 + 1]);
      }
      ChainInRange(n, u, path[1..]);
      forall i | 0 <= i < |path| ensures 0 <= path[i] < n { if i > 0 { assert path[i] == path[1..][i - 1]; } }
    }
  }

  // roots is constant along a chain if it is constant across every united pair.
  lemma {:induction false} ConstantOnChain(roots: seq<int>, u: seq<(int, int)>, path: seq<int>)
    requires Chain(u, path) && forall i :: 0 <= i < |path| ==> 0 <= path[i] < |roots|
    requires forall k {:trigger u[k]} :: 0 <= k < |u| ==>
      0 <= u[k].0 < |roots| && 0 <= u[k].1 < |roots| && roots[u[k].0] == roots[u[k].1]
    ensures roots[path[0]] == roots[path[|path| - 1]]
  {
    if |path| > 1 {
      assert Adjacent(u, path[0], path[1]);
      forall i | 0 <= i < |path[1..]| - 1 ensures Adjacent(u, path[1..][i], path[1..][i + 1]) {
        assert Adjacent(u, path[i + 1], path[i + 1 + 1]);
      }
      ConstantOnChain(roots, u, path[1..]);
    }
  }

  ghost function Roots(p: seq<int>, r: seq<int>): (roots: seq<int>)
    requires Forest(p, r)
    ensures |roots| == |p| && forall y {:trigger roots[y]} :: 0 <= y < |p| ==> roots[y] == Root(p, r, y)
  {
    seq(|p|, y requires 0 <= y < |p| => Root(p, r, y))
  }

  // The classes with roots c and d become the class of m, and all other roots stay.
  ghost predicate Merged(p: seq<int>, r: seq<int>, p': seq<int>, r': seq<int>, c: int, d: int, m: int)
    requires Forest(p, r) && Forest(p', r')
  {
    && |p'| == |p| && (m == c || m == d)
    && forall y {:trigger Root(p', r', y)} :: 0 <= y < |p| ==>
      Root(p', r', y) == if Root(p, r, y) == c || Root(p, r, y) == d then m else Root(p, r, y)
  }

  ghost predicate Uniting(
      p: seq<int>, r: seq<int>, u: seq<(int, int)>, a: int, b: int,
      p': seq<int>, r': seq<int>, m: int)
  {
    && Forest(p, r) && Forest(p', r') && Represents(p, r, u) && 0 <= a < |p| && 0 <= b < |p|
    && Merged(p, r, p', r', Root(p, r, a), Root(p, r, b), m)
  }

  // Merging the classes of a and b is what adding the pair (a, b) does to the closure.
  lemma UnitedRepresents(
      p: seq<int>, r: seq<int>, u: seq<(int, int)>, a: int, b: int,
      p': seq<int>, r': seq<int>, m: int)
    requires Uniting(p, r, u, a, b, p', r', m)
    ensures Represents(p', r', u + [(a, b)])
  {
    var u' := u + [(a, b)];
    forall x, y | 0 <= x < |p| && 0 <= y < |p| ensures Root(p', r', x) == Root(p', r', y) <==> Related(u', x, y) {
      if Root(p', r', x) == Root(p', r', y) { UnitedRelated(p, r, u, a, b, p', r', m, x, y); }
      if Related(u', x, y) { RelatedUnited(p, r, u, a, b, p', r', m, x, y); }
    }
  }

  lemma UnitedRelated(
      p: seq<int>, r: seq<int>, u: seq<(int, int)>, a: int, b: int,
      p': seq<int>, r': seq<int>, m: int, x: int, y: int)
    requires Uniting(p, r, u, a, b, p', r', m) && 0 <= x < |p| && 0 <= y < |p| && Root(p', r', x) == Root(p', r', y)
    ensures Related(u + [(a, b)], x, y)
  {
    var u' := u + [(a, b)];
    assert u'[|u|] == (a, b);
    if Root(p, r, x) == Root(p, r, y) {
      RelatedMore(u, (a, b), x, y);
    } else if Root(p, r, x) == Root(p, r, a) {
      AcrossPair(u, a, b, x, y);
    } else {
      AcrossPair(u, a, b, y, x);
      RelatedSym(u', y, x);
    }
  }

  lemma AcrossPair(u: seq<(int, int)>, a: int, b: int, x: int, y: int)
    requires Related(u, x, a) && Related(u, y, b)
    ensures Related(u + [(a, b)], x, y)
  {
    var u' := u + [(a, b)];
    assert u'[|u|] == (a, b);
    RelatedSym(u, y, b);
    RelatedMore(u, (a, b), x, a);
    RelatedMore(u, (a, b), b, y);
    RelatedStep(u', a, b);
    RelatedTrans(u', x, a, b);
    RelatedTrans(u', x, b, y);
  }

  lemma RelatedUnited(
      p: seq<int>, r: seq<int>, u: seq<(int, int)>, a: int, b: int,
      p': seq<int>, r': seq<int>, m: int, x: int, y: int)
    requires Uniting(p, r, u, a, b, p', r', m) && 0 <= x < |p| && 0 <= y < |p| && Related(u + [(a, b)], x, y)
    ensures Root(p', r', x) == Root(p', r', y)
  {
    var u' := u + [(a, b)];
    var path :| Joins(u', path, x, y);
    ChainInRange(|p|, u', path);
    forall k | 0 <= k < |u'| ensures Root(p', r', u'[k].0) == Root(p', r', u'[k].1) {
      if k < |u| {
        assert u'[k] == u[k];
        RelatedStep(u, u[k].0, u[k].1);
        assert Root(p, r, u[k].0) == Root(p, r, u[k].1);
      }
    }
    ConstantOnChain(Roots(p', r'), u', path);
  }

  lemma LinkedMerged(p: seq<int>, r: seq<int>, c: int, d: int)
    requires Linkable(p, r, c, d)
    ensures Forest(p[c := d], Ranked(r, c, d)) && Heavy(p[c := d], Ranked(r, c, d))
    ensures Merged(p, r, p[c := d], Ranked(r, c, d), c, d, d)
  {
    LinkedForest(p, r, c, d);
    LinkedHeavy(p, r, c, d);
    forall y | 0 <= y < |p| { LinkedRoot(p, r, c, d, y); }
  }

  // Every rank is at most 1 + log2(n).
  lemma RankBound(p: seq<int>, r: seq<int>, x: int)
    requires Forest(p, r) && Heavy(p, r) && 0 <= x < |p|
    ensures 1 <= r[x] <= r[Root(p, r, x)]
    ensures Pow2(r[x] - 1) <= Pow2(r[Root(p, r, x)] - 1) <= |p|
  {
    var root := Root(p, r, x);
    Pow2Mono(r[x] - 1, r[root] - 1);
    InRange(Class(p, r, root), |p|);
  }

  // Pointing x at its root, found through its parent, after the elements above it were.
  lemma FoundAbove(p: seq<int>, p1: seq<int>, r: seq<int>, u: seq<(int, int)>, x: int, above: int)
    requires Forest(p, r) && Forest(p1, r) && SameRoots(p, p1, r) && Heavy(p1, r) && Represents(p1, r, u)
    requires 0 <= x < |p| && p[x] != x && Flattened(p, p1, r, p[x]) && above == Root(p, r, p[x])
    ensures var p2 := p1[x := above];
      && Forest(p2, r) && SameRoots(p, p2, r) && Heavy(p2, r) && Represents(p2, r, u)
      && Flattened(p, p2, r, x) && above == Root(p, r, x)
  {
    var p2 := p1[x := above];
    assert Root(p1, r, x) == Root(p, r, x) == above;
    Compressed(p1, r, x);
    HeavySame(p1, p2, r);
    SameRootsTrans(p, p1, p2, r);
    hide Heavy;
    forall y | 0 <= y < |p| ensures p2[y] == if y in Path(p, r, x) then Root(p, r, x) else p[y] {
      if y != x { assert p2[y] == p1[y]; }
    }
    SameRootsRepresent(p1, p2, r, u);
  }

  lemma FoundRoot(p: seq<int>, r: seq<int>, x: int)
    requires Forest(p, r) && 0 <= x < |p| && p[x] == x
    ensures SameRoots(p, p, r) && Flattened(p, p, r, x) && Root(p, r, x) == x
  {
  }

  lemma RootAbove(p: seq<int>, r: seq<int>, x: int)
    requires Forest(p, r) && 0 <= x < |p| && p[x] != x
    ensures 0 <= p[x] < |p| && r[x] < r[p[x]] <= |p| && Root(p, r, x) == Root(p, r, p[x])
  {
    assert 0 <= p[p[x]] < |p|;
  }

  lemma SameRootsRepresent(p: seq<int>, p': seq<int>, r: seq<int>, u: seq<(int, int)>)
    requires Forest(p, r) && Forest(p', r) && SameRoots(p, p', r) && Represents(p, r, u)
    ensures Represents(p', r, u)
  {
  }

  class UnionFind {
    var parent: array<int>
    var rank: array<int>
    ghost var united: seq<(int, int)>

    ghost predicate Valid()
      reads this, parent, rank
    {
      && parent != rank
      && Forest(parent[..], rank[..]) && Heavy(parent[..], rank[..])
      && Represents(parent[..], rank[..], united)
    }

    constructor (n: nat)
      ensures Valid() && parent.Length == n && united == [] && fresh(parent) && fresh(rank)
    {
      parent := new int[n](i => i);
      rank := new int[n](_ => 1);
      united := [];
      new;
      Initial(parent[..], rank[..]);
    }

    // The root of x; the elements walked over now point to it.  calls counts the recursive calls.
    method Find(x: int) returns (root: int, ghost calls: nat)
      requires Valid() && 0 <= x < parent.Length
      modifies parent
      ensures Valid()
      ensures SameRoots(old(parent[..]), parent[..], rank[..])
      ensures root == parent[x] == Root(old(parent[..]), rank[..], x)
      ensures Flattened(old(parent[..]), parent[..], rank[..], x)
      ensures calls <= rank[root] - rank[x] && Pow2(calls) <= parent.Length
      decreases parent.Length - rank[x]
    {
      ghost var p, r := parent[..], rank[..];
      RankBound(p, r, x);
      calls := 0;
      hide Flattened, SameRoots, Heavy, Represents, Root;
      if parent[x] != x {
        RootAbove(p, r, x);
        var above, deeper := Find(parent[x]);
        FoundAbove(p, parent[..], r, united, x, above);
        ghost var p2 := parent[..][x := above];
        parent[x] := above;
        assert parent[..] == p2;
        calls := 1 + deeper;
      } else {
        FoundRoot(p, r, x);
      }
      root := parent[x];
      Pow2Mono(calls, r[root] - 1);
    }

    // Merge the classes of x and y; the root of the higher rank, or that of x at equal ranks, becomes the
    // common root, and gains a rank in the latter case.
    method Unite(x: int, y: int)
      requires Valid() && 0 <= x < parent.Length && 0 <= y < parent.Length
      modifies parent, rank, this`united
      ensures Valid() && united == old(united) + [(x, y)]
      ensures var p, r := old(parent[..]), old(rank[..]);
        var c, d := Root(p, r, x), Root(p, r, y);
        && Merged(p, r, parent[..], rank[..], c, d, if r[c] < r[d] then d else c)
        && rank[..] == if c != d && r[c] == r[d] then r[c := r[c] + 1] else r
    {
      ghost var p, r, u := parent[..], rank[..], united;
      var px, _ := Find(x);
      ghost var p1 := parent[..];
      var py, _ := Find(y);
      ghost var p2 := parent[..];
      SameRootsTrans(p, p1, p2, r);
      united := united + [(x, y)];
      if px == py {
        assert Merged(p, r, p2, r, px, py, px);
        UnitedRepresents(p, r, u, x, y, p2, r, px);
        return;
      }
      if rank[px] < rank[py] {
        Joined(p, p2, r, u, x, y, px, py);
        parent[px] := py;
        assert parent[..] == p2[px := py];
      } else if rank[px] > rank[py] {
        Joined(p, p2, r, u, x, y, py, px);
        parent[py] := px;
        assert parent[..] == p2[py := px];
      } else {
        Joined(p, p2, r, u, x, y, py, px);
        parent[py] := px;
        rank[px] := rank[px] + 1;
        assert parent[..] == p2[py := px];
        assert rank[..] == Ranked(r, py, px);
      }
    }

    method Connected(x: int, y: int) returns (same: bool)
      requires Valid() && 0 <= x < parent.Length && 0 <= y < parent.Length
      modifies parent
      ensures Valid() && SameRoots(old(parent[..]), parent[..], rank[..])
      ensures same <==> Related(united, x, y)
    {
      ghost var p := parent[..];
      var px, _ := Find(x);
      ghost var p1 := parent[..];
      var py, _ := Find(y);
      SameRootsTrans(p, p1, parent[..], rank[..]);
      same := px == py;
    }
  }

  // Linking root c below root d, after the finds have turned p into p2.
  lemma Joined(p: seq<int>, p2: seq<int>, r: seq<int>, u: seq<(int, int)>, x: int, y: int, c: int, d: int)
    requires Forest(p, r) && Forest(p2, r) && Heavy(p2, r) && SameRoots(p, p2, r) && Represents(p, r, u)
    requires 0 <= x < |p| && 0 <= y < |p| && c != d && 0 <= c < |p| && 0 <= d < |p| && r[c] <= r[d]
    requires (c == Root(p, r, x) && d == Root(p, r, y)) || (c == Root(p, r, y) && d == Root(p, r, x))
    ensures var p', r' := p2[c := d], Ranked(r, c, d);
      Forest(p', r') && Heavy(p', r') && Represents(p', r', u + [(x, y)])
      && Merged(p, r, p', r', Root(p, r, x), Root(p, r, y), d)
  {
    var p', r' := p2[c := d], Ranked(r, c, d);
    assert Root(p2, r, c) == c && Root(p2, r, d) == d;
    LinkedMerged(p2, r, c, d);
    forall z | 0 <= z < |p|
      ensures Root(p', r', z) == if Root(p, r, z) == c || Root(p, r, z) == d then d else Root(p, r, z)
    {
      assert Root(p2, r, z) == Root(p, r, z);
    }
    UnitedRepresents(p, r, u, x, y, p', r', d);
  }

  lemma Initial(p: seq<int>, r: seq<int>)
    requires |p| == |r| && forall i :: 0 <= i < |p| ==> p[i] == i && r[i] == 1
    ensures Forest(p, r) && Heavy(p, r) && Represents(p, r, [])
  {
    forall x | 0 <= x < |p| && p[x] == x ensures Pow2(r[x] - 1) <= |Class(p, r, x)| {
      assert Root(p, r, x) == x;
      assert {x} <= Class(p, r, x);
      Grows(Class(p, r, x), {x});
      assert Class(p, r, x) + {x} == Class(p, r, x);
    }
    forall x, y | 0 <= x < |p| && 0 <= y < |p| ensures Root(p, r, x) == Root(p, r, y) <==> Related([], x, y) {
      if x == y { RelatedSelf([], x); }
      if Related([], x, y) {
        var path :| Joins([], path, x, y);
        assert |path| > 1 ==> Adjacent([], path[0], path[1]);
      }
    }
  }
}
