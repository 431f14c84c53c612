/** The tree as a sorted sequence of keys: where a search or an insertion goes, and what
    adding or taking out a node does to the sequence. */
module RedBlackKeys {
  import opened Arithmetic
  import opened RedBlackGraph
  import opened RedBlackBalance
  import opened RedBlackSurgery
  import opened Power

  ghost function Keys(order: seq<Node>): (s: seq<int>)
    ensures |s| == |order| && forall i :: 0 <= i < |s| ==> s[i] == order[i].key
  {
    seq(|order|, i requires 0 <= i < |order| => order[i].key)
  }

  ghost predicate Sorted(s: seq<int>) {
    forall i, j :: 0 <= i < j < |s| ==> s[i] <= s[j]
  }

  // k put behind every key that is not greater.
  function Inserted(s: seq<int>, k: int): seq<int> {
    if s == [] || k < s[0] then [k] + s else [s[0]] + Inserted(s[1..], k)
  }

  // The first k taken out, if there is one.
  function Removed(s: seq<int>, k: int): seq<int> {
    if s == [] then [] else if s[0] == k then s[1..] else [s[0]] + Removed(s[1..], k)
  }

  lemma Prepended(h: int, r: seq<int>)
    requires Sorted(r) && forall x :: x in multiset(r) ==> h <= x
    ensures Sorted([h] + r)
  {
    forall i | 0 <= i < |r| ensures h <= r[i] { assert r[i] in multiset(r); }
  }

  lemma SortedRest(s: seq<int>)
    requires Sorted(s) && s != []
    ensures Sorted(s[1..]) && forall x :: x in multiset(s[1..]) ==> s[0] <= x
  {
    forall x | x in multiset(s[1..]) ensures s[0] <= x { assert x in s[1..]; }
  }

  lemma {:induction false} InsertedCounts(s: seq<int>, k: int)
    ensures multiset(Inserted(s, k)) == multiset(s) + multiset{k}
  {
    if s != [] && s[0] <= k {
      InsertedCounts(s[1..], k);
      assert s == [s[0]] + s[1..];
    }
  }

  lemma {:induction false} InsertedIs(s: seq<int>, k: int)
    requires Sorted(s)
    ensures Sorted(Inserted(s, k)) && multiset(Inserted(s, k)) == multiset(s) + multiset{k}
  {
    InsertedCounts(s, k);
    if s != [] && s[0] <= k {
      InsertedIs(s[1..], k);
      Prepended(s[0], Inserted(s[1..], k));
    }
  }

  lemma {:induction false} RemovedCounts(s: seq<int>, k: int)
    ensures multiset(Removed(s, k)) == multiset(s) - multiset{k}
    ensures k !in s ==> Removed(s, k) == s
  {
    if s != [] {
      assert s == [s[0]] + s[1..];
      if s[0] != k { RemovedCounts(s[1..], k); }
    }
  }

  lemma {:induction false} RemovedIs(s: seq<int>, k: int)
    requires Sorted(s)
    ensures Sorted(Removed(s, k)) && multiset(Removed(s, k)) == multiset(s) - multiset{k}
    ensures k !in s ==> Removed(s, k) == s
  {
    RemovedCounts(s, k);
    if s != [] {
      SortedRest(s);
      assert s[0] != k ==> Removed(s, k) == [s[0]] + Removed(s[1..], k);
      assert s[0] == k ==> Removed(s, k) == s[1..];
      hide Sorted, Removed;
      RemovedIs(s[1..], k);
      if s[0] != k { Prepended(s[0], Removed(s[1..], k)); }
    }
  }

  lemma {:induction false} InsertedAt(s: seq<int>, k: int, p: nat)
    requires Sorted(s) && p <= |s|
    requires forall i :: 0 <= i < p ==> s[i] <= k
    requires forall i :: p <= i < |s| ==> k < s[i]
    ensures Inserted(s, k) == s[..p] + [k] + s[p..]
  {
    if p > 0 {
      InsertedAt(s[1..], k, p - 1);
      assert s[..p] == [s[0]] + s[1..][..p - 1];
      assert s[1..][p - 1..] == s[p..];
    }
  }

  lemma {:induction false} RemovedAt(s: seq<int>, i: nat)
    requires Sorted(s) && i < |s|
    ensures Removed(s, s[i]) == s[..i] + s[i + 1..]
  {
    if i > 0 {
      RemovedAt(s[1..], i - 1);
      assert s[..i] == [s[0]] + s[1..][..i - 1];
      assert s[1..][i..] == s[i + 1..];
      if s[0] == s[i] {
        assert s[1..] == s[..i] + s[i + 1..] by {
          forall j | 0 <= j < |s| - 1 ensures s[1..][j] == (s[..i] + s[i + 1..])[j] {
            if j < i {
              assert s[0] <= s[j] <= s[i] && s[0] <= s[j + 1] <= s[i];
            }
          }
        }
      }
    }
  }

  // ---------- going down ----------

  // x covers the in-order places a..b; the sentinel covers none.
  ghost predicate Covers(g: Graph, x: Node, a: int, b: int) {
    && 0 <= a <= b <= |g.order|
    && (x == g.nil ==> a == b)
    && (x != g.nil ==> x in g.link && x in g.span && g.span[x].lo == a && g.span[x].hi == b)
  }

  // An upper bound for the number of nodes on a path down from x.
  ghost function Reach(p: Paint, x: Node): int {
    2 * p.H(x) + if p.C(x) == Red then 1 else 0
  }

  lemma StepDown(g: Graph, p: Paint, x: Node, d: Side)
    requires RedBlack(g, p) && x in g.link
    ensures x in g.span && 0 <= g.span[x].pos < |g.order| && g.order[g.span[x].pos] == x
    ensures var m := g.link[x].Kid(d);
      m != null && Covers(g, m, g.span[x].From(d), g.span[x].To(d)) && Reach(p, m) + 1 <= Reach(p, x)
    ensures 0 <= g.span[x].From(d) <= g.span[x].To(d) <= |g.order|
    ensures 0 <= Size(g, g.link[x].Kid(d)) < Size(g, x)
  {
    assert Linked(g, x) && BlackOk(g.link, p, x) && RedOk(g.link, p, x, null);
    var m := g.link[x].Kid(d);
    assert KidOk(g, x, d);
    assert m != g.nil ==> Linked(g, m);
  }

  // A subtree of black height h has at least 2^h - 1 nodes.
  lemma {:induction false} Bushy(g: Graph, p: Paint, x: Node)
    requires RedBlack(g, p) && (x == g.nil || x in g.link)
    ensures 0 <= p.H(x) && Pow2(p.H(x)) <= Size(g, x) + 1
    decreases Size(g, x)
  {
    hide Linked;
    if x != g.nil {
      StepDown(g, p, x, Left);
      StepDown(g, p, x, Right);
      var l, r := g.link[x].left, g.link[x].right;
      Bushy(g, p, l);
      Bushy(g, p, r);
      assert BlackOk(g.link, p, x);
      assert Size(g, x) == Size(g, l) + 1 + Size(g, r) by { SizeSum(g, p, x); }
    }
  }

  lemma SizeSum(g: Graph, p: Paint, x: Node)
    requires RedBlack(g, p) && x in g.link
    ensures Size(g, x) == Size(g, g.link[x].left) + 1 + Size(g, g.link[x].right)
  {
    assert Linked(g, x) && KidOk(g, x, Left) && KidOk(g, x, Right);
  }

  // A path of at most twice the black height is at most 2*log2(n + 1) nodes long.
  lemma ShortPaths(g: Graph, p: Paint, steps: nat)
    requires RedBlack(g, p) && steps <= Reach(p, g.root)
    ensures Pow2(steps) <= (|g.order| + 1) * (|g.order| + 1)
  {
    hide Linked, KidOk, AllBlackOk, AllRedOk;
    Bushy(g, p, g.root);
    var h := p.H(g.root);
    assert Pow2(h) <= |g.order| + 1 && steps <= 2 * h;
    PowSquare(steps, h, |g.order| + 1);
  }

  lemma PowSquare(a: nat, h: nat, n: nat)
    requires a <= 2 * h && Pow2(h) <= n
    ensures Pow2(a) <= n * n
  {
    Pow2Mono(a, h + h);
    Pow2Add(h, h);
    var m := Pow2(h);
    MulAtMost(m, n, m);
    MulAtMost(m, n, n);
    assert Pow2(h) * Pow2(h) <= n * n;
  }

  // The search for the place of key: everything before a is at most key, everything from b on is greater,
  // and x, the kid of y on side d, covers a..b.
  ghost predicate Descending(g: Graph, key: int, x: Node, y: Node, d: Side, a: int, b: int) {
    && Covers(g, x, a, b)
    && (y == g.nil ==> x == g.root && a == 0 && b == |g.order|)
    && (y != g.nil ==> y in g.link && y in g.span && g.link[y].Kid(d) == x)
    && (y != g.nil ==> a == g.span[y].From(d) && b == g.span[y].To(d))
    && (y != g.nil ==> (d == Left <==> key < y.key))
    && (forall i :: 0 <= i < a ==> g.order[i].key <= key)
    && (forall i :: b <= i < |g.order| ==> key < g.order[i].key)
  }

  lemma DescendStart(g: Graph, key: int)
    requires Shape(g)
    ensures Descending(g, key, g.root, g.nil, Left, 0, |g.order|)
  {
  }

  lemma DescendStep(g: Graph, p: Paint, key: int, x: Node, y: Node, d: Side, a: int, b: int)
    requires RedBlack(g, p) && Sorted(Keys(g.order)) && Descending(g, key, x, y, d, a, b) && x != g.nil
    ensures var e := if key < x.key then Left else Right;
      x in g.link && x in g.span && g.link[x].Kid(e) != null
      && Descending(g, key, g.link[x].Kid(e), x, e, g.span[x].From(e), g.span[x].To(e))
  {
    hide RedBlack, Shape;
    var e := if key < x.key then Left else Right;
    StepDown(g, p, x, e);
    assert g.nil !in g.link by { NilOut(g, p); }
    var k, i := Keys(g.order), g.span[x].pos;
    assert k[i] == x.key;
    forall j | 0 <= j < |g.order|
      ensures j < i ==> g.order[j].key <= x.key
      ensures i < j ==> x.key <= g.order[j].key
    {
      assert k[j] == g.order[j].key;
    }
  }

  lemma NilOut(g: Graph, p: Paint)
    requires RedBlack(g, p)
    ensures g.nil !in g.link
  {
  }

  lemma DescendEnd(g: Graph, p: Paint, key: int, y: Node, d: Side, a: int, b: int, z: Node)
    requires RedBlack(g, p) && Sorted(Keys(g.order)) && Descending(g, key, g.nil, y, d, a, b)
    requires z !in g.link && z != g.nil && z.key == key
    ensures CanAttach(g, z, y, d) && a == b == Place(g, y, d)
    ensures Keys(Attach(g, z, y, d).order) == Inserted(Keys(g.order), key)
  {
    hide Linked, AllBlackOk, AllRedOk;
    InsertedKeys(g.order, key, a, z);
  }

  lemma InsertedKeys(order: seq<Node>, key: int, a: int, z: Node)
    requires Sorted(Keys(order)) && 0 <= a <= |order| && z.key == key
    requires forall i :: 0 <= i < a ==> order[i].key <= key
    requires forall i :: a <= i < |order| ==> key < order[i].key
    ensures Keys(order[..a] + [z] + order[a..]) == Inserted(Keys(order), key)
  {
    InsertedAt(Keys(order), key, a);
    assert Keys(order[..a] + [z] + order[a..]) == Keys(order)[..a] + [key] + Keys(order)[a..];
  }

  // Where key can still be found.
  ghost predicate Seeking(g: Graph, key: int, x: Node, a: int, b: int) {
    && Covers(g, x, a, b)
    && (forall i :: 0 <= i < a ==> g.order[i].key < key)
    && (forall i :: b <= i < |g.order| ==> key < g.order[i].key)
  }

  lemma SeekStep(g: Graph, p: Paint, key: int, x: Node, a: int, b: int)
    requires RedBlack(g, p) && Sorted(Keys(g.order)) && Seeking(g, key, x, a, b) && x != g.nil && x.key != key
    ensures var e := if key < x.key then Left else Right;
      x in g.link && x in g.span && g.link[x].Kid(e) != null
      && Seeking(g, key, g.link[x].Kid(e), g.span[x].From(e), g.span[x].To(e))
  {
    hide RedBlack, Shape;
    var e := if key < x.key then Left else Right;
    StepDown(g, p, x, e);
    var k, i := Keys(g.order), g.span[x].pos;
    assert k[i] == x.key;
    forall j | 0 <= j < |g.order|
      ensures j < i ==> g.order[j].key <= x.key
      ensures i < j ==> x.key <= g.order[j].key
    {
      assert k[j] == g.order[j].key;
    }
  }

  lemma SeekEnd(g: Graph, key: int, a: int)
    requires Seeking(g, key, g.nil, a, a)
    ensures key !in Keys(g.order)
  {
    forall i | 0 <= i < |g.order| ensures Keys(g.order)[i] != key { assert i < a || a <= i; }
  }

  lemma CutKeys(order: seq<Node>, i: int)
    requires Sorted(Keys(order)) && 0 <= i < |order|
    ensures Keys(Cut(order, i)) == Removed(Keys(order), order[i].key)
  {
    RemovedAt(Keys(order), i);
    assert Keys(Cut(order, i)) == Keys(order)[..i] + Keys(order)[i + 1..];
  }
}
