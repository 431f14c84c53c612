/** The array-stored segment tree of data_struct/segment_tree.hpp: built bottom up into d, where
    node p has the children 2p and 2p + 1, and queried for the sum of a range of a. */
module SegmentTree {
  import opened Arithmetic
  import opened Power

  // ---------- which nodes there are ----------

  function Middle(s: int, t: int): int { s + (t - s) / 2 }

  // The nodes of the subtree at p over the range s to t.
  ghost function Nodes(s: int, t: int, p: int): set<int>
    decreases t - s
  {
    if s >= t then {p}
    else {p} + Nodes(s, Middle(s, t), 2 * p) + Nodes(Middle(s, t) + 1, t, 2 * p + 1)
  }

  // i is p or lies below it.
  ghost predicate Under(i: int, p: int)
    requires 1 <= p
    decreases i
  {
    i == p || (i > p && Under(i / 2, p))
  }

  lemma {:induction false} UnderChild(i: int, p: int, c: int)
    requires 1 <= p && (c == 2 * p || c == 2 * p + 1) && Under(i, c)
    ensures Under(i, p)
    decreases i
  {
    if i != c { UnderChild(i / 2, p, c); }
  }

  lemma {:induction false} UnderOne(i: int, p: int)
    requires 1 <= p && Under(i, 2 * p)
    ensures !Under(i, 2 * p + 1)
    decreases i
  {
    if i > 2 * p + 1 { UnderOne(i / 2, p); }
  }

  lemma {:induction false} NodesUnder(s: int, t: int, p: int, i: int)
    requires 1 <= p && i in Nodes(s, t, p)
    ensures Under(i, p)
    decreases t - s
  {
    if s < t && i != p {
      if i in Nodes(s, Middle(s, t), 2 * p) {
        NodesUnder(s, Middle(s, t), 2 * p, i);
        UnderChild(i, p, 2 * p);
      } else {
        NodesUnder(Middle(s, t) + 1, t, 2 * p + 1, i);
        UnderChild(i, p, 2 * p + 1);
      }
    }
  }

  // The two subtrees of a node share no node, and neither contains the node itself.
  lemma SubtreesDisjoint(s: int, t: int, p: int)
    requires 1 <= p && s < t
    ensures Nodes(s, Middle(s, t), 2 * p) !! Nodes(Middle(s, t) + 1, t, 2 * p + 1)
    ensures p !in Nodes(s, Middle(s, t), 2 * p) && p !in Nodes(Middle(s, t) + 1, t, 2 * p + 1)
  {
    hide Nodes;
    var left, right := Nodes(s, Middle(s, t), 2 * p), Nodes(Middle(s, t) + 1, t, 2 * p + 1);
    forall i | i in left ensures i !in right && i != p {
      NodesUnder(s, Middle(s, t), 2 * p, i);
      UnderOne(i, p);
      if i in right { NodesUnder(Middle(s, t) + 1, t, 2 * p + 1, i); }
    }
    forall i | i in right ensures i != p { NodesUnder(Middle(s, t) + 1, t, 2 * p + 1, i); }
  }

  lemma NodesStep(s: int, t: int, p: int)
    ensures Nodes(s, t, p) == if s >= t then {p}
      else {p} + Nodes(s, Middle(s, t), 2 * p) + Nodes(Middle(s, t) + 1, t, 2 * p + 1)
  {
  }

  // A tree over n leaves has 2n - 1 nodes.
  lemma {:induction false} NodeCount(s: int, t: int, p: int)
    requires 1 <= p && s <= t
    ensures |Nodes(s, t, p)| == 2 * (t - s + 1) - 1
    decreases t - s
  {
    hide Nodes;
    NodesStep(s, t, p);
    if s < t {
      NodeCount(s, Middle(s, t), 2 * p);
      NodeCount(Middle(s, t) + 1, t, 2 * p + 1);
      SubtreesDisjoint(s, t, p);
      ThreeParts(p, Nodes(s, Middle(s, t), 2 * p), Nodes(Middle(s, t) + 1, t, 2 * p + 1));
    }
  }

  lemma ThreeParts(p: int, left: set<int>, right: set<int>)
    requires left !! right && p !in left && p !in right
    ensures |{p} + left + right| == 1 + |left| + |right|
  {
    assert |{p} + left| == 1 + |left|;
    assert ({p} + left) !! right;
  }

  // ---------- how large the indices get ----------

  // The height of a tree over n leaves.
  function Height(n: int): nat {
    if n <= 1 then 0 else 1 + Height((n + 1) / 2)
  }

  lemma {:induction false} HeightMono(m: int, n: int)
    requires m <= n
    ensures Height(m) <= Height(n)
    decreases n
  {
    if 1 < m { HeightMono((m + 1) / 2, (n + 1) / 2); }
  }

  // It is the least h with n <= 2^h: the logarithm of n, rounded up.
  lemma {:induction false} HeightIsLog(n: int)
    requires 1 <= n
    ensures n <= Pow2(Height(n))
    ensures 1 < n ==> Pow2(Height(n) - 1) < n
    decreases n
  {
    if 1 < n {
      HeightIsLog((n + 1) / 2);
      if n == 2 { assert Height(1) == 0; }
    }
  }

  lemma HeightStep(s: int, t: int)
    requires s < t
    ensures Height(t - s + 1) == Height(Middle(s, t) - s + 1) + 1
    ensures Height(t - Middle(s, t)) <= Height(Middle(s, t) - s + 1)
  {
    HeightMono(t - Middle(s, t), Middle(s, t) - s + 1);
  }

  // A child's share of the indices below (p + 1) * 2^h.
  lemma ChildShare(p: int, c: int, h: nat, h': nat)
    requires 1 <= p && 2 * p <= c <= 2 * p + 1 && 1 <= h && h' <= h - 1
    ensures c + 1 <= (c + 1) * Pow2(h') <= (p + 1) * Pow2(h)
  {
    Pow2Mono(h', h - 1);
    assert Pow2(h) == 2 * Pow2(h - 1);
    hide Pow2;
    MulAtMost(1, Pow2(h'), c + 1);
    MulAtMost(Pow2(h'), Pow2(h - 1), c + 1);
    MulAtMost(c + 1, 2 * p + 2, Pow2(h - 1));
    Doubled(p + 1, Pow2(h - 1));
  }

  lemma Doubled(k: int, x: int)
    ensures (2 * k) * x == k * (2 * x)
  {
  }

  // The indices of the subtree at p stay below (p + 1) * 2^h.
  lemma {:induction false} NodesBelow(s: int, t: int, p: int, i: int)
    requires 1 <= p && s <= t && i in Nodes(s, t, p)
    ensures 1 <= i < (p + 1) * Pow2(Height(t - s + 1))
    decreases t - s
  {
    hide Pow2, Height;
    if i == p || s == t {
      MulAtMost(1, Pow2(Height(t - s + 1)), p + 1);
    } else {
      HeightStep(s, t);
      var m, h := Middle(s, t), Height(t - s + 1);
      if i in Nodes(s, m, 2 * p) {
        NodesBelow(s, m, 2 * p, i);
        ChildShare(p, 2 * p, h, h - 1);
      } else {
        NodesBelow(m + 1, t, 2 * p + 1, i);
        ChildShare(p, 2 * p + 1, h, Height(t - m));
      }
    }
  }

  // Every index of a tree over n leaves is below 2^(ceil(lg n) + 1), and below 4n.
  lemma IndexBound(n: int, i: int)
    requires 1 <= n && i in Nodes(0, n - 1, 1)
    ensures 1 <= i < Pow2(Height(n) + 1) <= 4 * n
  {
    hide Nodes, Height;
    NodesBelow(0, n - 1, 1, i);
    BoundOfLeaves(n);
  }

  lemma BoundOfLeaves(n: int)
    requires 1 <= n
    ensures Pow2(Height(n) + 1) <= 4 * n && (1 < n ==> Pow2(Height(n) + 1) < 4 * n)
  {
    HeightIsLog(n);
    assert Pow2(Height(n) + 1) == 2 * Pow2(Height(n));
  }

  // ---------- what the nodes hold ----------

  ghost function Sum(a: seq<int>, s: int, t: int): int
    requires 0 <= s && t < |a|
    decreases t - s
  {
    if s > t then 0 else Sum(a, s, t - 1) + a[t]
  }

  lemma {:induction false} SumSplits(a: seq<int>, s: int, m: int, t: int)
    requires 0 <= s <= m + 1 && m <= t < |a|
    ensures Sum(a, s, t) == Sum(a, s, m) + Sum(a, m + 1, t)
    decreases t - m
  {
    if m < t { SumSplits(a, s, m, t - 1); }
  }

  // Every node of the subtree holds the sum of its range.
  ghost predicate Built(d: seq<int>, a: seq<int>, s: int, t: int, p: int)
    requires 0 <= s <= t < |a|
    decreases t - s
  {
    && 0 <= p < |d| && d[p] == Sum(a, s, t)
    && (s < t ==> Built(d, a, s, Middle(s, t), 2 * p) && Built(d, a, Middle(s, t) + 1, t, 2 * p + 1))
  }

  lemma {:induction false} BuiltFrame(d: seq<int>, d': seq<int>, a: seq<int>, s: int, t: int, p: int)
    requires 0 <= s <= t < |a| && Built(d, a, s, t, p) && |d'| == |d|
    requires forall i :: i in Nodes(s, t, p) && 0 <= i < |d| ==> d'[i] == d[i]
    ensures Built(d', a, s, t, p)
    decreases t - s
  {
    assert p in Nodes(s, t, p);
    if s < t {
      BuiltFrame(d, d', a, s, Middle(s, t), 2 * p);
      BuiltFrame(d, d', a, Middle(s, t) + 1, t, 2 * p + 1);
    }
  }

  ghost predicate Same(d: seq<int>, d': seq<int>, except: set<int>) {
    |d'| == |d| && forall i {:trigger d'[i]} :: 0 <= i < |d| && i !in except ==> d'[i] == d[i]
  }

  lemma Combine(d0: seq<int>, d1: seq<int>, d2: seq<int>, d3: seq<int>, a: seq<int>, s: int, t: int, p: int)
    requires 1 <= p < |d2| && 0 <= s < t < |a|
    requires Same(d0, d1, Nodes(s, Middle(s, t), 2 * p)) && Built(d1, a, s, Middle(s, t), 2 * p)
    requires Same(d1, d2, Nodes(Middle(s, t) + 1, t, 2 * p + 1)) && Built(d2, a, Middle(s, t) + 1, t, 2 * p + 1)
    requires 2 * p + 1 < |d2| && d3 == d2[p := d2[2 * p] + d2[2 * p + 1]]
    ensures Same(d0, d3, Nodes(s, t, p)) && Built(d3, a, s, t, p)
  {
    SubtreesDisjoint(s, t, p);
    BuiltFrame(d1, d3, a, s, Middle(s, t), 2 * p);
    BuiltFrame(d2, d3, a, Middle(s, t) + 1, t, 2 * p + 1);
    RootIs(d3, a, s, t, p);
  }

  lemma RootIs(d: seq<int>, a: seq<int>, s: int, t: int, p: int)
    requires 1 <= p && 0 <= s < t < |a| && 2 * p + 1 < |d| && d[p] == d[2 * p] + d[2 * p + 1]
    requires Built(d, a, s, Middle(s, t), 2 * p) && Built(d, a, Middle(s, t) + 1, t, 2 * p + 1)
    ensures Built(d, a, s, t, p)
  {
    SumSplits(a, s, Middle(s, t), t);
  }

  class SegmentTree {
    const a: array<int>
    const d: array<int>

    // d has room for 2^(ceil(lg n) + 1) cells, of which cell 0 is never used; 4n are always enough.
    constructor (a: array<int>, d: array<int>)
      requires a != d && 1 <= a.Length && Pow2(Height(a.Length) + 1) <= d.Length
      ensures this.a == a && this.d == d
    {
      this.a, this.d := a, d;
    }

    method Build(s: int, t: int, p: int)
      requires a != d && 0 <= s <= t < a.Length && 1 <= p
      requires (p + 1) * Pow2(Height(t - s + 1)) <= d.Length
      modifies d
      ensures Built(d[..], a[..], s, t, p)
      ensures Same(old(d[..]), d[..], Nodes(s, t, p))
      decreases t - s
    {
      hide Built, Nodes, Same, Sum;
      RoomForNode(s, t, p, d.Length);
      if s == t {
        d[p] := a[s];
        LeafIs(old(d[..]), d[..], a[..], s, p);
        return;
      }
      var m := s + (t - s) / 2;
      RoomForChildren(s, t, p, d.Length);
      Build(s, m, p * 2);
      ghost var d1 := d[..];
      Build(m + 1, t, p * 2 + 1);
      ghost var d2 := d[..];
      d[p] := d[p * 2] + d[p * 2 + 1];
      Combine(old(d[..]), d1, d2, d[..], a[..], s, t, p);
    }

    // The sum of a over l to r, from the node p, whose range s to t meets l to r.
    method GetSum(l: int, r: int, s: int, t: int, p: int) returns (sum: int)
      requires 0 <= s <= t < a.Length && 0 <= l <= r < a.Length && l <= t && s <= r
      requires Built(d[..], a[..], s, t, p)
      ensures sum == Sum(a[..], if l < s then s else l, if r < t then r else t)
      decreases t - s
    {
      if l <= s && t <= r { return d[p]; }
      var m := s + (t - s) / 2;
      sum := 0;
      hide Sum;
      if l <= m {
        var left := GetSum(l, r, s, m, p * 2);
        sum := sum + left;
      }
      if r > m {
        var right := GetSum(l, r, m + 1, t, p * 2 + 1);
        sum := sum + right;
      }
      if l <= m < r { SumSplits(a[..], if l < s then s else l, m, if r < t then r else t); }
    }

    // Built over all of a, the tree answers any query with the plain sum.
    method BuildAndQuery(l: int, r: int) returns (sum: int)
      requires a != d && 1 <= a.Length && Pow2(Height(a.Length) + 1) <= d.Length && 0 <= l <= r < a.Length
      modifies d
      ensures sum == Sum(a[..], l, r)
      ensures Same(old(d[..]), d[..], Nodes(0, a.Length - 1, 1))
    {
      assert Pow2(Height(a.Length) + 1) == 2 * Pow2(Height(a.Length));
      Build(0, a.Length - 1, 1);
      sum := GetSum(l, r, 0, a.Length - 1, 1);
    }
  }

  lemma LeafIs(d: seq<int>, d': seq<int>, a: seq<int>, s: int, p: int)
    requires 0 <= s < |a| && 0 <= p < |d| && d' == d[p := a[s]]
    ensures Built(d', a, s, s, p) && Same(d, d', Nodes(s, s, p))
  {
    assert Sum(a, s, s) == Sum(a, s, s - 1) + a[s];
  }

  lemma RoomForNode(s: int, t: int, p: int, n: int)
    requires 1 <= p && s <= t && (p + 1) * Pow2(Height(t - s + 1)) <= n
    ensures p < n
  {
    MulAtMost(1, Pow2(Height(t - s + 1)), p + 1);
  }

  lemma RoomForChildren(s: int, t: int, p: int, n: int)
    requires 1 <= p && s < t && (p + 1) * Pow2(Height(t - s + 1)) <= n
    ensures (2 * p + 1) * Pow2(Height(Middle(s, t) - s + 1)) <= n
    ensures (2 * p + 2) * Pow2(Height(t - Middle(s, t))) <= n
    ensures 2 * p + 1 < n
  {
    hide Pow2, Height;
    var h := Height(t - s + 1);
    HeightStep(s, t);
    ChildShare(p, 2 * p, h, h - 1);
    ChildShare(p, 2 * p + 1, h, Height(t - Middle(s, t)));
  }
}
