/** The nodes of the red-black tree of data_struct/rb_tree.hpp, and its shape as a value.

    A Graph is a snapshot of the links of all nodes, together with the in-order sequence of
    the nodes and, for each node, the interval of that sequence its subtree covers.  Shape says
    node by node that links and intervals agree, which makes the graph a binary tree with
    correct parent links; rotations are described as relations between two such snapshots.
    The key type T of the source is int. */
module RedBlackGraph {
  datatype Color = Red | Black

  datatype Side = Left | Right {
    function Other(): Side { if this == Left then Right else Left }
  }

  class Node {
    const key: int
    var color: Color
    var left: Node?
    var right: Node?
    var parent: Node?

    constructor (k: int)
      ensures key == k && color == Red && left == null && right == null && parent == null
    {
      key := k;
      color := Red;
      left, right, parent := null, null, null;
    }
  }

  datatype Link = Link(left: Node?, right: Node?, parent: Node?) {
    function Kid(d: Side): Node? { if d == Left then left else right }
    function WithKid(d: Side, m: Node?): Link { if d == Left then this.(left := m) else this.(right := m) }
  }

  // A subtree covers the in-order places lo..hi and its top node stands at pos.
  datatype Span = Span(lo: int, pos: int, hi: int) {
    function From(d: Side): int { if d == Left then lo else pos + 1 }
    function To(d: Side): int { if d == Left then pos else hi }
  }

  datatype Graph = Graph(root: Node, nil: Node, link: map<Node, Link>, span: map<Node, Span>, order: seq<Node>)

  ghost predicate KidOk(g: Graph, n: Node, d: Side)
    requires n in g.link && n in g.span
  {
    var m, s := g.link[n].Kid(d), g.span[n];
    && (m == g.nil ==> s.From(d) == s.To(d))
    && (m != g.nil ==> m in g.link && m in g.span && g.link[m].parent == n)
    && (m != g.nil ==> s.From(d) == g.span[m].lo && g.span[m].hi == s.To(d))
  }

  ghost predicate ParentOk(g: Graph, n: Node)
    requires n in g.link
  {
    var p := g.link[n].parent;
    && (p == g.nil ==> n == g.root)
    && (p != g.nil ==> n != g.root && p in g.link && (g.link[p].left == n || g.link[p].right == n))
  }

  // n agrees with its neighbours on the links between them and on the intervals they cover.
  ghost predicate Linked(g: Graph, n: Node) {
    && n in g.link && n in g.span
    && 0 <= g.span[n].lo <= g.span[n].pos < g.span[n].hi <= |g.order|
    && g.order[g.span[n].pos] == n
    && KidOk(g, n, Left) && KidOk(g, n, Right)
    && ParentOk(g, n)
  }

  ghost predicate Placed(g: Graph, i: int)
    requires 0 <= i < |g.order|
  {
    g.order[i] in g.span && g.span[g.order[i]].pos == i
  }

  ghost predicate Shape(g: Graph) {
    && g.nil !in g.link && g.link.Keys == g.span.Keys
    && (if g.root == g.nil then g.order == []
        else g.root in g.span && g.span[g.root].lo == 0 && g.span[g.root].hi == |g.order|)
    && (forall i {:trigger Placed(g, i)} :: 0 <= i < |g.order| ==> Placed(g, i))
    && (forall n {:trigger Linked(g, n)} :: n in g.link ==> Linked(g, n))
  }

  ghost function Size(g: Graph, n: Node?): int {
    if n in g.span then g.span[n].hi - g.span[n].lo else 0
  }

  // x goes down on side d; its kid y on the other side takes its place.
  ghost predicate CanRotate(g: Graph, x: Node, d: Side) {
    && x in g.link && g.link[x].Kid(d.Other()) in g.link
    && x in g.span && g.link[x].Kid(d.Other()) in g.span
    && var y := g.link[x].Kid(d.Other());
    var b, p := g.link[y].Kid(d), g.link[x].parent;
    && g.nil !in g.link && x != y && p != x && p != y && b != x && b != y && b != null && p != null
    && (b != g.nil ==> b in g.link && b != p)
    && (p != g.nil ==> p in g.link && (g.link[p].left == x || g.link[p].right == x))
    && (p == g.nil <==> x == g.root)
  }

  ghost predicate Relinked(g: Graph, x: Node, d: Side, link': map<Node, Link>)
    requires CanRotate(g, x, d)
  {
    var y := g.link[x].Kid(d.Other());
    var b, p := g.link[y].Kid(d), g.link[x].parent;
    && link'.Keys == g.link.Keys
    && link'[x] == g.link[x].WithKid(d.Other(), b).(parent := y)
    && link'[y] == g.link[y].WithKid(d, x).(parent := p)
    && (b != g.nil ==> link'[b] == g.link[b].(parent := x))
    && (p != g.nil ==> link'[p] == g.link[p].WithKid(if g.link[p].left == x then Left else Right, y))
    && forall n :: n in g.link && n != x && n != y && n != b && n != p ==> link'[n] == g.link[n]
  }

  ghost function Respanned(g: Graph, x: Node, d: Side): map<Node, Span>
    requires CanRotate(g, x, d)
  {
    var y := g.link[x].Kid(d.Other());
    var sx, sy := g.span[x], g.span[y];
    g.span[x := if d == Left then sx.(hi := sy.pos) else sx.(lo := sy.pos + 1)][y := sy.(lo := sx.lo, hi := sx.hi)]
  }

  ghost predicate Rotated(g: Graph, x: Node, d: Side, g': Graph)
  {
    && CanRotate(g, x, d)
    && var y := g.link[x].Kid(d.Other());
    && g' == g.(root := if g.root == x then y else g.root, link := g'.link, span := Respanned(g, x, d))
    && Relinked(g, x, d, g'.link)
  }

  lemma CanRotateIn(g: Graph, x: Node, d: Side)
    requires Shape(g) && x in g.link && g.link[x].Kid(d.Other()) != g.nil
    ensures CanRotate(g, x, d)
  {
    assert Linked(g, x);
    var y := g.link[x].Kid(d.Other());
    assert Linked(g, y);
    assert g.link[y].Kid(d) != g.nil ==> Linked(g, g.link[y].Kid(d));
    assert g.link[x].parent != g.nil ==> Linked(g, g.link[x].parent);
  }

  // A node is nobody's kid but its parent's.
  lemma OnlyParent(g: Graph, m: Node, n: Node)
    requires m in g.link && g.nil !in g.link && Linked(g, n) && g.link[m].parent != n
    ensures g.link[n].left != m && g.link[n].right != m
  {
  }

  // Away from the two rotated nodes, the only change to a kid is that y replaces x.
  lemma RotatedKids(g: Graph, x: Node, d: Side, g': Graph, n: Node)
    requires Rotated(g, x, d, g') && Linked(g, n) && Linked(g, x)
    requires n != x && n != g.link[x].Kid(d.Other())
    ensures n in g'.link && g.link[n].left != g.link[x].Kid(d.Other()) && g.link[n].right != g.link[x].Kid(d.Other())
    ensures g'.link[n].left == if g.link[n].left == x then g.link[x].Kid(d.Other()) else g.link[n].left
    ensures g'.link[n].right == if g.link[n].right == x then g.link[x].Kid(d.Other()) else g.link[n].right
  {
  }

  lemma RotatedLinkedEnds(g: Graph, x: Node, d: Side, g': Graph)
    requires Linked(g, x) && Rotated(g, x, d, g') && Linked(g, g.link[x].Kid(d.Other()))
    requires g.link[x].parent != g.nil ==> Linked(g, g.link[x].parent)
    ensures Linked(g', x) && Linked(g', g.link[x].Kid(d.Other()))
  {
    var y := g.link[x].Kid(d.Other());
  }

  lemma RotatedKidOk(g: Graph, x: Node, d: Side, g': Graph, n: Node, e: Side)
    requires Linked(g, n) && Linked(g, x) && Rotated(g, x, d, g') && Linked(g, g.link[x].Kid(d.Other()))
    requires n != x && n != g.link[x].Kid(d.Other())
    ensures KidOk(g', n, e)
  {
    assert KidOk(g, n, e);
  }

  lemma RotatedLinkedRest(g: Graph, x: Node, d: Side, g': Graph, n: Node)
    requires Linked(g, n) && Linked(g, x) && Rotated(g, x, d, g') && Linked(g, g.link[x].Kid(d.Other()))
    requires n != x && n != g.link[x].Kid(d.Other())
    ensures Linked(g', n)
  {
    RotatedKidOk(g, x, d, g', n, Left);
    RotatedKidOk(g, x, d, g', n, Right);
  }

  lemma RotatedShape(g: Graph, x: Node, d: Side, g': Graph)
    requires Shape(g) && Rotated(g, x, d, g')
    ensures Shape(g')
  {
    assert Linked(g, x) && Linked(g, g.link[x].Kid(d.Other()));
    assert g.link[x].parent != g.nil ==> Linked(g, g.link[x].parent);
    RotatedLinkedEnds(g, x, d, g');
    forall i | 0 <= i < |g'.order| ensures Placed(g', i) { assert Placed(g, i); }
    forall n | n in g'.link ensures Linked(g', n) {
      assert Linked(g, n);
      if n != x && n != g.link[x].Kid(d.Other()) { RotatedLinkedRest(g, x, d, g', n); }
    }
  }
}
