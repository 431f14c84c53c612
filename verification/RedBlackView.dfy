/** The textbook reading of the tree: the nested structure that the links spell out, with
    the red-black conditions stated on it by recursion and over paths.  It is independent
    of the interval labels, and every valid tree meets it. */
module RedBlackView {
  import opened RedBlackGraph
  import opened RedBlackBalance
  import opened RedBlackKeys
  import opened Power

  datatype Nested = Leaf | Branch(color: Color, left: Nested, key: int, right: Nested)

  ghost function View(g: Graph, p: Paint, x: Node): Nested
    requires RedBlack(g, p) && (x == g.nil || x in g.link)
    decreases Size(g, x)
  {
    if x == g.nil then Leaf
    else
      StepDown(g, p, x, Left);
      StepDown(g, p, x, Right);
      Branch(p.C(x), View(g, p, g.link[x].left), x.key, View(g, p, g.link[x].right))
  }

  function InOrder(t: Nested): seq<int> {
    match t
    case Leaf => []
    case Branch(_, l, k, r) => InOrder(l) + [k] + InOrder(r)
  }

  function Top(t: Nested): Color { if t.Leaf? then Black else t.color }

  predicate NoRedRed(t: Nested) {
    match t
    case Leaf => true
    case Branch(c, l, _, r) => (c == Red ==> Top(l) == Black && Top(r) == Black) && NoRedRed(l) && NoRedRed(r)
  }

  // path leads from the top of t to a leaf.
  predicate ToLeaf(t: Nested, path: seq<Side>) {
    match t
    case Leaf => path == []
    case Branch(_, l, _, r) => path != [] && ToLeaf(if path[0] == Left then l else r, path[1..])
  }

  function Blacks(t: Nested, path: seq<Side>): nat
    requires ToLeaf(t, path)
  {
    match t
    case Leaf => 0
    case Branch(c, l, _, r) => Weight(c) + Blacks(if path[0] == Left then l else r, path[1..])
  }

  lemma {:induction false} ViewPaths(g: Graph, p: Paint, x: Node, path: seq<Side>)
    requires RedBlack(g, p) && (x == g.nil || x in g.link) && ToLeaf(View(g, p, x), path)
    ensures Blacks(View(g, p, x), path) == p.H(x) && |path| <= Reach(p, x)
    decreases path
  {
    if x != g.nil {
      StepDown(g, p, x, Left);
      StepDown(g, p, x, Right);
      assert BlackOk(g.link, p, x);
      ViewPaths(g, p, if path[0] == Left then g.link[x].left else g.link[x].right, path[1..]);
    }
  }

  lemma {:induction false} ViewNoRedRed(g: Graph, p: Paint, x: Node)
    requires RedBlack(g, p) && (x == g.nil || x in g.link)
    ensures NoRedRed(View(g, p, x)) && Top(View(g, p, x)) == p.C(x)
    decreases Size(g, x)
  {
    hide Linked;
    if x != g.nil {
      StepDown(g, p, x, Left);
      StepDown(g, p, x, Right);
      assert RedOk(g.link, p, x, null);
      ViewNoRedRed(g, p, g.link[x].left);
      ViewNoRedRed(g, p, g.link[x].right);
    }
  }

  lemma {:induction false} ViewInOrder(g: Graph, p: Paint, x: Node, a: int, b: int)
    requires RedBlack(g, p) && Covers(g, x, a, b)
    ensures InOrder(View(g, p, x)) == Keys(g.order)[a..b]
    decreases Size(g, x)
  {
    hide Linked;
    if x != g.nil {
      StepDown(g, p, x, Left);
      StepDown(g, p, x, Right);
      var i := g.span[x].pos;
      ViewInOrder(g, p, g.link[x].left, a, i);
      ViewInOrder(g, p, g.link[x].right, i + 1, b);
      assert Keys(g.order)[a..b] == Keys(g.order)[a..i] + [x.key] + Keys(g.order)[i + 1..b];
    }
  }

  // A valid tree is a red-black search tree in the textbook sense, no more than 2*log2(n + 1) deep.
  lemma TextbookRedBlack(g: Graph, p: Paint)
    requires RedBlack(g, p)
    ensures var t := View(g, p, g.root);
      && Top(t) == Black && NoRedRed(t) && InOrder(t) == Keys(g.order)
      && (forall path, path' :: ToLeaf(t, path) && ToLeaf(t, path') ==> Blacks(t, path) == Blacks(t, path'))
      && (forall path :: ToLeaf(t, path) ==> Pow2(|path|) <= (|g.order| + 1) * (|g.order| + 1))
  {
    var t := View(g, p, g.root);
    ViewNoRedRed(g, p, g.root);
    ViewInOrder(g, p, g.root, 0, |g.order|);
    assert Keys(g.order)[0..|g.order|] == Keys(g.order);
    forall path | ToLeaf(t, path)
      ensures Blacks(t, path) == p.H(g.root) && Pow2(|path|) <= (|g.order| + 1) * (|g.order| + 1)
    {
      ViewPaths(g, p, g.root, path);
      ShortPaths(g, p, |path|);
    }
  }
}
