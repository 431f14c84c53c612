/** Colours and black heights over the shape of RedBlackGraph, and what each recolouring
    step of the two fixup loops does to them.  Everything here is about values: the class
    in RedBlackTree calls these lemmas between its writes to the heap. */
module RedBlackBalance {
  import opened RedBlackGraph

  // The sentinel is in neither map: it is black and has height 0.
  datatype Paint = Paint(color: map<Node, Color>, bh: map<Node, int>) {
    ghost function C(n: Node?): Color { if n in color then color[n] else Black }
    ghost function H(n: Node?): int { if n in bh then bh[n] else 0 }
    ghost function Put(n: Node, c: Color, h: int): Paint { Paint(color[n := c], bh[n := h]) }
    ghost function Drop(n: Node): Paint { Paint(color - {n}, bh - {n}) }
  }

  function Weight(c: Color): int { if c == Black then 1 else 0 }

  // Both kids of n have the same black height, and n's own label is right.
  ghost predicate BlackOk(link: map<Node, Link>, p: Paint, n: Node) {
    && n in link && 0 <= p.H(n)
    && p.H(link[n].left) == p.H(link[n].right)
    && p.H(n) == p.H(link[n].left) + Weight(p.C(n))
  }

  // n is not a red node with a red kid, unless that kid is the tolerated node z.
  ghost predicate RedOk(link: map<Node, Link>, p: Paint, n: Node, z: Node?) {
    && n in link
    && (p.C(n) == Red ==> (link[n].left == z || p.C(link[n].left) == Black))
    && (p.C(n) == Red ==> (link[n].right == z || p.C(link[n].right) == Black))
  }

  ghost predicate AllBlackOk(link: map<Node, Link>, p: Paint, skip: set<Node>) {
    forall n {:trigger BlackOk(link, p, n)} :: n in link && n !in skip ==> BlackOk(link, p, n)
  }

  ghost predicate AllRedOk(link: map<Node, Link>, p: Paint, z: Node?, skip: set<Node>) {
    forall n {:trigger RedOk(link, p, n, z)} :: n in link && n !in skip ==> RedOk(link, p, n, z)
  }

  ghost predicate Painted(g: Graph, p: Paint) {
    p.color.Keys == p.bh.Keys == g.link.Keys
  }

  // A node keeps its balance when y takes over from its kid x at the same black height.
  lemma MovedBlack(link: map<Node, Link>, link': map<Node, Link>, p: Paint, p': Paint, x: Node, y: Node, n: Node)
    requires n in link && n in link' && BlackOk(link, p, n)
    requires link'[n].left == if link[n].left == x then y else link[n].left
    requires link'[n].right == if link[n].right == x then y else link[n].right
    requires p'.H(n) == p.H(n) && p'.C(n) == p.C(n) && p'.H(y) == p.H(x)
    requires link[n].left != x ==> p'.H(link[n].left) == p.H(link[n].left)
    requires link[n].right != x ==> p'.H(link[n].right) == p.H(link[n].right)
    ensures BlackOk(link', p', n)
  {
  }

  // ---------- insertion ----------

  // z is red, the only red-red edge goes into z, and black heights are right everywhere.
  ghost predicate RedAt(g: Graph, p: Paint, z: Node) {
    && Shape(g) && Painted(g, p) && z in g.link && p.C(z) == Red
    && AllBlackOk(g.link, p, {}) && AllRedOk(g.link, p, z, {})
    && (g.root == z || p.C(g.root) == Black)
  }

  ghost function InsertRank(g: Graph, p: Paint, z: Node): int {
    if z in g.link && p.C(g.link[z].parent) == Red then 1 + |g.order| - Size(g, z) else 0
  }

  // q is z's parent, r its grandparent with q on side d, and u the uncle.
  ghost predicate Kin(g: Graph, z: Node, q: Node, r: Node, u: Node?, d: Side) {
    && z in g.link && q in g.link && r in g.link
    && g.link[z].parent == q && g.link[q].parent == r
    && (g.link[q].left == z || g.link[q].right == z)
    && g.link[r].Kid(d) == q && g.link[r].Kid(d.Other()) == u
    && z != q && z != r && q != r && u != z && u != q && u != r
    && q != g.root && z != g.root
  }

  // A red parent is not the root, and the grandparent is black.
  lemma RedParent(g: Graph, p: Paint, z: Node) returns (d: Side)
    requires RedAt(g, p, z) && p.C(g.link[z].parent) == Red
    ensures var q := g.link[z].parent; q in g.link && g.link[q].parent in g.link && p.C(g.link[q].parent) == Black
    ensures var q := g.link[z].parent; var r := g.link[q].parent; Kin(g, z, q, r, g.link[r].Kid(d.Other()), d)
    ensures 0 < InsertRank(g, p, z)
  {
    assert Linked(g, z);
    var q := g.link[z].parent;
    assert Linked(g, q);
    var r := g.link[q].parent;
    assert Linked(g, r);
    assert RedOk(g.link, p, r, z);
    d := if g.link[r].left == q then Left else Right;
    var u := g.link[r].Kid(d.Other());
    assert u != g.nil ==> Linked(g, u);
  }

  lemma RedAtRotates(g: Graph, p: Paint, z: Node, x: Node, d: Side)
    requires RedAt(g, p, z) && x in g.link && g.link[x].Kid(d.Other()) in g.link
    ensures CanRotate(g, x, d)
  {
    CanRotateIn(g, x, d);
  }

  ghost function Recoloured(p: Paint, q: Node, r: Node, u: Node): Paint {
    p.Put(q, Black, p.H(q) + 1).Put(u, Black, p.H(u) + 1).Put(r, Red, p.H(r))
  }

  lemma RecolourNode(g: Graph, p: Paint, z: Node, q: Node, r: Node, u: Node, d: Side, n: Node)
    requires Kin(g, z, q, r, u, d) && p.C(q) == p.C(u) == Red && p.C(r) == Black && u in g.link && Painted(g, p)
    requires Linked(g, n) && Linked(g, r) && g.nil !in g.link
    requires BlackOk(g.link, p, n) && RedOk(g.link, p, n, z) && BlackOk(g.link, p, r)
    ensures BlackOk(g.link, Recoloured(p, q, r, u), n) && RedOk(g.link, Recoloured(p, q, r, u), n, r)
  {
  }

  lemma RecolourAll(g: Graph, p: Paint, z: Node, q: Node, r: Node, u: Node, d: Side)
    requires RedAt(g, p, z) && Kin(g, z, q, r, u, d) && p.C(q) == p.C(u) == Red && p.C(r) == Black && u in g.link
    ensures AllBlackOk(g.link, Recoloured(p, q, r, u), {}) && AllRedOk(g.link, Recoloured(p, q, r, u), r, {})
  {
    assert Linked(g, r) && BlackOk(g.link, p, r);
    forall n | n in g.link
      ensures BlackOk(g.link, Recoloured(p, q, r, u), n) && RedOk(g.link, Recoloured(p, q, r, u), n, r)
    {
      assert BlackOk(g.link, p, n) && RedOk(g.link, p, n, z) && Linked(g, n);
      RecolourNode(g, p, z, q, r, u, d, n);
    }
  }

  lemma RecolourKin(g: Graph, p: Paint, z: Node, q: Node, r: Node, u: Node, d: Side)
    requires RedAt(g, p, z) && Kin(g, z, q, r, u, d) && p.C(q) == p.C(u) == Red && p.C(r) == Black
    ensures u in g.link && RedAt(g, Recoloured(p, q, r, u), r)
    ensures 0 <= InsertRank(g, Recoloured(p, q, r, u), r) < InsertRank(g, p, z)
  {
    assert Linked(g, z) && Linked(g, q) && Linked(g, r);
    RecolourAll(g, p, z, q, r, u, d);
  }

  // The inner-grandchild case: z and its red parent q change places.
  lemma TurnNode(g: Graph, p: Paint, z: Node, q: Node, r: Node, u: Node, d: Side, g': Graph, n: Node)
    requires Kin(g, z, q, r, u, d) && p.C(z) == p.C(q) == Red && p.C(r) == Black && Painted(g, p)
    requires z == g.link[q].Kid(d.Other()) && Rotated(g, q, d, g') && Linked(g, n) && Linked(g, q) && Linked(g, z)
    requires BlackOk(g.link, p, n) && RedOk(g.link, p, n, z)
    requires BlackOk(g.link, p, q) && BlackOk(g.link, p, z) && RedOk(g.link, p, z, z)
    ensures BlackOk(g'.link, p, n) && RedOk(g'.link, p, n, q)
  {
  }

  lemma TurnAll(g: Graph, p: Paint, z: Node, q: Node, r: Node, u: Node, d: Side, g': Graph)
    requires RedAt(g, p, z) && Kin(g, z, q, r, u, d) && p.C(q) == Red && p.C(r) == Black
    requires z == g.link[q].Kid(d.Other()) && Rotated(g, q, d, g')
    ensures AllBlackOk(g'.link, p, {}) && AllRedOk(g'.link, p, q, {})
  {
    assert Linked(g, q) && Linked(g, z);
    assert BlackOk(g.link, p, q) && BlackOk(g.link, p, z) && RedOk(g.link, p, z, z);
    forall n | n in g'.link ensures BlackOk(g'.link, p, n) && RedOk(g'.link, p, n, q) {
      assert BlackOk(g.link, p, n) && RedOk(g.link, p, n, z) && Linked(g, n);
      TurnNode(g, p, z, q, r, u, d, g', n);
    }
  }

  lemma TurnKin(g: Graph, p: Paint, z: Node, q: Node, r: Node, u: Node, d: Side, g': Graph)
    requires RedAt(g, p, z) && Kin(g, z, q, r, u, d) && p.C(q) == Red && p.C(r) == Black
    requires z == g.link[q].Kid(d.Other()) && Rotated(g, q, d, g')
    ensures RedAt(g', p, q) && Kin(g', q, z, r, u, d) && g'.link[z].Kid(d) == q
    ensures g'.link[q].parent == z && g'.link[z].parent == r && g'.link[r].Kid(d) == z && g'.link[r].Kid(d.Other()) == u
    ensures p.C(z) == Red
  {
    TurnAll(g, p, z, q, r, u, d, g');
    RotatedShape(g, q, d, g');
  }

  // The outer-grandchild case: q becomes black and takes the place of r, which becomes red.
  ghost function Lifted(p: Paint, q: Node, r: Node): Paint {
    p.Put(q, Black, p.H(q) + 1).Put(r, Red, p.H(r) - 1)
  }

  lemma LiftBlack(g: Graph, p: Paint, z: Node, q: Node, r: Node, u: Node?, d: Side, g': Graph, n: Node)
    requires Kin(g, z, q, r, u, d) && p.C(q) == Red && p.C(r) == Black && Painted(g, p)
    requires Rotated(g, r, d.Other(), g') && Linked(g, n) && Linked(g, q) && Linked(g, r)
    requires BlackOk(g.link, p, n) && BlackOk(g.link, p, q) && BlackOk(g.link, p, r)
    ensures BlackOk(g'.link, Lifted(p, q, r), n)
  {
    if n != q && n != r {
      RotatedKids(g, r, d.Other(), g', n);
      MovedBlack(g.link, g'.link, p, Lifted(p, q, r), r, q, n);
    }
  }

  lemma LiftRed(g: Graph, p: Paint, z: Node, q: Node, r: Node, u: Node?, d: Side, g': Graph, n: Node)
    requires Kin(g, z, q, r, u, d) && p.C(q) == Red && p.C(r) == p.C(u) == Black && Painted(g, p)
    requires z == g.link[q].Kid(d) && Rotated(g, r, d.Other(), g') && Linked(g, n) && Linked(g, q) && Linked(g, r)
    requires RedOk(g.link, p, n, z) && RedOk(g.link, p, q, z)
    ensures RedOk(g'.link, Lifted(p, q, r), n, null)
  {
    if n != q && n != r {
      RotatedKids(g, r, d.Other(), g', n);
      OnlyParent(g, z, n);
      hide Rotated;
    }
    hide Linked;
  }

  lemma LiftAll(g: Graph, p: Paint, z: Node, q: Node, r: Node, u: Node?, d: Side, g': Graph)
    requires RedAt(g, p, z) && Kin(g, z, q, r, u, d) && p.C(q) == Red && p.C(r) == p.C(u) == Black
    requires z == g.link[q].Kid(d) && Rotated(g, r, d.Other(), g')
    ensures AllBlackOk(g'.link, Lifted(p, q, r), {}) && AllRedOk(g'.link, Lifted(p, q, r), null, {})
  {
    assert Linked(g, q) && Linked(g, r);
    assert BlackOk(g.link, p, q) && BlackOk(g.link, p, r) && RedOk(g.link, p, q, z);
    forall n | n in g'.link ensures BlackOk(g'.link, Lifted(p, q, r), n) && RedOk(g'.link, Lifted(p, q, r), n, null) {
      assert BlackOk(g.link, p, n) && RedOk(g.link, p, n, z) && Linked(g, n);
      LiftBlack(g, p, z, q, r, u, d, g', n);
      LiftRed(g, p, z, q, r, u, d, g', n);
    }
  }

  lemma LiftKin(g: Graph, p: Paint, z: Node, q: Node, r: Node, u: Node?, d: Side, g': Graph)
    requires RedAt(g, p, z) && Kin(g, z, q, r, u, d) && p.C(q) == Red && p.C(r) == p.C(u) == Black
    requires z == g.link[q].Kid(d) && Rotated(g, r, d.Other(), g')
    ensures RedAt(g', Lifted(p, q, r), z) && g'.link[z].parent == q
    ensures InsertRank(g', Lifted(p, q, r), z) == 0
  {
    LiftAll(g, p, z, q, r, u, d, g');
    RotatedShape(g, r, d.Other(), g');
    assert Linked(g, z) && Linked(g, q);
    forall n | n in g'.link ensures RedOk(g'.link, Lifted(p, q, r), n, z) {
      assert RedOk(g'.link, Lifted(p, q, r), n, null);
    }
  }

  // The classical conditions: a black root, no red node with a red kid, equal black heights.
  ghost predicate RedBlack(g: Graph, p: Paint) {
    && Shape(g) && Painted(g, p)
    && AllBlackOk(g.link, p, {}) && AllRedOk(g.link, p, null, {})
    && p.C(g.root) == Black
  }

  ghost function BlackTop(p: Paint, x: Node): Paint {
    if p.C(x) == Black then p else p.Put(x, Black, p.H(x) + 1)
  }

  lemma BlackenNode(g: Graph, p: Paint, z: Node, n: Node)
    requires Linked(g, n) && Linked(g, g.root) && g.nil !in g.link && Painted(g, p) && z in g.link
    requires BlackOk(g.link, p, n) && RedOk(g.link, p, n, z) && p.C(g.link[z].parent) == Black
    ensures BlackOk(g.link, BlackTop(p, g.root), n) && RedOk(g.link, BlackTop(p, g.root), n, null)
  {
  }

  lemma BlackenRoot(g: Graph, p: Paint, z: Node)
    requires RedAt(g, p, z) && p.C(g.link[z].parent) == Black
    ensures g.root in g.link && RedBlack(g, BlackTop(p, g.root))
  {
    assert Linked(g, z);
    assert Linked(g, g.root);
    forall n | n in g.link
      ensures BlackOk(g.link, BlackTop(p, g.root), n) && RedOk(g.link, BlackTop(p, g.root), n, null)
    {
      assert Linked(g, n) && BlackOk(g.link, p, n) && RedOk(g.link, p, n, z);
      BlackenNode(g, p, z, n);
    }
  }
}
