/** What each step of the delete fixup does to colours and black heights. */
module RedBlackDelete {
  import opened RedBlackGraph
  import opened RedBlackBalance

  // The kid x of q on side d misses one black node; everything else is in order, except
  // that x may be a red node under, or over, another red node.
  ghost predicate Mending(g: Graph, p: Paint, x: Node, q: Node?, d: Side) {
    && Shape(g) && Painted(g, p) && (x == g.nil || x in g.link)
    && AllRedOk(g.link, p, x, {x})
    && (x == g.root ==> AllBlackOk(g.link, p, {}))
    && (x != g.root ==> q in g.link && Short(g.link, p, x, q, d) && AllBlackOk(g.link, p, {q}) && p.C(g.root) == Black)
  }

  ghost predicate Short(link: map<Node, Link>, p: Paint, x: Node, q: Node, d: Side)
    requires q in link
  {
    var w := link[q].Kid(d.Other());
    link[q].Kid(d) == x && 0 <= p.H(x) && p.H(x) + 1 == p.H(w) && p.H(q) == p.H(w) + Weight(p.C(q))
  }

  ghost function DeleteRank(g: Graph, p: Paint, x: Node): int {
    if x == g.root || p.C(x) == Red then 0 else 1 + |g.order| - Size(g, x)
  }

  // The sibling of a short, black x is a node with both kids at x's height or one above.
  ghost predicate Sibling(g: Graph, p: Paint, x: Node, q: Node, d: Side, w: Node) {
    && Mending(g, p, x, q, d) && x != g.root && p.C(x) == Black
    && q in g.link && w in g.link && w == g.link[q].Kid(d.Other())
    && w != x && w != q && x != q && g.link[w].parent == q
    && g.link[w].left != null && g.link[w].right != null
    && g.link[w].left != q && g.link[w].right != q
    && (x != g.nil ==> g.link[w].left != x && g.link[w].right != x)
    && g.link[w].left != w && g.link[w].right != w
    && BlackOk(g.link, p, w)
    && (p.C(w) == Red ==> p.C(q) == p.C(g.link[w].left) == p.C(g.link[w].right) == Black)
  }

  lemma SiblingIsNode(g: Graph, p: Paint, x: Node, q: Node, d: Side) returns (w: Node)
    requires Mending(g, p, x, q, d) && x != g.root && p.C(x) == Black
    ensures Sibling(g, p, x, q, d, w)
    ensures 0 < DeleteRank(g, p, x) && (x != g.nil ==> g.link[x].parent == q)
    ensures g.nil !in g.link && g.link[q].Kid(d) == x
  {
    assert Linked(g, q);
    w := g.link[q].Kid(d.Other());
    assert Linked(g, w);
    assert BlackOk(g.link, p, w) && RedOk(g.link, p, w, x) && RedOk(g.link, p, q, x);
    assert x != g.nil ==> Linked(g, x);
  }

  lemma SiblingRotates(g: Graph, p: Paint, x: Node, q: Node, d: Side, w: Node)
    requires Sibling(g, p, x, q, d, w)
    ensures CanRotate(g, q, d)
  {
    CanRotateIn(g, q, d);
  }

  // ---------- a red sibling: rotate it above q, so that the next sibling is black ----------

  ghost function RedSiblingPaint(p: Paint, q: Node, w: Node): Paint {
    p.Put(w, Black, p.H(w) + 1).Put(q, Red, p.H(q) - 1)
  }

  // Away from q and w the only change to a kid is that w replaces q.
  lemma RedSiblingKids(g: Graph, p: Paint, x: Node, q: Node, d: Side, w: Node, g': Graph, n: Node)
    requires Sibling(g, p, x, q, d, w) && Rotated(g, q, d, g') && n in g.link && n != q && n != w
    ensures n in g'.link && g.link[n].left != w && g.link[n].right != w
    ensures g'.link[n].left == if g.link[n].left == q then w else g.link[n].left
    ensures g'.link[n].right == if g.link[n].right == q then w else g.link[n].right
  {
    assert Linked(g, n) && Linked(g, q) && Linked(g, w);
    hide Mending, Shape, BlackOk, RedOk;
    RotatedKids(g, q, d, g', n);
    OnlyParent(g, w, n);
  }

  lemma RedSiblingBlackTop(g: Graph, p: Paint, x: Node, q: Node, d: Side, w: Node, g': Graph)
    requires Sibling(g, p, x, q, d, w) && p.C(w) == Red && Rotated(g, q, d, g')
    ensures BlackOk(g'.link, RedSiblingPaint(p, q, w), w)
  {
    hide RedOk, AllRedOk, AllBlackOk, Linked, Shape;
  }

  lemma RedSiblingBlackRest(g: Graph, p: Paint, x: Node, q: Node, d: Side, w: Node, g': Graph, n: Node)
    requires Sibling(g, p, x, q, d, w) && p.C(w) == Red && Rotated(g, q, d, g')
    requires n in g.link && n != q && n != w
    ensures BlackOk(g'.link, RedSiblingPaint(p, q, w), n)
  {
    hide RedOk, AllRedOk, Linked, Shape, Rotated;
    assert BlackOk(g.link, p, n);
    RedSiblingKids(g, p, x, q, d, w, g', n);
    hide Mending, AllBlackOk;
    MovedBlack(g.link, g'.link, p, RedSiblingPaint(p, q, w), q, w, n);
  }

  lemma RedSiblingRed(g: Graph, p: Paint, x: Node, q: Node, d: Side, w: Node, g': Graph, n: Node)
    requires Sibling(g, p, x, q, d, w) && p.C(w) == Red && Rotated(g, q, d, g')
    requires n in g.link && n != x
    ensures RedOk(g'.link, RedSiblingPaint(p, q, w), n, x)
  {
    hide BlackOk, AllBlackOk, Linked, Shape;
    assert RedOk(g.link, p, n, x);
    if n != q && n != w {
      RedSiblingKids(g, p, x, q, d, w, g', n);
      hide Rotated;
    }
    hide Mending;
  }

  lemma RedSiblingAll(g: Graph, p: Paint, x: Node, q: Node, d: Side, w: Node, g': Graph)
    requires Sibling(g, p, x, q, d, w) && p.C(w) == Red && Rotated(g, q, d, g')
    ensures AllBlackOk(g'.link, RedSiblingPaint(p, q, w), {q})
    ensures AllRedOk(g'.link, RedSiblingPaint(p, q, w), x, {x})
  {
    var p' := RedSiblingPaint(p, q, w);
    RedSiblingBlackTop(g, p, x, q, d, w, g');
    forall n | n in g'.link && n !in {q} ensures BlackOk(g'.link, p', n) {
      if n != w { RedSiblingBlackRest(g, p, x, q, d, w, g', n); }
    }
    forall n | n in g'.link && n !in {x} ensures RedOk(g'.link, p', n, x) { RedSiblingRed(g, p, x, q, d, w, g', n); }
  }

  lemma RedSiblingShort(g: Graph, p: Paint, x: Node, q: Node, d: Side, w: Node, g': Graph)
    requires Sibling(g, p, x, q, d, w) && p.C(w) == Red && Rotated(g, q, d, g')
    ensures var p' := RedSiblingPaint(p, q, w);
      && q in g'.link && Short(g'.link, p', x, q, d) && p'.C(g'.link[q].Kid(d.Other())) == Black
      && x != g'.root && p'.C(x) == Black && p'.C(q) == Red && p'.C(g'.root) == Black && Painted(g', p')
  {
    hide AllRedOk, AllBlackOk;
    assert Linked(g, w);
    hide Linked, Shape;
  }

  lemma RedSibling(g: Graph, p: Paint, x: Node, q: Node, d: Side, w: Node, g': Graph)
    requires Sibling(g, p, x, q, d, w) && p.C(w) == Red && Rotated(g, q, d, g')
    ensures var p' := RedSiblingPaint(p, q, w);
      Mending(g', p', x, q, d) && x != g'.root && p'.C(x) == Black && p'.C(q) == Red
    ensures RedSiblingPaint(p, q, w).C(g'.link[q].Kid(d.Other())) == Black
  {
    RedSiblingAll(g, p, x, q, d, w, g');
    RotatedShape(g, q, d, g');
    RedSiblingShort(g, p, x, q, d, w, g');
    hide AllRedOk, AllBlackOk, Shape, Short, RedSiblingPaint, CanRotate;
  }

  // ---------- a black sibling with black kids: take one black off the sibling and move up ----------

  ghost function BlackKidsPaint(p: Paint, q: Node, w: Node): Paint {
    p.Put(w, Red, p.H(w) - 1).Put(q, p.C(q), p.H(q) - 1)
  }

  // The parent of q is the next place to mend.
  ghost predicate Above(g: Graph, q: Node, r: Node?, e: Side) {
    q in g.link && g.link[q].parent == r && (q != g.root ==> r in g.link && r != q && g.link[r].Kid(e) == q)
  }

  lemma BlackKidsBlackEnds(g: Graph, p: Paint, x: Node, q: Node, d: Side, w: Node)
    requires Sibling(g, p, x, q, d, w) && p.C(w) == p.C(g.link[w].left) == p.C(g.link[w].right) == Black
    ensures BlackOk(g.link, BlackKidsPaint(p, q, w), q) && BlackOk(g.link, BlackKidsPaint(p, q, w), w)
  {
    hide RedOk, AllRedOk, AllBlackOk, Linked, Shape;
  }

  lemma BlackKidsBlackRest(g: Graph, p: Paint, x: Node, q: Node, d: Side, w: Node, n: Node)
    requires Sibling(g, p, x, q, d, w) && p.C(w) == p.C(g.link[w].left) == p.C(g.link[w].right) == Black
    requires n in g.link && n != g.link[q].parent && n != q && n != w
    ensures BlackOk(g.link, BlackKidsPaint(p, q, w), n)
  {
    hide RedOk, AllRedOk;
    assert BlackOk(g.link, p, n) && Linked(g, n);
    OnlyParent(g, q, n);
    OnlyParent(g, w, n);
    hide Linked, Shape, AllBlackOk, Mending, Sibling;
  }

  lemma BlackKidsRed(g: Graph, p: Paint, x: Node, q: Node, d: Side, w: Node, n: Node)
    requires Sibling(g, p, x, q, d, w) && p.C(w) == p.C(g.link[w].left) == p.C(g.link[w].right) == Black
    requires n in g.link && n != q
    ensures RedOk(g.link, BlackKidsPaint(p, q, w), n, q)
  {
    hide BlackOk, AllBlackOk;
    assert n != x ==> RedOk(g.link, p, n, x);
    assert Linked(g, n) && Linked(g, q) && Linked(g, w);
  }

  lemma BlackKidsAll(g: Graph, p: Paint, x: Node, q: Node, d: Side, w: Node, r: Node?)
    requires Sibling(g, p, x, q, d, w) && p.C(w) == p.C(g.link[w].left) == p.C(g.link[w].right) == Black
    requires g.link[q].parent == r
    ensures AllBlackOk(g.link, BlackKidsPaint(p, q, w), if r in g.link then {r} else {})
    ensures AllRedOk(g.link, BlackKidsPaint(p, q, w), q, {q})
  {
    var p' := BlackKidsPaint(p, q, w);
    BlackKidsBlackEnds(g, p, x, q, d, w);
    forall n | n in g.link && n != r ensures BlackOk(g.link, p', n) {
      if n != q && n != w { BlackKidsBlackRest(g, p, x, q, d, w, n); }
    }
    forall n | n in g.link && n !in {q} ensures RedOk(g.link, p', n, q) { BlackKidsRed(g, p, x, q, d, w, n); }
  }

  lemma BlackKids(g: Graph, p: Paint, x: Node, q: Node, d: Side, w: Node) returns (r: Node?, e: Side)
    requires Sibling(g, p, x, q, d, w) && p.C(w) == p.C(g.link[w].left) == p.C(g.link[w].right) == Black
    ensures Above(g, q, r, e) && Mending(g, BlackKidsPaint(p, q, w), q, r, e) && g.link[q].parent == r
    ensures 0 <= DeleteRank(g, BlackKidsPaint(p, q, w), q) < DeleteRank(g, p, x)
    ensures Size(g, x) < Size(g, q) <= |g.order|
  {
    hide AllRedOk, AllBlackOk;
    r := g.link[q].parent;
    BlackKidsAll(g, p, x, q, d, w, r);
    assert Linked(g, q) && (q != g.root ==> Linked(g, r));
    e := if r in g.link && g.link[r].left == q then Left else Right;
    if q != g.root { AboveShort(g, p, x, q, d, w, r, e); }
  }

  lemma AboveShort(g: Graph, p: Paint, x: Node, q: Node, d: Side, w: Node, r: Node, e: Side)
    requires Sibling(g, p, x, q, d, w) && p.C(w) == p.C(g.link[w].left) == p.C(g.link[w].right) == Black
    requires Above(g, q, r, e) && q != g.root
    ensures Short(g.link, BlackKidsPaint(p, q, w), q, r, e)
  {
    assert BlackOk(g.link, p, r) && Linked(g, r) && Linked(g, w);
  }

  // ---------- the far nephew is black, the near one red: rotate the near one above the sibling ----------

  ghost function NearRedPaint(p: Paint, w: Node, v: Node): Paint {
    p.Put(v, Black, p.H(v) + 1).Put(w, Red, p.H(w) - 1)
  }

  ghost predicate NearRed(g: Graph, p: Paint, x: Node, q: Node, d: Side, w: Node, v: Node) {
    && Sibling(g, p, x, q, d, w) && p.C(w) == Black && v == g.link[w].Kid(d) && v in g.link
    && p.C(v) == Red && p.C(g.link[w].Kid(d.Other())) == Black
  }

  lemma NearRedRotates(g: Graph, p: Paint, x: Node, q: Node, d: Side, w: Node, v: Node)
    requires NearRed(g, p, x, q, d, w, v)
    ensures CanRotate(g, w, d.Other())
  {
    CanRotateIn(g, w, d.Other());
  }

  lemma NearRedHeight(g: Graph, p: Paint, x: Node, q: Node, d: Side, w: Node, v: Node)
    requires NearRed(g, p, x, q, d, w, v)
    ensures p.H(w) == p.H(v) + 1 && p.H(v) == p.H(g.link[w].Kid(d.Other())) && g.link[v].left != null
    ensures g.link[v].right != null
    ensures p.H(g.link[v].left) == p.H(g.link[v].right) == p.H(v) && 0 <= p.H(v)
    ensures g.link[v].left != w && g.link[v].right != w && g.link[v].left != v && g.link[v].right != v && w != v
    ensures v != q
    ensures g.link[w].Kid(d.Other()) != v && g.link[w].Kid(d.Other()) != w
    ensures g.link[v].left != g.link[w].Kid(d.Other()) || g.link[v].left == g.nil
  {
    assert Linked(g, w) && Linked(g, v) && Linked(g, q);
    assert BlackOk(g.link, p, v);
  }

  lemma NearRedBlackEnds(g: Graph, p: Paint, x: Node, q: Node, d: Side, w: Node, v: Node, g': Graph)
    requires NearRed(g, p, x, q, d, w, v) && Rotated(g, w, d.Other(), g')
    ensures BlackOk(g'.link, NearRedPaint(p, w, v), w) && BlackOk(g'.link, NearRedPaint(p, w, v), v)
  {
    hide RedOk, AllRedOk, AllBlackOk, Shape, Mending;
    NearRedHeight(g, p, x, q, d, w, v);
  }

  // Away from w and v the only change to a kid is that v replaces w.
  lemma NearRedKids(g: Graph, p: Paint, x: Node, q: Node, d: Side, w: Node, v: Node, g': Graph, n: Node)
    requires NearRed(g, p, x, q, d, w, v) && Rotated(g, w, d.Other(), g') && n in g.link && n != w && n != v
    ensures n in g'.link && g.link[n].left != v && g.link[n].right != v
    ensures g'.link[n].left == if g.link[n].left == w then v else g.link[n].left
    ensures g'.link[n].right == if g.link[n].right == w then v else g.link[n].right
  {
    assert Linked(g, n) && Linked(g, w) && Linked(g, v);
    hide Mending, Shape, BlackOk, RedOk;
    RotatedKids(g, w, d.Other(), g', n);
    OnlyParent(g, v, n);
  }

  lemma NearRedBlackRest(g: Graph, p: Paint, x: Node, q: Node, d: Side, w: Node, v: Node, g': Graph, n: Node)
    requires NearRed(g, p, x, q, d, w, v) && Rotated(g, w, d.Other(), g') && n in g.link && n != q && n != w && n != v
    ensures BlackOk(g'.link, NearRedPaint(p, w, v), n)
  {
    hide RedOk, AllRedOk, Linked, Shape, Rotated;
    assert BlackOk(g.link, p, n);
    NearRedKids(g, p, x, q, d, w, v, g', n);
    NearRedHeight(g, p, x, q, d, w, v);
    hide Mending, Sibling;
    MovedBlack(g.link, g'.link, p, NearRedPaint(p, w, v), w, v, n);
  }

  // v is black now, and w, which is red, has v's far kid and its own, both black.
  lemma NearRedRedEnds(g: Graph, p: Paint, x: Node, q: Node, d: Side, w: Node, v: Node, g': Graph)
    requires NearRed(g, p, x, q, d, w, v) && Rotated(g, w, d.Other(), g')
    ensures RedOk(g'.link, NearRedPaint(p, w, v), w, x) && RedOk(g'.link, NearRedPaint(p, w, v), v, x)
  {
    NearRedHeight(g, p, x, q, d, w, v);
    assert v != x && RedOk(g.link, p, v, x);
    hide BlackOk, AllBlackOk, AllRedOk, Linked, Shape, Mending;
  }

  lemma NearRedRedRest(g: Graph, p: Paint, x: Node, q: Node, d: Side, w: Node, v: Node, g': Graph, n: Node)
    requires NearRed(g, p, x, q, d, w, v) && Rotated(g, w, d.Other(), g') && n in g.link
    requires n != x && n != w && n != v
    ensures RedOk(g'.link, NearRedPaint(p, w, v), n, x)
  {
    hide BlackOk, AllBlackOk, Linked, Shape, Rotated;
    assert RedOk(g.link, p, n, x);
    NearRedKids(g, p, x, q, d, w, v, g', n);
    hide AllRedOk, Mending;
  }

  lemma NearRedAll(g: Graph, p: Paint, x: Node, q: Node, d: Side, w: Node, v: Node, g': Graph)
    requires NearRed(g, p, x, q, d, w, v) && Rotated(g, w, d.Other(), g')
    ensures AllBlackOk(g'.link, NearRedPaint(p, w, v), {q}) && AllRedOk(g'.link, NearRedPaint(p, w, v), x, {x})
  {
    var p' := NearRedPaint(p, w, v);
    NearRedBlackEnds(g, p, x, q, d, w, v, g');
    forall n | n in g'.link && n !in {q} ensures BlackOk(g'.link, p', n) {
      if n != w && n != v { NearRedBlackRest(g, p, x, q, d, w, v, g', n); }
    }
    NearRedRedEnds(g, p, x, q, d, w, v, g');
    forall n | n in g'.link && n !in {x} ensures RedOk(g'.link, p', n, x) {
      if n != w && n != v { NearRedRedRest(g, p, x, q, d, w, v, g', n); }
    }
  }

  lemma NearRedLinks(g: Graph, p: Paint, x: Node, q: Node, d: Side, w: Node, v: Node, g': Graph)
    requires NearRed(g, p, x, q, d, w, v) && Rotated(g, w, d.Other(), g')
    ensures q in g'.link && v in g'.link && w in g'.link
    ensures g'.link[q].Kid(d) == x && g'.link[q].Kid(d.Other()) == v && g'.link[v].Kid(d.Other()) == w
    ensures v != x && v != q && v != w && w != x && w != q && w != g.root && v != g.root && g'.root == g.root
    ensures g'.link.Keys == g.link.Keys && g'.nil == g.nil
  {
    hide BlackOk, RedOk, AllBlackOk, AllRedOk;
    assert Linked(g, w) && Linked(g, v) && Linked(g, q);
  }

  // x is as short against the raised nephew, one higher now, as it was against the old sibling.
  lemma RaisedShort(
      link: map<Node, Link>, link': map<Node, Link>, p: Paint, x: Node, q: Node, d: Side, w: Node, v: Node)
    requires q in link && q in link' && Short(link, p, x, q, d) && link[q].Kid(d.Other()) == w
    requires link'[q].Kid(d) == x && link'[q].Kid(d.Other()) == v
    requires x != w && x != v && q != w && q != v && w != v && p.H(w) == p.H(v) + 1
    ensures Short(link', NearRedPaint(p, w, v), x, q, d)
  {
  }

  lemma NearRedTop(g: Graph, p: Paint, x: Node, q: Node, d: Side, w: Node, v: Node, g': Graph)
    requires NearRed(g, p, x, q, d, w, v) && Rotated(g, w, d.Other(), g')
    ensures var p' := NearRedPaint(p, w, v);
      && q in g'.link && Short(g'.link, p', x, q, d) && Painted(g', p') && (x == g'.nil || x in g'.link)
      && x != g'.root && p'.C(g'.root) == Black
  {
    NearRedLinks(g, p, x, q, d, w, v, g');
    NearRedHeight(g, p, x, q, d, w, v);
    hide RedOk, Linked, BlackOk, AllBlackOk, AllRedOk, Shape, Rotated, CanRotate;
    RaisedShort(g.link, g'.link, p, x, q, d, w, v);
    hide Short;
  }

  lemma NearRedMending(g: Graph, p: Paint, x: Node, q: Node, d: Side, w: Node, v: Node, g': Graph)
    requires NearRed(g, p, x, q, d, w, v) && Rotated(g, w, d.Other(), g')
    ensures Mending(g', NearRedPaint(p, w, v), x, q, d)
  {
    NearRedAll(g, p, x, q, d, w, v, g');
    NearRedTop(g, p, x, q, d, w, v, g');
    assert Shape(g) by { hide AllRedOk, AllBlackOk, Linked, Short, BlackOk; }
    RotatedShape(g, w, d.Other(), g');
    hide AllRedOk, AllBlackOk, Shape, Short, Painted, Rotated, NearRed, NearRedPaint;
  }

  lemma NearRedShort(g: Graph, p: Paint, x: Node, q: Node, d: Side, w: Node, v: Node, g': Graph)
    requires NearRed(g, p, x, q, d, w, v) && Rotated(g, w, d.Other(), g')
    ensures var p' := NearRedPaint(p, w, v);
      Mending(g', p', x, q, d) && x != g'.root && p'.C(x) == Black
      && g'.link[q].Kid(d.Other()) == v && g'.link[v].Kid(d.Other()) == w && p'.C(v) == Black && p'.C(w) == Red
  {
    NearRedMending(g, p, x, q, d, w, v, g');
    NearRedLinks(g, p, x, q, d, w, v, g');
    hide AllRedOk, AllBlackOk, Shape, Short, Rotated, Painted, BlackOk;
  }

  // ---------- the far nephew is red: rotate the sibling above q; nothing is missing any more ----------

  ghost function FarRedPaint(p: Paint, q: Node, w: Node, f: Node): Paint {
    p.Put(w, p.C(q), p.H(q)).Put(q, Black, p.H(w)).Put(f, Black, p.H(f) + 1)
  }

  ghost predicate FarRed(g: Graph, p: Paint, x: Node, q: Node, d: Side, w: Node, f: Node) {
    && Sibling(g, p, x, q, d, w) && p.C(w) == Black && f == g.link[w].Kid(d.Other()) && f in g.link && p.C(f) == Red
    && f != q && f != x && f != w
  }

  lemma FarRedFrom(g: Graph, p: Paint, x: Node, q: Node, d: Side, w: Node)
    requires Sibling(g, p, x, q, d, w) && p.C(w) == Black && p.C(g.link[w].Kid(d.Other())) == Red
    ensures g.link[w].Kid(d.Other()) in g.link && FarRed(g, p, x, q, d, w, g.link[w].Kid(d.Other()))
  {
  }

  lemma FarRedRotates(g: Graph, p: Paint, x: Node, q: Node, d: Side, w: Node, f: Node)
    requires FarRed(g, p, x, q, d, w, f)
    ensures CanRotate(g, q, d)
  {
    CanRotateIn(g, q, d);
  }

  lemma FarRedEnds(g: Graph, p: Paint, x: Node, q: Node, d: Side, w: Node, f: Node)
    requires FarRed(g, p, x, q, d, w, f)
    ensures Painted(g, p) && p.H(q) == p.H(w) + Weight(p.C(q)) && p.H(w) == p.H(x) + 1 && 0 <= p.H(x)
    ensures g.link[q].Kid(d) == x
    ensures g.link[w].Kid(d) != q && g.link[w].Kid(d) != w && g.link[w].Kid(d) != f && x != w && x != f
  {
    assert Linked(g, w) && Linked(g, q) && Linked(g, f);
  }

  lemma FarRedBlackTop(g: Graph, p: Paint, x: Node, q: Node, d: Side, w: Node, f: Node, g': Graph)
    requires FarRed(g, p, x, q, d, w, f) && Rotated(g, q, d, g')
    ensures BlackOk(g'.link, FarRedPaint(p, q, w, f), w)
  {
    FarRedEnds(g, p, x, q, d, w, f);
    hide RedOk, AllRedOk, AllBlackOk, Shape, Mending, Linked;
  }

  lemma FarRedBlackLow(g: Graph, p: Paint, x: Node, q: Node, d: Side, w: Node, f: Node, g': Graph)
    requires FarRed(g, p, x, q, d, w, f) && Rotated(g, q, d, g')
    ensures BlackOk(g'.link, FarRedPaint(p, q, w, f), q)
  {
    FarRedEnds(g, p, x, q, d, w, f);
    hide RedOk, AllRedOk, AllBlackOk, Shape, Mending, Linked;
  }

  // Away from the ends, the kids of a node are painted as before, but for w in the place of q.
  lemma FarRedKids(g: Graph, p: Paint, x: Node, q: Node, d: Side, w: Node, f: Node, g': Graph, n: Node)
    requires FarRed(g, p, x, q, d, w, f) && Rotated(g, q, d, g') && n in g.link && n != w && n != q
    ensures n in g'.link && Linked(g, n)
    ensures g'.link[n].left == if g.link[n].left == q then w else g.link[n].left
    ensures g'.link[n].right == if g.link[n].right == q then w else g.link[n].right
    ensures g.link[n].left != w && g.link[n].left != f && g.link[n].right != w && g.link[n].right != f
  {
    hide BlackOk, AllBlackOk, RedOk, AllRedOk;
    assert Linked(g, n) && Linked(g, w) && Linked(g, q);
    RotatedKids(g, q, d, g', n);
    OnlyParent(g, w, n);
    OnlyParent(g, f, n);
  }

  lemma FarRedBlackRest(g: Graph, p: Paint, x: Node, q: Node, d: Side, w: Node, f: Node, g': Graph, n: Node)
    requires FarRed(g, p, x, q, d, w, f) && Rotated(g, q, d, g') && n in g.link && n != w && n != q
    ensures BlackOk(g'.link, FarRedPaint(p, q, w, f), n)
  {
    hide RedOk, AllRedOk, Linked, Shape, Rotated;
    assert BlackOk(g.link, p, n);
    FarRedKids(g, p, x, q, d, w, f, g', n);
    if n != f { MovedBlack(g.link, g'.link, p, FarRedPaint(p, q, w, f), q, w, n); }
  }

  lemma FarRedRedEnds(g: Graph, p: Paint, x: Node, q: Node, d: Side, w: Node, f: Node, g': Graph)
    requires FarRed(g, p, x, q, d, w, f) && Rotated(g, q, d, g')
    ensures RedOk(g'.link, FarRedPaint(p, q, w, f), w, null) && RedOk(g'.link, FarRedPaint(p, q, w, f), q, null)
  {
    hide BlackOk, AllBlackOk, AllRedOk;
  }

  lemma FarRedRedRest(g: Graph, p: Paint, x: Node, q: Node, d: Side, w: Node, f: Node, g': Graph, n: Node)
    requires FarRed(g, p, x, q, d, w, f) && Rotated(g, q, d, g') && n in g.link && n != w && n != q
    ensures RedOk(g'.link, FarRedPaint(p, q, w, f), n, null)
  {
    hide BlackOk, AllBlackOk, Shape, Rotated;
    assert n != x ==> RedOk(g.link, p, n, x);
    FarRedKids(g, p, x, q, d, w, f, g', n);
  }

  lemma FarRedAll(g: Graph, p: Paint, x: Node, q: Node, d: Side, w: Node, f: Node, g': Graph)
    requires FarRed(g, p, x, q, d, w, f) && Rotated(g, q, d, g')
    ensures AllBlackOk(g'.link, FarRedPaint(p, q, w, f), {}) && AllRedOk(g'.link, FarRedPaint(p, q, w, f), null, {})
  {
    var p' := FarRedPaint(p, q, w, f);
    FarRedBlackTop(g, p, x, q, d, w, f, g');
    FarRedBlackLow(g, p, x, q, d, w, f, g');
    FarRedRedEnds(g, p, x, q, d, w, f, g');
    forall n | n in g'.link ensures BlackOk(g'.link, p', n) && RedOk(g'.link, p', n, null) {
      if n != w && n != q {
        FarRedBlackRest(g, p, x, q, d, w, f, g', n);
        FarRedRedRest(g, p, x, q, d, w, f, g', n);
      }
    }
  }

  lemma FarRedMended(g: Graph, p: Paint, x: Node, q: Node, d: Side, w: Node, f: Node, g': Graph)
    requires FarRed(g, p, x, q, d, w, f) && Rotated(g, q, d, g')
    ensures RedBlack(g', FarRedPaint(p, q, w, f)) && g'.root in g'.link
    ensures Mending(g', FarRedPaint(p, q, w, f), g'.root, null, d)
  {
    FarRedAll(g, p, x, q, d, w, f, g');
    FarRedTop(g, p, x, q, d, w, f, g');
    assert Shape(g) by { hide AllRedOk, AllBlackOk, Linked, Short, BlackOk; }
    RotatedShape(g, q, d, g');
    TolerateRoot(g'.link, FarRedPaint(p, q, w, f), g'.root);
    hide AllRedOk, AllBlackOk, Shape, Painted, Rotated, FarRed, FarRedPaint, Short;
  }

  lemma FarRedTop(g: Graph, p: Paint, x: Node, q: Node, d: Side, w: Node, f: Node, g': Graph)
    requires FarRed(g, p, x, q, d, w, f) && Rotated(g, q, d, g')
    ensures g'.root in g'.link && Painted(g', FarRedPaint(p, q, w, f)) && FarRedPaint(p, q, w, f).C(g'.root) == Black
  {
    hide AllRedOk, AllBlackOk, BlackOk, RedOk;
    assert Linked(g, q) && Linked(g, w);
  }

  lemma TolerateRoot(link: map<Node, Link>, p: Paint, z: Node)
    requires AllRedOk(link, p, null, {})
    ensures AllRedOk(link, p, z, {z})
  {
    forall n | n in link ensures RedOk(link, p, n, z) { assert RedOk(link, p, n, null); }
  }
}
