/** What adding, taking out and replacing a node does to colours and black heights. */
module RedBlackRepaint {
  import opened RedBlackGraph
  import opened RedBlackBalance
  import opened RedBlackSurgery
  import opened RedBlackDelete

  // ---------- a new red leaf ----------

  lemma AttachNode(g: Graph, p: Paint, z: Node, y: Node, d: Side, n: Node)
    requires CanAttach(g, z, y, d) && 0 <= Place(g, y, d) <= |g.order| && g.nil !in g.link && Painted(g, p)
    requires Linked(g, n) && BlackOk(g.link, p, n) && RedOk(g.link, p, n, null)
    ensures BlackOk(Attach(g, z, y, d).link, p.Put(z, Red, 0), n)
    ensures RedOk(Attach(g, z, y, d).link, p.Put(z, Red, 0), n, z)
  {
  }

  lemma AttachAll(g: Graph, p: Paint, z: Node, y: Node, d: Side)
    requires RedBlack(g, p) && CanAttach(g, z, y, d) && 0 <= Place(g, y, d) <= |g.order|
    ensures AllBlackOk(Attach(g, z, y, d).link, p.Put(z, Red, 0), {})
    ensures AllRedOk(Attach(g, z, y, d).link, p.Put(z, Red, 0), z, {})
  {
    var g', p' := Attach(g, z, y, d), p.Put(z, Red, 0);
    assert BlackOk(g'.link, p', z) && RedOk(g'.link, p', z, z);
    forall n | n in g'.link ensures BlackOk(g'.link, p', n) && RedOk(g'.link, p', n, z) {
      if n != z {
        assert Linked(g, n) && BlackOk(g.link, p, n) && RedOk(g.link, p, n, null);
        AttachNode(g, p, z, y, d, n);
      }
    }
  }

  lemma AttachRedAt(g: Graph, p: Paint, z: Node, y: Node, d: Side)
    requires RedBlack(g, p) && CanAttach(g, z, y, d)
    ensures 0 <= Place(g, y, d) <= |g.order| && RedAt(Attach(g, z, y, d), p.Put(z, Red, 0), z)
  {
    hide AllBlackOk, AllRedOk, Linked, Placed;
    AttachShape(g, z, y, d);
    AttachAll(g, p, z, y, d);
  }

  // ---------- taking out a node ----------

  lemma SpliceHeights(g: Graph, p: Paint, z: Node, v: Node, d: Side)
    requires RedBlack(g, p) && CanSplice(g, z, v, d)
    ensures p.H(z) == p.H(v) + Weight(p.C(z)) && 0 <= p.H(v) && (p.C(z) == Red ==> v == g.nil && z != g.root)
    ensures Linked(g, z) && (v != g.nil ==> Linked(g, v)) && v != z
  {
    assert Linked(g, z) && BlackOk(g.link, p, z) && RedOk(g.link, p, z, null);
    if v != g.nil {
      assert Linked(g, v) && BlackOk(g.link, p, v);
      assert g.link[v].left != g.nil ==> Linked(g, g.link[v].left) && BlackOk(g.link, p, g.link[v].left);
    }
  }

  lemma SpliceKids(g: Graph, z: Node, v: Node, d: Side, n: Node)
    requires CanSplice(g, z, v, d) && Linked(g, z) && Linked(g, n) && n != z && g.nil !in g.link
    ensures n in SpliceOut(g, z, v).link
    ensures SpliceOut(g, z, v).link[n].left == if g.link[n].left == z then v else g.link[n].left
    ensures SpliceOut(g, z, v).link[n].right == if g.link[n].right == z then v else g.link[n].right
    ensures g.link[n].left == z || g.link[n].right == z ==> n == g.link[z].parent
  {
    assert KidOk(g, n, Left) && KidOk(g, n, Right) && ParentOk(g, z);
  }

  lemma SpliceBlack(g: Graph, p: Paint, z: Node, v: Node, d: Side, n: Node)
    requires RedBlack(g, p) && CanSplice(g, z, v, d)
    requires n in g.link && n != z && (p.C(z) == Black ==> n != g.link[z].parent)
    ensures BlackOk(SpliceOut(g, z, v).link, p.Drop(z), n)
  {
    hide RedOk, KidOk;
    SpliceHeights(g, p, z, v, d);
    assert Linked(g, n) && BlackOk(g.link, p, n);
    SpliceKids(g, z, v, d, n);
    hide Linked;
  }

  lemma SpliceRed(g: Graph, p: Paint, z: Node, v: Node, d: Side, n: Node)
    requires RedBlack(g, p) && CanSplice(g, z, v, d) && n in g.link && n != z
    ensures RedOk(SpliceOut(g, z, v).link, p.Drop(z), n, v)
  {
    hide BlackOk, KidOk;
    assert Linked(g, n) && Linked(g, z) && RedOk(g.link, p, n, null);
    SpliceKids(g, z, v, d, n);
    hide Linked;
  }

  // A red node can be taken out; a black one leaves its kid one black node short.
  lemma SpliceMending(g: Graph, p: Paint, z: Node, v: Node, d: Side) returns (e: Side)
    requires RedBlack(g, p) && CanSplice(g, z, v, d)
    ensures p.C(z) == Red ==> RedBlack(SpliceOut(g, z, v), p.Drop(z))
    ensures p.C(z) == Black ==> Mending(SpliceOut(g, z, v), p.Drop(z), v, g.link[z].parent, e)
  {
    hide BlackOk, RedOk, Linked, KidOk;
    var g', p', q := SpliceOut(g, z, v), p.Drop(z), g.link[z].parent;
    SpliceHeights(g, p, z, v, d);
    SpliceShape(g, z, v, d);
    forall n | n in g'.link && (p.C(z) == Black ==> n != q) ensures BlackOk(g'.link, p', n) {
      SpliceBlack(g, p, z, v, d, n);
    }
    forall n | n in g'.link ensures RedOk(g'.link, p', n, v) { SpliceRed(g, p, z, v, d, n); }
    if p.C(z) == Red {
      forall n | n in g'.link ensures RedOk(g'.link, p', n, null) { SpliceRedNil(g, p, z, v, d, n); }
      e := Left;
    } else {
      e := SpliceShort(g, p, z, v, d);
    }
  }

  lemma SpliceRedNil(g: Graph, p: Paint, z: Node, v: Node, d: Side, n: Node)
    requires RedBlack(g, p) && CanSplice(g, z, v, d) && p.C(z) == Red && n in g.link && n != z
    ensures RedOk(SpliceOut(g, z, v).link, p.Drop(z), n, null)
  {
    SpliceHeights(g, p, z, v, d);
    SpliceRed(g, p, z, v, d, n);
  }

  lemma SpliceShort(g: Graph, p: Paint, z: Node, v: Node, d: Side) returns (e: Side)
    requires RedBlack(g, p) && CanSplice(g, z, v, d) && p.C(z) == Black
    ensures var g', q := SpliceOut(g, z, v), g.link[z].parent;
      v != g'.root ==> q in g'.link && Short(g'.link, p.Drop(z), v, q, e) && p.Drop(z).C(g'.root) == Black
    ensures v == g.nil || v in SpliceOut(g, z, v).link
    ensures v == SpliceOut(g, z, v).root ==> g.link[z].parent !in SpliceOut(g, z, v).link
  {
    hide RedOk, AllRedOk;
    SpliceHeights(g, p, z, v, d);
    SpliceAbove(g, p, z);
    var q := g.link[z].parent;
    e := if q in g.link && g.link[q].left == z then Left else Right;
    hide Shape, Linked, AllBlackOk;
  }

  lemma SpliceAbove(g: Graph, p: Paint, z: Node)
    requires RedBlack(g, p) && z in g.link
    ensures var q := g.link[z].parent;
      && (q == g.nil <==> z == g.root)
      && (q != g.nil ==> q in g.link && q != z && BlackOk(g.link, p, q))
      && (q != g.nil ==> (g.link[q].left == z || g.link[q].right == z) && g.link[q].left != q && g.link[q].right != q)
      && (q != g.nil && g.link[q].left == g.link[q].right ==> g.link[q].left == g.nil)
    ensures g.root in g.link && g.nil !in g.link
    ensures forall m :: m in g.link && (g.link[z].left == m || g.link[z].right == m) ==>
      m != g.link[z].parent && m != g.root && m != z
  {
    assert Linked(g, z);
    var q := g.link[z].parent;
    assert q != g.nil ==> Linked(g, q) && BlackOk(g.link, p, q);
    forall m | m in g.link && (g.link[z].left == m || g.link[z].right == m)
      ensures m != g.link[z].parent && m != g.root && m != z
    {
      assert Linked(g, m);
    }
  }

  // ---------- y in the place of z ----------

  ghost function Relay(p: Paint, z: Node, y: Node): Paint {
    p.Drop(z).Put(y, p.C(z), p.H(z))
  }

  // y looks like z looked, and everybody else looks as before.
  lemma RelayLooks(g: Graph, p: Paint, z: Node, y: Node, m: Node?)
    requires CanReplace(g, z, y) && Painted(g, p) && m != y
    ensures Relay(p, z, y).C(Renamed(m, z, y)) == p.C(m) && Relay(p, z, y).H(Renamed(m, z, y)) == p.H(m)
  {
  }

  lemma ReplaceBlack(g: Graph, p: Paint, z: Node, y: Node, n: Node)
    requires CanReplace(g, z, y) && Painted(g, p) && g.nil !in g.link && Linked(g, n) && BlackOk(g.link, p, n)
    ensures BlackOk(Replace(g, z, y).link, Relay(p, z, y), if n == z then y else n)
  {
    assert KidOk(g, n, Left) && KidOk(g, n, Right);
    RelayLooks(g, p, z, y, n);
    RelayLooks(g, p, z, y, g.link[n].left);
    RelayLooks(g, p, z, y, g.link[n].right);
    hide Relay, Linked, KidOk;
  }

  lemma ReplaceRed(g: Graph, p: Paint, z: Node, y: Node, n: Node, x: Node?)
    requires CanReplace(g, z, y) && Painted(g, p) && g.nil !in g.link && Linked(g, n) && RedOk(g.link, p, n, x)
    requires x != z && x != y
    ensures RedOk(Replace(g, z, y).link, Relay(p, z, y), if n == z then y else n, x)
  {
    assert KidOk(g, n, Left) && KidOk(g, n, Right);
    RelayLooks(g, p, z, y, n);
    RelayLooks(g, p, z, y, g.link[n].left);
    RelayLooks(g, p, z, y, g.link[n].right);
    hide Relay, Linked, KidOk;
  }

  lemma ReplaceAllBlack(g: Graph, p: Paint, z: Node, y: Node, skip: set<Node>)
    requires CanReplace(g, z, y) && Painted(g, p) && Shape(g) && AllBlackOk(g.link, p, skip) && y !in skip
    ensures AllBlackOk(Replace(g, z, y).link, Relay(p, z, y), if z in skip then skip + {y} else skip)
  {
    hide BlackOk, Linked;
    var g', p' := Replace(g, z, y), Relay(p, z, y);
    forall n | n in g'.link && n !in (if z in skip then skip + {y} else skip) ensures BlackOk(g'.link, p', n) {
      var n0 := if n == y then z else n;
      assert Linked(g, n0) && BlackOk(g.link, p, n0);
      ReplaceBlack(g, p, z, y, n0);
    }
  }

  lemma ReplaceAllRed(g: Graph, p: Paint, z: Node, y: Node, x: Node?, skip: set<Node>)
    requires CanReplace(g, z, y) && Painted(g, p) && Shape(g) && AllRedOk(g.link, p, x, skip)
    requires y !in skip && z !in skip && x != z && x != y
    ensures AllRedOk(Replace(g, z, y).link, Relay(p, z, y), x, skip)
  {
    hide RedOk, Linked;
    var g', p' := Replace(g, z, y), Relay(p, z, y);
    forall n | n in g'.link && n !in skip ensures RedOk(g'.link, p', n, x) {
      var n0 := if n == y then z else n;
      assert Linked(g, n0) && RedOk(g.link, p, n0, x);
      ReplaceRed(g, p, z, y, n0, x);
    }
  }

  lemma ReplaceRedBlack(g: Graph, p: Paint, z: Node, y: Node)
    requires RedBlack(g, p) && CanReplace(g, z, y)
    ensures RedBlack(Replace(g, z, y), Relay(p, z, y))
  {
    hide AllBlackOk, AllRedOk, Linked;
    ReplaceShape(g, z, y);
    ReplaceAllBlack(g, p, z, y, {});
    ReplaceAllRed(g, p, z, y, null, {});
  }

  lemma ReplaceMending(g: Graph, p: Paint, z: Node, y: Node, x: Node, q: Node?, d: Side)
    requires Mending(g, p, x, q, d) && CanReplace(g, z, y) && x != z && x != y
    ensures Mending(Replace(g, z, y), Relay(p, z, y), x, Renamed(q, z, y), d)
  {
    hide AllBlackOk, AllRedOk, Linked;
    var g', p' := Replace(g, z, y), Relay(p, z, y);
    ReplaceShape(g, z, y);
    ReplaceAllRed(g, p, z, y, x, {x});
    if x == g.root {
      ReplaceAllBlack(g, p, z, y, {});
    } else {
      ReplaceAllBlack(g, p, z, y, {q});
      ReplaceShort(g, p, z, y, x, q, d);
      if q == z { SkipGone(g'.link, p', z, y); }
      RelayLooks(g, p, z, y, g.root);
    }
  }

  lemma SkipGone(link: map<Node, Link>, p: Paint, z: Node, y: Node)
    requires z !in link && AllBlackOk(link, p, {z} + {y})
    ensures AllBlackOk(link, p, {y})
  {
  }

  lemma ReplaceShort(g: Graph, p: Paint, z: Node, y: Node, x: Node, q: Node, d: Side)
    requires Mending(g, p, x, q, d) && CanReplace(g, z, y) && x != z && x != y && x != g.root
    ensures var g' := Replace(g, z, y); var q' := if q == z then y else q;
      q' in g'.link && Short(g'.link, Relay(p, z, y), x, q', d)
  {
    assert Linked(g, q);
    assert KidOk(g, q, d.Other());
    RelayLooks(g, p, z, y, q);
    RelayLooks(g, p, z, y, x);
    RelayLooks(g, p, z, y, g.link[q].Kid(d.Other()));
    hide Relay, Linked, KidOk;
  }

  // y, z's successor, is taken out and put in the place of z.
  ghost predicate Successor(g: Graph, z: Node, y: Node, x: Node) {
    && z in g.link && y in g.link && z in g.span && y in g.span
    && g.link[z].left != g.nil && g.link[z].right != g.nil
    && g.link[y].left == g.nil && g.link[y].right == x && g.span[y].pos == g.span[z].pos + 1
  }

  // The links around z and its successor.
  lemma SuccessorLinks(g: Graph, z: Node, y: Node, x: Node)
    requires Shape(g) && Successor(g, z, y, x)
    ensures CanSplice(g, y, x, Left) && x != z && x != y && z != y && z != g.nil && y != g.nil
    ensures g.link[y].parent == z <==> g.link[z].right == y
    ensures g.link[y].parent != z ==> SpliceOut(g, y, x).link[z] == g.link[z]
  {
    assert Linked(g, z) && Linked(g, y) && (x != g.nil ==> Linked(g, x));
    assert Linked(g, g.link[z].left) && Linked(g, g.link[z].right);
  }

  lemma SuccessorReplaces(g: Graph, z: Node, y: Node, x: Node)
    requires Shape(g) && Successor(g, z, y, x) && CanSplice(g, y, x, Left) && z != y && y != g.nil
    ensures CanReplace(SpliceOut(g, y, x), z, y)
  {
    assert 0 <= g.span[z].pos by { assert Linked(g, z); }
    hide Shape, Linked, KidOk;
  }

  // The successor's place in the sequence closes up, and it stands where z stood.
  lemma SuccessorSequence(g: Graph, z: Node, y: Node, x: Node)
    requires Shape(g) && Successor(g, z, y, x) && CanSplice(g, y, x, Left) && z != y
    requires CanReplace(SpliceOut(g, y, x), z, y)
    ensures Replace(SpliceOut(g, y, x), z, y).order == Cut(g.order, g.span[z].pos)
  {
    assert g.order[g.span[y].pos] == y by { assert Linked(g, y); }
    hide Shape, Linked, KidOk;
    assert SpliceOut(g, y, x).span[z].pos == g.span[z].pos;
    SuccessorOrder(g.order, g.span[z].pos, y);
  }

  lemma SuccessorFits(g: Graph, z: Node, y: Node, x: Node)
    requires Shape(g) && Successor(g, z, y, x)
    ensures CanSplice(g, y, x, Left) && CanReplace(SpliceOut(g, y, x), z, y) && Shape(SpliceOut(g, y, x))
    ensures x != z && x != y && z != y && (g.link[y].parent == z <==> g.link[z].right == y)
    ensures Replace(SpliceOut(g, y, x), z, y).order == Cut(g.order, g.span[z].pos)
    ensures SpliceOut(g, y, x).link.Keys == g.link.Keys - {y}
    ensures g.link[y].parent != z ==> SpliceOut(g, y, x).link[z] == g.link[z]
  {
    hide Shape;
    SuccessorLinks(g, z, y, x);
    SpliceShape(g, y, x, Left);
    SuccessorReplaces(g, z, y, x);
    SuccessorSequence(g, z, y, x);
    hide CanReplace, Replace, Cut, SplicedLink, SplicedSpan;
  }

  lemma PromotedPaint(p: Paint, z: Node, y: Node, nodes: set<Node>)
    requires p.color.Keys == p.bh.Keys == nodes && z in nodes && y in nodes && y != z
    ensures Relay(p.Drop(y), z, y).color.Keys == nodes - {z}
    ensures forall n :: n in nodes && n != z ==>
      Relay(p.Drop(y), z, y).color[n] == if n == y then p.color[z] else p.color[n]
  {
  }

  // What the links are in the end, if y is z's own right kid.
  ghost function Promoted(g: Graph, z: Node, y: Node, x: Node, n: Node): Link
    requires n in g.link && z in g.link
  {
    if n == y then Link(g.link[z].left, x, g.link[z].parent)
    else Link(Renamed(g.link[n].left, z, y), Renamed(g.link[n].right, z, y),
              if n == x then y else Renamed(g.link[n].parent, z, y))
  }

  lemma PromotedLink(g: Graph, z: Node, y: Node, x: Node, n: Node)
    requires Shape(g) && Successor(g, z, y, x) && g.link[z].right == y && CanSplice(g, y, x, Left)
    requires CanReplace(SpliceOut(g, y, x), z, y) && n in g.link && n != z
    ensures n in Replace(SpliceOut(g, y, x), z, y).link
    ensures Replace(SpliceOut(g, y, x), z, y).link[n] == Promoted(g, z, y, x, n)
  {
    assert Linked(g, z) && Linked(g, y) && Linked(g, n);
  }

  lemma PromotedAll(g: Graph, z: Node, y: Node, x: Node)
    requires Shape(g) && Successor(g, z, y, x) && g.link[z].right == y && CanSplice(g, y, x, Left)
    requires CanReplace(SpliceOut(g, y, x), z, y)
    ensures var g' := Replace(SpliceOut(g, y, x), z, y);
      && g'.link.Keys == g.link.Keys - {z} && g'.nil == g.nil && g'.root == (if g.root == z then y else g.root)
      && forall n :: n in g'.link ==> g'.link[n] == Promoted(g, z, y, x, n)
  {
    assert Linked(g, z) && Linked(g, y);
    hide Shape, Linked, Promoted;
    forall n | n in g.link && n != z { PromotedLink(g, z, y, x, n); }
  }

  lemma SuccessorOrder(order: seq<Node>, i: int, y: Node)
    requires 0 <= i < |order| - 1 && order[i + 1] == y
    ensures Cut(order, i + 1)[i := y] == Cut(order, i)
  {
  }

  lemma SuccessorMending(g: Graph, p: Paint, z: Node, y: Node, x: Node) returns (e: Side)
    requires RedBlack(g, p) && Successor(g, z, y, x) && CanSplice(g, y, x, Left)
    requires CanReplace(SpliceOut(g, y, x), z, y) && x != z && x != y
    ensures var g', p' := Replace(SpliceOut(g, y, x), z, y), Relay(p.Drop(y), z, y);
      && (p.C(y) == Red ==> RedBlack(g', p'))
      && (p.C(y) == Black ==> Mending(g', p', x, Renamed(g.link[y].parent, z, y), e))
    ensures Painted(SpliceOut(g, y, x), p.Drop(y))
  {
    e := SpliceMending(g, p, y, x, Left);
    hide RedBlack, Mending, Shape, CanSplice, CanReplace;
    if p.C(y) == Red {
      ReplaceRedBlack(SpliceOut(g, y, x), p.Drop(y), z, y);
    } else {
      ReplaceMending(SpliceOut(g, y, x), p.Drop(y), z, y, x, g.link[y].parent, e);
    }
  }

  // ---------- the end of the repair ----------

  lemma BlackenMended(g: Graph, p: Paint, x: Node, q: Node?, d: Side)
    requires Mending(g, p, x, q, d) && (x == g.root || p.C(x) == Red)
    ensures RedBlack(g, BlackTop(p, x))
  {
    hide BlackOk, RedOk, Linked;
    forall n | n in g.link ensures BlackOk(g.link, BlackTop(p, x), n) && RedOk(g.link, BlackTop(p, x), n, null) {
      BlackenMendedNode(g, p, x, q, d, n);
    }
    BlackenMendedTop(g, p, x, q, d);
  }

  lemma BlackenMendedTop(g: Graph, p: Paint, x: Node, q: Node?, d: Side)
    requires Mending(g, p, x, q, d) && (x == g.root || p.C(x) == Red)
    ensures Painted(g, BlackTop(p, x)) && BlackTop(p, x).C(g.root) == Black
  {
  }

  lemma BlackenMendedNode(g: Graph, p: Paint, x: Node, q: Node?, d: Side, n: Node)
    requires Mending(g, p, x, q, d) && (x == g.root || p.C(x) == Red) && n in g.link
    ensures BlackOk(g.link, BlackTop(p, x), n) && RedOk(g.link, BlackTop(p, x), n, null)
  {
    assert Linked(g, n) && (x in g.link ==> Linked(g, x)) && (x != g.root ==> Linked(g, q));
    assert n != x ==> RedOk(g.link, p, n, x);
    assert x == g.root || n != q ==> BlackOk(g.link, p, n);
  }
}
