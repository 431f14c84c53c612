/** Adding a leaf to the graph, taking out a node with at most one kid, and putting a
    detached node in the place of another: the three ways Insert and Remove change which
    nodes the tree has. */
module RedBlackSurgery {
  import opened RedBlackGraph

  function Skip(a: int, i: int): int { if i < a then a - 1 else a }

  function Room(a: int, i: int): int { if i <= a then a + 1 else a }

  ghost function Cut(order: seq<Node>, i: int): seq<Node>
    requires 0 <= i < |order|
  {
    order[..i] + order[i + 1..]
  }

  // ---------- taking out a node ----------

  // z has no kid on one side, and v is its kid on the other.
  ghost predicate CanSplice(g: Graph, z: Node, v: Node, d: Side) {
    && z in g.link && z in g.span && 0 <= g.span[z].pos < |g.order|
    && g.link[z].Kid(d) == g.nil && g.link[z].Kid(d.Other()) == v
  }

  ghost function SplicedLink(g: Graph, z: Node, v: Node, n: Node): Link
    requires z in g.link && n in g.link
  {
    var p, l := g.link[z].parent, g.link[n];
    var l' := if n == p then l.WithKid(if l.left == z then Left else Right, v) else l;
    if n == v then l'.(parent := p) else l'
  }

  ghost function SplicedSpan(g: Graph, z: Node, n: Node): Span
    requires z in g.span && n in g.span
  {
    var i, s := g.span[z].pos, g.span[n];
    Span(Skip(s.lo, i), Skip(s.pos, i), Skip(s.hi, i))
  }

  ghost function SpliceOut(g: Graph, z: Node, v: Node): Graph
    requires z in g.link && z in g.span && 0 <= g.span[z].pos < |g.order|
  {
    Graph(if g.root == z then v else g.root, g.nil,
          map n | n in g.link && n != z :: SplicedLink(g, z, v, n),
          map n | n in g.span && n != z :: SplicedSpan(g, z, n),
          Cut(g.order, g.span[z].pos))
  }

  // n's kid was z and becomes v.
  lemma SpliceKidMoved(g: Graph, z: Node, v: Node, d: Side, n: Node, e: Side)
    requires CanSplice(g, z, v, d) && Linked(g, z) && Linked(g, n) && n != z && g.nil !in g.link
    requires g.link[n].Kid(e) == z
    ensures KidOk(SpliceOut(g, z, v), n, e)
  {
    assert KidOk(g, n, e) && KidOk(g, n, e.Other()) && KidOk(g, z, d) && KidOk(g, z, d.Other());
    hide KidOk, ParentOk;
    SpliceKidMovedHere(g, z, v, d, n, e);
  }

  lemma SpliceKidMovedHere(g: Graph, z: Node, v: Node, d: Side, n: Node, e: Side)
    requires CanSplice(g, z, v, d) && n in g.link && n in g.span && n != z && g.nil !in g.link
    requires g.link[n].Kid(e) == z && KidOk(g, n, e) && KidOk(g, z, d) && KidOk(g, z, d.Other())
    requires g.link[n].Kid(e.Other()) != z
    requires g.span[z].lo <= g.span[z].pos < g.span[z].hi && g.span[n].lo <= g.span[n].pos < g.span[n].hi
    ensures KidOk(SpliceOut(g, z, v), n, e)
  {
  }

  // n's kid stays, or stays absent.
  lemma SpliceKidKept(g: Graph, z: Node, v: Node, d: Side, n: Node, e: Side)
    requires CanSplice(g, z, v, d) && Linked(g, z) && Linked(g, n) && n != z && g.nil !in g.link
    requires g.link[n].Kid(e) != z
    ensures KidOk(SpliceOut(g, z, v), n, e)
  {
    assert KidOk(g, n, e) && KidOk(g, z, d.Other());
  }

  lemma SpliceKidOk(g: Graph, z: Node, v: Node, d: Side, n: Node, e: Side)
    requires CanSplice(g, z, v, d) && Linked(g, z) && Linked(g, n) && n != z && g.nil !in g.link
    ensures KidOk(SpliceOut(g, z, v), n, e)
  {
    if g.link[n].Kid(e) == z { SpliceKidMoved(g, z, v, d, n, e); } else { SpliceKidKept(g, z, v, d, n, e); }
  }

  lemma SpliceSpanOk(g: Graph, z: Node, v: Node, n: Node)
    requires Linked(g, z) && Linked(g, n) && n != z
    ensures var g' := SpliceOut(g, z, v); var s := g'.span[n];
      0 <= s.lo <= s.pos < s.hi <= |g'.order| && g'.order[s.pos] == n
  {
  }

  lemma SpliceParentOk(g: Graph, z: Node, v: Node, d: Side, n: Node)
    requires CanSplice(g, z, v, d) && Linked(g, z) && Linked(g, n) && n != z && g.nil !in g.link
    requires v != g.nil ==> Linked(g, v)
    ensures ParentOk(SpliceOut(g, z, v), n)
  {
    assert ParentOk(g, n) && ParentOk(g, z);
    assert g.link[n].parent != g.nil ==> KidOk(g, z, d);
  }

  lemma SpliceLinked(g: Graph, z: Node, v: Node, d: Side, n: Node)
    requires CanSplice(g, z, v, d) && Linked(g, z) && Linked(g, n) && n != z && g.nil !in g.link
    requires v != g.nil ==> Linked(g, v)
    ensures Linked(SpliceOut(g, z, v), n)
  {
    SpliceKidOk(g, z, v, d, n, Left);
    SpliceKidOk(g, z, v, d, n, Right);
    SpliceParentOk(g, z, v, d, n);
    SpliceSpanOk(g, z, v, n);
    hide KidOk, ParentOk, Cut, Skip;
  }

  lemma SplicePlaced(g: Graph, z: Node, v: Node, i: int)
    requires z in g.link && z in g.span && 0 <= g.span[z].pos < |g.order| && 0 <= i < |g.order| - 1
    requires g.order[g.span[z].pos] == z && Placed(g, i) && Placed(g, i + 1)
    ensures Placed(SpliceOut(g, z, v), i)
  {
  }

  lemma SpliceTop(g: Graph, z: Node, v: Node, d: Side)
    requires CanSplice(g, z, v, d) && Linked(g, z) && (v != g.nil ==> Linked(g, v))
    requires g.nil !in g.link && g.root in g.link && g.root in g.span && g.span[g.root].lo == 0
    requires g.span[g.root].hi == |g.order|
    ensures var g' := SpliceOut(g, z, v);
      if g'.root == g.nil then g'.order == []
      else g'.root in g'.span && g'.span[g'.root].lo == 0 && g'.span[g'.root].hi == |g'.order|
  {
    assert KidOk(g, z, d) && KidOk(g, z, d.Other());
  }

  lemma SpliceShape(g: Graph, z: Node, v: Node, d: Side)
    requires Shape(g) && CanSplice(g, z, v, d)
    ensures Shape(SpliceOut(g, z, v))
  {
    hide Linked, Placed;
    var g' := SpliceOut(g, z, v);
    assert Linked(g, z) && (v != g.nil ==> v in g.link && Linked(g, v)) by { SpliceEnds(g, z, v, d); }
    SpliceTop(g, z, v, d);
    forall n | n in g'.link ensures Linked(g', n) {
      assert Linked(g, n);
      SpliceLinked(g, z, v, d, n);
    }
    forall i | 0 <= i < |g'.order| ensures Placed(g', i) {
      assert Placed(g, i) && Placed(g, i + 1);
      SpliceHere(g, z, v, d);
      SplicePlaced(g, z, v, i);
    }
  }

  lemma SpliceEnds(g: Graph, z: Node, v: Node, d: Side)
    requires Shape(g) && CanSplice(g, z, v, d)
    ensures Linked(g, z) && (v != g.nil ==> v in g.link && Linked(g, v))
  {
    assert Linked(g, z);
    assert KidOk(g, z, d.Other());
  }

  lemma SpliceHere(g: Graph, z: Node, v: Node, d: Side)
    requires Shape(g) && CanSplice(g, z, v, d)
    ensures g.order[g.span[z].pos] == z
  {
    assert Linked(g, z);
  }

  // ---------- putting the detached node y in the place of z ----------

  ghost predicate CanReplace(g: Graph, z: Node, y: Node) {
    && z in g.link && z in g.span && 0 <= g.span[z].pos < |g.order|
    && y !in g.link && y !in g.span && y != g.nil
  }

  ghost function Renamed(m: Node?, z: Node, y: Node): Node? {
    if m == z then y else m
  }

  ghost function ReplacedLink(g: Graph, z: Node, y: Node, n: Node): Link
    requires z in g.link && (n == y || n in g.link)
  {
    var l := if n == y then g.link[z] else g.link[n];
    Link(Renamed(l.left, z, y), Renamed(l.right, z, y), Renamed(l.parent, z, y))
  }

  ghost function Replace(g: Graph, z: Node, y: Node): Graph
    requires CanReplace(g, z, y)
  {
    Graph(if g.root == z then y else g.root, g.nil,
          map n | n in g.link.Keys - {z} + {y} :: ReplacedLink(g, z, y, n),
          g.span[y := g.span[z]] - {z},
          g.order[g.span[z].pos := y])
  }

  lemma ReplaceLinked(g: Graph, z: Node, y: Node, n: Node)
    requires CanReplace(g, z, y) && Linked(g, n) && Linked(g, z) && g.nil !in g.link && g.root in g.link
    ensures Linked(Replace(g, z, y), if n == z then y else n)
  {
    assert KidOk(g, n, Left) && KidOk(g, n, Right) && ParentOk(g, n);
  }

  lemma ReplaceEnds(g: Graph, z: Node)
    requires Shape(g) && z in g.link
    ensures Linked(g, z) && g.root in g.link
  {
    assert Linked(g, z);
  }

  lemma ReplaceShape(g: Graph, z: Node, y: Node)
    requires Shape(g) && CanReplace(g, z, y)
    ensures Shape(Replace(g, z, y))
  {
    hide Linked, Placed, KidOk, ParentOk;
    var g' := Replace(g, z, y);
    assert Linked(g, z) && g.root in g.link by { ReplaceEnds(g, z); }
    forall n | n in g'.link ensures Linked(g', n) {
      var n0 := if n == y then z else n;
      assert Linked(g, n0);
      ReplaceLinked(g, z, y, n0);
    }
    forall i | 0 <= i < |g'.order| ensures Placed(g', i) {
      assert Placed(g, i);
      ReplacePlaced(g, z, y, i);
    }
  }

  lemma ReplacePlaced(g: Graph, z: Node, y: Node, i: int)
    requires CanReplace(g, z, y) && 0 <= i < |g.order| && Placed(g, i) && Linked(g, z)
    ensures Placed(Replace(g, z, y), i)
  {
  }

  // ---------- hanging a new leaf z below y ----------

  ghost predicate CanAttach(g: Graph, z: Node, y: Node, d: Side) {
    && z !in g.link && z !in g.span && z != g.nil && g.link.Keys == g.span.Keys
    && if y == g.nil then g.root == g.nil && g.order == [] else y in g.link && y in g.span && g.link[y].Kid(d) == g.nil
  }

  // The in-order place the new leaf gets.
  ghost function Place(g: Graph, y: Node, d: Side): int
    requires y == g.nil || y in g.span
  {
    if y == g.nil then 0 else g.span[y].From(d)
  }

  ghost function AttachedLink(g: Graph, z: Node, y: Node, d: Side, n: Node): Link
    requires n == z || n in g.link
  {
    if n == z then Link(g.nil, g.nil, y) else if n == y then g.link[n].WithKid(d, z) else g.link[n]
  }

  ghost function AttachedSpan(g: Graph, p: int, d: Side, n: Node): Span
    requires n in g.span
  {
    var s, t := g.span[n], if d == Left then p + 1 else p;
    Span(Room(s.lo, t), Room(s.pos, p), Room(s.hi, t))
  }

  ghost function Attach(g: Graph, z: Node, y: Node, d: Side): Graph
    requires CanAttach(g, z, y, d) && 0 <= Place(g, y, d) <= |g.order|
  {
    var p := Place(g, y, d);
    Graph(if y == g.nil then z else g.root, g.nil,
          map n | n in g.link.Keys + {z} :: AttachedLink(g, z, y, d, n),
          map n | n in g.span.Keys + {z} :: if n == z then Span(p, p, p + 1) else AttachedSpan(g, p, d, n),
          g.order[..p] + [z] + g.order[p..])
  }

  lemma AttachKidOk(g: Graph, z: Node, y: Node, d: Side, n: Node, e: Side)
    requires CanAttach(g, z, y, d) && 0 <= Place(g, y, d) <= |g.order| && g.nil !in g.link
    requires Linked(g, n) && (y != g.nil ==> Linked(g, y))
    ensures KidOk(Attach(g, z, y, d), n, e)
  {
    assert KidOk(g, n, e) && (y != g.nil ==> KidOk(g, y, d));
  }

  lemma AttachSpanOk(g: Graph, z: Node, y: Node, d: Side, n: Node)
    requires CanAttach(g, z, y, d) && 0 <= Place(g, y, d) <= |g.order| && g.nil !in g.link
    requires Linked(g, n) && (y != g.nil ==> Linked(g, y))
    ensures var g' := Attach(g, z, y, d); var s := g'.span[n];
      0 <= s.lo <= s.pos < s.hi <= |g'.order| && g'.order[s.pos] == n
  {
  }

  lemma AttachLinked(g: Graph, z: Node, y: Node, d: Side, n: Node)
    requires CanAttach(g, z, y, d) && 0 <= Place(g, y, d) <= |g.order| && g.nil !in g.link
    requires Linked(g, n) && (y != g.nil ==> Linked(g, y))
    ensures Linked(Attach(g, z, y, d), n)
  {
    AttachKidOk(g, z, y, d, n, Left);
    AttachKidOk(g, z, y, d, n, Right);
    AttachSpanOk(g, z, y, d, n);
    assert ParentOk(g, n);
    hide KidOk, AttachedSpan;
  }

  lemma AttachPlaced(g: Graph, z: Node, y: Node, d: Side, i: int)
    requires CanAttach(g, z, y, d) && 0 <= Place(g, y, d) <= |g.order| && 0 <= i <= |g.order|
    requires i < |g.order| ==> Placed(g, i)
    requires 0 < i ==> Placed(g, i - 1)
    ensures Placed(Attach(g, z, y, d), i)
  {
  }

  lemma AttachTop(g: Graph, z: Node, y: Node, d: Side)
    requires Shape(g) && CanAttach(g, z, y, d) && 0 <= Place(g, y, d) <= |g.order|
    ensures var g' := Attach(g, z, y, d);
      g'.nil !in g'.link && g'.root != g'.nil && g'.root in g'.span
      && g'.span[g'.root].lo == 0 && g'.span[g'.root].hi == |g'.order|
  {
    assert y != g.nil ==> Linked(g, y);
  }

  lemma AttachShape(g: Graph, z: Node, y: Node, d: Side)
    requires Shape(g) && CanAttach(g, z, y, d)
    ensures 0 <= Place(g, y, d) <= |g.order| && Shape(Attach(g, z, y, d))
  {
    hide KidOk, ParentOk, Placed, AttachedSpan, AttachedLink;
    assert y != g.nil ==> Linked(g, y);
    AttachTop(g, z, y, d);
    var g' := Attach(g, z, y, d);
    forall n | n in g'.link ensures Linked(g', n) {
      if n == z { AttachLeaf(g, z, y, d); } else {
        assert Linked(g, n);
        AttachLinked(g, z, y, d, n);
      }
    }
    forall i | 0 <= i < |g'.order| ensures Placed(g', i) {
      assert i < |g.order| ==> Placed(g, i);
      assert 0 < i ==> Placed(g, i - 1);
      AttachPlaced(g, z, y, d, i);
    }
  }

  lemma AttachLeaf(g: Graph, z: Node, y: Node, d: Side)
    requires Shape(g) && CanAttach(g, z, y, d) && 0 <= Place(g, y, d) <= |g.order|
    ensures Linked(Attach(g, z, y, d), z)
  {
  }
}
