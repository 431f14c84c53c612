/** The red-black tree of data_struct/rb_tree.hpp: nodes on the heap with parent links and one
    shared sentinel, rewritten in place.

    `nodes`, `order`, `span` and `bh` are ghost: the nodes of the tree, their in-order sequence,
    the interval each subtree covers and the black height of each node.  They are brought up to
    date beside every write, so that the shape and balance of the heap can be stated and proved
    as facts about the values G() and P() (RedBlackGraph, RedBlackBalance and the modules on
    them).  A node that is deleted leaves `nodes`. */
module RedBlackTree {
  import opened RedBlackGraph
  import opened RedBlackBalance
  import opened RedBlackDelete
  import opened RedBlackSurgery
  import opened RedBlackRepaint
  import opened RedBlackKeys
  import opened Power

  class Tree {
    var root: Node
    var nil: Node
    ghost var nodes: set<Node>
    ghost var order: seq<Node>
    ghost var span: map<Node, Span>
    ghost var bh: map<Node, int>

    ghost function Links(): map<Node, Link>
      reads this`nodes, nodes`left, nodes`right, nodes`parent
    {
      map n | n in nodes :: Link(n.left, n.right, n.parent)
    }

    ghost function G(): Graph
      reads this`root, this`nil, this`nodes, this`order, this`span, nodes`left, nodes`right, nodes`parent
    {
      Graph(root, nil, Links(), span, order)
    }

    ghost function P(): Paint
      reads this`nodes, this`bh, nodes`color
    {
      Paint(map n | n in nodes :: n.color, bh)
    }

    // The sentinel is black, the red-black conditions hold, and the keys are in order.
    ghost predicate Valid()
      reads this, nil, nodes
    {
      nil.color == Black && RedBlack(G(), P()) && Sorted(Keys(order))
    }

    constructor ()
      ensures Valid() && nodes == {} && order == [] && fresh(nil)
    {
      var sentinel := new Node(0);
      sentinel.color := Black;
      nil := sentinel;
      root := sentinel;
      nodes, order, span, bh := {}, [], map[], map[];
    }

    method LeftRotate(x: Node)
      requires CanRotate(G(), x, Left)
      modifies this`root, this`span, nodes`left, nodes`right, nodes`parent
      ensures Rotated(old(G()), x, Left, G())
    {
      ghost var g := G();
      var y := x.right;
      x.right := y.left;
      if y.left != nil {
        y.left.parent := x;
      }
      y.parent := x.parent;
      if x.parent == nil {
        root := y;
      } else if x == x.parent.left {
        x.parent.left := y;
      } else {
        x.parent.right := y;
      }
      y.left := x;
      x.parent := y;
      span := Respanned(g, x, Left);
    }

    method RightRotate(y: Node)
      requires CanRotate(G(), y, Right)
      modifies this`root, this`span, nodes`left, nodes`right, nodes`parent
      ensures Rotated(old(G()), y, Right, G())
    {
      ghost var g := G();
      var x := y.left;
      y.left := x.right;
      if x.right != nil {
        x.right.parent := y;
      }
      x.parent := y.parent;
      if y.parent == nil {
        root := x;
      } else if y == y.parent.left {
        y.parent.left := x;
      } else {
        y.parent.right := x;
      }
      x.right := y;
      y.parent := x;
      span := Respanned(g, y, Right);
    }

    // What a red-red edge at z says about the heap around z.
    lemma InsertView(z: Node)
      requires nil.color == Black && RedAt(G(), P(), z)
      ensures z in nodes && nil !in nodes && z.parent != null && (z.parent == nil || z.parent in nodes)
      ensures z.parent.color == P().C(z.parent)
    {
      assert Linked(G(), z);
    }

    // With a red parent the grandparent is a node, and the uncle can be looked at.
    lemma UncleView(z: Node) returns (d: Side)
      requires nil.color == Black && RedAt(G(), P(), z) && z in nodes && z.parent in nodes && z.parent.color == Red
      ensures var r := z.parent.parent; r in nodes && r.left != null && r.right != null && P().C(r) == Black
      ensures z.parent == z.parent.parent.left <==> d == Left
      ensures z.parent != z.parent.parent
      ensures z.parent == if d == Left then z.parent.parent.left else z.parent.parent.right
      ensures var r := z.parent.parent; Kin(G(), z, z.parent, r, if d == Left then r.right else r.left, d)
      ensures var u := if d == Left then z.parent.parent.right else z.parent.parent.left;
        (u == nil || u in nodes) && u.color == P().C(u)
      ensures (z.parent.left == z || z.parent.right == z) && 0 < InsertRank(G(), P(), z)
    {
      d := RedParent(G(), P(), z);
      assert Linked(G(), z.parent.parent);
    }

    method InsertFixup(z0: Node)
      requires nil.color == Black && RedAt(G(), P(), z0)
      modifies this`root, this`span, this`bh, nodes`left, nodes`right, nodes`parent, nodes`color
      ensures nil.color == Black && RedBlack(G(), P())
    {
      hide *;
      var z := z0;
      InsertView(z);
      while z.parent.color == Red
        invariant nil.color == Black && RedAt(G(), P(), z) && z in nodes
        invariant z.parent != null && z.parent.color == P().C(z.parent)
        decreases InsertRank(G(), P(), z)
      {
        InsertView(z);
        ghost var d := UncleView(z);
        if z.parent == z.parent.parent.left {
          z := FixLeft(z);
        } else {
          z := FixRight(z);
        }
        InsertView(z);
      }
      RootView(z);
      PaintRootBlack(z);
    }

    lemma RootView(z: Node)
      requires RedAt(G(), P(), z)
      ensures root in nodes && nil !in nodes
    {
      assert Linked(G(), z);
    }

    method PaintRootBlack(ghost z: Node)
      requires nil.color == Black && RedAt(G(), P(), z) && z in nodes && root in nodes && nil !in nodes
      requires P().C(z.parent) == Black
      modifies this`bh, nodes`color
      ensures nil.color == Black && RedBlack(G(), P())
    {
      hide RedAt, RedBlack;
      BlackenRoot(G(), P(), z);
      ghost var p := BlackTop(P(), root);
      bh := p.bh;
      root.color := Black;
      assert P().color == p.color;
    }

    // A red uncle: recolour and move the red-red edge two levels up.
    method RecolourUp(z: Node, y: Node, ghost d: Side)
      requires nil.color == Black && RedAt(G(), P(), z) && z in nodes && z.parent in nodes && z.parent.parent in nodes
      requires Kin(G(), z, z.parent, z.parent.parent, y, d) && y.color == z.parent.color == Red && y in nodes
      requires nil !in nodes
      requires P().C(z.parent.parent) == Black
      modifies this`bh, nodes`color
      ensures nil.color == Black && RedAt(G(), P(), z.parent.parent)
      ensures 0 <= InsertRank(G(), P(), z.parent.parent) < old(InsertRank(G(), P(), z))
    {
      hide RedAt, Kin, InsertRank, G, Links;
      RecolourKin(G(), P(), z, z.parent, z.parent.parent, y, d);
      ghost var p := Recoloured(P(), z.parent, z.parent.parent, y);
      z.parent.color := Black;
      y.color := Black;
      z.parent.parent.color := Red;
      bh := p.bh;
      assert P() == p;
    }

    // Blackens b and reddens r.
    method BlackRed(b: Node, r: Node, ghost hb: int, ghost hr: int)
      requires b in nodes && r in nodes && b != r
      modifies this`bh, nodes`color
      ensures P() == old(P()).Put(b, Black, hb).Put(r, Red, hr)
    {
      hide G, Links;
      ghost var p := P().Put(b, Black, hb).Put(r, Red, hr);
      b.color := Black;
      r.color := Red;
      bh := p.bh;
      assert P() == p;
    }

    // Blackens b, reddens its parent r, and rotates r down to the left.
    method SinkLeft(b: Node, r: Node, ghost hb: int, ghost hr: int)
      requires b in nodes && r in nodes && b != r && CanRotate(G(), r, Left)
      modifies this`root, this`span, this`bh, nodes`left, nodes`right, nodes`parent, nodes`color
      ensures Rotated(old(G()), r, Left, G()) && P() == old(P()).Put(b, Black, hb).Put(r, Red, hr)
    {
      hide CanRotate, Rotated;
      BlackRed(b, r, hb, hr);
      LeftRotate(r);
    }

    method SinkRight(b: Node, r: Node, ghost hb: int, ghost hr: int)
      requires b in nodes && r in nodes && b != r && CanRotate(G(), r, Right)
      modifies this`root, this`span, this`bh, nodes`left, nodes`right, nodes`parent, nodes`color
      ensures Rotated(old(G()), r, Right, G()) && P() == old(P()).Put(b, Black, hb).Put(r, Red, hr)
    {
      hide CanRotate, Rotated;
      BlackRed(b, r, hb, hr);
      RightRotate(r);
    }

    // z is the inner grandchild: rotate it above its parent.
    method TurnLeft(z0: Node) returns (z: Node)
      requires RedAt(G(), P(), z0) && z0 in nodes && z0.parent in nodes && z0.parent.parent in nodes
      requires z0.parent.parent.right != null && Kin(G(), z0, z0.parent, z0.parent.parent, z0.parent.parent.right, Left)
      requires P().C(z0.parent) == Red && P().C(z0.parent.parent) == Black && z0.parent.right == z0
      modifies this`root, this`span, nodes`left, nodes`right, nodes`parent
      ensures z == old(z0.parent) && z in nodes && z.parent == z0 && z0.parent == old(z0.parent.parent) && z0.left == z
      ensures z0.parent.left == z0 && z0.parent.right == old(z0.parent.parent.right) && P().C(z0) == Red
      ensures RedAt(G(), P(), z) && Kin(G(), z, z0, z0.parent, z0.parent.right, Left)
    {
      hide RedAt, Kin, InsertRank, CanRotate, Rotated, Relinked;
      z := z0.parent;
      ghost var g, r, u := G(), z.parent, z.parent.right;
      RedAtRotates(g, P(), z0, z, Left);
      LeftRotate(z);
      TurnKin(g, P(), z0, z, r, u, Left, G());
    }

    // z is the outer grandchild: its parent takes the place of its grandparent.
    method LiftRight(z: Node)
      requires nil.color == Black && RedAt(G(), P(), z) && z in nodes && z.parent in nodes && z.parent.parent in nodes
      requires Kin(G(), z, z.parent, z.parent.parent, z.parent.parent.right, Left) && nil !in nodes
      requires z.parent.left == z && z.parent.parent.left == z.parent != z.parent.parent
      requires P().C(z.parent) == Red && P().C(z.parent.parent) == Black && P().C(z.parent.parent.right) == Black
      modifies this`root, this`span, this`bh, nodes`left, nodes`right, nodes`parent, nodes`color
      ensures nil.color == Black && RedAt(G(), P(), z) && InsertRank(G(), P(), z) == 0
    {
      hide RedAt, Kin, InsertRank, CanRotate, Rotated, Relinked;
      ghost var g, p, q, r, u := G(), P(), z.parent, z.parent.parent, z.parent.parent.right;
      RedAtRotates(g, p, z, r, Right);
      BlackRed(z.parent, z.parent.parent, p.H(q) + 1, p.H(r) - 1);
      RightRotate(z.parent.parent);
      LiftKin(g, p, z, q, r, u, Left, G());
    }

    method FixLeft(z0: Node) returns (z: Node)
      requires nil.color == Black && RedAt(G(), P(), z0) && z0 in nodes && z0.parent in nodes
      requires z0.parent.color == Red && z0.parent.parent != null && z0.parent.parent.left == z0.parent
      modifies this`root, this`span, this`bh, nodes`left, nodes`right, nodes`parent, nodes`color
      ensures nil.color == Black && RedAt(G(), P(), z)
      ensures 0 <= InsertRank(G(), P(), z) < old(InsertRank(G(), P(), z0))
    {
      hide *;
      z := z0;
      InsertView(z);
      ghost var d := UncleView(z);
      var y := z.parent.parent.right;
      if y.color == Red {
        RecolourUp(z, y, d);
        z := z.parent.parent;
      } else {
        if z == z.parent.right {
          z := TurnLeft(z);
        }
        LiftRight(z);
      }
    }

    // z is the inner grandchild: rotate it above its parent.
    method TurnRight(z0: Node) returns (z: Node)
      requires RedAt(G(), P(), z0) && z0 in nodes && z0.parent in nodes && z0.parent.parent in nodes
      requires z0.parent.parent.left != null && Kin(G(), z0, z0.parent, z0.parent.parent, z0.parent.parent.left, Right)
      requires P().C(z0.parent) == Red && P().C(z0.parent.parent) == Black && z0.parent.left == z0
      modifies this`root, this`span, nodes`left, nodes`right, nodes`parent
      ensures z == old(z0.parent) && z in nodes && z.parent == z0 && z0.parent == old(z0.parent.parent) && z0.right == z
      ensures z0.parent.right == z0 && z0.parent.left == old(z0.parent.parent.left) && P().C(z0) == Red
      ensures RedAt(G(), P(), z) && Kin(G(), z, z0, z0.parent, z0.parent.left, Right)
    {
      hide RedAt, Kin, InsertRank, CanRotate, Rotated, Relinked;
      z := z0.parent;
      ghost var g, r, u := G(), z.parent, z.parent.left;
      RedAtRotates(g, P(), z0, z, Right);
      RightRotate(z);
      TurnKin(g, P(), z0, z, r, u, Right, G());
    }

    // z is the outer grandchild: its parent takes the place of its grandparent.
    method LiftLeft(z: Node)
      requires nil.color == Black && RedAt(G(), P(), z) && z in nodes && z.parent in nodes && z.parent.parent in nodes
      requires Kin(G(), z, z.parent, z.parent.parent, z.parent.parent.left, Right) && nil !in nodes
      requires z.parent.right == z && z.parent.parent.right == z.parent != z.parent.parent
      requires P().C(z.parent) == Red && P().C(z.parent.parent) == Black && P().C(z.parent.parent.left) == Black
      modifies this`root, this`span, this`bh, nodes`left, nodes`right, nodes`parent, nodes`color
      ensures nil.color == Black && RedAt(G(), P(), z) && InsertRank(G(), P(), z) == 0
    {
      hide RedAt, Kin, InsertRank, CanRotate, Rotated, Relinked;
      ghost var g, p, q, r, u := G(), P(), z.parent, z.parent.parent, z.parent.parent.left;
      RedAtRotates(g, p, z, r, Left);
      BlackRed(z.parent, z.parent.parent, p.H(q) + 1, p.H(r) - 1);
      LeftRotate(z.parent.parent);
      LiftKin(g, p, z, q, r, u, Right, G());
    }

    method FixRight(z0: Node) returns (z: Node)
      requires nil.color == Black && RedAt(G(), P(), z0) && z0 in nodes && z0.parent in nodes
      requires z0.parent.color == Red && z0.parent.parent != null && z0.parent.parent.left != z0.parent
      modifies this`root, this`span, this`bh, nodes`left, nodes`right, nodes`parent, nodes`color
      ensures nil.color == Black && RedAt(G(), P(), z)
      ensures 0 <= InsertRank(G(), P(), z) < old(InsertRank(G(), P(), z0))
    {
      hide *;
      z := z0;
      InsertView(z);
      ghost var d := UncleView(z);
      var y := z.parent.parent.left;
      if y.color == Red {
        RecolourUp(z, y, d);
        z := z.parent.parent;
      } else {
        if z == z.parent.left {
          z := TurnRight(z);
        }
        LiftLeft(z);
      }
    }

    // ---------- deletion ----------

    method PaintFar(q: Node, w: Node, f: Node)
      requires q in nodes && w in nodes && f in nodes && q != w && q != f && w != f
      modifies this`bh, nodes`color
      ensures P() == FarRedPaint(old(P()), q, w, f)
    {
      hide G, Links;
      ghost var p := FarRedPaint(P(), q, w, f);
      w.color := q.color;
      q.color := Black;
      f.color := Black;
      bh := p.bh;
      assert P() == p;
    }

    method Redden(w: Node, ghost q: Node)
      requires q in nodes && w in nodes && w != q
      modifies this`bh, nodes`color
      ensures P() == BlackKidsPaint(old(P()), q, w)
    {
      hide G, Links;
      ghost var p := BlackKidsPaint(P(), q, w);
      w.color := Red;
      bh := p.bh;
      assert P() == p;
    }

    // What can be read around a short node and its sibling.
    lemma SiblingView(x: Node, q: Node, d: Side, w: Node)
      requires nil.color == Black && Sibling(G(), P(), x, q, d, w)
      ensures q in nodes && w in nodes && nil !in nodes && w != q && w == if d == Left then q.right else q.left
      ensures x == if d == Left then q.left else q.right
      ensures w.left != null && w.right != null && w.left in nodes + {nil} && w.right in nodes + {nil}
      ensures w.left != w && w.right != w && w.left != q && w.right != q && x != w
      ensures w.color == P().C(w) && w.left.color == P().C(w.left) && w.right.color == P().C(w.right)
      ensures x != nil ==> x.parent == q
      ensures x != nil ==> w.left != x && w.right != x
    {
      assert Linked(G(), w) && Linked(G(), q);
    }

    // A red sibling: rotate it above the parent, so that the next sibling is black.
    method RaiseSiblingLeft(x: Node, q: Node, w0: Node) returns (w: Node)
      requires nil.color == Black && Sibling(G(), P(), x, q, Left, w0) && w0.color == Red && w0 in nodes && q in nodes
      requires q.right == w0 && w0 != q && nil !in nodes
      modifies this`root, this`span, this`bh, nodes`left, nodes`right, nodes`parent, nodes`color
      ensures nil.color == Black && Sibling(G(), P(), x, q, Left, w) && P().C(w) == Black && P().C(q) == Red
    {
      hide Sibling, Mending, CanRotate, Rotated, Relinked, DeleteRank;
      ghost var g, p := G(), P();
      SiblingRotates(g, p, x, q, Left, w0);
      SinkLeft(w0, q, p.H(w0) + 1, p.H(q) - 1);
      RedSibling(g, p, x, q, Left, w0, G());
      ghost var w1 := SiblingIsNode(G(), P(), x, q, Left);
      SiblingView(x, q, Left, w1);
      w := q.right;
    }

    // A black sibling with black kids turns red, and the parent is one black node short.
    method DarkenSibling(x: Node, q: Node, w: Node, ghost d: Side) returns (ghost r: Node?, ghost e: Side)
      requires nil.color == Black && nil !in nodes && Sibling(G(), P(), x, q, d, w) && q in nodes && w in nodes
      requires w != q
      requires P().C(w) == P().C(w.left) == P().C(w.right) == Black
      modifies this`bh, nodes`color
      ensures nil.color == Black && Mending(G(), P(), q, r, e) && P().C(q) == old(P().C(q))
      ensures 0 <= DeleteRank(G(), P(), q) < old(DeleteRank(G(), P(), x))
    {
      hide Sibling, Mending, Above, Shape, DeleteRank;
      ghost var g, p := G(), P();
      r, e := BlackKids(g, p, x, q, d, w);
      Redden(w, q);
    }

    // After the rotation the raised nephew v is the sibling, and the old sibling its red far kid.
    lemma NephewRaised(g: Graph, p: Paint, x: Node, q: Node, d: Side, w: Node, v: Node)
      requires nil.color == Black && nil == g.nil
      requires NearRed(g, p, x, q, d, w, v) && Rotated(g, w, d.Other(), G()) && P() == NearRedPaint(p, w, v)
      ensures Sibling(G(), P(), x, q, d, v) && P().C(v) == Black && P().C(w) == Red
      ensures q in nodes && v in nodes && v == (if d == Left then q.right else q.left)
      ensures w == if d == Left then v.right else v.left
    {
      NearRedShort(g, p, x, q, d, w, v, G());
      var w1 := SiblingIsNode(G(), P(), x, q, d);
      hide Mending, Rotated, NearRed, NearRedPaint, Shape;
      SiblingView(x, q, d, w1);
    }

    // Near nephew red, far nephew black: rotate the near one above the sibling.
    method RaiseNephewLeft(x: Node, q: Node, w0: Node) returns (w: Node)
      requires nil.color == Black && Sibling(G(), P(), x, q, Left, w0) && q in nodes && w0 in nodes && nil !in nodes
      requires w0.left in nodes && w0.right != null && w0.left != w0
      requires P().C(w0) == Black && P().C(w0.left) == Red && P().C(w0.right) == Black
      modifies this`root, this`span, this`bh, nodes`left, nodes`right, nodes`parent, nodes`color
      ensures nil.color == Black && Sibling(G(), P(), x, q, Left, w) && P().C(w) == Black
      ensures w in nodes && w.right == w0 && P().C(w0) == Red
    {
      hide Sibling, Mending, CanRotate, Rotated, Relinked, DeleteRank;
      ghost var g, p, v := G(), P(), w0.left;
      NearRedRotates(g, p, x, q, Left, w0, v);
      hide NearRed;
      SinkRight(w0.left, w0, p.H(v) + 1, p.H(w0) - 1);
      NephewRaised(g, p, x, q, Left, w0, v);
      w := q.right;
    }

    // Far nephew red: rotate the sibling above the parent, and the repair is done.
    method RaiseFarLeft(x: Node, q: Node, w: Node)
      requires q in nodes && w in nodes && w.right in nodes
      requires nil.color == Black && FarRed(G(), P(), x, q, Left, w, w.right)
      requires nil !in nodes && q.right == w && w.right != q && w.right != w && w != q
      modifies this`root, this`span, this`bh, nodes`left, nodes`right, nodes`parent, nodes`color
      ensures nil.color == Black && root in nodes && Mending(G(), P(), root, null, Left)
    {
      hide FarRed, CanRotate, Rotated, Relinked, RedBlack, Mending;
      ghost var g, p, f := G(), P(), w.right;
      FarRedRotates(g, p, x, q, Left, w, f);
      PaintFar(q, w, w.right);
      LeftRotate(q);
      FarRedMended(g, p, x, q, Left, w, f, G());
    }

    lemma FindSibling(x: Node, q: Node, d: Side) returns (w: Node)
      requires nil.color == Black && Mending(G(), P(), x, q, d) && x != root && P().C(x) == Black
      ensures Sibling(G(), P(), x, q, d, w) && 0 < DeleteRank(G(), P(), x)
    {
      w := SiblingIsNode(G(), P(), x, q, d);
    }

    lemma FarNephew(x: Node, q: Node, d: Side, w: Node)
      requires Sibling(G(), P(), x, q, d, w) && P().C(w) == Black && w in nodes
      requires P().C(if d == Left then w.right else w.left) == Red
      ensures var f := if d == Left then w.right else w.left; f != null && f in nodes && FarRed(G(), P(), x, q, d, w, f)
    {
      FarRedFrom(G(), P(), x, q, d, w);
    }

    lemma RankZero(x: Node)
      requires x == root || P().C(x) == Red
      ensures DeleteRank(G(), P(), x) == 0
    {
    }

    method MendLeft(x0: Node, q: Node) returns (x: Node, ghost r: Node?, ghost e: Side)
      requires nil.color == Black && Mending(G(), P(), x0, q, Left) && x0 != root && P().C(x0) == Black
      requires x0 == nil ==> nil.parent == q
      modifies this`root, this`span, this`bh, nodes`left, nodes`right, nodes`parent, nodes`color
      ensures nil.color == Black && Mending(G(), P(), x, r, e) && x in nodes
      ensures 0 <= DeleteRank(G(), P(), x) < old(DeleteRank(G(), P(), x0))
    {
      hide *;
      x := x0;
      ghost var v := FindSibling(x, q, Left);
      SiblingView(x, q, Left, v);
      var w := x.parent.right;
      ghost var raised := w.color == Red;
      if w.color == Red {
        w := RaiseSiblingLeft(x, q, w);
        SiblingView(x, q, Left, w);
      }
      if w.left.color == Black && w.right.color == Black {
        r, e := DarkenSibling(x, q, w, Left);
        x := x.parent;
        if raised { RankZero(x); }
      } else {
        if w.right.color == Black {
          w := RaiseNephewLeft(x, q, w);
          SiblingView(x, q, Left, w);
        }
        FarNephew(x, q, Left, w);
        RaiseFarLeft(x, q, w);
        x, r, e := root, null, Left;
        RankZero(x);
      }
    }

    // A red sibling: rotate it above the parent, so that the next sibling is black.
    method RaiseSiblingRight(x: Node, q: Node, w0: Node) returns (w: Node)
      requires nil.color == Black && Sibling(G(), P(), x, q, Right, w0) && w0.color == Red && w0 in nodes && q in nodes
      requires q.left == w0 && w0 != q && nil !in nodes
      modifies this`root, this`span, this`bh, nodes`left, nodes`right, nodes`parent, nodes`color
      ensures nil.color == Black && Sibling(G(), P(), x, q, Right, w) && P().C(w) == Black && P().C(q) == Red
    {
      hide Sibling, Mending, CanRotate, Rotated, Relinked, DeleteRank;
      ghost var g, p := G(), P();
      SiblingRotates(g, p, x, q, Right, w0);
      SinkRight(w0, q, p.H(w0) + 1, p.H(q) - 1);
      RedSibling(g, p, x, q, Right, w0, G());
      ghost var w1 := SiblingIsNode(G(), P(), x, q, Right);
      SiblingView(x, q, Right, w1);
      w := q.left;
    }

    // Near nephew red, far nephew black: rotate the near one above the sibling.
    method RaiseNephewRight(x: Node, q: Node, w0: Node) returns (w: Node)
      requires nil.color == Black && Sibling(G(), P(), x, q, Right, w0) && q in nodes && w0 in nodes && nil !in nodes
      requires w0.right in nodes && w0.left != null && w0.right != w0
      requires P().C(w0) == Black && P().C(w0.right) == Red && P().C(w0.left) == Black
      modifies this`root, this`span, this`bh, nodes`left, nodes`right, nodes`parent, nodes`color
      ensures nil.color == Black && Sibling(G(), P(), x, q, Right, w) && P().C(w) == Black
      ensures w in nodes && w.left == w0 && P().C(w0) == Red
    {
      hide Sibling, Mending, CanRotate, Rotated, Relinked, DeleteRank;
      ghost var g, p, v := G(), P(), w0.right;
      NearRedRotates(g, p, x, q, Right, w0, v);
      hide NearRed;
      SinkLeft(w0.right, w0, p.H(v) + 1, p.H(w0) - 1);
      NephewRaised(g, p, x, q, Right, w0, v);
      w := q.left;
    }

    // Far nephew red: rotate the sibling above the parent, and the repair is done.
    method RaiseFarRight(x: Node, q: Node, w: Node)
      requires q in nodes && w in nodes && w.left in nodes
      requires nil.color == Black && FarRed(G(), P(), x, q, Right, w, w.left)
      requires nil !in nodes && q.left == w && w.left != q && w.left != w && w != q
      modifies this`root, this`span, this`bh, nodes`left, nodes`right, nodes`parent, nodes`color
      ensures nil.color == Black && root in nodes && Mending(G(), P(), root, null, Right)
    {
      hide FarRed, CanRotate, Rotated, Relinked, RedBlack, Mending;
      ghost var g, p, f := G(), P(), w.left;
      FarRedRotates(g, p, x, q, Right, w, f);
      PaintFar(q, w, w.left);
      RightRotate(q);
      FarRedMended(g, p, x, q, Right, w, f, G());
    }

    method MendRight(x0: Node, q: Node) returns (x: Node, ghost r: Node?, ghost e: Side)
      requires nil.color == Black && Mending(G(), P(), x0, q, Right) && x0 != root && P().C(x0) == Black
      requires x0 == nil ==> nil.parent == q
      modifies this`root, this`span, this`bh, nodes`left, nodes`right, nodes`parent, nodes`color
      ensures nil.color == Black && Mending(G(), P(), x, r, e) && x in nodes
      ensures 0 <= DeleteRank(G(), P(), x) < old(DeleteRank(G(), P(), x0))
    {
      hide *;
      x := x0;
      ghost var v := FindSibling(x, q, Right);
      SiblingView(x, q, Right, v);
      var w := x.parent.left;
      ghost var raised := w.color == Red;
      if w.color == Red {
        w := RaiseSiblingRight(x, q, w);
        SiblingView(x, q, Right, w);
      }
      if w.right.color == Black && w.left.color == Black {
        r, e := DarkenSibling(x, q, w, Right);
        x := x.parent;
        if raised { RankZero(x); }
      } else {
        if w.left.color == Black {
          w := RaiseNephewRight(x, q, w);
          SiblingView(x, q, Right, w);
        }
        FarNephew(x, q, Right, w);
        RaiseFarRight(x, q, w);
        x, r, e := root, null, Right;
        RankZero(x);
      }
    }

    method DeleteFixup(x0: Node, ghost q0: Node?, ghost d0: Side)
      requires nil.color == Black && Mending(G(), P(), x0, q0, d0)
      requires x0 == nil && x0 != root ==> nil.parent == q0
      modifies this`root, this`span, this`bh, nodes`left, nodes`right, nodes`parent, nodes`color, nil`color
      ensures nil.color == Black && RedBlack(G(), P())
    {
      hide *;
      var x := x0;
      ghost var q, d := q0, d0;
      MendView(x, q, d);
      while x != root && x.color == Black
        invariant nil.color == Black && Mending(G(), P(), x, q, d) && x in nodes + {nil} && nil !in nodes
        invariant (x != root ==> q in nodes) && x.color == P().C(x) && (x == nil && x != root ==> nil.parent == q)
        decreases DeleteRank(G(), P(), x)
      {
        ghost var w := FindSibling(x, q, d);
        SiblingView(x, q, d, w);
        if x == x.parent.left {
          SideOf(x, q, d);
          x, q, d := MendLeft(x, x.parent);
        } else {
          SideOf(x, q, d);
          x, q, d := MendRight(x, x.parent);
        }
        MendView(x, q, d);
      }
      PaintBlack(x, q, d);
    }

    // A short x is the left kid of its parent exactly if it stands on the left.
    lemma SideOf(x: Node, q: Node, d: Side)
      requires Mending(G(), P(), x, q, d) && x != root
      ensures x == q.left <==> d == Left
    {
      assert Linked(G(), q);
    }

    lemma MendView(x: Node, q: Node?, d: Side)
      requires nil.color == Black && Mending(G(), P(), x, q, d)
      ensures x in nodes + {nil} && nil !in nodes && x.color == P().C(x) && (x != root ==> q in nodes)
    {
    }

    method PaintBlack(x: Node, ghost q: Node?, ghost d: Side)
      requires nil.color == Black && Mending(G(), P(), x, q, d) && x in nodes + {nil} && nil !in nodes
      requires x == root || x.color == Red
      modifies this`bh, nodes`color, nil`color
      ensures nil.color == Black && RedBlack(G(), P())
    {
      hide RedBlack, Mending, Links;
      ghost var p := BlackTop(P(), x);
      BlackenMended(G(), P(), x, q, d);
      bh := p.bh;
      x.color := Black;
      assert P().color == p.color;
    }

    // ---------- which nodes the tree has ----------

    method Transplant(u: Node, v: Node)
      requires u.parent != null && (u.parent == nil || v != u.parent)
      modifies this`root, v`parent
      modifies (if u.parent == nil then {} else {u.parent})`left, (if u.parent == nil then {} else {u.parent})`right
      ensures root == if old(u.parent) == nil then v else old(root)
      ensures v.parent == old(u.parent)
      ensures var p := old(u.parent); p != nil ==> p.left == if old(p.left) == u then v else old(p.left)
      ensures var p := old(u.parent); p != nil ==> p.right == if old(p.left) == u then old(p.right) else v
    {
      if u.parent == nil {
        root := v;
      } else if u == u.parent.left {
        u.parent.left := v;
      } else {
        u.parent.right := v;
      }
      v.parent := u.parent;
    }

    // The ghost labels catch up with links and colours already written.
    ghost method Settle(g': Graph, p': Paint)
      requires g'.nil == nil && g'.root == root && p'.color.Keys == g'.link.Keys
      requires forall n :: n in g'.link ==> Link(n.left, n.right, n.parent) == g'.link[n] && n.color == p'.color[n]
      modifies this`nodes, this`bh, this`order, this`span
      ensures nodes == g'.link.Keys && G() == g' && P() == p'
    {
      nodes, bh, order, span := g'.link.Keys, p'.bh, g'.order, g'.span;
      assert Links() == g'.link;
      assert P().color == p'.color;
    }

    // Take z out: v, its only possible kid, moves into its place.
    method SpliceNode(z: Node, v: Node, ghost d: Side)
      requires Shape(G()) && bh.Keys == nodes && z in nodes && CanSplice(G(), z, v, d)
      modifies this`root, this`nodes, this`order, this`span, this`bh
      modifies nodes`left, nodes`right, nodes`parent, nil`parent
      ensures nodes == old(nodes) - {z}
      ensures G() == SpliceOut(old(G()), z, v) && P() == old(P()).Drop(z)
      ensures v.parent == old(z.parent)
    {
      hide Shape, KidOk, ParentOk, SplicedLink, SplicedSpan, Cut;
      ghost var g, p := G(), P();
      Unhook(z, v, d);
      Settle(SpliceOut(g, z, v), p.Drop(z));
    }

    method Unhook(z: Node, v: Node, ghost d: Side)
      requires Shape(G()) && z in nodes && CanSplice(G(), z, v, d)
      modifies this`root, nodes`left, nodes`right, nodes`parent, nil`parent
      ensures root == (if old(root) == z then v else old(root)) && v.parent == old(z.parent)
      ensures forall n :: n in nodes && n != z ==> Link(n.left, n.right, n.parent) == SplicedLink(old(G()), z, v, n)
    {
      hide Shape;
      SpliceLinks(z, v, d);
      Transplant(z, v);
    }

    lemma SpliceLinks(z: Node, v: Node, d: Side)
      requires Shape(G()) && z in nodes && CanSplice(G(), z, v, d)
      ensures z.parent != null && (z.parent == nil || z.parent in nodes) && v in nodes + {nil} && nil !in nodes
      ensures z.parent != nil ==> (z.parent.left == z || z.parent.right == z) && z.parent != z && v != z.parent
      ensures z.parent == nil <==> z == root
    {
      assert Linked(G(), z);
      assert v != nil ==> Linked(G(), v);
      assert z.parent != nil ==> Linked(G(), z.parent);
    }

    // Who points at z.
    lemma Neighbours(z: Node)
      requires Shape(G()) && z in nodes
      ensures z.parent != null && z.left != null && z.right != null && nil !in nodes
      ensures (z.parent != nil ==> z.parent in nodes && z.parent != z) && (z.parent == nil <==> z == root)
      ensures z.left in nodes + {nil} && z.right in nodes + {nil} && z.left != z && z.right != z
      ensures z.left != nil ==> z.left != z.parent && z.left != z.right
      ensures z.right != nil ==> z.right != z.parent
      ensures z.parent != nil ==> (z.parent.left == z) != (z.parent.right == z)
      ensures forall n :: n in nodes && (n.left == z || n.right == z) ==> n == z.parent
      ensures forall n :: n in nodes ==> (n.parent == z <==> n == z.left || n == z.right)
    {
      assert Linked(G(), z);
      assert z.parent != nil ==> Linked(G(), z.parent);
      forall n | n in nodes
        ensures n.left == z || n.right == z ==> n == z.parent
        ensures n.parent == z <==> n == z.left || n == z.right
      {
        assert Linked(G(), n);
      }
    }

    // y, already detached, takes over the kids, the parent and the colour of z.
    method TakePlace(z: Node, y: Node)
      requires Shape(G()) && Painted(G(), P()) && CanReplace(G(), z, y) && z.left != nil && z.right != nil
      requires nil.color == Black
      modifies this`root, this`nodes, this`order, this`span, this`bh
      modifies nodes`left, nodes`right, nodes`parent, y`left, y`right, y`parent, y`color
      ensures G() == Replace(old(G()), z, y) && P() == Relay(old(P()), z, y)
    {
      hide Shape;
      ghost var g, p := G(), P();
      Neighbours(z);
      Rewire(z, y);
      Settle(Replace(g, z, y), Relay(p, z, y));
    }

    method Rewire(z: Node, y: Node)
      requires Shape(G()) && CanReplace(G(), z, y) && z.left != nil && z.right != nil
      modifies this`root, nodes`left, nodes`right, nodes`parent, y`left, y`right, y`parent, y`color
      ensures root == (if old(root) == z then y else old(root)) && y.color == old(z.color)
      ensures y.left == old(z.left) && y.right == old(z.right) && y.parent == old(z.parent)
      ensures forall n :: n in nodes && n != z ==>
        && n.left == Renamed(old(n.left), z, y) && n.right == Renamed(old(n.right), z, y)
        && n.parent == Renamed(old(n.parent), z, y)
    {
      hide Shape;
      Neighbours(z);
      y.right := z.right;
      y.right.parent := y;
      MoveUp(z, y);
    }

    // Transplant(z, y) and z's left subtree and colour for y.
    method MoveUp(z: Node, y: Node)
      requires z.parent != null && (z.parent == nil || z.parent != y) && z.left != null && y != z
      requires z.left != z && z.left != y && (z.parent == nil || z.left != z.parent)
      modifies this`root, y`parent, y`left, y`color, z.left`parent
      modifies (if z.parent == nil then {} else {z.parent})`left, (if z.parent == nil then {} else {z.parent})`right
      ensures root == (if old(z.parent) == nil then y else old(root)) && y.parent == old(z.parent)
      ensures y.left == old(z.left) && y.left.parent == y && y.color == z.color == old(z.color)
      ensures var p := old(z.parent); p != nil ==> p.left == if old(p.left) == z then y else old(p.left)
      ensures var p := old(z.parent); p != nil ==> p.right == if old(p.left) == z then old(p.right) else y
    {
      Transplant(z, y);
      y.left := z.left;
      y.left.parent := y;
      y.color := z.color;
    }

    // z's successor y is its right kid: y keeps its own right subtree.
    method PromoteNear(z: Node, y: Node, x: Node)
      requires Shape(G()) && Painted(G(), P()) && z in nodes && y in nodes && z.left != nil && z.right == y
      requires nil.color == Black
      requires CanSplice(G(), y, x, Left) && CanReplace(SpliceOut(G(), y, x), z, y)
      modifies this`root, this`nodes, this`order, this`span, this`bh
      modifies nodes`left, nodes`right, nodes`parent, nodes`color, nil`parent
      ensures G() == Replace(SpliceOut(old(G()), y, x), z, y) && P() == Relay(old(P()).Drop(y), z, y)
      ensures x.parent == y
    {
      hide Shape, Replace, SpliceOut, Relay, Promoted, Successor, CanReplace;
      ghost var g, p := G(), P();
      SuccessorHere(z, y, x);
      PromotedAll(g, z, y, x);
      PromotedPaint(p, z, y, nodes);
      ghost var g', p' := Replace(SpliceOut(g, y, x), z, y), Relay(p.Drop(y), z, y);
      RewireNear(z, y, x);
      Settle(g', p');
    }

    lemma SuccessorHere(z: Node, y: Node, x: Node)
      requires Shape(G()) && z in nodes && y in nodes && z.left != nil && z.right == y && CanSplice(G(), y, x, Left)
      ensures Successor(G(), z, y, x) && y != z && y.left == nil && y.right == x && nil !in nodes
    {
      assert Linked(G(), z) && Linked(G(), y);
    }

    method RewireNear(z: Node, y: Node, x: Node)
      requires Shape(G()) && z in nodes && y in nodes && z.left != nil && z.right == y && y.left == nil && y.right == x
      modifies this`root, nodes`left, nodes`right, nodes`parent, y`color, nil`parent
      ensures root == (if old(root) == z then y else old(root)) && y.color == old(z.color) && x.parent == y
      ensures forall n :: n in nodes && n != z ==> Link(n.left, n.right, n.parent) == Promoted(old(G()), z, y, x, n)
    {
      hide Shape;
      Neighbours(z);
      Neighbours(y);
      x.parent := y;
      MoveUp(z, y);
    }

    method Minimum(x0: Node) returns (x: Node)
      requires RedBlack(G(), P()) && x0 in nodes
      ensures x in nodes && x in span && x0 in span && x.left == nil && span[x].pos == span[x].lo == span[x0].lo
    {
      x := x0;
      StepDown(G(), P(), x, Left);
      while x.left != nil
        invariant x in nodes && x in span && span[x].lo == span[x0].lo && x.left != null
        decreases Size(G(), x)
      {
        StepDown(G(), P(), x, Left);
        x := x.left;
        StepDown(G(), P(), x, Left);
      }
      StepDown(G(), P(), x, Left);
    }

    // ---------- the public operations ----------

    method Search(key: int) returns (r: Node?, ghost steps: nat)
      requires Valid()
      ensures r != null ==> r in nodes && r.key == key && key in Keys(order)
      ensures r == null ==> key !in Keys(order)
      ensures Pow2(steps) <= (|order| + 1) * (|order| + 1)
    {
      hide RedBlack, Seeking, Shape;
      var x := root;
      ghost var a, b := 0, |order|;
      steps := 0;
      SearchStart(key);
      while x != nil
        invariant x in nodes + {nil} && Seeking(G(), key, x, a, b)
        invariant steps + Reach(P(), x) <= Reach(P(), root) && 0 <= Reach(P(), x)
        decreases Size(G(), x)
      {
        ghost var d := if key < x.key then Left else Right;
        SearchStep(key, x, a, b, steps);
        a, b, steps := span[x].From(d), span[x].To(d), steps + 1;
        if key == x.key {
          return x, steps;
        } else if key < x.key {
          x := x.left;
        } else {
          x := x.right;
        }
      }
      SearchEnd(key, a, b, steps);
      return null, steps;
    }

    lemma SearchStart(key: int)
      requires Valid()
      ensures Seeking(G(), key, root, 0, |order|) && root in nodes + {nil} && 0 <= Reach(P(), root)
    {
      Bushy(G(), P(), root);
    }

    lemma SearchStep(key: int, x: Node, a: int, b: int, steps: nat)
      requires Valid() && Seeking(G(), key, x, a, b) && x in nodes && steps + Reach(P(), x) <= Reach(P(), root)
      ensures x in span && x.left != null && x.right != null
      ensures var d := if key < x.key then Left else Right; var m := G().link[x].Kid(d);
        m in nodes + {nil} && 0 <= Reach(P(), m) < Reach(P(), x) && 0 <= Size(G(), m) < Size(G(), x)
      ensures key != x.key ==> var d := if key < x.key then Left else Right;
        Seeking(G(), key, G().link[x].Kid(d), span[x].From(d), span[x].To(d))
      ensures key == x.key ==> key in Keys(order)
      ensures Pow2(steps + 1) <= (|order| + 1) * (|order| + 1)
    {
      var d := if key < x.key then Left else Right;
      StepDown(G(), P(), x, d);
      assert Linked(G(), x);
      Bushy(G(), P(), G().link[x].Kid(d));
      ShortPaths(G(), P(), steps + 1);
      if key != x.key { SeekStep(G(), P(), key, x, a, b); }
      assert Keys(order)[span[x].pos] == x.key;
    }

    lemma SearchEnd(key: int, a: int, b: int, steps: nat)
      requires Valid() && Seeking(G(), key, nil, a, b) && steps <= Reach(P(), root)
      ensures key !in Keys(order) && Pow2(steps) <= (|order| + 1) * (|order| + 1)
    {
      SeekEnd(G(), key, a);
      ShortPaths(G(), P(), steps);
    }

    method Insert(key: int)
      requires Valid()
      modifies this, nodes
      ensures Valid() && nil == old(nil) && fresh(nodes - old(nodes))
      ensures Keys(order) == Inserted(old(Keys(order)), key)
    {
      hide RedBlack, Descending, Shape, RedAt, CanAttach;
      var z := new Node(key);
      var y := nil;
      var x := root;
      ghost var d, a, b := Left, 0, |order|;
      InsertStart(key);
      while x != nil
        invariant x in nodes + {nil} && y in nodes + {nil} && Descending(G(), key, x, y, d, a, b)
        modifies {}
        decreases Size(G(), x)
      {
        InsertStep(key, x, y, d, a, b);
        y := x;
        if z.key < x.key {
          x := x.left;
          d := Left;
        } else {
          x := x.right;
          d := Right;
        }
        a, b := span[y].From(d), span[y].To(d);
      }
      Plant(z, y, d, a, b);
    }

    // Hangs the new node z under y, where the descent ended, and repairs the tree.
    method Plant(z: Node, y: Node, ghost d: Side, ghost a: int, ghost b: int)
      requires y in nodes + {nil}
      requires Valid() && Descending(G(), z.key, nil, y, d, a, b) && z !in nodes && z != nil && z.color == Red
      requires nil !in nodes
      modifies this`root, this`nodes, this`order, this`span, this`bh, nodes, z
      ensures Valid() && nodes == old(nodes) + {z}
      ensures Keys(order) == Inserted(old(Keys(order)), z.key)
    {
      hide RedBlack, Descending, Shape, RedAt, CanAttach;
      DescendSide(z.key, y, d, a, b);
      DescendEnd(G(), P(), z.key, y, d, a, b, z);
      AttachRedAt(G(), P(), z, y, d);
      Hang(z, y, d);
      InsertFixup(z);
      InsertedIs(old(Keys(order)), z.key);
    }

    lemma DescendSide(key: int, y: Node, d: Side, a: int, b: int)
      requires Descending(G(), key, nil, y, d, a, b)
      ensures y != nil ==> (d == Left <==> key < y.key)
    {
    }

    lemma InsertStart(key: int)
      requires Valid()
      ensures Descending(G(), key, root, nil, Left, 0, |order|) && root in nodes + {nil} && nil !in nodes
    {
      DescendStart(G(), key);
    }

    lemma InsertStep(key: int, x: Node, y: Node, d: Side, a: int, b: int)
      requires Valid() && Descending(G(), key, x, y, d, a, b) && x in nodes
      ensures x in span && x.left != null && x.right != null
      ensures var e := if key < x.key then Left else Right; var m := G().link[x].Kid(e);
        && m in nodes + {nil} && 0 <= Size(G(), m) < Size(G(), x)
        && Descending(G(), key, m, x, e, span[x].From(e), span[x].To(e))
    {
      assert Linked(G(), x);
      StepDown(G(), P(), x, if key < x.key then Left else Right);
      DescendStep(G(), P(), key, x, y, d, a, b);
    }

    // The new node's links, and the link down to it.
    method Hang(z: Node, y: Node, ghost d: Side)
      requires CanAttach(G(), z, y, d) && 0 <= Place(G(), y, d) <= |order| && z.color == Red && nil !in nodes
      requires y != nil ==> (d == Left <==> z.key < y.key)
      modifies this`root, this`nodes, this`order, this`span, this`bh
      modifies z`left, z`right, z`parent, (if y == nil then {} else {y})`left, (if y == nil then {} else {y})`right
      ensures nodes == old(nodes) + {z} && G() == Attach(old(G()), z, y, d) && P() == old(P()).Put(z, Red, 0)
    {
      hide AttachedSpan, AttachedLink, CanAttach, Place;
      ghost var g, p := G(), P();
      Graft(z, y, d);
      Settle(Attach(g, z, y, d), p.Put(z, Red, 0));
    }

    method Graft(z: Node, y: Node, ghost d: Side)
      requires CanAttach(G(), z, y, d) && nil !in nodes && (y != nil ==> (d == Left <==> z.key < y.key))
      modifies this`root
      modifies z`left, z`right, z`parent, (if y == nil then {} else {y})`left, (if y == nil then {} else {y})`right
      ensures root == if y == nil then z else old(root)
      ensures forall n :: n in nodes + {z} ==> Link(n.left, n.right, n.parent) == AttachedLink(old(G()), z, y, d, n)
    {
      z.parent := y;
      if y == nil {
        root := z;
      } else if z.key < y.key {
        y.left := z;
      } else {
        y.right := z;
      }
      z.left := nil;
      z.right := nil;
    }

    method Remove(key: int)
      requires Valid()
      modifies this, nodes, nil
      ensures Valid() && nil == old(nil) && nodes <= old(nodes)
      ensures Keys(order) == Removed(old(Keys(order)), key)
    {
      hide *;
      var z, _ := Search(key);
      if z == null {
        RemoveNothing(key);
        return;
      }
      RemoveView(z);
      var x: Node, color: Color;
      ghost var q: Node?, d: Side;
      if z.left == nil {
        x, color, q, d := RemoveOuter(z, z.right, Left);
      } else if z.right == nil {
        x, color, q, d := RemoveOuter(z, z.left, Right);
      } else {
        x, color, q, d := RemoveInner(z);
      }
      if color == Black {
        DeleteFixup(x, q, d);
      }
      ValidAgain();
    }

    lemma RemoveNothing(key: int)
      requires Valid() && key !in Keys(order)
      ensures Keys(order) == Removed(Keys(order), key)
    {
      RemovedIs(Keys(order), key);
    }

    lemma RemoveView(z: Node)
      requires Valid() && z in nodes
      ensures z.left != null && z.right != null && nil !in nodes
      ensures z.left == nil ==> CanSplice(G(), z, z.right, Left)
      ensures z.right == nil ==> CanSplice(G(), z, z.left, Right)
    {
      assert Linked(G(), z);
    }

    lemma ValidAgain()
      requires nil.color == Black && RedBlack(G(), P()) && Sorted(Keys(order))
      ensures Valid()
    {
    }

    // z has at most one kid: it is taken out itself.
    method RemoveOuter(z: Node, v: Node, ghost e: Side) returns (x: Node, color: Color, ghost q: Node?, ghost d: Side)
      requires Valid() && z in nodes && CanSplice(G(), z, v, e)
      modifies this`root, this`nodes, this`order, this`span, this`bh
      modifies nodes`left, nodes`right, nodes`parent, nil`parent
      ensures nil.color == Black && nodes == old(nodes) - {z}
      ensures Keys(order) == Removed(old(Keys(order)), z.key) && Sorted(Keys(order))
      ensures color == Red ==> RedBlack(G(), P())
      ensures color == Black ==> Mending(G(), P(), x, q, d) && (x == nil && x != root ==> nil.parent == q)
    {
      hide RedBlack, Mending, CanSplice;
      ghost var g, p := G(), P();
      d := SpliceMending(g, p, z, v, e);
      x, color, q := v, z.color, z.parent;
      OrderOf(z);
      CutKeys(order, span[z].pos);
      RemovedIs(Keys(order), z.key);
      SpliceNode(z, v, e);
    }

    lemma OrderOf(z: Node)
      requires RedBlack(G(), P()) && z in nodes
      ensures Shape(G()) && bh.Keys == nodes && z in span && 0 <= span[z].pos < |order| && order[span[z].pos] == z
      ensures nil !in nodes
    {
      assert Linked(G(), z);
    }

    // z has two kids: its successor is taken out and put in its place.
    method RemoveInner(z: Node) returns (x: Node, color: Color, ghost q: Node?, ghost d: Side)
      requires Valid() && z in nodes && z.left != nil && z.right != nil
      modifies this`root, this`nodes, this`order, this`span, this`bh
      modifies nodes`left, nodes`right, nodes`parent, nodes`color, nil`parent
      ensures nil.color == Black && nodes == old(nodes) - {z}
      ensures Keys(order) == Removed(old(Keys(order)), z.key) && Sorted(Keys(order))
      ensures color == Red ==> RedBlack(G(), P())
      ensures color == Black ==> Mending(G(), P(), x, q, d) && (x == nil && x != root ==> nil.parent == q)
    {
      hide *;
      RemoveView(z);
      RightKid(z);
      var y := Minimum(z.right);
      color := y.color;
      SuccessorOf(z, y);
      x := y.right;
      q := Renamed(y.parent, z, y);
      d := SuccessorPaint(z, y, x);
      PutInPlace(z, y, x);
      NodesOf();
    }

    lemma RightKid(z: Node)
      requires Valid() && z in nodes && z.right != nil
      ensures RedBlack(G(), P()) && z.right in nodes
    {
      assert Linked(G(), z);
    }

    lemma SuccessorOf(z: Node, y: Node)
      requires Valid() && z in nodes && z.left != nil && z.right != nil && y in nodes && y.left == nil
      requires y in span && z.right in span && span[y].pos == span[y].lo == span[z.right].lo
      ensures y.right != null && y.parent != null && Successor(G(), z, y, y.right) && y.color == P().C(y)
    {
      assert Linked(G(), z) && Linked(G(), y);
    }

    // What the graph, the paint and the keys will be once y stands in the place of z.
    lemma SuccessorPaint(z: Node, y: Node, x: Node) returns (d: Side)
      requires Valid() && Successor(G(), z, y, x) && y.parent != null
      ensures Shape(G()) && Painted(G(), P()) && bh.Keys == nodes && z in nodes && y in nodes && nil.color == Black
      ensures CanSplice(G(), y, x, Left) && CanReplace(SpliceOut(G(), y, x), z, y)
      ensures var g', p' := Replace(SpliceOut(G(), y, x), z, y), Relay(P().Drop(y), z, y);
        && (P().C(y) == Red ==> RedBlack(g', p'))
        && (P().C(y) == Black ==> Mending(g', p', x, Renamed(y.parent, z, y), d))
        && g'.link.Keys == nodes - {z} && Keys(g'.order) == Removed(Keys(order), z.key) && Sorted(Keys(g'.order))
    {
      hide RedBlack, Mending, Shape;
      OrderOf(z);
      SuccessorFits(G(), z, y, x);
      d := SuccessorMending(G(), P(), z, y, x);
      CutKeys(order, span[z].pos);
      RemovedIs(Keys(order), z.key);
      hide *;
    }

    lemma NodesOf()
      ensures nodes == G().link.Keys && order == G().order && root == G().root
    {
    }

    method PutInPlace(z: Node, y: Node, x: Node)
      requires nil.color == Black && Shape(G()) && Painted(G(), P()) && bh.Keys == nodes && z in nodes
      requires y in nodes && nil !in nodes
      requires Successor(G(), z, y, x) && CanSplice(G(), y, x, Left) && CanReplace(SpliceOut(G(), y, x), z, y)
      modifies this`root, this`nodes, this`order, this`span, this`bh
      modifies nodes`left, nodes`right, nodes`parent, nodes`color, nil`parent
      ensures G() == Replace(SpliceOut(old(G()), y, x), z, y) && P() == Relay(old(P()).Drop(y), z, y)
      ensures x == nil ==> nil.parent == Renamed(old(y.parent), z, y)
    {
      hide Shape, CanReplace, Linked;
      SuccessorFits(G(), z, y, x);
      if y.parent == z {
        PromoteNear(z, y, x);
      } else {
        SpliceNode(y, x, Left);
        TakePlace(z, y);
      }
    }
  }
}
