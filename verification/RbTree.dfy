/** rde::rb_tree_base (3rdparty/rdestl/rb_tree.h): nodes with parent pointers that share one sentinel,
    changed in place, and the tree they make up. */
module RbTree {
  import opened RedBlack
  import opened RedBlackErase
  import opened RedBlackInsert
  import opened TreeMemory

  ghost function Look(o: Node): Cell
    reads o
  {
    Cell(o.left, o.right, o.parent, o.key, o.color)
  }

  class RbTree {
    const sentinel: Node
    var root: Node
    var size: nat
    ghost var repr: set<Node>
    ghost var tree: Tree

    constructor (sentinel: Node)
      requires sentinel.color.Black?
      ensures Valid() && tree == Leaf && repr == {} && this.sentinel == sentinel
    {
      this.sentinel, root, size, repr, tree := sentinel, sentinel, 0, {}, Leaf;
      new;
      assert Rb(Leaf, 0);
    }

    ghost function Mem(): Memory
      reads this`repr, repr
    {
      map o | o in repr :: Look(o)
    }

    /** The nodes make up the tree `t` at the place `c`. */
    ghost predicate Here(c: Ctx, t: Tree)
      reads this`root, this`repr, sentinel`color, repr
    {
      && At(Mem(), sentinel, root, c, t) && c.Nodes() + t.Nodes() == repr
      && sentinel !in repr && sentinel.color.Black?
    }

    ghost predicate Valid()
      reads this, sentinel`color, repr
    {
      Here(Top, tree) && Sorted(Inorder(tree)) && IsRedBlack(tree) && size == |Inorder(tree)|
    }

    // ---------- Moving the place ----------

    lemma GoDown(c: Ctx, t: Tree, s: Side)
      requires Here(c, t) && t.Fork?
      ensures Here(Below(c, s, t.node, t.color, t.key, t.Kid(s.Other())), t.Kid(s))
      ensures Plug(Below(c, s, t.node, t.color, t.key, t.Kid(s.Other())), t.Kid(s)) == Plug(c, t)
    {
      Down(Mem(), sentinel, root, c, t, s);
    }

    lemma GoUp(c: Ctx, t: Tree)
      requires Here(c, t) && c.Below?
      ensures Here(c.up, Join(c.side, c.node, c.color, c.key, t, c.other))
    {
      Up(Mem(), sentinel, root, c, t);
    }

    lemma GoTop(c: Ctx, t: Tree)
      requires Here(c, t)
      ensures Here(Top, Plug(c, t))
    {
      Close(Mem(), sentinel, root, c, t);
      PlugNodes(c, t);
    }

    lemma GoTo(c: Ctx, t: Tree)
      requires Here(Top, Plug(c, t))
      ensures Here(c, t)
    {
      Open(Mem(), sentinel, root, c, t);
      PlugNodes(c, t);
    }

    /** What the fields say at a place. */
    lemma Fields(c: Ctx, t: Tree)
      requires Here(c, t)
      ensures t.Fork? ==>
              t.node in repr && t.node.left == RootOf(sentinel, t.left)
              && t.node.right == RootOf(sentinel, t.right)
                          && t.node.parent == ParentOf(sentinel, c) && t.node.key == t.key && t.node.color == t.color
      ensures c.Top? ==> root == RootOf(sentinel, t)
      ensures c.Below? ==> c.node in repr && c.node.Child(c.side) == RootOf(sentinel, t)
                           && c.node.Child(c.side.Other()) == RootOf(sentinel, c.other)
                           && c.node.parent == ParentOf(sentinel, c.up) && c.node.key == c.key
                              && c.node.color == c.color
      ensures c.Below? && (t.Fork? || c.other.Fork?) ==> RootOf(sentinel, t) != RootOf(sentinel, c.other)
    {
      Around(Mem(), sentinel, root, c, t);
    }

    /** The nodes a rotation writes are different nodes that point at each other. */
    ghost predicate RotationOk(c: Ctx, t: Tree, s: Side)
      requires t.Fork? && t.Kid(s.Other()).Fork?
      reads this`repr, repr
    {
      var (n, k, p) := (t.node, t.Kid(s.Other()), ParentOf(sentinel, c));
      var m := RootOf(sentinel, k.Kid(s));
      && {n, k.node} <= repr && n != k.node && n.Child(s.Other()) == k.node && k.node.Child(s) == m
      && (m != sentinel ==> m in repr && m != n && m != k.node && m != p)
      && n.parent == p && (p == sentinel <==> c.Top?)
      && (p != sentinel ==> p in repr && p != n && p != k.node && p.Child(c.side) == n && p.Child(c.side.Other()) != n)
    }

    lemma RotationNodes(c: Ctx, t: Tree, s: Side)
      requires Here(c, t) && t.Fork? && t.Kid(s.Other()).Fork?
      ensures RotationOk(c, t, s)
    {
      var k := t.Kid(s.Other());
      var kc := Below(c, s.Other(), t.node, t.color, t.key, t.Kid(s));
      Fields(c, t);
      GoDown(c, t, s.Other());
      Fields(kc, k);
      GoDown(kc, k, s);
      Fields(Below(kc, s, k.node, k.color, k.key, k.Kid(s.Other())), k.Kid(s));
    }

    // ---------- Writes ----------

    method SetColor(n: Node, color: Color, ghost c: Ctx, ghost t: Tree)
      requires Here(c, t) && t.Fork? && n == t.node
      modifies n`color
      ensures Here(c, t.(color := color))
    {
      Fields(c, t);
      ghost var h := Mem();
      n.color := color;
      PaintRoot(h, Mem(), sentinel, root, c, t, color);
    }

    /** The child of `n` on the other side moves up into its place, `n` down to side `s` of it. */
    method Rotate(n: Node, s: Side, ghost c: Ctx, ghost t: Tree)
      requires Here(c, t) && t.Fork? && n == t.node && t.Kid(s.Other()).Fork?
      modifies `root, repr`left, repr`right, repr`parent, repr`color
      ensures Here(c, Rot(t, s))
    {
      hide At, Tree.Nodes, Ctx.Nodes, Rot, RotatedMemory;
      ghost var h := Mem();
      RotationNodes(c, t, s);
      RotateMemory(n, s, c, t);
      RotationRotates(h, Mem(), sentinel, old(root), root, c, t, s);
      RotKeepsOrder(t, s);
    }

    method RotateMemory(n: Node, s: Side, ghost c: Ctx, ghost t: Tree)
      requires t.Fork? && n == t.node && t.Kid(s.Other()).Fork? && RotationOk(c, t, s)
      modifies `root, repr`left, repr`right, repr`parent, repr`color
      ensures RotatedMemory(old(Mem()), Mem(), sentinel, old(root), root, c, t, s)
    {
      RotateFields(n, s, c, t);
    }

    method RotateFields(n: Node, s: Side, ghost c: Ctx, ghost t: Tree)
      requires t.Fork? && n == t.node && t.Kid(s.Other()).Fork? && RotationOk(c, t, s)
      modifies `root, repr`left, repr`right, repr`parent, repr`color
      ensures Rotated(n, s, old(n.Child(s.Other())), old(n.Child(s.Other()).Child(s)), old(n.parent), c)
    {
      var child := n.Child(s.Other());
      n.SetChild(s.Other(), child.Child(s));
      if n.Child(s.Other()) != sentinel {
        n.Child(s.Other()).parent := n;
      }
      child.parent := n.parent;
      if n.parent == sentinel {
        root := child;
      } else if n == n.parent.left {
        n.parent.left := child;
      } else {
        n.parent.right := child;
      }
      child.SetChild(s, n);
      n.parent := child;
    }

    /** What the writes of a rotation come to, node by node. */
    twostate predicate Rotated(n: Node, s: Side, child: Node, m: Node, p: Node, c: Ctx)
      reads this, repr, n, child, m, p
    {
      && repr == old(repr)
      && Look(n) == old(Look(n)).WithChild(s.Other(), m).(parent := child)
      && Look(child) == old(Look(child)).WithChild(s, n).(parent := p)
      && (m != sentinel ==> Look(m) == old(Look(m)).(parent := n))
      && (if p == sentinel then root == child
          else root == old(root) && (c.Below? ==> Look(p) == old(Look(p)).WithChild(c.side, child)))
      && (forall o :: o in repr && o in old(repr) && o != n && o != child && o != m && o != p ==>
          Look(o) == old(Look(o)))
    }

    // ---------- After an insertion ----------

    /** Red parent and red uncle: both turn black, the grandparent red. */
    method Recolor(iter: Node, grandparent: Node, uncle: Node, ghost c: Ctx, ghost t: Tree)
      requires Here(c, t) && t.Fork? && iter == t.node && c.Below? && c.up.Below? && c.up.other.Fork?
      requires grandparent == c.up.node && uncle == c.up.other.node
      modifies repr`color
      ensures Here(c.up.up, Recolored(c, t))
    {
      hide At, Tree.Nodes, Ctx.Nodes;
      ghost var g := c.up;
      Fields(c, t);
      GoUp(c, t);
      ghost var parent := Join(c.side, c.node, c.color, c.key, t, c.other);
      SetColor(iter.parent, Black, g, parent);
      ghost var parent' := parent.(color := Black);
      GoUp(g, parent');
      ghost var top := Join(g.side, g.node, g.color, g.key, parent', g.other);
      GoDown(g.up, top, g.side.Other());
      ghost var uc := Below(g.up, g.side.Other(), g.node, g.color, g.key, parent');
      SetColor(uncle, Black, uc, g.other);
      GoUp(uc, g.other.(color := Black));
      SetColor(grandparent, Red, g.up, Join(uc.side, g.node, g.color, g.key, g.other.(color := Black), parent'));
    }

    /** Red parent and an inner node: the parent turns outward. */
    method TurnOut(iter: Node, s: Side, ghost c: Ctx, ghost t: Tree, ghost h: nat)
      requires Here(c, t) && Growing(c, t, h) && RedParent(c) && t.Fork? && iter == c.node && s == c.side.Other()
      modifies `root, repr`left, repr`right, repr`parent, repr`color
      ensures Here(TurnedCtx(c, t), TurnedTree(c, t))
    {
      hide At, Tree.Nodes, Ctx.Nodes, Growing;
      GoUp(c, t);
      TurningGrows(c, t, h);
      ghost var joined := Join(c.side, c.node, c.color, c.key, t, c.other);
      Rotate(iter, s, c.up, joined);
      GoDown(c.up, Rot(joined, s), s);
    }

    /** Red parent, black uncle and an outer node: the parent takes the grandparent's place and colour. */
    method Lift(iter: Node, s: Side, ghost c: Ctx, ghost t: Tree, ghost h: nat)
      requires Here(c, t) && Growing(c, t, h) && RedParent(c) && t.Fork? && iter == t.node && s == c.side
      requires c.up.Below? && !c.up.other.IsRed() && c.side == c.up.side
      modifies `root, repr`left, repr`right, repr`parent, repr`color
      ensures Here(LiftedCtx(c), t)
    {
      hide At, Tree.Nodes, Ctx.Nodes, Growing;
      ghost var g := c.up;
      Fields(c, t);
      GoUp(c, t);
      ghost var parent := Join(c.side, c.node, c.color, c.key, t, c.other);
      Fields(g, parent);
      var grandparent := iter.parent.parent;
      SetColor(iter.parent, Black, g, parent);
      ghost var parent' := parent.(color := Black);
      GoUp(g, parent');
      ghost var top := Join(g.side, g.node, g.color, g.key, parent', g.other);
      SetColor(grandparent, Red, g.up, top);
      Rotate(grandparent, s.Other(), g.up, top.(color := Red));
      LiftingGrows(c, t, h);
      GoDown(g.up, Rot(top.(color := Red), s.Other()), s);
    }

    method Rebalance(newNode: Node, ghost c0: Ctx, ghost t0: Tree, ghost h0: nat) returns (ghost grown: Tree)
      requires Here(c0, t0) && Growing(c0, t0, h0) && newNode == t0.node
      modifies `root, repr`left, repr`right, repr`parent, repr`color
      ensures Here(Top, grown) && IsRedBlack(grown) && Inorder(grown) == Inorder(Plug(c0, t0))
    {
      hide At, Tree.Nodes, Ctx.Nodes, Recolored, TurnedCtx, TurnedTree, LiftedCtx, Rb, CtxRb, Plug;
      var iter := newNode;
      ghost var c, t, h := c0, t0, h0;
      Fields(c, t);
      while iter.parent.color == Red
        invariant Here(c, t) && Growing(c, t, h) && iter == t.node
        invariant Inorder(Plug(c, t)) == Inorder(Plug(c0, t0))
        invariant iter.parent == ParentOf(sentinel, c) && (c.Below? ==> c.color == c.node.color)
        decreases if RedParent(c) then Depth(c) + 1 else 0
      {
        iter, c, t, h := RebalanceStep(iter, c, t, h);
        Fields(c, t);
      }
      GrowthEnds(c, t, h);
      GoTop(c, t);
      grown := Plug(c, t);
      Fields(Top, grown);
      SetColor(root, Black, Top, grown);
      grown := grown.(color := Black);
    }

    ghost function Depth(c: Ctx): nat { if c.Top? then 0 else 1 + Depth(c.up) }

    method RebalanceStep(iter: Node, ghost c: Ctx, ghost t: Tree, ghost h: nat)
      returns (iter': Node, ghost c': Ctx, ghost t': Tree, ghost h': nat)
      requires Here(c, t) && Growing(c, t, h) && RedParent(c) && iter == t.node
      modifies `root, repr`left, repr`right, repr`parent, repr`color
      ensures Here(c', t') && Growing(c', t', h') && iter' == t'.node
      ensures Inorder(Plug(c', t')) == Inorder(Plug(c, t))
      ensures RedParent(c') ==> Depth(c') < Depth(c)
    {
      hide At, Tree.Nodes, Ctx.Nodes, Rb, CtxRb, Plug, Inorder;
      GrandparentIsBlack(c, t, h);
      Fields(c, t);
      GoUp(c, t);
      ghost var parent := Join(c.side, c.node, c.color, c.key, t, c.other);
      Fields(c.up, parent);
      GoUp(c.up, parent);
      ghost var top := Join(c.up.side, c.up.node, c.up.color, c.up.key, parent, c.up.other);
      GoDown(c.up.up, top, c.up.side.Other());
      Fields(Below(c.up.up, c.up.side.Other(), c.up.node, c.up.color, c.up.key, parent), c.up.other);
      var grandparent := iter.parent.parent;
      var s := if iter.parent == grandparent.left then L else R;
      var uncle := grandparent.Child(s.Other());
      if uncle.color == Red {
        RecoloringGrows(c, t, h);
        Recolor(iter, grandparent, uncle, c, t);
        return grandparent, c.up.up, Recolored(c, t), h + 1;
      }
      iter', c', t', h' := iter, c, t, h;
      if iter == iter.parent.Child(s.Other()) {
        iter' := iter.parent;
        TurningGrows(c, t, h);
        TurnOut(iter', s, c, t, h);
        c', t' := TurnedCtx(c, t), TurnedTree(c, t);
      }
      LiftingGrows(c', t', h);
      Lift(iter', s, c', t', h);
      c' := LiftedCtx(c');
    }

    // ---------- Insertion ----------

    /** The new node gets its place in the tree. */
    method Link(newNode: Node, parent: Node, key: int, ghost c: Ctx)
      requires Here(c, Leaf) && newNode !in repr && newNode != sentinel && parent == ParentOf(sentinel, c)
      requires Look(newNode) == Cell(sentinel, sentinel, parent, key, Red)
      requires c.Below? ==> (c.side.L? <==> key < c.key)
      modifies `root, `repr, repr
      ensures repr == old(repr) + {newNode} && Here(c, Fork(Leaf, newNode, Red, key, Leaf))
    {
      hide At;
      ghost var h := Mem();
      Fields(c, Leaf);
      repr := repr + {newNode};
      if parent != sentinel {
        if key < parent.key {
          parent.left := newNode;
        } else {
          parent.right := newNode;
        }
      } else {
        root := newNode;
      }
      Grafted(h, Mem(), sentinel, old(root), root, c, newNode, key);
    }

    /** Goes down to the node of a key, or to the empty place where it would be. */
    method Descend(key: int) returns (iter: Node, parent: Node, ghost c: Ctx, ghost t: Tree)
      requires Valid()
      ensures Here(c, t) && Plug(c, t) == tree && iter == RootOf(sentinel, t)
              && (t.Leaf? ==> parent == ParentOf(sentinel, c))
      ensures iter != sentinel <==> t.Fork?
      ensures t.Fork? ==> iter in repr && iter.key == key == t.key
      ensures t.Leaf? ==>
              AllBelow(Before(c), key) && AllAbove(After(c), key)
              && (c.Below? ==> (c.side.L? <==> key < c.key))
    {
      hide At, Tree.Nodes, Ctx.Nodes, Inorder, IsRedBlack, Plug, Sorted, AllBelow, AllAbove;
      iter, parent, c, t := root, sentinel, Top, tree;
      AtTop(tree, key);
      Fields(c, t);
      while iter != sentinel
        invariant Here(c, t) && Plug(c, t) == tree && iter == RootOf(sentinel, t) && parent == ParentOf(sentinel, c)
        invariant AllBelow(Before(c), key) && AllAbove(After(c), key)
        invariant c.Below? ==> (c.side.L? <==> key < c.key)
        decreases t
      {
        parent := iter;
        Fields(c, t);
        Narrows(c, t, key);
        if iter.key < key {
          iter := iter.right;
          GoDown(c, t, R);
          c, t := Below(c, R, t.node, t.color, t.key, t.left), t.right;
        } else if key < iter.key {
          iter := iter.left;
          GoDown(c, t, L);
          c, t := Below(c, L, t.node, t.color, t.key, t.right), t.left;
        } else {
          return;
        }
      }
      Fields(c, t);
    }

    /** Inserts a key unless it is there; returns its node. */
    method Insert(key: int) returns (n: Node)
      requires Valid()
      modifies this, repr
      ensures Valid() && fresh(repr - old(repr)) && old(repr) <= repr
      ensures Inorder(tree) == Inserted(old(Inorder(tree)), key)
      ensures n in repr && n.key == key && (key in old(Inorder(tree)) ==> repr == old(repr))
    {
      hide At, Tree.Nodes, Ctx.Nodes, Inorder, IsRedBlack, Plug, Sorted, AllBelow, AllAbove;
      ghost var c, t;
      var iter, parent;
      iter, parent, c, t := Descend(key);
      if iter != sentinel {
        PresentKey(c, t);
        return iter;
      }
      n := InsertAt(key, parent, c);
    }

    method InsertAt(key: int, parent: Node, ghost c: Ctx) returns (n: Node)
      requires Valid() && Here(c, Leaf) && Plug(c, Leaf) == tree && parent == ParentOf(sentinel, c)
      requires AllBelow(Before(c), key) && AllAbove(After(c), key) && (c.Below? ==> (c.side.L? <==> key < c.key))
      modifies this, repr
      ensures Valid() && fresh(repr - old(repr)) && old(repr) <= repr && n in repr && n.key == key
      ensures key !in old(Inorder(tree)) && Inorder(tree) == Inserted(old(Inorder(tree)), key)
    {
      hide At, Tree.Nodes, Ctx.Nodes, Inorder, IsRedBlack, Plug, Sorted, AllBelow, AllAbove, Growing;
      n := new Node(Red, sentinel, sentinel, parent, key);
      AbsentKey(c, n, key);
      InsertedKeys(Inorder(tree), key, key);
      NewLeafGrows(c, n, key);
      Link(n, parent, key, c);
      tree := Rebalance(n, c, Fork(Leaf, n, Red, key, Leaf), 0);
      size := size + 1;
    }

    // ---------- Around a place ----------

    /** The same place seen from the sibling. */
    ghost function Across(c: Ctx, t: Tree): Ctx
      requires c.Below?
    {
      Below(c.up, c.side.Other(), c.node, c.color, c.key, t)
    }

    lemma GoAcross(c: Ctx, t: Tree)
      requires Here(c, t) && c.Below?
      ensures Here(Across(c, t), c.other)
    {
      GoUp(c, t);
      GoDown(c.up, JoinAt(c, t), c.side.Other());
    }

    /** The root of a placed tree is red in memory exactly when it is red in the tree. */
    lemma ColorsAgree(c: Ctx, t: Tree)
      requires Here(c, t)
      ensures RootOf(sentinel, t).color.Red? <==> t.IsRed()
    {
      Fields(c, t);
    }

    lemma SiblingColors(c: Ctx, t: Tree)
      requires Here(c, t) && c.Below? && c.other.Fork?
      ensures var o := c.other;
              && o.node in repr && o.node.color == o.color
              && o.node.left == RootOf(sentinel, o.left) && o.node.right == RootOf(sentinel, o.right)
              && (o.node.left.color.Red? <==> o.left.IsRed()) && (o.node.right.color.Red? <==> o.right.IsRed())
              && (o.left.Fork? ==> o.node.left in repr) && (o.right.Fork? ==> o.node.right in repr)
    {
      GoAcross(c, t);
      var (d, o) := (Across(c, t), c.other);
      Fields(d, o);
      GoDown(d, o, L);
      ColorsAgree(Below(d, L, o.node, o.color, o.key, o.right), o.left);
      Fields(Below(d, L, o.node, o.color, o.key, o.right), o.left);
      GoDown(d, o, R);
      ColorsAgree(Below(d, R, o.node, o.color, o.key, o.left), o.right);
      Fields(Below(d, R, o.node, o.color, o.key, o.left), o.right);
    }

    method PaintParent(n: Node, color: Color, ghost c: Ctx, ghost t: Tree)
      requires Here(c, t) && c.Below? && n == c.node
      modifies n`color
      ensures Here(c.(color := color), t)
    {
      hide At, Tree.Nodes, Ctx.Nodes;
      GoUp(c, t);
      SetColor(n, color, c.up, JoinAt(c, t));
      GoDown(c.up, JoinAt(c, t).(color := color), c.side);
    }

    method PaintSibling(n: Node, color: Color, ghost c: Ctx, ghost t: Tree)
      requires Here(c, t) && c.Below? && c.other.Fork? && n == c.other.node
      modifies n`color
      ensures Here(c.(other := c.other.(color := color)), t)
    {
      hide At, Tree.Nodes, Ctx.Nodes;
      GoAcross(c, t);
      SetColor(n, color, Across(c, t), c.other);
      GoAcross(Across(c, t), c.other.(color := color));
    }

    method PaintNephew(n: Node, color: Color, s: Side, ghost c: Ctx, ghost t: Tree)
      requires Here(c, t) && c.Below? && c.other.Fork? && c.other.Kid(s).Fork? && n == c.other.Kid(s).node
      modifies n`color
      ensures var o := c.other;
              Here(c.(other := Join(s, o.node, o.color, o.key, o.Kid(s).(color := color), o.Kid(s.Other()))), t)
    {
      hide At, Tree.Nodes, Ctx.Nodes;
      ghost var (d, o) := (Across(c, t), c.other);
      GoAcross(c, t);
      GoDown(d, o, s);
      ghost var nc := Below(d, s, o.node, o.color, o.key, o.Kid(s.Other()));
      SetColor(n, color, nc, o.Kid(s));
      GoUp(nc, o.Kid(s).(color := color));
      GoAcross(d, JoinAt(nc, o.Kid(s).(color := color)));
    }

    // ---------- After an erasure ----------

    /** A red sibling turns black and moves up over the parent, which turns red. */
    method RaiseSibling(iter: Node, sibling: Node, s: Side, ghost c: Ctx, ghost t: Tree, ghost h: nat)
      requires Here(c, t) && Shrinking(c, t, h) && !t.IsRed() && c.Below? && c.other.IsRed()
      requires iter.parent == c.node && sibling == c.other.node && s == c.side && (t.Fork? ==> iter == t.node)
               && (t.Leaf? ==> iter == sentinel)
      modifies `root, repr`left, repr`right, repr`parent, repr`color
      ensures Here(RaisedCtx(c), t)
    {
      hide At, Tree.Nodes, Ctx.Nodes, Shrinking;
      SiblingColors(c, t);
      PaintSibling(sibling, Black, c, t);
      ghost var c1 := c.(other := c.other.(color := Black));
      PaintParent(iter.parent, Red, c1, t);
      ghost var c2 := c1.(color := Red);
      GoUp(c2, t);
      RedSiblingRises(c, t, h);
      ghost var before := JoinAt(c2, t);
      Rotate(iter.parent, s, c.up, before);
      GoDown(c.up, Rot(before, s), s);
      GoDown(RaisedCtx(c).up, JoinAt(RaisedCtx(c), t), s);
    }

    /** A red near child of the sibling turns black and moves up over the sibling, which turns red. */
    method TurnSibling(sibling: Node, s: Side, ghost c: Ctx, ghost t: Tree, ghost h: nat)
      requires Here(c, t) && Shrinking(c, t, h) && !t.IsRed() && c.Below? && c.other.Fork? && c.other.color.Black?
      requires c.other.Kid(c.side).IsRed() && !c.other.Kid(c.side.Other()).IsRed()
      requires sibling == c.other.node && s == c.side
      modifies `root, repr`left, repr`right, repr`parent, repr`color
      ensures Here(c.(other := TurnedSibling(c.other, c.side)), t)
    {
      hide At, Tree.Nodes, Ctx.Nodes, Shrinking;
      ghost var o := c.other;
      SiblingColors(c, t);
      PaintNephew(sibling.Child(s), Black, s, c, t);
      ghost var o1 := Join(s, o.node, o.color, o.key, o.Kid(s).(color := Black), o.Kid(s.Other()));
      ghost var c1 := c.(other := o1);
      PaintSibling(sibling, Red, c1, t);
      ghost var o2 := o1.(color := Red);
      ghost var c2 := c1.(other := o2);
      GoAcross(c2, t);
      NearChildTurns(c, t, h);
      Rotate(sibling, s.Other(), Across(c2, t), o2);
      GoAcross(Across(c2, t), Rot(o2, s.Other()));
    }

    /** The sibling takes the parent's colour and place; the parent and the outer child turn black. */
    method LetSiblingPay(iter: Node, sibling: Node, s: Side, ghost c: Ctx, ghost t: Tree, ghost h: nat)
      requires Here(c, t) && Shrinking(c, t, h) && !t.IsRed() && c.Below? && c.other.Fork? && c.other.color.Black?
      requires c.other.Kid(c.side.Other()).IsRed()
      requires iter.parent == c.node && sibling == c.other.node && s == c.side && (t.Fork? ==> iter == t.node)
               && (t.Leaf? ==> iter == sentinel)
      modifies `root, repr`left, repr`right, repr`parent, repr`color
      ensures Here(c.up, PaidTree(c, t))
    {
      hide At, Tree.Nodes, Ctx.Nodes, Shrinking;
      ghost var o := c.other;
      var out := s.Other();
      Fields(c, t);
      SiblingColors(c, t);
      PaintSibling(sibling, iter.parent.color, c, t);
      ghost var o1 := o.(color := c.color);
      ghost var c1 := c.(other := o1);
      PaintParent(iter.parent, Black, c1, t);
      ghost var c2 := c1.(color := Black);
      SiblingColors(c2, t);
      PaintNephew(sibling.Child(out), Black, out, c2, t);
      ghost var c3 := c2.(other := Join(out, o.node, c.color, o.key, o.Kid(out).(color := Black), o.Kid(s)));
      GoUp(c3, t);
      OuterChildPays(c, t, h);
      Rotate(iter.parent, s, c.up, JoinAt(c3, t));
    }

    /** A black sibling turns red, and the shortage moves up; or its children pay, and the shortage ends. */
    method PayShortage(iter: Node, sibling0: Node, s: Side, ghost c: Ctx, ghost t: Tree, ghost h: nat)
      returns (iter': Node, ghost c': Ctx, ghost t': Tree, ghost h': nat)
      requires Here(c, t) && Shrinking(c, t, h) && c.Below? && !t.IsRed() && c.other.Fork? && c.other.color.Black?
      requires iter == RootOf(sentinel, t) && iter.parent == c.node && s == c.side && sibling0 == c.other.node
      modifies `root, repr`left, repr`right, repr`parent, repr`color
      ensures Here(c', t') && Shrinking(c', t', h') && t'.Fork? && iter' == t'.node
      ensures Inorder(Plug(c', t')) == Inorder(Plug(c, t))
      ensures c' == Top || (c' == c.up && t'.color == c.color)
    {
      hide At, Tree.Nodes, Ctx.Nodes, Shrinking, Plug, Inorder;
      var sibling := sibling0;
      SiblingColors(c, t);
      if sibling.left.color == Black && sibling.right.color == Black {
        SiblingPays(c, t, h);
        PaintSibling(sibling, Red, c, t);
        ghost var c1 := c.(other := c.other.(color := Red));
        GoUp(c1, t);
        return iter.parent, c.up, JoinAt(c1, t), h + Shade(c.color);
      }
      c' := c;
      if sibling.Child(s.Other()).color == Black {
        TurnSibling(sibling, s, c, t, h);
        NearChildTurns(c, t, h);
        c' := c.(other := TurnedSibling(c.other, s));
        Fields(c', t);
        sibling := iter.parent.Child(s.Other());
      }
      OuterChildPays(c', t, h);
      LetSiblingPay(iter, sibling, s, c', t, h);
      GoTop(c.up, PaidTree(c', t));
      PlugForks(c.up, PaidTree(c', t));
      iter' := root;
      c', t' := Top, Plug(c.up, PaidTree(c', t));
      AtTop(t', 0);
      Fields(c', t');
      h' := WholeTree(t');
    }

    method RebalanceEraseStep(iter: Node, ghost c: Ctx, ghost t: Tree, ghost h: nat)
      returns (iter': Node, ghost c': Ctx, ghost t': Tree, ghost h': nat)
      requires Here(c, t) && Shrinking(c, t, h) && c.Below? && !t.IsRed() && iter == RootOf(sentinel, t)
               && iter.parent == c.node
      modifies `root, repr`left, repr`right, repr`parent, repr`color
      ensures Here(c', t') && Shrinking(c', t', h') && iter' == RootOf(sentinel, t')
              && iter'.parent == ParentOf(sentinel, c')
      ensures Inorder(Plug(c', t')) == Inorder(Plug(c, t))
      ensures c'.Below? && !t'.IsRed() ==> Depth(c') < Depth(c)
    {
      hide At, Tree.Nodes, Ctx.Nodes, Shrinking, Plug, Inorder;
      SiblingExists(c, t, h);
      Fields(c, t);
      SiblingColors(c, t);
      var s := if iter == iter.parent.left then L else R;
      var sibling := iter.parent.Child(s.Other());
      c' := c;
      if sibling.color == Red {
        RaiseSibling(iter, sibling, s, c, t, h);
        RedSiblingRises(c, t, h);
        c' := RaisedCtx(c);
        SiblingExists(c', t, h);
        Fields(c', t);
        sibling := iter.parent.Child(s.Other());
      }
      iter', c', t', h' := PayShortage(iter, sibling, s, c', t, h);
      Fields(c', t');
    }

    method RebalanceAfterErase(n: Node, ghost c0: Ctx, ghost t0: Tree, ghost h0: nat) returns (ghost rest: Tree)
      requires Here(c0, t0) && Shrinking(c0, t0, h0) && n == RootOf(sentinel, t0) && n.parent == ParentOf(sentinel, c0)
      modifies `root, repr`left, repr`right, repr`parent, repr`color, sentinel`color
      ensures Here(Top, rest) && IsRedBlack(rest) && Inorder(rest) == Inorder(Plug(c0, t0))
    {
      hide At, Tree.Nodes, Ctx.Nodes, Shrinking, Plug, Inorder;
      var iter := n;
      ghost var c, t, h := c0, t0, h0;
      NotRoot(c, t);
      ColorsAgree(c, t);
      while iter != root && iter.color == Black
        invariant Here(c, t) && Shrinking(c, t, h) && iter == RootOf(sentinel, t)
                  && iter.parent == ParentOf(sentinel, c)
        invariant Inorder(Plug(c, t)) == Inorder(Plug(c0, t0))
        invariant (iter == root <==> c.Top?) && (iter.color.Red? <==> t.IsRed())
        decreases if c.Below? && !t.IsRed() then Depth(c) + 1 else 0
      {
        iter, c, t, h := RebalanceEraseStep(iter, c, t, h);
        NotRoot(c, t);
        ColorsAgree(c, t);
      }
      ShrinkingEnds(c, t, h);
      SetBlack(iter, c, t);
      GoTop(c, Blacken(t));
      rest := Plug(c, Blacken(t));
    }

    /** The root of a placed tree, or the sentinel, which is black already, turns black. */
    method SetBlack(iter: Node, ghost c: Ctx, ghost t: Tree)
      requires Here(c, t) && iter == RootOf(sentinel, t)
      modifies iter`color
      ensures Here(c, Blacken(t))
    {
      hide At;
      Fields(c, t);
      ghost var h := Mem();
      iter.color := Black;
      if t.Fork? {
        PaintRoot(h, Mem(), sentinel, root, c, t, Black);
      } else {
        assert Mem() == h;
      }
    }

    lemma NotRoot(c: Ctx, t: Tree)
      requires Here(c, t)
      ensures RootOf(sentinel, t) == root <==> c.Top?
    {
      if c.Below? {
        RootAround(Mem(), sentinel, root, c, RootOf(sentinel, t));
      }
    }

    // ---------- Erasure ----------

    /** A node with at most one child is taken out; that child, or the sentinel, takes its place. */
    method Unlink(toErase: Node, ghost d: Ctx, ghost u: Tree) returns (child: Node)
      requires Here(d, u) && u.Fork? && toErase == u.node && (u.left.Leaf? || u.right.Leaf?)
      modifies `root, `repr, repr`left, repr`right, repr`parent, sentinel`parent
      ensures repr == old(repr) - {toErase} && Here(d, Pruned(u))
      ensures child == RootOf(sentinel, Pruned(u)) && child.parent == ParentOf(sentinel, d)
    {
      hide At, Tree.Nodes, Ctx.Nodes, UnlinkedMemory;
      ghost var h := Mem();
      Fields(d, u);
      ChildFields(d, u);
      child := UnlinkMemory(toErase, d, u);
      Unlinked(h, Mem(), sentinel, old(root), root, d, u);
    }

    method UnlinkMemory(toErase: Node, ghost d: Ctx, ghost u: Tree) returns (child: Node)
      requires u.Fork? && UnlinkOk(d, u) && toErase == u.node && (u.left.Leaf? || u.right.Leaf?)
      modifies `root, `repr, repr`left, repr`right, repr`parent, sentinel`parent
      ensures repr == old(repr) - {toErase} && child == RootOf(sentinel, Pruned(u))
              && child.parent == ParentOf(sentinel, d)
      ensures UnlinkedMemory(old(Mem()), Mem(), sentinel, old(root), root, d, u)
    {
      child := if toErase.left != sentinel then toErase.left else toErase.right;
      PutInPlace(toErase, child, d);
      repr := repr - {toErase};
    }

    ghost predicate UnlinkOk(d: Ctx, u: Tree)
      requires u.Fork?
      reads this`repr, repr
    {
      var p := ParentOf(sentinel, d);
      && u.node in repr && sentinel !in repr && u.node.parent == p && u.node != p
      && u.node.left == RootOf(sentinel, u.left) && u.node.right == RootOf(sentinel, u.right)
      && (u.left.Fork? ==> u.left.node in repr && u.left.node != u.node && u.left.node != p)
      && (u.right.Fork? ==> u.right.node in repr && u.right.node != u.node && u.right.node != p)
      && (d.Below? ==> p in repr && p.Child(d.side) == u.node && p.Child(d.side.Other()) != u.node)
    }

    method PutInPlace(n: Node, child: Node, ghost d: Ctx)
      requires n in repr && n.parent == ParentOf(sentinel, d) && (d.Top? <==> n.parent == sentinel)
      requires child != n && (child == sentinel || child != n.parent)
      requires d.Below? ==>
               n.parent in repr && n.parent != n && n.parent.Child(d.side) == n
               && n.parent.Child(d.side.Other()) != n
      modifies `root, (repr * {n.parent})`left, (repr * {n.parent})`right, child`parent
      ensures child.parent == n.parent == old(n.parent)
      ensures if d.Top? then root == child
              else
                && root == old(root) && n.parent.Child(d.side) == child
                && n.parent.Child(d.side.Other()) == old(n.parent.Child(d.side.Other()))
    {
      child.parent := n.parent;
      if n.parent != sentinel {
        if n == n.parent.left {
          n.parent.left := child;
        } else {
          n.parent.right := child;
        }
      } else {
        root := child;
      }
    }

    lemma ChildFields(d: Ctx, u: Tree)
      requires Here(d, u) && u.Fork?
      ensures u.left.Fork? ==> u.left.node in repr && u.left.node != u.node && u.left.node != ParentOf(sentinel, d)
      ensures u.right.Fork? ==> u.right.node in repr && u.right.node != u.node && u.right.node != ParentOf(sentinel, d)
      ensures u.node !in d.Nodes() && sentinel !in u.Nodes() && sentinel !in d.Nodes()
              && u.node != ParentOf(sentinel, d)
    {
      GoDown(d, u, L);
      Fields(Below(d, L, u.node, u.color, u.key, u.right), u.left);
      GoDown(d, u, R);
      Fields(Below(d, R, u.node, u.color, u.key, u.left), u.right);
      Fields(d, u);
    }

    /** A node gets the key of another: one on the way to the place, or the one taken out, which loses nothing. */
    method CopyKey(n: Node, toErase: Node, ghost d: Ctx, ghost x: Tree)
      requires Here(d, x) && (n in repr ==> n in Spine(d)) && (n !in repr ==> n == toErase)
      modifies n`key
      ensures Here(if n in repr then ReKey(d, n, toErase.key) else d, x)
    {
      hide At, ReKey;
      ghost var h := Mem();
      n.key := toErase.key;
      if n in repr {
        SpineInNodes(d);
        assert SameBut(h, Mem(), {n});
        ReKeyedPlace(h, Mem(), sentinel, root, d, x, n, toErase.key);
      } else {
        assert Mem() == h;
      }
    }

    /** The leftmost node of a subtree, reached from the place `c` over the right child of `t`. */
    method Leftmost(start: Node, ghost c: Ctx, ghost t: Tree) returns (n: Node, ghost d: Ctx, ghost u: Tree)
      requires Here(c, t) && t.Fork? && t.right.Fork? && start == t.right.node
      ensures Here(d, u) && Plug(d, u) == Plug(c, t) && u.Fork? && n == u.node && u.left.Leaf? && LeftPath(d, c, t)
    {
      hide At, Tree.Nodes, Ctx.Nodes, Plug;
      n := start;
      GoDown(c, t, R);
      d, u := Below(c, R, t.node, t.color, t.key, t.left), t.right;
      Fields(d, u);
      while n.left != sentinel
        invariant Here(d, u) && Plug(d, u) == Plug(c, t) && u.Fork? && n == u.node && n.left == RootOf(sentinel, u.left)
        invariant LeftPath(d, c, t)
        decreases u
      {
        LeftPathApart(d, u, c, t);
        n := n.left;
        GoDown(d, u, L);
        d, u := Below(d, L, u.node, u.color, u.key, u.right), u.left;
        Fields(d, u);
      }
      ChildFields(d, u);
    }

    lemma LeftPathApart(d: Ctx, u: Tree, c: Ctx, t: Tree)
      requires Here(d, u) && u.Fork? && t.Fork? && LeftPath(d, c, t)
      ensures u.node != t.node
    {
      ChildFields(d, u);
      LeftPathSpine(d, c, t);
      SpineInNodes(d);
    }

    /** The node that leaves the memory: the node itself, or its successor if it has two children. */
    method ChooseToErase(n: Node, ghost c: Ctx, ghost t: Tree) returns (toErase: Node, ghost d: Ctx, ghost u: Tree)
      requires Here(c, t) && t.Fork? && n == t.node
      ensures Here(d, u) && Plug(d, u) == Plug(c, t) && u.Fork? && toErase == u.node && (u.left.Leaf? || u.right.Leaf?)
      ensures toErase == n ==> d == c && u == t
      ensures toErase != n ==> u.left.Leaf? && LeftPath(d, c, t)
    {
      hide At, Plug, LeftPath;
      Fields(c, t);
      ChildFields(c, t);
      if n.left == sentinel || n.right == sentinel {
        return n, c, t;
      }
      toErase, d, u := Leftmost(n.right, c, t);
      LeftPathApart(d, u, c, t);
    }

    /** The surroundings once the node has its successor's key, if that was taken out. */
    ghost function ErasedCtx(n: Node, d: Ctx, u: Tree): Ctx
      requires u.Fork?
    {
      if u.node == n then d else ReKey(d, n, u.key)
    }

    lemma ErasedKeys(n: Node, c: Ctx, t: Tree, d: Ctx, u: Tree)
      requires Valid() && t.Fork? && n == t.node && Plug(c, t) == tree && Plug(d, u) == tree
      requires u.Fork? && (u.left.Leaf? || u.right.Leaf?)
      requires u.node == n ==> d == c && u == t
      requires u.node != n ==> u.left.Leaf? && LeftPath(d, c, t)
      ensures Inorder(Plug(ErasedCtx(n, d, u), Pruned(u))) == Removed(Inorder(tree), t.key)
      ensures t.key in Inorder(tree) && Sorted(Removed(Inorder(tree), t.key))
              && |Removed(Inorder(tree), t.key)| == size - 1
    {
      hide Plug, Inorder, Sorted, At, LeftPath;
      if u.node == n {
        PrunedKeys(c, t);
      } else {
        SuccessorKeys(d, u, c, t);
      }
      RemovedKeys(Inorder(tree), t.key, t.key);
    }

    lemma SpineOfErased(c: Ctx, t: Tree, d: Ctx, u: Tree)
      requires Here(d, u) && t.Fork? && u.Fork? && (u.node != t.node ==> LeftPath(d, c, t))
      ensures u.node != t.node ==> t.node in Spine(d) && t.node in repr
    {
      if u.node != t.node {
        LeftPathSpine(d, c, t);
        SpineInNodes(d);
      }
    }

    /** Takes out the key of a node. */
    method EraseNode(n: Node, ghost c: Ctx, ghost t: Tree)
      requires Valid() && Here(c, t) && Plug(c, t) == tree && t.Fork? && n == t.node
      modifies this, repr, sentinel`parent, sentinel`color
      ensures Valid() && repr <= old(repr)
      ensures t.key in old(Inorder(tree)) && Inorder(tree) == Removed(old(Inorder(tree)), t.key)
    {
      hide At, Tree.Nodes, Ctx.Nodes, Plug, Inorder, IsRedBlack, Sorted, LeftPath, Shrinking, ErasedCtx;
      ghost var d, u;
      var toErase;
      toErase, d, u := ChooseToErase(n, c, t);
      ErasedKeys(n, c, t, d, u);
      Fields(c, t);
      ghost var rest := Remove(n, toErase, c, t, d, u);
      tree := rest;
      size := size - 1;
    }

    /** Takes the chosen node out and balances again. */
    method Remove(n: Node, toErase: Node, ghost c: Ctx, ghost t: Tree, ghost d: Ctx, ghost u: Tree)
        returns (ghost rest: Tree)
      requires Here(d, u) && IsRedBlack(Plug(d, u)) && u.Fork? && toErase == u.node && (u.left.Leaf? || u.right.Leaf?)
      requires t.Fork? && n == t.node && n in repr && (toErase != n ==> LeftPath(d, c, t))
      modifies `root, `repr, repr, sentinel`parent, sentinel`color
      ensures repr == old(repr) - {toErase} && Here(Top, rest) && IsRedBlack(rest)
      ensures Inorder(rest) == Inorder(Plug(ErasedCtx(n, d, u), Pruned(u)))
    {
      hide At, Tree.Nodes, Ctx.Nodes, Plug, Inorder, IsRedBlack, LeftPath, Shrinking, ErasedCtx;
      ghost var h := ErasedBalance(n, d, u);
      Fields(d, u);
      SpineOfErased(c, t, d, u);
      var child := TakeOut(n, toErase, c, t, d, u);
      rest := Recover(toErase, child, ErasedCtx(n, d, u), u, h);
    }

    lemma ErasedBalance(n: Node, d: Ctx, u: Tree) returns (h: nat)
      requires IsRedBlack(Plug(d, u)) && u.Fork? && (u.left.Leaf? || u.right.Leaf?)
      ensures u.color.Red? ==> IsRedBlack(Plug(ErasedCtx(n, d, u), Pruned(u)))
      ensures u.color.Black? ==> h > 0 && Shrinking(ErasedCtx(n, d, u), Pruned(u), h - 1)
    {
      hide IsRedBlack, Plug, Shrinking, Rb, CtxRb;
      h := OpenRedBlack(d, u);
      ReKeyBalance(d, n, u.key, h, u.IsRed());
      PruningShrinks(ErasedCtx(n, d, u), u, h);
    }

    method TakeOut(n: Node, toErase: Node, ghost c: Ctx, ghost t: Tree, ghost d: Ctx, ghost u: Tree)
        returns (child: Node)
      requires Here(d, u) && u.Fork? && toErase == u.node && (u.left.Leaf? || u.right.Leaf?) && n in repr
      requires toErase != n ==> n in Spine(d)
      modifies `root, `repr, repr`left, repr`right, repr`parent, repr`key, sentinel`parent
      ensures repr == old(repr) - {toErase} && Here(ErasedCtx(n, d, u), Pruned(u))
      ensures child == RootOf(sentinel, Pruned(u)) && child.parent == ParentOf(sentinel, ErasedCtx(n, d, u))
    {
      hide At, Tree.Nodes, Ctx.Nodes;
      Fields(d, u);
      ReKeyParent(d, n, u.key, sentinel);
      child := Unlink(toErase, d, u);
      CopyKey(n, toErase, d, Pruned(u));
    }

    /** Balances again if a black node was taken out. */
    method Recover(toErase: Node, child: Node, ghost d: Ctx, ghost u: Tree, ghost h: nat) returns (ghost rest: Tree)
      requires u.Fork? && Here(d, Pruned(u)) && toErase !in repr && toErase.color == u.color
      requires child == RootOf(sentinel, Pruned(u)) && child.parent == ParentOf(sentinel, d)
      requires u.color.Red? ==> IsRedBlack(Plug(d, Pruned(u)))
      requires u.color.Black? ==> h > 0 && Shrinking(d, Pruned(u), h - 1)
      modifies `root, repr`left, repr`right, repr`parent, repr`color, sentinel`color
      ensures Here(Top, rest) && IsRedBlack(rest) && Inorder(rest) == Inorder(Plug(d, Pruned(u)))
    {
      hide At, Tree.Nodes, Ctx.Nodes, Plug, Inorder, IsRedBlack, Shrinking;
      if toErase.color == Black {
        rest := RebalanceAfterErase(child, d, Pruned(u), h - 1);
      } else {
        GoTop(d, Pruned(u));
        rest := Plug(d, Pruned(u));
      }
    }

    /** Erases a key if it is there. */
    method Erase(key: int) returns (erased: nat)
      requires Valid()
      modifies this, repr, sentinel`parent, sentinel`color
      ensures Valid() && repr <= old(repr) && Inorder(tree) == Removed(old(Inorder(tree)), key)
      ensures erased == if key in old(Inorder(tree)) then 1 else 0
    {
      hide At, Tree.Nodes, Ctx.Nodes, Plug, Inorder, IsRedBlack, Sorted, AllBelow, AllAbove;
      ghost var c, t;
      var toErase, parent;
      toErase, parent, c, t := Descend(key);
      if toErase != sentinel {
        EraseNode(toErase, c, t);
        erased := 1;
      } else {
        AbsentRemoved(c, key);
        erased := 0;
      }
    }

    // ---------- Looking around ----------

    method FindNode(key: int) returns (n: Node?)
      requires Valid()
      ensures n == null <==> key !in Inorder(tree)
      ensures n != null ==> n in repr && n.key == key
    {
      hide At, Tree.Nodes, Ctx.Nodes, Plug, Inorder, IsRedBlack, Sorted, AllBelow, AllAbove;
      ghost var c, t;
      var iter, parent;
      iter, parent, c, t := Descend(key);
      if iter == sentinel {
        AbsentRemoved(c, key);
        return null;
      }
      PresentKey(c, t);
      return iter;
    }

    /** The node of the least key. */
    method GetBeginNode() returns (n: Node?)
      requires Valid()
      ensures n == null <==> Inorder(tree) == []
      ensures n != null ==> n in repr && Inorder(tree)[0] == n.key
    {
      hide At, Tree.Nodes, Ctx.Nodes, Plug, Inorder, IsRedBlack, Sorted;
      Fields(Top, tree);
      if root == sentinel {
        EmptyOrder(tree);
        return null;
      }
      var iter := root;
      ghost var c, t := Top, tree;
      AtTop(tree, 0);
      while iter.left != sentinel
        invariant Here(c, t) && Plug(c, t) == tree && t.Fork? && iter == t.node && Before(c) == []
        invariant iter.left == RootOf(sentinel, t.left)
        decreases t
      {
        iter := iter.left;
        GoDown(c, t, L);
        c, t := Below(c, L, t.node, t.color, t.key, t.right), t.left;
        Fields(c, t);
      }
      ChildFields(c, t);
      Fields(c, t);
      FirstKey(c, t);
      return iter;
    }

    /** The node of the next greater key. */
    method FindNextNode(n: Node?) returns (next: Node?)
      requires Valid() && (n != null ==> n in repr)
      ensures n == null ==> next == null
      ensures n != null && next == null ==> EndsWith(Inorder(tree), n.key)
      ensures n != null && next != null ==> next in repr && Follows(Inorder(tree), n.key, next.key)
    {
      hide At, Plug, Inorder, IsRedBlack, Sorted;
      if n == null {
        return null;
      }
      AtTop(tree, 0);
      ghost var c, t := Locate(Top, tree, n);
      GoTo(c, t);
      Fields(c, t);
      ChildFields(c, t);
      if n.right != sentinel {
        ghost var d, u;
        next, d, u := Leftmost(n.right, c, t);
        Fields(d, u);
        LeftmostFollows(c, t, d, u);
      } else {
        next := ClimbToNext(n, c, t);
      }
    }

    /** Goes up until it comes from the left. */
    method ClimbToNext(n: Node, ghost c0: Ctx, ghost t0: Tree) returns (next: Node?)
      requires Valid() && Here(c0, t0) && Plug(c0, t0) == tree && t0.Fork? && t0.right.Leaf? && n == t0.node
      ensures next == null ==> EndsWith(Inorder(tree), n.key)
      ensures next != null ==> next in repr && Follows(Inorder(tree), n.key, next.key)
    {
      hide At, Tree.Nodes, Ctx.Nodes, Plug, Inorder, IsRedBlack, Sorted;
      ghost var c, t := c0, t0;
      Fields(c, t);
      OwnKeyIsLast(t);
      next := n;
      while next.parent != sentinel
        invariant Here(c, t) && Plug(c, t) == tree && t.Fork? && next == t.node && next.parent == ParentOf(sentinel, c)
        invariant EndsWith(Inorder(t), n.key) && sentinel !in repr
        decreases Depth(c)
      {
        Fields(c, t);
        if next == next.parent.right {
          next := next.parent;
          GoUp(c, t);
          PlugJoins(c, t);
          StillLast(c, t, n.key);
          c, t := c.up, JoinAt(c, t);
          Fields(c, t);
        } else {
          ParentFollows(c, t, n.key);
          return next.parent;
        }
      }
      Fields(c, t);
      LastOfAll(c, t, n.key);
      next := null;
    }

    lemma OwnKeyIsLast(t: Tree)
      requires t.Fork? && t.right.Leaf?
      ensures EndsWith(Inorder(t), t.key)
    {
    }
  }
}
