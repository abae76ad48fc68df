/** The steps of `rebalance` after an insertion (3rdparty/rdestl/rb_tree.h), on trees. */
module RedBlackInsert {
  import opened RedBlack

  /** A red node at a place: all is well, but its parent may be red too. */
  predicate Growing(c: Ctx, t: Tree, h: nat) {
    t.IsRed() && Rb(t, h) && CtxRb(c, h, false)
  }

  predicate RedParent(c: Ctx) {
    c.Below? && c.color.Red?
  }

  lemma GrandparentIsBlack(c: Ctx, t: Tree, h: nat)
    requires Growing(c, t, h) && RedParent(c)
    ensures c.up.Below? && c.up.color.Black? && !c.other.IsRed()
    ensures Rb(c.other, h) && Rb(c.up.other, h) && CtxRb(c.up.up, h + 1, false)
  {
    assert CtxRb(c.up, h, true);
    assert CtxRb(c.up.up, h + 1, false);
  }

  /** A new red leaf can be put at any place. */
  lemma NewLeafGrows(c: Ctx, n: Node, key: int)
    requires IsRedBlack(Plug(c, Leaf))
    ensures Growing(c, Fork(Leaf, n, Red, key, Leaf), 0)
  {
    var h := OpenRedBlack(c, Leaf);
  }

  lemma PresentKey(c: Ctx, t: Tree)
    requires Sorted(Inorder(Plug(c, t))) && t.Fork?
    ensures t.key in Inorder(Plug(c, t)) && Inserted(Inorder(Plug(c, t)), t.key) == Inorder(Plug(c, t))
  {
    SortedAround(c, t);
    InsertedPresent(Before(c) + Inorder(t.left), Inorder(t.right) + After(c), t.key);
  }

  lemma AbsentKey(c: Ctx, n: Node, key: int)
    requires AllBelow(Before(c), key) && AllAbove(After(c), key)
    ensures key !in Inorder(Plug(c, Leaf))
    ensures Inorder(Plug(c, Fork(Leaf, n, Red, key, Leaf))) == Inserted(Inorder(Plug(c, Leaf)), key)
  {
    PlugInorder(c, Leaf);
    PlugInorder(c, Fork(Leaf, n, Red, key, Leaf));
    var b, a := Before(c), After(c);
    assert b + [] + a == b + a && b + ([] + [key] + []) + a == b + [key] + a;
    RemovedAbsent(b, a, key);
    InsertedBetween(b, a, key);
  }

  /** Without a red parent, the tree is red-black once its root is black. */
  lemma GrowthEnds(c: Ctx, t: Tree, h: nat)
    requires Growing(c, t, h) && !RedParent(c)
    ensures Plug(c, t).Fork? && IsRedBlack(Plug(c, t).(color := Black))
    ensures Inorder(Plug(c, t).(color := Black)) == Inorder(Plug(c, t))
    ensures c.Below? ==> Plug(c, t).color.Black?
  {
    PlugInorder(c, t);
    if c.Top? {
      assert Rb(t.(color := Black), h + 1);
    } else {
      PlugIsRedBlack(c, t, h);
    }
  }

  /** A red uncle: the parent and it turn black, the grandparent red, and takes the place. */
  function Recolored(c: Ctx, t: Tree): Tree
    requires c.Below? && c.up.Below? && c.up.other.Fork?
  {
    var g := c.up;
    Join(g.side, g.node, Red, g.key, Join(c.side, c.node, Black, c.key, t, c.other), g.other.(color := Black))
  }

  lemma RecoloringGrows(c: Ctx, t: Tree, h: nat)
    requires Growing(c, t, h) && RedParent(c) && c.up.Below? && c.up.other.IsRed()
    ensures Growing(c.up.up, Recolored(c, t), h + 1)
    ensures Inorder(Plug(c.up.up, Recolored(c, t))) == Inorder(Plug(c, t))
  {
    GrandparentIsBlack(c, t, h);
    var g := c.up;
    assert Rb(Join(c.side, c.node, Black, c.key, t, c.other), h + 1) && Rb(g.other.(color := Black), h + 1);
    var before := Join(g.side, g.node, g.color, g.key, Join(c.side, c.node, c.color, c.key, t, c.other), g.other);
    assert Plug(c, t) == Plug(g, Join(c.side, c.node, c.color, c.key, t, c.other)) == Plug(g.up, before);
    PlugInorder(g.up, before);
    PlugInorder(g.up, Recolored(c, t));
  }

  /** An inner node: after turning its parent outward, the parent is at an outer place. */
  function TurnedCtx(c: Ctx, t: Tree): Ctx
    requires c.Below? && t.Fork?
  {
    Below(c.up, c.side.Other(), t.node, t.color, t.key, t.Kid(c.side))
  }

  function TurnedTree(c: Ctx, t: Tree): Tree
    requires c.Below? && t.Fork?
  {
    Join(c.side, c.node, c.color, c.key, t.Kid(c.side.Other()), c.other)
  }

  lemma TurningGrows(c: Ctx, t: Tree, h: nat)
    requires Growing(c, t, h) && RedParent(c)
    ensures var s := c.side.Other();
            Rot(Join(c.side, c.node, c.color, c.key, t, c.other), s)
            == Join(s, t.node, t.color, t.key, TurnedTree(c, t), t.Kid(c.side))
    ensures Growing(TurnedCtx(c, t), TurnedTree(c, t), h) && RedParent(TurnedCtx(c, t))
    ensures Inorder(Plug(TurnedCtx(c, t), TurnedTree(c, t))) == Inorder(Plug(c, t))
  {
    var s := c.side.Other();
    var joined := Join(c.side, c.node, c.color, c.key, t, c.other);
    RotKeepsOrder(joined, s);
    PlugInorder(c.up, joined);
    PlugInorder(c.up, Rot(joined, s));
  }

  /** An outer node below a black uncle: the parent takes the grandparent's place and colour. */
  function LiftedCtx(c: Ctx): Ctx
    requires c.Below? && c.up.Below?
  {
    var g := c.up;
    Below(g.up, c.side, c.node, Black, c.key, Join(c.side, g.node, Red, g.key, c.other, g.other))
  }

  lemma LiftingGrows(c: Ctx, t: Tree, h: nat)
    requires Growing(c, t, h) && RedParent(c) && c.up.Below? && !c.up.other.IsRed() && c.side == c.up.side
    ensures var g := c.up;
            Rot(Join(g.side, g.node, Red, g.key, Join(c.side, c.node, Black, c.key, t, c.other), g.other),
                c.side.Other())
            == Join(c.side, c.node, Black, c.key, t, LiftedCtx(c).other)
    ensures Growing(LiftedCtx(c), t, h) && !RedParent(LiftedCtx(c))
    ensures Inorder(Plug(LiftedCtx(c), t)) == Inorder(Plug(c, t))
  {
    GrandparentIsBlack(c, t, h);
    var g := c.up;
    assert Rb(LiftedCtx(c).other, h);
    var inner := Join(c.side, c.node, Black, c.key, t, c.other);
    var before := Join(g.side, g.node, Red, g.key, inner, g.other);
    var was := Join(g.side, g.node, g.color, g.key, Join(c.side, c.node, c.color, c.key, t, c.other), g.other);
    assert Plug(c, t) == Plug(g, Join(c.side, c.node, c.color, c.key, t, c.other)) == Plug(g.up, was);
    RotKeepsOrder(before, c.side.Other());
    PlugInorder(g.up, was);
    PlugInorder(g.up, Rot(before, c.side.Other()));
  }
}
