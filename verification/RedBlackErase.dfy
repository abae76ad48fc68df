/** The steps of `rebalance_after_erase` (3rdparty/rdestl/rb_tree.h), on trees. */
module RedBlackErase {
  import opened RedBlack

  function Blacken(t: Tree): Tree { if t.Fork? then t.(color := Black) else t }

  /** The tree at the place is one black node short of what its surroundings need; a red root would
      make up for that if it were black. */
  predicate Shrinking(c: Ctx, t: Tree, h: nat) {
    CtxRb(c, h + 1, false) && if t.IsRed() then Rb(Blacken(t), h + 1) else Rb(t, h)
  }

  function JoinAt(c: Ctx, t: Tree): Tree
    requires c.Below?
  {
    Join(c.side, c.node, c.color, c.key, t, c.other)
  }

  lemma SameOrder(c: Ctx, t: Tree, u: Tree)
    requires Inorder(t) == Inorder(u)
    ensures Inorder(Plug(c, t)) == Inorder(Plug(c, u))
  {
    PlugInorder(c, t);
    PlugInorder(c, u);
  }

  lemma {:induction false} RedBlackened(t: Tree, h: nat)
    requires Rb(t, h)
    ensures t.IsRed() ==> Rb(Blacken(t), h + 1)
  {
  }

  /** A removed black node leaves its place one short. */
  lemma RemovalShrinks(c: Ctx, t: Tree, h: nat)
    requires Rb(t, h) && CtxRb(c, h + 1, false)
    ensures Shrinking(c, t, h)
  {
    RedBlackened(t, h);
  }

  /** A red-black tree as a whole lacks nothing: the root owes no one. */
  lemma WholeTree(t: Tree) returns (h: nat)
    requires IsRedBlack(t)
    ensures Shrinking(Top, t, h)
  {
    h :| Rb(t, h);
  }

  /** At the root, or with a red node that turns black, nothing is short any more. */
  lemma ShrinkingEnds(c: Ctx, t: Tree, h: nat)
    requires Shrinking(c, t, h) && (c.Top? || t.IsRed())
    ensures IsRedBlack(Plug(c, Blacken(t))) && Inorder(Plug(c, Blacken(t))) == Inorder(Plug(c, t))
  {
    SameOrder(c, t, Blacken(t));
    if t.IsRed() {
      PlugIsRedBlack(c, Blacken(t), h + 1);
    } else {
      assert Rb(Blacken(t), h);
    }
  }

  lemma SiblingExists(c: Ctx, t: Tree, h: nat)
    requires Shrinking(c, t, h) && c.Below?
    ensures c.other.Fork? && Rb(c.other, h + 1)
    ensures c.other.IsRed() ==> c.color.Black? && c.other.left.Fork? && c.other.right.Fork?
  {
    if c.other.IsRed() {
      assert Rb(c.other.left, h + 1) && Rb(c.other.right, h + 1);
    }
  }

  lemma KidsRb(t: Tree, h: nat)
    requires Rb(t, h) && t.Fork?
    ensures Shade(t.color) <= h && Rb(t.left, h - Shade(t.color)) && Rb(t.right, h - Shade(t.color))
    ensures t.color.Red? ==> !t.left.IsRed() && !t.right.IsRed()
  {
  }

  lemma JoinRb(s: Side, n: Node, color: Color, key: int, t: Tree, u: Tree, h: nat)
    requires Rb(t, h) && Rb(u, h) && (color.Red? ==> !t.IsRed() && !u.IsRed())
    ensures Rb(Join(s, n, color, key, t, u), h + Shade(color))
  {
  }

  /** The order of a tree depends on no colour. */
  lemma JoinOrder(s: Side, n: Node, color: Color, color': Color, key: int, t: Tree, t': Tree, u: Tree, u': Tree)
    requires Inorder(t) == Inorder(t') && Inorder(u) == Inorder(u')
    ensures Inorder(Join(s, n, color, key, t, u)) == Inorder(Join(s, n, color', key, t', u'))
  {
  }

  /** A red sibling moves up; a black one takes its place. */
  function RaisedCtx(c: Ctx): Ctx
    requires c.Below? && c.other.Fork?
  {
    var o := c.other;
    Below(Below(c.up, c.side, o.node, Black, o.key, o.Kid(c.side.Other())), c.side, c.node, Red, c.key, o.Kid(c.side))
  }

  lemma RedSiblingRises(c: Ctx, t: Tree, h: nat)
    requires Shrinking(c, t, h) && c.Below? && !t.IsRed() && c.other.IsRed()
    ensures var s := c.side;
            var before := Join(s, c.node, Red, c.key, t, c.other.(color := Black));
            before.Kid(s.Other()).Fork? && Rot(before, s) == JoinAt(RaisedCtx(c).up, JoinAt(RaisedCtx(c), t))
    ensures Shrinking(RaisedCtx(c), t, h) && !RaisedCtx(c).other.IsRed() && RaisedCtx(c).color.Red?
    ensures Inorder(Plug(RaisedCtx(c), t)) == Inorder(Plug(c, t))
  {
    SiblingExists(c, t, h);
    var before := Join(c.side, c.node, Red, c.key, t, c.other.(color := Black));
    RotKeepsOrder(before, c.side);
    SameOrder(c.up, JoinAt(c, t), Rot(before, c.side));
  }

  /** A black sibling with black children turns red; now the parent's tree is short. */
  lemma SiblingPays(c: Ctx, t: Tree, h: nat)
    requires Shrinking(c, t, h) && c.Below? && !t.IsRed() && c.other.Fork? && c.other.color.Black?
    requires !c.other.left.IsRed() && !c.other.right.IsRed()
    ensures var u := Join(c.side, c.node, c.color, c.key, t, c.other.(color := Red));
            && Shrinking(c.up, u, h + Shade(c.color)) && Inorder(Plug(c.up, u)) == Inorder(Plug(c, t))
  {
    var u := Join(c.side, c.node, c.color, c.key, t, c.other.(color := Red));
    SameOrder(c.up, JoinAt(c, t), u);
    if c.color.Red? {
      RedCtxTakesBlack(c.up, h + 1);
    }
  }

  /** A red child of the sibling on the near side turns outward. */
  function TurnedSibling(o: Tree, s: Side): Tree
    requires o.Fork? && o.Kid(s).Fork?
  {
    var near := o.Kid(s);
    var out := s.Other();
    Join(out, near.node, Black, near.key, Join(out, o.node, Red, o.key, o.Kid(out), near.Kid(out)), near.Kid(s))
  }

  lemma NearChildTurns(c: Ctx, t: Tree, h: nat)
    requires Shrinking(c, t, h) && c.Below? && !t.IsRed() && c.other.Fork? && c.other.color.Black?
    requires c.other.Kid(c.side).IsRed() && !c.other.Kid(c.side.Other()).IsRed()
    ensures var s, o, o' := c.side, c.other, TurnedSibling(c.other, c.side);
            var before := Join(s, o.node, Red, o.key, o.Kid(s).(color := Black), o.Kid(s.Other()));
            && Rot(before, s.Other()) == o' && Shrinking(c.(other := o'), t, h)
            && o'.color.Black? && o'.Kid(s.Other()).IsRed()
            && Inorder(Plug(c.(other := o'), t)) == Inorder(Plug(c, t))
  {
    hide Rb, Inorder, CtxRb, Plug;
    var s, o, o' := c.side, c.other, TurnedSibling(c.other, c.side);
    var near, outer := o.Kid(s), o.Kid(s.Other());
    var before := Join(s, o.node, Red, o.key, near.(color := Black), outer);
    TurningAround(c, t, h);
    KidsRb(o, h + 1);
    KidsRb(near, h);
    JoinRb(s.Other(), o.node, Red, o.key, outer, near.Kid(s.Other()), h);
    JoinRb(s.Other(), near.node, Black, near.key, Join(s.Other(), o.node, Red, o.key, outer, near.Kid(s.Other())),
           near.Kid(s), h);
    ColorOrder(near, Black);
    JoinOrder(s, o.node, o.color, Red, o.key, near, near.(color := Black), outer, outer);
    RotKeepsOrder(before, s.Other());
    JoinOrder(s, c.node, c.color, c.color, c.key, t, t, o, o');
    SameOrder(c.up, JoinAt(c, t), JoinAt(c.(other := o'), t));
    PlugJoins(c, t);
    PlugJoins(c.(other := o'), t);
    CtxAgain(c, h + 1, o');
  }

  lemma ColorOrder(t: Tree, color: Color)
    requires t.Fork?
    ensures Inorder(t.(color := color)) == Inorder(t)
  {
  }

  lemma PlugJoins(c: Ctx, t: Tree)
    requires c.Below?
    ensures Plug(c, t) == Plug(c.up, JoinAt(c, t))
  {
  }

  lemma TurningAround(c: Ctx, t: Tree, h: nat)
    requires Shrinking(c, t, h) && c.Below?
    ensures Rb(c.other, h + 1)
  {
  }

  lemma CtxAgain(c: Ctx, h: nat, o: Tree)
    requires CtxRb(c, h, false) && c.Below? && Rb(o, h) && !o.IsRed()
    ensures CtxRb(c.(other := o), h, false)
  {
  }

  /** A sibling with a red outer child takes the parent's place and colour, and pays with that child. */
  function PaidTree(c: Ctx, t: Tree): Tree
    requires c.Below? && c.other.Fork? && c.other.Kid(c.side.Other()).Fork?
  {
    var s, o := c.side, c.other;
    Join(s, o.node, c.color, o.key, Join(s, c.node, Black, c.key, t, o.Kid(s)), o.Kid(s.Other()).(color := Black))
  }

  lemma OuterChildPays(c: Ctx, t: Tree, h: nat)
    requires Shrinking(c, t, h) && c.Below? && !t.IsRed() && c.other.Fork? && c.other.color.Black?
    requires c.other.Kid(c.side.Other()).IsRed()
    ensures var s, o := c.side, c.other;
            var sibling := Join(s, o.node, c.color, o.key, o.Kid(s), o.Kid(s.Other()).(color := Black));
            Rot(Join(s, c.node, Black, c.key, t, sibling), s) == PaidTree(c, t)
    ensures IsRedBlack(Plug(c.up, PaidTree(c, t)))
    ensures Inorder(Plug(c.up, PaidTree(c, t))) == Inorder(Plug(c, t))
  {
    hide Rb, Inorder, CtxRb, Plug;
    var s, o := c.side, c.other;
    var near, outer := o.Kid(s), o.Kid(s.Other());
    var sibling := Join(s, o.node, c.color, o.key, near, outer.(color := Black));
    TurningAround(c, t, h);
    KidsRb(o, h + 1);
    KidsRb(outer, h);
    JoinRb(s.Other(), outer.node, Black, outer.key, outer.Kid(s.Other()), outer.Kid(s), h);
    ShortRb(c, t, h);
    JoinRb(s, c.node, Black, c.key, t, near, h);
    JoinRb(s, o.node, c.color, o.key, Join(s, c.node, Black, c.key, t, near), outer.(color := Black), h + 1);
    PlugIsRedBlack(c.up, PaidTree(c, t), h + 1 + Shade(c.color));
    ColorOrder(outer, Black);
    JoinOrder(s, o.node, o.color, c.color, o.key, near, near, outer, outer.(color := Black));
    JoinOrder(s, c.node, c.color, Black, c.key, t, t, o, sibling);
    RotKeepsOrder(Join(s, c.node, Black, c.key, t, sibling), s);
    SameOrder(c.up, JoinAt(c, t), PaidTree(c, t));
    PlugJoins(c, t);
  }

  lemma ShortRb(c: Ctx, t: Tree, h: nat)
    requires Shrinking(c, t, h) && c.Below? && !t.IsRed()
    ensures Rb(t, h) && CtxRb(c.up, h + 1 + Shade(c.color), c.color.Red?)
  {
  }

  // ---------- Taking a node out ----------

  /** The place `d` is reached from the right child of `t` at `c` by going left. */
  predicate LeftPath(d: Ctx, c: Ctx, t: Tree)
    requires t.Fork?
  {
    d == Below(c, R, t.node, t.color, t.key, t.left)
    || (d.Below? && d.side.L? && d.node != t.node && LeftPath(d.up, c, t))
  }

  /** The surroundings with another key in the node `n`. */
  function ReKey(d: Ctx, n: Node, key: int): Ctx {
    if d.Top? then d
    else if d.node == n then d.(key := key)
    else d.(up := ReKey(d.up, n, key))
  }

  lemma {:induction false} ReKeyOrder(d: Ctx, c: Ctx, t: Tree, key: int)
    requires t.Fork? && LeftPath(d, c, t)
    ensures Before(d) == Before(c) + (Inorder(t.left) + [t.key])
    ensures Before(ReKey(d, t.node, key)) == Before(c) + (Inorder(t.left) + [key])
    ensures After(ReKey(d, t.node, key)) == After(d)
    ensures ReKey(d, t.node, key).Nodes() == d.Nodes()
    decreases d
  {
    if d != Below(c, R, t.node, t.color, t.key, t.left) {
      ReKeyOrder(d.up, c, t, key);
    }
  }

  lemma {:induction false} ReKeyBalance(d: Ctx, n: Node, key: int, h: nat, red: bool)
    ensures CtxRb(ReKey(d, n, key), h, red) == CtxRb(d, h, red)
    decreases d
  {
    if d.Below? {
      ReKeyBalance(d.up, n, key, h + Shade(d.color), d.color.Red?);
    }
  }

  /** What is left below a node with at most one child when it is taken out. */
  function Pruned(u: Tree): Tree
    requires u.Fork?
  {
    if u.left.Fork? then u.left else u.right
  }

  lemma PrunedOrder(u: Tree)
    requires u.Fork? && (u.left.Leaf? || u.right.Leaf?)
    ensures Inorder(Pruned(u)) == Inorder(u.left) + Inorder(u.right)
  {
  }

  /** Taking out a red node keeps the tree red-black; a black one leaves its place one short. */
  lemma PruningShrinks(d: Ctx, u: Tree, h: nat)
    requires Rb(u, h) && CtxRb(d, h, u.IsRed()) && u.Fork? && (u.left.Leaf? || u.right.Leaf?)
    ensures u.color.Red? ==> IsRedBlack(Plug(d, Pruned(u)))
    ensures u.color.Black? ==> h > 0 && Shrinking(d, Pruned(u), h - 1)
  {
    var x := Pruned(u);
    KidsRb(u, h);
    if u.color.Red? {
      RedCtxTakesBlack(d, h);
      PlugIsRedBlack(d, x, h);
    } else {
      RemovalShrinks(d, x, h - 1);
    }
  }

  /** The keys once a node with at most one child was taken out. */
  lemma PrunedKeys(c: Ctx, t: Tree)
    requires Sorted(Inorder(Plug(c, t))) && t.Fork? && (t.left.Leaf? || t.right.Leaf?)
    ensures Inorder(Plug(c, Pruned(t))) == Removed(Inorder(Plug(c, t)), t.key) && t.key in Inorder(Plug(c, t))
  {
    hide *;
    PlugInorder(c, Pruned(t));
    PrunedOrder(t);
    SortedAround(c, t);
    var b, l, r, a := Before(c), Inorder(t.left), Inorder(t.right), After(c);
    RemovedBetween(b + l, r + a, t.key);
    PrunedRegroup(b, l, r, a, t.key);
  }

  lemma PrunedRegroup(b: seq<int>, l: seq<int>, r: seq<int>, a: seq<int>, k: int)
    ensures (b + l) + (r + a) == b + (l + r) + a && k in b + l + [k] + (r + a)
  {
  }

  /** The keys once the successor was taken out and its key put in the node. */
  lemma SuccessorKeys(d: Ctx, u: Tree, c: Ctx, t: Tree)
    requires t.Fork? && LeftPath(d, c, t) && u.Fork? && u.left.Leaf? && Plug(d, u) == Plug(c, t)
    requires Sorted(Inorder(Plug(c, t)))
    ensures Inorder(Plug(ReKey(d, t.node, u.key), Pruned(u))) == Removed(Inorder(Plug(c, t)), t.key)
            && t.key in Inorder(Plug(c, t))
  {
    var d' := ReKey(d, t.node, u.key);
    ReKeyOrder(d, c, t, u.key);
    PlugInorder(d, u);
    PlugInorder(d', Pruned(u));
    SortedAround(c, t);
    SuccessorRegroup(Before(c), Inorder(t.left), t.key, u.key, Inorder(Pruned(u)), After(d));
    RemovedBetween(Before(c) + Inorder(t.left), [u.key] + Inorder(Pruned(u)) + After(d), t.key);
  }

  lemma SuccessorRegroup(b: seq<int>, l: seq<int>, k: int, k': int, x: seq<int>, a: seq<int>)
    ensures b + (l + [k]) + ([] + [k'] + x) + a == b + l + [k] + ([k'] + x + a)
    ensures b + (l + [k']) + x + a == b + l + ([k'] + x + a)
  {
  }

  lemma AbsentRemoved(c: Ctx, key: int)
    requires AllBelow(Before(c), key) && AllAbove(After(c), key)
    ensures key !in Inorder(Plug(c, Leaf)) && Removed(Inorder(Plug(c, Leaf)), key) == Inorder(Plug(c, Leaf))
  {
    PlugInorder(c, Leaf);
    RemovedAbsent(Before(c), After(c), key);
    assert Before(c) + [] + After(c) == Before(c) + After(c);
  }

  // ---------- The next key ----------

  lemma EmptyOrder(t: Tree)
    ensures Inorder(t) == [] <==> t.Leaf?
  {
  }

  lemma FirstKey(c: Ctx, t: Tree)
    requires t.Fork? && t.left.Leaf? && Before(c) == []
    ensures Inorder(Plug(c, t)) != [] && Inorder(Plug(c, t))[0] == t.key
  {
    PlugInorder(c, t);
  }

  lemma LeftmostFollows(c: Ctx, t: Tree, d: Ctx, u: Tree)
    requires t.Fork? && u.Fork? && LeftPath(d, c, t) && u.left.Leaf?
    ensures Follows(Inorder(Plug(d, u)), t.key, u.key)
  {
    hide *;
    ReKeyOrder(d, c, t, t.key);
    PlugInorder(d, u);
    InorderFork(u);
    LeafOrder(u.left);
    LastOfAppended(Inorder(t.left), t.key);
    FollowerRegroup(Before(c), Inorder(t.left) + [t.key], u.key, Inorder(u.right), After(d));
    FollowsAcross(Before(c), Inorder(t.left) + [t.key], [u.key] + Inorder(u.right) + After(d), t.key);
  }

  lemma FollowerRegroup(b: seq<int>, x: seq<int>, k: int, r: seq<int>, a: seq<int>)
    ensures b + x + ([] + [k] + r) + a == b + x + ([k] + r + a)
    ensures [k] + r + a != [] && ([k] + r + a)[0] == k
  {
  }

  lemma LeafOrder(t: Tree)
    requires t.Leaf?
    ensures Inorder(t) == []
  {
  }

  lemma LastOfAppended(s: seq<int>, key: int)
    ensures EndsWith(s + [key], key)
  {
  }

  lemma StillLast(c: Ctx, t: Tree, key: int)
    requires c.Below? && c.side.R? && EndsWith(Inorder(t), key)
    ensures EndsWith(Inorder(JoinAt(c, t)), key)
  {
  }

  lemma ParentFollows(c: Ctx, t: Tree, key: int)
    requires c.Below? && c.side.L? && EndsWith(Inorder(t), key)
    ensures Follows(Inorder(Plug(c, t)), key, c.key)
  {
    PlugInorder(c, t);
    FollowsAcross(Before(c), Inorder(t), After(c), key);
  }

  lemma LastOfAll(c: Ctx, t: Tree, key: int)
    requires c.Top? && EndsWith(Inorder(t), key)
    ensures EndsWith(Inorder(Plug(c, t)), key)
  {
  }
}
