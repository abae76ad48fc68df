/** Red-black trees as values: what the nodes of rde::rb_tree_base (3rdparty/rdestl/rb_tree.h) look
    like, as a tree with one place in it singled out. The tree below the place is a `Tree`, the way
    up from it a `Ctx`. */
module RedBlack {

  datatype Color = Red | Black

  /** The source writes every step twice, mirrored; here a side says which half runs. */
  datatype Side = L | R {
    function Other(): Side { if L? then R else L }
  }

  class Node {
    var left: Node
    var right: Node
    var parent: Node
    var key: int
    var color: Color

    constructor Sentinel()
      ensures left == right == parent == this && color == Black
    {
      left, right, parent, key, color := this, this, this, 0, Black;
    }

    constructor (color: Color, left: Node, right: Node, parent: Node, key: int)
      ensures this.left == left && this.right == right && this.parent == parent && this.key == key
              && this.color == color
    {
      this.left, this.right, this.parent, this.key, this.color := left, right, parent, key, color;
    }

    function Child(s: Side): Node
      reads this`left, this`right
    {
      if s.L? then left else right
    }

    method SetChild(s: Side, c: Node)
      modifies `left, `right
      ensures Child(s) == c && Child(s.Other()) == old(Child(s.Other()))
    {
      if s.L? {
        left := c;
      } else {
        right := c;
      }
    }
  }

  datatype Tree = Leaf | Fork(left: Tree, node: Node, color: Color, key: int, right: Tree) {
    function Kid(s: Side): Tree
      requires Fork?
    {
      if s.L? then left else right
    }

    ghost function Nodes(): (nodes: set<Node>)
      ensures Fork? ==> node in nodes
    {
      if Leaf? then {} else left.Nodes() + {node} + right.Nodes()
    }

    predicate IsRed() { Fork? && color.Red? }
  }

  /** A tree around a place: `side` is where the place is below `node`, `other` the tree on the other side. */
  datatype Ctx = Top | Below(up: Ctx, side: Side, node: Node, color: Color, key: int, other: Tree) {
    ghost function Nodes(): (nodes: set<Node>)
      ensures Below? ==> node in nodes
    {
      if Top? then {} else up.Nodes() + {node} + other.Nodes()
    }
  }

  /** A tree with `inner` on side `s` of its root. */
  function Join(s: Side, node: Node, color: Color, key: int, inner: Tree, other: Tree): Tree {
    if s.L? then Fork(inner, node, color, key, other) else Fork(other, node, color, key, inner)
  }

  function Plug(c: Ctx, t: Tree): Tree
    decreases c
  {
    if c.Top? then t else Plug(c.up, Join(c.side, c.node, c.color, c.key, t, c.other))
  }

  lemma {:induction false} PlugForks(c: Ctx, t: Tree)
    requires t.Fork?
    ensures Plug(c, t).Fork?
    decreases c
  {
    if c.Below? {
      PlugForks(c.up, Join(c.side, c.node, c.color, c.key, t, c.other));
    }
  }

  // ---------- Order ----------

  function Inorder(t: Tree): seq<int> {
    if t.Leaf? then [] else Inorder(t.left) + [t.key] + Inorder(t.right)
  }

  /** The keys before and after the place. */
  function Before(c: Ctx): seq<int> {
    if c.Top? then [] else if c.side.L? then Before(c.up) else Before(c.up) + (Inorder(c.other) + [c.key])
  }

  function After(c: Ctx): seq<int> {
    if c.Top? then [] else if c.side.L? then [c.key] + Inorder(c.other) + After(c.up) else After(c.up)
  }

  predicate Sorted(s: seq<int>) {
    forall i, j :: 0 <= i < j < |s| ==> s[i] < s[j]
  }

  lemma {:induction false} PlugInorder(c: Ctx, t: Tree)
    ensures Inorder(Plug(c, t)) == Before(c) + Inorder(t) + After(c)
    decreases c
  {
    if c.Below? {
      PlugInorder(c.up, Join(c.side, c.node, c.color, c.key, t, c.other));
      var b, a, o, x := Before(c.up), After(c.up), Inorder(c.other), Inorder(t);
      if c.side.L? {
        assert b + (x + [c.key] + o) + a == b + x + ([c.key] + o + a);
      } else {
        assert b + (o + [c.key] + x) + a == b + (o + [c.key]) + x + a;
      }
    }
  }

  // ---------- Sorted keys ----------

  predicate AllBelow(s: seq<int>, key: int) { forall i :: 0 <= i < |s| ==> s[i] < key }

  predicate AllAbove(s: seq<int>, key: int) { forall i :: 0 <= i < |s| ==> key < s[i] }

  /** The sorted sequence with one more key. */
  function Inserted(s: seq<int>, key: int): seq<int> {
    if s == [] || key < s[0] then [key] + s
    else if s[0] == key then s
    else [s[0]] + Inserted(s[1..], key)
  }

  /** The sequence without a key. */
  function Removed(s: seq<int>, key: int): seq<int> {
    if s == [] then []
    else if s[0] == key then s[1..]
    else [s[0]] + Removed(s[1..], key)
  }

  lemma {:induction false} InsertedBetween(b: seq<int>, a: seq<int>, key: int)
    requires AllBelow(b, key) && AllAbove(a, key)
    ensures Inserted(b + a, key) == b + [key] + a
  {
    if b == [] {
      assert b + a == a;
    } else {
      assert (b + a)[1..] == b[1..] + a;
      InsertedBetween(b[1..], a, key);
    }
  }

  lemma {:induction false} InsertedPresent(b: seq<int>, a: seq<int>, key: int)
    requires AllBelow(b, key)
    ensures Inserted(b + [key] + a, key) == b + [key] + a
  {
    var s := b + [key] + a;
    if b != [] {
      assert s[1..] == b[1..] + [key] + a;
      InsertedPresent(b[1..], a, key);
    }
  }

  lemma {:induction false} RemovedBetween(b: seq<int>, a: seq<int>, key: int)
    requires AllBelow(b, key)
    ensures Removed(b + [key] + a, key) == b + a
  {
    var s := b + [key] + a;
    if b == [] {
      assert s[1..] == a == b + a;
    } else {
      assert s[1..] == b[1..] + [key] + a;
      RemovedBetween(b[1..], a, key);
    }
  }

  lemma {:induction false} RemovedAbsent(b: seq<int>, a: seq<int>, key: int)
    requires AllBelow(b, key) && AllAbove(a, key)
    ensures Removed(b + a, key) == b + a && key !in b + a
  {
    if b + a != [] {
      if b == [] {
        assert (b + a)[1..] == [] + a[1..];
        RemovedAbsent([], a[1..], key);
      } else {
        assert (b + a)[1..] == b[1..] + a;
        RemovedAbsent(b[1..], a, key);
      }
      assert b + a == [(b + a)[0]] + (b + a)[1..];
    }
  }

  /** Insertion adds exactly its key, removal takes exactly its key away, and both keep the order. */
  lemma {:induction false} InsertedKeys(s: seq<int>, key: int, x: int)
    requires Sorted(s)
    ensures x in Inserted(s, key) <==> x in s || x == key
    ensures Sorted(Inserted(s, key))
    ensures |Inserted(s, key)| == |s| + if key in s then 0 else 1
  {
    if s != [] && s[0] < key {
      InsertedKeys(s[1..], key, x);
      assert s == [s[0]] + s[1..];
      var t := Inserted(s[1..], key);
      forall i | 0 <= i < |t| ensures s[0] < t[i] {
        InsertedKeys(s[1..], key, t[i]);
      }
    }
  }

  lemma {:induction false} RemovedKeys(s: seq<int>, key: int, x: int)
    requires Sorted(s)
    ensures x in Removed(s, key) <==> x in s && x != key
    ensures Sorted(Removed(s, key))
    ensures |Removed(s, key)| == |s| - if key in s then 1 else 0
  {
    if s != [] && s[0] != key {
      RemovedKeys(s[1..], key, x);
      assert s == [s[0]] + s[1..];
      var t := Removed(s[1..], key);
      forall i | 0 <= i < |t| ensures s[0] < t[i] {
        RemovedKeys(s[1..], key, t[i]);
      }
    } else if s != [] {
      assert s == [s[0]] + s[1..];
    }
  }

  /** What a sorted tree says of the keys around a place. */
  lemma SortedAround(c: Ctx, t: Tree)
    requires Sorted(Inorder(Plug(c, t))) && t.Fork?
    ensures AllBelow(Before(c) + Inorder(t.left), t.key) && AllAbove(Inorder(t.right) + After(c), t.key)
    ensures Inorder(Plug(c, t)) == Before(c) + Inorder(t.left) + [t.key] + (Inorder(t.right) + After(c))
  {
    PlugInorder(c, t);
    hide *;
    var b, l, r, a, k := Before(c), Inorder(t.left), Inorder(t.right), After(c), t.key;
    InorderFork(t);
    Regroup(b, l, k, r, a);
    SortedSplit(b + l, k, r + a);
  }

  lemma InorderFork(t: Tree)
    requires t.Fork?
    ensures Inorder(t) == Inorder(t.left) + [t.key] + Inorder(t.right)
  {
  }

  lemma Regroup(b: seq<int>, l: seq<int>, k: int, r: seq<int>, a: seq<int>)
    ensures b + (l + [k] + r) + a == b + l + [k] + (r + a)
  {
  }

  lemma SortedSplit(b: seq<int>, key: int, a: seq<int>)
    requires Sorted(b + [key] + a)
    ensures AllBelow(b, key) && AllAbove(a, key)
  {
    var s := b + [key] + a;
    assert s[|b|] == key;
    assert forall i :: 0 <= i < |b| ==> s[i] == b[i];
    assert forall i :: 0 <= i < |a| ==> s[|b| + 1 + i] == a[i];
  }

  lemma BelowJoins(b: seq<int>, l: seq<int>, k: int, key: int)
    requires AllBelow(b, key) && AllBelow(b + l, k) && k < key
    ensures AllBelow(b + (l + [k]), key)
  {
    assert forall i :: 0 <= i < |l| ==> l[i] == (b + l)[|b| + i];
  }

  lemma AboveJoins(k: int, r: seq<int>, a: seq<int>, key: int)
    requires AllAbove(a, key) && AllAbove(r + a, k) && key < k
    ensures AllAbove([k] + r + a, key)
  {
    assert forall i :: 0 <= i < |r| ==> r[i] == (r + a)[i];
  }

  lemma AtTop(t: Tree, key: int)
    ensures Plug(Top, t) == t && AllBelow(Before(Top), key) && AllAbove(After(Top), key)
  {
  }

  /** Going left or right narrows the keys around the place. */
  lemma Narrows(c: Ctx, t: Tree, key: int)
    requires Sorted(Inorder(Plug(c, t))) && t.Fork? && AllBelow(Before(c), key) && AllAbove(After(c), key)
    ensures key < t.key ==> AllAbove(After(Below(c, L, t.node, t.color, t.key, t.right)), key)
    ensures t.key < key ==> AllBelow(Before(Below(c, R, t.node, t.color, t.key, t.left)), key)
  {
    hide Sorted, AllBelow, AllAbove, Inorder, Plug;
    SortedAround(c, t);
    if t.key < key {
      BelowJoins(Before(c), Inorder(t.left), t.key, key);
    } else if key < t.key {
      AboveJoins(t.key, Inorder(t.right), After(c), key);
    }
  }

  // ---------- Balance ----------

  function Shade(color: Color): nat { if color.Black? then 1 else 0 }

  /** Every path down has `h` black nodes, and no red node has a red child. */
  predicate Rb(t: Tree, h: nat) {
    if t.Leaf? then h == 0
    else
      && Shade(t.color) <= h && Rb(t.left, h - Shade(t.color)) && Rb(t.right, h - Shade(t.color))
      && (t.color.Red? ==> !t.left.IsRed() && !t.right.IsRed())
  }

  /** A tree of black height `h`, with a red root only if `red`, makes the whole tree a red-black
      tree with a black root. */
  predicate CtxRb(c: Ctx, h: nat, red: bool) {
    if c.Top? then !red
    else
      && Rb(c.other, h) && (c.color.Red? ==> !red && !c.other.IsRed())
      && CtxRb(c.up, h + Shade(c.color), c.color.Red?)
  }

  /** A red-black tree with a black root. */
  ghost predicate IsRedBlack(t: Tree) {
    !t.IsRed() && exists h: nat :: Rb(t, h)
  }

  lemma {:induction false} PlugIsRedBlack(c: Ctx, t: Tree, h: nat)
    requires Rb(t, h) && CtxRb(c, h, t.IsRed())
    ensures IsRedBlack(Plug(c, t))
    decreases c
  {
    if c.Below? {
      PlugIsRedBlack(c.up, Join(c.side, c.node, c.color, c.key, t, c.other), h + Shade(c.color));
    }
  }

  lemma {:induction false} OpenRedBlack(c: Ctx, t: Tree) returns (h: nat)
    requires IsRedBlack(Plug(c, t))
    ensures Rb(t, h) && CtxRb(c, h, t.IsRed())
    decreases c
  {
    if c.Top? {
      h :| Rb(t, h);
    } else {
      var joined := Join(c.side, c.node, c.color, c.key, t, c.other);
      var h' := OpenRedBlack(c.up, joined);
      h := h' - Shade(c.color);
    }
  }

  lemma RedCtxTakesBlack(c: Ctx, h: nat)
    requires CtxRb(c, h, true)
    ensures CtxRb(c, h, false)
  {
  }

  // ---------- Height ----------

  function Height(t: Tree): nat {
    if t.Leaf? then 0 else 1 + if Height(t.left) < Height(t.right) then Height(t.right) else Height(t.left)
  }

  function Pow2(n: nat): nat {
    if n == 0 then 1 else 2 * Pow2(n - 1)
  }

  lemma {:induction false} BlackHeightBounds(t: Tree, h: nat)
    requires Rb(t, h)
    ensures Pow2(h) <= |Inorder(t)| + 1
    ensures Height(t) <= 2 * h + if t.IsRed() then 1 else 0
  {
    if t.Fork? {
      BlackHeightBounds(t.left, h - Shade(t.color));
      BlackHeightBounds(t.right, h - Shade(t.color));
    }
  }

  lemma {:induction false} Pow2Grows(a: nat, b: nat)
    requires a <= b
    ensures Pow2(a) <= Pow2(b)
  {
    if a < b {
      Pow2Grows(a, b - 1);
    }
  }

  /** A red-black tree of n keys is at most 2 log2(n + 1) high. */
  lemma HeightIsLogarithmic(t: Tree)
    requires IsRedBlack(t)
    ensures Pow2((Height(t) + 1) / 2) <= |Inorder(t)| + 1
  {
    var h: nat :| Rb(t, h);
    BlackHeightBounds(t, h);
    Pow2Grows((Height(t) + 1) / 2, h);
  }

  // ---------- Finding the place of a node ----------

  lemma {:induction false} PlugNodes(c: Ctx, t: Tree)
    ensures Plug(c, t).Nodes() == c.Nodes() + t.Nodes()
    decreases c
  {
    if c.Below? {
      PlugNodes(c.up, Join(c.side, c.node, c.color, c.key, t, c.other));
    }
  }

  /** Every node of a tree is at a place in it. */
  lemma {:induction false} Locate(c: Ctx, t: Tree, n: Node) returns (c': Ctx, t': Tree)
    requires n in t.Nodes()
    ensures Plug(c', t') == Plug(c, t) && t'.Fork? && t'.node == n
    decreases t
  {
    if n == t.node {
      c', t' := c, t;
    } else if n in t.left.Nodes() {
      c', t' := Locate(Below(c, L, t.node, t.color, t.key, t.right), t.left, n);
    } else {
      c', t' := Locate(Below(c, R, t.node, t.color, t.key, t.left), t.right, n);
    }
  }

  // ---------- Rotation ----------

  /** The root moves down to side `s`, its child on the other side up. */
  function Rot(t: Tree, s: Side): Tree
    requires t.Fork? && t.Kid(s.Other()).Fork?
  {
    var c := t.Kid(s.Other());
    Join(s, c.node, c.color, c.key, Join(s, t.node, t.color, t.key, t.Kid(s), c.Kid(s)), c.Kid(s.Other()))
  }

  lemma RotKeepsOrder(t: Tree, s: Side)
    requires t.Fork? && t.Kid(s.Other()).Fork?
    ensures Inorder(Rot(t, s)) == Inorder(t)
    ensures Rot(t, s).Nodes() == t.Nodes()
  {
    var c := t.Kid(s.Other());
    var x, y, z := Inorder(t.Kid(s)), Inorder(c.Kid(s)), Inorder(c.Kid(s.Other()));
    if s.L? {
      assert x + [t.key] + (y + [c.key] + z) == (x + [t.key] + y) + [c.key] + z;
    } else {
      assert (z + [c.key] + y) + [t.key] + x == z + [c.key] + (y + [t.key] + x);
    }
  }

  // ---------- Neighbours in order ----------

  predicate Follows(s: seq<int>, key: int, next: int) {
    exists i :: 0 <= i < |s| - 1 && s[i] == key && s[i + 1] == next
  }

  predicate EndsWith(s: seq<int>, key: int) {
    s != [] && s[|s| - 1] == key
  }

  /** In a sorted sequence, what follows a key is the least greater key. */
  lemma FollowerIsLeast(s: seq<int>, key: int, next: int, x: int)
    requires Sorted(s) && x in s
    ensures Follows(s, key, next) ==> key < next && (key < x ==> next <= x)
    ensures EndsWith(s, key) ==> x <= key
  {
    var j :| 0 <= j < |s| && s[j] == x;
    if Follows(s, key, next) {
      var i :| 0 <= i < |s| - 1 && s[i] == key && s[i + 1] == next;
      assert j <= i || i + 1 <= j;
    }
  }

  lemma FollowsAcross(b: seq<int>, x: seq<int>, a: seq<int>, key: int)
    requires EndsWith(x, key) && a != []
    ensures Follows(b + x + a, key, a[0])
  {
    var i := |b + x| - 1;
    assert (b + x + a)[i] == key && (b + x + a)[i + 1] == a[0];
  }
}
