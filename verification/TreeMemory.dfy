/** When the fields of a set of nodes make up a tree: a snapshot of the fields, the tree, and what
    single writes do to the correspondence. */
module TreeMemory {
  import opened RedBlack
  import opened RedBlackErase

  datatype Cell = Cell(left: Node, right: Node, parent: Node, key: int, color: Color) {
    function Child(s: Side): Node { if s.L? then left else right }

    function WithChild(s: Side, n: Node): Cell { if s.L? then this.(left := n) else this.(right := n) }
  }

  type Memory = map<Node, Cell>

  ghost function RootOf(z: Node, t: Tree): Node { if t.Leaf? then z else t.node }

  ghost function ParentOf(z: Node, c: Ctx): Node { if c.Top? then z else c.node }

  /** The nodes of `t` point at each other as it says; `z` is the sentinel, `p` the parent of the root. */
  ghost predicate Models(h: Memory, z: Node, t: Tree, p: Node)
    decreases t
  {
    t.Fork? ==>
      && t.node in h && t.node != z && h[t.node] == Cell(RootOf(z, t.left), RootOf(z, t.right), p, t.key, t.color)
      && t.node !in t.left.Nodes() && t.node !in t.right.Nodes() && t.left.Nodes() !! t.right.Nodes()
      && Models(h, z, t.left, t.node) && Models(h, z, t.right, t.node)
  }

  /** The same of the nodes around a place where the node `n` is; `root` is the tree's root pointer. */
  ghost predicate ModelsCtx(h: Memory, z: Node, root: Node, c: Ctx, n: Node)
    decreases c
  {
    if c.Top? then root == n
    else
      && c.node in h && c.node != z
      && h[c.node] == Cell(z, z, ParentOf(z, c.up), c.key, c.color)
                      .WithChild(c.side, n).WithChild(c.side.Other(), RootOf(z, c.other))
      && c.node !in c.other.Nodes() && c.node !in c.up.Nodes() && c.other.Nodes() !! c.up.Nodes()
      && Models(h, z, c.other, c.node) && ModelsCtx(h, z, root, c.up, c.node)
  }

  ghost predicate At(h: Memory, z: Node, root: Node, c: Ctx, t: Tree) {
    && ModelsCtx(h, z, root, c, RootOf(z, t)) && Models(h, z, t, ParentOf(z, c)) && c.Nodes() !! t.Nodes()
  }

  // ---------- Moving the place ----------

  lemma Down(h: Memory, z: Node, root: Node, c: Ctx, t: Tree, s: Side)
    requires At(h, z, root, c, t) && t.Fork?
    ensures At(h, z, root, Below(c, s, t.node, t.color, t.key, t.Kid(s.Other())), t.Kid(s))
  {
  }

  lemma Up(h: Memory, z: Node, root: Node, c: Ctx, t: Tree)
    requires At(h, z, root, c, t) && c.Below?
    ensures At(h, z, root, c.up, Join(c.side, c.node, c.color, c.key, t, c.other))
  {
  }

  lemma {:induction false} Close(h: Memory, z: Node, root: Node, c: Ctx, t: Tree)
    requires At(h, z, root, c, t)
    ensures At(h, z, root, Top, Plug(c, t))
    decreases c
  {
    if c.Below? {
      Up(h, z, root, c, t);
      Close(h, z, root, c.up, Join(c.side, c.node, c.color, c.key, t, c.other));
    }
  }

  lemma {:induction false} Open(h: Memory, z: Node, root: Node, c: Ctx, t: Tree)
    requires At(h, z, root, Top, Plug(c, t))
    ensures At(h, z, root, c, t)
    decreases c
  {
    if c.Below? {
      var joined := Join(c.side, c.node, c.color, c.key, t, c.other);
      Open(h, z, root, c.up, joined);
      Down(h, z, root, c.up, joined, c.side);
    }
  }

  // ---------- What a write leaves alone ----------

  /** Outside `changed` nothing was written. */
  ghost predicate SameBut(h: Memory, h': Memory, changed: set<Node>) {
    forall o :: o in h && o !in changed ==> o in h' && h'[o] == h[o]
  }

  lemma {:induction false} Same(h: Memory, h': Memory, changed: set<Node>, z: Node, t: Tree, p: Node)
    requires Models(h, z, t, p) && SameBut(h, h', changed) && changed !! t.Nodes()
    ensures Models(h', z, t, p)
    decreases t
  {
    if t.Fork? {
      Same(h, h', changed, z, t.left, t.node);
      Same(h, h', changed, z, t.right, t.node);
    }
  }

  lemma {:induction false} SameCtx(h: Memory, h': Memory, changed: set<Node>, z: Node, root: Node, c: Ctx, n: Node)
    requires ModelsCtx(h, z, root, c, n) && SameBut(h, h', changed) && changed !! c.Nodes()
    ensures ModelsCtx(h', z, root, c, n)
    decreases c
  {
    if c.Below? {
      Same(h, h', changed, z, c.other, c.node);
      SameCtx(h, h', changed, z, root, c.up, c.node);
    }
  }

  /** Of `t`, only the parent of its root was written. */
  lemma Adopted(h: Memory, h': Memory, changed: set<Node>, z: Node, t: Tree, p: Node, q: Node)
    requires Models(h, z, t, p) && SameBut(h, h', changed) && changed * t.Nodes() <= {RootOf(z, t)}
    requires t.Fork? ==> t.node in h' && h'[t.node] == h[t.node].(parent := q)
    ensures Models(h', z, t, q)
  {
    if t.Fork? {
      Same(h, h', changed, z, t.left, t.node);
      Same(h, h', changed, z, t.right, t.node);
    }
  }

  /** Of the nodes around the place, only the child at the place was written. */
  lemma Replaced(h: Memory, h': Memory, changed: set<Node>, z: Node, root: Node, root': Node, c: Ctx, n: Node, m: Node)
    requires ModelsCtx(h, z, root, c, n) && SameBut(h, h', changed) && changed * c.Nodes() <= {ParentOf(z, c)}
    requires if c.Top? then root' == m
             else root' == root && c.node in h' && h'[c.node] == h[c.node].WithChild(c.side, m)
    ensures ModelsCtx(h', z, root', c, m)
  {
    if c.Below? {
      Same(h, h', changed, z, c.other, c.node);
      SameCtx(h, h', changed, z, root, c.up, c.node);
    }
  }

  // ---------- A rotation ----------

  lemma Parts(h: Memory, z: Node, t: Tree, p: Node, s: Side)
    requires Models(h, z, t, p) && t.Fork?
    ensures var (n, a, b) := (t.node, t.Kid(s), t.Kid(s.Other()));
            && n in h && n != z && h[n].color == t.color && h[n].key == t.key && h[n].parent == p
            && h[n].Child(s) == RootOf(z, a) && h[n].Child(s.Other()) == RootOf(z, b)
            && n !in a.Nodes() && n !in b.Nodes() && a.Nodes() !! b.Nodes() && t.Nodes() == a.Nodes() + {n} + b.Nodes()
            && Models(h, z, a, n) && Models(h, z, b, n)
  {
  }

  lemma AssembleFork(h: Memory, z: Node, n: Node, a: Tree, b: Tree)
    requires n in h && n != z && h[n].left == RootOf(z, a) && h[n].right == RootOf(z, b)
    requires n !in a.Nodes() && n !in b.Nodes() && a.Nodes() !! b.Nodes()
    requires Models(h, z, a, n) && Models(h, z, b, n)
    ensures Models(h, z, Fork(a, n, h[n].color, h[n].key, b), h[n].parent)
    ensures Fork(a, n, h[n].color, h[n].key, b).Nodes() == a.Nodes() + {n} + b.Nodes()
  {
  }

  lemma Assemble(h: Memory, z: Node, s: Side, n: Node, a: Tree, b: Tree)
    requires n in h && n != z && h[n].Child(s) == RootOf(z, a) && h[n].Child(s.Other()) == RootOf(z, b)
    requires n !in a.Nodes() && n !in b.Nodes() && a.Nodes() !! b.Nodes()
    requires Models(h, z, a, n) && Models(h, z, b, n)
    ensures Models(h, z, Join(s, n, h[n].color, h[n].key, a, b), h[n].parent)
    ensures Join(s, n, h[n].color, h[n].key, a, b).Nodes() == a.Nodes() + {n} + b.Nodes()
  {
    hide Models, Tree.Nodes;
    if s.L? {
      AssembleFork(h, z, n, a, b);
    } else {
      AssembleFork(h, z, n, b, a);
    }
  }

  /** What the writes of a rotation come to. */
  ghost predicate RotatedMemory(h: Memory, h': Memory, z: Node, root: Node, root': Node, c: Ctx, t: Tree, s: Side)
    requires t.Fork? && t.Kid(s.Other()).Fork?
  {
    var (n, k) := (t.node, t.Kid(s.Other()));
    var (m, p) := (RootOf(z, k.Kid(s)), ParentOf(z, c));
    && n in h && k.node in h
    && SameBut(h, h', {n, k.node, m, p}) && {n, k.node} <= h'.Keys
    && h'[n] == h[n].WithChild(s.Other(), m).(parent := k.node)
    && h'[k.node] == h[k.node].WithChild(s, n).(parent := p)
    && (m != z ==> m in h && m in h' && h'[m] == h[m].(parent := n))
    && (if c.Top? then root' == k.node
        else root' == root && p in h && p in h' && h'[p] == h[p].WithChild(c.side, k.node))
  }

  lemma RotationRotates(h: Memory, h': Memory, z: Node, root: Node, root': Node, c: Ctx, t: Tree, s: Side)
    requires At(h, z, root, c, t) && z !in c.Nodes() && z !in t.Nodes() && t.Fork? && t.Kid(s.Other()).Fork?
    requires RotatedMemory(h, h', z, root, root', c, t, s)
    ensures At(h', z, root', c, Rot(t, s))
  {
    hide Models, ModelsCtx, Tree.Nodes, Ctx.Nodes;
    var (n, k, p) := (t.node, t.Kid(s.Other()), ParentOf(z, c));
    var (a, m, b) := (t.Kid(s), k.Kid(s), k.Kid(s.Other()));
    var changed := {n, k.node, RootOf(z, m), p};
    Parts(h, z, t, p, s);
    Parts(h, z, k, n, s);
    Same(h, h', changed, z, a, n);
    Same(h, h', changed, z, b, k.node);
    Adopted(h, h', changed, z, m, k.node, n);
    Replaced(h, h', changed, z, root, root', c, n, k.node);
    Assemble(h', z, s, n, a, m);
    Assemble(h', z, s, k.node, Join(s, n, t.color, t.key, a, m), b);
  }

  // ---------- Single writes ----------

  lemma PaintRoot(h: Memory, h': Memory, z: Node, root: Node, c: Ctx, t: Tree, color: Color)
    requires At(h, z, root, c, t) && t.Fork? && SameBut(h, h', {t.node}) && t.node in h'
             && h'[t.node] == h[t.node].(color := color)
    ensures At(h', z, root, c, t.(color := color))
    ensures t.(color := color).Nodes() == t.Nodes()
  {
    Same(h, h', {t.node}, z, t.left, t.node);
    Same(h, h', {t.node}, z, t.right, t.node);
    SameCtx(h, h', {t.node}, z, root, c, t.node);
  }

  /** The fields around a place. */
  lemma Around(h: Memory, z: Node, root: Node, c: Ctx, t: Tree)
    requires At(h, z, root, c, t) && z !in c.Nodes() && z !in t.Nodes()
    ensures t.Fork? ==>
              t.node in h && h[t.node] == Cell(RootOf(z, t.left), RootOf(z, t.right), ParentOf(z, c), t.key, t.color)
    ensures t.Fork? ==> t.node in t.Nodes() && t.node != z
    ensures c.Top? ==> root == RootOf(z, t)
    ensures c.Below? ==>
      && c.node in h && c.node in c.Nodes() && c.node != z
      && h[c.node] == Cell(z, z, ParentOf(z, c.up), c.key, c.color)
                      .WithChild(c.side, RootOf(z, t)).WithChild(c.side.Other(), RootOf(z, c.other))
    ensures c.Below? && (t.Fork? || c.other.Fork?) ==> RootOf(z, t) != RootOf(z, c.other)
  {
  }

  lemma {:induction false} RootAround(h: Memory, z: Node, root: Node, c: Ctx, n: Node)
    requires ModelsCtx(h, z, root, c, n) && z !in c.Nodes() && c.Below?
    ensures root in c.Nodes()
    decreases c
  {
    if c.up.Below? {
      RootAround(h, z, root, c.up, c.node);
    }
  }

  /** A new node is hung at an empty place. */
  lemma Grafted(h: Memory, h': Memory, z: Node, root: Node, root': Node, c: Ctx, n: Node, key: int)
    requires At(h, z, root, c, Leaf) && n !in c.Nodes() && n != z && SameBut(h, h', {ParentOf(z, c)}) && z !in c.Nodes()
    requires n in h' && h'[n] == Cell(z, z, ParentOf(z, c), key, Red)
    requires if c.Top? then root' == n
             else root' == root && c.node in h' && h'[c.node] == h[c.node].WithChild(c.side, n)
    ensures At(h', z, root', c, Fork(Leaf, n, Red, key, Leaf))
  {
    Replaced(h, h', {ParentOf(z, c)}, z, root, root', c, z, n);
  }

  /** What the writes come to that take out a node with at most one child. */
  ghost predicate UnlinkedMemory(h: Memory, h': Memory, z: Node, root: Node, root': Node, d: Ctx, u: Tree)
    requires u.Fork?
  {
    var (x, p) := (RootOf(z, Pruned(u)), ParentOf(z, d));
    && SameBut(h, h', {u.node, x, p})
    && (x != z ==> x in h && x in h' && h'[x] == h[x].(parent := p))
    && (if d.Top? then root' == x else root' == root && p in h && p in h' && h'[p] == h[p].WithChild(d.side, x))
  }

  /** A node with at most one child is taken out, and that child gets its place. */
  lemma Unlinked(h: Memory, h': Memory, z: Node, root: Node, root': Node, d: Ctx, u: Tree)
    requires At(h, z, root, d, u) && u.Fork? && (u.left.Leaf? || u.right.Leaf?) && z !in d.Nodes() && z !in u.Nodes()
    requires UnlinkedMemory(h, h', z, root, root', d, u)
    ensures At(h', z, root', d, Pruned(u)) && d.Nodes() + Pruned(u).Nodes() == d.Nodes() + u.Nodes() - {u.node}
  {
    var x := Pruned(u);
    var changed := {u.node, RootOf(z, x), ParentOf(z, d)};
    Adopted(h, h', changed, z, x, u.node, ParentOf(z, d));
    Replaced(h, h', changed, z, root, root', d, u.node, RootOf(z, x));
  }

  /** The nodes whose children lead to the place. */
  ghost function Spine(d: Ctx): set<Node> { if d.Top? then {} else {d.node} + Spine(d.up) }

  lemma {:induction false} ReKeyed(h: Memory, h': Memory, z: Node, root: Node, d: Ctx, m: Node, n: Node, key: int)
    requires ModelsCtx(h, z, root, d, m) && n in Spine(d) && SameBut(h, h', {n}) && n in h && n in h'
             && h'[n] == h[n].(key := key)
    ensures ModelsCtx(h', z, root, ReKey(d, n, key), m) && ParentOf(z, ReKey(d, n, key)) == ParentOf(z, d)
    ensures ReKey(d, n, key).Nodes() == d.Nodes()
    decreases d
  {
    SpineInNodes(d.up);
    if d.node == n {
      Same(h, h', {n}, z, d.other, d.node);
      SameCtx(h, h', {n}, z, root, d.up, d.node);
    } else {
      Same(h, h', {n}, z, d.other, d.node);
      ReKeyed(h, h', z, root, d.up, d.node, n, key);
    }
  }

  lemma ReKeyedPlace(h: Memory, h': Memory, z: Node, root: Node, d: Ctx, x: Tree, n: Node, key: int)
    requires At(h, z, root, d, x) && n in Spine(d) && SameBut(h, h', {n}) && n in h && n in h'
             && h'[n] == h[n].(key := key)
    ensures At(h', z, root, ReKey(d, n, key), x) && ReKey(d, n, key).Nodes() == d.Nodes()
  {
    SpineInNodes(d);
    ReKeyed(h, h', z, root, d, RootOf(z, x), n, key);
    Same(h, h', {n}, z, x, ParentOf(z, d));
  }

  lemma {:induction false} ReKeyParent(d: Ctx, n: Node, key: int, z: Node)
    ensures ParentOf(z, ReKey(d, n, key)) == ParentOf(z, d)
  {
  }

  lemma {:induction false} SpineInNodes(d: Ctx)
    ensures Spine(d) <= d.Nodes()
  {
    if d.Below? {
      SpineInNodes(d.up);
    }
  }

  lemma {:induction false} LeftPathSpine(d: Ctx, c: Ctx, t: Tree)
    requires t.Fork? && LeftPath(d, c, t)
    ensures t.node in Spine(d)
    decreases d
  {
    if d != Below(c, R, t.node, t.color, t.key, t.left) {
      LeftPathSpine(d.up, c, t);
    }
  }
}
