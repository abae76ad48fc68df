/** The nodes of the Shiny profiler, linked one by one as they are made, are a tree of the kind an
    update visits: no node is in two places and none is missed. */
module ShinyTree {
  import opened ShinyTicks
  import opened ShinyNodes
  import opened ShinyUpdate

  type Kids = map<ShinyNode, seq<ShinyNode>>

  /** Whose child is whose, without the links among them. */
  ghost predicate Family(root: ShinyNode, nodes: set<ShinyNode>, kids: Kids) {
    && root in nodes && root.IsRoot() && root.parent == root && kids.Keys == nodes
    && (forall n :: n in nodes ==> n.entryLevel < |nodes|)
    && (forall n :: n in nodes && n != root ==> n.parent in nodes && n in kids[n.parent])
    && (forall n :: n in nodes ==> Children(n, kids[n], nodes))
  }

  ghost predicate Children(n: ShinyNode, ks: seq<ShinyNode>, nodes: set<ShinyNode>) {
    && (forall i :: 0 <= i < |ks| ==> ks[i] in nodes && ks[i].parent == n && ks[i].entryLevel == n.entryLevel + 1)
    && (forall i, j :: 0 <= i < j < |ks| ==> ks[i] != ks[j])
  }

  /** The links say the same. */
  ghost predicate Linked(root: ShinyNode, nodes: set<ShinyNode>, kids: Kids)
    reads root`nextSibling, nodes`firstChild, nodes`lastChild, nodes`childCount, nodes`nextSibling
  {
    && root.nextSibling == null && kids.Keys == nodes
    && forall n :: n in nodes ==> (forall i :: 0 <= i < |kids[n]| ==> kids[n][i] in nodes) && n.HasChildren(kids[n])
  }

  lemma KidsOfAll(root: ShinyNode, nodes: set<ShinyNode>, kids: Kids)
    requires Family(root, nodes, kids)
    ensures kids.Keys == nodes
  {
  }

  lemma RootOfAll(root: ShinyNode, nodes: set<ShinyNode>, kids: Kids)
    requires Family(root, nodes, kids)
    ensures root in nodes && root.IsRoot()
  {
  }

  // ---------- A new child ----------

  function WithChild(kids: Kids, parent: ShinyNode, child: ShinyNode): Kids
    requires parent in kids
  {
    kids[parent := kids[parent] + [child]][child := []]
  }

  lemma ChildrenStay(n: ShinyNode, ks: seq<ShinyNode>, nodes: set<ShinyNode>, child: ShinyNode)
    requires Children(n, ks, nodes)
    ensures Children(n, ks, nodes + {child})
  {
  }

  lemma ChildrenGrow(n: ShinyNode, ks: seq<ShinyNode>, nodes: set<ShinyNode>, child: ShinyNode)
    requires Children(n, ks, nodes) && child !in nodes && child.parent == n && child.entryLevel == n.entryLevel + 1
    ensures Children(n, ks + [child], nodes + {child})
  {
  }

  lemma NoChildren(n: ShinyNode, nodes: set<ShinyNode>)
    ensures Children(n, [], nodes)
  {
  }

  lemma MemberStays(n: ShinyNode, ks: seq<ShinyNode>, child: ShinyNode)
    requires n in ks || n == child
    ensures n in ks + [child]
  {
  }

  lemma FamilyGrows(root: ShinyNode, nodes: set<ShinyNode>, kids: Kids, parent: ShinyNode, child: ShinyNode)
    requires Family(root, nodes, kids) && parent in nodes && child !in nodes
    requires child.parent == parent && child.entryLevel == parent.entryLevel + 1
    ensures Family(root, nodes + {child}, WithChild(kids, parent, child))
  {
    hide Children;
    var nodes', kids' := nodes + {child}, WithChild(kids, parent, child);
    assert |nodes'| == |nodes| + 1;
    forall n | n in nodes' ensures Children(n, kids'[n], nodes') {
      if n == child {
        NoChildren(n, nodes');
      } else if n == parent {
        ChildrenGrow(n, kids[n], nodes, child);
      } else {
        ChildrenStay(n, kids[n], nodes, child);
      }
    }
    forall n | n in nodes' && n != root ensures n.parent in nodes' && n in kids'[n.parent] {
      if n.parent == parent {
        MemberStays(n, kids[parent], child);
      } else {
        assert n in kids[n.parent] && n.parent != child;
      }
    }
  }

  /** The last child of a node is nobody else's child, and no child comes twice. */
  ghost predicate LastIsOwn(root: ShinyNode, nodes: set<ShinyNode>, kids: Kids, parent: ShinyNode) {
    && kids.Keys == nodes && parent in nodes
    && (forall i, j :: 0 <= i < j < |kids[parent]| ==> kids[parent][i] != kids[parent][j])
    && (kids[parent] != [] ==>
          var last := kids[parent][|kids[parent]| - 1];
          last in nodes && last != root && forall n :: n in nodes && n != parent ==> last !in kids[n])
  }

  lemma FamilyLast(root: ShinyNode, nodes: set<ShinyNode>, kids: Kids, parent: ShinyNode)
    requires Family(root, nodes, kids) && parent in nodes
    ensures LastIsOwn(root, nodes, kids, parent)
  {
    assert Children(parent, kids[parent], nodes);
    forall n | n in nodes && n != parent && kids[parent] != []
      ensures kids[parent][|kids[parent]| - 1] !in kids[n]
    {
      assert Children(n, kids[n], nodes);
    }
  }

  /** Links a new node below its parent. */
  method AddToTree(ghost root: ShinyNode, ghost nodes: set<ShinyNode>, ghost kids: Kids, parent: ShinyNode,
                   child: ShinyNode)
    requires Family(root, nodes, kids) && Linked(root, nodes, kids) && parent in nodes && child !in nodes
    requires child.parent == parent && child.entryLevel == parent.entryLevel + 1
    requires child.nextSibling == null && child.HasChildren([])
    modifies nodes`firstChild, nodes`lastChild, nodes`childCount, nodes`nextSibling
    ensures Family(root, nodes + {child}, WithChild(kids, parent, child))
    ensures Linked(root, nodes + {child}, WithChild(kids, parent, child))
  {
    hide *;
    FamilyGrows(root, nodes, kids, parent, child);
    FamilyLast(root, nodes, kids, parent);
    LinkChild(root, nodes, kids, parent, child);
  }

  method LinkChild(ghost root: ShinyNode, ghost nodes: set<ShinyNode>, ghost kids: Kids, parent: ShinyNode,
                   child: ShinyNode)
    requires LastIsOwn(root, nodes, kids, parent) && Linked(root, nodes, kids) && child !in nodes
    requires child.nextSibling == null && child.HasChildren([])
    modifies nodes`firstChild, nodes`lastChild, nodes`childCount, nodes`nextSibling
    ensures Linked(root, nodes + {child}, WithChild(kids, parent, child))
  {
    hide ShinyNode.HasChildren;
    assert child !in kids[parent] by {
      assert forall i :: 0 <= i < |kids[parent]| ==> kids[parent][i] in nodes;
    }
    parent.AddChild(child, kids[parent]);
    forall n | n in nodes && n != parent ensures n.HasChildren(kids[n]) {
      assert old(n.HasChildren(kids[n]));
    }
  }

  // ---------- The tree ----------

  /** The tree below a node, at most `h` levels deep. */
  ghost function TreeAt(kids: Kids, n: ShinyNode, h: nat): NodeTree
    decreases h, 1, 0
  {
    Fork(n, n.zone, if n in kids then Forest(kids, kids[n], h) else [])
  }

  ghost function Forest(kids: Kids, ns: seq<ShinyNode>, h: nat): seq<NodeTree>
    decreases h, 0, |ns|
  {
    if ns == [] || h == 0 then [] else [TreeAt(kids, ns[0], h - 1)] + Forest(kids, ns[1..], h)
  }

  /** No node below `n` is deeper than `h` levels. */
  predicate Deep(n: ShinyNode, nodes: set<ShinyNode>, h: nat) {
    |nodes| <= n.entryLevel + h + 1
  }

  lemma Opened(root: ShinyNode, nodes: set<ShinyNode>, kids: Kids, n: ShinyNode, i: nat, h: nat)
    requires Family(root, nodes, kids) && n in nodes && i < |kids[n]| && Deep(n, nodes, h)
    ensures h > 0 && kids[n][i] in nodes && kids[n][i].parent == n && kids[n][i].entryLevel == n.entryLevel + 1
    ensures Deep(kids[n][i], nodes, h - 1) && kids[n][i..][1..] == kids[n][i + 1..]
    ensures Forest(kids, kids[n][i..], h) == [TreeAt(kids, kids[n][i], h - 1)] + Forest(kids, kids[n][i + 1..], h)
  {
    assert Children(n, kids[n], nodes);
    var k := kids[n][i];
    assert k in nodes && k.entryLevel < |nodes|;
  }

  lemma {:induction false} NodeShaped(root: ShinyNode, nodes: set<ShinyNode>, kids: Kids, n: ShinyNode, h: nat)
    requires Family(root, nodes, kids) && Linked(root, nodes, kids) && n in nodes && Deep(n, nodes, h)
    ensures Shaped(TreeAt(kids, n, h), n.nextSibling, nodes)
    decreases h, 1, 0
  {
    hide Family;
    assert kids.Keys == nodes;
    ForestShaped(root, nodes, kids, n, 0, h);
    assert kids[n][0..] == kids[n];
  }

  lemma {:induction false} ForestShaped(root: ShinyNode, nodes: set<ShinyNode>, kids: Kids, n: ShinyNode,
                                        i: nat, h: nat)
    requires Family(root, nodes, kids) && Linked(root, nodes, kids) && n in nodes && i <= |kids[n]| && Deep(n, nodes, h)
    ensures var ts := Forest(kids, kids[n][i..], h); ShapedAll(ts, n, nodes) && FirstOf(ts) == ChildAt(kids[n], i)
    decreases h, 0, |kids[n]| - i
  {
    hide Family, Shaped;
    if i < |kids[n]| {
      var k := kids[n][i];
      Opened(root, nodes, kids, n, i, h);
      NodeShaped(root, nodes, kids, k, h - 1);
      ForestShaped(root, nodes, kids, n, i + 1, h);
      assert n.HasChildren(kids[n]) && k.nextSibling == ChildAt(kids[n], i + 1);
      var ts, rest := Forest(kids, kids[n][i..], h), Forest(kids, kids[n][i + 1..], h);
      assert ts[0] == TreeAt(kids, k, h - 1) && ts[1..] == rest;
    }
  }

  // ---------- No node twice ----------

  /** The ancestor `k` levels up. */
  function Up(n: ShinyNode, k: nat): ShinyNode { if k == 0 then n else Up(n.parent, k - 1) }

  lemma {:induction false} UpOnce(n: ShinyNode, k: nat)
    ensures Up(n, k + 1) == Up(n, k).parent
  {
    if k > 0 {
      UpOnce(n.parent, k - 1);
    }
  }

  predicate Under(m: ShinyNode, n: ShinyNode) {
    n.entryLevel <= m.entryLevel && Up(m, m.entryLevel - n.entryLevel) == n
  }

  lemma UnderParent(m: ShinyNode, k: ShinyNode)
    requires Under(m, k) && k.entryLevel == k.parent.entryLevel + 1
    ensures Under(m, k.parent) && m != k.parent
  {
    UpOnce(m, m.entryLevel - k.entryLevel);
  }

  lemma UnderOne(m: ShinyNode, k: ShinyNode, k': ShinyNode)
    requires Under(m, k) && Under(m, k') && k.entryLevel == k'.entryLevel
    ensures k == k'
  {
  }

  lemma {:induction false} NodesUnder(root: ShinyNode, nodes: set<ShinyNode>, kids: Kids, n: ShinyNode, h: nat,
                                      m: ShinyNode)
    requires Family(root, nodes, kids) && n in nodes && Deep(n, nodes, h) && m in Nodes(TreeAt(kids, n, h))
    ensures m in nodes && Under(m, n)
    decreases h, 1, 0
  {
    if m != n {
      assert kids[n][0..] == kids[n];
      var i := ForestUnder(root, nodes, kids, n, 0, h, m);
      Opened(root, nodes, kids, n, i, h);
      UnderParent(m, kids[n][i]);
    }
  }

  /** Whoever is in a forest is below one of its roots. */
  lemma {:induction false} ForestUnder(root: ShinyNode, nodes: set<ShinyNode>, kids: Kids, n: ShinyNode, from: nat,
                                       h: nat, m: ShinyNode) returns (i: nat)
    requires Family(root, nodes, kids) && n in nodes && from <= |kids[n]| && Deep(n, nodes, h)
    requires m in NodesAll(Forest(kids, kids[n][from..], h))
    ensures from <= i < |kids[n]| && m in nodes && Under(m, kids[n][i])
    decreases h, 0, |kids[n]| - from
  {
    hide Family, Under;
    KidsOfAll(root, nodes, kids);
    assert kids[n][from..] != [];
    Opened(root, nodes, kids, n, from, h);
    var t, rest := TreeAt(kids, kids[n][from], h - 1), Forest(kids, kids[n][from + 1..], h);
    assert ([t] + rest)[1..] == rest;
    if m in Nodes(t) {
      i := from;
      NodesUnder(root, nodes, kids, kids[n][from], h - 1, m);
    } else {
      i := ForestUnder(root, nodes, kids, n, from + 1, h, m);
    }
  }

  lemma {:induction false} TreeDistinct(root: ShinyNode, nodes: set<ShinyNode>, kids: Kids, n: ShinyNode, h: nat)
    requires Family(root, nodes, kids) && n in nodes && Deep(n, nodes, h)
    ensures Distinct(TreeAt(kids, n, h))
    decreases h, 1, 0
  {
    assert kids[n][0..] == kids[n];
    ForestDistinct(root, nodes, kids, n, 0, h);
    if n in NodesAll(Forest(kids, kids[n], h)) {
      var i := ForestUnder(root, nodes, kids, n, 0, h, n);
      Opened(root, nodes, kids, n, i, h);
      assert false;
    }
  }

  lemma {:induction false} ForestDistinct(root: ShinyNode, nodes: set<ShinyNode>, kids: Kids, n: ShinyNode,
                                          i: nat, h: nat)
    requires Family(root, nodes, kids) && n in nodes && i <= |kids[n]| && Deep(n, nodes, h)
    ensures DistinctAll(Forest(kids, kids[n][i..], h))
    decreases h, 0, |kids[n]| - i
  {
    hide Family, Distinct;
    KidsOfAll(root, nodes, kids);
    if i < |kids[n]| {
      Opened(root, nodes, kids, n, i, h);
      TreeDistinct(root, nodes, kids, kids[n][i], h - 1);
      ForestDistinct(root, nodes, kids, n, i + 1, h);
      SiblingsApart(root, nodes, kids, n, i, h);
      var t, rest := TreeAt(kids, kids[n][i], h - 1), Forest(kids, kids[n][i + 1..], h);
      assert ([t] + rest)[0] == t && ([t] + rest)[1..] == rest;
    }
  }

  lemma SiblingsApart(root: ShinyNode, nodes: set<ShinyNode>, kids: Kids, n: ShinyNode, i: nat, h: nat)
    requires Family(root, nodes, kids) && n in nodes && i < |kids[n]| && Deep(n, nodes, h) && h > 0
    ensures Nodes(TreeAt(kids, kids[n][i], h - 1)) !! NodesAll(Forest(kids, kids[n][i + 1..], h))
  {
    assert Children(n, kids[n], nodes);
    hide Family, Under, TreeAt, Forest;
    var a, b := Nodes(TreeAt(kids, kids[n][i], h - 1)), NodesAll(Forest(kids, kids[n][i + 1..], h));
    forall m | m in a && m in b ensures false {
      NodesUnder(root, nodes, kids, kids[n][i], h - 1, m);
      var j := ForestUnder(root, nodes, kids, n, i + 1, h, m);
      UnderOne(m, kids[n][i], kids[n][j]);
    }
  }

  // ---------- No node missed ----------

  lemma {:induction false} InForest(root: ShinyNode, nodes: set<ShinyNode>, kids: Kids, n: ShinyNode, from: nat,
                                    i: nat, h: nat)
    requires Family(root, nodes, kids) && n in nodes && from <= i < |kids[n]| && Deep(n, nodes, h) && h > 0
    ensures Nodes(TreeAt(kids, kids[n][i], h - 1)) <= NodesAll(Forest(kids, kids[n][from..], h))
    decreases i - from
  {
    hide Family, TreeAt, Forest;
    KidsOfAll(root, nodes, kids);
    Opened(root, nodes, kids, n, from, h);
    var t, rest := TreeAt(kids, kids[n][from], h - 1), Forest(kids, kids[n][from + 1..], h);
    assert ([t] + rest)[0] == t && ([t] + rest)[1..] == rest;
    if from < i {
      InForest(root, nodes, kids, n, from + 1, i, h);
    }
  }

  lemma KidIn(root: ShinyNode, nodes: set<ShinyNode>, kids: Kids, n: ShinyNode, i: nat, h: nat)
    requires Family(root, nodes, kids) && n in nodes && i < |kids[n]| && Deep(n, nodes, h)
    ensures h > 0 && Nodes(TreeAt(kids, kids[n][i], h - 1)) <= Nodes(TreeAt(kids, n, h))
  {
    Opened(root, nodes, kids, n, i, h);
    InForest(root, nodes, kids, n, 0, i, h);
    assert kids[n][0..] == kids[n];
  }

  /** With a node, its children are in a tree. */
  lemma {:induction false} ClosedUnderKids(root: ShinyNode, nodes: set<ShinyNode>, kids: Kids, n: ShinyNode, h: nat,
                                           p: ShinyNode, k: ShinyNode)
    requires Family(root, nodes, kids) && n in nodes && Deep(n, nodes, h)
    requires p in Nodes(TreeAt(kids, n, h)) && p in kids && k in kids[p]
    ensures k in Nodes(TreeAt(kids, n, h))
    decreases h
  {
    hide Family, TreeAt, Forest, Nodes, NodesAll;
    KidsOfAll(root, nodes, kids);
    if p == n {
      var i :| 0 <= i < |kids[n]| && kids[n][i] == k;
      KidIn(root, nodes, kids, n, i, h);
      RootIn(kids, k, h - 1);
    } else {
      InBelow(kids, n, h, p);
      var i := InWhichKid(root, nodes, kids, n, 0, h, p);
      Opened(root, nodes, kids, n, i, h);
      ClosedUnderKids(root, nodes, kids, kids[n][i], h - 1, p, k);
      KidIn(root, nodes, kids, n, i, h);
    }
  }

  lemma RootIn(kids: Kids, n: ShinyNode, h: nat)
    ensures n in Nodes(TreeAt(kids, n, h))
  {
  }

  lemma InBelow(kids: Kids, n: ShinyNode, h: nat, p: ShinyNode)
    requires n in kids && p in Nodes(TreeAt(kids, n, h)) && p != n
    ensures p in NodesAll(Forest(kids, kids[n][0..], h))
  {
    assert kids[n][0..] == kids[n];
  }

  lemma {:induction false} InWhichKid(root: ShinyNode, nodes: set<ShinyNode>, kids: Kids, n: ShinyNode, from: nat,
                                      h: nat, m: ShinyNode) returns (i: nat)
    requires Family(root, nodes, kids) && n in nodes && from <= |kids[n]| && Deep(n, nodes, h)
    requires m in NodesAll(Forest(kids, kids[n][from..], h))
    ensures from <= i < |kids[n]| && h > 0 && m in Nodes(TreeAt(kids, kids[n][i], h - 1))
    decreases |kids[n]| - from
  {
    hide Family, TreeAt;
    KidsOfAll(root, nodes, kids);
    assert kids[n][from..] != [];
    Opened(root, nodes, kids, n, from, h);
    var t, rest := TreeAt(kids, kids[n][from], h - 1), Forest(kids, kids[n][from + 1..], h);
    assert ([t] + rest)[0] == t && ([t] + rest)[1..] == rest;
    if m in Nodes(t) {
      i := from;
    } else {
      i := InWhichKid(root, nodes, kids, n, from + 1, h, m);
    }
  }

  lemma {:induction false} EveryNodeIn(root: ShinyNode, nodes: set<ShinyNode>, kids: Kids, h: nat, m: ShinyNode)
    requires Family(root, nodes, kids) && Deep(root, nodes, h) && m in nodes
    ensures m in Nodes(TreeAt(kids, root, h))
    decreases m.entryLevel
  {
    if m != root {
      assert Children(m.parent, kids[m.parent], nodes);
      EveryNodeIn(root, nodes, kids, h, m.parent);
      ClosedUnderKids(root, nodes, kids, root, h, m.parent, m);
    }
  }

  lemma NodesAre(root: ShinyNode, nodes: set<ShinyNode>, kids: Kids, h: nat)
    requires Family(root, nodes, kids) && Deep(root, nodes, h)
    ensures Nodes(TreeAt(kids, root, h)) == nodes
  {
    assert root in nodes;
    hide Family, TreeAt, Nodes;
    var below := Nodes(TreeAt(kids, root, h));
    forall m | m in nodes ensures m in below { EveryNodeIn(root, nodes, kids, h, m); }
    forall m | m in below ensures m in nodes { NodesUnder(root, nodes, kids, root, h, m); }
  }

  /** Nodes that point at each other as their family says are a tree that an update visits whole. */
  lemma FamilyIsTree(root: ShinyNode, nodes: set<ShinyNode>, kids: Kids)
    requires Family(root, nodes, kids) && Linked(root, nodes, kids)
    ensures var t := TreeAt(kids, root, |nodes|);
            t.node == root && Shaped(t, null, nodes) && Distinct(t) && Nodes(t) == nodes
  {
    var h := |nodes|;
    assert root.nextSibling == null && root in nodes && Deep(root, nodes, h);
    assert TreeAt(kids, root, h).node == root;
    hide *;
    NodeShaped(root, nodes, kids, root, h);
    TreeDistinct(root, nodes, kids, root, h);
    NodesAre(root, nodes, kids, h);
  }

  // ---------- The order of a tree ----------

  /** A node comes before its children's trees, in their order. */
  ghost function Preorder(t: NodeTree): seq<ShinyNode> {
    [t.node] + PreorderAll(t.kids)
  }

  ghost function PreorderAll(ts: seq<NodeTree>): seq<ShinyNode> {
    if ts == [] then [] else Preorder(ts[0]) + PreorderAll(ts[1..])
  }

  /** The order names every node of the tree exactly once. */
  lemma {:induction false} PreorderOnce(t: NodeTree)
    requires Distinct(t)
    ensures multiset(Preorder(t)) == multiset(Nodes(t))
  {
    PreorderAllOnce(t.kids);
    assert multiset({t.node} + NodesAll(t.kids)) == multiset{t.node} + multiset(NodesAll(t.kids));
  }

  lemma {:induction false} PreorderAllOnce(ts: seq<NodeTree>)
    requires DistinctAll(ts)
    ensures multiset(PreorderAll(ts)) == multiset(NodesAll(ts))
  {
    if ts != [] {
      PreorderOnce(ts[0]);
      PreorderAllOnce(ts[1..]);
      assert multiset(Nodes(ts[0]) + NodesAll(ts[1..])) == multiset(Nodes(ts[0])) + multiset(NodesAll(ts[1..]));
    } else {
      assert PreorderAll(ts) == [] && NodesAll(ts) == {};
    }
  }

  lemma {:induction false} ForestSplits(kids: Kids, ns: seq<ShinyNode>, i: nat, h: nat)
    requires i < |ns| && h > 0
    ensures var mid := Preorder(TreeAt(kids, ns[i], h - 1));
            PreorderAll(Forest(kids, ns, h)) == PreorderAll(Forest(kids, ns[..i], h)) + mid
                + PreorderAll(Forest(kids, ns[i + 1..], h))
  {
    hide Preorder, TreeAt, Forest, PreorderAll;
    ForestStarts(kids, ns, h);
    if i > 0 {
      ForestSplits(kids, ns[1..], i - 1, h);
      ForestStarts(kids, ns[..i], h);
      assert ns[1..][..i - 1] == ns[..i][1..] && ns[1..][i..] == ns[i + 1..];
    } else {
      assert ns[..0] == [];
      NoForest(kids, h);
    }
  }

  lemma ForestStarts(kids: Kids, ns: seq<ShinyNode>, h: nat)
    requires ns != [] && h > 0
    ensures PreorderAll(Forest(kids, ns, h))
            == Preorder(TreeAt(kids, ns[0], h - 1)) + PreorderAll(Forest(kids, ns[1..], h))
  {
    hide Preorder, TreeAt;
    var t, rest := TreeAt(kids, ns[0], h - 1), Forest(kids, ns[1..], h);
    assert ([t] + rest)[1..] == rest;
  }

  /** What follows the tree below a node: its next sibling, or that of the nearest ancestor with one. */
  ghost function After(root: ShinyNode, nodes: set<ShinyNode>, kids: Kids, n: ShinyNode): (next: ShinyNode?)
    requires Family(root, nodes, kids) && n in nodes
    reads nodes`nextSibling
    decreases n.entryLevel
  {
    if n == root then null
    else
      ParentAbove(root, nodes, kids, n);
      if n.nextSibling != null then n.nextSibling else After(root, nodes, kids, n.parent)
  }

  lemma ParentAbove(root: ShinyNode, nodes: set<ShinyNode>, kids: Kids, n: ShinyNode)
    requires Family(root, nodes, kids) && n in nodes && n != root
    ensures n.parent in nodes && n in kids[n.parent] && n.entryLevel == n.parent.entryLevel + 1
  {
    assert Children(n.parent, kids[n.parent], nodes);
  }

  lemma AfterStep(root: ShinyNode, nodes: set<ShinyNode>, kids: Kids, n: ShinyNode, i: nat)
    requires Family(root, nodes, kids) && Linked(root, nodes, kids) && n in nodes && n != root
    requires n.parent in nodes && i < |kids[n.parent]| && kids[n.parent][i] == n
    ensures After(root, nodes, kids, n)
            == if i + 1 < |kids[n.parent]| then kids[n.parent][i + 1] else After(root, nodes, kids, n.parent)
  {
    assert n.parent.HasChildren(kids[n.parent]);
  }

  /** Where the tree below a node stands in the order of the whole tree, and what comes after it. */
  lemma {:induction false} Located(root: ShinyNode, nodes: set<ShinyNode>, kids: Kids, n: ShinyNode, h: nat)
      returns (pre: seq<ShinyNode>, post: seq<ShinyNode>)
    requires Family(root, nodes, kids) && Linked(root, nodes, kids) && n in nodes && Deep(root, nodes, h)
    ensures n.entryLevel <= h && Preorder(TreeAt(kids, root, h))
            == pre + Preorder(TreeAt(kids, n, h - n.entryLevel)) + post
    ensures ChildAt(post, 0) == After(root, nodes, kids, n)
    decreases n.entryLevel
  {
    hide Family, Linked, Preorder, TreeAt, After;
    RootOfAll(root, nodes, kids);
    KidsOfAll(root, nodes, kids);
    LevelFits(root, nodes, kids, n, h);
    if n == root {
      pre, post := [], [];
      AfterRoot(root, nodes, kids);
    } else {
      ParentAbove(root, nodes, kids, n);
      var p := n.parent;
      var pre', post' := Located(root, nodes, kids, p, h);
      var i :| 0 <= i < |kids[p]| && kids[p][i] == n;
      var before, after := SplitAt(root, nodes, kids, p, i, h - p.entryLevel);
      AfterStep(root, nodes, kids, n, i);
      pre, post := pre' + before, after + post';
      Regroup(pre', before, Preorder(TreeAt(kids, n, h - n.entryLevel)), after, post');
    }
  }

  lemma AfterRoot(root: ShinyNode, nodes: set<ShinyNode>, kids: Kids)
    requires Family(root, nodes, kids)
    ensures After(root, nodes, kids, root) == null
  {
  }

  lemma LevelFits(root: ShinyNode, nodes: set<ShinyNode>, kids: Kids, n: ShinyNode, h: nat)
    requires Family(root, nodes, kids) && n in nodes && Deep(root, nodes, h)
    ensures n.entryLevel <= h && Deep(n, nodes, h - n.entryLevel)
  {
  }

  lemma Regroup<T>(a: seq<T>, b: seq<T>, c: seq<T>, d: seq<T>, e: seq<T>)
    ensures a + (b + c + d) + e == (a + b) + c + (d + e)
  {
  }

  lemma SplitAt(root: ShinyNode, nodes: set<ShinyNode>, kids: Kids, p: ShinyNode, i: nat, h: nat)
      returns (before: seq<ShinyNode>, after: seq<ShinyNode>)
    requires Family(root, nodes, kids) && p in nodes && i < |kids[p]| && Deep(p, nodes, h)
    ensures h > 0 && Preorder(TreeAt(kids, p, h)) == before + Preorder(TreeAt(kids, kids[p][i], h - 1)) + after
    ensures after == [] <==> i + 1 == |kids[p]|
    ensures after != [] ==> after[0] == kids[p][i + 1]
  {
    hide Family, Preorder, TreeAt, Forest, PreorderAll;
    KidsOfAll(root, nodes, kids);
    Opened(root, nodes, kids, p, i, h);
    ForestSplits(kids, kids[p], i, h);
    PreorderOf(kids, p, h);
    FirstOfForest(kids, kids[p][i + 1..], h);
    before, after := [p] + PreorderAll(Forest(kids, kids[p][..i], h)), PreorderAll(Forest(kids, kids[p][i + 1..], h));
  }

  lemma PreorderOf(kids: Kids, n: ShinyNode, h: nat)
    requires n in kids
    ensures Preorder(TreeAt(kids, n, h)) == [n] + PreorderAll(Forest(kids, kids[n], h))
  {
  }

  lemma FirstOfForest(kids: Kids, ns: seq<ShinyNode>, h: nat)
    requires h > 0
    ensures var order := PreorderAll(Forest(kids, ns, h));
            if ns == [] then order == [] else order != [] && order[0] == ns[0]
  {
  }

  /** In its own tree a node is followed by its first child, if it has one. */
  lemma StartOf(root: ShinyNode, nodes: set<ShinyNode>, kids: Kids, n: ShinyNode, h: nat)
    requires Family(root, nodes, kids) && Linked(root, nodes, kids) && n in nodes && Deep(n, nodes, h)
    ensures var order := Preorder(TreeAt(kids, n, h));
            && |order| > 0 && order[0] == n
            && if n.firstChild == null then |order| == 1 else |order| > 1 && order[1] == n.firstChild
  {
    hide Family, Preorder, TreeAt, Forest, PreorderAll;
    PreorderOf(kids, n, h);
    assert n.HasChildren(kids[n]);
    if kids[n] != [] {
      Opened(root, nodes, kids, n, 0, h);
      FirstOfForest(kids, kids[n], h);
    } else {
      NoForest(kids, h);
    }
  }

  lemma NoForest(kids: Kids, h: nat)
    ensures PreorderAll(Forest(kids, [], h)) == []
  {
  }

  /** The place of a node in the order of the tree, and what stands behind it. */
  lemma NextInOrder(root: ShinyNode, nodes: set<ShinyNode>, kids: Kids, n: ShinyNode) returns (at: nat)
    requires Family(root, nodes, kids) && Linked(root, nodes, kids) && n in nodes
    ensures var order := Preorder(TreeAt(kids, root, |nodes|));
            && at < |order| && order[at] == n
            && ChildAt(order, at + 1) == if n.firstChild != null then n.firstChild else After(root, nodes, kids, n)
  {
    hide Family, Linked, Preorder, TreeAt, After;
    RootOfAll(root, nodes, kids);
    LevelFits(root, nodes, kids, n, |nodes|);
    var pre, post := Located(root, nodes, kids, n, |nodes|);
    StartOf(root, nodes, kids, n, |nodes| - n.entryLevel);
    at := |pre|;
  }

  /** The node after a node in the order of the tree. */
  method FindNextInTree(self: ShinyNode, ghost root: ShinyNode, ghost nodes: set<ShinyNode>, ghost kids: Kids)
    returns (next: ShinyNode?, ghost at: nat)
    requires Family(root, nodes, kids) && Linked(root, nodes, kids) && self in nodes
    ensures var order := Preorder(TreeAt(kids, root, |nodes|));
            at < |order| && order[at] == self && next == ChildAt(order, at + 1)
  {
    hide Family, Linked, Preorder, TreeAt, After;
    at := NextInOrder(root, nodes, kids, self);
    if self.firstChild != null {
      return self.firstChild, at;
    }
    AfterOf(root, nodes, kids, self);
    if self.nextSibling != null {
      return self.nextSibling, at;
    }
    var pParent := self.parent;
    while !pParent.IsRoot()
      invariant pParent in nodes && After(root, nodes, kids, self) == After(root, nodes, kids, pParent)
      decreases pParent.entryLevel
    {
      AfterOf(root, nodes, kids, pParent);
      if pParent.nextSibling != null {
        return pParent.nextSibling, at;
      }
      pParent := pParent.parent;
    }
    AfterOf(root, nodes, kids, pParent);
    return null, at;
  }

  lemma AfterOf(root: ShinyNode, nodes: set<ShinyNode>, kids: Kids, n: ShinyNode)
    requires Family(root, nodes, kids) && Linked(root, nodes, kids) && n in nodes
    ensures n.nextSibling != null ==> After(root, nodes, kids, n) == n.nextSibling
    ensures n.nextSibling == null ==>
            n.parent in nodes
            && After(root, nodes, kids, n) == After(root, nodes, kids, n.parent)
    ensures n.IsRoot() ==> After(root, nodes, kids, n) == null
    ensures !n.IsRoot() ==> n.parent.entryLevel < n.entryLevel
  {
    if n != root {
      ParentAbove(root, nodes, kids, n);
    }
  }
}
