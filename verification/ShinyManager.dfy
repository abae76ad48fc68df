/** The manager of the Shiny profiler (3rdparty/Shiny/src/ShinyManager.c): its node table and its
    pools, which grow in step, the tree of nodes, the chain of zones, and the time it hands out. */
module ShinyManager {
  import opened Probing
  import opened OddProbing
  import opened ShinyTicks
  import opened ShinyNodes
  import opened ShinyTree
  import opened ShinyTable
  import opened ShinyPools
  import ShinyUpdate
  import ZoneSort

  const TABLE_SIZE_INIT: nat := 256

  /** More nodes would need a table size that does not fit in a word. */
  const MAX_NODES: nat := 0x4000_0000

  /** No two nodes have the same parent and the same zone. */
  ghost predicate KeysUnique(order: seq<ShinyNode>) {
    forall i, j :: 0 <= i < j < |order| ==> !IsEqual(order[i], order[j].parent, order[j].zone)
  }

  ghost predicate Absent(order: seq<ShinyNode>, parent: ShinyNode, zone: ShinyZone) {
    forall i :: 0 <= i < |order| ==> !IsEqual(order[i], parent, zone)
  }

  function ZoneAt(zones: seq<ShinyZone>, i: nat): ShinyZone? { if i < |zones| then zones[i] else null }

  class ShinyManager {
    const hash: AddressHash
    const rootNode: ShinyNode
    const rootZone: ShinyZone
    const dummyNodeTable: array<ShinyNode?>
    var lastTick: Tick
    var curNode: ShinyNode
    var tableMask: nat
    var nodeTable: array<ShinyNode?>
    var tableSize: nat
    var nodeCount: nat
    var zoneCount: nat
    var lastZone: ShinyZone?
    var lastNodePool: ShinyNodePool?
    var firstNodePool: ShinyNodePool?
    var initialized: bool

    /** The nodes below the root in the order in which they were made, and whose children they are. */
    ghost var order: seq<ShinyNode>
    ghost var kids: Kids
    ghost var pools: seq<ShinyNodePool>
    ghost var zones: seq<ShinyZone>
    /** When ticks were last taken or thrown away. */
    ghost var since: Tick

    ghost function Made(): set<ShinyNode>
      reads `order
    {
      SetOf(order)
    }

    ghost function All(): set<ShinyNode>
      reads `order
    {
      Made() + {rootNode}
    }

    /** The nodes are a tree, in which no parent has two children of one zone. */
    ghost predicate TreeValid()
      reads `order, `kids, `nodeCount, `curNode
      reads rootNode`firstChild, rootNode`lastChild, rootNode`childCount, rootNode`nextSibling
      reads order`firstChild, order`lastChild, order`childCount, order`nextSibling
    {
      && rootNode !in order && nodeCount == |order| + 1 && curNode in All() && KeysUnique(order)
      && Family(rootNode, All(), kids) && Linked(rootNode, All(), kids)
    }

    /** The zones that have nodes are chained behind the root zone. */
    ghost predicate ZoneLinks()
      reads `zones, `lastZone, `zoneCount, zones`next
    {
      && zones != [] && zones[0] == rootZone && lastZone == zones[|zones| - 1] && zoneCount == |zones|
      && (forall i, j :: 0 <= i < j < |zones| ==> zones[i] != zones[j])
      && (forall i :: 0 <= i < |zones| ==> zones[i].next == ZoneAt(zones, i + 1))
    }

    /** Between updates no zone is being updated, and only the root zone may be hidden. */
    ghost predicate ZoneStates()
      reads `zones, zones`state
    {
      forall z :: z in zones ==> !z.state.Updating? && (z.state.Hidden? ==> z == rootZone)
    }

    ghost predicate ZonesChained()
      reads `zones, `lastZone, `zoneCount, zones`next, zones`state
    {
      ZoneLinks() && ZoneStates()
    }

    ghost predicate ZonesValid()
      reads `zones, `lastZone, `zoneCount, `order, `initialized, zones`next, zones`state
    {
      ZonesChained() && NodesKnown() && (!initialized ==> zones == [rootZone])
    }

    ghost predicate NodesKnown()
      reads `zones, `order
    {
      rootNode.zone == rootZone && forall n :: n in order ==> n.zone in zones && n.cache != null
    }

    /** The ticks recorded in the nodes are all ticks that went by, in 64 bits. */
    ghost predicate TicksValid()
      reads `lastTick, `since, `order, rootNode`lastSelfTicks, order`lastSelfTicks
    {
      Wrap(SumOver(ShinyUpdate.LastTicks(All()), All())) == Wrap(lastTick - since)
    }

    ghost predicate TableIs(nodes: set<ShinyNode>)
      reads `nodeTable, `tableSize, `tableMask, nodeTable
    {
      && tableSize == nodeTable.Length && tableMask == tableSize - 1
      && TableOk(nodeTable[..], hash, nodes)
    }

    ghost predicate PoolsValid()
      reads `pools, `order, `firstNodePool, `lastNodePool, pools`nextPool, pools`items
    {
      && pools != [] && Chained(pools) && Items(pools) == order
      && firstNodePool == pools[0] && lastNodePool == pools[|pools| - 1]
    }

    /** The pools have half as many items as the table has slots. */
    ghost predicate Ready()
      reads `nodeTable, `tableSize, `tableMask, `pools, `order, `firstNodePool, `lastNodePool
      reads nodeTable, pools`nextPool, pools`items
    {
      TableIs(Made()) && nodeTable != dummyNodeTable && PoolsValid() && tableSize == 2 * Slots(pools)
    }

    /** Without nodes there is only a table of one slot, which stays unused. */
    ghost predicate Empty()
      reads `nodeTable, `tableSize, `tableMask, `pools, `order, `firstNodePool
    {
      order == [] && pools == [] && firstNodePool == null && nodeTable == dummyNodeTable && tableSize == 1
          && tableMask == 0
    }

    ghost predicate DummyValid()
      reads dummyNodeTable
    {
      dummyNodeTable.Length == 1 && dummyNodeTable[0] == null
    }

    ghost predicate StoreValid()
      reads `initialized, `nodeTable, `tableSize, `tableMask, `pools, `order, `firstNodePool, `lastNodePool
      reads nodeTable, dummyNodeTable, pools`nextPool, pools`items
    {
      DummyValid() && if initialized then Ready() else Empty()
    }

    ghost predicate Valid()
      reads this, rootNode, order, zones, pools, nodeTable, dummyNodeTable
    {
      TreeValid() && ZonesValid() && TicksValid() && StoreValid()
    }

    /** A zone is hidden exactly while the manager does not know it. */
    ghost predicate ZoneKnown(zone: ShinyZone)
      reads `zones, zone`state, zone`next
    {
      zone != rootZone && (zone.state.Hidden? <==> zone !in zones) && (zone !in zones ==> zone.next == null)
    }

    constructor (hash: AddressHash)
      ensures Valid() && !initialized && order == [] && zones == [rootZone] && curNode == rootNode
      ensures since == 0 && fresh(rootNode) && fresh(rootZone) && fresh(nodeTable) && pools == []
    {
      var zone := new ShinyZone();
      var root := new ShinyNode.Root(zone);
      var dummy := new ShinyNode?[1](_ => null);
      this.hash, rootNode, rootZone, dummyNodeTable := hash, root, zone, dummy;
      lastTick, curNode, tableMask, nodeTable, tableSize, nodeCount, zoneCount := 0, root, 0, dummy, 1, 1, 1;
      lastZone, lastNodePool, firstNodePool, initialized := zone, null, null, false;
      order, kids, pools, zones, since := [], map[root := []], [], [zone], 0;
      new;
      hide *;
      Blank();
    }

    lemma Blank()
      requires zones == [rootZone] && lastZone == rootZone && zoneCount == 1 && rootZone.next == null
               && rootZone.state == Hidden
      requires order == [] && pools == [] && firstNodePool == null && nodeTable == dummyNodeTable && tableSize == 1
               && tableMask == 0
      requires dummyNodeTable.Length == 1 && dummyNodeTable[0] == null && !initialized
      requires kids == map[rootNode := []] && curNode == rootNode && nodeCount == 1
      requires rootNode.entryLevel == 0 && rootNode.parent == rootNode && rootNode.zone == rootZone
      requires rootNode.nextSibling == rootNode.firstChild == rootNode.lastChild == null && rootNode.childCount == 0
      requires rootNode.lastSelfTicks == 0 && since == lastTick
      ensures Valid()
    {
      hide TreeValid, TicksValid, ZonesChained, DummyValid, Empty;
      BlankTree();
      BlankTicks();
      BlankStore();
      BlankIsValid();
    }

    lemma BlankStore()
      requires zones == [rootZone] && lastZone == rootZone && zoneCount == 1 && rootZone.next == null
               && rootZone.state.Hidden?
      requires order == [] && pools == [] && firstNodePool == null && nodeTable == dummyNodeTable && tableSize == 1
               && tableMask == 0
      requires dummyNodeTable.Length == 1 && dummyNodeTable[0] == null
      ensures ZonesChained() && DummyValid() && Empty()
    {
    }

    lemma BlankTree()
      requires order == [] && kids == map[rootNode := []] && curNode == rootNode && nodeCount == 1
      requires rootNode.IsRoot() && rootNode.parent == rootNode && rootNode.nextSibling == null
      requires rootNode.firstChild == rootNode.lastChild == null && rootNode.childCount == 0
      ensures TreeValid()
    {
      assert rootNode.HasChildren([]);
      assert All() == {rootNode};
    }

    lemma BlankTicks()
      requires order == [] && rootNode.lastSelfTicks == 0 && since == lastTick
      ensures TicksValid()
    {
      OnlyRootTicks();
    }

    lemma OnlyRootTicks()
      requires order == [] && rootNode.lastSelfTicks == 0
      ensures SumOver(ShinyUpdate.LastTicks(All()), All()) == 0
    {
      var l := ShinyUpdate.LastTicks(All());
      assert All() == {rootNode};
      SumWithout(l, {rootNode}, rootNode);
      assert {rootNode} - {rootNode} == {};
    }

    // ---------- Ticks ----------

    /** Starts counting; only the root is there. */
    method Init(now: Tick)
      requires order == []
      modifies `initialized, `lastTick, `since, rootNode`lastSelfTicks
      ensures initialized && TicksValid() && since == now == lastTick
    {
      initialized := true;
      rootNode.lastSelfTicks := 0;
      lastTick := now;
      since := now;
      OnlyRootTicks();
    }

    /** The ticks since the last call go to the current node. */
    method AppendTicksToCurNode(now: Tick)
      requires TicksValid() && curNode in All()
      modifies `lastTick, curNode`lastSelfTicks
      ensures TicksValid() && lastTick == now
      ensures ShinyUpdate.LastTicks(All())
              == old(ShinyUpdate.LastTicks(All()))[curNode := Wrap(old(curNode.lastSelfTicks) + (now - old(lastTick)))]
      ensures old(curNode).lastSelfTicks == Wrap(old(curNode.lastSelfTicks) + (now - old(lastTick)))
    {
      hide Wrap;
      ghost var l := ShinyUpdate.LastTicks(All());
      var elapsed := Wrap(now - lastTick);
      TicksGrow(SumOver(l, All()), curNode.lastSelfTicks, lastTick, now, since);
      curNode.lastSelfTicks := Wrap(curNode.lastSelfTicks + elapsed);
      lastTick := now;
      SumChanges(l, ShinyUpdate.LastTicks(All()), All(), curNode);
    }

    // ---------- Table and pools ----------

    method CreateNodeTable(count: nat)
      requires PowerOfTwo(count) && count <= WORD
      modifies `tableSize, `tableMask, `nodeTable
      ensures fresh(nodeTable) && tableSize == count && TableIs({})
    {
      tableSize := count;
      tableMask := count - 1;
      nodeTable := new ShinyNode?[count](_ => null);
      EmptyTable(nodeTable[..], hash);
    }

    method CreateNodePool(count: nat)
      requires order == []
      modifies `firstNodePool, `lastNodePool, `pools
      ensures PoolsValid() && |pools| == 1 && fresh(pools[0]) && lastNodePool == pools[0] && Slots(pools) == count
    {
      var pool := new ShinyNodePool(count);
      firstNodePool := pool;
      lastNodePool := firstNodePool;
      pools := [pool];
      assert pools[..0] == [];
    }

    method ResizeNodePool(count: nat)
      requires PoolsValid() && |order| == Slots(pools)
      modifies `lastNodePool, `pools, lastNodePool`nextPool
      ensures PoolsValid() && pools == old(pools) + [lastNodePool] && fresh(lastNodePool)
      ensures Slots(pools) == Slots(old(pools)) + count
    {
      hide Chained, Items, Slots;
      RoomInLast(pools);
      var pool := AppendPool(pools, lastNodePool, count);
      lastNodePool := pool;
      pools := pools + [pool];
    }

    /** Puts a node on the first unused slot of its search. */
    method InsertNode(node: ShinyNode, ghost nodes: set<ShinyNode>)
      requires TableIs(nodes) && node !in nodes && |nodes| < tableSize
      modifies nodeTable
      ensures TableIs(nodes + {node})
    {
      hide TableOk, StepSlot, HashOffset, HashValue, PowerOfTwo, Masked;
      TableHasSize(nodeTable[..], hash, nodes);
      var nHash := HashValue(hash, node.parent, node.zone);
      var nIndex := Masked(nHash, tableMask);
      ghost var p, t := 0, nodeTable[..];
      FirstStep(nHash, tableSize);
      ProbesMeetUnused(t, hash, nodes, nHash);
      ghost var p0: nat :| p0 < |t| && t[StepSlot(nHash, p0, |t|)] == null;
      if nodeTable[nIndex] != null {
        var nStep := HashOffset(nHash);
        while nodeTable[nIndex] != null
          invariant p <= p0 && nIndex == StepSlot(nHash, p, tableSize) < tableSize && PathTo(t, nHash, p)
                    && nodeTable[..] == t
          decreases p0 - p
        {
          NextStep(nHash, p, tableSize);
          nIndex := Masked((nIndex + nStep) % WORD, tableMask);
          p := p + 1;
        }
      }
      assert t[nIndex] == nodeTable[nIndex];
      PutKeepsTable(t, hash, nodes, node, p);
      nodeTable[nIndex] := node;
      assert nodeTable[..] == t[nIndex := node];
    }

    /** Makes a larger table and puts every item of every pool into it. */
    method ResizeNodeTable(count: nat)
      requires PoolsValid() && KeysUnique(order) && PowerOfTwo(count) && |order| < count <= WORD
      modifies `tableSize, `tableMask, `nodeTable
      ensures fresh(nodeTable) && tableSize == count && TableIs(Made())
    {
      hide TableIs, KeysUnique, PowerOfTwo, PoolsValid;
      CreateNodeTable(count);
      InsertAllPools();
    }

    method InsertAllPools()
      requires PoolsValid() && KeysUnique(order) && |order| < tableSize && TableIs({})
      modifies nodeTable
      ensures TableIs(Made())
    {
      hide TableIs, KeysUnique, PoolsValid, ItemsUpTo, SetOf, Made;
      PoolsEnds();
      var pool := firstNodePool;
      ghost var i: nat, from: nat := 0, 0;
      while pool != null
        invariant pool == PoolFrom(pools, i) && ItemsUpTo(i, from) && from <= |order|
        invariant TableIs(SetOf(order[..from]))
        decreases |pools| - i
      {
        PoolAt(i, from);
        InsertPool(pool, from);
        i, from := i + 1, from + |pool.items|;
        pool := pool.nextPool;
      }
      AllPools(i, from);
    }

    /** The first `i` pools hold the first `from` nodes. */
    ghost predicate ItemsUpTo(i: nat, from: nat)
      reads `pools, `order, pools`items
    {
      i <= |pools| && from == |Items(pools[..i])| <= |order|
    }

    lemma PoolsEnds()
      requires PoolsValid()
      ensures firstNodePool == PoolFrom(pools, 0) && ItemsUpTo(0, 0) && SetOf(order[..0]) == {}
    {
    }

    lemma AllPools(i: nat, from: nat)
      requires PoolsValid() && ItemsUpTo(i, from) && PoolFrom(pools, i) == null
      ensures from <= |order| && SetOf(order[..from]) == Made()
    {
      assert pools[..i] == pools && order[..|order|] == order;
    }

    lemma PoolAt(i: nat, from: nat)
      requires PoolsValid() && ItemsUpTo(i, from) && i < |pools|
      ensures var next := from + |pools[i].items|;
              ItemsUpTo(i + 1, next) && next <= |order| && order[from..next] == pools[i].items
      ensures pools[i].nextPool == PoolFrom(pools, i + 1)
    {
      ItemsKept(pools, i);
      var next := from + |pools[i].items|;
      assert order[from..next] == order[..next][from..];
    }

    method InsertPool(pool: ShinyNodePool, ghost from: nat)
      requires KeysUnique(order) && |order| < tableSize
      requires from + |pool.items| <= |order| && order[from..from + |pool.items|] == pool.items
               && TableIs(SetOf(order[..from]))
      modifies nodeTable
      ensures TableIs(SetOf(order[..from + |pool.items|]))
    {
      hide TableIs, KeysUnique;
      var k := 0;
      while k != |pool.items|
        invariant k <= |pool.items| && TableIs(SetOf(order[..from + k]))
        decreases |pool.items| - k
      {
        assert order[from..from + |pool.items|][k] == pool.items[k] == order[from + k];
        NextItem(order, from + k);
        InsertNode(pool.items[k], SetOf(order[..from + k]));
        k := k + 1;
      }
    }

    // ---------- Nodes ----------

    /** Takes an item of the last pool for a child of the current node. */
    method NewNode(cache: NodeCache, zone: ShinyZone) returns (node: ShinyNode)
      requires TreeValid() && PoolsValid() && TicksValid() && |order| < Slots(pools) && Absent(order, curNode, zone)
      modifies `nodeCount, `order, `kids, lastNodePool`items
      modifies order, rootNode
      ensures TreeValid() && PoolsValid() && TicksValid()
      ensures fresh(node) && IsEqual(node, curNode, zone) && node.cache == cache
      ensures order == old(order) + [node] && Made() == old(Made()) + {node} && curNode in old(kids)
              && kids == WithChild(old(kids), curNode, node)
      ensures forall n :: n in old(All()) ==> n.lastSelfTicks == old(n.lastSelfTicks)
    {
      hide Family, Linked, KeysUnique, Absent, PoolsValid, TicksValid;
      ghost var all := All();
      nodeCount := nodeCount + 1;
      node := TakeItem(cache, zone);
      Attach(node, all, old(order));
    }

    /** Links the new node below the current one. */
    method Attach(node: ShinyNode, ghost all: set<ShinyNode>, ghost before: seq<ShinyNode>)
      requires order == before + [node] && All() == all + {node} && node !in all && curNode in all && rootNode !in order
      requires nodeCount == |order| + 1 && KeysUnique(before) && Absent(before, curNode, node.zone)
               && node.parent == curNode
      requires Family(rootNode, all, kids) && Linked(rootNode, all, kids) && node.entryLevel == curNode.entryLevel + 1
      requires node.nextSibling == null && node.HasChildren([])
      modifies `kids, all`firstChild, all`lastChild, all`childCount, all`nextSibling
      ensures TreeValid() && curNode in old(kids) && kids == WithChild(old(kids), curNode, node)
    {
      hide Family, Linked, KeysUnique, Absent, ShinyNode.HasChildren;
      KidsOfAll(rootNode, all, kids);
      AddToTree(rootNode, all, kids, curNode, node);
      kids := WithChild(kids, curNode, node);
      KeysStayUnique(before, node);
    }

    method TakeItem(cache: NodeCache, zone: ShinyZone) returns (node: ShinyNode)
      requires PoolsValid() && TicksValid() && |order| < Slots(pools) && rootNode !in order
      modifies `order, lastNodePool`items
      ensures PoolsValid() && TicksValid()
      ensures fresh(node) && IsEqual(node, curNode, zone) && node.cache == cache
              && node.entryLevel == curNode.entryLevel + 1
      ensures node.nextSibling == null && node.HasChildren([])
      ensures order == old(order) + [node] && Made() == old(Made()) + {node}
    {
      hide Chained, Items, Slots, Wrap;
      ghost var all, l := All(), ShinyUpdate.LastTicks(All());
      node := NewItemOf(pools, lastNodePool, curNode, zone, cache);
      order := order + [node];
      assert All() == all + {node};
      SumOfNew(l, ShinyUpdate.LastTicks(All()), all, node);
    }

    method CreateNode(cache: NodeCache, zone: ShinyZone) returns (node: ShinyNode)
      requires TreeValid() && PoolsValid() && TicksValid() && |order| < Slots(pools) && Absent(order, curNode, zone)
      requires TableIs(Made()) && |order| < tableSize
      modifies nodeTable, `nodeCount, `order, `kids, lastNodePool`items
      modifies order, rootNode
      ensures TreeValid() && PoolsValid() && TicksValid() && TableIs(Made())
      ensures fresh(node) && IsEqual(node, curNode, zone) && node.cache == cache
      ensures order == old(order) + [node] && Made() == old(Made()) + {node} && curNode in old(kids)
              && kids == WithChild(old(kids), curNode, node)
      ensures forall n :: n in old(All()) ==> n.lastSelfTicks == old(n.lastSelfTicks)
    {
      hide TableIs, Family, Linked, KeysUnique, Absent, PoolsValid, TicksValid, TreeValid;
      SetSize(order);
      node := NewNode(cache, zone);
      InsertNode(node, old(Made()));
    }

    /** The probes for a zone met nodes before they came to this unused slot. */
    ghost predicate SearchEnded(zone: ShinyZone, nIndex: nat, p: nat)
      reads `curNode, `nodeTable, nodeTable
    {
      && nIndex < nodeTable.Length && nodeTable[nIndex] == null
      && var h := HashValue(hash, curNode, zone);
         nIndex == StepSlot(h, p, nodeTable.Length) && PathTo(nodeTable[..], h, p)
    }

    /** Looks for the child of the current node of a zone; ends at an unused slot when there is none. */
    method Search(zone: ShinyZone, ghost nodes: set<ShinyNode>) returns (pNode: ShinyNode?, nIndex: nat, ghost p: nat)
      requires TableIs(nodes) && |nodes| < tableSize
      ensures pNode != null ==> pNode in nodes && IsEqual(pNode, curNode, zone)
      ensures pNode == null ==> SearchEnded(zone, nIndex, p) && forall n :: n in nodes ==> !IsEqual(n, curNode, zone)
    {
      hide TableOk, StepSlot, HashOffset, HashValue, PowerOfTwo, Masked;
      TableHasSize(nodeTable[..], hash, nodes);
      ghost var t := nodeTable[..];
      var nHash := HashValue(hash, curNode, zone);
      nIndex, p := Masked(nHash, tableMask), 0;
      FirstStep(nHash, tableSize);
      ProbesMeetUnused(t, hash, nodes, nHash);
      ghost var p0: nat :| p0 < |t| && t[StepSlot(nHash, p0, |t|)] == null;
      pNode := nodeTable[nIndex];
      if pNode != null {
        SlotsHold(t, hash, nodes, nIndex);
        if IsEqual(pNode, curNode, zone) {
          return;
        }
        var nStep := HashOffset(nHash);
        while pNode != null
          invariant p <= p0 && nIndex == StepSlot(nHash, p, tableSize) < tableSize && PathTo(t, nHash, p)
          invariant pNode == t[nIndex] && (pNode != null ==> !IsEqual(pNode, curNode, zone))
          invariant forall q: nat :: q < p ==> !IsEqual(t[StepSlot(nHash, q, |t|)], curNode, zone)
          decreases p0 - p
        {
          NextStep(nHash, p, tableSize);
          nIndex := Masked((nIndex + nStep) % WORD, tableMask);
          p := p + 1;
          pNode := nodeTable[nIndex];
          if pNode != null {
            SlotsHold(t, hash, nodes, nIndex);
            if IsEqual(pNode, curNode, zone) {
              return;
            }
          }
        }
      }
      UnusedMeansAbsent(t, hash, nodes, curNode, zone, p);
    }

    /** `ShinyZone_init` and the counting of a zone seen for the first time. */
    method InitZone(zone: ShinyZone)
      requires ZonesChained() && zone !in zones && zone.next == null
      modifies zone`state, lastZone`next, `lastZone, `zoneCount, `zones
      ensures ZonesChained() && zones == old(zones) + [zone] && !zone.state.Hidden?
    {
      zone.state := Initialized;
      lastZone.next := zone;
      lastZone := zone;
      zoneCount := zoneCount + 1;
      zones := zones + [zone];
    }

    /** The nodes are at most half as many as the slots. */
    lemma HalfFull()
      requires StoreValid()
      ensures TableIs(Made()) && |Made()| < tableSize && 2 * |order| <= tableSize
      ensures initialized ==> |order| <= Slots(pools) && PowerOfTwo(tableSize) && lastNodePool in pools
      ensures initialized ==>
              PoolsValid() && nodeTable != dummyNodeTable && tableSize == 2 * Slots(pools)
              && lastNodePool != null
    {
      SetSize(order);
      if initialized {
        RoomInLast(pools);
      } else {
        assert Made() == {};
        EmptyTable(nodeTable[..], hash);
      }
    }

    lemma IsReady()
      requires TableIs(Made()) && nodeTable != dummyNodeTable && PoolsValid() && tableSize == 2 * Slots(pools)
      ensures Ready()
    {
    }

    lemma TreeFacts()
      requires TreeValid()
      ensures KeysUnique(order) && nodeCount == |order| + 1 && curNode in All() && rootNode !in order
    {
    }

    lemma FewNodes()
      requires Valid()
      ensures nodeCount == |order| + 1
    {
    }

    lemma ZoneFacts()
      requires ZonesValid()
      ensures lastZone in zones && forall n :: n in order ==> n.zone in zones
    {
    }

    /** The table and the pools are those there were, or new. */
    twostate predicate NewStore()
      reads `nodeTable, `pools
    {
      (nodeTable == old(nodeTable) || fresh(nodeTable))
          && forall i :: 0 <= i < |pools| ==> pools[i] in old(pools) || fresh(pools[i])
    }

    /** The first node of all: the table and the pool are made first. */
    method CreateFirst(cache: NodeCache, zone: ShinyZone, now: Tick) returns (node: ShinyNode)
      requires TreeValid() && DummyValid() && Empty()
      modifies `initialized, `lastTick, `since, `tableSize, `tableMask, `nodeTable
      modifies `firstNodePool, `lastNodePool, `pools, `nodeCount, `order, `kids
      modifies order, rootNode
      ensures TreeValid() && TicksValid() && Ready() && initialized
      ensures fresh(node) && IsEqual(node, curNode, zone) && node.cache == cache && order == old(order) + [node]
      ensures NewStore()
      ensures curNode in old(kids) && kids == WithChild(old(kids), curNode, node)
    {
      hide TreeValid, TicksValid, TableIs, PoolsValid, Slots, Absent;
      NobodyYet(order, curNode, zone);
      FirstStore(now);
      node := CreateNode(cache, zone);
    }

    method FirstStore(now: Tick)
      requires order == [] && DummyValid()
      modifies `initialized, `lastTick, `since, rootNode`lastSelfTicks, `tableSize, `tableMask, `nodeTable
      modifies `firstNodePool, `lastNodePool, `pools
      ensures initialized && TicksValid() && since == now && Ready() && Slots(pools) == TABLE_SIZE_INIT / 2
      ensures fresh(nodeTable) && lastNodePool in pools
      ensures forall i :: 0 <= i < |pools| ==> fresh(pools[i])
    {
      hide TicksValid, TableIs, Slots, PowerOfTwo, DummyValid, PoolsValid;
      DummyLength();
      Init(now);
      InitialSize();
      CreateNodeTable(TABLE_SIZE_INIT);
      assert Made() == {};
      CreateNodePool(TABLE_SIZE_INIT / 2);
    }

    lemma DummyLength()
      requires DummyValid()
      ensures dummyNodeTable.Length == 1
    {
    }

    /** A node that finds the table half full: table and pools are doubled first. */
    method CreateGrown(cache: NodeCache, zone: ShinyZone) returns (node: ShinyNode)
      requires TreeValid() && TicksValid() && StoreValid() && initialized
      requires Absent(order, curNode, zone) && tableSize < 2 * nodeCount && nodeCount <= MAX_NODES
      modifies `tableSize, `tableMask, `nodeTable, `lastNodePool, `pools, `nodeCount, `order, `kids, pools`nextPool
      modifies order, rootNode
      ensures TreeValid() && TicksValid() && Ready()
      ensures fresh(node) && IsEqual(node, curNode, zone) && node.cache == cache && order == old(order) + [node]
      ensures NewStore()
      ensures curNode in old(kids) && kids == WithChild(old(kids), curNode, node)
      ensures forall n :: n in old(All()) ==> n.lastSelfTicks == old(n.lastSelfTicks)
    {
      hide TreeValid, TicksValid, TableIs, PoolsValid, Slots, Absent, KeysUnique, DummyValid;
      TreeFacts();
      Grow();
      node := CreateNode(cache, zone);
    }

    method Grow()
      requires KeysUnique(order) && StoreValid() && initialized && nodeCount == |order| + 1
      requires tableSize < 2 * nodeCount && nodeCount <= MAX_NODES
      modifies `tableSize, `tableMask, `nodeTable, `lastNodePool, `pools, pools`nextPool
      ensures Ready() && |order| < Slots(pools) && fresh(nodeTable) && fresh(lastNodePool) && NewStore()
    {
      hide TableIs, PoolsValid, Slots, KeysUnique, PowerOfTwo;
      HalfFull();
      Doubles(tableSize);
      ResizeNodeTable(2 * tableSize);
      ResizeNodePool(nodeCount - 1);
    }

    /** A node for which there is room goes where its search ended. */
    method CreateAt(cache: NodeCache, zone: ShinyZone, nIndex: nat, ghost p: nat) returns (node: ShinyNode)
      requires TreeValid() && PoolsValid() && TicksValid() && |order| < Slots(pools) && Absent(order, curNode, zone)
      requires TableIs(Made()) && SearchEnded(zone, nIndex, p)
      modifies nodeTable, `nodeCount, `order, `kids, lastNodePool`items
      modifies order, rootNode
      ensures TreeValid() && PoolsValid() && TicksValid() && TableIs(Made())
      ensures fresh(node) && IsEqual(node, curNode, zone) && node.cache == cache && order == old(order) + [node]
      ensures NewStore()
      ensures curNode in old(kids) && kids == WithChild(old(kids), curNode, node)
      ensures forall n :: n in old(All()) ==> n.lastSelfTicks == old(n.lastSelfTicks)
    {
      hide TableIs, Family, Linked, KeysUnique, Absent, PoolsValid, TicksValid, TreeValid, SearchEnded;
      node := NewNode(cache, zone);
      PutAt(node, nIndex, old(Made()), p);
    }

    method PutAt(node: ShinyNode, nIndex: nat, ghost nodes: set<ShinyNode>, ghost p: nat)
      requires TableIs(nodes) && node !in nodes && node.parent == curNode && SearchEnded(node.zone, nIndex, p)
      modifies nodeTable
      ensures TableIs(nodes + {node})
    {
      hide TableOk, StepSlot, HashValue, PathTo;
      ghost var t := nodeTable[..];
      PutKeepsTable(t, hash, nodes, node, p);
      nodeTable[nIndex] := node;
      assert nodeTable[..] == t[nIndex := node];
    }

    /** The node of a zone below the current node: the one there is, or a new one. */
    method LookupNode(cache: NodeCache, zone: ShinyZone, now: Tick) returns (node: ShinyNode)
      requires Valid() && ZoneKnown(zone) && nodeCount <= MAX_NODES
      modifies this, nodeTable, pools, order, rootNode, zones, zone
      ensures Valid() && initialized && ZoneKnown(zone) && curNode == old(curNode) && NewStore()
      ensures node in order && IsEqual(node, curNode, zone)
              && forall n :: n in order && IsEqual(n, curNode, zone) ==> n == node
      ensures zones == if zone in old(zones) then old(zones) else old(zones) + [zone]
      ensures node in old(order) ==> order == old(order) && kids == old(kids)
      ensures node !in old(order) ==>
                && fresh(node) && node.cache == cache && order == old(order) + [node]
                && curNode in old(kids) && kids == WithChild(old(kids), curNode, node)
      ensures old(initialized) ==>
              lastTick == old(lastTick) && since == old(since)
              && forall n :: n in old(All()) ==> n.lastSelfTicks == old(n.lastSelfTicks)
    {
      hide TreeValid, TicksValid, ZonesChained, TableIs, PoolsValid, Slots, KeysUnique, Absent, PowerOfTwo,
          SearchEnded, DummyValid;
      TreeFacts();
      HalfFull();
      ZoneFacts();
      var pNode, nIndex, p := Search(zone, Made());
      if pNode != null {
        OnlyNode(order, pNode);
        return pNode;
      }
      NobodyIn(order, curNode, zone);
      node := AddNode(cache, zone, now, nIndex, p);
      OnlyNode(order, node);
    }

    method AddNode(cache: NodeCache, zone: ShinyZone, now: Tick, nIndex: nat, ghost p: nat) returns (node: ShinyNode)
      requires Valid() && ZoneKnown(zone) && nodeCount <= MAX_NODES && Absent(order, curNode, zone)
               && SearchEnded(zone, nIndex, p)
      modifies this, nodeTable, pools, order, rootNode, zones, zone
      ensures Valid() && initialized && ZoneKnown(zone) && curNode == old(curNode) && KeysUnique(order)
      ensures zones == if zone in old(zones) then old(zones) else old(zones) + [zone]
      ensures fresh(node) && IsEqual(node, curNode, zone) && node.cache == cache && order == old(order) + [node]
      ensures NewStore()
      ensures curNode in old(kids) && kids == WithChild(old(kids), curNode, node)
      ensures old(initialized) ==>
              lastTick == old(lastTick) && since == old(since)
              && forall n :: n in old(All()) ==> n.lastSelfTicks == old(n.lastSelfTicks)
    {
      hide TreeValid, TicksValid, ZonesChained, NodesKnown, StoreValid, KeysUnique, Absent, SearchEnded, WithChild,
          IsEqual, ZoneKnown;
      ZoneFacts();
      IntroduceZone(zone);
      node := CreateMissing(cache, zone, now, nIndex, p);
      TreeFacts();
      ChainedIsKnown(zone);
    }

    lemma ChainedIsKnown(zone: ShinyZone)
      requires ZonesChained() && zone in zones && zone != rootZone
      ensures ZoneKnown(zone)
    {
    }

    method IntroduceZone(zone: ShinyZone)
      requires Valid() && ZoneKnown(zone)
      modifies zone`state, lastZone`next, `lastZone, `zoneCount, `zones
      ensures TreeValid() && ZonesChained() && NodesKnown() && TicksValid() && StoreValid()
      ensures zones == (if zone in old(zones) then old(zones) else old(zones) + [zone]) && zone in zones
              && zone != rootZone
    {
      hide TreeValid, TicksValid, ZonesChained, StoreValid;
      if zone.state == Hidden {
        InitZone(zone);
      }
    }

    method CreateMissing(cache: NodeCache, zone: ShinyZone, now: Tick, nIndex: nat, ghost p: nat)
        returns (node: ShinyNode)
      requires TreeValid() && ZonesChained() && NodesKnown() && (initialized ==> TicksValid()) && StoreValid()
      requires zone in zones && Absent(order, curNode, zone) && nodeCount <= MAX_NODES && SearchEnded(zone, nIndex, p)
      modifies this, nodeTable, pools, order, rootNode
      ensures unchanged(`zones, `lastZone, `zoneCount, `curNode)
      ensures Valid() && initialized
      ensures fresh(node) && IsEqual(node, curNode, zone) && node.cache == cache && order == old(order) + [node]
      ensures NewStore()
      ensures curNode in old(kids) && kids == WithChild(old(kids), curNode, node)
      ensures old(initialized) ==>
              lastTick == old(lastTick) && since == old(since)
              && forall n :: n in old(All()) ==> n.lastSelfTicks == old(n.lastSelfTicks)
    {
      hide TreeValid, TicksValid, ZonesChained, KeysUnique, Absent, SearchEnded, StoreValid;
      node := CreateStored(cache, zone, now, nIndex, p);
    }

    method CreateStored(cache: NodeCache, zone: ShinyZone, now: Tick, nIndex: nat, ghost p: nat)
        returns (node: ShinyNode)
      requires TreeValid() && (initialized ==> TicksValid()) && StoreValid()
      requires Absent(order, curNode, zone) && nodeCount <= MAX_NODES && SearchEnded(zone, nIndex, p)
      modifies this, nodeTable, pools, order, rootNode
      ensures unchanged(`zones, `lastZone, `zoneCount, `curNode)
      ensures TreeValid() && TicksValid() && StoreValid() && initialized
      ensures fresh(node) && IsEqual(node, curNode, zone) && node.cache == cache && order == old(order) + [node]
      ensures NewStore()
      ensures curNode in old(kids) && kids == WithChild(old(kids), curNode, node)
      ensures old(initialized) ==>
              lastTick == old(lastTick) && since == old(since)
              && forall n :: n in old(All()) ==> n.lastSelfTicks == old(n.lastSelfTicks)
    {
      hide TreeValid, TicksValid, Ready, KeysUnique, Absent, SearchEnded, DummyValid, WithChild, IsEqual;
      HalfFull();
      if !initialized {
        node := CreateFirst(cache, zone, now);
      } else {
        node := CreateMore(cache, zone, nIndex, p);
      }
    }

    method CreateMore(cache: NodeCache, zone: ShinyZone, nIndex: nat, ghost p: nat) returns (node: ShinyNode)
      requires TreeValid() && TicksValid() && StoreValid() && initialized
      requires Absent(order, curNode, zone) && nodeCount <= MAX_NODES && SearchEnded(zone, nIndex, p)
      modifies this, nodeTable, pools, order, rootNode
      ensures unchanged(`zones, `lastZone, `zoneCount, `curNode, `initialized, `lastTick, `since)
      ensures TreeValid() && TicksValid() && Ready()
      ensures fresh(node) && IsEqual(node, curNode, zone) && node.cache == cache && order == old(order) + [node]
      ensures NewStore()
      ensures curNode in old(kids) && kids == WithChild(old(kids), curNode, node)
      ensures forall n :: n in old(All()) ==> n.lastSelfTicks == old(n.lastSelfTicks)
    {
      hide TreeValid, TicksValid, StoreValid, Ready, KeysUnique, Absent, PowerOfTwo, SearchEnded, PoolsValid, TableIs,
          Slots, WithChild, IsEqual;
      TreeFacts();
      HalfFull();
      if tableSize < 2 * nodeCount {
        node := CreateGrown(cache, zone);
      } else {
        node := CreateAt(cache, zone, nIndex, p);
        IsReady();
      }
    }

    // ---------- The profiler's own operations ----------

    method PreLoad(now: Tick)
      requires Valid()
      modifies `initialized, `lastTick, `since, rootNode`lastSelfTicks, `tableSize, `tableMask, `nodeTable
      modifies `firstNodePool, `lastNodePool, `pools
      ensures Valid() && initialized && order == old(order) && zones == old(zones)
      ensures old(initialized) ==> unchanged(this)
    {
      hide TreeValid, ZonesChained, TicksValid, Ready;
      if !initialized {
        FirstStore(now);
      }
    }

    /** A call site's cache holds nothing or a node of its zone. */
    ghost predicate CacheOk(cache: NodeCache, zone: ShinyZone)
      reads `order, cache
    {
      cache.node != null ==> cache.node in order && cache.node.zone == zone
    }

    method BeginNode(node: ShinyNode, now: Tick)
      requires Valid() && node in All()
      modifies `lastTick, `curNode, curNode`lastSelfTicks
      ensures Valid() && curNode == node && lastTick == now
      ensures old(curNode).lastSelfTicks == Wrap(old(curNode.lastSelfTicks) + (now - old(lastTick)))
    {
      hide *;
      PassTime(now);
      Enter(node);
    }

    method PassTime(now: Tick)
      requires Valid()
      modifies `lastTick, curNode`lastSelfTicks
      ensures Valid() && lastTick == now
      ensures ShinyUpdate.LastTicks(All())
              == old(ShinyUpdate.LastTicks(All()))[curNode := Wrap(old(curNode.lastSelfTicks) + (now - old(lastTick)))]
      ensures old(curNode).lastSelfTicks == Wrap(old(curNode.lastSelfTicks) + (now - old(lastTick)))
    {
      hide TreeValid, ZonesChained, NodesKnown, TicksValid, StoreValid;
      TreeFacts();
      AppendTicksToCurNode(now);
      assert ZonesChained();
      assert TreeValid();
      assert StoreValid();
    }

    method Enter(node: ShinyNode)
      requires Valid() && node in All()
      modifies `curNode
      ensures Valid() && curNode == node
    {
      hide Family, Linked, KeysUnique, ZonesChained, NodesKnown, TicksValid, StoreValid;
      curNode := node;
    }

    /** The current node is left for its parent. */
    method EndCurNode(now: Tick)
      requires Valid()
      modifies `lastTick, `curNode, curNode`lastSelfTicks
      ensures Valid() && curNode == old(curNode).parent && lastTick == now
      ensures old(curNode).lastSelfTicks == Wrap(old(curNode.lastSelfTicks) + (now - old(lastTick)))
    {
      hide *;
      ParentKnown();
      BeginNode(curNode.parent, now);
    }

    lemma ParentKnown()
      requires Valid()
      ensures curNode.parent in All()
    {
    }

    /** Enters the node of a zone, remembered by the call site or looked up. */
    method LookupAndBeginNode(cache: NodeCache, zone: ShinyZone, now: Tick, later: Tick)
      requires Valid() && ZoneKnown(zone) && CacheOk(cache, zone) && nodeCount <= MAX_NODES
      modifies this, nodeTable, pools, order, rootNode, zones, zone, cache
      ensures Valid() && ZoneKnown(zone) && CacheOk(cache, zone) && cache.node == curNode && NewStore()
      ensures zones == old(zones) || zones == old(zones) + [zone]
      ensures IsEqual(curNode, old(curNode), zone)
              && forall n :: n in order && IsEqual(n, old(curNode), zone) ==> n == curNode
      ensures curNode in old(order) ==> order == old(order) && kids == old(kids)
      ensures curNode !in old(order) ==>
                && fresh(curNode) && curNode.cache == cache && order == old(order) + [curNode]
                && old(curNode) in old(kids) && kids == WithChild(old(kids), old(curNode), curNode)
      ensures old(initialized) ==>
                && since == old(since) && lastTick == later
                && old(curNode).lastSelfTicks == Wrap(old(curNode.lastSelfTicks) + (later - old(lastTick)))
                && forall n :: n in old(All()) && n != old(curNode) ==> n.lastSelfTicks == old(n.lastSelfTicks)
    {
      hide TreeValid, ZonesChained, TicksValid, StoreValid;
      TreeFacts();
      if cache.node == null || curNode != cache.node.parent {
        cache.node := LookupNode(cache, zone, now);
      } else {
        OnlyNode(order, cache.node);
      }
      BeginNode(cache.node, later);
    }

    // ---------- Sorting the zones ----------

    /** Sorts the zones behind the root. A single one is not sorted, and then there is no last zone to
        chain a new one to: the manager stays valid exactly when it does not know exactly one. */
    method SortZones()
      requires Valid()
      modifies `lastZone, `zones, zones`next
      ensures Valid() <==> |old(zones)| != 2
      ensures lastZone == null <==> |old(zones)| == 2
      ensures zones != [] && zones[0] == rootZone && multiset(zones) == multiset(old(zones))
      ensures ZoneSort.List(rootZone, zones) && ZoneSort.Descending(zones[1..])
      ensures |old(zones)| <= 2 ==> zones == old(zones)
    {
      hide TreeValid, TicksValid, StoreValid, ZoneLinks, ZoneSort.Descending, ZoneSort.List, ZoneSort.NoTwice;
      ghost var before := zones;
      SortLinks();
      SameZones(before, zones);
      LastIsZone();
    }

    method SortLinks()
      requires ZoneLinks()
      modifies `lastZone, `zones, zones`next
      ensures |old(zones)| != 2 ==> ZoneLinks()
      ensures lastZone == null <==> |old(zones)| == 2
      ensures zones != [] && zones[0] == rootZone && multiset(zones) == multiset(old(zones))
      ensures ZoneSort.List(rootZone, zones) && ZoneSort.Descending(zones[1..])
      ensures |old(zones)| <= 2 ==> zones == old(zones)
    {
      hide ZoneLinks, ZoneSort.Descending, ZoneSort.List, ZoneSort.NoTwice;
      ZonesBehindRoot();
      if rootZone.next != null {
        var newFirst, last;
        ghost var sorted;
        newFirst, last, sorted := ZoneSort.SortChain(rootZone.next, zones[1..]);
        rootZone.next := newFirst;
        lastZone := last;
        zones := [rootZone] + sorted;
        SameZones(old(zones)[1..], sorted);
        Rejoined(sorted);
      }
    }

    lemma Rejoined(sorted: seq<ShinyZone>)
      requires rootZone !in sorted && ZoneSort.List(rootZone.next, sorted) && ZoneSort.NoTwice(sorted)
      requires zones == [rootZone] + sorted && zoneCount == |zones|
      ensures zones[1..] == sorted && ZoneSort.List(rootZone, zones)
      ensures lastZone == zones[|zones| - 1] ==> ZoneLinks()
    {
    }

    lemma ZonesBehindRoot()
      requires ZoneLinks()
      ensures ZoneSort.List(rootZone.next, zones[1..]) && ZoneSort.NoTwice(zones[1..])
              && zones == [rootZone] + zones[1..]
      ensures rootZone !in zones[1..] && ZoneSort.List(rootZone, zones) && lastZone != null && zoneCount == |zones|
      ensures |zones| == 1 ==> ZoneSort.Descending(zones[1..]) && rootZone.next == null
    {
    }

    lemma LastIsZone()
      ensures ZoneLinks() ==> lastZone != null
    {
    }

    lemma SameZones(before: seq<ShinyZone>, after: seq<ShinyZone>)
      requires multiset(before) == multiset(after)
      ensures |before| == |after| && forall z :: z in before <==> z in after
    {
      assert |multiset(before)| == |before| && |multiset(after)| == |after|;
      assert forall z :: z in before <==> z in multiset(before);
      assert forall z :: z in after <==> z in multiset(after);
    }

    // ---------- Throwing everything away ----------

    /** Back to the first state. The caches that made a node are put back on the dummy node, and no
        other cache is, so a cache is sound afterwards exactly when it made a node or held none. */
    method Destroy(now: Tick, ghost caches: set<NodeCache>)
      requires Valid() && caches == set n | n in order :: n.cache
      modifies this, rootNode, zones, caches
      ensures Valid() && !initialized && order == [] && zones == [rootZone] && curNode == rootNode
      ensures forall c :: c in caches ==> c.node == null
      ensures forall c: NodeCache, z :: old(allocated(c)) ==> (CacheOk(c, z) <==> c in caches || old(c.node) == null)
      ensures forall z :: z in old(zones) ==> z.state.Hidden? && z.next == null
    {
      hide *;
      RootFacts();
      DestroyNodes(now, caches);
      ResetZones();
      Uninit();
      BlankIsValid();
      OnlyEmptyCaches();
    }

    lemma OnlyEmptyCaches()
      requires order == []
      ensures forall c: NodeCache, z :: CacheOk(c, z) <==> c.node == null
    {
    }

    method DestroyNodes(now: Tick, ghost caches: set<NodeCache>)
      requires StoreValid() && caches == set n | n in order :: n.cache
      modifies this, rootNode`lastSelfTicks, caches
      ensures Empty() && DummyValid() && initialized && curNode == rootNode && nodeCount == 1 && order == []
      ensures kids == map[rootNode := []] && TicksValid()
      ensures unchanged(`zones, `lastZone, `zoneCount)
      ensures forall c :: c in caches ==> c.node == null
    {
      hide *;
      StoreShape();
      if firstNodePool != null {
        ForgetAll(caches);
        firstNodePool := null;
      }
      DropStore();
      Init(now);
    }

    method DropStore()
      requires firstNodePool == null && DummyValid()
      requires nodeTable == dummyNodeTable ==> tableSize == 1 && tableMask == 0
      modifies `nodeTable, `tableSize, `tableMask, `curNode, `nodeCount, `order, `kids, `pools
      ensures Empty() && curNode == rootNode && nodeCount == 1 && order == [] && kids == map[rootNode := []]
    {
      if nodeTable != dummyNodeTable {
        nodeTable := dummyNodeTable;
        tableSize := 1;
        tableMask := 0;
      }
      curNode := rootNode;
      nodeCount := 1;
      order, kids, pools := [], map[rootNode := []], [];
    }

    lemma StoreShape()
      requires StoreValid()
      ensures DummyValid() && (firstNodePool == null ==> order == [])
      ensures nodeTable == dummyNodeTable ==> tableSize == 1 && tableMask == 0
    {
    }

    lemma RootFacts()
      requires Valid()
      ensures rootNode.IsRoot() && rootNode.parent == rootNode && rootNode.zone == rootZone
      ensures ZonesChained() && StoreValid() && rootZone in zones
    {
    }

    lemma BlankIsValid()
      requires TreeValid() && ZonesChained() && TicksValid() && DummyValid() && Empty() && order == []
      requires !initialized && zones == [rootZone] && rootNode.zone == rootZone
      ensures Valid()
    {
    }

    method ForgetAll(ghost caches: set<NodeCache>)
      requires StoreValid() && firstNodePool != null && caches == set n | n in order :: n.cache
      modifies caches
      ensures forall c :: c in caches ==> c.node == null
    {
      hide TableIs;
      forall j, k | 0 <= j < |pools| && 0 <= k < |pools[j].items| ensures pools[j].items[k].cache in caches {
        ItemOf(pools, j, k);
      }
      DestroyPool(firstNodePool, pools, 0, caches);
      forall c | c in caches ensures c.node == null {
        var n :| n in order && n.cache == c;
        var j, k := ItemIn(pools, n);
      }
    }

    method ResetZones()
      requires ZonesChained()
      modifies `zones, `lastZone, `zoneCount, zones`state, zones`next
      ensures ZonesChained() && zones == [rootZone]
      ensures forall z :: z in old(zones) ==> z.state.Hidden? && z.next == null
    {
      ResetChain(rootZone, zones);
      lastZone := rootZone;
      zoneCount := 1;
      zones := [rootZone];
    }

    method ResetChain(first: ShinyZone, ghost chain: seq<ShinyZone>)
      requires chain != [] && first == chain[0] && forall i, j :: 0 <= i < j < |chain| ==> chain[i] != chain[j]
      requires forall i :: 0 <= i < |chain| ==> chain[i].next == ZoneAt(chain, i + 1)
      modifies chain`state, chain`next
      ensures forall z :: z in chain ==> z.state.Hidden? && z.next == null
    {
      var zone: ShinyZone? := first;
      ghost var i := 0;
      while zone != null
        invariant i <= |chain| && zone == ZoneAt(chain, i)
        invariant forall j :: 0 <= j < i ==> chain[j].state.Hidden? && chain[j].next == null
        invariant forall j :: i <= j < |chain| ==> chain[j].next == ZoneAt(chain, j + 1)
        decreases |chain| - i
      {
        zone.state := Hidden;
        var temp := zone.next;
        zone.next := null;
        zone := temp;
        i := i + 1;
      }
    }

    /** The root is wiped, which leaves its parent and zone as they were. */
    method Uninit()
      requires order == [] && kids == map[rootNode := []] && curNode == rootNode && nodeCount == 1
      requires rootNode.IsRoot() && rootNode.parent == rootNode
      modifies `initialized, `since, rootNode
      ensures !initialized && TreeValid() && TicksValid()
    {
      initialized := false;
      rootNode.lastSelfTicks, rootNode.selfTicks, rootNode.childTicks := 0, 0, 0;
      rootNode.nextSibling, rootNode.firstChild, rootNode.lastChild, rootNode.childCount := null, null, null, 0;
      since := lastTick;
      hide TreeValid, TicksValid;
      BlankTree();
      BlankTicks();
    }

    method Clear(now: Tick, later: Tick, ghost caches: set<NodeCache>)
      requires Valid() && caches == set n | n in order :: n.cache
      modifies this, rootNode, zones, caches
      ensures Valid() && initialized && order == [] && zones == [rootZone] && curNode == rootNode
      ensures forall c :: c in caches ==> c.node == null
      ensures forall c: NodeCache, z :: old(allocated(c)) ==> (CacheOk(c, z) <==> c in caches || old(c.node) == null)
    {
      hide TreeValid, ZonesChained, NodesKnown, TicksValid, StoreValid;
      Destroy(now, caches);
      PreLoad(later);
    }

    // ---------- Update ----------

    ghost function TheTree(): ShinyUpdate.NodeTree
      reads `kids, `order
    {
      TreeAt(kids, rootNode, |All()|)
    }

    /** All ticks since the last update are charged to nodes and zones, as the tree says. */
    method UpdateClean(now: Tick) returns (ghost s: ShinyUpdate.TickState, ghost l: map<ShinyNode, int>)
      requires Valid()
      modifies `lastTick, `since, rootNode`lastSelfTicks, rootNode`selfTicks, rootNode`childTicks
      modifies order`lastSelfTicks, order`selfTicks, order`childTicks, zones`selfTicks, zones`childTicks, zones`state
      ensures Valid() && since == now && curNode == old(curNode)
      ensures l
              == old(ShinyUpdate.LastTicks(All()))[curNode := Wrap(old(curNode.lastSelfTicks) + (now - old(lastTick)))]
      ensures ShinyUpdate.Reflects(s, All(), set z | z in zones)
              && ShinyUpdate.Charged(s, l, TheTree(), set z | z in zones)
      ensures Wrap(rootNode.selfTicks + rootNode.childTicks) == Wrap(now - old(since))
    {
      hide *;
      TreeIs();
      PassTime(now);
      l := ShinyUpdate.LastTicks(All());
      s := ChargeAll(l);
    }

    lemma TreeIs()
      requires Valid()
      ensures curNode == rootNode || curNode in order
    {
    }

    method ChargeAll(ghost l: map<ShinyNode, int>) returns (ghost s: ShinyUpdate.TickState)
      requires Valid() && l == ShinyUpdate.LastTicks(All())
      modifies `since, rootNode`lastSelfTicks, rootNode`selfTicks, rootNode`childTicks
      modifies order`lastSelfTicks, order`selfTicks, order`childTicks, zones`selfTicks, zones`childTicks, zones`state
      ensures Valid() && since == lastTick
      ensures ShinyUpdate.Reflects(s, All(), set z | z in zones)
              && ShinyUpdate.Charged(s, l, TheTree(), set z | z in zones)
      ensures Wrap(rootNode.selfTicks + rootNode.childTicks) == Wrap(lastTick - old(since))
    {
      hide TreeValid, ZonesChained, NodesKnown, StoreValid, ShinyUpdate.Reflects, ShinyUpdate.Charged, TheTree, Wrap;
      s := RunUpdate();
      AllCharged(s, l, since);
      since := lastTick;
      NothingPending(s, l);
    }

    method RunUpdate() returns (ghost s: ShinyUpdate.TickState)
      requires TreeValid() && ZonesChained() && NodesKnown() && StoreValid()
      modifies rootNode`lastSelfTicks, rootNode`selfTicks, rootNode`childTicks
      modifies order`lastSelfTicks, order`selfTicks, order`childTicks, zones`selfTicks, zones`childTicks, zones`state
      ensures TreeValid() && ZonesChained() && NodesKnown() && StoreValid()
      ensures ShinyUpdate.Reflects(s, All(), set z | z in zones)
      ensures ShinyUpdate.Charged(s, old(ShinyUpdate.LastTicks(All())), TheTree(), set z | z in zones)
    {
      hide TreeValid, ZoneLinks, NodesKnown, StoreValid, ShinyUpdate.Reflects, ShinyUpdate.Charged, TheTree;
      UpdateReady();
      s := ShinyUpdate.UpdateClean(rootNode, rootZone, TheTree(), All(), zones);
    }

    /** What the root shows is the time that went by. */
    lemma AllCharged(s: ShinyUpdate.TickState, l: map<ShinyNode, int>, from: Tick)
      requires TreeValid() && ShinyUpdate.Reflects(s, All(), set z | z in zones)
               && ShinyUpdate.Charged(s, l, TheTree(), set z | z in zones)
      requires Wrap(SumOver(l, All())) == Wrap(lastTick - from)
      ensures Wrap(rootNode.selfTicks + rootNode.childTicks) == Wrap(lastTick - from)
    {
      hide Family, Linked, TreeAt, SumOver, Total, Wrap, ShinyUpdate.Shaped, Distinct;
      FamilyIsTree(rootNode, All(), kids);
      TotalIsSum(l, TheTree());
    }

    lemma NothingPending(s: ShinyUpdate.TickState, l: map<ShinyNode, int>)
      requires TreeValid() && ShinyUpdate.Reflects(s, All(), set z | z in zones)
               && ShinyUpdate.Charged(s, l, TheTree(), set z | z in zones)
      requires since == lastTick
      ensures TicksValid()
    {
      hide Family, Linked, TreeAt, KeysUnique, ShinyUpdate.Shaped, Distinct, Total, Outermost, SumOver;
      FamilyIsTree(rootNode, All(), kids);
      SettledTaken(s, l, TheTree());
      SumOfNothing(ShinyUpdate.LastTicks(All()), All());
    }

    lemma UpdateReady()
      requires TreeValid() && ZonesChained() && NodesKnown()
      ensures ShinyUpdate.ZoneChain(rootZone, zones) && TheTree().node == rootNode && rootNode.IsRoot()
      ensures ShinyUpdate.Shaped(TheTree(), null, All()) && Distinct(TheTree()) && Nodes(TheTree()) == All()
      ensures (forall n :: n in All() ==> n.zone in zones) && forall i :: 0 <= i < |zones| ==> !zones[i].state.Updating?
    {
      hide Family, Linked, TreeAt, KeysUnique, ShinyUpdate.Shaped, ShinyUpdate.ZoneChain, Distinct, Nodes;
      RootOfAll(rootNode, All(), kids);
      FamilyIsTree(rootNode, All(), kids);
      ChainFrom(0);
      assert zones[0..] == zones;
    }

    lemma {:induction false} ChainFrom(i: nat)
      requires ZonesChained() && i < |zones|
      ensures ShinyUpdate.ZoneChain(zones[i], zones[i..])
      decreases |zones| - i
    {
      if i + 1 < |zones| {
        ChainFrom(i + 1);
      }
      assert zones[i..][1..] == zones[i + 1..];
    }
  }

  lemma NobodyYet(order: seq<ShinyNode>, parent: ShinyNode, zone: ShinyZone)
    ensures order == [] ==> Absent(order, parent, zone)
  {
  }

  lemma NobodyIn(order: seq<ShinyNode>, parent: ShinyNode, zone: ShinyZone)
    requires forall n :: n in SetOf(order) ==> !IsEqual(n, parent, zone)
    ensures Absent(order, parent, zone)
  {
    forall i | 0 <= i < |order| ensures !IsEqual(order[i], parent, zone) {
      assert order[i] in SetOf(order);
    }
  }

  lemma InitialSize()
    ensures PowerOfTwo(TABLE_SIZE_INIT) && TABLE_SIZE_INIT <= WORD
  {
    NextPower(64);
    NextPower(128);
  }

  lemma Doubles(c: nat)
    ensures PowerOfTwo(c) ==> PowerOfTwo(2 * c)
  {
    NextPower(c);
  }

  lemma OnlyNode(order: seq<ShinyNode>, node: ShinyNode)
    requires KeysUnique(order) && node in order
    ensures forall n :: n in order && IsEqual(n, node.parent, node.zone) ==> n == node
  {
  }

  lemma KeysStayUnique(order: seq<ShinyNode>, node: ShinyNode)
    requires KeysUnique(order) && Absent(order, node.parent, node.zone)
    ensures KeysUnique(order + [node])
  {
  }

  ghost function SetOf(order: seq<ShinyNode>): set<ShinyNode> { set n | n in order }

  lemma {:induction false} SetSize(order: seq<ShinyNode>)
    ensures |SetOf(order)| <= |order|
  {
    if order != [] {
      SetSize(order[..|order| - 1]);
      assert SetOf(order) == SetOf(order[..|order| - 1]) + {order[|order| - 1]};
    } else {
      assert SetOf(order) == {};
    }
  }

  lemma NextItem(order: seq<ShinyNode>, k: nat)
    requires KeysUnique(order) && k < |order|
    ensures order[k] !in SetOf(order[..k]) && |SetOf(order[..k])| <= k
    ensures SetOf(order[..k + 1]) == SetOf(order[..k]) + {order[k]}
  {
    SetSize(order[..k]);
    assert order[..k + 1] == order[..k] + [order[k]];
  }

  /** A sum of ticks that grows by the ticks that went by, all in 64 bits. */
  lemma TicksGrow(sum: int, ticks: int, lastTick: int, now: int, since: int)
    requires Wrap(sum) == Wrap(lastTick - since)
    ensures Wrap(ticks + Wrap(now - lastTick)) == Wrap(ticks + (now - lastTick))
    ensures Wrap(sum + (Wrap(ticks + Wrap(now - lastTick)) - ticks)) == Wrap(now - since)
  {
    var elapsed := now - lastTick;
    assert Wrap(Wrap(elapsed)) == Wrap(elapsed);
    var z := Wrap(ticks + Wrap(elapsed));
    hide Wrap;
    WrapAgain(ticks, Wrap(elapsed), elapsed);
    assert Wrap(z) == Wrap(ticks + elapsed);
    WrapAgain(-ticks, z, ticks + elapsed);
    assert -ticks + (ticks + elapsed) == elapsed;
    WrapAgain(sum, z - ticks, elapsed);
    WrapAgain(elapsed, sum, lastTick - since);
    assert elapsed + (lastTick - since) == now - since;
  }

  lemma SlotsHold(t: Table, hash: AddressHash, nodes: set<ShinyNode>, i: nat)
    requires TableOk(t, hash, nodes) && i < |t| && t[i] != null
    ensures t[i] in nodes
  {
  }

  lemma TableHasSize(t: Table, hash: AddressHash, nodes: set<ShinyNode>)
    requires TableOk(t, hash, nodes)
    ensures PowerOfTwo(|t|) && 0 < |t| <= WORD
  {
  }

  /** One call site enters a zone and leaves it. */
  method OneSite(hash: AddressHash, now: Tick) returns (m: ShinyManager, first: NodeCache, shared: ShinyZone)
    ensures m.Valid() && m.ZoneKnown(shared) && m.curNode == m.rootNode && |m.order| == 1
    ensures IsEqual(m.order[0], m.rootNode, shared) && m.order[0].cache == first
    ensures fresh(m) && fresh(m.rootNode) && fresh(m.nodeTable) && fresh(m.order[0]) && fresh(first) && fresh(shared)
    ensures forall i :: 0 <= i < |m.zones| ==> fresh(m.zones[i])
    ensures forall i :: 0 <= i < |m.pools| ==> fresh(m.pools[i])
  {
    hide ShinyManager.Valid;
    m := new ShinyManager(hash);
    shared := new ShinyZone();
    first := new NodeCache();
    m.FewNodes();
    m.LookupAndBeginNode(first, shared, now, now);
    m.EndCurNode(now);
  }

  /** Another one that shares the zone finds the node that the first made. */
  method TwoSites(hash: AddressHash, now: Tick)
    returns (m: ShinyManager, first: NodeCache, second: NodeCache, shared: ShinyZone)
    ensures m.Valid() && |m.order| == 1 && m.order[0].cache == first != second
    ensures second.node == m.order[0] && second.node.zone == shared && m.CacheOk(second, shared)
    ensures fresh(m) && fresh(m.rootNode) && fresh(first) && forall i :: 0 <= i < |m.zones| ==> fresh(m.zones[i])
  {
    hide ShinyManager.Valid, ShinyManager.ZoneKnown;
    m, first, shared := OneSite(hash, now);
    second := new NodeCache();
    m.FewNodes();
    m.LookupAndBeginNode(second, shared, now, now);
  }

  /** The second site still holds the node after everything was thrown away. */
  method StaleCache(hash: AddressHash, now: Tick) returns (m: ShinyManager, second: NodeCache, shared: ShinyZone)
    ensures m.Valid() && m.order == [] && second.node != null && !m.CacheOk(second, shared)
  {
    hide ShinyManager.Valid;
    var first;
    m, first, second, shared := TwoSites(hash, now);
    assert m.order == [m.order[0]];
    m.Destroy(now, {first});
  }
}
