/** The pools that hold the nodes of the Shiny profiler (3rdparty/Shiny/src/ShinyNodePool.c). */
module ShinyPools {
  import opened ShinyNodes

  class ShinyNodePool {
    var nextPool: ShinyNodePool?
    /** How many items the pool has memory for. */
    const slots: nat
    /** The items taken so far; `_nextItem` points behind the last. */
    var items: seq<ShinyNode>

    constructor (slots: nat)
      ensures this.slots == slots && nextPool == null && items == []
    {
      this.slots, nextPool, items := slots, null, [];
    }

    /** Takes the next item, which must not lie beyond the pool, and sets it up but for the links. */
    method NewItem(parent: ShinyNode, zone: ShinyZone, cache: NodeCache) returns (node: ShinyNode)
      requires |items| < slots
      modifies `items
      ensures fresh(node) && items == old(items) + [node]
      ensures node.zone == zone && node.parent == parent && node.entryLevel == parent.entryLevel + 1
              && node.cache == cache
      ensures node.nextSibling == node.firstChild == node.lastChild == null && node.childCount == 0
              && node.lastSelfTicks == 0
    {
      node := new ShinyNode.Below(parent, zone, cache);
      items := items + [node];
    }
  }

  function PoolFrom(pools: seq<ShinyNodePool>, i: nat): ShinyNodePool? { if i < |pools| then pools[i] else null }

  /** The pools are linked in this order, and all but the last are full. */
  ghost predicate Chained(pools: seq<ShinyNodePool>)
    reads pools`nextPool, pools`items
  {
    && (forall i, j :: 0 <= i < j < |pools| ==> pools[i] != pools[j])
    && (forall i :: 0 <= i < |pools| ==> pools[i].nextPool == PoolFrom(pools, i + 1))
    && (forall i :: 0 <= i < |pools| ==> |pools[i].items| <= pools[i].slots)
    && (forall i :: 0 <= i < |pools| - 1 ==> |pools[i].items| == pools[i].slots)
  }

  ghost function Items(pools: seq<ShinyNodePool>): seq<ShinyNode>
    reads pools`items
  {
    if pools == [] then [] else Items(pools[..|pools| - 1]) + pools[|pools| - 1].items
  }

  ghost function Slots(pools: seq<ShinyNodePool>): nat {
    if pools == [] then 0 else Slots(pools[..|pools| - 1]) + pools[|pools| - 1].slots
  }

  /** Only the last pool has room, and as much as all pools together. */
  lemma {:induction false} RoomInLast(pools: seq<ShinyNodePool>)
    requires Chained(pools) && pools != []
    ensures var last := pools[|pools| - 1]; |Items(pools)| + (last.slots - |last.items|) == Slots(pools)
  {
    var init := pools[..|pools| - 1];
    if init != [] {
      assert init[|init| - 1] == pools[|pools| - 2];
      FullSoFar(init);
    }
  }

  lemma {:induction false} FullSoFar(pools: seq<ShinyNodePool>)
    requires forall i :: 0 <= i < |pools| ==> |pools[i].items| == pools[i].slots
    ensures |Items(pools)| == Slots(pools)
  {
    if pools != [] {
      FullSoFar(pools[..|pools| - 1]);
    }
  }

  lemma {:induction false} ItemsKept(pools: seq<ShinyNodePool>, i: nat)
    requires i < |pools|
    ensures Items(pools[..i + 1]) == Items(pools[..i]) + pools[i].items
    ensures |Items(pools[..i + 1])| <= |Items(pools)|
            && Items(pools)[..|Items(pools[..i + 1])|] == Items(pools[..i + 1])
    decreases |pools|
  {
    assert pools[..i + 1][..i] == pools[..i];
    if i + 1 < |pools| {
      var init := pools[..|pools| - 1];
      ItemsKept(init, i);
      assert init[..i + 1] == pools[..i + 1] && init[..i] == pools[..i];
    } else {
      assert pools[..i + 1] == pools;
    }
  }

  lemma OneMore(pools: seq<ShinyNodePool>, pool: ShinyNodePool)
    ensures Items(pools + [pool]) == Items(pools) + pool.items && Slots(pools + [pool]) == Slots(pools) + pool.slots
  {
    assert (pools + [pool])[..|pools + [pool]| - 1] == pools;
  }

  /** Links a new pool behind full ones. */
  method AppendPool(ghost pools: seq<ShinyNodePool>, last: ShinyNodePool, count: nat) returns (pool: ShinyNodePool)
    requires Chained(pools) && pools != [] && last == pools[|pools| - 1] && |last.items| == last.slots
    modifies last`nextPool
    ensures fresh(pool) && pool.slots == count && Chained(pools + [pool])
    ensures Items(pools + [pool]) == old(Items(pools)) && Slots(pools + [pool]) == Slots(pools) + count
  {
    pool := new ShinyNodePool(count);
    last.nextPool := pool;
    OneMore(pools, pool);
  }

  /** Takes an item, for which the last pool has room if the pools together have. */
  method NewItemOf(ghost pools: seq<ShinyNodePool>, last: ShinyNodePool, parent: ShinyNode, zone: ShinyZone,
                   cache: NodeCache)
    returns (node: ShinyNode)
    requires Chained(pools) && pools != [] && last == pools[|pools| - 1] && |Items(pools)| < Slots(pools)
    modifies last`items
    ensures Chained(pools) && Items(pools) == old(Items(pools)) + [node] && fresh(node)
    ensures node.zone == zone && node.parent == parent && node.entryLevel == parent.entryLevel + 1
            && node.cache == cache
    ensures node.nextSibling == node.firstChild == node.lastChild == null && node.childCount == 0
            && node.lastSelfTicks == 0
  {
    RoomInLast(pools);
    var init := pools[..|pools| - 1];
    assert last !in init;
    node := last.NewItem(parent, zone, cache);
    assert Items(init) == old(Items(init));
  }

  lemma NextOf(pools: seq<ShinyNodePool>, i: nat)
    requires Chained(pools) && i < |pools|
    ensures pools[i].nextPool == PoolFrom(pools, i + 1)
  {
  }

  /** Puts the caches that made the nodes of a pool and of those behind it back on the dummy node. */
  method DestroyPool(first: ShinyNodePool, ghost pools: seq<ShinyNodePool>, ghost i: nat, ghost caches: set<NodeCache>)
    requires Chained(pools) && i < |pools| && first == pools[i]
    requires forall j, k :: 0 <= j < |pools| && 0 <= k < |pools[j].items| ==> pools[j].items[k].cache in caches
    modifies caches
    ensures forall j, k :: i <= j < |pools| && 0 <= k < |pools[j].items| ==> pools[j].items[k].cache.node == null
    ensures forall c :: c in caches ==> c.node == null || c.node == old(c.node)
    decreases |pools| - i
  {
    hide Chained;
    NextOf(pools, i);
    ForgetItems(first, caches);
    if first.nextPool != null {
      DestroyPool(first.nextPool, pools, i + 1, caches);
    }
  }

  method ForgetItems(pool: ShinyNodePool, ghost caches: set<NodeCache>)
    requires forall k :: 0 <= k < |pool.items| ==> pool.items[k].cache in caches
    modifies caches
    ensures forall k :: 0 <= k < |pool.items| ==> pool.items[k].cache.node == null
    ensures forall c :: c in caches ==> c.node == null || c.node == old(c.node)
  {
    var k := 0;
    while k != |pool.items|
      invariant k <= |pool.items|
      invariant forall j :: 0 <= j < k ==> pool.items[j].cache.node == null
      invariant forall c :: c in caches ==> c.node == null || c.node == old(c.node)
      decreases |pool.items| - k
    {
      pool.items[k].cache.node := null;
      k := k + 1;
    }
  }

  lemma {:induction false} ItemIn(pools: seq<ShinyNodePool>, n: ShinyNode) returns (j: nat, k: nat)
    requires n in Items(pools)
    ensures j < |pools| && k < |pools[j].items| && pools[j].items[k] == n
  {
    var init, last := pools[..|pools| - 1], pools[|pools| - 1];
    if n in last.items {
      j := |pools| - 1;
      k :| k < |last.items| && last.items[k] == n;
    } else {
      j, k := ItemIn(init, n);
    }
  }

  lemma {:induction false} ItemOf(pools: seq<ShinyNodePool>, j: nat, k: nat)
    requires j < |pools| && k < |pools[j].items|
    ensures pools[j].items[k] in Items(pools)
  {
    if j + 1 < |pools| {
      ItemOf(pools[..|pools| - 1], j, k);
    }
  }
}
