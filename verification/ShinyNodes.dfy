/** The records of the Shiny profiler (3rdparty/Shiny/include/ShinyNode.h and ShinyZone.h). */
module ShinyNodes {
  import opened ShinyTicks

  type Tick = x: nat | x < TICK_RANGE

  datatype ZoneState = Hidden | Initialized | Updating

  /** `avg` is the average of the zone's own ticks, by which zones are sorted. */
  class ShinyZone {
    var next: ShinyZone?
    var state: ZoneState
    var selfTicks: Tick
    var childTicks: Tick
    var avg: int

    constructor ()
      ensures next == null && state == Hidden && selfTicks == childTicks == avg == 0
    {
      next := null;
      state, selfTicks, childTicks, avg := Hidden, 0, 0, 0;
    }
  }

  /** What a call site remembers: the node it entered last, or null for the dummy node. */
  class NodeCache {
    var node: ShinyNode?

    constructor ()
      ensures node == null
    {
      node := null;
    }
  }

  /** The zone, the parent, the level and the cache are set once, before the node can be found. */
  class ShinyNode {
    var lastSelfTicks: Tick
    const zone: ShinyZone
    const parent: ShinyNode
    var nextSibling: ShinyNode?
    var firstChild: ShinyNode?
    var lastChild: ShinyNode?
    var childCount: nat
    const entryLevel: nat
    const cache: NodeCache?
    var selfTicks: Tick
    var childTicks: Tick

    /** The root is its own parent. */
    constructor Root(zone: ShinyZone)
      ensures this.zone == zone && parent == this && entryLevel == 0 && cache == null
      ensures nextSibling == firstChild == lastChild == null && childCount == 0
      ensures lastSelfTicks == selfTicks == childTicks == 0
    {
      this.zone, parent, entryLevel, cache := zone, this, 0, null;
      nextSibling, firstChild, lastChild, childCount := null, null, null, 0;
      lastSelfTicks, selfTicks, childTicks := 0, 0, 0;
    }

    /** An item of a pool, whose memory is zero, with what `ShinyNode_init` writes into it. */
    constructor Below(parent: ShinyNode, zone: ShinyZone, cache: NodeCache)
      ensures this.zone == zone && this.parent == parent && entryLevel == parent.entryLevel + 1 && this.cache == cache
      ensures nextSibling == firstChild == lastChild == null && childCount == 0
      ensures lastSelfTicks == selfTicks == childTicks == 0
    {
      this.zone, this.parent, this.entryLevel, this.cache := zone, parent, parent.entryLevel + 1, cache;
      nextSibling, firstChild, lastChild, childCount := null, null, null, 0;
      lastSelfTicks, selfTicks, childTicks := 0, 0, 0;
    }

    predicate IsRoot() {
      entryLevel == 0
    }

    /** The children are `ks`, linked in this order. */
    ghost predicate HasChildren(ks: seq<ShinyNode>)
      reads `firstChild, `lastChild, `childCount, ks`nextSibling
    {
      && firstChild == ChildAt(ks, 0) && childCount == |ks| && (ks != [] ==> lastChild == ks[|ks| - 1])
      && forall i :: 0 <= i < |ks| ==> ks[i].nextSibling == ChildAt(ks, i + 1)
    }

    /** Puts a child behind the others. */
    method AddChild(child: ShinyNode, ghost ks: seq<ShinyNode>)
      requires HasChildren(ks) && child !in ks && child.nextSibling == null
      requires forall i, j :: 0 <= i < j < |ks| ==> ks[i] != ks[j]
      modifies `childCount, `firstChild, `lastChild, (if ks == [] then {} else {ks[|ks| - 1]})`nextSibling
      ensures HasChildren(ks + [child])
    {
      childCount := childCount + 1;
      if childCount > 1 {
        lastChild.nextSibling := child;
        lastChild := child;
      } else {
        lastChild := child;
        firstChild := child;
      }
    }
  }

  function ChildAt(ks: seq<ShinyNode>, i: nat): ShinyNode? { if i < |ks| then ks[i] else null }
}
