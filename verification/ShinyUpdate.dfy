/** ShinyNode_updateTreeClean (3rdparty/Shiny/src/ShinyNode.c): the update of the profiler's tree in
    place, with an explicit stack, carries out the events of the tree in order. */
module ShinyUpdate {
  import opened ShinyTicks
  import opened ShinyNodes

  class ShinyNodeState {
    const node: ShinyNode
    const zoneUpdating: bool
    const prev: ShinyNodeState?

    constructor (node: ShinyNode, zoneUpdating: bool, prev: ShinyNodeState?)
      ensures this.node == node && this.zoneUpdating == zoneUpdating && this.prev == prev
    {
      this.node, this.zoneUpdating, this.prev := node, zoneUpdating, prev;
    }
  }

  type NodeTree = Tree<ShinyNode, ShinyZone>
  type TickState = State<ShinyNode, ShinyZone>

  // ---------- The tree in memory ----------

  function FirstOf(ts: seq<NodeTree>): ShinyNode? { if ts == [] then null else ts[0].node }

  /** The nodes point at each other as the tree says. */
  ghost predicate Shaped(t: NodeTree, next: ShinyNode?, nodes: set<ShinyNode>)
    reads nodes`nextSibling, nodes`firstChild
    decreases t
  {
    && t.node in nodes && t.node.zone == t.zone && t.node.nextSibling == next && t.node.firstChild == FirstOf(t.kids)
    && ShapedAll(t.kids, t.node, nodes)
  }

  ghost predicate ShapedAll(ts: seq<NodeTree>, parent: ShinyNode, nodes: set<ShinyNode>)
    reads nodes`nextSibling, nodes`firstChild
    decreases ts
  {
    ts != [] ==>
      && Shaped(ts[0], FirstOf(ts[1..]), nodes) && ts[0].node.parent == parent && ts[0].node.entryLevel != 0
      && ShapedAll(ts[1..], parent, nodes)
  }

  /** The nodes' fields hold what the state says. */
  ghost predicate NodesReflect(s: TickState, nodes: set<ShinyNode>)
    reads nodes`lastSelfTicks, nodes`selfTicks, nodes`childTicks
  {
    forall n :: n in nodes ==>
           Get(s.last, n) == n.lastSelfTicks && Get(s.self, n) == n.selfTicks
           && Get(s.child, n) == n.childTicks
  }

  /** And so do the zones' fields. */
  ghost predicate ZonesReflect(s: TickState, zones: set<ShinyZone>)
    reads zones`selfTicks, zones`childTicks, zones`state
  {
    forall z :: z in zones ==>
           Get(s.zself, z) == z.selfTicks && Get(s.zchild, z) == z.childTicks
           && (z in s.busy <==> z.state.Updating?)
  }

  ghost predicate ZonesKnown(nodes: set<ShinyNode>, zones: set<ShinyZone>)
  {
    forall n :: n in nodes ==> n.zone in zones
  }

  ghost predicate Reflects(s: TickState, nodes: set<ShinyNode>, zones: set<ShinyZone>)
    reads nodes, zones
  {
    NodesReflect(s, nodes) && ZonesReflect(s, zones) && ZonesKnown(nodes, zones)
  }

  /** The linked stack holds the frames. */
  ghost predicate StackIs(top: ShinyNodeState?, frames: seq<Frame<ShinyNode, ShinyZone>>, nodes: set<ShinyNode>)
    decreases frames
  {
    if frames == [] then top == null
    else
      && top != null && top.node == frames[0].node && top.zoneUpdating == frames[0].updating
      && top.node in nodes && top.node.zone == frames[0].zone
      && StackIs(top.prev, frames[1..], nodes)
  }

  /** Only the zone `z` has other values in the second state: those given. */
  ghost predicate ZoneSet(s: TickState, s': TickState, zones: set<ShinyZone>, zone: ShinyZone, selfTicks: Tick,
                          childTicks: Tick, updating: bool) {
    && (forall z :: z in zones && z != zone ==>
          Get(s'.zself, z) == Get(s.zself, z) && Get(s'.zchild, z) == Get(s.zchild, z)
              && (z in s'.busy <==> z in s.busy))
    && Get(s'.zself, zone) == selfTicks && Get(s'.zchild, zone) == childTicks && (zone in s'.busy <==> updating)
  }

  method SetZone(zone: ShinyZone, selfTicks: Tick, childTicks: Tick, state: ZoneState, ghost s: TickState,
                 ghost s': TickState, ghost zones: set<ShinyZone>)
    requires ZonesReflect(s, zones) && ZoneSet(s, s', zones, zone, selfTicks, childTicks, state.Updating?)
    modifies zone`selfTicks, zone`childTicks, zone`state
    ensures ZonesReflect(s', zones) && zone.state == state
  {
    zone.selfTicks := selfTicks;
    zone.childTicks := childTicks;
    zone.state := state;
  }

  method SetNode(node: ShinyNode, last: Tick, selfTicks: Tick, childTicks: Tick, ghost s: TickState,
                 ghost s': TickState, ghost nodes: set<ShinyNode>)
    requires NodesReflect(s, nodes)
    requires forall n :: n in nodes && n != node ==>
               Get(s'.last, n) == Get(s.last, n) && Get(s'.self, n) == Get(s.self, n)
                   && Get(s'.child, n) == Get(s.child, n)
    requires Get(s'.last, node) == last && Get(s'.self, node) == selfTicks && Get(s'.child, node) == childTicks
    modifies node`lastSelfTicks, node`selfTicks, node`childTicks
    ensures NodesReflect(s', nodes)
  {
    node.lastSelfTicks := last;
    node.selfTicks := selfTicks;
    node.childTicks := childTicks;
  }

  /** Puts a node on the stack and takes its ticks. */
  method Push(top: ShinyNodeState?, node: ShinyNode, ghost s: TickState, ghost nodes: set<ShinyNode>,
              ghost zones: set<ShinyZone>)
    returns (self: ShinyNodeState)
    requires Reflects(s, nodes, zones) && node in nodes && StackIs(top, s.stack, nodes)
    modifies nodes`lastSelfTicks, nodes`selfTicks, nodes`childTicks, zones`selfTicks, zones`childTicks, zones`state
    ensures Reflects(DoPush(s, node, node.zone), nodes, zones) && StackIs(self, DoPush(s, node, node.zone).stack, nodes)
    ensures forall z :: z in zones && z.state.Hidden? ==> old(z.state.Hidden?)
  {
    hide Reflects, Wrap;
    var zoneUpdating := TakeTicks(node, s, nodes, zones);
    self := new ShinyNodeState(node, zoneUpdating, top);
    assert DoPush(s, node, node.zone).stack[1..] == s.stack;
  }

  method TakeTicks(node: ShinyNode, ghost s: TickState, ghost nodes: set<ShinyNode>, ghost zones: set<ShinyZone>)
      returns (zoneUpdating: bool)
    requires Reflects(s, nodes, zones) && node in nodes
    modifies nodes`lastSelfTicks, nodes`selfTicks, nodes`childTicks, zones`selfTicks, zones`childTicks, zones`state
    ensures Reflects(DoPush(s, node, node.zone), nodes, zones) && (zoneUpdating <==> node.zone !in s.busy)
    ensures forall z :: z in zones && z.state.Hidden? ==> old(z.state.Hidden?)
  {
    hide Wrap;
    var zone := node.zone;
    ghost var s' := DoPush(s, node, zone);
    var ticks := node.lastSelfTicks;
    SetNode(node, 0, ticks, 0, s, s', nodes);
    zoneUpdating := zone.state != Updating;
    SetZone(zone, Wrap(zone.selfTicks + ticks),
            if zoneUpdating then zone.childTicks else Wrap(zone.childTicks - ticks), Updating, s, s', zones);
  }

  /** Charges the node on top of the stack to its zone and its parent. */
  method FinishAndGetNextClean(self: ShinyNodeState, ghost s: TickState, ghost nodes: set<ShinyNode>,
                               ghost zones: set<ShinyZone>)
    returns (next: ShinyNode?)
    requires Reflects(s, nodes, zones) && s.stack != [] && StackIs(self, s.stack, nodes)
    requires self.node.IsRoot() <==> |s.stack| == 1
    requires |s.stack| > 1 ==> self.node.parent == s.stack[1].node && s.stack[1].node in nodes
    modifies nodes`lastSelfTicks, nodes`selfTicks, nodes`childTicks, zones`selfTicks, zones`childTicks, zones`state
    ensures Reflects(DoFinish(s), nodes, zones) && next == self.node.nextSibling
    ensures forall z :: z in zones && z.state.Hidden? ==> old(z.state.Hidden?)
  {
    ChargeZone(self, s, nodes, zones);
    ChargeParent(self.node, s, nodes);
    next := self.node.nextSibling;
  }

  method ChargeZone(self: ShinyNodeState, ghost s: TickState, ghost nodes: set<ShinyNode>, ghost zones: set<ShinyZone>)
    requires Reflects(s, nodes, zones) && s.stack != [] && StackIs(self, s.stack, nodes)
    modifies zones`selfTicks, zones`childTicks, zones`state
    ensures ZonesReflect(DoFinish(s), zones)
    ensures forall z :: z in zones && z.state.Hidden? ==> old(z.state.Hidden?)
  {
    hide Wrap;
    var zone := self.node.zone;
    if self.zoneUpdating {
      SetZone(zone, zone.selfTicks, Wrap(zone.childTicks + self.node.childTicks), Initialized, s, DoFinish(s), zones);
    }
  }

  method ChargeParent(node: ShinyNode, ghost s: TickState, ghost nodes: set<ShinyNode>)
    requires NodesReflect(s, nodes) && s.stack != [] && node == s.stack[0].node && node in nodes
    requires node.IsRoot() <==> |s.stack| == 1
    requires |s.stack| > 1 ==> node.parent == s.stack[1].node && s.stack[1].node in nodes
    modifies nodes`lastSelfTicks, nodes`selfTicks, nodes`childTicks
    ensures NodesReflect(DoFinish(s), nodes)
  {
    hide Wrap;
    if !node.IsRoot() {
      var p := node.parent;
      SetNode(p, p.lastSelfTicks, p.selfTicks, Wrap(p.childTicks + (node.selfTicks + node.childTicks)), s,
              DoFinish(s), nodes);
    }
  }

  // ---------- The traversal ----------

  type Frames = seq<Frame<ShinyNode, ShinyZone>>

  /** Where the nodes on the stack stand: `rests` are their siblings still to come. */
  ghost predicate Placed(frames: Frames, rests: seq<seq<NodeTree>>, nodes: set<ShinyNode>)
    reads nodes`nextSibling, nodes`firstChild
    decreases frames
  {
    if frames == [] then rests == []
    else
      && rests != [] && frames[0].node in nodes && frames[0].node.nextSibling == FirstOf(rests[0])
      && (if |frames| == 1 then rests[0] == [] && frames[0].node.entryLevel == 0
          else
            && frames[0].node.entryLevel != 0 && frames[0].node.parent == frames[1].node
            && ShapedAll(rests[0], frames[1].node, nodes))
      && Placed(frames[1..], rests[1..], nodes)
  }

  /** The trees to be visited next, below the node on top of the stack; at first, the whole tree. */
  ghost predicate Upcoming(frames: Frames, ks: seq<NodeTree>, nodes: set<ShinyNode>)
    reads nodes`nextSibling, nodes`firstChild
  {
    if frames == [] then |ks| == 1 && Shaped(ks[0], null, nodes) && ks[0].node.entryLevel == 0
    else ShapedAll(ks, frames[0].node, nodes)
  }

  function Pending(rests: seq<seq<NodeTree>>): seq<Event<ShinyNode, ShinyZone>> {
    if rests == [] then [] else [Finish] + DfsAll(rests[0]) + Pending(rests[1..])
  }

  function ToDo(ks: seq<NodeTree>, rests: seq<seq<NodeTree>>): seq<Event<ShinyNode, ShinyZone>> {
    DfsAll(ks) + Pending(rests)
  }

  /** Pushing the next node leaves its children, and then its siblings, to do. */
  lemma PushedToDo(s: TickState, ks: seq<NodeTree>, rests: seq<seq<NodeTree>>)
    requires ks != []
    ensures var todo := ToDo(ks[0].kids, [ks[1..]] + rests);
            && Run(s, ToDo(ks, rests)) == Run(DoPush(s, ks[0].node, ks[0].zone), todo) && |todo| < |ToDo(ks, rests)|
  {
    hide Run;
    var k := ks[0];
    var push: Event<ShinyNode, ShinyZone>, finish: Event<ShinyNode, ShinyZone> :=
        ShinyTicks.Push(k.node, k.zone), Finish;
    assert ([ks[1..]] + rests)[1..] == rests;
    var kids, tail, below := DfsAll(k.kids), DfsAll(ks[1..]), Pending(rests);
    assert DfsAll(ks) == [push] + kids + [finish] + tail;
    assert Pending([ks[1..]] + rests) == [finish] + tail + below;
    assert [push] + kids + [finish] + tail + below == [push] + (kids + ([finish] + tail + below));
    assert ToDo(ks, rests) == [push] + ToDo(k.kids, [ks[1..]] + rests);
    RunJoins(s, [push], ToDo(k.kids, [ks[1..]] + rests));
    RunOne(s, push);
  }

  lemma FinishedToDo(s: TickState, rests: seq<seq<NodeTree>>)
    requires rests != [] && s.stack != []
    ensures var todo := ToDo(rests[0], rests[1..]);
            && Run(s, ToDo([], rests)) == Run(DoFinish(s), todo) && |todo| < |ToDo([], rests)|
  {
    hide Run;
    var finish: Event<ShinyNode, ShinyZone> := Finish;
    assert ToDo([], rests) == [finish] + ToDo(rests[0], rests[1..]);
    RunJoins(s, [finish], ToDo(rests[0], rests[1..]));
    RunOne(s, finish);
  }

  lemma NextToPush(frames: Frames, ks: seq<NodeTree>, rests: seq<seq<NodeTree>>, nodes: set<ShinyNode>, updating: bool)
    requires Placed(frames, rests, nodes) && Upcoming(frames, ks, nodes) && ks != []
    ensures var k := ks[0];
            && k.node in nodes && k.node.zone == k.zone && k.node.firstChild == FirstOf(k.kids)
            && Placed([Frame(k.node, k.zone, updating)] + frames, [ks[1..]] + rests, nodes)
            && Upcoming([Frame(k.node, k.zone, updating)] + frames, k.kids, nodes)
  {
    var k := ks[0];
    var frames', rests' := [Frame(k.node, k.zone, updating)] + frames, [ks[1..]] + rests;
    assert frames'[1..] == frames && rests'[1..] == rests;
    assert Shaped(k, FirstOf(ks[1..]), nodes);
  }

  lemma NextAfterFinish(frames: Frames, rests: seq<seq<NodeTree>>, nodes: set<ShinyNode>)
    requires Placed(frames, rests, nodes) && frames != []
    ensures rests != [] && frames[0].node.nextSibling == FirstOf(rests[0])
            && (frames[0].node.IsRoot() <==> |frames| == 1)
    ensures |frames| > 1 ==> frames[0].node.parent == frames[1].node && frames[1].node in nodes
    ensures Placed(frames[1..], rests[1..], nodes) && (|frames| == 1 ==> rests[0] == [])
    ensures |frames| > 1 ==> Upcoming(frames[1..], rests[0], nodes)
  {
  }

  /** Pushes the next node, its first child, and so on down to a leaf. */
  method Descend(top0: ShinyNodeState?, node0: ShinyNode, ghost s0: TickState, ghost ks0: seq<NodeTree>,
                 ghost rests0: seq<seq<NodeTree>>, ghost nodes: set<ShinyNode>, ghost zones: set<ShinyZone>)
    returns (top: ShinyNodeState?, ghost s: TickState, ghost rests: seq<seq<NodeTree>>)
    requires node0 == FirstOf(ks0) && Reflects(s0, nodes, zones) && StackIs(top0, s0.stack, nodes)
    requires Placed(s0.stack, rests0, nodes) && Upcoming(s0.stack, ks0, nodes)
    modifies nodes`lastSelfTicks, nodes`selfTicks, nodes`childTicks, zones`selfTicks, zones`childTicks, zones`state
    ensures Reflects(s, nodes, zones) && StackIs(top, s.stack, nodes) && Placed(s.stack, rests, nodes) && s.stack != []
    ensures Run(s, ToDo([], rests)) == Run(s0, ToDo(ks0, rests0)) && |ToDo([], rests)| < |ToDo(ks0, rests0)|
    ensures forall z :: z in zones && z.state.Hidden? ==> old(z.state.Hidden?)
  {
    hide Run, Reflects, ToDo, Upcoming, Placed, StackIs;
    ghost var ks := ks0;
    var node: ShinyNode? := node0;
    top, s, rests := top0, s0, rests0;
    while node != null
      invariant node == FirstOf(ks) && Reflects(s, nodes, zones) && StackIs(top, s.stack, nodes)
      invariant Placed(s.stack, rests, nodes) && Upcoming(s.stack, ks, nodes) && (node == null ==> s.stack != [])
      invariant Run(s, ToDo(ks, rests)) == Run(s0, ToDo(ks0, rests0))
      invariant |ToDo(ks, rests)| <= |ToDo(ks0, rests0)| && (node == null ==> |ToDo(ks, rests)| < |ToDo(ks0, rests0)|)
      invariant forall z :: z in zones && z.state.Hidden? ==> old(z.state.Hidden?)
      decreases |ToDo(ks, rests)|
    {
      PushedToDo(s, ks, rests);
      NextToPush(s.stack, ks, rests, nodes, ks[0].zone !in s.busy);
      top := Push(top, node, s, nodes, zones);
      s, rests, ks := DoPush(s, ks[0].node, ks[0].zone), [ks[1..]] + rests, ks[0].kids;
      node := node.firstChild;
    }
    assert ks == [];
  }

  /** Finishes nodes up to one that has another sibling, or to the root. */
  method Ascend(top0: ShinyNodeState?, ghost s0: TickState, ghost rests0: seq<seq<NodeTree>>,
                ghost nodes: set<ShinyNode>, ghost zones: set<ShinyZone>)
    returns (node: ShinyNode?, top: ShinyNodeState?, ghost s: TickState, ghost ks: seq<NodeTree>,
             ghost rests: seq<seq<NodeTree>>)
    requires Reflects(s0, nodes, zones) && StackIs(top0, s0.stack, nodes) && Placed(s0.stack, rests0, nodes)
             && s0.stack != []
    modifies nodes`lastSelfTicks, nodes`selfTicks, nodes`childTicks, zones`selfTicks, zones`childTicks, zones`state
    ensures Reflects(s, nodes, zones) && StackIs(top, s.stack, nodes) && Placed(s.stack, rests, nodes)
            && node == FirstOf(ks)
    ensures if node == null then s.stack == [] && rests == [] else Upcoming(s.stack, ks, nodes)
    ensures Run(s, ToDo(ks, rests)) == Run(s0, ToDo([], rests0)) && |ToDo(ks, rests)| < |ToDo([], rests0)|
    ensures forall z :: z in zones && z.state.Hidden? ==> old(z.state.Hidden?)
  {
    hide Run, Reflects, ToDo, Upcoming, Placed, StackIs;
    node, top, s, ks, rests := null, top0, s0, [], rests0;
    while true
      invariant ks == [] && Reflects(s, nodes, zones) && StackIs(top, s.stack, nodes) && Placed(s.stack, rests, nodes)
                && s.stack != []
      invariant Run(s, ToDo([], rests)) == Run(s0, ToDo([], rests0)) && |ToDo([], rests)| <= |ToDo([], rests0)|
      invariant forall z :: z in zones && z.state.Hidden? ==> old(z.state.Hidden?)
      decreases |s.stack|
    {
      TopOf(top, s.stack, nodes);
      NextAfterFinish(s.stack, rests, nodes);
      FinishedToDo(s, rests);
      node := FinishAndGetNextClean(top, s, nodes, zones);
      top := top.prev;
      s := DoFinish(s);
      if node != null {
        ks, rests := rests[0], rests[1..];
        return;
      }
      assert rests[0] == [];
      rests := rests[1..];
      if top == null {
        EmptyStack(top, s.stack, rests, nodes);
        return;
      }
      EmptyStack(top, s.stack, rests, nodes);
    }
  }

  lemma TopOf(top: ShinyNodeState?, frames: Frames, nodes: set<ShinyNode>)
    requires StackIs(top, frames, nodes) && frames != []
    ensures top != null && top.node == frames[0].node && StackIs(top.prev, frames[1..], nodes)
  {
  }

  lemma EmptyStack(top: ShinyNodeState?, frames: Frames, rests: seq<seq<NodeTree>>, nodes: set<ShinyNode>)
    requires StackIs(top, frames, nodes) && Placed(frames, rests, nodes)
    ensures top == null <==> frames == []
    ensures frames == [] ==> rests == []
  {
  }

  lemma Starts(t: NodeTree, s: TickState, nodes: set<ShinyNode>)
    requires Shaped(t, null, nodes) && t.node.IsRoot() && s.stack == []
    ensures StackIs(null, s.stack, nodes) && Placed(s.stack, [], nodes) && Upcoming(s.stack, [t], nodes)
    ensures ToDo([t], []) == Dfs(t)
  {
    assert [t][1..] == [];
    assert DfsAll([t]) == Dfs(t) + DfsAll([]) == Dfs(t);
  }

  lemma NothingToDo(s: TickState)
    ensures Run(s, ToDo([], [])) == s
  {
  }

  /** One round: down to a leaf, then up to the next sibling there is. */
  method UpdateTreeClean(first: ShinyNode, ghost t: NodeTree, ghost s0: TickState, ghost nodes: set<ShinyNode>,
                         ghost zones: set<ShinyZone>)
    requires Reflects(s0, nodes, zones) && s0.stack == [] && t.node == first && Shaped(t, null, nodes) && first.IsRoot()
    modifies nodes`lastSelfTicks, nodes`selfTicks, nodes`childTicks, zones`selfTicks, zones`childTicks, zones`state
    ensures Reflects(Run(s0, Dfs(t)), nodes, zones)
    ensures forall z :: z in zones && z.state.Hidden? ==> old(z.state.Hidden?)
  {
    hide Run, Dfs, DfsAll, Reflects, DoPush, DoFinish, Pending, ToDo, Upcoming, Placed, Shaped;
    var top: ShinyNodeState? := null;
    var node: ShinyNode? := first;
    ghost var s, ks, rests: seq<seq<NodeTree>> := s0, [t], [];
    Starts(t, s0, nodes);
    while node != null
      invariant node == FirstOf(ks) && (node == null ==> s.stack == [] && ks == [] && rests == [])
      invariant Reflects(s, nodes, zones) && StackIs(top, s.stack, nodes) && Placed(s.stack, rests, nodes)
      invariant node != null ==> Upcoming(s.stack, ks, nodes)
      invariant Run(s, ToDo(ks, rests)) == Run(s0, Dfs(t))
      invariant forall z :: z in zones && z.state.Hidden? ==> old(z.state.Hidden?)
      decreases |ToDo(ks, rests)|
    {
      top, s, rests := Descend(top, node, s, ks, rests, nodes, zones);
      node, top, s, ks, rests := Ascend(top, s, rests, nodes, zones);
    }
    NothingToDo(s);
  }

  // ---------- A whole update ----------

  /** A null-terminated chain of zones. */
  ghost predicate ZoneChain(first: ShinyZone?, chain: seq<ShinyZone>)
    reads chain`next
    decreases chain
  {
    if chain == [] then first == null else first == chain[0] && ZoneChain(chain[0].next, chain[1..])
  }

  method PreUpdateChain(first: ShinyZone?, ghost chain: seq<ShinyZone>)
    requires ZoneChain(first, chain)
    modifies chain`selfTicks, chain`childTicks
    ensures forall z :: z in chain ==> z.selfTicks == z.childTicks == 0
  {
    var zone := first;
    ghost var i := 0;
    while zone != null
      invariant i <= |chain| && ZoneChain(zone, chain[i..])
      invariant forall j :: 0 <= j < i ==> chain[j].selfTicks == chain[j].childTicks == 0
      decreases |chain| - i
    {
      zone.selfTicks, zone.childTicks := 0, 0;
      assert chain[i..][1..] == chain[i + 1..];
      zone := zone.next;
      i := i + 1;
    }
  }

  /** The state the fields are in, with nothing on the stack. */
  ghost function Snapshot(nodes: set<ShinyNode>, zones: set<ShinyZone>): (s: TickState)
    reads nodes, zones
    ensures s.stack == [] && NodesReflect(s, nodes) && ZonesReflect(s, zones) && s.last == LastTicks(nodes)
    ensures (forall z :: z in zones ==> !z.state.Updating?) ==> s.busy == {}
  {
    State(LastTicks(nodes), map n | n in nodes :: n.selfTicks, map n | n in nodes :: n.childTicks,
          map z | z in zones :: z.selfTicks, map z | z in zones :: z.childTicks,
          set z | z in zones && z.state.Updating?, [])
  }

  /** Every zone is charged exactly the totals of its outermost nodes, the root every tick, and every
      node its own ticks and its children's totals. */
  ghost predicate Charged(s: TickState, last: map<ShinyNode, int>, t: NodeTree, zones: set<ShinyZone>) {
    && (forall z :: z in zones ==> Wrap(Get(s.zself, z) + Get(s.zchild, z)) == Wrap(Outermost(last, z, t)))
    && Wrap(Get(s.self, t.node) + Get(s.child, t.node)) == Wrap(Total(last, t))
    && Settled(s, last, t)
  }

  lemma RunCharges(s: TickState, t: NodeTree, zones: set<ShinyZone>)
    requires Distinct(t) && s.stack == [] && s.busy == {}
    requires forall z :: z in zones ==> Get(s.zself, z) == Get(s.zchild, z) == 0
    ensures Charged(Run(s, Dfs(t)), s.last, t, zones)
  {
    hide Run, Dfs, Wrap, Outermost, Total, Settled, Distinct;
    forall z | z in zones
      ensures Wrap(Get(Run(s, Dfs(t)).zself, z) + Get(Run(s, Dfs(t)).zchild, z)) == Wrap(Outermost(s.last, z, t))
    {
      ZoneTotalIsOutermost(s, t, z);
    }
    RootTotalIsAll(s, t);
    UpdateSettles(s, t);
  }

  ghost function LastTicks(nodes: set<ShinyNode>): map<ShinyNode, int>
    reads nodes`lastSelfTicks
  {
    map n | n in nodes :: n.lastSelfTicks
  }

  lemma NoneUpdating(s: TickState, nodes: set<ShinyNode>, zones: set<ShinyZone>)
    requires Reflects(s, nodes, zones) && s.busy == {}
    ensures forall z :: z in zones ==> !z.state.Updating?
  {
  }

  lemma SnapshotReflects(s: TickState, nodes: set<ShinyNode>, zones: set<ShinyZone>)
    requires NodesReflect(s, nodes) && ZonesReflect(s, zones) && forall n :: n in nodes ==> n.zone in zones
    ensures Reflects(s, nodes, zones)
  {
  }

  lemma BusyRestored(s: TickState, t: NodeTree)
    ensures Run(s, Dfs(t)).busy == s.busy
  {
    StackRestored(s, t);
  }

  /** An update, from fields to fields. */
  method UpdateClean(root: ShinyNode, firstZone: ShinyZone?, ghost t: NodeTree, ghost nodes: set<ShinyNode>,
                     ghost chain: seq<ShinyZone>)
    returns (ghost s: TickState)
    requires ZoneChain(firstZone, chain) && t.node == root && root.IsRoot() && Shaped(t, null, nodes) && Distinct(t)
    requires (forall n :: n in nodes ==> n.zone in chain)
             && (forall i :: 0 <= i < |chain| ==> !chain[i].state.Updating?)
    modifies nodes`lastSelfTicks, nodes`selfTicks, nodes`childTicks, chain`selfTicks, chain`childTicks, chain`state
    ensures var zones := set z | z in chain; Reflects(s, nodes, zones) && Charged(s, old(LastTicks(nodes)), t, zones)
    ensures forall z :: z in chain ==> !z.state.Updating? && (z.state.Hidden? ==> old(z.state.Hidden?))
  {
    hide Shaped, Run, Dfs, Charged, Distinct, Reflects, ZoneChain;
    ghost var zones := set z | z in chain;
    PreUpdateChain(firstZone, chain);
    s := Snapshot(nodes, zones);
    SnapshotReflects(s, nodes, zones);
    RunCharges(s, t, zones);
    BusyRestored(s, t);
    UpdateTreeClean(root, t, s, nodes, zones);
    s := Run(s, Dfs(t));
    NoneUpdating(s, nodes, zones);
  }
}
