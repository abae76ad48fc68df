/** What a tree update of the Shiny profiler charges to nodes and zones
    (3rdparty/Shiny/src/ShinyNodeState.c), as a run of events over a tree. */
module ShinyTicks {
  import opened Probing

  /** Ticks are unsigned 64-bit numbers that wrap around. */
  const TICK_RANGE: nat := 0x1_0000_0000_0000_0000

  function Wrap(x: int): (w: nat)
    ensures w < TICK_RANGE
  {
    x % TICK_RANGE
  }

  /** Nodes and zones are known by their place in memory. */
  datatype Tree<N, Z> = Fork(node: N, zone: Z, kids: seq<Tree<N, Z>>)

  datatype Event<N, Z> = Push(node: N, zone: Z) | Finish

  datatype Frame<N, Z> = Frame(node: N, zone: Z, updating: bool)

  /** The fields an update changes, and the stack. */
  datatype State<N, Z> = State(last: map<N, int>, self: map<N, int>, child: map<N, int>,
                               zself: map<Z, int>, zchild: map<Z, int>, busy: set<Z>, stack: seq<Frame<N, Z>>)

  function Get<K>(m: map<K, int>, k: K): int { if k in m then m[k] else 0 }

  function DoPush<N, Z>(s: State<N, Z>, n: N, z: Z): State<N, Z> {
    var ticks := Get(s.last, n);
    var updating := z !in s.busy;
    State(s.last[n := 0], s.self[n := ticks], s.child[n := 0],
          s.zself[z := Wrap(Get(s.zself, z) + ticks)],
          if updating then s.zchild else s.zchild[z := Wrap(Get(s.zchild, z) - ticks)],
          s.busy + {z}, [Frame(n, z, updating)] + s.stack)
  }

  function DoFinish<N, Z>(s: State<N, Z>): State<N, Z>
    requires s.stack != []
  {
    var f := s.stack[0];
    var c := Get(s.child, f.node);
    var total := Get(s.self, f.node) + c;
    State(s.last, s.self,
          if |s.stack| == 1 then s.child else s.child[s.stack[1].node := Wrap(Get(s.child, s.stack[1].node) + total)],
          s.zself,
          if f.updating then s.zchild[f.zone := Wrap(Get(s.zchild, f.zone) + c)] else s.zchild,
          if f.updating then s.busy - {f.zone} else s.busy, s.stack[1..])
  }

  function Step<N, Z>(s: State<N, Z>, e: Event<N, Z>): State<N, Z> {
    if e.Push? then DoPush(s, e.node, e.zone) else if s.stack == [] then s else DoFinish(s)
  }

  function Run<N, Z>(s: State<N, Z>, events: seq<Event<N, Z>>): State<N, Z> {
    if events == [] then s else Step(Run(s, events[..|events| - 1]), events[|events| - 1])
  }

  // ---------- The order of the events ----------

  function Dfs<N, Z>(t: Tree<N, Z>): seq<Event<N, Z>> {
    [Push(t.node, t.zone)] + DfsAll(t.kids) + [Finish]
  }

  function DfsAll<N, Z>(ts: seq<Tree<N, Z>>): seq<Event<N, Z>> {
    if ts == [] then [] else Dfs(ts[0]) + DfsAll(ts[1..])
  }

  lemma {:induction false} RunJoins<N, Z>(s: State<N, Z>, a: seq<Event<N, Z>>, b: seq<Event<N, Z>>)
    ensures Run(s, a + b) == Run(Run(s, a), b)
  {
    if b == [] {
      assert a + b == a;
    } else {
      RunJoins(s, a, b[..|b| - 1]);
      assert (a + b)[..|a + b| - 1] == a + b[..|b| - 1];
    }
  }

  lemma RunOne<N, Z>(s: State<N, Z>, e: Event<N, Z>)
    ensures Run(s, [e]) == Step(s, e)
  {
    assert [e][..0] == [] && Run(s, []) == s;
  }

  // ---------- What should be charged ----------

  ghost function Nodes<N, Z>(t: Tree<N, Z>): set<N> {
    {t.node} + NodesAll(t.kids)
  }

  ghost function NodesAll<N, Z>(ts: seq<Tree<N, Z>>): set<N> {
    if ts == [] then {} else Nodes(ts[0]) + NodesAll(ts[1..])
  }

  /** No node is in two places. */
  ghost predicate Distinct<N, Z>(t: Tree<N, Z>) {
    t.node !in NodesAll(t.kids) && DistinctAll(t.kids)
  }

  ghost predicate DistinctAll<N, Z>(ts: seq<Tree<N, Z>>) {
    ts != [] ==> Distinct(ts[0]) && DistinctAll(ts[1..]) && Nodes(ts[0]) !! NodesAll(ts[1..])
  }

  /** All ticks recorded in a tree. */
  function Total<N, Z>(l: map<N, int>, t: Tree<N, Z>): int {
    Get(l, t.node) + TotalAll(l, t.kids)
  }

  function TotalAll<N, Z>(l: map<N, int>, ts: seq<Tree<N, Z>>): int {
    if ts == [] then 0 else Total(l, ts[0]) + TotalAll(l, ts[1..])
  }

  /** The ticks recorded in the nodes of a zone themselves. */
  function Own<N, Z(==)>(l: map<N, int>, z: Z, t: Tree<N, Z>): int {
    (if t.zone == z then Get(l, t.node) else 0) + OwnAll(l, z, t.kids)
  }

  function OwnAll<N, Z(==)>(l: map<N, int>, z: Z, ts: seq<Tree<N, Z>>): int {
    if ts == [] then 0 else Own(l, z, ts[0]) + OwnAll(l, z, ts[1..])
  }

  /** The totals of a zone's outermost nodes: those below no other node of the zone. */
  function Outermost<N, Z(==)>(l: map<N, int>, z: Z, t: Tree<N, Z>): int {
    if t.zone == z then Total(l, t) else OutermostAll(l, z, t.kids)
  }

  function OutermostAll<N, Z(==)>(l: map<N, int>, z: Z, ts: seq<Tree<N, Z>>): int {
    if ts == [] then 0 else Outermost(l, z, ts[0]) + OutermostAll(l, z, ts[1..])
  }

  // ---------- What is charged ----------

  lemma WrapAdds(x: int, y: int)
    ensures Wrap(Wrap(x) + y) == Wrap(x + y) && Wrap(y + Wrap(x)) == Wrap(x + y)
  {
    var q := x / TICK_RANGE;
    assert x + y == TICK_RANGE * (q + (Wrap(x) + y) / TICK_RANGE) + Wrap(Wrap(x) + y);
    DivisionIsUnique(x + y, TICK_RANGE, q + (Wrap(x) + y) / TICK_RANGE, Wrap(Wrap(x) + y));
  }

  /** The state before the node itself is finished. */
  function Mid<N, Z>(s: State<N, Z>, t: Tree<N, Z>): State<N, Z> {
    Run(DoPush(s, t.node, t.zone), DfsAll(t.kids))
  }

  lemma MidIsRun<N, Z>(s: State<N, Z>, t: Tree<N, Z>)
    ensures Mid(s, t) == Run(DoPush(s, t.node, t.zone), DfsAll(t.kids))
  {
  }

  lemma {:induction false} DfsRuns<N, Z>(s: State<N, Z>, t: Tree<N, Z>)
    ensures Run(s, Dfs(t)) == Step(Mid(s, t), Finish)
  {
    var push, kids := [Push(t.node, t.zone)], DfsAll(t.kids);
    RunJoins(s, push + kids, [Finish]);
    RunJoins(s, push, kids);
    RunOne(s, Push(t.node, t.zone));
    RunOne(Run(s, push + kids), Finish);
  }

  lemma DfsAllRuns<N, Z>(s: State<N, Z>, ts: seq<Tree<N, Z>>)
    requires ts != []
    ensures Run(s, DfsAll(ts)) == Run(Run(s, Dfs(ts[0])), DfsAll(ts[1..]))
  {
    RunJoins(s, Dfs(ts[0]), DfsAll(ts[1..]));
  }

  /** A finished subtree leaves the stack and the zones being updated as they were. */
  lemma {:induction false} StackRestored<N, Z>(s: State<N, Z>, t: Tree<N, Z>)
    ensures Run(s, Dfs(t)).stack == s.stack && Run(s, Dfs(t)).busy == s.busy
    ensures Mid(s, t).stack == DoPush(s, t.node, t.zone).stack && Mid(s, t).busy == s.busy + {t.zone}
    ensures Run(s, Dfs(t)) == DoFinish(Mid(s, t))
    decreases t
  {
    DfsRuns(s, t);
    StackRestoredAll(DoPush(s, t.node, t.zone), t.kids);
    assert DoPush(s, t.node, t.zone).stack[1..] == s.stack;
  }

  lemma {:induction false} StackRestoredAll<N, Z>(s: State<N, Z>, ts: seq<Tree<N, Z>>)
    ensures Run(s, DfsAll(ts)).stack == s.stack && Run(s, DfsAll(ts)).busy == s.busy
    decreases ts
  {
    if ts != [] {
      DfsAllRuns(s, ts);
      StackRestored(s, ts[0]);
      StackRestoredAll(Run(s, Dfs(ts[0])), ts[1..]);
    }
  }

  /** Nodes outside are left alone, but for the children's ticks of the node on top of the stack. */
  lemma {:induction false} OthersAlone<N, Z>(s: State<N, Z>, t: Tree<N, Z>, n: N)
    requires n !in Nodes(t)
    ensures var s' := Run(s, Dfs(t)); Get(s'.last, n) == Get(s.last, n) && Get(s'.self, n) == Get(s.self, n)
    ensures s.stack == [] || s.stack[0].node != n ==> Get(Run(s, Dfs(t)).child, n) == Get(s.child, n)
    decreases t
  {
    StackRestored(s, t);
    OthersAloneAll(DoPush(s, t.node, t.zone), t.kids, n);
  }

  lemma {:induction false} OthersAloneAll<N, Z>(s: State<N, Z>, ts: seq<Tree<N, Z>>, n: N)
    requires n !in NodesAll(ts)
    ensures var s' := Run(s, DfsAll(ts)); Get(s'.last, n) == Get(s.last, n) && Get(s'.self, n) == Get(s.self, n)
    ensures s.stack == [] || s.stack[0].node != n ==> Get(Run(s, DfsAll(ts)).child, n) == Get(s.child, n)
    decreases ts
  {
    if ts != [] {
      DfsAllRuns(s, ts);
      OthersAlone(s, ts[0], n);
      StackRestored(s, ts[0]);
      OthersAloneAll(Run(s, Dfs(ts[0])), ts[1..], n);
    }
  }

  /** The ticks still to be taken in a tree are those of `l`. */
  ghost predicate Holds<N, Z>(s: State<N, Z>, l: map<N, int>, t: Tree<N, Z>) {
    forall n :: n in Nodes(t) ==> Get(s.last, n) == Get(l, n)
  }

  ghost predicate HoldsAll<N, Z>(s: State<N, Z>, l: map<N, int>, ts: seq<Tree<N, Z>>) {
    forall n :: n in NodesAll(ts) ==> Get(s.last, n) == Get(l, n)
  }

  lemma HoldsBelow<N, Z>(s: State<N, Z>, l: map<N, int>, t: Tree<N, Z>)
    requires Holds(s, l, t) && Distinct(t)
    ensures HoldsAll(DoPush(s, t.node, t.zone), l, t.kids) && Get(s.last, t.node) == Get(l, t.node)
  {
  }

  lemma HoldsNext<N, Z>(s: State<N, Z>, l: map<N, int>, ts: seq<Tree<N, Z>>)
    requires ts != [] && HoldsAll(s, l, ts) && DistinctAll(ts)
    ensures Holds(s, l, ts[0]) && HoldsAll(Run(s, Dfs(ts[0])), l, ts[1..])
  {
    forall n | n in NodesAll(ts[1..]) ensures Get(Run(s, Dfs(ts[0])).last, n) == Get(l, n) {
      OthersAlone(s, ts[0], n);
    }
  }

  /** The parent is charged the whole subtree. */
  lemma {:induction false} ParentCharged<N, Z>(s: State<N, Z>, l: map<N, int>, t: Tree<N, Z>)
    requires Holds(s, l, t) && Distinct(t) && s.stack != [] && s.stack[0].node !in Nodes(t)
    ensures Wrap(Get(Run(s, Dfs(t)).child, s.stack[0].node)) == Wrap(Get(s.child, s.stack[0].node) + Total(l, t))
    decreases t
  {
    hide Wrap, Run, Dfs, DfsAll, Mid;
    var p := s.stack[0].node;
    var s1, s2 := DoPush(s, t.node, t.zone), Mid(s, t);
    MidIsRun(s, t);
    StackRestored(s, t);
    HoldsBelow(s, l, t);
    NodeCharged(s, l, t);
    OthersAloneAll(s1, t.kids, p);
    assert Get(Run(s, Dfs(t)).child, p) == Wrap(Get(s.child, p) + (Get(l, t.node) + Get(s2.child, t.node)));
    WrapAgain(Get(s.child, p) + Get(l, t.node), Get(s2.child, t.node), TotalAll(l, t.kids));
  }

  /** Before it is finished, a node has its own ticks and its children's totals. */
  lemma {:induction false} NodeCharged<N, Z>(s: State<N, Z>, l: map<N, int>, t: Tree<N, Z>)
    requires Holds(s, l, t) && Distinct(t)
    ensures Get(Mid(s, t).self, t.node) == Get(l, t.node)
    ensures Wrap(Get(Mid(s, t).child, t.node)) == Wrap(TotalAll(l, t.kids))
    decreases t, 0
  {
    hide Wrap;
    var s1 := DoPush(s, t.node, t.zone);
    HoldsBelow(s, l, t);
    OthersAloneAll(s1, t.kids, t.node);
    ParentChargedAll(s1, l, t.kids);
  }

  lemma {:induction false} ParentChargedAll<N, Z>(s: State<N, Z>, l: map<N, int>, ts: seq<Tree<N, Z>>)
    requires HoldsAll(s, l, ts) && DistinctAll(ts) && s.stack != [] && s.stack[0].node !in NodesAll(ts)
    ensures Wrap(Get(Run(s, DfsAll(ts)).child, s.stack[0].node))
            == Wrap(Get(s.child, s.stack[0].node) + TotalAll(l, ts))
    decreases ts
  {
    hide Wrap, Run, Dfs, DfsAll, Total, Holds, Distinct;
    if ts == [] {
      RunNothing<N, Z>(s);
    } else {
      var p, s' := s.stack[0].node, Run(s, Dfs(ts[0]));
      HoldsNext(s, l, ts);
      DfsAllRuns(s, ts);
      StackRestored(s, ts[0]);
      ParentCharged(s, l, ts[0]);
      ParentChargedAll(s', l, ts[1..]);
      WrapChain(Get(Run(s, DfsAll(ts)).child, p), Get(s'.child, p), TotalAll(l, ts[1..]), Get(s.child, p),
                Total(l, ts[0]));
    }
  }

  lemma RunNothing<N, Z>(s: State<N, Z>)
    ensures Run(s, DfsAll([])) == s
  {
  }

  /** Two amounts charged one after the other. */
  lemma WrapChain(z: int, y: int, b: int, x: int, a: int)
    requires Wrap(z) == Wrap(y + b) && Wrap(y) == Wrap(x + a)
    ensures Wrap(z) == Wrap(x + (a + b))
  {
    hide Wrap;
    WrapAgain(b, y, x + a);
    assert b + y == y + b && b + (x + a) == x + (a + b);
  }

  /** Equal up to the range stays equal when something is added. */
  lemma WrapAgain(x: int, y: int, y': int)
    requires Wrap(y) == Wrap(y')
    ensures Wrap(x + y) == Wrap(x + y') && Wrap(Wrap(x + y)) == Wrap(x + y')
  {
    hide Wrap;
    WrapAdds(y, x);
    WrapAdds(y', x);
    WrapAdds(x + y', 0);
  }

  /** A zone's own ticks grow by what was recorded in its nodes. */
  lemma {:induction false} ZoneSelf<N, Z>(s: State<N, Z>, l: map<N, int>, t: Tree<N, Z>, z: Z)
    requires Holds(s, l, t) && Distinct(t)
    ensures Wrap(Get(Run(s, Dfs(t)).zself, z)) == Wrap(Get(s.zself, z) + Own(l, z, t))
    decreases t
  {
    hide Wrap, Run, Dfs, DfsAll, Mid, Holds, Distinct, HoldsAll;
    var s1 := DoPush(s, t.node, t.zone);
    StackRestored(s, t);
    HoldsBelow(s, l, t);
    DistinctBelow(t);
    MidIsRun(s, t);
    ZoneSelfAll(s1, l, t.kids, z);
    if t.zone == z {
      WrapAgain(0, Get(s.zself, z) + Get(l, t.node), Get(s.zself, z) + Get(l, t.node));
      WrapChain(Get(Mid(s, t).zself, z), Get(s1.zself, z), OwnAll(l, z, t.kids), Get(s.zself, z), Get(l, t.node));
    }
  }

  lemma {:induction false} ZoneSelfAll<N, Z>(s: State<N, Z>, l: map<N, int>, ts: seq<Tree<N, Z>>, z: Z)
    requires HoldsAll(s, l, ts) && DistinctAll(ts)
    ensures Wrap(Get(Run(s, DfsAll(ts)).zself, z)) == Wrap(Get(s.zself, z) + OwnAll(l, z, ts))
    decreases ts
  {
    hide Wrap, Run, Dfs, DfsAll, Holds, Distinct;
    if ts == [] {
      RunNothing<N, Z>(s);
    } else {
      var s' := Run(s, Dfs(ts[0]));
      HoldsNext(s, l, ts);
      DfsAllRuns(s, ts);
      ZoneSelf(s, l, ts[0], z);
      ZoneSelfAll(s', l, ts[1..], z);
      WrapChain(Get(Run(s, DfsAll(ts)).zself, z), Get(s'.zself, z), OwnAll(l, z, ts[1..]), Get(s.zself, z),
                Own(l, z, ts[0]));
    }
  }

  lemma DistinctBelow<N, Z>(t: Tree<N, Z>)
    requires Distinct(t)
    ensures DistinctAll(t.kids) && t.node !in NodesAll(t.kids)
  {
  }

  /** What a subtree adds to a zone's children's ticks. */
  function Extra<N, Z(==)>(busy: bool, l: map<N, int>, z: Z, t: Tree<N, Z>): int {
    (if busy then 0 else Outermost(l, z, t)) - Own(l, z, t)
  }

  function ExtraAll<N, Z(==)>(busy: bool, l: map<N, int>, z: Z, ts: seq<Tree<N, Z>>): int {
    (if busy then 0 else OutermostAll(l, z, ts)) - OwnAll(l, z, ts)
  }

  /** A zone's children's ticks grow by its outermost totals, less what its own nodes recorded; a
      zone met again below itself only loses the latter. */
  lemma {:induction false} ZoneChild<N, Z>(s: State<N, Z>, l: map<N, int>, t: Tree<N, Z>, z: Z)
    requires Holds(s, l, t) && Distinct(t)
    ensures Wrap(Get(Run(s, Dfs(t)).zchild, z)) == Wrap(Get(s.zchild, z) + Extra(z in s.busy, l, z, t))
    decreases t, 1
  {
    if t.zone != z {
      ZoneChildElsewhere(s, l, t, z);
    } else if z in s.busy {
      ZoneChildNested(s, l, t);
    } else {
      ZoneChildOuter(s, l, t);
    }
  }

  lemma {:induction false} ZoneChildElsewhere<N, Z>(s: State<N, Z>, l: map<N, int>, t: Tree<N, Z>, z: Z)
    requires Holds(s, l, t) && Distinct(t) && t.zone != z
    ensures Wrap(Get(Run(s, Dfs(t)).zchild, z)) == Wrap(Get(s.zchild, z) + Extra(z in s.busy, l, z, t))
    decreases t, 0
  {
    hide Wrap, Run, Dfs, DfsAll, Mid, Holds, Distinct, HoldsAll;
    StackRestored(s, t);
    HoldsBelow(s, l, t);
    DistinctBelow(t);
    MidIsRun(s, t);
    ZoneChildAll(DoPush(s, t.node, t.zone), l, t.kids, z);
  }

  lemma {:induction false} ZoneChildNested<N, Z>(s: State<N, Z>, l: map<N, int>, t: Tree<N, Z>)
    requires Holds(s, l, t) && Distinct(t) && t.zone in s.busy
    ensures Wrap(Get(Run(s, Dfs(t)).zchild, t.zone)) == Wrap(Get(s.zchild, t.zone) + Extra(true, l, t.zone, t))
    decreases t, 0
  {
    hide Wrap, Run, Dfs, DfsAll, Mid, Holds, Distinct, HoldsAll;
    var s1, s2, l0, z := DoPush(s, t.node, t.zone), Mid(s, t), Get(l, t.node), t.zone;
    StackRestored(s, t);
    HoldsBelow(s, l, t);
    DistinctBelow(t);
    MidIsRun(s, t);
    ZoneChildAll(s1, l, t.kids, z);
    WrapAgain(0, Get(s.zchild, z) - l0, Get(s.zchild, z) - l0);
    WrapChain(Get(s2.zchild, z), Get(s1.zchild, z), -OwnAll(l, z, t.kids), Get(s.zchild, z), -l0);
  }

  lemma {:induction false} ZoneChildOuter<N, Z>(s: State<N, Z>, l: map<N, int>, t: Tree<N, Z>)
    requires Holds(s, l, t) && Distinct(t) && t.zone !in s.busy
    ensures Wrap(Get(Run(s, Dfs(t)).zchild, t.zone)) == Wrap(Get(s.zchild, t.zone) + Extra(false, l, t.zone, t))
    decreases t, 0
  {
    hide Wrap, Run, Dfs, DfsAll, Mid, Holds, Distinct, HoldsAll;
    var s1, s2, l0, z := DoPush(s, t.node, t.zone), Mid(s, t), Get(l, t.node), t.zone;
    StackRestored(s, t);
    HoldsBelow(s, l, t);
    DistinctBelow(t);
    MidIsRun(s, t);
    ZoneChildAll(s1, l, t.kids, z);
    NodeCharged(s, l, t);
    OutermostPays(Get(s.zchild, z), Get(s2.zchild, z), Get(s2.child, t.node), TotalAll(l, t.kids),
                  OwnAll(l, z, t.kids), l0);
  }

  lemma OutermostPays(x: int, y: int, c: int, total: int, own: int, l0: int)
    requires Wrap(y) == Wrap(x - own) && Wrap(c) == Wrap(total)
    ensures Wrap(Wrap(y + c)) == Wrap(x + ((l0 + total) - (l0 + own)))
  {
    hide Wrap;
    WrapAgain(y, c, total);
    WrapAgain(total, y, x - own);
    assert y + total == total + y && total + (x - own) == x + ((l0 + total) - (l0 + own));
    WrapAgain(0, y + c, x + total - own);
  }

  lemma {:induction false} ZoneChildAll<N, Z>(s: State<N, Z>, l: map<N, int>, ts: seq<Tree<N, Z>>, z: Z)
    requires HoldsAll(s, l, ts) && DistinctAll(ts)
    ensures Wrap(Get(Run(s, DfsAll(ts)).zchild, z)) == Wrap(Get(s.zchild, z) + ExtraAll(z in s.busy, l, z, ts))
    decreases ts
  {
    hide Wrap, Run, Dfs, DfsAll, Holds, Distinct;
    if ts == [] {
      RunNothing<N, Z>(s);
    } else {
      var s' := Run(s, Dfs(ts[0]));
      var busy := z in s.busy;
      HoldsNext(s, l, ts);
      DfsAllRuns(s, ts);
      StackRestored(s, ts[0]);
      ZoneChild(s, l, ts[0], z);
      ZoneChildAll(s', l, ts[1..], z);
      WrapChain(Get(Run(s, DfsAll(ts)).zchild, z), Get(s'.zchild, z), ExtraAll(busy, l, z, ts[1..]), Get(s.zchild, z),
                Extra(busy, l, z, ts[0]));
    }
  }

  /** What every node of a tree holds afterwards: its own ticks, and its children's totals. */
  ghost predicate Settled<N, Z>(s: State<N, Z>, l: map<N, int>, t: Tree<N, Z>) {
    && Get(s.self, t.node) == Get(l, t.node) && Get(s.last, t.node) == 0
    && Wrap(Get(s.child, t.node)) == Wrap(TotalAll(l, t.kids))
    && SettledAll(s, l, t.kids)
  }

  ghost predicate SettledAll<N, Z>(s: State<N, Z>, l: map<N, int>, ts: seq<Tree<N, Z>>) {
    ts != [] ==> Settled(s, l, ts[0]) && SettledAll(s, l, ts[1..])
  }

  ghost predicate SameNodes<N, Z>(s: State<N, Z>, s': State<N, Z>, nodes: set<N>) {
    forall n :: n in nodes ==>
           Get(s'.last, n) == Get(s.last, n) && Get(s'.self, n) == Get(s.self, n)
           && Get(s'.child, n) == Get(s.child, n)
  }

  lemma {:induction false} StaysSettled<N, Z>(s: State<N, Z>, s': State<N, Z>, l: map<N, int>, t: Tree<N, Z>)
    requires Settled(s, l, t) && SameNodes(s, s', Nodes(t))
    ensures Settled(s', l, t)
    decreases t
  {
    StayAllSettled(s, s', l, t.kids);
  }

  lemma {:induction false} StayAllSettled<N, Z>(s: State<N, Z>, s': State<N, Z>, l: map<N, int>, ts: seq<Tree<N, Z>>)
    requires SettledAll(s, l, ts) && SameNodes(s, s', NodesAll(ts))
    ensures SettledAll(s', l, ts)
    decreases ts
  {
    if ts != [] {
      StaysSettled(s, s', l, ts[0]);
      StayAllSettled(s, s', l, ts[1..]);
    }
  }

  lemma {:induction false} TreeSettles<N, Z>(s: State<N, Z>, l: map<N, int>, t: Tree<N, Z>)
    requires Holds(s, l, t) && Distinct(t) && (s.stack != [] ==> s.stack[0].node !in Nodes(t))
    ensures Settled(Run(s, Dfs(t)), l, t)
    decreases t
  {
    hide Wrap, Run, Dfs, DfsAll, Holds, HoldsAll;
    var s1, s2 := DoPush(s, t.node, t.zone), Mid(s, t);
    StackRestored(s, t);
    HoldsBelow(s, l, t);
    DistinctBelow(t);
    MidIsRun(s, t);
    NodeCharged(s, l, t);
    OthersAloneAll(s1, t.kids, t.node);
    ForestSettles(s1, l, t.kids);
    StayAllSettled(s2, Run(s, Dfs(t)), l, t.kids);
  }

  lemma {:induction false} ForestSettles<N, Z>(s: State<N, Z>, l: map<N, int>, ts: seq<Tree<N, Z>>)
    requires HoldsAll(s, l, ts) && DistinctAll(ts) && (s.stack != [] ==> s.stack[0].node !in NodesAll(ts))
    ensures SettledAll(Run(s, DfsAll(ts)), l, ts)
    decreases ts
  {
    hide Wrap, Run, Dfs, DfsAll, Holds, HoldsAll, Settled;
    if ts != [] {
      var s' := Run(s, Dfs(ts[0]));
      HoldsNext(s, l, ts);
      DfsAllRuns(s, ts);
      StackRestored(s, ts[0]);
      TreeSettles(s, l, ts[0]);
      ForestSettles(s', l, ts[1..]);
      forall n | n in Nodes(ts[0])
        ensures var e := Run(s', DfsAll(ts[1..]));
                Get(e.last, n) == Get(s'.last, n) && Get(e.self, n) == Get(s'.self, n)
                    && Get(e.child, n) == Get(s'.child, n)
      {
        OthersAloneAll(s', ts[1..], n);
      }
      StaysSettled(s', Run(s', DfsAll(ts[1..])), l, ts[0]);
    }
  }

  // ---------- The main results ----------

  /** After a whole update, every node's children's ticks are the sum of its children's totals. */
  lemma UpdateSettles<N, Z>(s: State<N, Z>, t: Tree<N, Z>)
    requires Distinct(t) && s.stack == []
    ensures Settled(Run(s, Dfs(t)), s.last, t)
  {
    TreeSettles(s, s.last, t);
  }

  /** Recursion is never counted twice: after a whole update of zones that were clear, a zone's own
      and children's ticks make up the totals of its outermost nodes, though the difference wraps on the way. */
  lemma ZoneTotalIsOutermost<N, Z>(s: State<N, Z>, t: Tree<N, Z>, z: Z)
    requires Distinct(t) && s.stack == [] && s.busy == {} && Get(s.zself, z) == 0 && Get(s.zchild, z) == 0
    ensures var s' := Run(s, Dfs(t));
            Wrap(Get(s'.zself, z) + Get(s'.zchild, z)) == Wrap(Outermost(s.last, z, t))
  {
    hide Wrap, Run, Dfs, Own, Outermost;
    var s', own, out := Run(s, Dfs(t)), Own(s.last, z, t), Outermost(s.last, z, t);
    ZoneSelf(s, s.last, t, z);
    ZoneChild(s, s.last, t, z);
    WrapAgain(Get(s'.zself, z), Get(s'.zchild, z), out - own);
    WrapAgain(out - own, Get(s'.zself, z), own);
    assert Get(s'.zself, z) + (out - own) == (out - own) + Get(s'.zself, z) && (out - own) + own == out;
  }

  /** The root's own and children's ticks make up every tick recorded in the tree. */
  lemma RootTotalIsAll<N, Z>(s: State<N, Z>, t: Tree<N, Z>)
    requires Distinct(t) && s.stack == []
    ensures var s' := Run(s, Dfs(t));
            Wrap(Get(s'.self, t.node) + Get(s'.child, t.node)) == Wrap(Total(s.last, t))
  {
    hide Wrap, Run, Dfs, Mid;
    StackRestored(s, t);
    NodeCharged(s, s.last, t);
    WrapAgain(Get(s.last, t.node), Get(Mid(s, t).child, t.node), TotalAll(s.last, t.kids));
  }

  // ---------- All ticks of a set of nodes ----------

  ghost function SumOver<N>(l: map<N, int>, s: set<N>): int {
    if s == {} then 0 else var n :| n in s; Get(l, n) + SumOver(l, s - {n})
  }

  lemma {:induction false} SumWithout<N>(l: map<N, int>, s: set<N>, n: N)
    requires n in s
    ensures SumOver(l, s) == Get(l, n) + SumOver(l, s - {n})
  {
    var m :| m in s && SumOver(l, s) == Get(l, m) + SumOver(l, s - {m});
    if m != n {
      SumWithout(l, s - {m}, n);
      SumWithout(l, s - {n}, m);
      assert s - {m} - {n} == s - {n} - {m};
    }
  }

  lemma {:induction false} SumJoins<N>(l: map<N, int>, a: set<N>, b: set<N>)
    requires a !! b
    ensures SumOver(l, a + b) == SumOver(l, a) + SumOver(l, b)
  {
    if a == {} {
      assert a + b == b;
    } else {
      var n :| n in a;
      SumJoins(l, a - {n}, b);
      SumWithout(l, a, n);
      SumWithout(l, a + b, n);
      assert a + b - {n} == (a - {n}) + b;
    }
  }

  /** The sum changes by as much as one of its terms. */
  lemma {:induction false} SumChanges<N>(l: map<N, int>, l': map<N, int>, s: set<N>, n: N)
    requires forall m :: m in s && m != n ==> Get(l', m) == Get(l, m)
    ensures SumOver(l', s) == SumOver(l, s) + if n in s then Get(l', n) - Get(l, n) else 0
  {
    if s != {} {
      var m :| m in s;
      SumWithout(l, s, m);
      SumWithout(l', s, m);
      SumChanges(l, l', s - {m}, n);
    }
  }

  lemma SumOfNew<N>(l: map<N, int>, l': map<N, int>, s: set<N>, n: N)
    requires n !in s && Get(l', n) == 0 && forall m :: m in s ==> Get(l', m) == Get(l, m)
    ensures SumOver(l', s + {n}) == SumOver(l, s)
  {
    SumWithout(l', s + {n}, n);
    assert s + {n} - {n} == s;
    SumChanges(l, l', s, n);
  }

  /** What a tree has recorded is the sum over its nodes. */
  lemma {:induction false} TotalIsSum<N, Z>(l: map<N, int>, t: Tree<N, Z>)
    requires Distinct(t)
    ensures Total(l, t) == SumOver(l, Nodes(t))
  {
    TotalAllIsSum(l, t.kids);
    SumJoins(l, {t.node}, NodesAll(t.kids));
    SumWithout(l, {t.node}, t.node);
    assert {t.node} - {t.node} == {};
  }

  lemma {:induction false} TotalAllIsSum<N, Z>(l: map<N, int>, ts: seq<Tree<N, Z>>)
    requires DistinctAll(ts)
    ensures TotalAll(l, ts) == SumOver(l, NodesAll(ts))
  {
    if ts != [] {
      TotalIsSum(l, ts[0]);
      TotalAllIsSum(l, ts[1..]);
      SumJoins(l, Nodes(ts[0]), NodesAll(ts[1..]));
    }
  }

  lemma {:induction false} SumOfNothing<N>(l: map<N, int>, s: set<N>)
    requires forall n :: n in s ==> Get(l, n) == 0
    ensures SumOver(l, s) == 0
  {
    if s != {} {
      var n :| n in s;
      SumWithout(l, s, n);
      SumOfNothing(l, s - {n});
    }
  }

  /** A settled tree has nothing pending. */
  lemma {:induction false} SettledTaken<N, Z>(s: State<N, Z>, l: map<N, int>, t: Tree<N, Z>)
    requires Settled(s, l, t)
    ensures forall n :: n in Nodes(t) ==> Get(s.last, n) == 0
  {
    SettledAllTaken(s, l, t.kids);
  }

  lemma {:induction false} SettledAllTaken<N, Z>(s: State<N, Z>, l: map<N, int>, ts: seq<Tree<N, Z>>)
    requires SettledAll(s, l, ts)
    ensures forall n :: n in NodesAll(ts) ==> Get(s.last, n) == 0
  {
    if ts != [] {
      SettledTaken(s, l, ts[0]);
      SettledAllTaken(s, l, ts[1..]);
    }
  }
}
