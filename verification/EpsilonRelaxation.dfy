/** The epsilon expansion of the level decoder on values
    (src/include/dcd/clevel-decoder.h, src/include/dcd/token.h, src/include/dcd/lattice.h):
    a queue of states whose epsilon arcs are relaxed until the queue runs dry. */
module EpsilonRelaxation {

  /** `kMaxCost`: the float nearest to the largest 32-bit integer, the cost of no token. */
  const K_MAX_COST: int := 0x8000_0000

  /** An epsilon arc of the search network: its weight and the weight for leaving it. */
  datatype EpsArc = EpsArc(weight: int, exit: int, nextstate: nat)

  type EpsGraph = seq<seq<EpsArc>>

  datatype Options = Options(beam: int, pruneEps: bool)

  predicate ValidGraph(g: EpsGraph) {
    forall s, i :: 0 <= s < |g| && 0 <= i < |g[s]| ==> g[s][i].nextstate < |g|
  }

  /** Where a search stands: the cost of each active state, the active states in the order of
      their activation, the queue, the two pruning bounds, and whether a token without a
      traceback was passed on, which the original answers with a null dereference. */
  datatype Search = Search(cost: map<nat, int>, active: seq<nat>, queue: seq<nat>, best: int, threshold: int,
                           fault: bool) {
    function CostOf(s: nat): int {
      if s in cost then cost[s] else K_MAX_COST
    }
  }

  function Min(a: int, b: int): int { if b < a then b else a }

  // ---------- One relaxation ----------

  /** A token of cost `out` arrives in `t`; `t` is queued even when its cost does not drop. */
  function Arrive(g: EpsGraph, st: Search, t: nat, out: int): Search
    requires t < |g|
  {
    st.(cost := st.cost[t := Min(st.CostOf(t), out)],
        active := if t in st.cost then st.active else st.active + [t],
        queue := if g[t] != [] && t !in st.queue then st.queue + [t] else st.queue)
  }

  /** The token of `s` enters `a` if its entry cost passes, and leaves it if its exit cost does. An
      arc that was not entered still shows the cost of no token, which a threshold above it lets by. */
  function RelaxArc(g: EpsGraph, st: Search, s: nat, a: EpsArc, threshold: int, f: int): (Search, int)
    requires a.nextstate < |g|
  {
    var entry := st.CostOf(s) + a.weight;
    if entry < threshold && entry < K_MAX_COST then
      var out := entry + a.exit;
      if out < threshold then (Arrive(g, st, a.nextstate, out), Min(f, out)) else (st, f)
    else if K_MAX_COST < threshold then (st.(fault := true), f)
    else (st, f)
  }

  function RelaxArcs(g: EpsGraph, st: Search, s: nat, threshold: int, f: int, i: nat): (Search, int)
    requires ValidGraph(g) && s < |g| && i <= |g[s]|
    decreases |g[s]| - i
  {
    if i == |g[s]| || st.fault then (st, f) else
      var (st', f') := RelaxArc(g, st, s, g[s][i], threshold, f);
      RelaxArcs(g, st', s, threshold, f', i + 1)
  }

  function ArcThreshold(opts: Options, best: int): int {
    if opts.pruneEps then best + opts.beam else K_MAX_COST
  }

  /** Pops one state and expands it, unless its cost has reached the threshold. */
  function Step(g: EpsGraph, opts: Options, st: Search): Search
    requires ValidGraph(g) && st.queue != [] && st.queue[0] < |g|
  {
    var s, popped := st.queue[0], st.(queue := st.queue[1..]);
    if popped.CostOf(s) < popped.threshold then
      var (st', f) := RelaxArcs(g, popped, s, ArcThreshold(opts, st.best), K_MAX_COST, 0);
      if f < st'.best && !st'.fault then st'.(best := f, threshold := f + opts.beam) else st'
    else popped
  }

  // ---------- Starting ----------

  function LeastCost(costs: map<nat, int>, active: seq<nat>): int
    requires forall i :: 0 <= i < |active| ==> active[i] in costs
  {
    if active == [] then K_MAX_COST else
      Min(LeastCost(costs, active[..|active| - 1]), costs[active[|active| - 1]])
  }

  function WithEpsilons(g: EpsGraph, active: seq<nat>): seq<nat>
    requires forall i :: 0 <= i < |active| ==> active[i] < |g|
  {
    if active == [] then [] else
      var s := active[|active| - 1];
      WithEpsilons(g, active[..|active| - 1]) + if g[s] != [] then [s] else []
  }

  /** `active` lists the active states once each. */
  ghost predicate ActiveList(g: EpsGraph, costs: map<nat, int>, active: seq<nat>) {
    && (forall i :: 0 <= i < |active| ==> active[i] in costs)
    && (forall s :: s in costs ==> s in active)
    && (forall s :: s in costs ==> s < |g|)
    && (forall i, j :: 0 <= i < j < |active| ==> active[i] != active[j])
  }

  function Begin(g: EpsGraph, costs: map<nat, int>, active: seq<nat>): Search
    requires forall i :: 0 <= i < |active| ==> active[i] in costs && active[i] < |g|
  {
    Search(costs, active, WithEpsilons(g, active), LeastCost(costs, active), K_MAX_COST, false)
  }

  /** `queue` holds active states with epsilon arcs, none twice. */
  ghost predicate QueueList(g: EpsGraph, costs: map<nat, int>, queue: seq<nat>) {
    && (forall i :: 0 <= i < |queue| ==> queue[i] in costs && queue[i] < |g| && g[queue[i]] != [])
    && (forall i, j :: 0 <= i < j < |queue| ==> queue[i] != queue[j])
  }

  /** Shape that every reachable search has. */
  ghost predicate Sound(g: EpsGraph, opts: Options, st: Search) {
    && ActiveList(g, st.cost, st.active)
    && QueueList(g, st.cost, st.queue)
    && (st.threshold == K_MAX_COST || st.threshold == st.best + opts.beam)
  }

  lemma {:induction false} BeginSound(g: EpsGraph, opts: Options, costs: map<nat, int>, active: seq<nat>)
    requires ActiveList(g, costs, active)
    ensures Sound(g, opts, Begin(g, costs, active))
    ensures forall s :: s in costs && g[s] != [] ==> s in Begin(g, costs, active).queue
  {
    WithEpsilonsFacts(g, active);
  }

  lemma {:induction false} WithEpsilonsFacts(g: EpsGraph, active: seq<nat>)
    requires forall i :: 0 <= i < |active| ==> active[i] < |g|
    requires forall i, j :: 0 <= i < j < |active| ==> active[i] != active[j]
    ensures forall i :: 0 <= i < |WithEpsilons(g, active)| ==>
              WithEpsilons(g, active)[i] in active && WithEpsilons(g, active)[i] < |g|
                  && g[WithEpsilons(g, active)[i]] != []
    ensures forall s :: s in active && s < |g| && g[s] != [] ==> s in WithEpsilons(g, active)
    ensures forall i, j :: 0 <= i < j < |WithEpsilons(g, active)| ==>
              WithEpsilons(g, active)[i] != WithEpsilons(g, active)[j]
  {
    if active != [] {
      var init, s := active[..|active| - 1], active[|active| - 1];
      WithEpsilonsFacts(g, init);
      assert active == init + [s];
    }
  }

  /** One more active state looked at while the queue is filled. */
  lemma BeginStep(g: EpsGraph, costs: map<nat, int>, active: seq<nat>, i: nat)
    requires ActiveList(g, costs, active) && i < |active|
    ensures active[i] in costs && active[i] < |g|
    ensures forall k :: 0 <= k < |active| ==> active[k] in costs && active[k] < |g|
    ensures LeastCost(costs, active[..i + 1]) == Min(LeastCost(costs, active[..i]), costs[active[i]])
    ensures active[i] !in WithEpsilons(g, active[..i])
    ensures WithEpsilons(g, active[..i + 1])
            == WithEpsilons(g, active[..i]) + if g[active[i]] != [] then [active[i]] else []
  {
    assert active[..i + 1][..i] == active[..i];
    WithEpsilonsFacts(g, active[..i]);
  }

  /** Everything but the bounds that an expansion can do to a search. */
  ghost predicate Grows(g: EpsGraph, st: Search, st': Search) {
    && st.cost.Keys <= st'.cost.Keys
    && (forall t :: t in st.cost ==> st'.cost[t] <= st.cost[t])
    && (forall t :: t in st.queue ==> t in st'.queue)
    && (forall t :: t in st'.cost && t !in st'.queue && t < |g| && g[t] != [] ==>
          t in st.cost && st'.cost[t] == st.cost[t])
    && st'.best == st.best && st'.threshold == st.threshold
  }

  lemma ActiveListArrives(g: EpsGraph, costs: map<nat, int>, active: seq<nat>, t: nat, c: int)
    requires ActiveList(g, costs, active) && t < |g|
    ensures ActiveList(g, costs[t := c], if t in costs then active else active + [t])
  {
    if t !in costs {
      forall s | s in costs[t := c] ensures s in active + [t] {}
    }
  }

  lemma QueueListArrives(g: EpsGraph, costs: map<nat, int>, queue: seq<nat>, t: nat, c: int)
    requires QueueList(g, costs, queue) && t < |g|
    ensures QueueList(g, costs[t := c], if g[t] != [] && t !in queue then queue + [t] else queue)
  {
  }

  lemma ArriveSound(g: EpsGraph, opts: Options, st: Search, t: nat, out: int)
    requires ValidGraph(g) && Sound(g, opts, st) && t < |g|
    ensures Sound(g, opts, Arrive(g, st, t, out))
  {
    hide ActiveList, QueueList;
    ActiveListArrives(g, st.cost, st.active, t, Min(st.CostOf(t), out));
    QueueListArrives(g, st.cost, st.queue, t, Min(st.CostOf(t), out));
  }

  lemma ArriveGrows(g: EpsGraph, st: Search, t: nat, out: int)
    requires t < |g|
    ensures Grows(g, st, Arrive(g, st, t, out))
  {
  }

  lemma RelaxArcGrows(g: EpsGraph, opts: Options, st: Search, s: nat, a: EpsArc, threshold: int, f: int)
    requires ValidGraph(g) && Sound(g, opts, st) && a.nextstate < |g|
    ensures var (st', f') := RelaxArc(g, st, s, a, threshold, f);
            Sound(g, opts, st') && Grows(g, st, st') && f' <= f
  {
    hide Arrive, ActiveList, QueueList;
    ArriveSound(g, opts, st, a.nextstate, st.CostOf(s) + a.weight + a.exit);
    ArriveGrows(g, st, a.nextstate, st.CostOf(s) + a.weight + a.exit);
  }

  lemma GrowsTrans(g: EpsGraph, a: Search, b: Search, c: Search)
    requires Grows(g, a, b) && Grows(g, b, c)
    ensures Grows(g, a, c)
  {
  }

  lemma {:induction false} RelaxArcsGrows(g: EpsGraph, opts: Options, st: Search, s: nat, threshold: int,
                                          f: int, i: nat)
    requires ValidGraph(g) && Sound(g, opts, st) && s < |g| && i <= |g[s]|
    ensures var (st', f') := RelaxArcs(g, st, s, threshold, f, i);
            Sound(g, opts, st') && Grows(g, st, st') && f' <= f
    decreases |g[s]| - i
  {
    hide RelaxArc, Sound;
    if i < |g[s]| && !st.fault {
      var (st', f') := RelaxArc(g, st, s, g[s][i], threshold, f);
      RelaxArcGrows(g, opts, st, s, g[s][i], threshold, f);
      RelaxArcsGrows(g, opts, st', s, threshold, f', i + 1);
      GrowsTrans(g, st, st', RelaxArcs(g, st', s, threshold, f', i + 1).0);
    }
  }

  lemma StepSound(g: EpsGraph, opts: Options, st: Search)
    requires ValidGraph(g) && Sound(g, opts, st) && st.queue != []
    ensures st.queue[0] < |g|
    ensures Sound(g, opts, Step(g, opts, st))
    ensures Step(g, opts, st).best <= st.best
    ensures forall t :: t in st.cost ==> t in Step(g, opts, st).cost && Step(g, opts, st).cost[t] <= st.cost[t]
  {
    var s, popped := st.queue[0], st.(queue := st.queue[1..]);
    assert Sound(g, opts, popped);
    RelaxArcsGrows(g, opts, popped, s, ArcThreshold(opts, st.best), K_MAX_COST, 0);
  }
}
