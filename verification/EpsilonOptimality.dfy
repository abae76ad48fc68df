/** The costs a finished epsilon expansion leaves: never below a real path, never above a path
    that pruning let through. */
module EpsilonOptimality {
  import opened EpsilonRelaxation
  import opened EpsilonShortestPaths
  import opened EpsilonFaults

  // ---------- Epsilon paths ----------

  function PathEnd(s: nat, p: seq<EpsArc>): nat {
    if p == [] then s else p[|p| - 1].nextstate
  }

  predicate EpsPath(g: EpsGraph, s: nat, p: seq<EpsArc>) {
    p == [] || (EpsPath(g, s, p[..|p| - 1]) && PathEnd(s, p[..|p| - 1]) < |g|
                && p[|p| - 1] in g[PathEnd(s, p[..|p| - 1])])
  }

  /** The cost of starting at `c0` and following `p`. */
  function PathCost(c0: int, p: seq<EpsArc>): int {
    if p == [] then c0 else PathCost(c0, p[..|p| - 1]) + p[|p| - 1].weight + p[|p| - 1].exit
  }

  /** Every cost met along the path, on entering an arc and on leaving it, stays below `bound`. */
  predicate StaysBelow(c0: int, p: seq<EpsArc>, bound: int) {
    && PathCost(c0, p) < bound
    && (p == [] || (StaysBelow(c0, p[..|p| - 1], bound)
                    && PathCost(c0, p[..|p| - 1]) + p[|p| - 1].weight < bound))
  }

  // ---------- Pruning loses nothing that stays below the bound ----------

  /** Costs below this are never pruned. */
  function Bound(opts: Options, st: Search): int {
    Min(K_MAX_COST, st.best + opts.beam)
  }

  ghost predicate RelaxedArc(cost: map<nat, int>, c: int, a: EpsArc, bound: int) {
    c < bound && c + a.weight < bound && c + a.weight + a.exit < bound ==>
      a.nextstate in cost && cost[a.nextstate] <= c + a.weight + a.exit
  }

  ghost predicate RelaxedFrom(g: EpsGraph, cost: map<nat, int>, s: nat, bound: int, i: nat)
    requires s in cost && s < |g|
  {
    forall j :: i <= j < |g[s]| ==> RelaxedArc(cost, cost[s], g[s][j], bound)
  }

  /** Every active state outside the queue has its arcs relaxed. */
  ghost predicate Relaxed(g: EpsGraph, opts: Options, st: Search) {
    forall s :: s in st.cost && s < |g| && s !in st.queue ==> RelaxedFrom(g, st.cost, s, Bound(opts, st), 0)
  }

  lemma {:induction false} RelaxArcsRelax(g: EpsGraph, opts: Options, st: Search, s: nat, threshold: int, f: int,
                                          i: nat, bound: int)
    requires ValidGraph(g) && Sound(g, opts, st) && s < |g| && i <= |g[s]| && s in st.cost
    requires bound <= threshold && bound <= K_MAX_COST
    ensures var st' := RelaxArcs(g, st, s, threshold, f, i).0;
            s in st'.cost && (!st'.fault && s !in st'.queue ==> RelaxedFrom(g, st'.cost, s, bound, i))
    decreases |g[s]| - i
  {
    hide Sound, Arrive;
    RelaxArcsGrows(g, opts, st, s, threshold, f, i);
    if i < |g[s]| && !st.fault {
      var a := g[s][i];
      var (st1, f1) := RelaxArc(g, st, s, a, threshold, f);
      RelaxArcGrows(g, opts, st, s, a, threshold, f);
      RelaxArcsGrows(g, opts, st1, s, threshold, f1, i + 1);
      RelaxArcsRelax(g, opts, st1, s, threshold, f1, i + 1, bound);
      var st' := RelaxArcs(g, st1, s, threshold, f1, i + 1).0;
      if !st'.fault && s !in st'.queue {
        FaultSticks(g, st1, s, threshold, f1, i + 1);
        assert RelaxedArc(st1.cost, st1.cost[s], a, bound) by { RelaxOneArc(g, st, s, a, threshold, f, bound); }
        assert st'.cost[s] == st1.cost[s];
      }
    }
  }

  lemma {:induction false} FaultSticks(g: EpsGraph, st: Search, s: nat, threshold: int, f: int, i: nat)
    requires ValidGraph(g) && s < |g| && i <= |g[s]|
    ensures st.fault ==> RelaxArcs(g, st, s, threshold, f, i).0.fault
    ensures !RelaxArcs(g, st, s, threshold, f, i).0.fault ==> !st.fault
  {
  }

  lemma RelaxOneArc(g: EpsGraph, st: Search, s: nat, a: EpsArc, threshold: int, f: int, bound: int)
    requires ValidGraph(g) && s in st.cost && s < |g| && a.nextstate < |g|
    requires bound <= threshold && bound <= K_MAX_COST
    requires var st1 := RelaxArc(g, st, s, a, threshold, f).0;
             s in st1.cost && st1.cost[s] == st.cost[s]
    ensures var st1 := RelaxArc(g, st, s, a, threshold, f).0;
            RelaxedArc(st1.cost, st1.cost[s], a, bound)
  {
  }

  lemma BeginRelaxed(g: EpsGraph, opts: Options, costs: map<nat, int>, active: seq<nat>)
    requires ValidGraph(g) && ActiveList(g, costs, active)
    ensures Relaxed(g, opts, Begin(g, costs, active))
  {
    BeginSound(g, opts, costs, active);
  }

  lemma RelaxedFromKept(g: EpsGraph, cost: map<nat, int>, cost': map<nat, int>, s: nat, bound: int, bound': int)
    requires s in cost && s < |g| && RelaxedFrom(g, cost, s, bound, 0) && bound' <= bound
    requires s in cost' && cost'[s] == cost[s]
    requires forall t :: t in cost ==> t in cost' && cost'[t] <= cost[t]
    ensures RelaxedFrom(g, cost', s, bound', 0)
  {
    forall j | 0 <= j < |g[s]| ensures RelaxedArc(cost', cost'[s], g[s][j], bound') {
      assert RelaxedArc(cost, cost[s], g[s][j], bound);
    }
  }

  lemma StepRelaxed(g: EpsGraph, opts: Options, st: Search)
    requires ValidGraph(g) && Sound(g, opts, st) && st.queue != []
    requires Relaxed(g, opts, st) && !Step(g, opts, st).fault
    ensures Relaxed(g, opts, Step(g, opts, st))
  {
    StepSound(g, opts, st);
    var s, popped, st' := st.queue[0], st.(queue := st.queue[1..]), Step(g, opts, st);
    var threshold := ArcThreshold(opts, st.best);
    assert Sound(g, opts, popped) && s !in popped.queue;
    RelaxArcsGrows(g, opts, popped, s, threshold, K_MAX_COST, 0);
    RelaxArcsRelax(g, opts, popped, s, threshold, K_MAX_COST, 0, Bound(opts, st));
    hide Sound, RelaxArcs, RelaxedArc;
    forall t | t in st'.cost && t < |g| && t !in st'.queue
      ensures RelaxedFrom(g, st'.cost, t, Bound(opts, st'), 0)
    {
      if g[t] != [] {
        assert t !in popped.queue && t in st.cost && st'.cost[t] == st.cost[t];
        if t == s {
          PoppedIsRelaxed(g, opts, st);
        } else {
          assert t !in st.queue;
          RelaxedFromKept(g, st.cost, st'.cost, t, Bound(opts, st), Bound(opts, st'));
        }
      }
    }
  }

  lemma PoppedIsRelaxed(g: EpsGraph, opts: Options, st: Search)
    requires ValidGraph(g) && Sound(g, opts, st) && st.queue != [] && st.queue[0] < |g|
    requires var s, st' := st.queue[0], Step(g, opts, st);
             s in st'.cost && s !in st'.queue && !st'.fault && s in st.cost && st'.cost[s] == st.cost[s]
    ensures var s, st' := st.queue[0], Step(g, opts, st);
            RelaxedFrom(g, st'.cost, s, Bound(opts, st'), 0)
  {
    var s, popped, st' := st.queue[0], st.(queue := st.queue[1..]), Step(g, opts, st);
    assert Sound(g, opts, popped);
    if popped.CostOf(s) < popped.threshold {
      RelaxArcsGrows(g, opts, popped, s, ArcThreshold(opts, st.best), K_MAX_COST, 0);
      RelaxArcsRelax(g, opts, popped, s, ArcThreshold(opts, st.best), K_MAX_COST, 0, Bound(opts, st));
      RelaxedFromKept(g, st'.cost, st'.cost, s, Bound(opts, st), Bound(opts, st'));
    }
  }

  lemma {:induction false} StepsRelaxed(g: EpsGraph, opts: Options, st: Search, n: nat)
    requires ValidGraph(g) && Sound(g, opts, st) && Relaxed(g, opts, st)
    requires !Steps(g, opts, st, n).fault
    ensures Relaxed(g, opts, Steps(g, opts, st, n))
    ensures forall t :: t in st.cost ==> t in Steps(g, opts, st, n).cost && Steps(g, opts, st, n).cost[t] <= st.cost[t]
    decreases n
  {
    hide Sound, Step, Relaxed;
    if n > 0 && !Done(st) {
      StepSound(g, opts, st);
      var next := Step(g, opts, st);
      assert !next.fault;
      StepRelaxed(g, opts, st);
      StepsRelaxed(g, opts, next, n - 1);
    }
  }

  lemma {:induction false} KeptUnlessFault(g: EpsGraph, opts: Options, costs: map<nat, int>, active: seq<nat>, n: nat,
                                           s: nat, p: seq<EpsArc>)
    requires ValidGraph(g) && ActiveList(g, costs, active)
    requires var st := Run(g, opts, costs, active, n);
             st.queue == [] && !st.fault && s in costs && EpsPath(g, s, p)
             && StaysBelow(costs[s], p, Bound(opts, st))
    ensures var st := Run(g, opts, costs, active, n);
            PathEnd(s, p) in st.cost && st.cost[PathEnd(s, p)] <= PathCost(costs[s], p)
    decreases |p|
  {
    var st := Run(g, opts, costs, active, n);
    BeginRelaxed(g, opts, costs, active);
    StepsRelaxed(g, opts, Begin(g, costs, active), n);
    if p != [] {
      var init, a := p[..|p| - 1], p[|p| - 1];
      KeptUnlessFault(g, opts, costs, active, n, s, init);
      var q := PathEnd(s, init);
      assert RelaxedFrom(g, st.cost, q, Bound(opts, st), 0);
      var j :| 0 <= j < |g[q]| && g[q][j] == a;
      assert RelaxedArc(st.cost, st.cost[q], g[q][j], Bound(opts, st));
    }
  }

  /** Pruning is safe: a path that stays below the bound the search ends with is never lost,
      although `best` and the threshold move while the search runs. */
  lemma PruningIsSafe(g: EpsGraph, opts: Options, costs: map<nat, int>, active: seq<nat>, n: nat, s: nat,
                      p: seq<EpsArc>)
    requires ValidGraph(g) && ActiveList(g, costs, active) && Guarded(opts, costs, active)
    requires var st := Run(g, opts, costs, active, n);
             st.queue == [] && s in costs && EpsPath(g, s, p) && StaysBelow(costs[s], p, Bound(opts, st))
    ensures var st := Run(g, opts, costs, active, n);
            PathEnd(s, p) in st.cost && st.cost[PathEnd(s, p)] <= PathCost(costs[s], p)
  {
    GuardedNeverFaults(g, opts, costs, active, n);
    KeptUnlessFault(g, opts, costs, active, n, s, p);
  }

  // ---------- Every cost is the cost of a real path ----------

  /** `c` is the cost of an epsilon path from an active state to `t`. */
  ghost predicate PathCosts(g: EpsGraph, costs: map<nat, int>, t: nat, c: int) {
    exists s, p :: s in costs && EpsPath(g, s, p) && PathEnd(s, p) == t && PathCost(costs[s], p) == c
  }

  /** `c` is met along some epsilon path: at its end, or on entering the next arc. */
  ghost predicate Met(g: EpsGraph, costs: map<nat, int>, c: int) {
    exists t: nat, c0 :: PathCosts(g, costs, t, c0)
      && (c == c0 || (t < |g| && exists j :: 0 <= j < |g[t]| && c == c0 + g[t][j].weight))
  }

  /** No cost met on the way reaches the cost of no token. */
  ghost predicate BelowMaximum(g: EpsGraph, costs: map<nat, int>) {
    forall c :: Met(g, costs, c) ==> c < K_MAX_COST
  }

  /** All costs met lie within the beam of each other, so the beam cannot cut. */
  ghost predicate WithinBeam(g: EpsGraph, costs: map<nat, int>, beam: int) {
    forall c, t: nat, c0 :: Met(g, costs, c) && PathCosts(g, costs, t, c0) ==> c < c0 + beam
  }

  ghost predicate Real(g: EpsGraph, costs: map<nat, int>, st: Search) {
    && (forall t :: t in st.cost ==> PathCosts(g, costs, t, st.cost[t]))
    && (st.best == K_MAX_COST || exists t: nat :: PathCosts(g, costs, t, st.best))
    && !st.fault
  }

  ghost predicate RealBest(g: EpsGraph, costs: map<nat, int>, f: int) {
    f == K_MAX_COST || exists t: nat :: PathCosts(g, costs, t, f)
  }

  lemma ExtendPathCosts(g: EpsGraph, costs: map<nat, int>, t: nat, c: int, j: nat)
    requires PathCosts(g, costs, t, c) && t < |g| && j < |g[t]|
    ensures PathCosts(g, costs, g[t][j].nextstate, c + g[t][j].weight + g[t][j].exit)
    ensures Met(g, costs, c + g[t][j].weight) && Met(g, costs, c + g[t][j].weight + g[t][j].exit)
  {
    var s, p :| s in costs && EpsPath(g, s, p) && PathEnd(s, p) == t && PathCost(costs[s], p) == c;
    var a := g[t][j];
    assert (p + [a])[..|p|] == p;
    assert EpsPath(g, s, p + [a]) && PathEnd(s, p + [a]) == a.nextstate;
    var c' := c + a.weight + a.exit;
    assert PathCost(costs[s], p + [a]) == c';
    assert PathCosts(g, costs, a.nextstate, c');
    assert Met(g, costs, c');
  }

  lemma ArriveReal(g: EpsGraph, costs: map<nat, int>, st: Search, t: nat, out: int)
    requires Real(g, costs, st) && t < |g| && PathCosts(g, costs, t, out) && out < K_MAX_COST
    ensures Real(g, costs, Arrive(g, st, t, out))
  {
    hide PathCosts;
  }

  lemma RelaxArcReal(g: EpsGraph, costs: map<nat, int>, st: Search, s: nat, j: nat, threshold: int, f: int)
    requires ValidGraph(g) && BelowMaximum(g, costs) && s < |g| && j < |g[s]| && s in st.cost
    requires Real(g, costs, st) && RealBest(g, costs, f)
    ensures var (st', f') := RelaxArc(g, st, s, g[s][j], threshold, f);
            Real(g, costs, st') && RealBest(g, costs, f') && s in st'.cost
  {
    hide PathCosts, Met, Arrive;
    var a := g[s][j];
    ExtendPathCosts(g, costs, s, st.cost[s], j);
    assert st.cost[s] + a.weight + a.exit < K_MAX_COST;
    ArriveReal(g, costs, st, a.nextstate, st.cost[s] + a.weight + a.exit);
    ArriveGrows(g, st, a.nextstate, st.cost[s] + a.weight + a.exit);
  }

  lemma {:induction false} RelaxArcsReal(g: EpsGraph, costs: map<nat, int>, st: Search, s: nat, threshold: int,
                                         f: int, i: nat)
    requires ValidGraph(g) && BelowMaximum(g, costs) && s < |g| && i <= |g[s]| && s in st.cost
    requires Real(g, costs, st) && RealBest(g, costs, f)
    ensures var (st', f') := RelaxArcs(g, st, s, threshold, f, i);
            Real(g, costs, st') && RealBest(g, costs, f')
    decreases |g[s]| - i
  {
    hide Real, RealBest, RelaxArc, BelowMaximum, PathCosts, Met;
    if i < |g[s]| && !st.fault {
      var (st', f') := RelaxArc(g, st, s, g[s][i], threshold, f);
      RelaxArcReal(g, costs, st, s, i, threshold, f);
      RelaxArcsReal(g, costs, st', s, threshold, f', i + 1);
    }
  }

  lemma StepReal(g: EpsGraph, opts: Options, costs: map<nat, int>, st: Search)
    requires ValidGraph(g) && BelowMaximum(g, costs) && Sound(g, opts, st) && st.queue != []
    requires Real(g, costs, st)
    ensures st.queue[0] < |g| && Real(g, costs, Step(g, opts, st))
  {
    var s, popped := st.queue[0], st.(queue := st.queue[1..]);
    RelaxArcsReal(g, costs, popped, s, ArcThreshold(opts, st.best), K_MAX_COST, 0);
    hide RelaxArcs, PathCosts, BelowMaximum;
  }

  lemma {:induction false} StepsReal(g: EpsGraph, opts: Options, costs: map<nat, int>, st: Search, n: nat)
    requires ValidGraph(g) && BelowMaximum(g, costs) && Sound(g, opts, st) && Real(g, costs, st)
    ensures Real(g, costs, Steps(g, opts, st, n))
    decreases n
  {
    hide Real, Step, Sound, BelowMaximum;
    if n > 0 && !Done(st) {
      StepReal(g, opts, costs, st);
      StepSound(g, opts, st);
      StepsReal(g, opts, costs, Step(g, opts, st), n - 1);
    }
  }

  lemma {:induction false} LeastCostIsReal(g: EpsGraph, costs: map<nat, int>, active: seq<nat>)
    requires forall i :: 0 <= i < |active| ==> active[i] in costs
    ensures RealBest(g, costs, LeastCost(costs, active))
    ensures forall s :: s in active ==> LeastCost(costs, active) <= costs[s]
  {
    if active != [] {
      var init, s := active[..|active| - 1], active[|active| - 1];
      LeastCostIsReal(g, costs, init);
      assert active == init + [s];
      EmptyPathCosts(g, costs, s);
    }
  }

  lemma BeginReal(g: EpsGraph, costs: map<nat, int>, active: seq<nat>)
    requires ActiveList(g, costs, active)
    ensures Real(g, costs, Begin(g, costs, active))
  {
    LeastCostIsReal(g, costs, active);
    forall t | t in costs ensures PathCosts(g, costs, t, costs[t]) {
      EmptyPathCosts(g, costs, t);
    }
    hide PathCosts;
  }

  lemma EmptyPathCosts(g: EpsGraph, costs: map<nat, int>, t: nat)
    requires t in costs
    ensures PathCosts(g, costs, t, costs[t]) && Met(g, costs, costs[t])
  {
    assert EpsPath(g, t, []) && PathEnd(t, []) == t && PathCost(costs[t], []) == costs[t];
    assert PathCosts(g, costs, t, costs[t]);
  }

  // ---------- Exactness ----------

  /** `cost` holds, for exactly the states that an epsilon path reaches, the least path cost. */
  ghost predicate Exact(g: EpsGraph, costs: map<nat, int>, cost: map<nat, int>) {
    && (forall t: nat, c :: PathCosts(g, costs, t, c) ==> t in cost && cost[t] <= c)
    && (forall t :: t in cost ==> PathCosts(g, costs, t, cost[t]))
  }

  lemma {:induction false} UncutStaysBelow(g: EpsGraph, costs: map<nat, int>, s: nat, p: seq<EpsArc>, bound: int)
    requires s in costs && EpsPath(g, s, p)
    requires forall c :: Met(g, costs, c) ==> c < bound
    ensures StaysBelow(costs[s], p, bound)
    decreases |p|
  {
    assert PathCosts(g, costs, PathEnd(s, p), PathCost(costs[s], p));
    assert Met(g, costs, PathCost(costs[s], p));
    if p != [] {
      var init, a := p[..|p| - 1], p[|p| - 1];
      UncutStaysBelow(g, costs, s, init, bound);
      var q := PathEnd(s, init);
      assert PathCosts(g, costs, q, PathCost(costs[s], init));
      var j :| 0 <= j < |g[q]| && g[q][j] == a;
      ExtendPathCosts(g, costs, q, PathCost(costs[s], init), j);
    }
  }

  /** Costs below the maximum never run into a token without a traceback, and every cost kept is
      the cost of a real path. */
  lemma RunIsReal(g: EpsGraph, opts: Options, costs: map<nat, int>, active: seq<nat>, n: nat)
    requires ValidGraph(g) && ActiveList(g, costs, active) && BelowMaximum(g, costs)
    ensures Real(g, costs, Run(g, opts, costs, active, n))
  {
    hide Real, BelowMaximum, Sound;
    BeginReal(g, costs, active);
    BeginSound(g, opts, costs, active);
    StepsReal(g, opts, costs, Begin(g, costs, active), n);
  }

  /** When the beam cannot cut, a finished expansion leaves every state with the least cost of an
      epsilon path from an active state. */
  lemma FinishedIsExact(g: EpsGraph, opts: Options, costs: map<nat, int>, active: seq<nat>, n: nat)
    requires ValidGraph(g) && ActiveList(g, costs, active)
    requires BelowMaximum(g, costs) && WithinBeam(g, costs, opts.beam)
    requires Run(g, opts, costs, active, n).queue == []
    ensures !Run(g, opts, costs, active, n).fault
    ensures Exact(g, costs, Run(g, opts, costs, active, n).cost)
  {
    var st := Run(g, opts, costs, active, n);
    RunIsReal(g, opts, costs, active, n);
    forall t: nat, c | PathCosts(g, costs, t, c) ensures t in st.cost && st.cost[t] <= c {
      var s, p :| s in costs && EpsPath(g, s, p) && PathEnd(s, p) == t && PathCost(costs[s], p) == c;
      BestBelowMaximum(g, opts, costs, active, n, s);
      forall c0 | Met(g, costs, c0) ensures c0 < Bound(opts, st) {}
      UncutStaysBelow(g, costs, s, p, Bound(opts, st));
      KeptUnlessFault(g, opts, costs, active, n, s, p);
    }
  }

  lemma BestBelowMaximum(g: EpsGraph, opts: Options, costs: map<nat, int>, active: seq<nat>, n: nat, s: nat)
    requires ValidGraph(g) && ActiveList(g, costs, active) && BelowMaximum(g, costs) && s in costs
    ensures Run(g, opts, costs, active, n).best < K_MAX_COST
  {
    LeastCostIsReal(g, costs, active);
    EmptyPathCosts(g, costs, s);
    BeginSound(g, opts, costs, active);
    StepsLowerBest(g, opts, Begin(g, costs, active), n);
  }

  /** When no epsilon cycle can be reached and the beam cannot cut, the expansion finishes, and exactly. */
  lemma AcyclicIsExact(g: EpsGraph, opts: Options, rank: map<nat, nat>, costs: map<nat, int>, active: seq<nat>)
    requires Ranked(g, rank) && ActiveList(g, costs, active) && forall s :: s in costs ==> s in rank
    requires BelowMaximum(g, costs) && WithinBeam(g, costs, opts.beam)
    ensures AllRanked(rank, Begin(g, costs, active).queue)
    ensures var n := QueueWeight(g, rank, Begin(g, costs, active).queue);
            Run(g, opts, costs, active, n).queue == [] && Exact(g, costs, Run(g, opts, costs, active, n).cost)
  {
    BeginSound(g, opts, costs, active);
    AcyclicTerminates(g, opts, rank, Begin(g, costs, active));
    var n := QueueWeight(g, rank, Begin(g, costs, active).queue);
    RunIsReal(g, opts, costs, active, n);
    FinishedIsExact(g, opts, costs, active, n);
  }
}
