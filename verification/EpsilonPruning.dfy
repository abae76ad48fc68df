/** What the beam keeps out of the epsilon expansion: states that cost too much are not expanded, arcs
    that cost too much leave no token, and both are measured from the least cost found so far. */
module EpsilonPruning {
  import opened EpsilonRelaxation
  import opened EpsilonShortestPaths
  import opened EpsilonFaults
  import opened EpsilonOptimality

  // ---------- What arrives ----------

  /** Every state of `now` that `was` does not have at that cost costs less than `bound`. */
  predicate NewBelow(was: map<nat, int>, now: map<nat, int>, bound: int) {
    forall t :: t in now && (t !in was || now[t] < was[t]) ==> now[t] < bound
  }

  lemma NewBelowTrans(a: map<nat, int>, b: map<nat, int>, c: map<nat, int>, bound: int)
    requires NewBelow(a, b, bound) && NewBelow(b, c, bound)
    requires forall t :: t in a ==> t in b && b[t] <= a[t]
    requires forall t :: t in b ==> t in c && c[t] <= b[t]
    ensures NewBelow(a, c, bound)
  {
    forall t | t in c && (t !in a || c[t] < a[t]) ensures c[t] < bound {
      if t in b && c[t] == b[t] {
        assert t !in a || b[t] < a[t];
      }
    }
  }

  lemma RelaxArcBelow(g: EpsGraph, st: Search, s: nat, a: EpsArc, threshold: int, f: int)
    requires a.nextstate < |g|
    ensures NewBelow(st.cost, RelaxArc(g, st, s, a, threshold, f).0.cost, threshold)
  {
  }

  lemma {:induction false} RelaxArcsBelow(g: EpsGraph, opts: Options, st: Search, s: nat, threshold: int, f: int,
                                          i: nat)
    requires ValidGraph(g) && Sound(g, opts, st) && s < |g| && i <= |g[s]|
    ensures NewBelow(st.cost, RelaxArcs(g, st, s, threshold, f, i).0.cost, threshold)
    decreases |g[s]| - i
  {
    hide RelaxArc, Sound, NewBelow;
    if i == |g[s]| || st.fault {
      NothingNew(st.cost, threshold);
    } else {
      var (st', f') := RelaxArc(g, st, s, g[s][i], threshold, f);
      RelaxArcGrows(g, opts, st, s, g[s][i], threshold, f);
      RelaxArcBelow(g, st, s, g[s][i], threshold, f);
      RelaxArcsBelow(g, opts, st', s, threshold, f', i + 1);
      RelaxArcsGrows(g, opts, st', s, threshold, f', i + 1);
      NewBelowTrans(st.cost, st'.cost, RelaxArcs(g, st', s, threshold, f', i + 1).0.cost, threshold);
    }
  }

  lemma NothingNew(cost: map<nat, int>, bound: int)
    ensures NewBelow(cost, cost, bound)
  {
  }

  /** What arrives in a step with pruning on costs less than the best cost at that pop plus the beam. */
  lemma StepPrunes(g: EpsGraph, opts: Options, st: Search)
    requires ValidGraph(g) && Sound(g, opts, st) && st.queue != [] && st.queue[0] < |g|
    ensures opts.pruneEps ==> NewBelow(st.cost, Step(g, opts, st).cost, st.best + opts.beam)
    ensures !opts.pruneEps ==> NewBelow(st.cost, Step(g, opts, st).cost, K_MAX_COST)
  {
    var s, popped := st.queue[0], st.(queue := st.queue[1..]);
    assert Sound(g, opts, popped);
    NothingNew(st.cost, ArcThreshold(opts, st.best));
    RelaxArcsBelow(g, opts, popped, s, ArcThreshold(opts, st.best), K_MAX_COST, 0);
    hide Sound, RelaxArcs, NewBelow;
  }

  lemma {:induction false} StepsPrune(g: EpsGraph, opts: Options, st: Search, n: nat, bound: int)
    requires ValidGraph(g) && Sound(g, opts, st) && opts.pruneEps && st.best + opts.beam <= bound
    ensures NewBelow(st.cost, Steps(g, opts, st, n).cost, bound)
    ensures forall t :: t in st.cost ==> t in Steps(g, opts, st, n).cost && Steps(g, opts, st, n).cost[t] <= st.cost[t]
    decreases n
  {
    hide Sound, Step, NewBelow;
    if n == 0 || Done(st) {
      NothingNew(st.cost, bound);
    } else {
      StepSound(g, opts, st);
      StepPrunes(g, opts, st);
      var next := Step(g, opts, st);
      StepsPrune(g, opts, next, n - 1, bound);
      NewBelowLoosens(st.cost, next.cost, st.best + opts.beam, bound);
      NewBelowTrans(st.cost, next.cost, Steps(g, opts, next, n - 1).cost, bound);
    }
  }

  lemma NewBelowLoosens(was: map<nat, int>, now: map<nat, int>, bound: int, bound': int)
    requires NewBelow(was, now, bound) && bound <= bound'
    ensures NewBelow(was, now, bound')
  {
  }

  /** With pruning on nothing at or beyond the least starting cost plus the beam is ever activated or
      improved to. */
  lemma BeamPrunes(g: EpsGraph, opts: Options, costs: map<nat, int>, active: seq<nat>, n: nat)
    requires ValidGraph(g) && ActiveList(g, costs, active) && opts.pruneEps
    ensures var st := Run(g, opts, costs, active, n);
            forall t :: t in st.cost && (t !in costs || st.cost[t] < costs[t]) ==>
              st.cost[t] < LeastCost(costs, active) + opts.beam
  {
    hide Sound, Steps;
    BeginSound(g, opts, costs, active);
    StepsPrune(g, opts, Begin(g, costs, active), n, LeastCost(costs, active) + opts.beam);
  }

  // ---------- What is expanded ----------

  /** `best` is the least cost, or the cost of no token when none is below that. */
  predicate BestIsLeast(cost: map<nat, int>, best: int) {
    && best <= K_MAX_COST
    && (forall t :: t in cost ==> best <= cost[t])
    && (best < K_MAX_COST ==> exists t :: t in cost && cost[t] == best)
  }

  /** The costs so far, with `f` the least that has arrived since. */
  predicate Tracks(cost: map<nat, int>, best: int, f: int) {
    BestIsLeast(cost, Min(best, f))
  }

  lemma ArriveTracks(g: EpsGraph, st: Search, t: nat, out: int, f: int)
    requires t < |g| && Tracks(st.cost, st.best, f)
    ensures Tracks(Arrive(g, st, t, out).cost, st.best, Min(f, out))
  {
    var cost', least := Arrive(g, st, t, out).cost, Min(st.best, Min(f, out));
    assert cost'[t] == Min(st.CostOf(t), out);
    if least < K_MAX_COST {
      if out <= Min(st.best, f) {
        assert cost'[t] == least;
      } else {
        var u :| u in st.cost && st.cost[u] == Min(st.best, f);
        assert cost'[u] == least;
      }
    }
  }

  lemma RelaxArcTracks(g: EpsGraph, st: Search, s: nat, a: EpsArc, threshold: int, f: int)
    requires a.nextstate < |g| && Tracks(st.cost, st.best, f)
    ensures var (st', f') := RelaxArc(g, st, s, a, threshold, f); Tracks(st'.cost, st.best, f') && st'.best == st.best
  {
    hide Tracks;
    ArriveTracks(g, st, a.nextstate, st.CostOf(s) + a.weight + a.exit, f);
  }

  lemma {:induction false} RelaxArcsTrack(g: EpsGraph, st: Search, s: nat, threshold: int, f: int, i: nat)
    requires ValidGraph(g) && s < |g| && i <= |g[s]| && Tracks(st.cost, st.best, f)
    ensures var (st', f') := RelaxArcs(g, st, s, threshold, f, i);
            Tracks(st'.cost, st.best, f') && st'.best == st.best && st'.threshold == st.threshold
    decreases |g[s]| - i
  {
    hide RelaxArc, Tracks;
    if i < |g[s]| && !st.fault {
      var (st', f') := RelaxArc(g, st, s, g[s][i], threshold, f);
      RelaxArcTracks(g, st, s, g[s][i], threshold, f);
      RelaxArcThreshold(g, st, s, g[s][i], threshold, f);
      RelaxArcsTrack(g, st', s, threshold, f', i + 1);
    }
  }

  lemma RelaxArcThreshold(g: EpsGraph, st: Search, s: nat, a: EpsArc, threshold: int, f: int)
    requires a.nextstate < |g|
    ensures RelaxArc(g, st, s, a, threshold, f).0.threshold == st.threshold
  {
  }

  /** The bounds are what they are meant to be: the best cost is the least, and states are cut beyond it
      and the beam as soon as it has dropped below the first one. */
  predicate Bounded(opts: Options, st: Search, first: int) {
    && st.best <= first && BestIsLeast(st.cost, st.best)
    && st.threshold == if st.best < first then st.best + opts.beam else K_MAX_COST
  }

  lemma StartTracks(cost: map<nat, int>, best: int)
    requires BestIsLeast(cost, best)
    ensures Tracks(cost, best, K_MAX_COST)
  {
  }

  lemma StepBounded(g: EpsGraph, opts: Options, st: Search, first: int)
    requires ValidGraph(g) && st.queue != [] && st.queue[0] < |g| && Bounded(opts, st, first)
    ensures !Step(g, opts, st).fault ==> Bounded(opts, Step(g, opts, st), first)
  {
    hide RelaxArcs, BestIsLeast;
    var s, popped := st.queue[0], st.(queue := st.queue[1..]);
    StartTracks(st.cost, st.best);
    RelaxArcsTrack(g, popped, s, ArcThreshold(opts, st.best), K_MAX_COST, 0);
  }

  lemma {:induction false} StepsBounded(g: EpsGraph, opts: Options, st: Search, n: nat, first: int)
    requires ValidGraph(g) && Sound(g, opts, st) && Bounded(opts, st, first) && !Steps(g, opts, st, n).fault
    ensures Bounded(opts, Steps(g, opts, st, n), first)
    decreases n
  {
    hide Sound, Step, Bounded;
    if n > 0 && !Done(st) {
      StepSound(g, opts, st);
      StepBounded(g, opts, st, first);
      StepsBounded(g, opts, Step(g, opts, st), n - 1, first);
    }
  }

  /** In every state of a run without a fault the best cost is the least cost of an active state, and the
      threshold for states is exactly that plus the beam, once it lies below the least starting cost. */
  lemma RunBounds(g: EpsGraph, opts: Options, costs: map<nat, int>, active: seq<nat>, n: nat)
    requires ValidGraph(g) && ActiveList(g, costs, active) && !Run(g, opts, costs, active, n).fault
    ensures var (st, first) := (Run(g, opts, costs, active, n), LeastCost(costs, active));
            && st.best <= K_MAX_COST
            && (forall t :: t in st.cost ==> st.best <= st.cost[t])
            && (st.best < K_MAX_COST ==> exists t :: t in st.cost && st.cost[t] == st.best)
            && st.threshold == (if st.best < first then st.best + opts.beam else K_MAX_COST)
  {
    hide Sound, Steps;
    BeginSound(g, opts, costs, active);
    BeginBounded(g, opts, costs, active);
    StepsBounded(g, opts, Begin(g, costs, active), n, LeastCost(costs, active));
  }

  lemma BeginBounded(g: EpsGraph, opts: Options, costs: map<nat, int>, active: seq<nat>)
    requires ActiveList(g, costs, active)
    ensures Bounded(opts, Begin(g, costs, active), LeastCost(costs, active))
  {
    AllCostMore(costs, active);
    forall t | t in costs ensures LeastCost(costs, active) <= costs[t] {
      var i :| 0 <= i < |active| && active[i] == t;
    }
  }

  /** A popped state that costs the least cost plus the beam or more is dropped: nothing else changes. */
  lemma DearStateIsDropped(g: EpsGraph, opts: Options, costs: map<nat, int>, active: seq<nat>, n: nat)
    requires ValidGraph(g) && ActiveList(g, costs, active)
    requires var st := Run(g, opts, costs, active, n);
             && !Done(st) && st.best < LeastCost(costs, active)
             && st.queue[0] in st.cost && st.cost[st.queue[0]] >= st.best + opts.beam
    ensures var st := Run(g, opts, costs, active, n);
            Run(g, opts, costs, active, n + 1) == st.(queue := st.queue[1..])
  {
    RunBounds(g, opts, costs, active, n);
    hide Sound;
    StepsExtend(g, opts, Begin(g, costs, active), n);
  }

  // ---------- Only paths within the beam ----------

  /** Every arc of the path is entered and left at a cost below `bound`. */
  predicate EntersBelow(c0: int, p: seq<EpsArc>, bound: int) {
    p == [] || (EntersBelow(c0, p[..|p| - 1], bound)
                && PathCost(c0, p[..|p| - 1]) + p[|p| - 1].weight < bound && PathCost(c0, p) < bound)
  }

  /** `c` is the cost of such a path from an active state to `t`. */
  ghost predicate WithinCosts(g: EpsGraph, costs: map<nat, int>, t: nat, c: int, bound: int) {
    exists s, p :: s in costs && EpsPath(g, s, p) && PathEnd(s, p) == t && PathCost(costs[s], p) == c
                   && EntersBelow(costs[s], p, bound)
  }

  ghost predicate AllWithin(g: EpsGraph, costs: map<nat, int>, cost: map<nat, int>, bound: int) {
    forall t :: t in cost ==> WithinCosts(g, costs, t, cost[t], bound)
  }

  lemma ExtendWithin(g: EpsGraph, costs: map<nat, int>, t: nat, c: int, j: nat, bound: int)
    requires WithinCosts(g, costs, t, c, bound) && t < |g| && j < |g[t]|
    requires c + g[t][j].weight < bound && c + g[t][j].weight + g[t][j].exit < bound
    ensures WithinCosts(g, costs, g[t][j].nextstate, c + g[t][j].weight + g[t][j].exit, bound)
  {
    var s, p :| s in costs && EpsPath(g, s, p) && PathEnd(s, p) == t && PathCost(costs[s], p) == c
                && EntersBelow(costs[s], p, bound);
    var q := p + [g[t][j]];
    assert q[..|p|] == p;
    assert EpsPath(g, s, q) && EntersBelow(costs[s], q, bound);
  }

  lemma RelaxArcWithin(g: EpsGraph, costs: map<nat, int>, st: Search, s: nat, j: nat, threshold: int, f: int,
                       bound: int)
    requires ValidGraph(g) && s < |g| && j < |g[s]| && s in st.cost && AllWithin(g, costs, st.cost, bound)
    requires threshold <= bound <= K_MAX_COST
    ensures var st' := RelaxArc(g, st, s, g[s][j], threshold, f).0;
            s in st'.cost && AllWithin(g, costs, st'.cost, bound)
  {
    hide WithinCosts;
    var a := g[s][j];
    if st.cost[s] + a.weight < threshold && st.cost[s] + a.weight + a.exit < threshold {
      ExtendWithin(g, costs, s, st.cost[s], j, bound);
    }
  }

  lemma {:induction false} RelaxArcsWithin(g: EpsGraph, costs: map<nat, int>, st: Search, s: nat, threshold: int,
                                           f: int, i: nat, bound: int)
    requires ValidGraph(g) && s < |g| && i <= |g[s]| && s in st.cost && AllWithin(g, costs, st.cost, bound)
    requires threshold <= bound <= K_MAX_COST
    ensures AllWithin(g, costs, RelaxArcs(g, st, s, threshold, f, i).0.cost, bound)
    decreases |g[s]| - i
  {
    hide RelaxArc, AllWithin;
    if i < |g[s]| && !st.fault {
      var (st', f') := RelaxArc(g, st, s, g[s][i], threshold, f);
      RelaxArcWithin(g, costs, st, s, i, threshold, f, bound);
      RelaxArcsWithin(g, costs, st', s, threshold, f', i + 1, bound);
    }
  }

  lemma {:induction false} StepsWithin(g: EpsGraph, opts: Options, costs: map<nat, int>, st: Search, n: nat, bound: int)
    requires ValidGraph(g) && Sound(g, opts, st) && AllWithin(g, costs, st.cost, bound) && bound <= K_MAX_COST
    requires if opts.pruneEps then st.best + opts.beam <= bound else bound == K_MAX_COST
    ensures AllWithin(g, costs, Steps(g, opts, st, n).cost, bound)
    decreases n
  {
    hide AllWithin, RelaxArcs;
    if n > 0 && !Done(st) {
      StepSound(g, opts, st);
      var popped := st.(queue := st.queue[1..]);
      RelaxArcsWithin(g, costs, popped, st.queue[0], ArcThreshold(opts, st.best), K_MAX_COST, 0, bound);
      StepsWithin(g, opts, costs, Step(g, opts, st), n - 1, bound);
    }
  }

  /** Every cost kept is the cost of an epsilon path from an active state on which every arc is entered
      and left below the maximum cost and, with pruning on, below the least starting cost plus the beam. */
  lemma KeptIsWithinBeam(g: EpsGraph, opts: Options, costs: map<nat, int>, active: seq<nat>, n: nat, t: nat)
    requires ValidGraph(g) && ActiveList(g, costs, active) && t in Run(g, opts, costs, active, n).cost
    requires opts.pruneEps ==> LeastCost(costs, active) + opts.beam <= K_MAX_COST
    ensures WithinCosts(g, costs, t, Run(g, opts, costs, active, n).cost[t],
                        if opts.pruneEps then LeastCost(costs, active) + opts.beam else K_MAX_COST)
  {
    hide Sound, Steps, WithinCosts, LeastCost;
    var bound := if opts.pruneEps then LeastCost(costs, active) + opts.beam else K_MAX_COST;
    BeginSound(g, opts, costs, active);
    forall u | u in costs ensures WithinCosts(g, costs, u, costs[u], bound) {
      StartWithin(g, costs, u, bound);
    }
    StepsWithin(g, opts, costs, Begin(g, costs, active), n, bound);
  }

  lemma StartWithin(g: EpsGraph, costs: map<nat, int>, t: nat, bound: int)
    requires t in costs
    ensures WithinCosts(g, costs, t, costs[t], bound)
  {
    assert EpsPath(g, t, []) && PathEnd(t, []) == t && PathCost(costs[t], []) == costs[t];
  }
}
