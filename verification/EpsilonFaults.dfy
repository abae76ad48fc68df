/** When the epsilon expansion passes on a token that has no traceback, exactly: an arc that costs too
    much to enter still shows the cost of no token, and a threshold above that cost lets it by. */
module EpsilonFaults {
  import opened EpsilonRelaxation
  import opened EpsilonShortestPaths

  // ---------- One step ----------

  /** The search after the first `k` arcs of `s`. */
  function RelaxFirst(g: EpsGraph, st: Search, s: nat, threshold: int, f: int, k: nat): (Search, int)
    requires ValidGraph(g) && s < |g| && k <= |g[s]|
  {
    if k == 0 then (st, f) else
      var (st', f') := RelaxFirst(g, st, s, threshold, f, k - 1);
      if st'.fault then (st', f') else RelaxArc(g, st', s, g[s][k - 1], threshold, f')
  }

  lemma {:induction false} RelaxFirstGoesOn(g: EpsGraph, st: Search, s: nat, threshold: int, f: int, k: nat)
    requires ValidGraph(g) && s < |g| && k <= |g[s]|
    ensures var (st', f') := RelaxFirst(g, st, s, threshold, f, k);
            RelaxArcs(g, st', s, threshold, f', k) == RelaxArcs(g, st, s, threshold, f, 0)
  {
    hide RelaxArc;
    if k > 0 {
      RelaxFirstGoesOn(g, st, s, threshold, f, k - 1);
    }
  }

  /** The arc `j` of `s` costs too much to enter when its turn comes. */
  predicate TooDear(g: EpsGraph, st: Search, s: nat, threshold: int, f: int, j: nat)
    requires ValidGraph(g) && s < |g| && j < |g[s]|
  {
    RelaxFirst(g, st, s, threshold, f, j).0.CostOf(s) + g[s][j].weight >= K_MAX_COST
  }

  ghost predicate SomeTooDear(g: EpsGraph, st: Search, s: nat, threshold: int, f: int, k: nat)
    requires ValidGraph(g) && s < |g| && k <= |g[s]|
  {
    exists j :: 0 <= j < k && TooDear(g, st, s, threshold, f, j)
  }

  lemma {:induction false} FirstArcsFault(g: EpsGraph, st: Search, s: nat, threshold: int, f: int, k: nat)
    requires ValidGraph(g) && s < |g| && k <= |g[s]| && !st.fault
    ensures RelaxFirst(g, st, s, threshold, f, k).0.fault
            <==> K_MAX_COST < threshold && SomeTooDear(g, st, s, threshold, f, k)
  {
    hide RelaxArc, TooDear;
    if k > 0 {
      FirstArcsFault(g, st, s, threshold, f, k - 1);
      var (st', f') := RelaxFirst(g, st, s, threshold, f, k - 1);
      if st'.fault {
        var j :| 0 <= j < k - 1 && TooDear(g, st, s, threshold, f, j);
      } else {
        ArcFaults(g, st', s, g[s][k - 1], threshold, f');
        DearNow(g, st, s, threshold, f, k - 1);
      }
    }
  }

  lemma DearNow(g: EpsGraph, st: Search, s: nat, threshold: int, f: int, j: nat)
    requires ValidGraph(g) && s < |g| && j < |g[s]|
    ensures TooDear(g, st, s, threshold, f, j)
       <==> RelaxFirst(g, st, s, threshold, f, j).0.CostOf(s) + g[s][j].weight >= K_MAX_COST
  {
  }

  lemma ArcFaults(g: EpsGraph, st: Search, s: nat, a: EpsArc, threshold: int, f: int)
    requires a.nextstate < |g| && !st.fault
    ensures RelaxArc(g, st, s, a, threshold, f).0.fault
       <==> K_MAX_COST < threshold && st.CostOf(s) + a.weight >= K_MAX_COST
  {
  }

  /** The state about to be popped is expanded, with a threshold above the cost of no token, and has
      an arc that costs too much to enter. */
  ghost predicate FaultNext(g: EpsGraph, opts: Options, st: Search)
    requires ValidGraph(g) && st.queue != [] && st.queue[0] < |g|
  {
    var s, popped := st.queue[0], st.(queue := st.queue[1..]);
    && opts.pruneEps && st.best + opts.beam > K_MAX_COST && st.CostOf(s) < st.threshold
    && SomeTooDear(g, popped, s, st.best + opts.beam, K_MAX_COST, |g[s]|)
  }

  lemma StepFaults(g: EpsGraph, opts: Options, st: Search)
    requires ValidGraph(g) && st.queue != [] && st.queue[0] < |g| && !st.fault
    ensures Step(g, opts, st).fault <==> FaultNext(g, opts, st)
  {
    hide RelaxArc, SomeTooDear, RelaxFirst;
    var s, popped := st.queue[0], st.(queue := st.queue[1..]);
    var threshold := ArcThreshold(opts, st.best);
    RelaxFirstGoesOn(g, popped, s, threshold, K_MAX_COST, |g[s]|);
    FirstArcsFault(g, popped, s, threshold, K_MAX_COST, |g[s]|);
  }

  // ---------- Runs ----------

  ghost predicate FaultAt(g: EpsGraph, opts: Options, st: Search, k: nat)
    requires ValidGraph(g) && Sound(g, opts, st)
  {
    var at := Steps(g, opts, st, k);
    !Done(at) && at.queue[0] < |g| && FaultNext(g, opts, at)
  }

  lemma {:induction false} StepsFault(g: EpsGraph, opts: Options, st: Search, n: nat)
    requires ValidGraph(g) && Sound(g, opts, st) && !st.fault
    ensures Steps(g, opts, st, n).fault <==> exists k :: 0 <= k < n && FaultAt(g, opts, st, k)
  {
    hide Sound, Step, FaultNext;
    if n > 0 {
      StepsFault(g, opts, st, n - 1);
      var at := Steps(g, opts, st, n - 1);
      if Done(at) {
        StepsAfterDone(g, opts, st, n - 1, n);
        assert !FaultAt(g, opts, st, n - 1);
      } else {
        StepsExtend(g, opts, st, n - 1);
        StepFaults(g, opts, at);
        assert FaultAt(g, opts, st, n - 1) <==> FaultNext(g, opts, at);
      }
    }
  }

  /** A run passes on a token without a traceback exactly when it expands a state, with pruning on and
      a threshold above the cost of no token, that has an arc whose entry costs as much as no token. */
  lemma RunFaults(g: EpsGraph, opts: Options, costs: map<nat, int>, active: seq<nat>, n: nat)
    requires ValidGraph(g) && ActiveList(g, costs, active)
    ensures Sound(g, opts, Begin(g, costs, active))
    ensures Run(g, opts, costs, active, n).fault
       <==> exists k :: 0 <= k < n && FaultAt(g, opts, Begin(g, costs, active), k)
  {
    BeginSound(g, opts, costs, active);
    StepsFault(g, opts, Begin(g, costs, active), n);
  }

  // ---------- What a caller can check ----------

  /** Pruning is off, or no active state has a token, or the first threshold is not above the cost of
      no token. */
  predicate Guarded(opts: Options, costs: map<nat, int>, active: seq<nat>)
    requires forall i :: 0 <= i < |active| ==> active[i] in costs
  {
    !opts.pruneEps || LeastCost(costs, active) >= K_MAX_COST || LeastCost(costs, active) + opts.beam <= K_MAX_COST
  }

  lemma GuardedNeverFaults(g: EpsGraph, opts: Options, costs: map<nat, int>, active: seq<nat>, n: nat)
    requires ValidGraph(g) && ActiveList(g, costs, active) && Guarded(opts, costs, active)
    ensures !Run(g, opts, costs, active, n).fault
  {
    BeginSound(g, opts, costs, active);
    var first := Begin(g, costs, active);
    if LeastCost(costs, active) >= K_MAX_COST {
      AllCostMore(costs, active);
      forall s | s in costs ensures costs[s] >= K_MAX_COST {
        var i :| 0 <= i < |active| && active[i] == s;
      }
      StepsStayDear(g, opts, first, n);
    } else {
      RunFaults(g, opts, costs, active, n);
      forall k | 0 <= k < n ensures !FaultAt(g, opts, first, k) {
        StepsLowerBest(g, opts, first, k);
      }
    }
  }

  lemma {:induction false} AllCostMore(costs: map<nat, int>, active: seq<nat>)
    requires forall i :: 0 <= i < |active| ==> active[i] in costs
    ensures forall i :: 0 <= i < |active| ==> LeastCost(costs, active) <= costs[active[i]]
    ensures LeastCost(costs, active) < K_MAX_COST ==>
              exists i :: 0 <= i < |active| && costs[active[i]] == LeastCost(costs, active)
    ensures LeastCost(costs, active) <= K_MAX_COST
  {
    if active != [] {
      AllCostMore(costs, active[..|active| - 1]);
      assert active[..|active| - 1] + [active[|active| - 1]] == active;
    }
  }

  /** Without a token nothing is ever expanded. */
  lemma {:induction false} StepsStayDear(g: EpsGraph, opts: Options, st: Search, n: nat)
    requires ValidGraph(g) && Sound(g, opts, st) && !st.fault && st.threshold == K_MAX_COST
    requires forall s :: s in st.cost ==> st.cost[s] >= K_MAX_COST
    ensures !Steps(g, opts, st, n).fault
    decreases n
  {
    if n > 0 && !Done(st) {
      StepSound(g, opts, st);
      assert Step(g, opts, st) == st.(queue := st.queue[1..]);
      StepsStayDear(g, opts, Step(g, opts, st), n - 1);
    }
  }

  // ---------- The guard is exact ----------

  /** `active` lists the states with a cost once each. */
  ghost predicate Lists(costs: map<nat, int>, active: seq<nat>) {
    && (forall i :: 0 <= i < |active| ==> active[i] in costs)
    && (forall s :: s in costs ==> s in active)
    && forall i, j :: 0 <= i < j < |active| ==> active[i] != active[j]
  }

  lemma {:induction false} AboveAll(active: seq<nat>) returns (n: nat)
    ensures forall i :: 0 <= i < |active| ==> active[i] < n
  {
    if active == [] {
      n := 0;
    } else {
      n := AboveAll(active[..|active| - 1]);
      if n <= active[|active| - 1] { n := active[|active| - 1] + 1; }
    }
  }

  /** One arc, from `m` to itself. */
  function OneArc(size: nat, m: nat, weight: int): (g: EpsGraph)
    requires m < size
    ensures |g| == size && g[m] == [EpsArc(weight, 0, m)] && forall s :: 0 <= s < size && s != m ==> g[s] == []
    ensures ValidGraph(g)
  {
    seq(size, s => if s == m then [EpsArc(weight, 0, m)] else [])
  }

  /** An arc from a cheapest active state, so heavy that entering it costs as much as no token. */
  lemma HeavyArcFaults(opts: Options, costs: map<nat, int>, active: seq<nat>) returns (g: EpsGraph)
    requires Lists(costs, active) && !Guarded(opts, costs, active)
    ensures ValidGraph(g) && ActiveList(g, costs, active) && Run(g, opts, costs, active, 1).fault
  {
    hide Step, RelaxArcs, Sound, Steps, OneArc;
    AllCostMore(costs, active);
    var least := LeastCost(costs, active);
    var i :| 0 <= i < |active| && costs[active[i]] == least;
    var m := active[i];
    var size := AboveAll(active);
    g := OneArc(size, m, K_MAX_COST - least);
    BeginSound(g, opts, costs, active);
    OnlyHeavy(g, active, m);
    FirstArcTooDear(g, opts, Begin(g, costs, active), m);
  }

  lemma {:induction false} OnlyHeavy(g: EpsGraph, active: seq<nat>, m: nat)
    requires forall i :: 0 <= i < |active| ==> active[i] < |g| && (g[active[i]] != [] <==> active[i] == m)
    requires forall i, j :: 0 <= i < j < |active| ==> active[i] != active[j]
    ensures WithEpsilons(g, active) == if m in active then [m] else []
  {
    if active != [] {
      var init := active[..|active| - 1];
      OnlyHeavy(g, init, m);
      assert active == init + [active[|active| - 1]];
    }
  }

  lemma FirstArcTooDear(g: EpsGraph, opts: Options, st: Search, m: nat)
    requires ValidGraph(g) && Sound(g, opts, st) && st.queue == [m] && m < |g| && g[m] != [] && !st.fault
    requires opts.pruneEps && st.best + opts.beam > K_MAX_COST && st.CostOf(m) < st.threshold
    requires st.CostOf(m) + g[m][0].weight >= K_MAX_COST
    ensures Steps(g, opts, st, 1).fault
  {
    hide Sound, Step, RelaxArc;
    var popped := st.(queue := []);
    assert st.queue[1..] == [];
    DearNow(g, popped, m, st.best + opts.beam, K_MAX_COST, 0);
    StepFaults(g, opts, st);
    StepSound(g, opts, st);
    assert Steps(g, opts, Step(g, opts, st), 0) == Step(g, opts, st);
  }

  /** Some network faults exactly when the guard fails. */
  lemma FaultPossibleIffUnguarded(opts: Options, costs: map<nat, int>, active: seq<nat>)
    requires Lists(costs, active)
    ensures (exists g, n :: ValidGraph(g) && ActiveList(g, costs, active) && Run(g, opts, costs, active, n).fault)
       <==> !Guarded(opts, costs, active)
  {
    if Guarded(opts, costs, active) {
      forall g, n: nat | ValidGraph(g) && ActiveList(g, costs, active) ensures !Run(g, opts, costs, active, n).fault {
        GuardedNeverFaults(g, opts, costs, active, n);
      }
    } else {
      var g := HeavyArcFaults(opts, costs, active);
      assert Run(g, opts, costs, active, 1).fault;
    }
  }

  /** A network on which it happens: one arc of weight 2^31, from a state of cost 1, with a beam of 2^31. */
  lemma FaultHappens()
    ensures var g, opts := [[EpsArc(K_MAX_COST, 0, 0)]], Options(K_MAX_COST, true);
            ValidGraph(g) && ActiveList(g, map[0 := 1], [0]) && Run(g, opts, map[0 := 1], [0], 1).fault
  {
    hide Step, RelaxArcs, Sound, Steps, LeastCost, WithEpsilons;
    var g: EpsGraph, opts := [[EpsArc(K_MAX_COST, 0, 0)]], Options(K_MAX_COST, true);
    var costs: map<nat, int> := map[0 := 1];
    BeginSound(g, opts, costs, [0]);
    CostOfOne();
    OnlyHeavy(g, [0], 0);
    FirstArcTooDear(g, opts, Begin(g, costs, [0]), 0);
  }

  lemma CostOfOne()
    ensures LeastCost(map[0 := 1], [0]) == 1
  {
    assert [0][..0] == [] && LeastCost(map[0 := 1], []) == K_MAX_COST;
  }
}
