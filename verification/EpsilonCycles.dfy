/** Why the epsilon expansion needs an acyclic graph: states are queued again even when their
    cost does not drop, so a cycle that pruning leaves alone keeps the queue busy for ever. */
module EpsilonCycles {
  import opened EpsilonRelaxation
  import opened EpsilonShortestPaths

  /** Every state of `loop` has an epsilon arc back into `loop`: it holds a cycle. */
  ghost predicate Recurrent(g: EpsGraph, loop: set<nat>) {
    forall s :: s in loop ==> LeadsInto(g, s, loop)
  }

  ghost predicate LeadsInto(g: EpsGraph, s: nat, loop: set<nat>) {
    s < |g| && exists i :: 0 <= i < |g[s]| && g[s][i].nextstate in loop
  }

  /** Neither the threshold nor the beam nor the maximum cost cuts the state about to be popped. */
  ghost predicate Uncut(g: EpsGraph, opts: Options, st: Search)
    requires st.queue != [] && st.queue[0] < |g|
  {
    var s, limit := st.queue[0], Min(K_MAX_COST, ArcThreshold(opts, st.best));
    && st.CostOf(s) < st.threshold
    && forall i :: 0 <= i < |g[s]| ==>
         st.CostOf(s) + g[s][i].weight < limit && st.CostOf(s) + g[s][i].weight + g[s][i].exit < limit
  }

  lemma {:induction false} RelaxArcsReach(g: EpsGraph, opts: Options, st: Search, s: nat, threshold: int, f: int,
                                          i: nat, k: nat)
    requires ValidGraph(g) && Sound(g, opts, st) && s < |g| && i <= |g[s]| && s in st.cost && !st.fault
    requires forall j :: 0 <= j < |g[s]| ==>
               st.cost[s] + g[s][j].weight < threshold && st.cost[s] + g[s][j].weight < K_MAX_COST
               && st.cost[s] + g[s][j].weight + g[s][j].exit < threshold
    requires i <= k < |g[s]| && g[g[s][k].nextstate] != []
    ensures var st' := RelaxArcs(g, st, s, threshold, f, i).0;
            !st'.fault && g[s][k].nextstate in st'.queue
    decreases |g[s]| - i
  {
    hide Sound;
    var (st1, f1) := RelaxArc(g, st, s, g[s][i], threshold, f);
    RelaxArcGrows(g, opts, st, s, g[s][i], threshold, f);
    if i < k {
      RelaxArcsReach(g, opts, st1, s, threshold, f1, i + 1, k);
    } else {
      RelaxArcsGrows(g, opts, st1, s, threshold, f1, i + 1);
      RelaxArcsNoFault(g, opts, st1, s, threshold, f1, i + 1);
    }
  }

  lemma {:induction false} RelaxArcsNoFault(g: EpsGraph, opts: Options, st: Search, s: nat, threshold: int,
                                            f: int, i: nat)
    requires ValidGraph(g) && Sound(g, opts, st) && s < |g| && i <= |g[s]| && s in st.cost && !st.fault
    requires forall j :: 0 <= j < |g[s]| ==>
               st.cost[s] + g[s][j].weight < threshold && st.cost[s] + g[s][j].weight < K_MAX_COST
    ensures !RelaxArcs(g, st, s, threshold, f, i).0.fault
    decreases |g[s]| - i
  {
    hide Sound;
    if i < |g[s]| {
      var (st1, f1) := RelaxArc(g, st, s, g[s][i], threshold, f);
      RelaxArcGrows(g, opts, st, s, g[s][i], threshold, f);
      RelaxArcsNoFault(g, opts, st1, s, threshold, f1, i + 1);
    }
  }

  lemma PoppedSound(g: EpsGraph, opts: Options, st: Search)
    requires Sound(g, opts, st) && st.queue != []
    ensures st.queue[0] < |g| && st.queue[0] in st.cost
    ensures Sound(g, opts, st.(queue := st.queue[1..]))
    ensures forall c :: c in st.queue ==> c < |g| && g[c] != []
  {
  }

  /** The popped state's arcs queue their targets, and what was queued stays queued. */
  lemma UncutStep(g: EpsGraph, opts: Options, st: Search)
    requires ValidGraph(g) && Sound(g, opts, st) && !st.fault && st.queue != []
    ensures st.queue[0] < |g|
    ensures Uncut(g, opts, st) ==>
              && !Step(g, opts, st).fault
              && (forall c :: c in st.queue[1..] ==> c in Step(g, opts, st).queue)
              && forall k :: 0 <= k < |g[st.queue[0]]| && g[g[st.queue[0]][k].nextstate] != [] ==>
                   g[st.queue[0]][k].nextstate in Step(g, opts, st).queue
  {
    PoppedSound(g, opts, st);
    hide Sound, RelaxArcs;
    var s, popped := st.queue[0], st.(queue := st.queue[1..]);
    var threshold := ArcThreshold(opts, st.best);
    if Uncut(g, opts, st) {
      RelaxArcsGrows(g, opts, popped, s, threshold, K_MAX_COST, 0);
      RelaxArcsNoFault(g, opts, popped, s, threshold, K_MAX_COST, 0);
      assert Step(g, opts, st).queue == RelaxArcs(g, popped, s, threshold, K_MAX_COST, 0).0.queue;
      forall k | 0 <= k < |g[s]| && g[g[s][k].nextstate] != []
        ensures g[s][k].nextstate in Step(g, opts, st).queue
      {
        RelaxArcsReach(g, opts, popped, s, threshold, K_MAX_COST, 0, k);
      }
    }
  }

  lemma StepKeepsLoop(g: EpsGraph, opts: Options, loop: set<nat>, st: Search, c: nat)
    requires ValidGraph(g) && Sound(g, opts, st) && !st.fault && Recurrent(g, loop)
    requires c in st.queue && c in loop
    ensures st.queue != [] && st.queue[0] < |g|
    ensures Uncut(g, opts, st) ==>
              !Step(g, opts, st).fault && exists c' :: c' in loop && c' in Step(g, opts, st).queue
  {
    UncutStep(g, opts, st);
    hide Sound, Step, Uncut;
    if Uncut(g, opts, st) {
      var s := st.queue[0];
      if s == c {
        assert LeadsInto(g, s, loop);
        var k :| 0 <= k < |g[s]| && g[s][k].nextstate in loop;
        assert LeadsInto(g, g[s][k].nextstate, loop);
        assert g[s][k].nextstate in Step(g, opts, st).queue;
      } else {
        assert c in st.queue[1..];
      }
    }
  }

  /** As long as nothing is cut, a queued state that reaches a cycle keeps the queue from emptying. */
  lemma {:induction false} CycleNeverFinishes(g: EpsGraph, opts: Options, loop: set<nat>, st: Search, n: nat, c: nat)
    requires ValidGraph(g) && Sound(g, opts, st) && !st.fault && Recurrent(g, loop)
    requires c in st.queue && c in loop
    requires forall k {:trigger Steps(g, opts, st, k)} :: 0 <= k < n && Steps(g, opts, st, k).queue != [] ==>
               Steps(g, opts, st, k).queue[0] < |g| && Uncut(g, opts, Steps(g, opts, st, k))
    ensures !Done(Steps(g, opts, st, n))
    decreases n
  {
    hide Sound, Step, Uncut, Recurrent, ArcThreshold;
    if n > 0 {
      assert Steps(g, opts, st, 0) == st;
      StepKeepsLoop(g, opts, loop, st, c);
      StepSound(g, opts, st);
      var next := Step(g, opts, st);
      var c' :| c' in loop && c' in next.queue;
      forall k {:trigger Steps(g, opts, next, k)} | 0 <= k < n - 1 && Steps(g, opts, next, k).queue != []
        ensures Steps(g, opts, next, k).queue[0] < |g| && Uncut(g, opts, Steps(g, opts, next, k))
      {
        assert Steps(g, opts, st, k + 1) == Steps(g, opts, next, k);
      }
      CycleNeverFinishes(g, opts, loop, next, n - 1, c');
    }
  }

  /** Even a cycle of positive weight, on which no cost can drop, is never left. */
  lemma PositiveCycleSpins(n: nat)
    ensures var g := [[EpsArc(1, 0, 1)], [EpsArc(1, 0, 0)]];
            var opts := Options(100, true);
            && ValidGraph(g) && ActiveList(g, map[0 := 0], [0])
            && !Done(Run(g, opts, map[0 := 0], [0], n))
  {
    var g: EpsGraph := [[EpsArc(1, 0, 1)], [EpsArc(1, 0, 0)]];
    var opts := Options(100, true);
    var first := Begin(g, map[0 := 0], [0]);
    BeginSound(g, opts, map[0 := 0], [0]);
    SpinFrom(g, opts, first, n);
  }

  ghost predicate Spinning(st: Search) {
    && (st.queue == [0] || st.queue == [1])
    && (forall s :: s in st.cost ==> s == 0 || s == 1)
    && st.queue[0] in st.cost
    && 0 in st.cost && st.cost[0] == 0 && (1 in st.cost ==> st.cost[1] == 1)
    && st.best == 0 && st.threshold == K_MAX_COST && !st.fault
  }

  lemma {:induction false} SpinFrom(g: EpsGraph, opts: Options, st: Search, n: nat)
    requires g == [[EpsArc(1, 0, 1)], [EpsArc(1, 0, 0)]] && opts == Options(100, true)
    requires ValidGraph(g) && Sound(g, opts, st) && Spinning(st)
    ensures !Done(Steps(g, opts, st, n))
    decreases n
  {
    if n > 0 {
      StepSound(g, opts, st);
      SpinStep(g, opts, st);
      SpinFrom(g, opts, Step(g, opts, st), n - 1);
    }
  }

  lemma SpinStep(g: EpsGraph, opts: Options, st: Search)
    requires g == [[EpsArc(1, 0, 1)], [EpsArc(1, 0, 0)]] && opts == Options(100, true)
    requires ValidGraph(g) && Sound(g, opts, st) && Spinning(st)
    ensures Spinning(Step(g, opts, st))
  {
    var s, popped := st.queue[0], st.(queue := st.queue[1..]);
    var t := 1 - s;
    assert popped.queue == [];
    var after := Arrive(g, popped, t, st.cost[s] + 1);
    assert RelaxArc(g, popped, s, g[s][0], 100, K_MAX_COST) == (after, st.cost[s] + 1);
    assert RelaxArcs(g, after, s, 100, st.cost[s] + 1, 1) == (after, st.cost[s] + 1);
    assert RelaxArcs(g, popped, s, 100, K_MAX_COST, 0) == (after, st.cost[s] + 1);
  }
}
