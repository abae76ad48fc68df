/** What a finished epsilon expansion has computed, when it finishes, and what pruning keeps. */
module EpsilonShortestPaths {
  import opened EpsilonRelaxation

  // ---------- Runs ----------

  /** The search after at most `n` steps; it stops when the queue is empty or a fault was hit. */
  ghost function Steps(g: EpsGraph, opts: Options, st: Search, n: nat): (st': Search)
    requires ValidGraph(g) && Sound(g, opts, st)
    ensures Sound(g, opts, st')
    decreases n
  {
    if n == 0 || Done(st) then st else
      StepSound(g, opts, st);
      Steps(g, opts, Step(g, opts, st), n - 1)
  }

  /** The run of an expansion that starts with these active states. */
  ghost function Run(g: EpsGraph, opts: Options, costs: map<nat, int>, active: seq<nat>, n: nat): (st': Search)
    requires ValidGraph(g) && ActiveList(g, costs, active)
    ensures Sound(g, opts, st') && Sound(g, opts, Begin(g, costs, active))
    ensures st' == Steps(g, opts, Begin(g, costs, active), n)
  {
    BeginSound(g, opts, costs, active);
    Steps(g, opts, Begin(g, costs, active), n)
  }

  predicate Done(st: Search) {
    st.queue == [] || st.fault
  }

  /** The loop ends: the queue runs empty, or a fault stops it. */
  ghost predicate Finishes(g: EpsGraph, opts: Options, costs: map<nat, int>, active: seq<nat>)
    requires ValidGraph(g) && ActiveList(g, costs, active)
  {
    exists n: nat :: Done(Run(g, opts, costs, active, n))
  }

  // ---------- Termination on acyclic graphs ----------

  /** The epsilon arcs of the ranked states lead to lower ranks only: no epsilon cycle can be reached
      from them. */
  ghost predicate Ranked(g: EpsGraph, rank: map<nat, nat>) {
    && ValidGraph(g)
    && forall s :: s in rank ==> s < |g| && forall i :: 0 <= i < |g[s]| ==> Descends(rank, s, g[s][i].nextstate)
  }

  predicate Descends(rank: map<nat, nat>, s: nat, t: nat)
    requires s in rank
  {
    t in rank && rank[t] < rank[s]
  }

  /** The number of epsilon paths that leave `s`, the empty one included. */
  ghost function PathCount(g: EpsGraph, rank: map<nat, nat>, s: nat): nat
    requires Ranked(g, rank) && s in rank
    decreases rank[s], |g[s]| + 1
  {
    1 + PathCountVia(g, rank, s, |g[s]|)
  }

  ghost function PathCountVia(g: EpsGraph, rank: map<nat, nat>, s: nat, i: nat): nat
    requires Ranked(g, rank) && s in rank && i <= |g[s]|
    decreases rank[s], i
  {
    if i == 0 then 0 else
      assert Descends(rank, s, g[s][i - 1].nextstate);
      PathCountVia(g, rank, s, i - 1) + PathCount(g, rank, g[s][i - 1].nextstate)
  }

  ghost predicate AllRanked(rank: map<nat, nat>, queue: seq<nat>) {
    forall i :: 0 <= i < |queue| ==> queue[i] in rank
  }

  /** The epsilon paths that leave the queued states, all together. */
  ghost function QueueWeight(g: EpsGraph, rank: map<nat, nat>, queue: seq<nat>): nat
    requires Ranked(g, rank) && AllRanked(rank, queue)
  {
    if queue == [] then 0 else PathCount(g, rank, queue[0]) + QueueWeight(g, rank, queue[1..])
  }

  lemma {:induction false} QueueWeightAppends(g: EpsGraph, rank: map<nat, nat>, queue: seq<nat>, t: nat)
    requires Ranked(g, rank) && AllRanked(rank, queue) && t in rank
    ensures QueueWeight(g, rank, queue + [t]) == QueueWeight(g, rank, queue) + PathCount(g, rank, t)
  {
    if queue == [] {
      assert queue + [t] == [t] && QueueWeight(g, rank, [t][1..]) == 0;
    } else {
      QueueWeightAppends(g, rank, queue[1..], t);
      assert (queue + [t])[1..] == queue[1..] + [t];
    }
  }

  lemma RelaxArcWeight(g: EpsGraph, rank: map<nat, nat>, st: Search, s: nat, a: EpsArc, threshold: int, f: int)
    requires Ranked(g, rank) && AllRanked(rank, st.queue) && a.nextstate in rank && a.nextstate < |g|
    ensures var st' := RelaxArc(g, st, s, a, threshold, f).0;
            && AllRanked(rank, st'.queue)
            && QueueWeight(g, rank, st'.queue) <= QueueWeight(g, rank, st.queue) + PathCount(g, rank, a.nextstate)
  {
    QueueWeightAppends(g, rank, st.queue, a.nextstate);
    hide PathCount;
  }

  lemma {:induction false} RelaxArcsWeight(g: EpsGraph, rank: map<nat, nat>, st: Search, s: nat, threshold: int,
                                           f: int, i: nat)
    requires Ranked(g, rank) && AllRanked(rank, st.queue) && s in rank && i <= |g[s]|
    ensures var st' := RelaxArcs(g, st, s, threshold, f, i).0;
            && AllRanked(rank, st'.queue)
            && QueueWeight(g, rank, st'.queue) + PathCountVia(g, rank, s, i)
               <= QueueWeight(g, rank, st.queue) + PathCountVia(g, rank, s, |g[s]|)
    decreases |g[s]| - i
  {
    hide AllRanked, Arrive;
    if i == |g[s]| || st.fault {
      ViaMonotone(g, rank, s, i, |g[s]|);
    } else {
      var a := g[s][i];
      assert Descends(rank, s, a.nextstate);
      var (st', f') := RelaxArc(g, st, s, a, threshold, f);
      RelaxArcWeight(g, rank, st, s, a, threshold, f);
      RelaxArcsWeight(g, rank, st', s, threshold, f', i + 1);
    }
  }

  lemma {:induction false} ViaMonotone(g: EpsGraph, rank: map<nat, nat>, s: nat, i: nat, j: nat)
    requires Ranked(g, rank) && s in rank && i <= j <= |g[s]|
    ensures PathCountVia(g, rank, s, i) <= PathCountVia(g, rank, s, j)
    decreases j
  {
    if i < j { ViaMonotone(g, rank, s, i, j - 1); }
  }

  /** A popped state pays for everything its expansion can queue, improved or not. */
  lemma StepLightens(g: EpsGraph, opts: Options, rank: map<nat, nat>, st: Search)
    requires Ranked(g, rank) && AllRanked(rank, st.queue) && st.queue != []
    ensures st.queue[0] < |g| && AllRanked(rank, Step(g, opts, st).queue)
    ensures QueueWeight(g, rank, Step(g, opts, st).queue) < QueueWeight(g, rank, st.queue)
  {
    var s, popped := st.queue[0], st.(queue := st.queue[1..]);
    assert s in rank;
    RelaxArcsWeight(g, rank, popped, s, ArcThreshold(opts, st.best), K_MAX_COST, 0);
  }

  /** When no cycle can be reached from the queue, the loop pops no more states than epsilon paths
      leave the queued ones. */
  lemma {:induction false} AcyclicTerminates(g: EpsGraph, opts: Options, rank: map<nat, nat>, st: Search)
    requires Ranked(g, rank) && Sound(g, opts, st) && AllRanked(rank, st.queue)
    ensures Done(Steps(g, opts, st, QueueWeight(g, rank, st.queue)))
    decreases QueueWeight(g, rank, st.queue)
  {
    if !Done(st) {
      StepSound(g, opts, st);
      StepLightens(g, opts, rank, st);
      var next := Step(g, opts, st);
      AcyclicTerminates(g, opts, rank, next);
      StepsAfterDone(g, opts, next, QueueWeight(g, rank, next.queue), QueueWeight(g, rank, st.queue) - 1);
    }
  }

  lemma {:induction false} StepsAfterDone(g: EpsGraph, opts: Options, st: Search, m: nat, n: nat)
    requires ValidGraph(g) && Sound(g, opts, st) && m <= n && Done(Steps(g, opts, st, m))
    ensures Steps(g, opts, st, n) == Steps(g, opts, st, m)
    decreases m
  {
    hide Sound, Step;
    if !Done(st) && m > 0 {
      StepSound(g, opts, st);
      StepsAfterDone(g, opts, Step(g, opts, st), m - 1, n - 1);
    }
  }

  lemma {:induction false} StepsExtend(g: EpsGraph, opts: Options, st: Search, n: nat)
    requires ValidGraph(g) && Sound(g, opts, st) && !Done(Steps(g, opts, st, n))
    ensures var last := Steps(g, opts, st, n);
            last.queue != [] && last.queue[0] < |g| && Steps(g, opts, st, n + 1) == Step(g, opts, last)
    decreases n
  {
    StepSound(g, opts, Steps(g, opts, st, n));
    hide Sound, Step;
    if n > 0 && !Done(st) {
      StepSound(g, opts, st);
      StepsExtend(g, opts, Step(g, opts, st), n - 1);
    }
  }

  lemma {:induction false} StepsLowerBest(g: EpsGraph, opts: Options, st: Search, n: nat)
    requires ValidGraph(g) && Sound(g, opts, st)
    ensures Steps(g, opts, st, n).best <= st.best
    decreases n
  {
    hide Step, Sound;
    if n > 0 && !Done(st) {
      StepSound(g, opts, st);
      StepsLowerBest(g, opts, Step(g, opts, st), n - 1);
    }
  }
}
