/** When the epsilon expansion finishes, said of its input: exactly when no epsilon cycle can be
    reached from an active state, as long as pruning does not cut. */
module EpsilonTermination {
  import opened EpsilonRelaxation
  import opened EpsilonShortestPaths
  import opened EpsilonOptimality
  import opened EpsilonFaults
  import opened EpsilonCycles
  import Wfst

  /** An epsilon path from an active state comes back to a state. */
  ghost predicate ReachesCycle(g: EpsGraph, costs: map<nat, int>) {
    exists s, p, i :: s in costs && EpsPath(g, s, p) && ComesBack(s, p, i)
  }

  predicate ComesBack(s: nat, p: seq<EpsArc>, i: nat) {
    i < |p| && PathEnd(s, p[..i]) == PathEnd(s, p)
  }

  // ---------- Paths ----------

  lemma {:induction false} PrefixIsPath(g: EpsGraph, s: nat, p: seq<EpsArc>, i: nat)
    requires EpsPath(g, s, p) && i <= |p|
    ensures EpsPath(g, s, p[..i])
    ensures i < |p| ==> PathEnd(s, p[..i]) < |g| && p[i] in g[PathEnd(s, p[..i])]
    decreases |p|
  {
    if i == |p| {
      assert p[..i] == p;
    } else {
      var init := p[..|p| - 1];
      if i < |init| {
        PrefixIsPath(g, s, init, i);
        assert init[..i] == p[..i];
      } else {
        assert p[..i] == init;
      }
    }
  }

  lemma {:induction false} PathInside(g: EpsGraph, s: nat, p: seq<EpsArc>)
    requires ValidGraph(g) && s < |g| && EpsPath(g, s, p)
    ensures PathEnd(s, p) < |g|
  {
    if p != [] {
      var init, q := p[..|p| - 1], PathEnd(s, p[..|p| - 1]);
      var j :| 0 <= j < |g[q]| && g[q][j] == p[|p| - 1];
    }
  }

  lemma {:induction false} PathsJoin(g: EpsGraph, s: nat, p: seq<EpsArc>, q: seq<EpsArc>)
    requires EpsPath(g, s, p) && EpsPath(g, PathEnd(s, p), q)
    ensures EpsPath(g, s, p + q) && PathEnd(s, p + q) == PathEnd(PathEnd(s, p), q)
    decreases |q|
  {
    if q == [] {
      assert p + q == p;
    } else {
      var init := q[..|q| - 1];
      PathsJoin(g, s, p, init);
      assert (p + q)[..|p + q| - 1] == p + init;
    }
  }

  // ---------- Without a cycle the states can be ranked ----------

  ghost predicate HasPath(g: EpsGraph, s: nat, n: nat) {
    exists p :: EpsPath(g, s, p) && |p| == n
  }

  /** The length of the longest path from `s` of at most `n` arcs. */
  ghost function Longest(g: EpsGraph, s: nat, n: nat): (k: nat)
    ensures k <= n && HasPath(g, s, k)
    ensures forall m :: k < m <= n ==> !HasPath(g, s, m)
  {
    if n == 0 then
      assert EpsPath(g, s, []);
      0
    else if HasPath(g, s, n) then n
    else Longest(g, s, n - 1)
  }

  lemma OneArcIsPath(g: EpsGraph, s: nat, j: nat)
    requires s < |g| && j < |g[s]|
    ensures EpsPath(g, s, [g[s][j]]) && PathEnd(s, [g[s][j]]) == g[s][j].nextstate
  {
    var p := [g[s][j]];
    assert p[..0] == [] && EpsPath(g, s, p[..0]);
    assert p[0] in g[s];
  }

  lemma OneArcMore(g: EpsGraph, s: nat, j: nat, n: nat)
    requires ValidGraph(g) && s < |g| && j < |g[s]| && HasPath(g, g[s][j].nextstate, n)
    ensures HasPath(g, s, n + 1)
  {
    var a := g[s][j];
    var p :| EpsPath(g, a.nextstate, p) && |p| == n;
    OneArcIsPath(g, s, j);
    PathsJoin(g, s, [a], p);
    assert |[a] + p| == n + 1;
  }

  ghost predicate Reached(g: EpsGraph, costs: map<nat, int>, t: nat) {
    exists s, p :: s in costs && EpsPath(g, s, p) && PathEnd(s, p) == t
  }

  lemma ReachedNext(g: EpsGraph, costs: map<nat, int>, s: nat, j: nat)
    requires Reached(g, costs, s) && s < |g| && j < |g[s]|
    ensures Reached(g, costs, g[s][j].nextstate)
  {
    var s0, p :| s0 in costs && EpsPath(g, s0, p) && PathEnd(s0, p) == s;
    assert (p + [g[s][j]])[..|p|] == p;
    assert EpsPath(g, s0, p + [g[s][j]]);
  }

  /** A path with as many arcs as there are states meets a state twice. */
  lemma LongPathComesBack(g: EpsGraph, costs: map<nat, int>, t: nat, n: nat)
    requires ValidGraph(g) && (forall s :: s in costs ==> s < |g|) && Reached(g, costs, t)
             && HasPath(g, t, n) && n >= |g|
    ensures ReachesCycle(g, costs)
  {
    var s, r :| s in costs && EpsPath(g, s, r) && PathEnd(s, r) == t;
    var q :| EpsPath(g, t, q) && |q| == n;
    PathsJoin(g, s, r, q);
    var p := r + q;
    forall k | 0 <= k <= |p| ensures PathEnd(s, p[..k]) < |g| {
      PrefixIsPath(g, s, p, k);
      PathInside(g, s, p[..k]);
    }
    var stops := seq(|p| + 1, k requires 0 <= k < |p| + 1 => PathEnd(s, p[..k]));
    var i, j := Wfst.Pigeonhole(stops, |g|);
    PrefixIsPath(g, s, p, j);
    assert p[..j][..i] == p[..i];
    assert ComesBack(s, p[..j], i);
  }

  lemma RanksExist(g: EpsGraph, costs: map<nat, int>) returns (rank: map<nat, nat>)
    requires ValidGraph(g) && (forall s :: s in costs ==> s < |g|) && !ReachesCycle(g, costs)
    ensures Ranked(g, rank) && forall s :: s in costs ==> s in rank
  {
    rank := map s: nat | 0 <= s < |g| && Reached(g, costs, s) :: Longest(g, s, |g|);
    forall s, i | s in rank && 0 <= i < |g[s]| ensures Descends(rank, s, g[s][i].nextstate) {
      var t := g[s][i].nextstate;
      ReachedNext(g, costs, s, i);
      OneArcMore(g, s, i, Longest(g, t, |g|));
      if Longest(g, t, |g|) + 1 >= |g| {
        LongPathComesBack(g, costs, s, Longest(g, t, |g|) + 1);
      }
    }
    forall s | s in costs ensures s in rank {
      assert EpsPath(g, s, []) && PathEnd(s, []) == s;
    }
  }

  /** Whatever the costs and the options: without a cycle in reach the expansion ends. */
  lemma NoCycleFinishes(g: EpsGraph, opts: Options, costs: map<nat, int>, active: seq<nat>)
    requires ValidGraph(g) && ActiveList(g, costs, active) && !ReachesCycle(g, costs)
    ensures Finishes(g, opts, costs, active)
  {
    var rank := RanksExist(g, costs);
    BeginSound(g, opts, costs, active);
    var first := Begin(g, costs, active);
    AcyclicTerminates(g, opts, rank, first);
    assert Done(Run(g, opts, costs, active, QueueWeight(g, rank, first.queue)));
  }

  // ---------- With a cycle in reach the queue never empties ----------

  ghost function Visited(s: nat, p: seq<EpsArc>): set<nat> {
    set k | 0 <= k <= |p| :: PathEnd(s, p[..k])
  }

  lemma GoesOn(g: EpsGraph, s: nat, p: seq<EpsArc>, k: nat)
    requires ValidGraph(g) && s < |g| && EpsPath(g, s, p) && k < |p|
    ensures LeadsInto(g, PathEnd(s, p[..k]), Visited(s, p))
  {
    PrefixIsPath(g, s, p, k);
    var t := PathEnd(s, p[..k]);
    var j :| 0 <= j < |g[t]| && g[t][j] == p[k];
    assert PathEnd(s, p[..k + 1]) == p[k].nextstate;
    assert g[t][j].nextstate in Visited(s, p);
  }

  lemma VisitedGoesOn(g: EpsGraph, s: nat, p: seq<EpsArc>, i: nat, t: nat)
    requires ValidGraph(g) && s < |g| && EpsPath(g, s, p) && ComesBack(s, p, i) && t in Visited(s, p)
    ensures LeadsInto(g, t, Visited(s, p))
  {
    hide EpsPath, ValidGraph;
    var k :| 0 <= k <= |p| && PathEnd(s, p[..k]) == t;
    if k == |p| {
      assert p[..k] == p;
      GoesOn(g, s, p, i);
    } else {
      GoesOn(g, s, p, k);
    }
  }

  lemma StartVisited(g: EpsGraph, s: nat, p: seq<EpsArc>)
    requires EpsPath(g, s, p) && p != []
    ensures s in Visited(s, p) && s < |g| && g[s] != []
  {
    assert PathEnd(s, p[..0]) == s;
    PrefixIsPath(g, s, p, 0);
  }

  lemma CycleIsRecurrent(g: EpsGraph, s: nat, p: seq<EpsArc>, i: nat)
    requires ValidGraph(g) && s < |g| && EpsPath(g, s, p) && ComesBack(s, p, i)
    ensures Recurrent(g, Visited(s, p)) && s in Visited(s, p) && g[s] != []
  {
    hide EpsPath, Visited, PathEnd, ValidGraph;
    StartVisited(g, s, p);
    forall t | t in Visited(s, p) ensures LeadsInto(g, t, Visited(s, p)) {
      VisitedGoesOn(g, s, p, i, t);
    }
  }

  /** Whenever a state is about to be popped, nothing cuts it. */
  ghost predicate NeverCut(g: EpsGraph, opts: Options, costs: map<nat, int>, active: seq<nat>)
    requires ValidGraph(g) && ActiveList(g, costs, active)
  {
    forall k: nat {:trigger Run(g, opts, costs, active, k)} ::
      UncutNow(g, opts, Run(g, opts, costs, active, k))
  }

  ghost predicate UncutNow(g: EpsGraph, opts: Options, st: Search) {
    st.queue != [] ==> st.queue[0] < |g| && Uncut(g, opts, st)
  }

  lemma CycleRunsOn(g: EpsGraph, opts: Options, costs: map<nat, int>, active: seq<nat>, n: nat)
    requires ValidGraph(g) && ActiveList(g, costs, active) && ReachesCycle(g, costs)
    requires NeverCut(g, opts, costs, active)
    ensures !Done(Run(g, opts, costs, active, n))
  {
    hide Uncut, Recurrent, Visited, Sound;
    BeginSound(g, opts, costs, active);
    var s, p, i :| s in costs && EpsPath(g, s, p) && ComesBack(s, p, i);
    CycleIsRecurrent(g, s, p, i);
    var first := Begin(g, costs, active);
    forall k {:trigger Steps(g, opts, first, k)} | 0 <= k < n && Steps(g, opts, first, k).queue != []
      ensures var st := Steps(g, opts, first, k); st.queue[0] < |g| && Uncut(g, opts, st)
    {
      assert UncutNow(g, opts, Run(g, opts, costs, active, k));
    }
    CycleNeverFinishes(g, opts, Visited(s, p), first, n, s);
  }

  /** Where nothing is cut, the loop ends exactly when no epsilon cycle is in reach. */
  lemma EndsIffNoCycle(g: EpsGraph, opts: Options, costs: map<nat, int>, active: seq<nat>)
    requires ValidGraph(g) && ActiveList(g, costs, active) && NeverCut(g, opts, costs, active)
    requires forall n: nat :: !Run(g, opts, costs, active, n).fault
    ensures (exists n: nat :: Run(g, opts, costs, active, n).queue == []) <==> !ReachesCycle(g, costs)
  {
    if ReachesCycle(g, costs) {
      forall n: nat ensures Run(g, opts, costs, active, n).queue != [] {
        CycleRunsOn(g, opts, costs, active, n);
      }
    } else {
      NoCycleFinishes(g, opts, costs, active);
      var n: nat :| Done(Run(g, opts, costs, active, n));
      assert Run(g, opts, costs, active, n).queue == [];
    }
  }

  /** Among costs that pruning cannot cut, the loop ends exactly when no epsilon cycle is in reach. */
  lemma UncutFinishesIffNoCycle(g: EpsGraph, opts: Options, costs: map<nat, int>, active: seq<nat>)
    requires ValidGraph(g) && ActiveList(g, costs, active)
    requires BelowMaximum(g, costs) && WithinBeam(g, costs, opts.beam)
    ensures (exists n: nat :: Run(g, opts, costs, active, n).queue == []) <==> !ReachesCycle(g, costs)
  {
    hide Sound, BelowMaximum, WithinBeam, Uncut, ReachesCycle;
    forall k: nat
      ensures UncutNow(g, opts, Run(g, opts, costs, active, k)) && !Run(g, opts, costs, active, k).fault
    {
      RunIsReal(g, opts, costs, active, k);
      if Run(g, opts, costs, active, k).queue != [] {
        RealIsUncut(g, opts, costs, Run(g, opts, costs, active, k));
      }
    }
    EndsIffNoCycle(g, opts, costs, active);
  }

  lemma RealIsUncut(g: EpsGraph, opts: Options, costs: map<nat, int>, st: Search)
    requires ValidGraph(g) && BelowMaximum(g, costs) && WithinBeam(g, costs, opts.beam)
    requires Sound(g, opts, st) && Real(g, costs, st) && st.queue != []
    ensures st.queue[0] < |g| && Uncut(g, opts, st)
  {
    var s := st.queue[0];
    var c := st.cost[s];
    assert PathCosts(g, costs, s, c) && Met(g, costs, c);
    forall j | 0 <= j < |g[s]|
      ensures Met(g, costs, c + g[s][j].weight) && Met(g, costs, c + g[s][j].weight + g[s][j].exit)
    {
      ExtendPathCosts(g, costs, s, c, j);
    }
    hide PathCosts, Met;
    if st.best == K_MAX_COST {
      assert c < c + opts.beam;
    } else {
      var t: nat :| PathCosts(g, costs, t, st.best);
    }
  }

  // ---------- The same, with conditions on simple paths only ----------

  /** Coming back to a state never costs less than having been there: no cycle in reach is negative. */
  ghost predicate NoCheaperReturn(g: EpsGraph, costs: map<nat, int>) {
    forall s, p, i :: s in costs && EpsPath(g, s, p) && ComesBack(s, p, i) ==>
      PathCost(costs[s], p[..i]) <= PathCost(costs[s], p)
  }

  predicate Simple(s: nat, p: seq<EpsArc>) {
    forall i, j :: 0 <= i < j <= |p| ==> PathEnd(s, p[..i]) != PathEnd(s, p[..j])
  }

  /** `c` is the cost of a path to `t` that visits no state twice. */
  ghost predicate SimplyCosts(g: EpsGraph, costs: map<nat, int>, t: nat, c: int) {
    exists s, p :: s in costs && EpsPath(g, s, p) && Simple(s, p) && PathEnd(s, p) == t && PathCost(costs[s], p) == c
  }

  /** Some such path meets the cost `c`: at its end, on entering one arc more, or on leaving it. */
  ghost predicate SimplyMet(g: EpsGraph, costs: map<nat, int>, c: int) {
    exists t: nat, c0 :: SimplyCosts(g, costs, t, c0) && MetFrom(g, t, c0, c)
  }

  predicate MetFrom(g: EpsGraph, t: nat, c0: int, c: int) {
    c == c0 || (t < |g| && exists j ::
                  0 <= j < |g[t]| && (c == c0 + g[t][j].weight || c == c0 + g[t][j].weight + g[t][j].exit))
  }

  /** Neither the maximum cost nor the beam cuts a simple path or the arc behind it. */
  ghost predicate NothingCut(g: EpsGraph, costs: map<nat, int>, beam: int) {
    && (forall c :: SimplyMet(g, costs, c) ==> c < K_MAX_COST)
    && forall c, t: nat, c0 :: SimplyMet(g, costs, c) && SimplyCosts(g, costs, t, c0) ==> c < c0 + beam
  }

  /** No state on the path has a higher cost than the path had there. */
  ghost predicate Along(c0: int, s: nat, p: seq<EpsArc>, cost: map<nat, int>) {
    forall i :: 0 <= i <= |p| ==> PathEnd(s, p[..i]) in cost && cost[PathEnd(s, p[..i])] <= PathCost(c0, p[..i])
  }

  /** The cost of `t` is that of a simple path, on which no state has a higher cost. */
  ghost predicate Traced(g: EpsGraph, costs: map<nat, int>, cost: map<nat, int>, t: nat, s: nat, p: seq<EpsArc>) {
    && s in costs && EpsPath(g, s, p) && Simple(s, p) && PathEnd(s, p) == t && Along(costs[s], s, p, cost)
    && t in cost && cost[t] == PathCost(costs[s], p)
  }

  ghost predicate HasTrace(g: EpsGraph, costs: map<nat, int>, cost: map<nat, int>, t: nat) {
    exists s, p :: Traced(g, costs, cost, t, s, p)
  }

  /** `c` is not below the cost of every simple path. */
  ghost predicate NotBelow(g: EpsGraph, costs: map<nat, int>, c: int) {
    c >= K_MAX_COST || exists t: nat, c0 :: SimplyCosts(g, costs, t, c0) && c0 <= c
  }

  ghost predicate Follows(g: EpsGraph, costs: map<nat, int>, st: Search) {
    && (forall t :: t in st.cost ==> HasTrace(g, costs, st.cost, t))
    && NotBelow(g, costs, st.best) && !st.fault
  }

  lemma TraceCosts(g: EpsGraph, costs: map<nat, int>, cost: map<nat, int>, t: nat)
    requires HasTrace(g, costs, cost, t) && t in cost
    ensures SimplyCosts(g, costs, t, cost[t]) && SimplyMet(g, costs, cost[t])
    ensures forall j :: t < |g| && 0 <= j < |g[t]| ==>
              SimplyMet(g, costs, cost[t] + g[t][j].weight)
                  && SimplyMet(g, costs, cost[t] + g[t][j].weight + g[t][j].exit)
  {
    var s, p :| Traced(g, costs, cost, t, s, p);
    assert SimplyCosts(g, costs, t, cost[t]);
    assert MetFrom(g, t, cost[t], cost[t]);
    hide SimplyCosts;
    forall j | t < |g| && 0 <= j < |g[t]|
      ensures SimplyMet(g, costs, cost[t] + g[t][j].weight)
              && SimplyMet(g, costs, cost[t] + g[t][j].weight + g[t][j].exit)
    {
      assert MetFrom(g, t, cost[t], cost[t] + g[t][j].weight);
      assert MetFrom(g, t, cost[t], cost[t] + g[t][j].weight + g[t][j].exit);
    }
  }

  /** A trace stays one while costs drop elsewhere. */
  lemma TraceStays(g: EpsGraph, costs: map<nat, int>, cost: map<nat, int>, cost': map<nat, int>, t: nat)
    requires HasTrace(g, costs, cost, t) && t in cost && t in cost' && cost'[t] == cost[t]
    requires forall u :: u in cost ==> u in cost' && cost'[u] <= cost[u]
    ensures HasTrace(g, costs, cost', t)
  {
    var s, p :| Traced(g, costs, cost, t, s, p);
    assert Along(costs[s], s, p, cost');
    assert Traced(g, costs, cost', t, s, p);
  }

  /** One more arc: it leads to a new state at the end of a simple path, or back to one that costs no more. */
  lemma TraceGoesOn(g: EpsGraph, costs: map<nat, int>, cost: map<nat, int>, s: nat, j: nat)
    requires NoCheaperReturn(g, costs) && s < |g| && j < |g[s]| && s in cost && HasTrace(g, costs, cost, s)
    ensures var t, out := g[s][j].nextstate, cost[s] + g[s][j].weight + g[s][j].exit;
            || (t in cost && cost[t] <= out)
            || (SimplyCosts(g, costs, t, out)
                && forall cost' ::
                     t in cost' && cost'[t] == out && (forall u :: u in cost ==> u in cost' && cost'[u] <= cost[u]) ==>
                     HasTrace(g, costs, cost', t))
  {
    var s0, p :| Traced(g, costs, cost, s, s0, p);
    var a, q := g[s][j], p + [g[s][j]];
    var t, out := a.nextstate, cost[s] + a.weight + a.exit;
    assert q[..|p|] == p && q[..|q|] == q && EpsPath(g, s0, q) && PathCost(costs[s0], q) == out;
    if i :| 0 <= i <= |p| && PathEnd(s0, p[..i]) == t {
      assert q[..i] == p[..i] && ComesBack(s0, q, i);
    } else {
      ExtendedIsSimple(s0, p, a);
      forall cost' | t in cost' && cost'[t] == out && forall u :: u in cost ==> u in cost' && cost'[u] <= cost[u]
        ensures HasTrace(g, costs, cost', t)
      {
        AlongExtends(costs[s0], s0, p, a, cost, cost');
        assert Traced(g, costs, cost', t, s0, q);
      }
    }
  }

  lemma ExtendedIsSimple(s: nat, p: seq<EpsArc>, a: EpsArc)
    requires Simple(s, p) && forall i :: 0 <= i <= |p| ==> PathEnd(s, p[..i]) != a.nextstate
    ensures Simple(s, p + [a])
  {
    var q := p + [a];
    forall i, j | 0 <= i < j <= |q| ensures PathEnd(s, q[..i]) != PathEnd(s, q[..j]) {
      assert q[..i] == p[..i];
      if j <= |p| {
        assert q[..j] == p[..j];
      }
    }
  }

  lemma AlongExtends(c0: int, s: nat, p: seq<EpsArc>, a: EpsArc, cost: map<nat, int>, cost': map<nat, int>)
    requires Along(c0, s, p, cost) && forall u :: u in cost ==> u in cost' && cost'[u] <= cost[u]
    requires a.nextstate in cost' && cost'[a.nextstate] <= PathCost(c0, p + [a])
    ensures Along(c0, s, p + [a], cost')
  {
    var q := p + [a];
    forall i | 0 <= i <= |q| ensures PathEnd(s, q[..i]) in cost' && cost'[PathEnd(s, q[..i])] <= PathCost(c0, q[..i]) {
      if i <= |p| {
        assert q[..i] == p[..i];
      } else {
        assert q[..i] == q;
      }
    }
  }

  lemma TraceOfLess(g: EpsGraph, costs: map<nat, int>, cost: map<nat, int>, t: nat, out: int)
    requires t in cost && HasTrace(g, costs, cost, t) && cost[t] <= out
    ensures NotBelow(g, costs, out)
  {
    TraceCosts(g, costs, cost, t);
  }

  lemma ArriveFollows(g: EpsGraph, costs: map<nat, int>, st: Search, s: nat, j: nat)
    requires ValidGraph(g) && NoCheaperReturn(g, costs) && s < |g| && j < |g[s]| && s in st.cost
    requires Follows(g, costs, st) && st.cost[s] + g[s][j].weight + g[s][j].exit < K_MAX_COST
    ensures var out := st.cost[s] + g[s][j].weight + g[s][j].exit;
            Follows(g, costs, Arrive(g, st, g[s][j].nextstate, out)) && NotBelow(g, costs, out)
  {
    hide NoCheaperReturn, HasTrace, SimplyCosts;
    var t, out := g[s][j].nextstate, st.cost[s] + g[s][j].weight + g[s][j].exit;
    var cost' := Arrive(g, st, t, out).cost;
    TraceGoesOn(g, costs, st.cost, s, j);
    if t in st.cost && st.cost[t] <= out {
      assert cost' == st.cost;
      TraceOfLess(g, costs, st.cost, t, out);
    } else {
      assert cost'[t] == out && HasTrace(g, costs, cost', t);
      forall u | u in cost' ensures HasTrace(g, costs, cost', u) {
        if u != t { TraceStays(g, costs, st.cost, cost', u); }
      }
    }
  }

  lemma RelaxArcFollows(g: EpsGraph, costs: map<nat, int>, beam: int, st: Search, s: nat, j: nat,
                        threshold: int, f: int)
    requires ValidGraph(g) && NoCheaperReturn(g, costs) && NothingCut(g, costs, beam)
    requires s < |g| && j < |g[s]| && s in st.cost && Follows(g, costs, st) && NotBelow(g, costs, f)
    ensures var (st', f') := RelaxArc(g, st, s, g[s][j], threshold, f);
            Follows(g, costs, st') && NotBelow(g, costs, f') && s in st'.cost
  {
    hide NoCheaperReturn, HasTrace, SimplyCosts, SimplyMet, NotBelow;
    TraceCosts(g, costs, st.cost, s);
    ArriveFollows(g, costs, st, s, j);
  }

  lemma {:induction false} RelaxArcsFollow(g: EpsGraph, costs: map<nat, int>, beam: int, st: Search, s: nat,
                                           threshold: int, f: int, i: nat)
    requires ValidGraph(g) && NoCheaperReturn(g, costs) && NothingCut(g, costs, beam)
    requires s < |g| && i <= |g[s]| && s in st.cost && Follows(g, costs, st) && NotBelow(g, costs, f)
    ensures var (st', f') := RelaxArcs(g, st, s, threshold, f, i);
            Follows(g, costs, st') && NotBelow(g, costs, f')
    decreases |g[s]| - i
  {
    hide NoCheaperReturn, NothingCut, Follows, NotBelow, RelaxArc;
    if i < |g[s]| && !st.fault {
      var (st', f') := RelaxArc(g, st, s, g[s][i], threshold, f);
      RelaxArcFollows(g, costs, beam, st, s, i, threshold, f);
      RelaxArcsFollow(g, costs, beam, st', s, threshold, f', i + 1);
    }
  }

  lemma StepFollows(g: EpsGraph, opts: Options, costs: map<nat, int>, st: Search)
    requires ValidGraph(g) && NoCheaperReturn(g, costs) && NothingCut(g, costs, opts.beam)
    requires Sound(g, opts, st) && st.queue != [] && Follows(g, costs, st)
    ensures st.queue[0] < |g| && Follows(g, costs, Step(g, opts, st))
  {
    hide NoCheaperReturn, NothingCut, HasTrace, RelaxArcs, SimplyCosts;
    var s, popped := st.queue[0], st.(queue := st.queue[1..]);
    RelaxArcsFollow(g, costs, opts.beam, popped, s, ArcThreshold(opts, st.best), K_MAX_COST, 0);
  }

  lemma {:induction false} StepsFollow(g: EpsGraph, opts: Options, costs: map<nat, int>, st: Search, n: nat)
    requires ValidGraph(g) && NoCheaperReturn(g, costs) && NothingCut(g, costs, opts.beam)
    requires Sound(g, opts, st) && Follows(g, costs, st)
    ensures Follows(g, costs, Steps(g, opts, st, n))
    decreases n
  {
    hide NoCheaperReturn, NothingCut, Follows, Sound, Step;
    if n > 0 && !Done(st) {
      StepFollows(g, opts, costs, st);
      StepSound(g, opts, st);
      StepsFollow(g, opts, costs, Step(g, opts, st), n - 1);
    }
  }

  lemma StartTraced(g: EpsGraph, costs: map<nat, int>, t: nat)
    requires t in costs
    ensures HasTrace(g, costs, costs, t) && SimplyCosts(g, costs, t, costs[t])
  {
    assert Traced(g, costs, costs, t, t, []);
  }

  lemma BeginFollows(g: EpsGraph, costs: map<nat, int>, active: seq<nat>)
    requires ActiveList(g, costs, active)
    ensures Follows(g, costs, Begin(g, costs, active))
  {
    hide HasTrace, SimplyCosts;
    AllCostMore(costs, active);
    forall t | t in costs ensures HasTrace(g, costs, costs, t) && SimplyCosts(g, costs, t, costs[t]) {
      StartTraced(g, costs, t);
    }
  }

  lemma FollowsIsUncut(g: EpsGraph, opts: Options, costs: map<nat, int>, st: Search)
    requires ValidGraph(g) && NothingCut(g, costs, opts.beam) && Sound(g, opts, st) && Follows(g, costs, st)
    ensures UncutNow(g, opts, st)
  {
    hide HasTrace, SimplyMet, SimplyCosts;
    if st.queue != [] {
      var s := st.queue[0];
      TraceCosts(g, costs, st.cost, s);
      CutsNothing(g, costs, opts.beam, st, st.cost[s]);
      forall j | 0 <= j < |g[s]|
        ensures st.cost[s] + g[s][j].weight < K_MAX_COST && st.cost[s] + g[s][j].weight < st.best + opts.beam
        ensures var out := st.cost[s] + g[s][j].weight + g[s][j].exit; out < K_MAX_COST && out < st.best + opts.beam
      {
        CutsNothing(g, costs, opts.beam, st, st.cost[s] + g[s][j].weight);
        CutsNothing(g, costs, opts.beam, st, st.cost[s] + g[s][j].weight + g[s][j].exit);
      }
    }
  }

  lemma CutsNothing(g: EpsGraph, costs: map<nat, int>, beam: int, st: Search, c: int)
    requires NothingCut(g, costs, beam) && NotBelow(g, costs, st.best) && SimplyMet(g, costs, c)
    ensures c < K_MAX_COST && c < st.best + beam
  {
    if st.best >= K_MAX_COST {
      var t: nat, c0 :| SimplyCosts(g, costs, t, c0) && MetFrom(g, t, c0, c);
      BeamIsPositive(g, costs, beam, t, c0);
    } else {
      var t: nat, c0 :| SimplyCosts(g, costs, t, c0) && c0 <= st.best;
    }
  }

  lemma BeamIsPositive(g: EpsGraph, costs: map<nat, int>, beam: int, t: nat, c0: int)
    requires NothingCut(g, costs, beam) && SimplyCosts(g, costs, t, c0)
    ensures beam > 0
  {
    hide SimplyCosts;
    assert MetFrom(g, t, c0, c0);
    assert SimplyMet(g, costs, c0);
  }

  /** Where no epsilon cycle in reach lowers a cost and neither the maximum nor the beam cuts a simple
      path, the loop ends exactly when no epsilon cycle is in reach, and it meets no token without a
      traceback. */
  lemma FinishesIffNoCycle(g: EpsGraph, opts: Options, costs: map<nat, int>, active: seq<nat>)
    requires ValidGraph(g) && ActiveList(g, costs, active)
    requires NoCheaperReturn(g, costs) && NothingCut(g, costs, opts.beam)
    ensures (exists n: nat :: Run(g, opts, costs, active, n).queue == []) <==> !ReachesCycle(g, costs)
    ensures forall n: nat :: !Run(g, opts, costs, active, n).fault
  {
    hide Sound, NoCheaperReturn, NothingCut, ReachesCycle, UncutNow;
    BeginSound(g, opts, costs, active);
    BeginFollows(g, costs, active);
    forall k: nat
      ensures UncutNow(g, opts, Run(g, opts, costs, active, k)) && !Run(g, opts, costs, active, k).fault
    {
      StepsFollow(g, opts, costs, Begin(g, costs, active), k);
      FollowsIsUncut(g, opts, costs, Run(g, opts, costs, active, k));
    }
    EndsIffNoCycle(g, opts, costs, active);
  }
}
