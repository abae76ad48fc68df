/** The epsilon expansion of the level decoder as it runs on search states in the heap
    (src/include/dcd/clevel-decoder.h). Search states are made on first use. */
module ClevelDecoder {
  import opened EpsilonRelaxation
  import opened EpsilonShortestPaths
  import opened EpsilonPruning

  class SearchState {
    const stateId: nat
    const epsArcs: seq<EpsArc>
    var active: bool
    var cost: int
    var index: int
    var inEpsQueue: bool

    /** Keeps the better of the token held and one of cost `out`; a state without a token starts a
        new lattice state at the maximum cost. */
    method Combine(out: int)
      modifies this`active, this`cost
      ensures active && cost == Min(old(if active then cost else K_MAX_COST), out)
    {
      var forward := if active then cost else K_MAX_COST;
      active := true;
      cost := if out < forward then out else forward;
    }

    constructor Init(g: EpsGraph, s: nat)
      requires s < |g|
      ensures stateId == s && epsArcs == g[s]
      ensures !active && cost == K_MAX_COST && index == -1 && !inEpsQueue
    {
      stateId, epsArcs := s, g[s];
      active, cost, index, inEpsQueue := false, K_MAX_COST, -1, false;
    }
  }

  class CLevelDecoder {
    const fst: EpsGraph
    const opts: Options
    var searchHash: map<nat, SearchState>
    var activeStates: seq<SearchState>
    var bestStateCost: int
    /** The costs of the active states, and their numbers in the order of their activation. */
    ghost var costs: map<nat, int>
    ghost var activeIds: seq<nat>

    constructor (fst: EpsGraph, opts: Options)
      requires ValidGraph(fst)
      ensures Valid() && this.fst == fst && this.opts == opts && activeIds == [] && costs == map[]
    {
      this.fst, this.opts := fst, opts;
      searchHash, activeStates, bestStateCost := map[], [], K_MAX_COST;
      costs, activeIds := map[], [];
    }

    ghost predicate Valid()
      reads this`searchHash, this`activeStates, this`costs, this`activeIds
      reads searchHash.Values`active, searchHash.Values`cost, searchHash.Values`index
    {
      && ValidGraph(fst)
      && (forall s :: s in searchHash ==> StateValid(s, searchHash[s]))
      && (forall s :: s in costs ==> s in searchHash)
      && |activeIds| == |activeStates|
      && (forall i :: 0 <= i < |activeIds| ==>
            activeIds[i] in searchHash && activeStates[i] == searchHash[activeIds[i]] && activeStates[i].index == i)
    }

    ghost predicate StateValid(s: nat, ss: SearchState)
      reads this`costs, this`activeStates, ss`active, ss`cost, ss`index
    {
      && s < |fst| && ss.stateId == s && ss.epsArcs == fst[s]
      && (ss.active <==> s in costs) && (ss.active <==> ss.index != -1)
      && ss.cost == (if s in costs then costs[s] else K_MAX_COST)
      && (ss.active ==> 0 <= ss.index < |activeStates| && activeStates[ss.index] == ss)
    }

    static ghost function Ids(states: seq<SearchState>): seq<nat> {
      seq(|states|, i requires 0 <= i < |states| => states[i].stateId)
    }

    /** `q` is the epsilon queue: its members carry the flag and nobody else does. */
    ghost predicate QueueValid(q: seq<SearchState>)
      reads this`searchHash, searchHash.Values`inEpsQueue
    {
      && (forall i :: 0 <= i < |q| ==> q[i].stateId in searchHash && searchHash[q[i].stateId] == q[i])
      && (forall i, j :: 0 <= i < j < |q| ==> q[i].stateId != q[j].stateId)
      && (forall s :: s in searchHash ==> (searchHash[s].inEpsQueue <==> s in Ids(q)))
    }

    ghost function View(q: seq<SearchState>, best: int, threshold: int, fault: bool): Search
      reads this`costs, this`activeIds
    {
      Search(costs, activeIds, Ids(q), best, threshold, fault)
    }

    method FindSearchState(s: nat, ghost q: seq<SearchState>) returns (ss: SearchState)
      requires Valid() && QueueValid(q) && s < |fst|
      modifies this`searchHash
      ensures Valid() && QueueValid(q) && s in searchHash && searchHash[s] == ss && ss.stateId == s
      ensures forall t :: t in old(searchHash) ==> t in searchHash && searchHash[t] == old(searchHash)[t]
      ensures forall t :: t in searchHash && t !in old(searchHash) ==> t == s && fresh(searchHash[t])
    {
      if s !in searchHash {
        ss := new SearchState.Init(fst, s);
        searchHash := searchHash[s := ss];
      } else {
        ss := searchHash[s];
      }
    }

    /** A token of cost `out` arrives in a search state. */
    method SetToken(ss: SearchState, out: int)
      requires Valid() && ss.stateId in searchHash && searchHash[ss.stateId] == ss
      modifies ss`active, ss`cost, ss`index, this`activeStates, this`costs, this`activeIds
      ensures Valid()
      ensures var t := ss.stateId;
              && costs == old(costs)[t := Min(if t in old(costs) then old(costs)[t] else K_MAX_COST, out)]
              && activeIds == if t in old(costs) then old(activeIds) else old(activeIds) + [t]
    {
      ss.Combine(out);
      costs := costs[ss.stateId := ss.cost];
      if ss.index == -1 {
        ss.index := |activeStates|;
        activeStates := activeStates + [ss];
        activeIds := activeIds + [ss.stateId];
      }
      forall t | t in searchHash ensures StateValid(t, searchHash[t]) {
        assert old(StateValid(t, searchHash[t]));
      }
      forall i | 0 <= i < |activeIds|
        ensures activeIds[i] in searchHash && activeStates[i] == searchHash[activeIds[i]] && activeStates[i].index == i
      {
        if i < |old(activeIds)| { assert old(StateValid(activeIds[i], activeStates[i])); }
      }
    }

    /** Puts a search state that has epsilon arcs at the end of the queue, unless it is there. */
    method Enqueue(ss: SearchState, q: seq<SearchState>) returns (q': seq<SearchState>)
      requires Valid() && QueueValid(q) && ss.stateId in searchHash && searchHash[ss.stateId] == ss
      modifies ss`inEpsQueue
      ensures Valid() && QueueValid(q')
      ensures Ids(q') == if fst[ss.stateId] != [] && ss.stateId !in Ids(q) then Ids(q) + [ss.stateId] else Ids(q)
    {
      q' := q;
      if |ss.epsArcs| > 0 && !ss.inEpsQueue {
        assert forall i :: 0 <= i < |q| ==> Ids(q)[i] == q[i].stateId && Ids(q)[i] in Ids(q);
        ss.inEpsQueue := true;
        q' := q + [ss];
        assert Ids(q') == Ids(q) + [ss.stateId];
      }
    }

    /** A token of cost `out` arrives in state `t`. */
    method ExpandToFollowingState(t: nat, out: int, q: seq<SearchState>, ghost best: int, ghost cut: int)
      returns (q': seq<SearchState>)
      requires Valid() && QueueValid(q) && t < |fst|
      modifies this`searchHash, this`activeStates, this`costs, this`activeIds, searchHash.Values
      ensures Valid() && QueueValid(q') && Extends(old(searchHash))
      ensures View(q', best, cut, false) == Arrive(fst, old(View(q, best, cut, false)), t, out)
    {
      var next := FindSearchState(t, q);
      SetToken(next, out);
      q' := Enqueue(next, q);
    }

    /** States are only ever added to the hash, and added states are new. */
    twostate predicate Extends(hash: map<nat, SearchState>)
      reads this`searchHash
    {
      && (forall t :: t in hash ==> t in searchHash && searchHash[t] == hash[t])
      && (forall t :: t in searchHash && t !in hash ==> fresh(searchHash[t]))
    }

    /** One epsilon arc of `ss`: its entry token, its exit token, and the state it leads to. */
    method ExpandArc(ss: SearchState, arc: EpsArc, q: seq<SearchState>, threshold: int, f: int, ghost best: int,
                     ghost cut: int)
      returns (q': seq<SearchState>, f': int, fault: bool)
      requires Valid() && QueueValid(q) && ss.stateId in searchHash && searchHash[ss.stateId] == ss
               && arc.nextstate < |fst|
      modifies this`searchHash, this`activeStates, this`costs, this`activeIds, searchHash.Values
      ensures Valid() && QueueValid(q') && Extends(old(searchHash))
      ensures (View(q', best, cut, fault), f')
              == RelaxArc(fst, old(View(q, best, cut, false)), ss.stateId, arc, threshold, f)
    {
      hide Arrive, QueueValid;
      assert StateValid(ss.stateId, ss);
      q', f', fault := q, f, false;
      var first := ArcToken(false, K_MAX_COST);
      var entry := ss.cost + arc.weight;
      if entry < threshold && entry < first.cost { first := ArcToken(true, entry); }
      var exit := if first.active then ArcToken(true, first.cost + arc.exit) else first;
      if exit.cost < threshold {
        if !exit.active { return q, f, true; }
        q' := ExpandToFollowingState(arc.nextstate, exit.cost, q, best, cut);
        f' := Min(f, exit.cost);
      }
    }

    /** All epsilon arcs of the popped state; the result is the best cost passed on. */
    method ExpandArcs(ss: SearchState, q: seq<SearchState>, threshold: int, ghost best: int, ghost cut: int)
      returns (q': seq<SearchState>, f: int, fault: bool)
      requires Valid() && QueueValid(q) && ss.stateId in searchHash && searchHash[ss.stateId] == ss
      modifies this`searchHash, this`activeStates, this`costs, this`activeIds, searchHash.Values
      ensures Valid() && QueueValid(q') && Extends(old(searchHash))
      ensures ss.stateId < |fst|
           && (View(q', best, cut, fault), f)
              == RelaxArcs(fst, old(View(q, best, cut, false)), ss.stateId, threshold, K_MAX_COST, 0)
    {
      hide Arrive, RelaxArc, QueueValid;
      assert StateValid(ss.stateId, ss);
      q', f, fault := q, K_MAX_COST, false;
      var i := 0;
      while i < |ss.epsArcs| && !fault
        invariant i <= |ss.epsArcs| && ss.epsArcs == fst[ss.stateId]
        invariant Valid() && QueueValid(q') && Extends(old(searchHash))
        invariant ss.stateId in searchHash && searchHash[ss.stateId] == ss
        invariant RelaxArcs(fst, old(View(q, best, cut, false)), ss.stateId, threshold, K_MAX_COST, 0)
               == RelaxArcs(fst, View(q', best, cut, fault), ss.stateId, threshold, f, i)
      {
        q', f, fault := ExpandArc(ss, ss.epsArcs[i], q', threshold, f, best, cut);
        i := i + 1;
      }
    }

    /** Queues every active state that has epsilon arcs and finds the best cost among the active. */
    method FillQueue() returns (q: seq<SearchState>, best: int)
      requires Valid() && QueueValid([]) && ActiveList(fst, costs, activeIds)
      modifies searchHash.Values`inEpsQueue
      ensures Valid() && QueueValid(q)
      ensures View(q, best, K_MAX_COST, false) == Begin(fst, costs, activeIds)
    {
      hide QueueValid, WithEpsilons, LeastCost, ActiveList;
      FillStarts();
      q, best := [], K_MAX_COST;
      for i := 0 to |activeStates|
        invariant Valid() && QueueValid(q)
        invariant Filled(i, Ids(q), best)
      {
        var ss := activeStates[i];
        BeginStep(fst, costs, activeIds, i);
        best := Min(best, ss.cost);
        q := Enqueue(ss, q);
      }
      assert activeIds[..|activeIds|] == activeIds;
    }

    lemma FillStarts()
      requires Valid() && ActiveList(fst, costs, activeIds)
      ensures Filled(0, Ids([]), K_MAX_COST)
    {
    }

    /** The first `n` active states have been looked at. */
    ghost predicate Filled(n: nat, queued: seq<nat>, best: int)
      reads this`activeIds, this`costs
    {
      && n <= |activeIds|
      && (forall k :: 0 <= k < |activeIds| ==> activeIds[k] in costs && activeIds[k] < |fst|)
      && queued == WithEpsilons(fst, activeIds[..n]) && best == LeastCost(costs, activeIds[..n])
    }

    method Dequeue(q: seq<SearchState>) returns (ss: SearchState, q': seq<SearchState>)
      requires Valid() && QueueValid(q) && q != []
      modifies searchHash.Values`inEpsQueue
      ensures Valid() && QueueValid(q') && ss.stateId in searchHash && searchHash[ss.stateId] == ss
      ensures Ids(q) != [] && ss.stateId == Ids(q)[0] && Ids(q') == Ids(q)[1..]
    {
      ss, q' := q[0], q[1..];
      assert Ids(q) == [ss.stateId] + Ids(q');
      assert forall s :: s in Ids(q') ==> s != ss.stateId;
      ss.inEpsQueue := false;
    }

    /** Pops one state and expands it unless its cost has reached the threshold. */
    method ExpandNext(q: seq<SearchState>, best: int, threshold: int)
      returns (q': seq<SearchState>, best': int, threshold': int, fault: bool)
      requires Valid() && QueueValid(q) && q != []
      modifies this`searchHash, this`activeStates, this`costs, this`activeIds, searchHash.Values
      ensures Valid() && QueueValid(q') && Extends(old(searchHash))
      ensures Ids(q) != [] && Ids(q)[0] < |fst|
      ensures View(q', best', threshold', fault) == Step(fst, opts, old(View(q, best, threshold, false)))
    {
      hide Arrive, RelaxArcs, QueueValid;
      var ss;
      ss, q' := Dequeue(q);
      assert StateValid(ss.stateId, ss);
      best', threshold', fault := best, threshold, false;
      if ss.cost < threshold {
        var f;
        q', f, fault := ExpandArcs(ss, q', if opts.pruneEps then best + opts.beam else K_MAX_COST, best, threshold);
        if f < best && !fault { best', threshold' := f, f + opts.beam; }
      }
    }

    /** The index each active state keeps makes the list free of repetitions. */
    lemma ActiveListHolds()
      requires Valid()
      ensures ActiveList(fst, costs, activeIds) && ValidGraph(fst)
    {
      forall s | s in costs ensures s in activeIds {
        assert StateValid(s, searchHash[s]);
        var k := searchHash[s].index;
        assert StateValid(activeIds[k], searchHash[activeIds[k]]);
        assert activeIds[k] == s;
      }
      forall i | 0 <= i < |activeIds| ensures activeIds[i] in costs {
        assert StateValid(activeIds[i], searchHash[activeIds[i]]);
      }
    }

    /** Expands the epsilon arcs of the active states until the queue is empty. It returns when the
        run finishes (`NoCycleFinishes`, `FinishesIffNoCycle`); `Valid()` makes the run a run. */
    method ExpandEpsilonArcs() returns (fault: bool, ghost n: nat)
      requires Valid() && QueueValid([])
      requires ValidGraph(fst) && ActiveList(fst, costs, activeIds) ==> Finishes(fst, opts, costs, activeIds)
      modifies this`searchHash, this`activeStates, this`costs, this`activeIds, this`bestStateCost, searchHash.Values
      ensures Valid() && ActiveList(fst, old(costs), old(activeIds))
      ensures var st := Run(fst, opts, old(costs), old(activeIds), n);
              Done(st) && costs == st.cost && activeIds == st.active && fault == st.fault
              && (!fault ==> QueueValid([]) && bestStateCost == st.best)
      ensures opts.pruneEps ==> forall t :: t in costs && (t !in old(costs) || costs[t] < old(costs)[t]) ==>
                costs[t] < LeastCost(old(costs), old(activeIds)) + opts.beam
      ensures !fault ==> forall t :: t in costs ==> bestStateCost <= costs[t]
    {
      hide Valid, QueueValid, Step, Sound, ValidGraph, WithEpsilons, LeastCost;
      ActiveListHolds();
      ghost var last: nat :| Done(Run(fst, opts, costs, activeIds, last));
      ghost var first := Begin(fst, costs, activeIds);
      var q, best := FillQueue();
      var threshold := K_MAX_COST;
      fault, n := false, 0;
      while q != [] && !fault
        invariant Valid() && QueueValid(q) && Extends(old(searchHash)) && Sound(fst, opts, first)
        invariant View(q, best, threshold, fault) == Steps(fst, opts, first, n)
        decreases last - n
      {
        NextStep(fst, opts, first, n, last);
        q, best, threshold, fault := ExpandNext(q, best, threshold);
        n := n + 1;
      }
      bestStateCost := best;
      if opts.pruneEps { BeamPrunes(fst, opts, old(costs), old(activeIds), n); }
      if !fault { RunBounds(fst, opts, old(costs), old(activeIds), n); }
    }
  }

  lemma NextStep(g: EpsGraph, opts: Options, first: Search, n: nat, last: nat)
    requires ValidGraph(g) && Sound(g, opts, first) && !Done(Steps(g, opts, first, n))
             && Done(Steps(g, opts, first, last))
    ensures n < last
    ensures var st := Steps(g, opts, first, n);
            st.queue != [] && st.queue[0] < |g| && Steps(g, opts, first, n + 1) == Step(g, opts, st)
  {
    hide Sound, Step;
    StepsExtend(g, opts, first, n);
    if last <= n {
      StepsAfterDone(g, opts, first, last, n);
    }
  }

  /** The token of an epsilon arc while it is expanded. */
  datatype ArcToken = ArcToken(active: bool, cost: int)
}
