/** The machine that `ArcExpandFstImpl` shows to its clients, with numbers for states and cached arcs,
    accepts what the source machine accepts once the sub-machines are put in
    (src/include/dcd/arc-expand-fst.h). */
module ArcExpandMachine {
  import opened Wfst
  import opened ArcExpansion
  import opened ArcExpansionMeaning
  import opened ArcExpandFst
  import opened Wrappers

  // ---------- Paths over numbers ----------

  predicate NumberPath(cache: map<nat, seq<Arc>>, s: nat, p: seq<Arc>)
    decreases |p|
  {
    p == [] || (s in cache && p[0] in cache[s] && NumberPath(cache, p[0].nextstate, p[1..]))
  }

  function NumberEnd(s: nat, p: seq<Arc>): nat {
    if p == [] then s else p[|p| - 1].nextstate
  }

  function SubOutputs(p: seq<Arc>): seq<int> {
    if p == [] then [] else Nonzero(p[0].olabel) + SubOutputs(p[1..])
  }

  ghost predicate NumberAccepts(cache: map<nat, seq<Arc>>, finals: map<nat, Option<int>>, start: nat, p: seq<Arc>,
                                inputs: seq<int>, outputs: seq<int>, cost: int)
  {
    && NumberPath(cache, start, p)
    && var end := NumberEnd(start, p);
       && end in finals && finals[end].Some?
       && inputs == SubInputs(p) && outputs == SubOutputs(p) && cost == SubWeight(p) + finals[end].value
  }

  /** The arcs and final weights that the machine has computed accept these labels at this cost. */
  ghost predicate MachineAccepts(m: ArcExpandFstImpl, inputs: seq<int>, outputs: seq<int>, cost: int)
    reads m
  {
    m.start.Some? && exists p :: NumberAccepts(m.cache, m.finals, m.start.value, p, inputs, outputs, cost)
  }

  // ---------- From numbers to elements ----------

  function Lift(elements: seq<Element>, a: Arc): ElementArc {
    ElementArc(a.ilabel, a.olabel, a.weight, if a.nextstate < |elements| then elements[a.nextstate] else Super(0))
  }

  function LiftAll(elements: seq<Element>, p: seq<Arc>): seq<ElementArc> {
    if p == [] then [] else [Lift(elements, p[0])] + LiftAll(elements, p[1..])
  }

  /** The cached arcs of state `s` are the arcs of its element, whatever their number and order. */
  ghost predicate ArcsFaithful(g: Fst, types: seq<Fst>, elements: seq<Element>, arcs: seq<Arc>, s: nat)
    requires ValidNetwork(g, types) && AllValid(g, types, elements) && s < |elements|
  {
    && (forall k :: 0 <= k < |arcs| ==>
          arcs[k].nextstate < |elements| && Lift(elements, arcs[k]) in ElementArcs(g, types, elements[s]))
    && (forall ea :: ea in ElementArcs(g, types, elements[s]) ==> Cached(elements, arcs, ea))
  }

  ghost predicate Cached(elements: seq<Element>, arcs: seq<Arc>, ea: ElementArc) {
    exists k :: 0 <= k < |arcs| && arcs[k].nextstate < |elements| && Lift(elements, arcs[k]) == ea
  }

  ghost predicate Faithful(g: Fst, types: seq<Fst>, elements: seq<Element>, cache: map<nat, seq<Arc>>)
    requires ValidNetwork(g, types) && AllValid(g, types, elements)
  {
    forall s :: s in cache ==> s < |elements| && ArcsFaithful(g, types, elements, cache[s], s)
  }

  lemma MatchIsFaithful(g: Fst, types: seq<Fst>, elements: seq<Element>, arcs: seq<Arc>, s: nat, n: nat)
    requires ValidNetwork(g, types) && AllValid(g, types, elements) && s < |elements| && n > 0
    requires ArcsMatch(elements, arcs, Repeat(ElementArcs(g, types, elements[s]), n))
    ensures ArcsFaithful(g, types, elements, arcs, s)
  {
    hide ElementArcs, ValidTypes, ValidElement;
    var ea := ElementArcs(g, types, elements[s]);
    var pushed := Repeat(ea, n);
    RepeatMembers(ea, n);
    forall k | 0 <= k < |arcs| ensures arcs[k].nextstate < |elements| && Lift(elements, arcs[k]) in ea {
      assert Lift(elements, arcs[k]) == pushed[k];
    }
    forall a | a in ea ensures Cached(elements, arcs, a) {
      assert a in pushed;
      var k :| 0 <= k < |pushed| && pushed[k] == a;
      assert Lift(elements, arcs[k]) == a;
    }
  }

  lemma MachineIsFaithful(m: ArcExpandFstImpl)
    requires m.Valid()
    ensures ValidNetwork(m.fst, m.types) && AllValid(m.fst, m.types, m.elements)
    ensures Faithful(m.fst, m.types, m.elements, m.cache)
  {
    hide ArcsMatch, Repeat, ElementArcs, ArcsFaithful, ValidNetwork, AllValid, Indexed;
    m.ValidIsNetwork();
    forall s | s in m.cache
      ensures s < |m.elements| && ArcsFaithful(m.fst, m.types, m.elements, m.cache[s], s)
    {
      MatchIsFaithful(m.fst, m.types, m.elements, m.cache[s], s, m.copies[s]);
    }
  }

  /** A path over numbers is a path over elements with the same labels and weight. */
  lemma {:induction false} NumbersToElements(g: Fst, types: seq<Fst>, elements: seq<Element>,
                                             cache: map<nat, seq<Arc>>, s: nat, p: seq<Arc>)
    requires ValidNetwork(g, types) && AllValid(g, types, elements) && Faithful(g, types, elements, cache)
    requires s < |elements| && NumberPath(cache, s, p)
    ensures var q := LiftAll(elements, p);
            && ElementPath(g, types, elements[s], q)
            && NumberEnd(s, p) < |elements| && PathEnd(elements[s], q) == elements[NumberEnd(s, p)]
            && Weight(q) == SubWeight(p) && Inputs(q) == SubInputs(p) && Outputs(q) == SubOutputs(p)
    decreases |p|
  {
    hide ElementArcs, ValidNetwork, ValidElement, Nonzero;
    if p != [] {
      var k :| 0 <= k < |cache[s]| && cache[s][k] == p[0];
      assert ArcsFaithful(g, types, elements, cache[s], s);
      NumbersToElements(g, types, elements, cache, p[0].nextstate, p[1..]);
      var q, rest := LiftAll(elements, p), LiftAll(elements, p[1..]);
      assert q[0] == Lift(elements, p[0]) && q[1..] == rest;
    }
  }

  /** When every known state has its arcs, each path over elements is one over numbers. */
  lemma {:induction false} ElementsToNumbers(g: Fst, types: seq<Fst>, elements: seq<Element>,
                                             cache: map<nat, seq<Arc>>, s: nat, q: seq<ElementArc>)
    returns (p: seq<Arc>)
    requires ValidNetwork(g, types) && AllValid(g, types, elements) && Faithful(g, types, elements, cache)
    requires s < |elements| && (forall t :: 0 <= t < |elements| ==> t in cache)
    requires ElementPath(g, types, elements[s], q)
    ensures NumberPath(cache, s, p) && LiftAll(elements, p) == q
    decreases |q|
  {
    hide ElementArcs, ValidNetwork, ValidElement;
    if q == [] {
      p := [];
    } else {
      assert ArcsFaithful(g, types, elements, cache[s], s) && Cached(elements, cache[s], q[0]);
      var k :| 0 <= k < |cache[s]| && cache[s][k].nextstate < |elements| && Lift(elements, cache[s][k]) == q[0];
      var a := cache[s][k];
      var rest := ElementsToNumbers(g, types, elements, cache, a.nextstate, q[1..]);
      p := [a] + rest;
      assert p[1..] == rest;
      assert q == [q[0]] + q[1..];
    }
  }

  // ---------- What the machine accepts ----------

  /** Every state that has a number has its arcs and its final weight. */
  ghost predicate Full(m: ArcExpandFstImpl)
    reads m
  {
    m.start.Some? && forall s :: 0 <= s < |m.elements| ==> s in m.cache && s in m.finals
  }

  lemma NumbersAccept(m: ArcExpandFstImpl, p: seq<Arc>, inputs: seq<int>, outputs: seq<int>, cost: int)
    requires m.Valid() && m.start.Some?
    requires NumberAccepts(m.cache, m.finals, m.start.value, p, inputs, outputs, cost)
    ensures ValidNetwork(m.fst, m.types) && PathAccepts(m.fst, m.types, LiftAll(m.elements, p), inputs, outputs, cost)
  {
    hide ElementPath, Faithful, CacheOk, Indexed, AllValid, ValidNetwork;
    MachineIsFaithful(m);
    NumbersToElements(m.fst, m.types, m.elements, m.cache, m.start.value, p);
  }

  /** However much of it has been computed, and however often its states were expanded, the machine
      accepts nothing but what the source machine does with the sub-machines put in. */
  lemma MachineIsSound(m: ArcExpandFstImpl, inputs: seq<int>, outputs: seq<int>, cost: int)
    requires m.Valid() && MachineAccepts(m, inputs, outputs, cost)
    ensures ValidNetwork(m.fst, m.types) && SourceAccepts(m.fst, m.types, inputs, outputs, cost)
  {
    var p :| NumberAccepts(m.cache, m.finals, m.start.value, p, inputs, outputs, cost);
    hide NumberAccepts, PathAccepts, SourceAccepts;
    NumbersAccept(m, p, inputs, outputs, cost);
    ExpansionPreservesMeaning(m.fst, m.types, inputs, outputs, cost);
  }

  lemma ElementsAccept(m: ArcExpandFstImpl, q: seq<ElementArc>, inputs: seq<int>, outputs: seq<int>, cost: int)
    returns (p: seq<Arc>)
    requires m.Valid() && Full(m) && ValidNetwork(m.fst, m.types)
    requires PathAccepts(m.fst, m.types, q, inputs, outputs, cost)
    ensures NumberAccepts(m.cache, m.finals, m.start.value, p, inputs, outputs, cost)
  {
    hide ElementPath, Faithful, CacheOk, Indexed, AllValid, ValidNetwork, NumberPath;
    MachineIsFaithful(m);
    p := ElementsToNumbers(m.fst, m.types, m.elements, m.cache, m.start.value, q);
    NumbersToElements(m.fst, m.types, m.elements, m.cache, m.start.value, p);
  }

  /** Once every state has been asked about, it accepts exactly that. */
  lemma MachineIsExact(m: ArcExpandFstImpl, inputs: seq<int>, outputs: seq<int>, cost: int)
    requires m.Valid() && Full(m)
    ensures ValidNetwork(m.fst, m.types)
    ensures MachineAccepts(m, inputs, outputs, cost) <==> SourceAccepts(m.fst, m.types, inputs, outputs, cost)
  {
    hide NumberAccepts, PathAccepts, SourceAccepts, ArcExpandFstImpl.Valid, ValidNetwork;
    m.ValidIsNetwork();
    ExpansionPreservesMeaning(m.fst, m.types, inputs, outputs, cost);
    if MachineAccepts(m, inputs, outputs, cost) {
      MachineIsSound(m, inputs, outputs, cost);
    }
    if q :| PathAccepts(m.fst, m.types, q, inputs, outputs, cost) {
      var p := ElementsAccept(m, q, inputs, outputs, cost);
    }
  }

  /** Asks about a state, in either order. */
  method AskBoth(m: ArcExpandFstImpl, s: nat, finalFirst: bool)
    requires m.Valid() && m.Tallied() && s < |m.elements| && m.start.Some?
    modifies m
    ensures m.Valid() && m.Tallied() && old(m.elements) <= m.elements && m.start == old(m.start)
    ensures m.cache.Keys == old(m.cache.Keys) + {s} && m.finals.Keys == old(m.finals.Keys) + {s}
  {
    hide ArcExpandFstImpl.Valid, ArcExpandFstImpl.Tallied;
    var n, w;
    if finalFirst {
      w := m.Final(s);
      n := m.NumArcs(s);
    } else {
      n := m.NumArcs(s);
      w := m.Final(s);
    }
  }

  /** Asks for the arcs and the final weight of every state, as copying the whole machine does. */
  method ArcExpand(fst: Fst, types: seq<Fst>, finalFirst: nat -> bool) returns (m: ArcExpandFstImpl)
    requires ValidNetwork(fst, types)
    ensures m.Valid() && m.Tallied() && Full(m) && fresh(m)
    ensures forall inputs, outputs, cost ::
              MachineAccepts(m, inputs, outputs, cost) <==> SourceAccepts(fst, types, inputs, outputs, cost)
  {
    hide MachineAccepts, SourceAccepts, ArcExpandFstImpl.Valid, ArcExpandFstImpl.Tallied, ValidTypes, InnerStates;
    m := new ArcExpandFstImpl(fst, types);
    var start := m.Start();
    var s := 0;
    while s < |m.elements|
      invariant m.Valid() && m.Tallied() && m.start.Some? && s <= |m.elements|
      invariant forall t :: 0 <= t < s ==> t in m.cache.Keys && t in m.finals.Keys
      decreases |fst.arcs| + InnerStates(fst, types, |fst.arcs|) - s
    {
      AskBoth(m, s, finalFirst(s));
      m.StateBound();
      s := s + 1;
    }
    forall inputs, outputs, cost
      ensures MachineAccepts(m, inputs, outputs, cost) <==> SourceAccepts(fst, types, inputs, outputs, cost)
    {
      MachineIsExact(m, inputs, outputs, cost);
    }
  }
}
