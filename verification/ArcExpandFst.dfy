/** The lazy expanded machine (src/include/dcd/arc-expand-fst.h): states are numbered as they are
    met, arcs are computed once and cached. */
module ArcExpandFst {
  import opened Wfst
  import opened ArcExpansion
  import opened ArcExpansionMeaning
  import opened Wrappers

  /** The number table and the hash from elements to numbers undo each other. */
  ghost predicate Indexed(elements: seq<Element>, element2state: map<Element, nat>) {
    && (forall i :: 0 <= i < |elements| ==> elements[i] in element2state && element2state[elements[i]] == i)
    && (forall e :: e in element2state ==> element2state[e] < |elements| && elements[element2state[e]] == e)
  }

  /** `arcs` are the arcs `ea` with their targets numbered. */
  ghost predicate ArcsMatch(elements: seq<Element>, arcs: seq<Arc>, ea: seq<ElementArc>) {
    && |arcs| == |ea|
    && forall k :: 0 <= k < |arcs| ==>
         arcs[k].nextstate < |elements|
         && ElementArc(arcs[k].ilabel, arcs[k].olabel, arcs[k].weight, elements[arcs[k].nextstate]) == ea[k]
  }

  lemma ArcsMatchGrows(elements: seq<Element>, elements': seq<Element>, arcs: seq<Arc>, ea: seq<ElementArc>)
    requires ArcsMatch(elements, arcs, ea) && elements <= elements'
    ensures ArcsMatch(elements', arcs, ea)
  {
  }

  /** `ea`, `n` times over: what `n` expansions of one state push into its cache entry. */
  ghost function Repeat(ea: seq<ElementArc>, n: nat): seq<ElementArc> {
    if n == 0 then [] else Repeat(ea, n - 1) + ea
  }

  lemma {:induction false} RepeatMembers(ea: seq<ElementArc>, n: nat)
    ensures n > 0 ==> forall a :: a in Repeat(ea, n) <==> a in ea
    ensures n == 0 ==> Repeat(ea, n) == []
  {
    if n > 0 { RepeatMembers(ea, n - 1); }
  }

  lemma ArcsMatchStep(was: seq<Element>, elements: seq<Element>, arcs: seq<Arc>, ea: seq<ElementArc>, k: nat, arc: Arc)
    requires k < |ea| && ArcsMatch(was, arcs, ea[..k]) && was <= elements && arc.nextstate < |elements|
    requires ElementArc(arc.ilabel, arc.olabel, arc.weight, elements[arc.nextstate]) == ea[k]
    ensures ArcsMatch(elements, arcs + [arc], ea[..k + 1])
  {
  }

  lemma NoArcsMatch(elements: seq<Element>)
    ensures ArcsMatch(elements, [], [])
  {
  }

  ghost predicate AllValid(g: Fst, types: seq<Fst>, elements: seq<Element>)
    requires ValidNetwork(g, types)
  {
    forall i :: 0 <= i < |elements| ==> ValidElement(g, types, elements[i])
  }

  /** Every cache entry holds the arcs of its element, once for each expansion of the state. */
  ghost predicate CacheOk(g: Fst, types: seq<Fst>, elements: seq<Element>, cache: map<nat, seq<Arc>>,
                          copies: map<nat, nat>)
    requires ValidNetwork(g, types) && AllValid(g, types, elements)
  {
    && (forall s :: s in cache <==> s in copies)
    && (forall s :: s in cache ==>
          s < |elements| && copies[s] >= 1
          && ArcsMatch(elements, cache[s], Repeat(ElementArcs(g, types, elements[s]), copies[s])))
  }

  ghost predicate FinalsOk(g: Fst, elements: seq<Element>, finals: map<nat, Option<int>>) {
    forall s :: s in finals ==> s < |elements| && finals[s] == FinalOf(g, elements[s])
  }

  lemma CacheGrows(g: Fst, types: seq<Fst>, elements: seq<Element>, elements': seq<Element>,
                   cache: map<nat, seq<Arc>>, copies: map<nat, nat>)
    requires ValidNetwork(g, types) && AllValid(g, types, elements) && AllValid(g, types, elements')
    requires CacheOk(g, types, elements, cache, copies) && elements <= elements'
    ensures CacheOk(g, types, elements', cache, copies)
  {
    forall s | s in cache
      ensures ArcsMatch(elements', cache[s], Repeat(ElementArcs(g, types, elements'[s]), copies[s]))
    {
      ArcsMatchGrows(elements, elements', cache[s], Repeat(ElementArcs(g, types, elements[s]), copies[s]));
    }
  }

  lemma CachePush(g: Fst, types: seq<Fst>, elements: seq<Element>, cache: map<nat, seq<Arc>>, copies: map<nat, nat>,
                  s: nat, arcs: seq<Arc>)
    requires ValidNetwork(g, types) && AllValid(g, types, elements) && CacheOk(g, types, elements, cache, copies)
    requires s < |elements| && ArcsMatch(elements, arcs, ElementArcs(g, types, elements[s]))
    ensures var known, n := if s in cache then cache[s] else [], if s in copies then copies[s] else 0;
            CacheOk(g, types, elements, cache[s := known + arcs], copies[s := n + 1])
  {
    hide ElementArcs, ArcsMatch, Repeat, ValidElement;
    var ea := ElementArcs(g, types, elements[s]);
    if s in cache {
      EntryPush(elements, cache[s], ea, copies[s], arcs);
    } else {
      EntryStart(elements, ea, arcs);
    }
  }

  lemma EntryStart(elements: seq<Element>, ea: seq<ElementArc>, arcs: seq<Arc>)
    requires ArcsMatch(elements, arcs, ea)
    ensures ArcsMatch(elements, [] + arcs, Repeat(ea, 1))
  {
    assert Repeat(ea, 1) == Repeat(ea, 0) + ea == ea;
  }

  lemma EntryPush(elements: seq<Element>, known: seq<Arc>, ea: seq<ElementArc>, n: nat, arcs: seq<Arc>)
    requires ArcsMatch(elements, known, Repeat(ea, n)) && ArcsMatch(elements, arcs, ea)
    ensures ArcsMatch(elements, known + arcs, Repeat(ea, n + 1))
  {
    ArcsMatchJoin(elements, known, Repeat(ea, n), arcs, ea);
  }

  lemma ArcsMatchJoin(elements: seq<Element>, a: seq<Arc>, ea: seq<ElementArc>, b: seq<Arc>, eb: seq<ElementArc>)
    requires ArcsMatch(elements, a, ea) && ArcsMatch(elements, b, eb)
    ensures ArcsMatch(elements, a + b, ea + eb)
  {
  }

  // ---------- How often a state is expanded ----------

  /** What is asked of the machine: the arcs of a state, or its final weight. */
  datatype Question = ArcsOf(state: nat) | FinalWeight(state: nat)

  /** How often these questions have expanded a state: the first one does, and the first one for the
      final weight does it again. */
  function Expansions(asked: seq<Question>, s: nat): nat {
    if asked == [] then 0 else
      var init, q := asked[..|asked| - 1], asked[|asked| - 1];
      var n := Expansions(init, s);
      if q == ArcsOf(s) && n == 0 then 1
      else if q == FinalWeight(s) && q !in init then n + 1
      else n
  }

  /** The arcs of the state were asked for before its final weight, and then that was too. */
  ghost predicate FinalAfterArcs(asked: seq<Question>, s: nat) {
    exists i, j :: 0 <= i < j < |asked| && asked[i] == ArcsOf(s) && FirstFinal(asked, s, j)
  }

  predicate FirstFinal(asked: seq<Question>, s: nat, j: nat) {
    j < |asked| && asked[j] == FinalWeight(s) && FinalWeight(s) !in asked[..j]
  }

  /** A state is expanded once when it is asked about, and twice exactly when its final weight is asked
      for after its arcs. */
  lemma {:induction false} ExpansionsMeans(asked: seq<Question>, s: nat)
    ensures Expansions(asked, s) == if FinalAfterArcs(asked, s) then 2
                                    else if ArcsOf(s) in asked || FinalWeight(s) in asked then 1 else 0
    ensures FinalWeight(s) !in asked ==> !FinalAfterArcs(asked, s)
  {
    if asked != [] {
      var init, q := asked[..|asked| - 1], asked[|asked| - 1];
      ExpansionsMeans(init, s);
      assert asked == init + [q];
      FinalAfterArcsStep(init, q, s);
    }
  }

  lemma FinalAfterArcsStep(asked: seq<Question>, q: Question, s: nat)
    ensures FinalAfterArcs(asked + [q], s) <==>
              FinalAfterArcs(asked, s) || (q == FinalWeight(s) && q !in asked && ArcsOf(s) in asked)
  {
    var more := asked + [q];
    forall j: nat ensures FirstFinal(more, s, j) <==>
        FirstFinal(asked, s, j) || (j == |asked| && q == FinalWeight(s) && q !in asked)
    {
      if j < |asked| { assert more[..j] == asked[..j]; }
      if j == |asked| { assert more[..j] == asked; }
    }
    if ArcsOf(s) in asked && FirstFinal(more, s, |asked|) {
      var i :| 0 <= i < |asked| && asked[i] == ArcsOf(s);
      assert more[i] == ArcsOf(s);
    }
    if FinalAfterArcs(asked, s) {
      var i, j :| 0 <= i < j < |asked| && asked[i] == ArcsOf(s) && FirstFinal(asked, s, j);
      assert more[i] == ArcsOf(s) && FirstFinal(more, s, j);
    }
    if FinalAfterArcs(more, s) {
      var i, j :| 0 <= i < j < |more| && more[i] == ArcsOf(s) && FirstFinal(more, s, j);
      assert asked[i] == ArcsOf(s);
    }
  }

  /** Each state has been expanded as often as the questions asked make it. */
  ghost predicate Tally(asked: seq<Question>, copies: map<nat, nat>, known: set<nat>) {
    && (forall s: nat :: Expansions(asked, s) == if s in copies then copies[s] else 0)
    && (forall s: nat :: s in known <==> FinalWeight(s) in asked)
    && (forall s :: s in copies ==> copies[s] >= 1)
  }

  lemma TallyArcs(asked: seq<Question>, copies: map<nat, nat>, known: set<nat>, s: nat)
    requires Tally(asked, copies, known)
    ensures Tally(asked + [ArcsOf(s)], if s in copies then copies else copies[s := 1], known)
    ensures s in copies ==> copies[s] == Expansions(asked + [ArcsOf(s)], s)
    ensures s !in copies ==> 1 == Expansions(asked + [ArcsOf(s)], s)
  {
    assert (asked + [ArcsOf(s)])[..|asked|] == asked;
  }

  lemma TallyFinal(asked: seq<Question>, copies: map<nat, nat>, known: set<nat>, s: nat)
    requires Tally(asked, copies, known)
    ensures Tally(asked + [FinalWeight(s)],
                  if s in known then copies else copies[s := 1 + if s in copies then copies[s] else 0], known + {s})
  {
    assert (asked + [FinalWeight(s)])[..|asked|] == asked;
  }

  class ArcExpandFstImpl {
    const fst: Fst
    const types: seq<Fst>
    var elements: seq<Element>
    var element2state: map<Element, nat>
    var cache: map<nat, seq<Arc>>
    var start: Option<nat>
    var finals: map<nat, Option<int>>
    /** How often each cached state has been expanded. */
    ghost var copies: map<nat, nat>
    ghost var asked: seq<Question>

    constructor (fst: Fst, types: seq<Fst>)
      requires ValidNetwork(fst, types)
      ensures Valid() && Tallied() && this.fst == fst && this.types == types && elements == [] && asked == []
    {
      this.fst, this.types := fst, types;
      elements, element2state, cache, start, finals, copies, asked := [], map[], map[], None, map[], map[], [];
    }

    ghost predicate Valid()
      reads this
    {
      && ValidNetwork(fst, types) && AllValid(fst, types, elements)
      && Indexed(elements, element2state)
      && CacheOk(fst, types, elements, cache, copies)
      && (start.Some? ==> start.value < |elements| && elements[start.value] == Super(fst.start))
      && FinalsOk(fst, elements, finals)
    }

    lemma ValidIsNetwork()
      requires Valid()
      ensures ValidNetwork(fst, types) && AllValid(fst, types, elements)
    {
    }

    method AddElement(e: Element) returns (d: nat)
      requires Valid() && ValidElement(fst, types, e)
      modifies this`elements, this`element2state
      ensures Valid() && old(elements) <= elements && d < |elements| && elements[d] == e
      ensures elements == if e in old(elements) then old(elements) else old(elements) + [e]
    {
      hide CacheOk, ArcsMatch, ElementArcs, ValidNetwork, ValidElement;
      if e !in element2state {
        d := |elements|;
        CacheGrows(fst, types, elements, elements + [e], cache, copies);
        elements := elements + [e];
        element2state := element2state[e := d];
      } else {
        d := element2state[e];
      }
    }

    method Start() returns (s: nat)
      requires Valid()
      modifies this`elements, this`element2state, this`start
      ensures Valid() && old(elements) <= elements && s < |elements| && elements[s] == Super(fst.start)
              && start == Some(s)
    {
      hide CacheOk, ArcsMatch, Indexed, ElementArcs;
      if start.None? {
        var d := AddElement(Super(fst.start));
        start := Some(d);
      }
      s := start.value;
    }

    /** The label that names the sub-machine an element lies in. */
    function FindTypeLabel(e: Element): int
      requires ValidNetwork(fst, types) && ValidElement(fst, types, e)
    {
      if e.index == -1 then -1 else fst.arcs[e.state][e.index].ilabel
    }

    /** The source arc an element lies in, sought by position. */
    function FindArc(e: Element): Arc
      requires ValidNetwork(fst, types) && ValidElement(fst, types, e) && e.index != -1
    {
      fst.arcs[e.state][e.index]
    }

    ghost predicate Tallied()
      reads this`asked, this`copies, this`finals
    {
      Tally(asked, copies, finals.Keys)
    }

    /** Computes the arcs of state `s` and pushes them behind whatever its cache entry holds. */
    method Expand(s: nat)
      requires Valid() && s < |elements|
      modifies this`elements, this`element2state, this`cache, this`copies
      ensures Valid() && old(elements) <= elements
      ensures copies == old(copies)[s := 1 + if s in old(copies) then old(copies)[s] else 0]
      ensures cache.Keys == old(cache.Keys) + {s}
    {
      hide Indexed, CacheOk, ArcsMatch, ElementArcs;
      var element := elements[s];
      var arcs: seq<Arc>;
      if element.arcstate == -1 {
        arcs := ExpandSuper(element);
      } else {
        arcs := ExpandInner(element);
      }
      CachePush(fst, types, elements, cache, copies, s, arcs);
      cache := cache[s := (if s in cache then cache[s] else []) + arcs];
      copies := copies[s := 1 + if s in copies then copies[s] else 0];
    }

    method ExpandSuper(element: Element) returns (arcs: seq<Arc>)
      requires Valid() && ValidElement(fst, types, element) && element.arcstate == -1
      modifies this`elements, this`element2state
      ensures Valid() && old(elements) <= elements && ArcsMatch(elements, arcs, ElementArcs(fst, types, element))
    {
      hide Valid, ArcsMatch;
      ValidIsNetwork();
      arcs := [];
      var i := 0;
      NoArcsMatch(elements);
      var from := fst.arcs[element.state];
      ghost var ea := ElementArcs(fst, types, element);
      assert ea[..0] == [];
      ElementArcsValid(fst, types, element);
      for k := 0 to |from|
        invariant Valid() && old(elements) <= elements
        invariant i == CountExpanded(types, from[..k])
        invariant ArcsMatch(elements, arcs, ea[..k])
      {
        var arc := from[k];
        var delement := if IsEpsilonType(types, arc.ilabel) then Super(arc.nextstate) else Element(element.state, 0, i);
        assert from[..k + 1][..k] == from[..k];
        assert ea[k] == SuperArc(fst, types, element.state, k);
        if !IsEpsilonType(types, arc.ilabel) { i := i + 1; }
        ghost var was := elements;
        var d := AddElement(delement);
        ArcsMatchStep(was, elements, arcs, ea, k, Arc(0, arc.olabel, arc.weight, d));
        arcs := arcs + [Arc(0, arc.olabel, arc.weight, d)];
      }
      assert ea[..|from|] == ea && from[..|from|] == from;
    }

    method ExpandInner(element: Element) returns (arcs: seq<Arc>)
      requires Valid() && ValidElement(fst, types, element) && element.arcstate != -1
      modifies this`elements, this`element2state
      ensures Valid() && old(elements) <= elements && ArcsMatch(elements, arcs, ElementArcs(fst, types, element))
    {
      hide Valid;
      ValidIsNetwork();
      arcs := [];
      var ilabel := FindTypeLabel(element);
      var sub := types[ilabel];
      var laststate := |sub.arcs| - 1;
      var from := sub.arcs[element.arcstate];
      ghost var ea := ElementArcs(fst, types, element);
      ElementArcsValid(fst, types, element);
      for k := 0 to |from|
        invariant Valid() && old(elements) <= elements
        invariant ArcsMatch(elements, arcs, ea[..k])
      {
        var arc := from[k];
        var delement := if arc.nextstate == laststate then Super(FindArc(element).nextstate)
                        else Element(element.state, arc.nextstate, element.index);
        assert ea[k] == InnerArc(fst, types, element, arc);
        ghost var was := elements;
        var d := AddElement(delement);
        ArcsMatchStep(was, elements, arcs, ea, k, Arc(arc.ilabel, 0, arc.weight, d));
        arcs := arcs + [Arc(arc.ilabel, 0, arc.weight, d)];
      }
      assert ea[..|from|] == ea;
    }

    /** The number of arcs of a state, which are computed when they are first asked for: they count once
        for every time the state was expanded. */
    method NumArcs(s: nat) returns (n: nat)
      requires Valid() && Tallied() && s < |elements|
      modifies this`elements, this`element2state, this`cache, this`copies, this`asked
      ensures Valid() && Tallied() && old(elements) <= elements && asked == old(asked) + [ArcsOf(s)]
      ensures cache.Keys == old(cache.Keys) + {s}
      ensures s in cache && n == |cache[s]| == Expansions(asked, s) * |ElementArcs(fst, types, elements[s])|
    {
      hide ArcsMatch, Indexed, ElementArcs, ValidNetwork, Tally;
      TallyArcs(asked, copies, finals.Keys, s);
      if s !in cache { Expand(s); }
      asked := asked + [ArcsOf(s)];
      n := |cache[s]|;
      CachedCount(s);
    }

    /** The final weight of a state; asking for it the first time expands the state even when its
        arcs are there already. */
    method Final(s: nat) returns (w: Option<int>)
      requires Valid() && Tallied() && s < |elements|
      modifies this`elements, this`element2state, this`cache, this`copies, this`finals, this`asked
      ensures Valid() && Tallied() && old(elements) <= elements && asked == old(asked) + [FinalWeight(s)]
      ensures w == FinalOf(fst, elements[s]) && finals.Keys == old(finals.Keys) + {s}
      ensures cache.Keys == old(cache.Keys) + {s}
    {
      hide CacheOk, ArcsMatch, Indexed, ElementArcs, Tally;
      TallyFinal(asked, copies, finals.Keys, s);
      if s in finals { KnownHasArcs(s); }
      if s !in finals {
        Expand(s);
        var element := elements[s];
        finals := finals[s := if element.arcstate == -1 then fst.final[element.state] else None];
      }
      assert finals.Keys == old(finals.Keys) + {s};
      asked := asked + [FinalWeight(s)];
      w := finals[s];
    }

    /** A state whose final weight is known has been expanded. */
    lemma KnownHasArcs(s: nat)
      requires Valid() && Tallied() && s in finals
      ensures s in cache
    {
      hide ArcsMatch, ElementArcs;
      ExpansionsMeans(asked, s);
    }

    /** At most one number per source state, and one per inner state of each expanded arc. */
    lemma StateBound()
      requires Valid()
      ensures |elements| <= |fst.arcs| + InnerStates(fst, types, |fst.arcs|)
    {
      forall i, j | 0 <= i < j < |elements| ensures elements[i] != elements[j] {
        assert element2state[elements[i]] == i;
      }
      forall i | 0 <= i < |elements| ensures elements[i] in Universe(fst, types, |fst.arcs|) {
        InUniverse(fst, types, elements[i], |fst.arcs|);
      }
      UniverseSize(fst, types, |fst.arcs|);
      DistinctFit(elements, Universe(fst, types, |fst.arcs|));
    }

    /** An arc is in the cache entry of an expanded state exactly when the element it stands for is
        an arc of the expanded machine, however often the state was expanded. */
    lemma CachedArcs(s: nat, ea: ElementArc)
      requires Valid() && s in cache
      ensures s < |elements|
      ensures ea in ElementArcs(fst, types, elements[s]) <==>
                exists k :: 0 <= k < |cache[s]| && cache[s][k].nextstate < |elements|
                  && ea == ElementArc(cache[s][k].ilabel, cache[s][k].olabel, cache[s][k].weight,
                                      elements[cache[s][k].nextstate])
    {
      hide Indexed, ElementArcs;
      var arcs := ElementArcs(fst, types, elements[s]);
      RepeatMembers(arcs, copies[s]);
      var pushed := Repeat(arcs, copies[s]);
      assert ArcsMatch(elements, cache[s], pushed);
      if ea in arcs {
        var k :| 0 <= k < |pushed| && pushed[k] == ea;
      }
    }

    /** The arcs of a state are counted once exactly when its final weight was not asked for after them. */
    lemma CountedOnce(s: nat)
      requires Valid() && Tallied() && s in cache
      ensures s < |elements|
      ensures |cache[s]| == (if FinalAfterArcs(asked, s) then 2 else 1) * |ElementArcs(fst, types, elements[s])|
      ensures ElementArcs(fst, types, elements[s]) != [] ==>
                (|cache[s]| == |ElementArcs(fst, types, elements[s])| <==> !FinalAfterArcs(asked, s))
    {
      hide ElementArcs, ArcsMatch, Indexed;
      CachedCount(s);
      ExpansionsMeans(asked, s);
    }

    /** The arcs counted for a state are its arcs once for every time it was expanded. */
    lemma CachedCount(s: nat)
      requires Valid() && s in cache
      ensures s < |elements| && s in copies && |cache[s]| == copies[s] * |ElementArcs(fst, types, elements[s])|
    {
      hide Indexed;
      RepeatLength(ElementArcs(fst, types, elements[s]), copies[s]);
    }
  }

  lemma {:induction false} RepeatLength(ea: seq<ElementArc>, n: nat)
    ensures |Repeat(ea, n)| == n * |ea|
  {
    if n > 0 { RepeatLength(ea, n - 1); }
  }

  // ---------- Counting elements ----------

  /** Inner states of the expanded arcs among the first `n` arcs of `s`. */
  ghost function InnerStatesOf(g: Fst, types: seq<Fst>, s: nat, n: nat): nat
    requires ValidTypes(g, types) && s < |g.arcs| && n <= |g.arcs[s]|
  {
    if n == 0 then 0 else
      InnerStatesOf(g, types, s, n - 1)
      + if IsEpsilonType(types, g.arcs[s][n - 1].ilabel) then 0 else |types[g.arcs[s][n - 1].ilabel].arcs| - 1
  }

  /** The sum over the expanded arcs of the first `m` states of the sub-machine's states but one. */
  ghost function InnerStates(g: Fst, types: seq<Fst>, m: nat): nat
    requires ValidTypes(g, types) && m <= |g.arcs|
  {
    if m == 0 then 0 else InnerStates(g, types, m - 1) + InnerStatesOf(g, types, m - 1, |g.arcs[m - 1]|)
  }

  ghost function InnerElements(s: nat, k: nat, n: nat): set<Element> {
    if n == 0 then {} else InnerElements(s, k, n - 1) + {Element(s, n - 1, k)}
  }

  ghost function UniverseOf(g: Fst, types: seq<Fst>, s: nat, n: nat): set<Element>
    requires ValidTypes(g, types) && s < |g.arcs| && n <= |g.arcs[s]|
  {
    if n == 0 then {Super(s)} else
      UniverseOf(g, types, s, n - 1)
      + if IsEpsilonType(types, g.arcs[s][n - 1].ilabel) then {}
        else InnerElements(s, n - 1, |types[g.arcs[s][n - 1].ilabel].arcs| - 1)
  }

  ghost function Universe(g: Fst, types: seq<Fst>, m: nat): set<Element>
    requires ValidTypes(g, types) && m <= |g.arcs|
  {
    if m == 0 then {} else Universe(g, types, m - 1) + UniverseOf(g, types, m - 1, |g.arcs[m - 1]|)
  }

  lemma {:induction false} InnerElementsFacts(s: nat, k: nat, n: nat)
    ensures |InnerElements(s, k, n)| <= n
    ensures forall a :: 0 <= a < n ==> Element(s, a, k) in InnerElements(s, k, n)
  {
    if n > 0 { InnerElementsFacts(s, k, n - 1); }
  }

  lemma {:induction false} UniverseOfSize(g: Fst, types: seq<Fst>, s: nat, n: nat)
    requires ValidTypes(g, types) && s < |g.arcs| && n <= |g.arcs[s]|
    ensures |UniverseOf(g, types, s, n)| <= 1 + InnerStatesOf(g, types, s, n)
    ensures Super(s) in UniverseOf(g, types, s, n)
    ensures forall k, a ::
              && 0 <= k < n && !IsEpsilonType(types, g.arcs[s][k].ilabel)
              && 0 <= a < |types[g.arcs[s][k].ilabel].arcs| - 1 ==>
              Element(s, a, k) in UniverseOf(g, types, s, n)
  {
    if n > 0 {
      UniverseOfSize(g, types, s, n - 1);
      InnerElementsFacts(s, n - 1, |types[g.arcs[s][n - 1].ilabel].arcs| - 1);
    }
  }

  lemma {:induction false} UniverseSize(g: Fst, types: seq<Fst>, m: nat)
    requires ValidTypes(g, types) && m <= |g.arcs|
    ensures |Universe(g, types, m)| <= m + InnerStates(g, types, m)
  {
    if m > 0 {
      UniverseSize(g, types, m - 1);
      UniverseOfSize(g, types, m - 1, |g.arcs[m - 1]|);
    }
  }

  lemma {:induction false} InUniverse(g: Fst, types: seq<Fst>, e: Element, m: nat)
    requires ValidTypes(g, types) && ValidElement(g, types, e) && e.state < m <= |g.arcs|
    ensures e in Universe(g, types, m)
  {
    if e.state == m - 1 {
      UniverseOfSize(g, types, m - 1, |g.arcs[m - 1]|);
      assert e == Element(m - 1, e.arcstate, e.index);
    } else {
      InUniverse(g, types, e, m - 1);
    }
  }

  lemma {:induction false} DistinctFit(xs: seq<Element>, u: set<Element>)
    requires forall i :: 0 <= i < |xs| ==> xs[i] in u
    requires forall i, j :: 0 <= i < j < |xs| ==> xs[i] != xs[j]
    ensures |xs| <= |u|
  {
    if xs != [] {
      var x := xs[|xs| - 1];
      DistinctFit(xs[..|xs| - 1], u - {x});
    }
  }

  lemma ThreeQuestions(s: nat)
    ensures Expansions([ArcsOf(s)], s) == 1
    ensures Expansions([ArcsOf(s), FinalWeight(s), ArcsOf(s)], s) == 2
  {
    var q := [ArcsOf(s), FinalWeight(s), ArcsOf(s)];
    assert q[..2][..1] == [ArcsOf(s)] && q[..1][..0] == [] && [ArcsOf(s)][..0] == [];
    assert q[..2] == [ArcsOf(s), FinalWeight(s)];
  }

  /** On any network: count the arcs of the start state, ask for its final weight, and count again. */
  method CountsDouble(fst: Fst, types: seq<Fst>) returns (first: nat, second: nat)
    requires ValidNetwork(fst, types)
    ensures fst.start < |fst.arcs| && first == |fst.arcs[fst.start]| && second == 2 * first
  {
    hide ArcExpandFstImpl.Valid, ArcExpandFstImpl.Tallied, ElementArcs, Expansions, ValidElement;
    var machine := new ArcExpandFstImpl(fst, types);
    var s := machine.Start();
    ThreeQuestions(s);
    StartArcs(fst, types);
    first := machine.NumArcs(s);
    assert machine.asked == [ArcsOf(s)];
    var w := machine.Final(s);
    second := machine.NumArcs(s);
    assert machine.asked == [ArcsOf(s), FinalWeight(s), ArcsOf(s)];
  }

  lemma StartArcs(fst: Fst, types: seq<Fst>)
    requires ValidNetwork(fst, types)
    ensures fst.start < |fst.arcs| && ValidElement(fst, types, Super(fst.start))
    ensures |ElementArcs(fst, types, Super(fst.start))| == |fst.arcs[fst.start]|
  {
  }
}
