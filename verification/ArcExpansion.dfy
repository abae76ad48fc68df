/** Arc expansion on values (src/include/dcd/arc-expand-fst.h): every arc of the source machine
    whose label names a sub-machine of more than two states is replaced by that sub-machine. */
module ArcExpansion {
  import opened Wfst
  import opened Wrappers

  /** A state of the expanded machine: a source state, or a place inside the `index`-th arc of one. */
  datatype Element = Element(state: nat, arcstate: int, index: int)

  function Super(s: nat): Element {
    Element(s, -1, -1)
  }

  /** An arc of the expanded machine, between elements. */
  datatype ElementArc = ElementArc(ilabel: int, olabel: int, weight: int, next: Element)

  predicate IsEpsilonType(types: seq<Fst>, ilabel: int) {
    0 <= ilabel < |types| && |types[ilabel].arcs| == 2
  }

  /** Every label names a type, every type has an entry state 0 and a distinct last state. */
  predicate ValidTypes(g: Fst, types: seq<Fst>) {
    && g.Valid()
    && (forall t :: 0 <= t < |types| ==> types[t].Valid() && |types[t].arcs| >= 2)
    && (forall s, k :: 0 <= s < |g.arcs| && 0 <= k < |g.arcs[s]| ==> 0 <= g.arcs[s][k].ilabel < |types|)
  }

  /** How many arcs among these are expanded: what the running index counts. */
  function CountExpanded(types: seq<Fst>, arcs: seq<Arc>): nat {
    if arcs == [] then 0 else
      CountExpanded(types, arcs[..|arcs| - 1]) + if IsEpsilonType(types, arcs[|arcs| - 1].ilabel) then 0 else 1
  }

  /** In every state the arcs whose sub-machine has two states come last. */
  predicate ExpandedFirst(types: seq<Fst>, arcs: seq<Arc>) {
    forall j, k :: 0 <= j < k < |arcs| && 0 <= arcs[j].ilabel < |types| && |types[arcs[j].ilabel].arcs| == 2 ==>
      0 <= arcs[k].ilabel < |types| && |types[arcs[k].ilabel].arcs| == 2
  }

  /** The running index of each expanded arc is its position, which is how it is looked up later. */
  predicate IndexFindsArc(types: seq<Fst>, arcs: seq<Arc>) {
    forall k :: 0 <= k < |arcs| && !IsEpsilonType(types, arcs[k].ilabel) ==> CountExpanded(types, arcs[..k]) == k
  }

  lemma {:induction false} CountBounds(types: seq<Fst>, arcs: seq<Arc>)
    ensures CountExpanded(types, arcs) <= |arcs|
    ensures CountExpanded(types, arcs) == |arcs|
            <==> forall j :: 0 <= j < |arcs| ==> !IsEpsilonType(types, arcs[j].ilabel)
  {
    if arcs != [] {
      var init := arcs[..|arcs| - 1];
      CountBounds(types, init);
      assert forall j :: 0 <= j < |init| ==> init[j] == arcs[j];
    }
  }

  /** Looking arcs up by the running index is right exactly when the expanded arcs come first. */
  lemma IndexFindsArcIffExpandedFirst(types: seq<Fst>, arcs: seq<Arc>)
    ensures IndexFindsArc(types, arcs) <==> ExpandedFirst(types, arcs)
  {
    forall k | 0 <= k < |arcs|
      ensures CountExpanded(types, arcs[..k]) == k <==> forall j :: 0 <= j < k ==> !IsEpsilonType(types, arcs[j].ilabel)
    {
      CountBounds(types, arcs[..k]);
      assert forall j :: 0 <= j < k ==> arcs[..k][j] == arcs[j];
    }
  }

  /** An epsilon arc in front of an expanded one makes the lookup find the wrong arc. */
  lemma LookupGoesWrong()
    ensures var types := [Fst(0, [[], []], [None, None]), Fst(0, [[], [], []], [None, None, None])];
            var arcs := [Arc(0, 0, 0, 0), Arc(1, 7, 0, 0)];
            CountExpanded(types, arcs[..1]) == 0 && arcs[0] != arcs[1] && !IsEpsilonType(types, arcs[1].ilabel)
  {
    var types: seq<Fst> := [Fst(0, [[], []], [None, None]), Fst(0, [[], [], []], [None, None, None])];
    var arcs := [Arc(0, 0, 0, 0), Arc(1, 7, 0, 0)];
    assert arcs[..1][..0] == [];
  }

  predicate ValidNetwork(g: Fst, types: seq<Fst>) {
    && ValidTypes(g, types)
    && forall s :: 0 <= s < |g.arcs| ==> ExpandedFirst(types, g.arcs[s])
  }

  predicate ValidElement(g: Fst, types: seq<Fst>, e: Element)
    requires ValidTypes(g, types)
  {
    && e.state < |g.arcs|
    && if e.arcstate == -1 then e.index == -1 else
       && 0 <= e.index < |g.arcs[e.state]|
       && !IsEpsilonType(types, g.arcs[e.state][e.index].ilabel)
       && 0 <= e.arcstate < |types[g.arcs[e.state][e.index].ilabel].arcs| - 1
  }

  // ---------- The arcs of an element ----------

  /** Where the `k`-th arc of source state `s` leads when `s` is expanded. */
  function SuperArc(g: Fst, types: seq<Fst>, s: nat, k: nat): ElementArc
    requires s < |g.arcs| && k < |g.arcs[s]|
  {
    var a := g.arcs[s][k];
    ElementArc(0, a.olabel, a.weight,
               if IsEpsilonType(types, a.ilabel) then Super(a.nextstate)
               else Element(s, 0, CountExpanded(types, g.arcs[s][..k])))
  }

  function InnerType(g: Fst, types: seq<Fst>, e: Element): Fst
    requires ValidTypes(g, types) && ValidElement(g, types, e) && e.arcstate != -1
  {
    types[g.arcs[e.state][e.index].ilabel]
  }

  /** Where an arc of the sub-machine leads from inside an expanded arc. */
  function InnerArc(g: Fst, types: seq<Fst>, e: Element, a: Arc): ElementArc
    requires ValidTypes(g, types) && ValidElement(g, types, e) && e.arcstate != -1
  {
    ElementArc(a.ilabel, 0, a.weight,
               if a.nextstate == |InnerType(g, types, e).arcs| - 1
               then Super(g.arcs[e.state][e.index].nextstate)
               else Element(e.state, a.nextstate, e.index))
  }

  function ElementArcs(g: Fst, types: seq<Fst>, e: Element): seq<ElementArc>
    requires ValidTypes(g, types) && ValidElement(g, types, e)
  {
    if e.arcstate == -1 then
      seq(|g.arcs[e.state]|, k requires 0 <= k < |g.arcs[e.state]| => SuperArc(g, types, e.state, k))
    else
      var inner := InnerType(g, types, e).arcs[e.arcstate];
      seq(|inner|, k requires 0 <= k < |inner| => InnerArc(g, types, e, inner[k]))
  }

  lemma ElementArcsValid(g: Fst, types: seq<Fst>, e: Element)
    requires ValidNetwork(g, types) && ValidElement(g, types, e)
    ensures forall k :: 0 <= k < |ElementArcs(g, types, e)| ==> ValidElement(g, types, ElementArcs(g, types, e)[k].next)
  {
    if e.arcstate == -1 {
      IndexFindsArcIffExpandedFirst(types, g.arcs[e.state]);
    }
  }

  // ---------- Paths of the expanded machine ----------

  predicate ElementPath(g: Fst, types: seq<Fst>, e: Element, p: seq<ElementArc>)
    requires ValidNetwork(g, types)
    decreases |p|
  {
    p == [] ||
    (ValidElement(g, types, e) && p[0] in ElementArcs(g, types, e) && ElementPath(g, types, p[0].next, p[1..]))
  }

  function PathEnd(e: Element, p: seq<ElementArc>): Element {
    if p == [] then e else p[|p| - 1].next
  }

  function Weight(p: seq<ElementArc>): int {
    if p == [] then 0 else p[0].weight + Weight(p[1..])
  }

  function Nonzero(l: int): seq<int> {
    if l == 0 then [] else [l]
  }

  function Inputs(p: seq<ElementArc>): seq<int> {
    if p == [] then [] else Nonzero(p[0].ilabel) + Inputs(p[1..])
  }

  function Outputs(p: seq<ElementArc>): seq<int> {
    if p == [] then [] else Nonzero(p[0].olabel) + Outputs(p[1..])
  }

  // ---------- What the expansion is for: one sub-machine path per expanded arc ----------

  /** One source arc: taken as it is when its sub-machine has two states, or else with a path through
      the sub-machine. */
  datatype Piece = Plain(k: nat) | Substituted(k: nat, inner: seq<Arc>)

  /** `inner` goes from state `from` of the type to its last state, which it enters only at the end. */
  predicate SubPath(t: Fst, from: nat, inner: seq<Arc>)
    decreases |inner|
  {
    && inner != [] && from < |t.arcs| - 1 && inner[0] in t.arcs[from]
    && if |inner| == 1 then inner[0].nextstate == |t.arcs| - 1
       else SubPath(t, inner[0].nextstate, inner[1..])
  }

  predicate ValidPiece(g: Fst, types: seq<Fst>, s: nat, piece: Piece)
    requires ValidNetwork(g, types)
  {
    && s < |g.arcs| && piece.k < |g.arcs[s]|
    && match piece
       case Plain(k) => |types[g.arcs[s][k].ilabel].arcs| == 2
       case Substituted(k, inner) =>
         |types[g.arcs[s][k].ilabel].arcs| > 2 && SubPath(types[g.arcs[s][k].ilabel], 0, inner)
  }

  /** A path of the source machine with one sub-machine path for each expanded arc. */
  predicate Derivation(g: Fst, types: seq<Fst>, s: nat, d: seq<Piece>)
    requires ValidNetwork(g, types)
    decreases |d|
  {
    d == [] || (ValidPiece(g, types, s, d[0]) && Derivation(g, types, g.arcs[s][d[0].k].nextstate, d[1..]))
  }

  function DerivationEnd(g: Fst, types: seq<Fst>, s: nat, d: seq<Piece>): nat
    requires ValidNetwork(g, types) && Derivation(g, types, s, d)
    decreases |d|
  {
    if d == [] then s else DerivationEnd(g, types, g.arcs[s][d[0].k].nextstate, d[1..])
  }

  function SubWeight(inner: seq<Arc>): int {
    if inner == [] then 0 else inner[0].weight + SubWeight(inner[1..])
  }

  function SubInputs(inner: seq<Arc>): seq<int> {
    if inner == [] then [] else Nonzero(inner[0].ilabel) + SubInputs(inner[1..])
  }

  function Inner(piece: Piece): seq<Arc> {
    if piece.Plain? then [] else piece.inner
  }

  function DerivationWeight(g: Fst, types: seq<Fst>, s: nat, d: seq<Piece>): int
    requires ValidNetwork(g, types) && Derivation(g, types, s, d)
    decreases |d|
  {
    if d == [] then 0 else
      var a := g.arcs[s][d[0].k];
      a.weight + SubWeight(Inner(d[0])) + DerivationWeight(g, types, a.nextstate, d[1..])
  }

  function DerivationInputs(d: seq<Piece>): seq<int> {
    if d == [] then [] else SubInputs(Inner(d[0])) + DerivationInputs(d[1..])
  }

  function DerivationOutputs(g: Fst, types: seq<Fst>, s: nat, d: seq<Piece>): seq<int>
    requires ValidNetwork(g, types) && Derivation(g, types, s, d)
    decreases |d|
  {
    if d == [] then [] else
      var a := g.arcs[s][d[0].k];
      Nonzero(a.olabel) + DerivationOutputs(g, types, a.nextstate, d[1..])
  }
}
