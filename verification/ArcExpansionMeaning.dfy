/** Expansion preserves meaning: the paths of the expanded machine between source states are the
    source paths with one sub-machine path in place of every expanded arc, label for label and
    weight for weight. */
module ArcExpansionMeaning {
  import opened Wfst
  import opened ArcExpansion
  import opened Wrappers

  // ---------- Joining paths ----------

  lemma {:induction false} PathJoin(g: Fst, types: seq<Fst>, e: Element, p: seq<ElementArc>, q: seq<ElementArc>)
    requires ValidNetwork(g, types) && ElementPath(g, types, e, p) && ElementPath(g, types, PathEnd(e, p), q)
    ensures ElementPath(g, types, e, p + q) && PathEnd(e, p + q) == PathEnd(PathEnd(e, p), q)
    decreases |p|
  {
    hide ValidNetwork, ElementArcs, ValidElement;
    if p == [] {
      assert p + q == q;
    } else {
      PathJoin(g, types, p[0].next, p[1..], q);
      assert (p + q)[1..] == p[1..] + q;
    }
  }

  lemma {:induction false} LabelsJoin(p: seq<ElementArc>, q: seq<ElementArc>)
    ensures Weight(p + q) == Weight(p) + Weight(q)
    ensures Inputs(p + q) == Inputs(p) + Inputs(q) && Outputs(p + q) == Outputs(p) + Outputs(q)
  {
    hide Nonzero;
    if p == [] {
      assert p + q == q;
    } else {
      LabelsJoin(p[1..], q);
      assert (p + q)[1..] == p[1..] + q && (p + q)[0] == p[0];
      Regroup(Nonzero(p[0].ilabel), Inputs(p[1..]), Inputs(q));
      Regroup(Nonzero(p[0].olabel), Outputs(p[1..]), Outputs(q));
    }
  }

  lemma Regroup(a: seq<int>, b: seq<int>, c: seq<int>)
    ensures a + (b + c) == a + b + c
  {
  }

  // ---------- Spelling a derivation as a path ----------

  function SpellInner(g: Fst, types: seq<Fst>, e: Element, inner: seq<Arc>): seq<ElementArc>
    requires ValidNetwork(g, types) && ValidElement(g, types, e) && e.arcstate != -1
    requires SubPath(InnerType(g, types, e), e.arcstate, inner)
    decreases |inner|
  {
    [InnerArc(g, types, e, inner[0])] +
    if |inner| == 1 then [] else
      assert SubPath(InnerType(g, types, e), inner[0].nextstate, inner[1..]);
      SpellInner(g, types, Element(e.state, inner[0].nextstate, e.index), inner[1..])
  }

  function SpellPiece(g: Fst, types: seq<Fst>, s: nat, piece: Piece): seq<ElementArc>
    requires ValidNetwork(g, types) && ValidPiece(g, types, s, piece)
  {
    IndexFindsArcIffExpandedFirst(types, g.arcs[s]);
    [SuperArc(g, types, s, piece.k)] +
    if piece.Plain? then [] else SpellInner(g, types, Element(s, 0, piece.k), piece.inner)
  }

  function Spell(g: Fst, types: seq<Fst>, s: nat, d: seq<Piece>): seq<ElementArc>
    requires ValidNetwork(g, types) && Derivation(g, types, s, d)
    decreases |d|
  {
    if d == [] then [] else
      SpellPiece(g, types, s, d[0]) + Spell(g, types, g.arcs[s][d[0].k].nextstate, d[1..])
  }

  lemma {:induction false} SpellInnerIsPath(g: Fst, types: seq<Fst>, e: Element, inner: seq<Arc>)
    requires ValidNetwork(g, types) && ValidElement(g, types, e) && e.arcstate != -1
    requires SubPath(InnerType(g, types, e), e.arcstate, inner)
    ensures var p := SpellInner(g, types, e, inner);
            && ElementPath(g, types, e, p) && PathEnd(e, p) == Super(g.arcs[e.state][e.index].nextstate)
            && Weight(p) == SubWeight(inner) && Inputs(p) == SubInputs(inner) && Outputs(p) == []
    decreases |inner|
  {
    var first := InnerArc(g, types, e, inner[0]);
    var j :| 0 <= j < |InnerType(g, types, e).arcs[e.arcstate]|
        && InnerType(g, types, e).arcs[e.arcstate][j] == inner[0];
    assert ElementArcs(g, types, e)[j] == first;
    if |inner| == 1 {
      assert inner[1..] == [];
      assert [first][1..] == [];
    } else {
      var next := Element(e.state, inner[0].nextstate, e.index);
      SpellInnerIsPath(g, types, next, inner[1..]);
      var rest := SpellInner(g, types, next, inner[1..]);
      assert ([first] + rest)[1..] == rest;
    }
  }

  lemma SpellPieceIsPath(g: Fst, types: seq<Fst>, s: nat, piece: Piece)
    requires ValidNetwork(g, types) && ValidPiece(g, types, s, piece)
    ensures var (p, a) := (SpellPiece(g, types, s, piece), g.arcs[s][piece.k]);
            && ElementPath(g, types, Super(s), p) && PathEnd(Super(s), p) == Super(a.nextstate)
            && Weight(p) == a.weight + SubWeight(Inner(piece))
            && Inputs(p) == SubInputs(Inner(piece)) && Outputs(p) == Nonzero(a.olabel)
  {
    IndexFindsArcIffExpandedFirst(types, g.arcs[s]);
    var first := SuperArc(g, types, s, piece.k);
    assert ElementArcs(g, types, Super(s))[piece.k] == first;
    match piece {
      case Plain(k) =>
        assert [first][1..] == [];
      case Substituted(k, inner) =>
        var e := Element(s, 0, k);
        SpellInnerIsPath(g, types, e, inner);
        var rest := SpellInner(g, types, e, inner);
        assert ([first] + rest)[1..] == rest;
    }
  }

  /** Every derivation is a path of the expanded machine with the same ends, weight and labels. */
  lemma {:induction false} DerivationIsPath(g: Fst, types: seq<Fst>, s: nat, d: seq<Piece>)
    requires ValidNetwork(g, types) && Derivation(g, types, s, d)
    ensures var p := Spell(g, types, s, d);
            && ElementPath(g, types, Super(s), p)
            && PathEnd(Super(s), p) == Super(DerivationEnd(g, types, s, d))
            && Weight(p) == DerivationWeight(g, types, s, d)
            && Inputs(p) == DerivationInputs(d)
            && Outputs(p) == DerivationOutputs(g, types, s, d)
    decreases |d|
  {
    hide ValidNetwork, ElementArcs, ElementPath, SpellPiece;
    if d == [] {
      EmptyPath(g, types, Super(s));
    } else {
      var t := g.arcs[s][d[0].k].nextstate;
      DerivationIsPath(g, types, t, d[1..]);
      SpellPieceIsPath(g, types, s, d[0]);
      PathJoin(g, types, Super(s), SpellPiece(g, types, s, d[0]), Spell(g, types, t, d[1..]));
      LabelsJoin(SpellPiece(g, types, s, d[0]), Spell(g, types, t, d[1..]));
    }
  }

  lemma EmptyPath(g: Fst, types: seq<Fst>, e: Element)
    requires ValidNetwork(g, types)
    ensures ElementPath(g, types, e, [])
  {
  }

  // ---------- Reading a path back as a derivation ----------

  /** The first arc of a path out of an inner element. */
  lemma FirstInnerArc(g: Fst, types: seq<Fst>, e: Element, p: seq<ElementArc>) returns (a: Arc)
    requires ValidNetwork(g, types) && ValidElement(g, types, e) && e.arcstate != -1
    requires p != [] && ElementPath(g, types, e, p)
    ensures a in InnerType(g, types, e).arcs[e.arcstate] && p[0] == InnerArc(g, types, e, a)
    ensures ValidElement(g, types, p[0].next) && ElementPath(g, types, p[0].next, p[1..])
    ensures a.nextstate < |InnerType(g, types, e).arcs|
  {
    var j :| 0 <= j < |ElementArcs(g, types, e)| && ElementArcs(g, types, e)[j] == p[0];
    a := InnerType(g, types, e).arcs[e.arcstate][j];
    ElementArcsValid(g, types, e);
  }

  lemma {:induction false} ReadInner(g: Fst, types: seq<Fst>, e: Element, p: seq<ElementArc>, t: nat)
    returns (inner: seq<Arc>, rest: seq<ElementArc>)
    requires ValidNetwork(g, types) && ValidElement(g, types, e) && e.arcstate != -1
    requires ElementPath(g, types, e, p) && PathEnd(e, p) == Super(t)
    ensures SubPath(InnerType(g, types, e), e.arcstate, inner)
    ensures p == SpellInner(g, types, e, inner) + rest
    ensures var a := g.arcs[e.state][e.index];
            ElementPath(g, types, Super(a.nextstate), rest) && PathEnd(Super(a.nextstate), rest) == Super(t)
    decreases |p|
  {
    hide ElementPath, ElementArcs;
    var a := FirstInnerArc(g, types, e, p);
    assert p == [p[0]] + p[1..];
    if a.nextstate == |InnerType(g, types, e).arcs| - 1 {
      inner, rest := [a], p[1..];
    } else {
      var next := Element(e.state, a.nextstate, e.index);
      var inner', rest' := ReadInner(g, types, next, p[1..], t);
      inner, rest := [a] + inner', rest';
      assert inner[1..] == inner';
      assert [p[0]] + (SpellInner(g, types, next, inner') + rest) == [p[0]] + SpellInner(g, types, next, inner') + rest;
    }
  }

  /** The first arc of a path out of a source state. */
  lemma FirstSuperArc(g: Fst, types: seq<Fst>, s: nat, p: seq<ElementArc>) returns (k: nat)
    requires ValidNetwork(g, types) && p != [] && ElementPath(g, types, Super(s), p)
    ensures s < |g.arcs| && k < |g.arcs[s]| && p[0] == SuperArc(g, types, s, k)
    ensures ElementPath(g, types, p[0].next, p[1..])
    ensures IsEpsilonType(types, g.arcs[s][k].ilabel) ==> p[0].next == Super(g.arcs[s][k].nextstate)
    ensures !IsEpsilonType(types, g.arcs[s][k].ilabel) ==>
              p[0].next == Element(s, 0, k) && ValidElement(g, types, Element(s, 0, k))
  {
    k :| 0 <= k < |ElementArcs(g, types, Super(s))| && ElementArcs(g, types, Super(s))[k] == p[0];
    IndexFindsArcIffExpandedFirst(types, g.arcs[s]);
  }

  /** Which arcs are expanded, by the states of their sub-machines. */
  lemma ExpandedByStates(g: Fst, types: seq<Fst>, s: nat, k: nat)
    requires ValidNetwork(g, types) && s < |g.arcs| && k < |g.arcs[s]|
    ensures var typeLabel := g.arcs[s][k].ilabel;
            && 0 <= typeLabel < |types|
            && if IsEpsilonType(types, typeLabel) then |types[typeLabel].arcs| == 2 else |types[typeLabel].arcs| > 2
  {
  }

  lemma ReadPiece(g: Fst, types: seq<Fst>, s: nat, p: seq<ElementArc>, t: nat)
    returns (piece: Piece, rest: seq<ElementArc>)
    requires ValidNetwork(g, types) && p != []
    requires ElementPath(g, types, Super(s), p) && PathEnd(Super(s), p) == Super(t)
    ensures ValidPiece(g, types, s, piece) && p == SpellPiece(g, types, s, piece) + rest
    ensures var a := g.arcs[s][piece.k];
            ElementPath(g, types, Super(a.nextstate), rest) && PathEnd(Super(a.nextstate), rest) == Super(t)
  {
    hide ElementPath, ElementArcs, ValidNetwork;
    var k := FirstSuperArc(g, types, s, p);
    ExpandedByStates(g, types, s, k);
    assert p == [p[0]] + p[1..];
    if IsEpsilonType(types, g.arcs[s][k].ilabel) {
      piece, rest := Plain(k), p[1..];
    } else {
      var inner;
      inner, rest := ReadInner(g, types, Element(s, 0, k), p[1..], t);
      piece := Substituted(k, inner);
      var spelled := SpellInner(g, types, Element(s, 0, k), inner);
      assert [p[0]] + (spelled + rest) == [p[0]] + spelled + rest;
    }
  }

  /** Every path of the expanded machine between source states spells a derivation. */
  lemma {:induction false} PathIsDerivation(g: Fst, types: seq<Fst>, s: nat, p: seq<ElementArc>, t: nat)
      returns (d: seq<Piece>)
    requires ValidNetwork(g, types)
    requires ElementPath(g, types, Super(s), p) && PathEnd(Super(s), p) == Super(t)
    ensures Derivation(g, types, s, d) && Spell(g, types, s, d) == p && DerivationEnd(g, types, s, d) == t
    decreases |p|
  {
    hide ElementPath, ElementArcs, ValidNetwork;
    if p == [] {
      d := [];
    } else {
      var piece, rest := ReadPiece(g, types, s, p, t);
      SpellPieceNonempty(g, types, s, piece);
      var d' := PathIsDerivation(g, types, g.arcs[s][piece.k].nextstate, rest, t);
      d := [piece] + d';
      assert d[1..] == d';
    }
  }

  lemma SpellPieceNonempty(g: Fst, types: seq<Fst>, s: nat, piece: Piece)
    requires ValidNetwork(g, types) && ValidPiece(g, types, s, piece)
    ensures SpellPiece(g, types, s, piece) != []
  {
  }

  // ---------- The two machines accept the same ----------

  ghost predicate DerivationAccepts(g: Fst, types: seq<Fst>, d: seq<Piece>, inputs: seq<int>,
                                    outputs: seq<int>, cost: int)
    requires ValidNetwork(g, types)
  {
    && Derivation(g, types, g.start, d)
    && var t := DerivationEnd(g, types, g.start, d);
       t < |g.final| && g.final[t].Some?
       && inputs == DerivationInputs(d) && outputs == DerivationOutputs(g, types, g.start, d)
       && cost == DerivationWeight(g, types, g.start, d) + g.final[t].value
  }

  /** Only source states are final. */
  function FinalOf(g: Fst, e: Element): Option<int> {
    if e.arcstate == -1 && e.state < |g.final| then g.final[e.state] else None
  }

  ghost predicate PathAccepts(g: Fst, types: seq<Fst>, p: seq<ElementArc>, inputs: seq<int>,
                              outputs: seq<int>, cost: int)
    requires ValidNetwork(g, types)
  {
    && ElementPath(g, types, Super(g.start), p)
    && var e := PathEnd(Super(g.start), p);
       FinalOf(g, e).Some? && inputs == Inputs(p) && outputs == Outputs(p) && cost == Weight(p) + FinalOf(g, e).value
  }

  /** The source machine, with substitution, accepts these labels at this cost. */
  ghost predicate SourceAccepts(g: Fst, types: seq<Fst>, inputs: seq<int>, outputs: seq<int>, cost: int)
    requires ValidNetwork(g, types)
  {
    exists d :: DerivationAccepts(g, types, d, inputs, outputs, cost)
  }

  /** The expanded machine accepts these labels at this cost. */
  ghost predicate ExpandedAccepts(g: Fst, types: seq<Fst>, inputs: seq<int>, outputs: seq<int>, cost: int)
    requires ValidNetwork(g, types)
  {
    exists p :: PathAccepts(g, types, p, inputs, outputs, cost)
  }

  lemma {:induction false} EndsValid(g: Fst, types: seq<Fst>, e: Element, p: seq<ElementArc>)
    requires ValidNetwork(g, types) && ValidElement(g, types, e) && ElementPath(g, types, e, p)
    ensures ValidElement(g, types, PathEnd(e, p))
    decreases |p|
  {
    if p != [] {
      ElementArcsValid(g, types, e);
      EndsValid(g, types, p[0].next, p[1..]);
    }
  }

  lemma PathToDerivation(g: Fst, types: seq<Fst>, p: seq<ElementArc>, inputs: seq<int>, outputs: seq<int>, cost: int)
    returns (d: seq<Piece>)
    requires ValidNetwork(g, types) && PathAccepts(g, types, p, inputs, outputs, cost)
    ensures DerivationAccepts(g, types, d, inputs, outputs, cost) && Spell(g, types, g.start, d) == p
  {
    hide ElementPath, ElementArcs, Spell, Derivation;
    EndsValid(g, types, Super(g.start), p);
    d := PathIsDerivation(g, types, g.start, p, PathEnd(Super(g.start), p).state);
    DerivationIsPath(g, types, g.start, d);
  }

  lemma DerivationToPath(g: Fst, types: seq<Fst>, d: seq<Piece>, inputs: seq<int>, outputs: seq<int>, cost: int)
    requires ValidNetwork(g, types) && DerivationAccepts(g, types, d, inputs, outputs, cost)
    ensures PathAccepts(g, types, Spell(g, types, g.start, d), inputs, outputs, cost)
  {
    hide ElementPath, ElementArcs, Spell, Derivation;
    DerivationIsPath(g, types, g.start, d);
  }

  /** Labels and costs accepted are the same before and after expansion. */
  lemma ExpansionPreservesMeaning(g: Fst, types: seq<Fst>, inputs: seq<int>, outputs: seq<int>, cost: int)
    requires ValidNetwork(g, types)
    ensures ExpandedAccepts(g, types, inputs, outputs, cost) <==> SourceAccepts(g, types, inputs, outputs, cost)
  {
    hide PathAccepts, DerivationAccepts;
    if p :| PathAccepts(g, types, p, inputs, outputs, cost) {
      var d := PathToDerivation(g, types, p, inputs, outputs, cost);
    }
    if d :| DerivationAccepts(g, types, d, inputs, outputs, cost) {
      var p := DerivationSpelled(g, types, d, inputs, outputs, cost);
    }
  }

  lemma DerivationSpelled(g: Fst, types: seq<Fst>, d: seq<Piece>, inputs: seq<int>, outputs: seq<int>, cost: int)
    returns (p: seq<ElementArc>)
    requires ValidNetwork(g, types) && DerivationAccepts(g, types, d, inputs, outputs, cost)
    ensures PathAccepts(g, types, p, inputs, outputs, cost)
  {
    hide PathAccepts;
    DerivationToPath(g, types, d, inputs, outputs, cost);
    p := Spell(g, types, g.start, d);
  }

  // ---------- Every arc is spoken ----------

  /** Arcs `ks` of the source machine, one behind the other. */
  predicate SourcePath(g: Fst, s: nat, ks: seq<nat>)
    decreases |ks|
  {
    ks == [] || (s < |g.arcs| && ks[0] < |g.arcs[s]| && SourcePath(g, g.arcs[s][ks[0]].nextstate, ks[1..]))
  }

  function SourceArcs(g: Fst, s: nat, ks: seq<nat>): seq<Arc>
    requires SourcePath(g, s, ks)
    decreases |ks|
  {
    if ks == [] then [] else [g.arcs[s][ks[0]]] + SourceArcs(g, g.arcs[s][ks[0]].nextstate, ks[1..])
  }

  /** `word` holds the input labels of a path from the first to the last state of the machine. */
  ghost predicate Pronounces(t: Fst, word: seq<int>) {
    exists inner :: SubPath(t, 0, inner) && SubInputs(inner) == word
  }

  /** The words of the arcs: none for a sub-machine of two states, one path's labels for a larger one. */
  ghost predicate Spoken(types: seq<Fst>, arcs: seq<Arc>, words: seq<seq<int>>) {
    && |words| == |arcs|
    && forall i :: 0 <= i < |arcs| ==>
         && 0 <= arcs[i].ilabel < |types|
         && (|types[arcs[i].ilabel].arcs| == 2 ==> words[i] == [])
         && (|types[arcs[i].ilabel].arcs| > 2 ==> Pronounces(types[arcs[i].ilabel], words[i]))
  }

  function Join(words: seq<seq<int>>): seq<int> {
    if words == [] then [] else words[0] + Join(words[1..])
  }

  lemma {:induction false} DerivationIsSpoken(g: Fst, types: seq<Fst>, s: nat, d: seq<Piece>)
    returns (ks: seq<nat>, words: seq<seq<int>>)
    requires ValidNetwork(g, types) && Derivation(g, types, s, d)
    ensures SourcePath(g, s, ks) && Spoken(types, SourceArcs(g, s, ks), words)
    ensures Join(words) == DerivationInputs(d)
    decreases |d|
  {
    hide ValidNetwork, SubPath;
    if d == [] {
      ks, words := [], [];
    } else {
      var k := d[0].k;
      var rest, words' := DerivationIsSpoken(g, types, g.arcs[s][k].nextstate, d[1..]);
      PieceIsSpoken(g, types, s, d[0]);
      ks, words := [k] + rest, [SubInputs(Inner(d[0]))] + words';
      assert ks[1..] == rest && words[1..] == words';
    }
  }

  lemma PieceIsSpoken(g: Fst, types: seq<Fst>, s: nat, piece: Piece)
    requires ValidNetwork(g, types) && ValidPiece(g, types, s, piece)
    ensures var typeLabel := g.arcs[s][piece.k].ilabel;
            && 0 <= typeLabel < |types|
            && (|types[typeLabel].arcs| == 2 ==> SubInputs(Inner(piece)) == [])
            && (|types[typeLabel].arcs| > 2 ==> Pronounces(types[typeLabel], SubInputs(Inner(piece))))
  {
    hide SubPath;
    ExpandedByStates(g, types, s, piece.k);
  }

  /** What the expanded machine accepts are the labels of a path of the source machine, arc for arc: of an
      arc whose sub-machine has more than two states, the labels of one path through all of it. */
  lemma AcceptedIsSpoken(g: Fst, types: seq<Fst>, inputs: seq<int>, outputs: seq<int>, cost: int)
    returns (ks: seq<nat>, words: seq<seq<int>>)
    requires ValidNetwork(g, types) && ExpandedAccepts(g, types, inputs, outputs, cost)
    ensures SourcePath(g, g.start, ks) && Spoken(types, SourceArcs(g, g.start, ks), words) && Join(words) == inputs
  {
    hide ElementPath, Spoken, ValidNetwork;
    var p :| PathAccepts(g, types, p, inputs, outputs, cost);
    var d := PathToDerivation(g, types, p, inputs, outputs, cost);
    ks, words := DerivationIsSpoken(g, types, g.start, d);
  }
}
