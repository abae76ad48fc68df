/** The emitting step on values: how tokens enter the list and what the arcs of a frame offer. */
module Emission {
  import opened Wfst
  import opened ViterbiPaths
  import opened BeamCutoff
  import opened Wrappers

  /** A token enters the list when its state has none, or one that costs more. */
  predicate Enters(toks: Tokens, t: Token) {
    t.arc.nextstate !in toks || t.weight < toks[t.arc.nextstate].weight
  }

  function Install(toks: Tokens, t: Token): Tokens {
    if Enters(toks, t) then toks[t.arc.nextstate := t] else toks
  }

  lemma InstallOk(g: Fst, ac: Acoustic, toks: Tokens, frame: nat, t: Token)
    requires TokensOk(g, ac, toks, frame)
    requires TokenOk(g, ac, t) && TokenFrames(t) == frame && t.arc.nextstate < |g.arcs|
    ensures TokensOk(g, ac, Install(toks, t), frame)
    ensures Improves(Install(toks, t), toks)
    ensures Covered(Install(toks, t), t.arc.nextstate, t.weight)
  {
  }

  lemma ImprovesTrans(c: Tokens, b: Tokens, a: Tokens)
    requires Improves(c, b) && Improves(b, a)
    ensures Improves(c, a)
  {
  }

  /** The token that extends the token of `q` over its `i`-th arc. */
  function Extend(g: Fst, ac: Acoustic, frame: nat, tok: Token, a: Arc): Token {
    Token(a, tok.weight + a.weight + ArcAcoustic(ac, frame, a), Some(tok))
  }

  lemma ExtendOk(g: Fst, ac: Acoustic, last: Tokens, frame: nat, q: nat, i: nat)
    requires g.Valid() && TokensOk(g, ac, last, frame)
    requires q in last && q < |g.arcs| && i < |g.arcs[q]|
    ensures var t := Extend(g, ac, frame, last[q], g.arcs[q][i]);
            && TokenOk(g, ac, t) && t.arc.nextstate < |g.arcs|
            && TokenFrames(t) == frame + if g.arcs[q][i].ilabel != 0 then 1 else 0
  {
  }

  // ---------- Offers: what the emitting arcs propose to their targets ----------

  datatype Offer = Offer(target: nat, weight: int)

  /** What the first `n` arcs of `q` propose when `tok` is extended over them in this frame. */
  function Scan(g: Fst, ac: Acoustic, frame: nat, tok: Token, q: nat, n: nat): set<Offer>
    requires q < |g.arcs| && n <= |g.arcs[q]|
  {
    set i | 0 <= i < n && g.arcs[q][i].ilabel != 0 ::
      Offer(g.arcs[q][i].nextstate, g.arcs[q][i].weight + tok.weight + ac(frame, g.arcs[q][i].ilabel))
  }

  lemma ScanStep(g: Fst, ac: Acoustic, frame: nat, tok: Token, q: nat, n: nat)
    requires q < |g.arcs| && n < |g.arcs[q]|
    ensures var a := g.arcs[q][n];
            Scan(g, ac, frame, tok, q, n + 1) == Scan(g, ac, frame, tok, q, n)
              + if a.ilabel != 0 then {Offer(a.nextstate, a.weight + tok.weight + ac(frame, a.ilabel))} else {}
  {
  }

  /** Every offer below `next` has left a token at its target that is at least as good. */
  ghost predicate Emitted(offers: set<Offer>, next: Bound, toks: Tokens) {
    forall o :: o in offers && Below(o.weight, next) ==> Covered(toks, o.target, o.weight)
  }

  /** `next` is the least of `next0` and of the offers plus the beam. */
  ghost predicate LeastOffer(offers: set<Offer>, adaptive: Bound, next0: Bound, next: Bound) {
    && (next == next0 || exists o :: o in offers && next == Plus(o.weight, adaptive))
    && !Tighter(next0, next)
    && forall o :: o in offers ==> !Tighter(Plus(o.weight, adaptive), next)
  }

  function Tighten(next: Bound, w: int, adaptive: Bound): Bound {
    if Tighter(Plus(w, adaptive), next) then Plus(w, adaptive) else next
  }

  lemma LeastOfferStep(offers: set<Offer>, o: Offer, adaptive: Bound, next0: Bound, next: Bound)
    requires LeastOffer(offers, adaptive, next0, next)
    requires adaptive.Inf? || adaptive.value >= 0
    ensures LeastOffer(offers + {o}, adaptive, next0, Tighten(next, o.weight, adaptive))
    ensures !Below(o.weight, next) ==> Tighten(next, o.weight, adaptive) == next
  {
  }

  lemma NotLooser(offers: set<Offer>, adaptive: Bound, next0: Bound, next: Bound, w: int)
    requires LeastOffer(offers, adaptive, next0, next)
    ensures Below(w, next) ==> Below(w, next0)
  {
  }

  lemma EmittedStep(offers: set<Offer>, o: Offer, adaptive: Bound, next: Bound, toks: Tokens, toks': Tokens)
    requires Emitted(offers, next, toks) && Improves(toks', toks)
    requires Below(o.weight, next) ==> Covered(toks', o.target, o.weight)
    ensures Emitted(offers + {o}, Tighten(next, o.weight, adaptive), toks')
  {
  }

  /** Whatever is new in the list extends this token. */
  ghost predicate NewExtends(toks: Tokens, was: Tokens, tok: Token) {
    forall q :: q in toks && (q !in was || toks[q] != was[q]) ==> toks[q].prev == Some(tok)
  }

  /** Whatever is new in the list costs less than `bound`. */
  ghost predicate NewBelow(toks: Tokens, was: Tokens, bound: Bound) {
    forall q :: q in toks && (q !in was || toks[q] != was[q]) ==> Below(toks[q].weight, bound)
  }

  /** Every token costs less than each of the offers and the beam. */
  ghost predicate AllBelow(toks: Tokens, offers: set<Offer>, adaptive: Bound) {
    forall q, o :: q in toks && o in offers ==> Below(toks[q].weight, Plus(o.weight, adaptive))
  }

  lemma AllBelowStep(toks: Tokens, was: Tokens, offers: set<Offer>, pilot: set<Offer>, adaptive: Bound, next: Bound)
    requires AllBelow(was, pilot, adaptive) && NewBelow(toks, was, next)
    requires LeastOffer(offers + pilot, adaptive, Inf, next)
    ensures AllBelow(toks, pilot, adaptive)
  {
    forall q, o | q in toks && o in pilot ensures Below(toks[q].weight, Plus(o.weight, adaptive)) {
      assert o in offers + pilot;
    }
  }

  /** Every token extends one that survived the cutoff. */
  ghost predicate FromSurvivors(toks: Tokens, last: Tokens, cutoff: Bound) {
    forall q :: q in toks ==>
      toks[q].prev.Some? && exists r :: r in last && last[r] == toks[q].prev.value && Below(last[r].weight, cutoff)
  }

  lemma SurvivorsStep(toks: Tokens, was: Tokens, last: Tokens, cutoff: Bound, r: nat)
    requires FromSurvivors(was, last, cutoff) && r in last && Below(last[r].weight, cutoff)
    requires NewExtends(toks, was, last[r])
    ensures FromSurvivors(toks, last, cutoff)
  {
  }

  /** Where the scan of the first `n` arcs of `q` stands. */
  ghost predicate Propagated(g: Fst, ac: Acoustic, frame: nat, tok: Token, q: nat, n: nat, adaptive: Bound,
                             toks0: Tokens, next0: Bound, toks: Tokens, next: Bound)
    requires q < |g.arcs| && n <= |g.arcs[q]|
  {
    && TokensOk(g, ac, toks, frame + 1)
    && Improves(toks, toks0) && NewExtends(toks, toks0, tok) && NewBelow(toks, toks0, next0)
    && Emitted(Scan(g, ac, frame, tok, q, n), next, toks)
    && LeastOffer(Scan(g, ac, frame, tok, q, n), adaptive, next0, next)
  }

  lemma PropagatedStarts(g: Fst, ac: Acoustic, frame: nat, tok: Token, q: nat, adaptive: Bound, toks: Tokens,
                         next: Bound)
    requires q < |g.arcs| && TokensOk(g, ac, toks, frame + 1)
    ensures Propagated(g, ac, frame, tok, q, 0, adaptive, toks, next, toks, next)
  {
  }

  lemma PropagatedStep(g: Fst, ac: Acoustic, frame: nat, last: Tokens, q: nat, i: nat, adaptive: Bound,
                       toks0: Tokens, next0: Bound, toks: Tokens, next: Bound, toks': Tokens, next': Bound)
    requires g.Valid() && q < |g.arcs| && i < |g.arcs[q]| && (adaptive.Inf? || adaptive.value >= 0)
    requires TokensOk(g, ac, last, frame) && q in last
    requires Propagated(g, ac, frame, last[q], q, i, adaptive, toks0, next0, toks, next)
    requires var a := g.arcs[q][i];
             var w := a.weight + last[q].weight + ac(frame, a.ilabel);
             if a.ilabel != 0 && Below(w, next)
             then toks' == Install(toks, Token(a, w, Some(last[q]))) && next' == Tighten(next, w, adaptive)
             else toks' == toks && next' == next
    ensures Propagated(g, ac, frame, last[q], q, i + 1, adaptive, toks0, next0, toks', next')
  {
    hide TokensOk, Emitted, LeastOffer;
    var a := g.arcs[q][i];
    ScanStep(g, ac, frame, last[q], q, i);
    if a.ilabel != 0 {
      var offers := Scan(g, ac, frame, last[q], q, i);
      var o := Offer(a.nextstate, a.weight + last[q].weight + ac(frame, a.ilabel));
      if Below(o.weight, next) {
        ExtendOk(g, ac, last, frame, q, i);
        InstallOk(g, ac, toks, frame + 1, Extend(g, ac, frame, last[q], a));
      }
      LeastOfferStep(offers, o, adaptive, next0, next);
      EmittedStep(offers, o, adaptive, next, toks, toks');
      NotLooser(offers, adaptive, next0, next, o.weight);
    } else {
      assert Scan(g, ac, frame, last[q], q, i + 1) == Scan(g, ac, frame, last[q], q, i);
    }
  }

  predicate Emitting(g: Fst, q: nat) {
    q < |g.arcs| && exists i :: 0 <= i < |g.arcs[q]| && g.arcs[q][i].ilabel != 0
  }

  ghost predicate IsPilot(g: Fst, toks: Tokens, pilot: Option<nat>) {
    && (pilot.Some? ==> pilot.value in toks && Emitting(g, pilot.value))
    && forall q :: q in toks && Emitting(g, q) ==> pilot.Some? && toks[pilot.value].weight <= toks[q].weight
  }

  ghost function PilotOffers(g: Fst, ac: Acoustic, frame: nat, toks: Tokens, pilot: Option<nat>): set<Offer>
    requires pilot.Some? ==> pilot.value in toks && pilot.value < |g.arcs|
  {
    if pilot.None? then {} else Scan(g, ac, frame, toks[pilot.value], pilot.value, |g.arcs[pilot.value]|)
  }

  /** The offers of every token that survives `cutoff`. */
  ghost function Offers(g: Fst, ac: Acoustic, frame: nat, toks: Tokens, cutoff: Bound): set<Offer>
    requires forall q :: q in toks ==> q < |g.arcs|
  {
    set q, o | q in toks && Below(toks[q].weight, cutoff) && o in Scan(g, ac, frame, toks[q], q, |g.arcs[q]|) :: o
  }

  ghost predicate OffersOf(g: Fst, ac: Acoustic, frame: nat, toks: Tokens, cutoff: Bound, list: seq<nat>,
                           offers: set<Offer>)
    requires forall q :: q in toks ==> q < |g.arcs|
    requires forall q :: q in list ==> q in toks
  {
    forall o :: o in offers <==>
      exists q :: q in list && Below(toks[q].weight, cutoff) && o in Scan(g, ac, frame, toks[q], q, |g.arcs[q]|)
  }

  lemma OffersOfStep(g: Fst, ac: Acoustic, frame: nat, toks: Tokens, cutoff: Bound, list: seq<nat>, i: nat,
                     offers: set<Offer>)
    requires forall q :: q in toks ==> q < |g.arcs|
    requires forall q :: q in list ==> q in toks
    requires i < |list| && OffersOf(g, ac, frame, toks, cutoff, list[..i], offers)
    ensures var q := list[i];
            OffersOf(g, ac, frame, toks, cutoff, list[..i + 1],
                     offers + if Below(toks[q].weight, cutoff) then Scan(g, ac, frame, toks[q], q, |g.arcs[q]|) else {})
  {
    assert list[..i + 1] == list[..i] + [list[i]];
  }

  lemma OffersOfAll(g: Fst, ac: Acoustic, frame: nat, toks: Tokens, cutoff: Bound, list: seq<nat>, offers: set<Offer>)
    requires forall q :: q in toks ==> q < |g.arcs|
    requires forall q :: q in list <==> q in toks
    requires OffersOf(g, ac, frame, toks, cutoff, list, offers)
    ensures offers == Offers(g, ac, frame, toks, cutoff)
  {
  }

  lemma MergeOffers(offers: set<Offer>, more: set<Offer>, pilot: set<Offer>, adaptive: Bound,
                    next: Bound, next': Bound, toks: Tokens, toks': Tokens)
    requires Emitted(offers, next, toks) && LeastOffer(offers + pilot, adaptive, Inf, next)
    requires Emitted(more, next', toks') && LeastOffer(more, adaptive, next, next') && Improves(toks', toks)
    ensures Emitted(offers + more, next', toks')
    ensures LeastOffer(offers + more + pilot, adaptive, Inf, next')
  {
  }
}
