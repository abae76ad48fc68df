/** The Viterbi beam decoder as it runs (src/bin/faster-decoder-mod.cc). The token list is
    visited in an arbitrary order, which covers every order the hash list can produce. */
module FasterDecoder {
  import opened Wfst
  import opened ViterbiPaths
  import opened OrderStatistics
  import opened BeamCutoff
  import opened Emission
  import opened EpsilonClosure
  import opened Viterbi
  import opened Wrappers

  class FasterDecoderMod {
    const fst: Fst
    const config: Options
    var toks: Tokens
    var queue: seq<nat>

    constructor (fst: Fst, config: Options)
      requires fst.Valid() && config.Valid()
      ensures this.fst == fst && this.config == config && queue == []
    {
      this.fst := fst;
      this.config := config;
      toks := map[];
      queue := [];
    }

    /** The keys of a token list, in some order. */
    static method ListOf(toks: Tokens) returns (keys: seq<nat>)
      ensures forall q :: q in keys <==> q in toks
      ensures forall i :: 0 <= i < |keys| ==> keys[i] in toks
      ensures forall i, j :: 0 <= i < j < |keys| ==> keys[i] != keys[j]
    {
      keys := [];
      var rest := toks.Keys;
      while rest != {}
        invariant rest <= toks.Keys
        invariant forall q :: q in toks <==> q in keys || q in rest
        invariant forall q :: q in keys ==> q !in rest
        invariant forall i, j :: 0 <= i < j < |keys| ==> keys[i] != keys[j]
        decreases rest
      {
        var q :| q in rest;
        keys, rest := keys + [q], rest - {q};
      }
    }

    /** The cutoff for this frame's tokens and the beam for the next frame's. */
    method GetCutoff(list: seq<nat>, last: Tokens) returns (cutoff: Bound, adaptive: Bound, best: Bound)
      requires config.Valid()
      requires forall q :: q in list ==> q in last
      ensures CutoffIs(Weights(list, last), best, cutoff, adaptive, config)
    {
      hide CutoffMeetsLimits;
      best := Inf;
      var tmp := [];
      for i := 0 to |list|
        invariant |tmp| == i && forall j :: 0 <= j < i ==> tmp[j] == last[list[j]].weight
        invariant IsLeast(best, tmp)
      {
        var w := last[list[i]].weight;
        LeastExtends(best, tmp, w);
        tmp := tmp + [w];
        if Below(w, best) { best := Fin(w); }
      }
      assert tmp == Weights(list, last);
      var beamCutoff := BeamBound(best, config);
      if config.Unlimited() {
        return beamCutoff, config.beam, best;
      }
      var maxCutoff := if |tmp| > config.maxActive then Fin(Nth(tmp, config.maxActive)) else Inf;
      var minCutoff :=
        if |tmp| <= config.minActive then Inf
        else if config.minActive == 0 then best
        else Fin(Nth(tmp, config.minActive));
      ClippedMeetsLimits(tmp, best, maxCutoff, minCutoff, config);
      if Tighter(maxCutoff, beamCutoff) {
        cutoff := maxCutoff;
        adaptive := Fin(maxCutoff.value - best.value + config.beamDelta);
      } else if Tighter(beamCutoff, minCutoff) {
        cutoff := minCutoff;
        adaptive := if minCutoff.Inf? then Inf else Fin(minCutoff.value - best.value + config.beamDelta);
      } else {
        cutoff := beamCutoff;
        adaptive := config.beam;
      }
    }

    /** One token is extended over the emitting arcs of its state. */
    method PropagateToken(ac: Acoustic, frame: nat, ghost last: Tokens, q: nat, tok: Token, adaptive: Bound,
                          next0: Bound)
      returns (next: Bound)
      requires fst.Valid() && q < |fst.arcs| && (adaptive.Inf? || adaptive.value >= 0)
      requires TokensOk(fst, ac, last, frame) && q in last && last[q] == tok
      requires TokensOk(fst, ac, toks, frame + 1)
      modifies this`toks
      ensures Propagated(fst, ac, frame, tok, q, |fst.arcs[q]|, adaptive, old(toks), next0, toks, next)
    {
      hide Propagated, TokenOk;
      next := next0;
      PropagatedStarts(fst, ac, frame, tok, q, adaptive, toks, next);
      for i := 0 to |fst.arcs[q]|
        invariant Propagated(fst, ac, frame, tok, q, i, adaptive, old(toks), next0, toks, next)
      {
        var arc := fst.arcs[q][i];
        ghost var was, nextWas := toks, next;
        if arc.ilabel != 0 {
          var newWeight := arc.weight + tok.weight + ac(frame, arc.ilabel);
          if Below(newWeight, next) {
            var newTok := Token(arc, newWeight, Some(tok));
            if Tighter(Plus(newWeight, adaptive), next) { next := Plus(newWeight, adaptive); }
            toks := Install(toks, newTok);
          }
        }
        PropagatedStep(fst, ac, frame, last, q, i, adaptive, old(toks), next0, was, nextWas, toks, next);
      }
    }

    /** The order in which the tokens are listed does not matter. */
    lemma CutoffOfList(list: seq<nat>, last: Tokens)
      requires (forall q :: q in list <==> q in last) && forall i, j :: 0 <= i < j < |list| ==> list[i] != list[j]
      ensures forall best, cutoff, adaptive :: CutoffIs(Weights(list, last), best, cutoff, adaptive, config) ==>
                FrameCutoff(last, config, cutoff, adaptive)
    {
      assert Enumerates(list, last);
    }

    /** All tokens of a frame move over the emitting arcs; the result is the cutoff that was used. */
    method ProcessEmitting(ac: Acoustic, frame: nat)
      returns (next: Bound, ghost cutoff: Bound, ghost adaptive: Bound, ghost pilot: Option<nat>)
      requires fst.Valid() && config.Valid() && TokensOk(fst, ac, toks, frame)
      modifies this`toks
      ensures TokensOk(fst, ac, toks, frame + 1)
      ensures FrameCutoff(old(toks), config, cutoff, adaptive)
      ensures IsPilot(fst, old(toks), pilot)
      ensures Emitted(Offers(fst, ac, frame, old(toks), cutoff), next, toks) && FromSurvivors(toks, old(toks), cutoff)
      ensures LeastOffer(Offers(fst, ac, frame, old(toks), cutoff) + PilotOffers(fst, ac, frame, old(toks), pilot),
                         adaptive, Inf, next)
      ensures AllBelow(toks, PilotOffers(fst, ac, frame, old(toks), pilot), adaptive)
    {
      hide FrameCutoff, Enumerates, CutoffIs, Emitted, AllBelow, FromSurvivors, Offers, TokenOk;
      var last := toks;
      var list := ListOf(last);
      CutoffOfList(list, last);
      toks := map[];
      var weightCutoff, beam, best := GetCutoff(list, last);
      cutoff, adaptive := weightCutoff, beam;
      FrameCutoffMeans(last, config, cutoff, adaptive);

      var chosen := FindPilot(list, last, ac, frame);
      pilot := chosen;
      next := Inf;
      if chosen.Some? {
        next := PilotCutoff(ac, frame, last, chosen.value, beam);
      }

      next := PropagateAll(ac, frame, last, list, weightCutoff, beam, next, PilotOffers(fst, ac, frame, last, pilot));
    }

    /** Every surviving token is extended; the cutoff tightens along the way. */
    method PropagateAll(ac: Acoustic, frame: nat, last: Tokens, list: seq<nat>, weightCutoff: Bound,
                        adaptive: Bound, next0: Bound, ghost pilot: set<Offer>)
      returns (next: Bound)
      requires fst.Valid() && TokensOk(fst, ac, last, frame) && toks == map[]
      requires (forall q :: q in list <==> q in last) && (forall i :: 0 <= i < |list| ==> list[i] in last)
      requires adaptive.Inf? || adaptive.value >= 0
      requires LeastOffer(pilot, adaptive, Inf, next0)
      modifies this`toks
      ensures TokensOk(fst, ac, toks, frame + 1)
      ensures Emitted(Offers(fst, ac, frame, last, weightCutoff), next, toks) && FromSurvivors(toks, last, weightCutoff)
      ensures LeastOffer(Offers(fst, ac, frame, last, weightCutoff) + pilot, adaptive, Inf, next)
      ensures AllBelow(toks, pilot, adaptive)
    {
      next := next0;
      ghost var offers: set<Offer> := {};
      assert OffersOf(fst, ac, frame, last, weightCutoff, list[..0], offers) && Emitted(offers, next, toks);
      assert offers + pilot == pilot;
      hide OffersOf, Emitted, LeastOffer, TokenOk;
      for i := 0 to |list|
        invariant TokensOk(fst, ac, toks, frame + 1)
        invariant OffersOf(fst, ac, frame, last, weightCutoff, list[..i], offers)
        invariant Emitted(offers, next, toks) && FromSurvivors(toks, last, weightCutoff)
        invariant LeastOffer(offers + pilot, adaptive, Inf, next) && AllBelow(toks, pilot, adaptive)
      {
        var q := list[i];
        var tok := last[q];
        assert q == tok.arc.nextstate;
        ghost var was, nextWas, offersWas := toks, next, offers;
        if Below(tok.weight, weightCutoff) {
          next := PropagateToken(ac, frame, last, q, tok, adaptive, next);
          ghost var more := Scan(fst, ac, frame, tok, q, |fst.arcs[q]|);
          offers := offers + more;
          MergeOffers(offersWas, more, pilot, adaptive, nextWas, next, was, toks);
          SurvivorsStep(toks, was, last, weightCutoff, q);
          AllBelowStep(toks, was, offersWas, pilot, adaptive, nextWas);
        }
        OffersOfStep(fst, ac, frame, last, weightCutoff, list, i, offersWas);
      }
      assert list[..|list|] == list;
      OffersOfAll(fst, ac, frame, last, weightCutoff, list, offers);
    }

    /** The best token that has an emitting arc, if any. */
    method FindPilot(list: seq<nat>, last: Tokens, ghost ac: Acoustic, ghost frame: nat) returns (pilot: Option<nat>)
      requires fst.Valid() && TokensOk(fst, ac, last, frame)
      requires forall q :: q in list <==> q in last
      ensures IsPilot(fst, last, pilot)
    {
      pilot := None;
      for i := 0 to |list|
        invariant pilot.Some? ==> pilot.value in last && Emitting(fst, pilot.value)
        invariant forall j :: 0 <= j < i && Emitting(fst, list[j]) ==>
                    pilot.Some? && last[pilot.value].weight <= last[list[j]].weight
      {
        if Emitting(fst, list[i]) && (pilot.None? || last[list[i]].weight < last[pilot.value].weight) {
          pilot := Some(list[i]);
        }
      }
    }

    /** A first bound on the next cutoff, from the best token alone. */
    method PilotCutoff(ac: Acoustic, frame: nat, last: Tokens, q: nat, adaptive: Bound) returns (next: Bound)
      requires q in last && q < |fst.arcs| && (adaptive.Inf? || adaptive.value >= 0)
      ensures LeastOffer(Scan(fst, ac, frame, last[q], q, |fst.arcs[q]|), adaptive, Inf, next)
    {
      next := Inf;
      for i := 0 to |fst.arcs[q]|
        invariant LeastOffer(Scan(fst, ac, frame, last[q], q, i), adaptive, Inf, next)
      {
        var arc := fst.arcs[q][i];
        ScanStep(fst, ac, frame, last[q], q, i);
        if arc.ilabel != 0 {
          var newWeight := arc.weight + last[q].weight + ac(frame, arc.ilabel);
          LeastOfferStep(Scan(fst, ac, frame, last[q], q, i), Offer(arc.nextstate, newWeight), adaptive, Inf, next);
          if Tighter(Plus(newWeight, adaptive), next) { next := Plus(newWeight, adaptive); }
        }
      }
    }

    /** One state popped from the queue is extended over its epsilon arcs. */
    method ExpandEpsilons(ghost ac: Acoustic, ghost frame: nat, ghost pot: seq<int>, ghost floor: int,
                          cutoff: Bound, q: nat, tok: Token)
      requires fst.Valid() && Potential(fst, pot)
      requires AboveFloor(fst, pot, floor, toks) && q in toks && tok == toks[q] && q < |fst.arcs|
      requires Expanding(fst, ac, frame, pot, floor, cutoff, toks, queue, q, 0, toks, queue)
      modifies this`toks, this`queue
      ensures Expanding(fst, ac, frame, pot, floor, cutoff, old(toks), old(queue), q, |fst.arcs[q]|, toks, queue)
    {
      hide Expanding;
      for i := 0 to |fst.arcs[q]|
        invariant Expanding(fst, ac, frame, pot, floor, cutoff, old(toks), old(queue), q, i, toks, queue)
      {
        var arc := fst.arcs[q][i];
        ghost var toksWas, queueWas := toks, queue;
        if arc.ilabel == 0 {
          var newTok := Token(arc, tok.weight + arc.weight, Some(tok));
          if Within(newTok.weight, cutoff) {
            if Enters(toks, newTok) {
              toks := toks[arc.nextstate := newTok];
              queue := queue + [arc.nextstate];
            }
          }
        }
        ExpandingStep(fst, ac, frame, pot, floor, cutoff, old(toks), old(queue), q, i, toksWas, queueWas, toks, queue);
      }
    }

    /** The epsilon pass: a stack of states whose successors may be improved. */
    method ProcessNonemitting(ghost ac: Acoustic, ghost frame: nat, cutoff: Bound)
      requires fst.Valid() && NoNegativeEpsCycle(fst) && queue == []
      requires TokensOk(fst, ac, toks, frame)
      modifies this`toks, this`queue
      ensures queue == [] && TokensOk(fst, ac, toks, frame)
      ensures Improves(toks, old(toks)) && OnlyWithin(toks, old(toks), cutoff)
      ensures ClosedExcept(fst, toks, cutoff, [])
    {
      hide Expanding;
      ghost var pot := PotentialExists(fst);
      ghost var floor := FloorExists(fst, pot, toks, |fst.arcs|);
      queue := ListOf(toks);
      while queue != []
        invariant Closing(fst, ac, frame, pot, floor, cutoff, old(toks), toks, queue)
        decreases Missing(toks, |pot|), Slack(fst, pot, floor, toks, |pot|), |queue|
      {
        var q := queue[|queue| - 1];
        assert queue == queue[..|queue| - 1] + [q];
        queue := queue[..|queue| - 1];
        ghost var toksWas, rest := toks, queue;
        ExpandingStarts(fst, ac, frame, pot, floor, cutoff, old(toks), toks, queue, q);
        var tok := toks[q];
        if Within(tok.weight, cutoff) {
          assert q == tok.arc.nextstate;
          ExpandEpsilons(ac, frame, pot, floor, cutoff, q, tok);
          ExpandingEnds(fst, ac, frame, pot, floor, cutoff, old(toks), toksWas, rest, q, toks, queue);
        } else {
          SkippingIsSafe(fst, ac, frame, pot, floor, cutoff, old(toks), toks, queue, q);
        }
      }
    }

    /** Decodes `n` frames and reports the cutoffs it used and the tokens of each frame. */
    method Decode(ac: Acoustic, n: nat) returns (ghost c: Cutoffs, ghost run: seq<Tokens>)
      requires fst.Valid() && config.Valid() && NoNegativeEpsCycle(fst) && queue == []
      modifies this`toks, this`queue
      ensures queue == [] && TokensOk(fst, ac, toks, n)
      ensures |run| == n + 1 && run[n] == toks && Decoded(fst, ac, config, run, c) && NothingLost(fst, ac, n, toks, c)
      ensures config.Unlimited() ==> BeamSafe(fst, ac, n, toks, config.beam)
      ensures config.Unlimited() && config.beam.Inf? ==> CheapestPaths(fst, ac, n, toks)
    {
      hide Decoded, FrameCuts, FrameStep;
      StartPass(ac);
      c, run := Cutoffs([], []), [toks];
      DecodedStart(fst, ac, config, toks);
      for frame := 0 to n
        invariant queue == [] && TokensOk(fst, ac, toks, frame)
        invariant |run| == frame + 1 && run[frame] == toks && Decoded(fst, ac, config, run, c)
      {
        ghost var last := toks;
        ghost var survive, adaptive, pilot;
        var cutoff;
        cutoff, survive, adaptive, pilot := ProcessEmitting(ac, frame);
        CutsOf(fst, ac, config, frame, last, survive, adaptive, pilot, cutoff);
        ghost var mid := toks;
        ProcessNonemitting(ac, frame + 1, cutoff);
        StepOf(fst, ac, config, frame, last, mid, toks, survive, cutoff, adaptive, pilot);
        DecodedStep(fst, ac, config, run, c, toks, survive, cutoff);
        c, run := c.Then(survive, cutoff), run + [toks];
      }
      DecodedLosesNothing(fst, ac, config, run, c);
      if config.Unlimited() {
        BeamLosesNothing(fst, ac, config, run, c, toks);
        if config.beam.Inf? {
          OpenBeamIsExact(fst, ac, n, toks);
        }
      }
    }

    /** The start token and its epsilon closure. */
    method StartPass(ghost ac: Acoustic)
      requires fst.Valid() && NoNegativeEpsCycle(fst) && queue == []
      modifies this`toks, this`queue
      ensures queue == [] && FirstPass(fst, ac, toks)
    {
      var dummy := Arc(0, 0, 0, fst.start);
      toks := map[fst.start := Token(dummy, 0, None)];
      ghost var start := toks;
      ProcessNonemitting(ac, 0, Inf);
      assert fst.start in start;
    }

    /** Whether any token sits in a final state. */
    method ReachedFinal() returns (reached: bool)
      requires forall q :: q in toks ==> q < |fst.final|
      ensures reached <==> exists q :: q in toks && fst.final[q].Some?
    {
      var list := ListOf(toks);
      for i := 0 to |list|
        invariant forall j :: 0 <= j < i ==> fst.final[list[j]].None?
      {
        if fst.final[list[i]].Some? { return true; }
      }
      return false;
    }

    method FindBest(isFinal: bool) returns (best: Option<nat>)
      requires forall q :: q in toks ==> q < |fst.final|
      requires isFinal <==> exists q :: q in toks && fst.final[q].Some?
      ensures best.None? <==> toks == map[]
      ensures best.Some? ==> BestToken(fst, toks, isFinal, best.value)
    {
      var list := ListOf(toks);
      best := None;
      for i := 0 to |list|
        invariant best.Some? ==> best.value in toks && (isFinal ==> fst.final[best.value].Some?)
        invariant forall j :: 0 <= j < i && (isFinal ==> fst.final[list[j]].Some?) ==>
                    best.Some? && Score(isFinal, best.value) <= Score(isFinal, list[j])
      {
        var q := list[i];
        if isFinal {
          if fst.final[q].Some? && (best.None? || Score(true, q) < Score(true, best.value)) { best := Some(q); }
        } else if best.None? || toks[q].weight < toks[best.value].weight {
          best := Some(q);
        }
      }
    }

    function Score(isFinal: bool, q: nat): int
      requires q in toks && q < |fst.final| && (isFinal ==> fst.final[q].Some?)
      reads this`toks
    {
      toks[q].weight + if isFinal then fst.final[q].value else 0
    }

    /** The best path with its graph and acoustic costs, read back along the prev chain. */
    method GetBestPath(ghost ac: Acoustic, ghost n: nat)
      returns (arcs: seq<LatticeArc>, finalCost: int, found: bool, ghost best: nat, ghost isFinal: bool)
      requires fst.Valid() && TokensOk(fst, ac, toks, n)
      ensures found <==> toks != map[]
      ensures found ==> BestToken(fst, toks, isFinal, best) && Spells(ac, arcs, TokenPath(toks[best]))
      ensures found ==> finalCost == if isFinal then fst.final[best].value else 0
      ensures found ==> TotalCost(arcs) == toks[best].weight
    {
      var reached := ReachedFinal();
      var choice := FindBest(reached);
      isFinal, best := reached, 0;
      if choice.None? { return [], 0, false, 0, reached; }
      best := choice.value;
      var tok := toks[choice.value];
      var reversed := Backtrace(tok, ac);
      arcs := Reversed(reversed);
      finalCost := if reached then fst.final[tok.arc.nextstate].value else 0;
      found := true;
      TokenIsPath(fst, ac, tok);
      SpellingTelescopes(ac, arcs, TokenPath(tok));
    }

    /** Newest arc first; the dummy arc of the first token is left off. */
    method Backtrace(best: Token, ghost ac: Acoustic) returns (reversed: seq<LatticeArc>)
      requires TokenOk(fst, ac, best)
      ensures Spells(ac, Reversed(reversed), TokenPath(best))
    {
      reversed := [];
      var tok := best;
      assert TokenPath(best) == TokenPath(tok) + [];
      while tok.prev.Some?
        invariant TokenOk(fst, ac, tok) && Unwound(ac, reversed, TokenPath(tok), TokenPath(best))
        decreases tok
      {
        var total := tok.weight - tok.prev.value.weight;
        var graph := tok.arc.weight;
        UnwoundStep(fst, ac, reversed, tok, TokenPath(best));
        reversed := reversed + [LatticeArc(tok.arc.ilabel, tok.arc.olabel, graph, total - graph)];
        tok := tok.prev.value;
      }
      assert tok.arc.nextstate == fst.start;
    }
  }

  /** `reversed` spells what of `p` lies beyond `left`, backwards. */
  ghost predicate Unwound(ac: Acoustic, reversed: seq<LatticeArc>, left: seq<Arc>, p: seq<Arc>) {
    && left <= p && |left| + |reversed| == |p|
    && forall i :: 0 <= i < |reversed| ==> reversed[i] == Spelled(ac, p, |p| - 1 - i)
  }

  lemma UnwoundStep(g: Fst, ac: Acoustic, reversed: seq<LatticeArc>, tok: Token, p: seq<Arc>)
    requires TokenOk(g, ac, tok) && tok.prev.Some? && Unwound(ac, reversed, TokenPath(tok), p)
    ensures var total := tok.weight - tok.prev.value.weight;
            Unwound(ac, reversed + [LatticeArc(tok.arc.ilabel, tok.arc.olabel, tok.arc.weight, total - tok.arc.weight)],
                    TokenPath(tok.prev.value), p)
  {
    hide IsPath, PathCost;
    var init := TokenPath(tok.prev.value);
    TokenIsPath(g, ac, tok.prev.value);
    assert TokenPath(tok) == init + [tok.arc];
    assert p[..|init|] == init && p[|init|] == tok.arc;
    assert Spelled(ac, p, |init|).acoustic == tok.weight - tok.prev.value.weight - tok.arc.weight;
  }

  ghost function Spelled(ac: Acoustic, p: seq<Arc>, i: nat): LatticeArc
    requires i < |p|
  {
    LatticeArc(p[i].ilabel, p[i].olabel, p[i].weight, ArcAcoustic(ac, Frames(p[..i]), p[i]))
  }

  function Reversed<T>(s: seq<T>): seq<T> {
    seq(|s|, i requires 0 <= i < |s| => s[|s| - 1 - i])
  }
}
