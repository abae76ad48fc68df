/** The decoder's options and the cutoff they set for a frame's tokens. */
module BeamCutoff {
  import opened ViterbiPaths
  import opened OrderStatistics

  const INT32_MAX: int := 0x7fff_ffff

  datatype Options = Options(beam: Bound, maxActive: nat, minActive: nat, beamDelta: int) {
    /** What the constructor asserts, and a beam that is not negative. */
    predicate Valid() {
      maxActive > 1 && minActive < maxActive && (beam.Inf? || beam.value >= 0) && beamDelta >= 0
    }

    predicate Unlimited() {
      maxActive == INT32_MAX && minActive == 0
    }
  }

  predicate Tighter(a: Bound, b: Bound) {
    a.Fin? && Below(a.value, b)
  }

  function Weights(list: seq<nat>, toks: Tokens): seq<int>
    requires forall q :: q in list ==> q in toks
  {
    seq(|list|, i requires 0 <= i < |list| => toks[list[i]].weight)
  }

  ghost predicate IsLeast(best: Bound, ws: seq<int>) {
    && (best.Inf? <==> ws == [])
    && (best.Fin? ==> best.value in ws)
    && forall i :: 0 <= i < |ws| ==> !Below(ws[i], best)
  }

  lemma LeastExtends(best: Bound, ws: seq<int>, w: int)
    requires IsLeast(best, ws)
    ensures IsLeast(if Below(w, best) then Fin(w) else best, ws + [w])
  {
    assert (ws + [w])[|ws|] == w;
    if best.Fin? && !Below(w, best) {
      var i :| 0 <= i < |ws| && ws[i] == best.value;
      assert (ws + [w])[i] == best.value;
    }
  }

  /** The best weight plus the beam. */
  function BeamBound(best: Bound, config: Options): Bound {
    if best.Inf? then Inf else Plus(best.value, config.beam)
  }

  /** The limits hold: at most `maxActive` weights survive `cutoff`, more than `minActive` lie
      within it unless there are no more, and `cutoff` leaves the beam only to meet a limit. */
  ghost predicate CutoffMeetsLimits(ws: seq<int>, best: Bound, cutoff: Bound, config: Options) {
    var beamCutoff := BeamBound(best, config);
    && CountBelow(ws, cutoff) <= config.maxActive
    && (if |ws| > config.minActive then CountWithin(ws, cutoff) > config.minActive else cutoff == Inf)
    && (cutoff == beamCutoff
        || (Tighter(cutoff, beamCutoff) && CountWithin(ws, cutoff) > config.maxActive)
        || (Tighter(beamCutoff, cutoff) && CountBelow(ws, cutoff) <= config.minActive))
  }

  /** The beam for the next frame: the one set, or how far a limit moved the cutoff from the best
      weight, and a little more. */
  function AdaptiveBeam(best: Bound, cutoff: Bound, config: Options): Bound {
    if cutoff == BeamBound(best, config) then config.beam
    else if best.Inf? || cutoff.Inf? then Inf
    else Fin(cutoff.value - best.value + config.beamDelta)
  }

  /** The cutoff and the beam that the options set for these weights. */
  ghost predicate CutoffIs(ws: seq<int>, best: Bound, cutoff: Bound, adaptive: Bound, config: Options) {
    && IsLeast(best, ws) && adaptive == AdaptiveBeam(best, cutoff, config)
    && if config.Unlimited() then cutoff == BeamBound(best, config) else CutoffMeetsLimits(ws, best, cutoff, config)
  }

  /** They set only one: the limits leave no room. */
  lemma CutoffIsUnique(ws: seq<int>, best: Bound, cutoff: Bound, adaptive: Bound,
                       best': Bound, cutoff': Bound, adaptive': Bound, config: Options)
    requires CutoffIs(ws, best, cutoff, adaptive, config) && CutoffIs(ws, best', cutoff', adaptive', config)
    ensures best == best' && cutoff == cutoff' && adaptive == adaptive'
  {
    if !config.Unlimited() && cutoff != cutoff' {
      if Tighter(cutoff, cutoff') {
        CutoffsApart(ws, best, cutoff, cutoff', config);
      } else {
        CutoffsApart(ws, best, cutoff', cutoff, config);
      }
    }
  }

  lemma CutoffsApart(ws: seq<int>, best: Bound, cutoff: Bound, cutoff': Bound, config: Options)
    requires CutoffMeetsLimits(ws, best, cutoff, config) && CutoffMeetsLimits(ws, best, cutoff', config)
    ensures !Tighter(cutoff, cutoff')
  {
    if Tighter(cutoff, cutoff') {
      CountAll(ws);
      if cutoff'.Fin? {
        CountStrict(ws, cutoff.value, cutoff'.value);
      } else {
        CountMonotone(ws, cutoff, Inf);
      }
    }
  }

  /** The beam cutoff, clipped by the two order statistics as GetCutoff clips it. */
  ghost function Clip(beamCutoff: Bound, maxCutoff: Bound, minCutoff: Bound): Bound {
    if Tighter(maxCutoff, beamCutoff) then maxCutoff
    else if Tighter(beamCutoff, minCutoff) then minCutoff
    else beamCutoff
  }

  lemma ClippedMeetsLimits(ws: seq<int>, best: Bound, maxCutoff: Bound, minCutoff: Bound, config: Options)
    requires config.Valid() && IsLeast(best, ws)
    requires maxCutoff == if |ws| > config.maxActive then Fin(Nth(ws, config.maxActive)) else Inf
    requires minCutoff == if |ws| <= config.minActive then Inf
                          else if config.minActive == 0 then best else Fin(Nth(ws, config.minActive))
    ensures CutoffMeetsLimits(ws, best, Clip(BeamBound(best, config), maxCutoff, minCutoff), config)
    ensures minCutoff.Fin? ==> best.Fin? && best.value <= minCutoff.value
    ensures maxCutoff.Fin? ==> best.Fin? && best.value <= maxCutoff.value
  {
    var beamCutoff := BeamBound(best, config);
    CountAll(ws);
    CountMonotone(ws, beamCutoff, Inf);
    if |ws| > config.maxActive {
      NthCounts(ws, config.maxActive);
      if !Tighter(maxCutoff, beamCutoff) { CountMonotone(ws, beamCutoff, maxCutoff); }
    }
    if |ws| > config.minActive {
      NthCounts(ws, config.minActive);
      if config.minActive == 0 { assert ws[LeastAt(ws)] == best.value; }
      if !Tighter(beamCutoff, minCutoff) { CountMonotone(ws, minCutoff, beamCutoff); }
    }
  }

  ghost function Survivors(toks: Tokens, cutoff: Bound): set<nat> {
    set q | q in toks && Below(toks[q].weight, cutoff)
  }

  /** `list` holds the states that have a token, once each. */
  ghost predicate Enumerates(list: seq<nat>, toks: Tokens) {
    && (forall q :: q in list <==> q in toks)
    && forall i, j :: 0 <= i < j < |list| ==> list[i] != list[j]
  }

  /** The cutoff and the beam are those that the options set for the tokens of a frame. */
  ghost predicate FrameCutoff(toks: Tokens, config: Options, cutoff: Bound, adaptive: Bound) {
    exists list, best :: Enumerates(list, toks) && CutoffIs(Weights(list, toks), best, cutoff, adaptive, config)
  }

  ghost function SurvivorsAmong(list: seq<nat>, toks: Tokens, cutoff: Bound): set<nat>
    requires forall q :: q in list ==> q in toks
  {
    set q | q in list && Below(toks[q].weight, cutoff)
  }

  lemma {:induction false} SurvivorCount(list: seq<nat>, toks: Tokens, cutoff: Bound)
    requires forall q :: q in list ==> q in toks
    requires forall i, j :: 0 <= i < j < |list| ==> list[i] != list[j]
    ensures |SurvivorsAmong(list, toks, cutoff)| == CountBelow(Weights(list, toks), cutoff)
  {
    if list == [] {
      assert SurvivorsAmong(list, toks, cutoff) == {};
    } else {
      SurvivorCount(list[1..], toks, cutoff);
      var rest := SurvivorsAmong(list[1..], toks, cutoff);
      assert Weights(list, toks)[1..] == Weights(list[1..], toks);
      assert list == [list[0]] + list[1..] && list[0] !in rest;
      if Below(toks[list[0]].weight, cutoff) {
        assert SurvivorsAmong(list, toks, cutoff) == rest + {list[0]};
      } else {
        assert SurvivorsAmong(list, toks, cutoff) == rest;
      }
    }
  }

  ghost function WithinAmong(list: seq<nat>, toks: Tokens, cutoff: Bound): set<nat>
    requires forall q :: q in list ==> q in toks
  {
    set q | q in list && Within(toks[q].weight, cutoff)
  }

  lemma {:induction false} WithinAmongCount(list: seq<nat>, toks: Tokens, cutoff: Bound)
    requires forall q :: q in list ==> q in toks
    requires forall i, j :: 0 <= i < j < |list| ==> list[i] != list[j]
    ensures |WithinAmong(list, toks, cutoff)| == CountWithin(Weights(list, toks), cutoff)
  {
    if list == [] {
      assert WithinAmong(list, toks, cutoff) == {};
    } else {
      WithinAmongCount(list[1..], toks, cutoff);
      var rest := WithinAmong(list[1..], toks, cutoff);
      assert Weights(list, toks)[1..] == Weights(list[1..], toks);
      assert list == [list[0]] + list[1..] && list[0] !in rest;
      if Within(toks[list[0]].weight, cutoff) {
        assert WithinAmong(list, toks, cutoff) == rest + {list[0]};
      } else {
        assert WithinAmong(list, toks, cutoff) == rest;
      }
    }
  }

  /** The tokens whose weight is at most the cutoff. */
  ghost function TokensWithin(toks: Tokens, cutoff: Bound): set<nat> {
    set q | q in toks && Within(toks[q].weight, cutoff)
  }

  lemma {:induction false} ListLength(list: seq<nat>, toks: Tokens)
    requires Enumerates(list, toks)
    ensures |list| == |toks|
  {
    CountAll(Weights(list, toks));
    SurvivorCount(list, toks, Inf);
    assert SurvivorsAmong(list, toks, Inf) == toks.Keys;
  }

  /** Said of the tokens themselves: the cutoff lies the beam above the best of them, or at most
      `maxActive` tokens survive it and more than `minActive` lie within it, unless there are fewer. */
  lemma FrameCutoffMeans(toks: Tokens, config: Options, cutoff: Bound, adaptive: Bound)
    requires config.Valid() && FrameCutoff(toks, config, cutoff, adaptive)
    ensures config.Unlimited() <==> config.maxActive == 0x7fff_ffff && config.minActive == 0
    ensures adaptive.Inf? || adaptive.value >= 0
    ensures config.Unlimited() ==> adaptive == config.beam
    ensures config.Unlimited() && config.beam.Inf? ==> cutoff == Inf
    ensures config.Unlimited() && cutoff.Fin? ==>
              exists q :: q in toks && cutoff == Plus(toks[q].weight, config.beam)
    ensures config.Unlimited() ==> forall q :: q in toks ==> !Tighter(Plus(toks[q].weight, config.beam), cutoff)
    ensures config.maxActive != 0x7fff_ffff || config.minActive != 0 ==> |Survivors(toks, cutoff)| <= config.maxActive
    ensures config.maxActive != 0x7fff_ffff || config.minActive != 0 ==>
              if |toks| > config.minActive then |TokensWithin(toks, cutoff)| > config.minActive else cutoff == Inf
  {
    var list, best :| Enumerates(list, toks) && CutoffIs(Weights(list, toks), best, cutoff, adaptive, config);
    var ws := Weights(list, toks);
    AdaptiveNotNegative(ws, best, cutoff, adaptive, config);
    if config.Unlimited() {
      if best.Fin? {
        var i :| 0 <= i < |ws| && ws[i] == best.value;
        assert toks[list[i]].weight == best.value && list[i] in toks;
      }
      forall q | q in toks ensures !Tighter(Plus(toks[q].weight, config.beam), cutoff) {
        var i :| 0 <= i < |list| && list[i] == q;
        assert ws[i] == toks[q].weight;
      }
    } else {
      SurvivorCount(list, toks, cutoff);
      WithinAmongCount(list, toks, cutoff);
      ListLength(list, toks);
      assert Survivors(toks, cutoff) == SurvivorsAmong(list, toks, cutoff);
      assert TokensWithin(toks, cutoff) == WithinAmong(list, toks, cutoff);
    }
  }

  ghost predicate IsBest(toks: Tokens, q: nat) {
    q in toks && forall r :: r in toks ==> toks[q].weight <= toks[r].weight
  }

  lemma BestExists(toks: Tokens, list: seq<nat>, best: Bound) returns (q: nat)
    requires Enumerates(list, toks) && IsLeast(best, Weights(list, toks)) && toks != map[]
    ensures IsBest(toks, q) && best == Fin(toks[q].weight)
  {
    var ws := Weights(list, toks);
    var r :| r in toks;
    assert r in list;
    var i :| 0 <= i < |ws| && ws[i] == best.value;
    q := list[i];
    forall r | r in toks ensures toks[q].weight <= toks[r].weight {
      var j :| 0 <= j < |list| && list[j] == r;
      assert ws[j] == toks[r].weight;
    }
  }

  /** The adaptive beam, said of the tokens: the beam itself where the cutoff lies that beam above the best
      token, or else how far the cutoff lies above the best token, and `beamDelta` more. */
  lemma AdaptiveMeans(toks: Tokens, config: Options, cutoff: Bound, adaptive: Bound) returns (q: nat)
    requires config.Valid() && FrameCutoff(toks, config, cutoff, adaptive) && toks != map[]
    ensures IsBest(toks, q)
    ensures cutoff == Plus(toks[q].weight, config.beam) ==> adaptive == config.beam
    ensures cutoff != Plus(toks[q].weight, config.beam) && cutoff.Inf? ==> adaptive == Inf
    ensures cutoff != Plus(toks[q].weight, config.beam) && cutoff.Fin? ==>
              adaptive == Fin(cutoff.value - toks[q].weight + config.beamDelta)
  {
    var list, best :| Enumerates(list, toks) && CutoffIs(Weights(list, toks), best, cutoff, adaptive, config);
    q := BestExists(toks, list, best);
  }

  /** Under limits the cutoff lies the beam above the best token, unless more tokens than allowed lie within a
      tighter one, or no more than have to be kept survive a looser one. */
  lemma BeamUnlessLimits(toks: Tokens, config: Options, cutoff: Bound, adaptive: Bound, q: nat)
    requires config.Valid() && FrameCutoff(toks, config, cutoff, adaptive) && IsBest(toks, q)
    ensures Tighter(cutoff, Plus(toks[q].weight, config.beam)) ==> |TokensWithin(toks, cutoff)| > config.maxActive
    ensures Tighter(Plus(toks[q].weight, config.beam), cutoff) ==> |Survivors(toks, cutoff)| <= config.minActive
  {
    var list, best :| Enumerates(list, toks) && CutoffIs(Weights(list, toks), best, cutoff, adaptive, config);
    var q' := BestExists(toks, list, best);
    SurvivorCount(list, toks, cutoff);
    WithinAmongCount(list, toks, cutoff);
    assert Survivors(toks, cutoff) == SurvivorsAmong(list, toks, cutoff);
    assert TokensWithin(toks, cutoff) == WithinAmong(list, toks, cutoff);
  }

  /** The tokens that cost as much as that of `q`. */
  ghost function Tied(toks: Tokens, q: nat): set<nat>
    requires q in toks
  {
    set r | r in toks && toks[r].weight == toks[q].weight
  }

  /** With a positive beam no token at all survives exactly when the limit cuts among more tokens than it
      allows that all are best. */
  lemma NoneSurvivesIffTied(toks: Tokens, config: Options, cutoff: Bound, adaptive: Bound, q: nat)
    requires config.Valid() && FrameCutoff(toks, config, cutoff, adaptive) && IsBest(toks, q)
    requires config.beam.Inf? || config.beam.value > 0
    ensures Survivors(toks, cutoff) == {} <==>
              (config.maxActive != 0x7fff_ffff || config.minActive != 0) && |Tied(toks, q)| > config.maxActive
  {
    var list, best :| Enumerates(list, toks) && CutoffIs(Weights(list, toks), best, cutoff, adaptive, config);
    var q' := BestExists(toks, list, best);
    FrameCutoffMeans(toks, config, cutoff, adaptive);
    if Below(toks[q].weight, cutoff) {
      assert q in Survivors(toks, cutoff);
      assert Tied(toks, q) <= Survivors(toks, cutoff);
      if !config.Unlimited() { SubsetSize(Tied(toks, q), Survivors(toks, cutoff)); }
    } else {
      WithinAmongCount(list, toks, cutoff);
      assert Tied(toks, q) == WithinAmong(list, toks, cutoff);
    }
  }

  lemma SubsetSize(a: set<nat>, b: set<nat>)
    requires a <= b
    ensures |a| <= |b|
  {
    assert b == a + (b - a);
  }

  /** With a positive beam and `beamDelta` the adaptive beam is positive. */
  lemma AdaptiveIsPositive(toks: Tokens, config: Options, cutoff: Bound, adaptive: Bound)
    requires config.Valid() && FrameCutoff(toks, config, cutoff, adaptive)
    requires config.beamDelta > 0 && (config.beam.Inf? || config.beam.value > 0)
    ensures adaptive.Inf? || adaptive.value > 0
  {
    var list, best :| Enumerates(list, toks) && CutoffIs(Weights(list, toks), best, cutoff, adaptive, config);
    var ws := Weights(list, toks);
    if !config.Unlimited() && cutoff != BeamBound(best, config) && best.Fin? && cutoff.Fin?
        && cutoff.value < best.value {
      NoneWithin(ws, best.value, cutoff);
    }
  }

  lemma AdaptiveNotNegative(ws: seq<int>, best: Bound, cutoff: Bound, adaptive: Bound, config: Options)
    requires config.Valid() && CutoffIs(ws, best, cutoff, adaptive, config)
    ensures adaptive.Inf? || adaptive.value >= 0
  {
    if !config.Unlimited() && cutoff != BeamBound(best, config) && best.Fin? && cutoff.Fin?
        && cutoff.value < best.value {
      NoneWithin(ws, best.value, cutoff);
    }
  }

  lemma {:induction false} NoneWithin(ws: seq<int>, least: int, b: Bound)
    requires (forall i :: 0 <= i < |ws| ==> least <= ws[i]) && b.Fin? && b.value < least
    ensures CountWithin(ws, b) == 0
  {
    if ws != [] { NoneWithin(ws[1..], least, b); }
  }
}
