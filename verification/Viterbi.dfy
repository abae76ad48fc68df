/** What a whole decode guarantees: frame by frame, no path that stays within the cutoffs is
    lost, and with the cutoffs open the tokens are exactly the cheapest paths. */
module Viterbi {
  import opened Wfst
  import opened ViterbiPaths
  import opened BeamCutoff
  import opened Emission
  import opened EpsilonClosure
  import opened Wrappers

  /** The cutoffs a decode used: which tokens of frame `f` were expanded, and the bound on what
      they led to, which is also the bound of the epsilon pass that follows. */
  datatype Cutoffs = Cutoffs(survive: seq<Bound>, emit: seq<Bound>) {
    predicate Frames(n: nat) {
      |survive| == |emit| == n
    }

    function Pass(f: nat): Bound
      requires f <= |emit|
    {
      if f == 0 then Inf else emit[f - 1]
    }

    function Then(s: Bound, e: Bound): Cutoffs {
      Cutoffs(survive + [s], emit + [e])
    }
  }

  /** Every prefix of `p` stays within the cutoffs in force where it is extended. */
  predicate Kept(ac: Acoustic, p: seq<Arc>, c: Cutoffs) {
    p == [] ||
    var init, f := p[..|p| - 1], Frames(p[..|p| - 1]);
    && Kept(ac, init, c)
    && if p[|p| - 1].ilabel != 0
       then f < |c.survive| && f < |c.emit|
            && Below(PathCost(ac, init), c.survive[f]) && Below(PathCost(ac, p), c.emit[f])
       else f <= |c.emit|
            && Within(PathCost(ac, init), c.Pass(f)) && Within(PathCost(ac, p), c.Pass(f))
  }

  /** No kept path of `n` frames is lost: its end state holds a token at least as cheap. */
  ghost predicate NothingLost(g: Fst, ac: Acoustic, n: nat, toks: Tokens, c: Cutoffs) {
    forall p :: IsPath(g, p) && Frames(p) == n && Kept(ac, p, c) ==>
      Covered(toks, Dest(g, p), PathCost(ac, p))
  }

  /** The tokens are the cheapest paths of `n` frames: one per state that such a path reaches. */
  ghost predicate CheapestPaths(g: Fst, ac: Acoustic, n: nat, toks: Tokens) {
    && (forall p :: IsPath(g, p) && Frames(p) == n ==> Covered(toks, Dest(g, p), PathCost(ac, p)))
    && (forall q :: q in toks ==>
          var p := TokenPath(toks[q]);
          IsPath(g, p) && Frames(p) == n && Dest(g, p) == q && PathCost(ac, p) == toks[q].weight)
  }

  lemma {:induction false} KeptPrefix(ac: Acoustic, p: seq<Arc>, c: Cutoffs, s: Bound, e: Bound)
    requires c.Frames(Frames(p)) && Kept(ac, p, c.Then(s, e))
    ensures Kept(ac, p, c)
    decreases |p|
  {
    KeptUpTo(ac, p, c, s, e, Frames(p));
  }

  lemma {:induction false} KeptUpTo(ac: Acoustic, p: seq<Arc>, c: Cutoffs, s: Bound, e: Bound, n: nat)
    requires c.Frames(n) && Frames(p) <= n && Kept(ac, p, c.Then(s, e))
    ensures Kept(ac, p, c)
    decreases |p|
  {
    if p != [] { KeptUpTo(ac, p[..|p| - 1], c, s, e, n); }
  }

  /** Before any frame: the start token and its epsilon closure. */
  lemma {:induction false} FirstPassPath(g: Fst, ac: Acoustic, toks: Tokens, p: seq<Arc>)
    requires g.Valid() && TokensOk(g, ac, toks, 0)
    requires Covered(toks, g.start, 0) && ClosedExcept(g, toks, Inf, [])
    requires IsPath(g, p) && Frames(p) == 0
    ensures Covered(toks, Dest(g, p), PathCost(ac, p))
    decreases |p|
  {
    if p != [] {
      var init, a := p[..|p| - 1], p[|p| - 1];
      FirstPassPath(g, ac, toks, init);
      FollowEpsilon(g, ac, 0, toks, Inf, Dest(g, init), a, PathCost(ac, init));
    }
  }

  lemma FollowEpsilon(g: Fst, ac: Acoustic, n: nat, toks: Tokens, cutoff: Bound, q: nat, a: Arc, cost: int)
    requires g.Valid() && TokensOk(g, ac, toks, n) && ClosedExcept(g, toks, cutoff, [])
    requires Covered(toks, q, cost) && Leaves(g, q, a) && a.ilabel == 0
    requires Within(cost, cutoff) && Within(cost + a.weight, cutoff)
    ensures Covered(toks, a.nextstate, cost + a.weight)
  {
    var i :| 0 <= i < |g.arcs[q]| && g.arcs[q][i] == a;
    assert ClosedAt(g, toks, q, toks[q].weight, cutoff, |g.arcs[q]|);
  }

  lemma FollowEmission(g: Fst, ac: Acoustic, n: nat, last: Tokens, survive: Bound, emit: Bound, mid: Tokens,
                       q: nat, a: Arc, cost: int)
    requires g.Valid() && TokensOk(g, ac, last, n)
    requires Emitted(Offers(g, ac, n, last, survive), emit, mid)
    requires Covered(last, q, cost) && Leaves(g, q, a) && a.ilabel != 0
    requires Below(cost, survive) && Below(cost + a.weight + ac(n, a.ilabel), emit)
    ensures Covered(mid, a.nextstate, cost + a.weight + ac(n, a.ilabel))
  {
    var i :| 0 <= i < |g.arcs[q]| && g.arcs[q][i] == a;
    var o := Offer(a.nextstate, a.weight + last[q].weight + ac(n, a.ilabel));
    assert o in Scan(g, ac, n, last[q], q, |g.arcs[q]|);
    assert o in Offers(g, ac, n, last, survive);
  }

  /** One frame: an emitting step that expands survivors only, and an epsilon pass within its bound. */
  ghost predicate FrameRan(g: Fst, ac: Acoustic, n: nat, last: Tokens, mid: Tokens, toks: Tokens,
                           survive: Bound, emit: Bound)
    requires forall q :: q in last ==> q < |g.arcs|
  {
    && Emitted(Offers(g, ac, n, last, survive), emit, mid) && FromSurvivors(mid, last, survive)
    && Improves(toks, mid) && OnlyWithin(toks, mid, emit)
    && TokensOk(g, ac, toks, n + 1)
    && ClosedExcept(g, toks, emit, [])
  }

  lemma {:induction false} FramePath(g: Fst, ac: Acoustic, n: nat, last: Tokens, mid: Tokens, toks: Tokens,
                                     c: Cutoffs, survive: Bound, emit: Bound, p: seq<Arc>)
    requires g.Valid() && c.Frames(n) && TokensOk(g, ac, last, n)
    requires NothingLost(g, ac, n, last, c) && FrameRan(g, ac, n, last, mid, toks, survive, emit)
    requires IsPath(g, p) && Frames(p) == n + 1 && Kept(ac, p, c.Then(survive, emit))
    ensures Covered(toks, Dest(g, p), PathCost(ac, p))
    decreases |p|
  {
    var init, a := p[..|p| - 1], p[|p| - 1];
    if a.ilabel == 0 {
      FramePath(g, ac, n, last, mid, toks, c, survive, emit, init);
      FollowEpsilon(g, ac, n + 1, toks, emit, Dest(g, init), a, PathCost(ac, init));
    } else {
      KeptPrefix(ac, init, c, survive, emit);
      FollowEmission(g, ac, n, last, survive, emit, mid, Dest(g, init), a, PathCost(ac, init));
    }
  }

  /** A frame loses nothing that its cutoffs keep. */
  lemma FrameKeepsAll(g: Fst, ac: Acoustic, n: nat, last: Tokens, mid: Tokens, toks: Tokens,
                      c: Cutoffs, survive: Bound, emit: Bound)
    requires g.Valid() && c.Frames(n) && TokensOk(g, ac, last, n)
    requires NothingLost(g, ac, n, last, c) && FrameRan(g, ac, n, last, mid, toks, survive, emit)
    ensures NothingLost(g, ac, n + 1, toks, c.Then(survive, emit))
  {
    forall p | IsPath(g, p) && Frames(p) == n + 1 && Kept(ac, p, c.Then(survive, emit))
      ensures Covered(toks, Dest(g, p), PathCost(ac, p))
    {
      FramePath(g, ac, n, last, mid, toks, c, survive, emit, p);
    }
  }

  // ---------- A whole decode ----------

  /** The cutoffs of a frame are those that the options give: `survive` for its tokens, `emit` from
      the least offer and the adaptive beam. */
  ghost predicate FrameCuts(g: Fst, ac: Acoustic, config: Options, n: nat, toks: Tokens, survive: Bound, emit: Bound) {
    (forall q :: q in toks ==> q < |g.arcs|) &&
    exists adaptive, pilot ::
      && FrameCutoff(toks, config, survive, adaptive) && IsPilot(g, toks, pilot)
      && LeastOffer(Offers(g, ac, n, toks, survive) + PilotOffers(g, ac, n, toks, pilot), adaptive, Inf, emit)
  }

  /** A frame leads from the tokens `last` to the tokens `toks`; what it emits lies within the beam of what
      the best emitting token leads to. */
  ghost predicate FrameStep(g: Fst, ac: Acoustic, config: Options, n: nat, last: Tokens, toks: Tokens,
                            survive: Bound, emit: Bound)
  {
    (forall q :: q in last ==> q < |g.arcs|) &&
    exists mid ::
      FrameRan(g, ac, n, last, mid, toks, survive, emit) && Pruned(g, ac, config, n, last, mid, survive, emit)
  }

  ghost predicate Pruned(g: Fst, ac: Acoustic, config: Options, n: nat, last: Tokens, mid: Tokens,
                         survive: Bound, emit: Bound)
    requires forall q :: q in last ==> q < |g.arcs|
  {
    exists adaptive, pilot ::
      && FrameCutoff(last, config, survive, adaptive) && IsPilot(g, last, pilot)
      && LeastOffer(Offers(g, ac, n, last, survive) + PilotOffers(g, ac, n, last, pilot), adaptive, Inf, emit)
      && AllBelow(mid, PilotOffers(g, ac, n, last, pilot), adaptive)
  }

  ghost predicate FirstPass(g: Fst, ac: Acoustic, toks: Tokens) {
    TokensOk(g, ac, toks, 0) && Covered(toks, g.start, 0) && ClosedExcept(g, toks, Inf, [])
  }

  /** `run` holds the tokens at the start of each frame and at the end, `c` the cutoffs between. */
  ghost predicate Decoded(g: Fst, ac: Acoustic, config: Options, run: seq<Tokens>, c: Cutoffs) {
    && run != [] && c.Frames(|run| - 1) && FirstPass(g, ac, run[0])
    && (forall f :: 0 <= f < |run| ==> TokensOk(g, ac, run[f], f))
    && forall f :: 0 <= f < |run| - 1 ==>
         && FrameCuts(g, ac, config, f, run[f], c.survive[f], c.emit[f])
         && FrameStep(g, ac, config, f, run[f], run[f + 1], c.survive[f], c.emit[f])
  }

  lemma DecodedStep(g: Fst, ac: Acoustic, config: Options, run: seq<Tokens>, c: Cutoffs, toks: Tokens, survive: Bound,
                    emit: Bound)
    requires Decoded(g, ac, config, run, c) && TokensOk(g, ac, toks, |run|)
    requires var n, last := |run| - 1, run[|run| - 1];
             FrameCuts(g, ac, config, n, last, survive, emit) && FrameStep(g, ac, config, n, last, toks, survive, emit)
    ensures Decoded(g, ac, config, run + [toks], c.Then(survive, emit))
  {
    hide FrameCuts, FrameStep, FirstPass, TokensOk;
    var run', c' := run + [toks], c.Then(survive, emit);
    forall f | 0 <= f < |run'| - 1
      ensures FrameCuts(g, ac, config, f, run'[f], c'.survive[f], c'.emit[f])
      ensures FrameStep(g, ac, config, f, run'[f], run'[f + 1], c'.survive[f], c'.emit[f])
    {
      assert run'[f] == run[f];
      if f < |run| - 1 {
        assert run'[f + 1] == run[f + 1];
      }
    }
  }

  lemma DecodedStart(g: Fst, ac: Acoustic, config: Options, toks: Tokens)
    requires FirstPass(g, ac, toks)
    ensures Decoded(g, ac, config, [toks], Cutoffs([], []))
  {
  }

  lemma CutsOf(g: Fst, ac: Acoustic, config: Options, n: nat, toks: Tokens,
               survive: Bound, adaptive: Bound, pilot: Option<nat>, emit: Bound)
    requires (forall q :: q in toks ==> q < |g.arcs|)
    requires FrameCutoff(toks, config, survive, adaptive) && IsPilot(g, toks, pilot)
    requires LeastOffer(Offers(g, ac, n, toks, survive) + PilotOffers(g, ac, n, toks, pilot), adaptive, Inf, emit)
    ensures FrameCuts(g, ac, config, n, toks, survive, emit)
  {
  }

  lemma StepOf(g: Fst, ac: Acoustic, config: Options, n: nat, last: Tokens, mid: Tokens, toks: Tokens,
               survive: Bound, emit: Bound, adaptive: Bound, pilot: Option<nat>)
    requires forall q :: q in last ==> q < |g.arcs|
    requires Emitted(Offers(g, ac, n, last, survive), emit, mid) && FromSurvivors(mid, last, survive)
    requires Improves(toks, mid) && OnlyWithin(toks, mid, emit) && TokensOk(g, ac, toks, n + 1)
             && ClosedExcept(g, toks, emit, [])
    requires FrameCutoff(last, config, survive, adaptive) && IsPilot(g, last, pilot)
    requires LeastOffer(Offers(g, ac, n, last, survive) + PilotOffers(g, ac, n, last, pilot), adaptive, Inf, emit)
    requires AllBelow(mid, PilotOffers(g, ac, n, last, pilot), adaptive)
    ensures FrameStep(g, ac, config, n, last, toks, survive, emit)
  {
    assert Pruned(g, ac, config, n, last, mid, survive, emit);
    assert FrameRan(g, ac, n, last, mid, toks, survive, emit);
  }

  // ---------- No frame without need is left empty ----------

  /** The cheapest of what survivors and the best emitting token lead to lies strictly below the bound. */
  lemma CheapestStaysBelow(g: Fst, ac: Acoustic, config: Options, n: nat, toks: Tokens, survive: Bound,
                           adaptive: Bound, pilot: Option<nat>, emit: Bound, o: Offer)
    requires (forall q :: q in toks ==> q < |g.arcs|) && config.Valid()
    requires config.beamDelta > 0 && (config.beam.Inf? || config.beam.value > 0)
    requires FrameCutoff(toks, config, survive, adaptive) && IsPilot(g, toks, pilot)
    requires var offers := Offers(g, ac, n, toks, survive) + PilotOffers(g, ac, n, toks, pilot);
             && LeastOffer(offers, adaptive, Inf, emit)
             && o in offers && forall o' :: o' in offers ==> o.weight <= o'.weight
    ensures Below(o.weight, emit)
  {
    AdaptiveIsPositive(toks, config, survive, adaptive);
  }

  lemma PilotSurvives(g: Fst, ac: Acoustic, n: nat, toks: Tokens, survive: Bound, pilot: Option<nat>, q: nat)
    requires (forall r :: r in toks ==> r < |g.arcs|) && IsPilot(g, toks, pilot)
    requires q in toks && Emitting(g, q) && Below(toks[q].weight, survive)
    ensures pilot.Some? && PilotOffers(g, ac, n, toks, pilot) <= Offers(g, ac, n, toks, survive)
  {
    assert Below(toks[pilot.value].weight, survive);
  }

  lemma SomeOffer(g: Fst, ac: Acoustic, n: nat, toks: Tokens, survive: Bound, q: nat) returns (o: Offer)
    requires forall r :: r in toks ==> r < |g.arcs|
    requires q in toks && Emitting(g, q) && Below(toks[q].weight, survive)
    ensures o in Offers(g, ac, n, toks, survive)
  {
    var i :| 0 <= i < |g.arcs[q]| && g.arcs[q][i].ilabel != 0;
    o := Offer(g.arcs[q][i].nextstate, g.arcs[q][i].weight + toks[q].weight + ac(n, g.arcs[q][i].ilabel));
    assert o in Scan(g, ac, n, toks[q], q, |g.arcs[q]|);
  }

  /** Among the offers of survivors one stays below the bound, if any of them can emit at all. */
  lemma SomeOfferStays(g: Fst, ac: Acoustic, config: Options, n: nat, toks: Tokens, survive: Bound, emit: Bound,
                       q: nat) returns (o: Offer)
    requires g.Valid() && config.Valid() && TokensOk(g, ac, toks, n)
    requires config.beamDelta > 0 && (config.beam.Inf? || config.beam.value > 0)
    requires FrameCuts(g, ac, config, n, toks, survive, emit)
    requires q in toks && Emitting(g, q) && Below(toks[q].weight, survive)
    ensures o in Offers(g, ac, n, toks, survive) && Below(o.weight, emit)
  {
    hide FrameCutoff, Offers, PilotOffers, TokenOk;
    var adaptive, pilot :| FrameCutoff(toks, config, survive, adaptive) && IsPilot(g, toks, pilot)
      && LeastOffer(Offers(g, ac, n, toks, survive) + PilotOffers(g, ac, n, toks, pilot), adaptive, Inf, emit);
    AdaptiveIsPositive(toks, config, survive, adaptive);
    PilotSurvives(g, ac, n, toks, survive, pilot, q);
    if emit.Fin? {
      o :| o in Offers(g, ac, n, toks, survive) + PilotOffers(g, ac, n, toks, pilot)
           && emit == Plus(o.weight, adaptive);
    } else {
      o := SomeOffer(g, ac, n, toks, survive, q);
    }
  }

  /** With a positive beam and `beamDelta`, a frame in which a token that can emit survives is followed by
      tokens. Whether any survives is the subject of `NoneSurvivesIffTied`. */
  lemma FrameIsNotEmptied(g: Fst, ac: Acoustic, config: Options, run: seq<Tokens>, c: Cutoffs, f: nat, q: nat)
    requires g.Valid() && config.Valid() && Decoded(g, ac, config, run, c) && f + 1 < |run|
    requires config.beamDelta > 0 && (config.beam.Inf? || config.beam.value > 0)
    requires q in run[f] && Emitting(g, q) && Below(run[f][q].weight, c.survive[f])
    ensures run[f + 1] != map[]
  {
    hide FrameCuts, FirstPass, TokensOk, Pruned, ClosedExcept, OnlyWithin, FromSurvivors;
    var o := SomeOfferStays(g, ac, config, f, run[f], c.survive[f], c.emit[f], q);
    var mid :| FrameRan(g, ac, f, run[f], mid, run[f + 1], c.survive[f], c.emit[f]);
    assert Covered(mid, o.target, o.weight);
    assert o.target in run[f + 1];
  }

  // ---------- What the beam prunes ----------

  /** No token costs more than following the `i`-th arc of `r` and the beam. */
  ghost predicate WithinLead(g: Fst, ac: Acoustic, n: nat, last: Tokens, r: nat, i: nat, toks: Tokens, beam: Bound)
    requires r in last && r < |g.arcs| && i < |g.arcs[r]|
  {
    var a := g.arcs[r][i];
    forall q :: q in toks ==> Within(toks[q].weight, Plus(last[r].weight + a.weight + ac(n, a.ilabel), beam))
  }

  lemma StepIsPruned(g: Fst, ac: Acoustic, config: Options, n: nat, last: Tokens, mid: Tokens, toks: Tokens,
                     survive: Bound, emit: Bound, adaptive: Bound, pilot: nat, i: nat)
    requires (forall q :: q in last ==> q < |g.arcs|) && IsPilot(g, last, Some(pilot))
    requires FrameRan(g, ac, n, last, mid, toks, survive, emit) && i < |g.arcs[pilot]| && g.arcs[pilot][i].ilabel != 0
    requires LeastOffer(Offers(g, ac, n, last, survive) + PilotOffers(g, ac, n, last, Some(pilot)), adaptive, Inf, emit)
    requires AllBelow(mid, PilotOffers(g, ac, n, last, Some(pilot)), adaptive)
    ensures WithinLead(g, ac, n, last, pilot, i, toks, adaptive)
  {
    hide Offers, AllBelow, LeastOffer, OnlyWithin, Emitted, FromSurvivors, ClosedExcept;
    var a := g.arcs[pilot][i];
    var o := Offer(a.nextstate, a.weight + last[pilot].weight + ac(n, a.ilabel));
    assert o in PilotOffers(g, ac, n, last, Some(pilot));
    WithinOffer(toks, mid, emit, Offers(g, ac, n, last, survive), PilotOffers(g, ac, n, last, Some(pilot)),
                adaptive, o);
  }

  lemma WithinOffer(toks: Tokens, mid: Tokens, emit: Bound, offers: set<Offer>, pilot: set<Offer>, adaptive: Bound,
                    o: Offer)
    requires OnlyWithin(toks, mid, emit) && AllBelow(mid, pilot, adaptive) && o in pilot
    requires LeastOffer(offers + pilot, adaptive, Inf, emit)
    ensures forall q :: q in toks ==> Within(toks[q].weight, Plus(o.weight, adaptive))
  {
    assert o in offers + pilot;
    forall q | q in toks ensures Within(toks[q].weight, Plus(o.weight, adaptive)) {
      if q in mid && toks[q] == mid[q] {
        assert Below(mid[q].weight, Plus(o.weight, adaptive));
      }
    }
  }

  /** Without limits on active tokens: what a frame leads to costs no more than anything that its best
      emitting token leads to, plus the beam. */
  lemma DecodedIsPruned(g: Fst, ac: Acoustic, config: Options, run: seq<Tokens>, c: Cutoffs, f: nat)
    returns (pilot: Option<nat>)
    requires g.Valid() && config.Valid() && config.Unlimited() && Decoded(g, ac, config, run, c) && f + 1 < |run|
    ensures IsPilot(g, run[f], pilot) && (pilot.Some? ==> pilot.value < |g.arcs|)
    ensures pilot.Some? ==>
              forall i :: 0 <= i < |g.arcs[pilot.value]| && g.arcs[pilot.value][i].ilabel != 0 ==>
                WithinLead(g, ac, f, run[f], pilot.value, i, run[f + 1], config.beam)
  {
    hide FrameCuts, FirstPass, FrameRan, LeastOffer, AllBelow, WithinLead, FrameCutoff;
    var mid :| FrameRan(g, ac, f, run[f], mid, run[f + 1], c.survive[f], c.emit[f])
               && Pruned(g, ac, config, f, run[f], mid, c.survive[f], c.emit[f]);
    var adaptive, pilot' :| FrameCutoff(run[f], config, c.survive[f], adaptive) && IsPilot(g, run[f], pilot')
      && LeastOffer(Offers(g, ac, f, run[f], c.survive[f]) + PilotOffers(g, ac, f, run[f], pilot'),
                    adaptive, Inf, c.emit[f])
      && AllBelow(mid, PilotOffers(g, ac, f, run[f], pilot'), adaptive);
    pilot := pilot';
    FrameCutoffMeans(run[f], config, c.survive[f], adaptive);
    if pilot.Some? {
      forall i | 0 <= i < |g.arcs[pilot.value]| && g.arcs[pilot.value][i].ilabel != 0
        ensures WithinLead(g, ac, f, run[f], pilot.value, i, run[f + 1], config.beam)
      {
        StepIsPruned(g, ac, config, f, run[f], mid, run[f + 1], c.survive[f], c.emit[f], adaptive, pilot.value, i);
      }
    }
  }

  // ---------- Beam safety ----------

  /** Every prefix of `p` costs less than each path of as many frames plus the beam. */
  ghost predicate WithinBeam(g: Fst, ac: Acoustic, p: seq<Arc>, beam: Bound) {
    && (forall q :: IsPath(g, q) && Frames(q) == Frames(p) ==> Below(PathCost(ac, p), Plus(PathCost(ac, q), beam)))
    && (p == [] || WithinBeam(g, ac, p[..|p| - 1], beam))
  }

  /** No path of `n` frames that stays within the beam is lost. */
  ghost predicate BeamSafe(g: Fst, ac: Acoustic, n: nat, toks: Tokens, beam: Bound) {
    forall p :: IsPath(g, p) && Frames(p) == n && WithinBeam(g, ac, p, beam) ==>
             Covered(toks, Dest(g, p), PathCost(ac, p))
  }

  /** The cutoff for surviving tokens lies above every path within the beam. */
  lemma SurvivesBeam(g: Fst, ac: Acoustic, config: Options, n: nat, toks: Tokens, cutoff: Bound, adaptive: Bound,
                     p: seq<Arc>)
    requires config.Valid() && config.Unlimited() && TokensOk(g, ac, toks, n)
             && FrameCutoff(toks, config, cutoff, adaptive)
    requires Frames(p) == n && WithinBeam(g, ac, p, config.beam)
    ensures Below(PathCost(ac, p), cutoff)
  {
    FrameCutoffMeans(toks, config, cutoff, adaptive);
    if cutoff.Fin? {
      var q :| q in toks && cutoff == Plus(toks[q].weight, config.beam);
      TokenIsPath(g, ac, toks[q]);
    }
  }

  /** An offer is the cost of a real path of one frame more. */
  lemma OfferIsPath(g: Fst, ac: Acoustic, n: nat, toks: Tokens, q: nat, o: Offer) returns (p: seq<Arc>)
    requires g.Valid() && TokensOk(g, ac, toks, n) && q in toks && o in Scan(g, ac, n, toks[q], q, |g.arcs[q]|)
    ensures IsPath(g, p) && Frames(p) == n + 1 && PathCost(ac, p) == o.weight
  {
    var i :| 0 <= i < |g.arcs[q]| && g.arcs[q][i].ilabel != 0
             && o == Offer(g.arcs[q][i].nextstate, g.arcs[q][i].weight + toks[q].weight + ac(n, g.arcs[q][i].ilabel));
    ExtendOk(g, ac, toks, n, q, i);
    var t := Extend(g, ac, n, toks[q], g.arcs[q][i]);
    TokenIsPath(g, ac, t);
    p := TokenPath(t);
  }

  /** So does the cutoff for what the frame leads to. */
  lemma EmissionWithinBeam(g: Fst, ac: Acoustic, config: Options, n: nat, toks: Tokens, survive: Bound, emit: Bound,
                           p: seq<Arc>)
    requires g.Valid() && config.Valid() && config.Unlimited() && TokensOk(g, ac, toks, n)
    requires FrameCuts(g, ac, config, n, toks, survive, emit)
    requires Frames(p) == n + 1 && WithinBeam(g, ac, p, config.beam)
    ensures Below(PathCost(ac, p), emit)
  {
    hide FrameCutoff;
    var adaptive, pilot :| FrameCutoff(toks, config, survive, adaptive) && IsPilot(g, toks, pilot)
      && LeastOffer(Offers(g, ac, n, toks, survive) + PilotOffers(g, ac, n, toks, pilot), adaptive, Inf, emit);
    FrameCutoffMeans(toks, config, survive, adaptive);
    if emit.Fin? {
      var o :| o in Offers(g, ac, n, toks, survive) + PilotOffers(g, ac, n, toks, pilot)
          && emit == Plus(o.weight, adaptive);
      var q := OfferedBy(g, ac, n, toks, survive, pilot, o);
      var p' := OfferIsPath(g, ac, n, toks, q, o);
    }
  }

  lemma OfferedBy(g: Fst, ac: Acoustic, n: nat, toks: Tokens, survive: Bound, pilot: Option<nat>, o: Offer)
      returns (q: nat)
    requires (forall q :: q in toks ==> q < |g.arcs|) && IsPilot(g, toks, pilot)
    requires o in Offers(g, ac, n, toks, survive) + PilotOffers(g, ac, n, toks, pilot)
    ensures q in toks && o in Scan(g, ac, n, toks[q], q, |g.arcs[q]|)
  {
    if o in Offers(g, ac, n, toks, survive) {
      q :| q in toks && Below(toks[q].weight, survive) && o in Scan(g, ac, n, toks[q], q, |g.arcs[q]|);
    } else {
      q := pilot.value;
    }
  }

  /** Without limits, the cutoffs of a decode keep every path within the beam. */
  lemma {:induction false} BeamKeeps(g: Fst, ac: Acoustic, config: Options, run: seq<Tokens>, c: Cutoffs, p: seq<Arc>)
    requires g.Valid() && config.Valid() && config.Unlimited() && Decoded(g, ac, config, run, c)
    requires IsPath(g, p) && Frames(p) < |run| && WithinBeam(g, ac, p, config.beam)
    ensures Kept(ac, p, c)
    decreases |p|
  {
    hide FrameCuts, TokensOk, FirstPass;
    if p != [] {
      var init, f := p[..|p| - 1], Frames(p[..|p| - 1]);
      BeamKeeps(g, ac, config, run, c, init);
      if p[|p| - 1].ilabel != 0 {
        CutsKeep(g, ac, config, f, run[f], c.survive[f], c.emit[f], init);
        EmissionWithinBeam(g, ac, config, f, run[f], c.survive[f], c.emit[f], p);
      } else if f > 0 {
        EmissionWithinBeam(g, ac, config, f - 1, run[f - 1], c.survive[f - 1], c.emit[f - 1], init);
        EmissionWithinBeam(g, ac, config, f - 1, run[f - 1], c.survive[f - 1], c.emit[f - 1], p);
      }
    }
  }

  lemma CutsKeep(g: Fst, ac: Acoustic, config: Options, n: nat, toks: Tokens, survive: Bound, emit: Bound, p: seq<Arc>)
    requires config.Valid() && config.Unlimited() && TokensOk(g, ac, toks, n)
    requires FrameCuts(g, ac, config, n, toks, survive, emit) && Frames(p) == n && WithinBeam(g, ac, p, config.beam)
    ensures Below(PathCost(ac, p), survive)
  {
    var adaptive :| FrameCutoff(toks, config, survive, adaptive);
    SurvivesBeam(g, ac, config, n, toks, survive, adaptive, p);
  }

  /** Beam safety: without limits on active tokens, no path is lost whose every prefix costs less than
      each path of as many frames plus the beam. */
  lemma BeamLosesNothing(g: Fst, ac: Acoustic, config: Options, run: seq<Tokens>, c: Cutoffs, toks: Tokens)
    requires g.Valid() && config.Valid() && config.Unlimited() && Decoded(g, ac, config, run, c)
    requires NothingLost(g, ac, |run| - 1, toks, c)
    ensures BeamSafe(g, ac, |run| - 1, toks, config.beam)
  {
    forall p | IsPath(g, p) && Frames(p) == |run| - 1 && WithinBeam(g, ac, p, config.beam)
      ensures Covered(toks, Dest(g, p), PathCost(ac, p))
    {
      BeamKeeps(g, ac, config, run, c, p);
    }
  }

  /** So a cheapest path into its state that stays within the beam is found at its exact cost. */
  lemma BeamFindsCheapest(g: Fst, ac: Acoustic, n: nat, toks: Tokens, beam: Bound, p: seq<Arc>)
    requires TokensOk(g, ac, toks, n) && BeamSafe(g, ac, n, toks, beam)
    requires IsPath(g, p) && Frames(p) == n && WithinBeam(g, ac, p, beam)
    requires forall p' :: IsPath(g, p') && Frames(p') == n && Dest(g, p') == Dest(g, p) ==>
               PathCost(ac, p) <= PathCost(ac, p')
    ensures Dest(g, p) in toks && toks[Dest(g, p)].weight == PathCost(ac, p)
  {
    TokenIsPath(g, ac, toks[Dest(g, p)]);
  }

  /** A decode loses no path that its cutoffs keep. */
  lemma {:induction false} DecodedLosesNothing(g: Fst, ac: Acoustic, config: Options, run: seq<Tokens>, c: Cutoffs)
    requires g.Valid() && Decoded(g, ac, config, run, c)
    ensures NothingLost(g, ac, |run| - 1, run[|run| - 1], c)
    decreases |run|
  {
    hide FrameCuts, FrameRan, Pruned, NothingLost, TokenOk, ClosedExcept;
    var n := |run| - 1;
    if n == 0 {
      FirstPassKeeps(g, ac, run[0], c);
    } else {
      var before := Cutoffs(c.survive[..n - 1], c.emit[..n - 1]);
      assert Decoded(g, ac, config, run[..n], before) by { DecodedPrefix(g, ac, config, run, c); }
      DecodedLosesNothing(g, ac, config, run[..n], before);
      var mid :| FrameRan(g, ac, n - 1, run[n - 1], mid, run[n], c.survive[n - 1], c.emit[n - 1]);
      FrameKeepsAll(g, ac, n - 1, run[n - 1], mid, run[n], before, c.survive[n - 1], c.emit[n - 1]);
      assert before.Then(c.survive[n - 1], c.emit[n - 1]) == c;
    }
  }

  lemma FirstPassKeeps(g: Fst, ac: Acoustic, toks: Tokens, c: Cutoffs)
    requires g.Valid() && FirstPass(g, ac, toks)
    ensures NothingLost(g, ac, 0, toks, c)
  {
    forall p | IsPath(g, p) && Frames(p) == 0 ensures Covered(toks, Dest(g, p), PathCost(ac, p)) {
      FirstPassPath(g, ac, toks, p);
    }
  }

  lemma DecodedPrefix(g: Fst, ac: Acoustic, config: Options, run: seq<Tokens>, c: Cutoffs)
    requires Decoded(g, ac, config, run, c) && |run| > 1
    ensures var n := |run| - 1; Decoded(g, ac, config, run[..n], Cutoffs(c.survive[..n - 1], c.emit[..n - 1]))
  {
    hide FrameCuts, FrameStep, TokensOk, FirstPass;
    var n := |run| - 1;
    var init, before := run[..n], Cutoffs(c.survive[..n - 1], c.emit[..n - 1]);
    forall f | 0 <= f < |init| - 1
      ensures FrameCuts(g, ac, config, f, init[f], before.survive[f], before.emit[f])
      ensures FrameStep(g, ac, config, f, init[f], init[f + 1], before.survive[f], before.emit[f])
    {
      assert init[f + 1] == run[f + 1];
    }
  }

  predicate Open(c: Cutoffs) {
    (forall i :: 0 <= i < |c.survive| ==> c.survive[i] == Inf) && (forall i :: 0 <= i < |c.emit| ==> c.emit[i] == Inf)
  }

  lemma {:induction false} OpenKeepsAll(ac: Acoustic, p: seq<Arc>, c: Cutoffs, n: nat)
    requires Open(c) && c.Frames(n) && Frames(p) <= n
    ensures Kept(ac, p, c)
    decreases |p|
  {
    if p != [] { OpenKeepsAll(ac, p[..|p| - 1], c, n); }
  }

  /** With every cutoff open the decode is exact. */
  lemma OpenIsExact(g: Fst, ac: Acoustic, n: nat, toks: Tokens, c: Cutoffs)
    requires TokensOk(g, ac, toks, n) && NothingLost(g, ac, n, toks, c) && c.Frames(n) && Open(c)
    ensures CheapestPaths(g, ac, n, toks)
  {
    forall p | IsPath(g, p) && Frames(p) == n ensures Covered(toks, Dest(g, p), PathCost(ac, p)) {
      OpenKeepsAll(ac, p, c, n);
    }
    forall q | q in toks
      ensures var p := TokenPath(toks[q]);
              IsPath(g, p) && Frames(p) == n && Dest(g, p) == q && PathCost(ac, p) == toks[q].weight
    {
      TokenIsPath(g, ac, toks[q]);
    }
  }

  /** With an infinite beam nothing is cut at all. */
  lemma OpenBeamIsExact(g: Fst, ac: Acoustic, n: nat, toks: Tokens)
    requires TokensOk(g, ac, toks, n) && BeamSafe(g, ac, n, toks, Inf)
    ensures CheapestPaths(g, ac, n, toks)
  {
    forall p | IsPath(g, p) && Frames(p) == n ensures Covered(toks, Dest(g, p), PathCost(ac, p)) {
      AllWithinInfinity(g, ac, p);
    }
    forall q | q in toks
      ensures var p := TokenPath(toks[q]);
              IsPath(g, p) && Frames(p) == n && Dest(g, p) == q && PathCost(ac, p) == toks[q].weight
    {
      TokenIsPath(g, ac, toks[q]);
    }
  }

  lemma {:induction false} AllWithinInfinity(g: Fst, ac: Acoustic, p: seq<Arc>)
    ensures WithinBeam(g, ac, p, Inf)
    decreases |p|
  {
    if p != [] { AllWithinInfinity(g, ac, p[..|p| - 1]); }
  }

  // ---------- Traceback ----------

  datatype LatticeArc = LatticeArc(ilabel: int, olabel: int, graph: int, acoustic: int)

  function TotalCost(arcs: seq<LatticeArc>): int {
    if arcs == [] then 0 else
      TotalCost(arcs[..|arcs| - 1]) + arcs[|arcs| - 1].graph + arcs[|arcs| - 1].acoustic
  }

  /** `arcs` is the path `p` with its graph and acoustic costs told apart. */
  ghost predicate Spells(ac: Acoustic, arcs: seq<LatticeArc>, p: seq<Arc>) {
    && |arcs| == |p|
    && forall i :: 0 <= i < |p| ==>
         arcs[i] == LatticeArc(p[i].ilabel, p[i].olabel, p[i].weight, ArcAcoustic(ac, Frames(p[..i]), p[i]))
  }

  lemma {:induction false} SpellingTelescopes(ac: Acoustic, arcs: seq<LatticeArc>, p: seq<Arc>)
    requires Spells(ac, arcs, p)
    ensures TotalCost(arcs) == PathCost(ac, p)
    decreases |p|
  {
    if p != [] {
      var init := p[..|p| - 1];
      forall i | 0 <= i < |init| ensures p[..i] == init[..i] {}
      SpellingTelescopes(ac, arcs[..|p| - 1], init);
    }
  }

  /** The state whose token the traceback starts from: the cheapest with its final cost when
      any token is final, the cheapest token otherwise. */
  ghost predicate BestToken(g: Fst, toks: Tokens, isFinal: bool, q: nat)
    requires forall r :: r in toks ==> r < |g.final|
  {
    && q in toks
    && (isFinal <==> exists r :: r in toks && g.final[r].Some?)
    && (isFinal ==>
          && g.final[q].Some?
          && forall r :: r in toks && g.final[r].Some? ==>
               toks[q].weight + g.final[q].value <= toks[r].weight + g.final[r].value)
    && (!isFinal ==> forall r :: r in toks ==> toks[q].weight <= toks[r].weight)
  }

  /** With every cutoff open, the traceback is the cheapest accepting path of `n` frames; when
      no path of `n` frames is accepting it is the cheapest of them all. */
  lemma BestTokenIsOptimal(g: Fst, ac: Acoustic, n: nat, toks: Tokens, isFinal: bool, q: nat)
    requires g.Valid() && TokensOk(g, ac, toks, n) && CheapestPaths(g, ac, n, toks) && BestToken(g, toks, isFinal, q)
    ensures isFinal <==> exists p ::
              IsPath(g, p) && Frames(p) == n && Dest(g, p) < |g.final| && g.final[Dest(g, p)].Some?
    ensures isFinal ==> forall p ::
              IsPath(g, p) && Frames(p) == n && Dest(g, p) < |g.final| && g.final[Dest(g, p)].Some? ==>
              PathCost(ac, TokenPath(toks[q])) + g.final[q].value <= PathCost(ac, p) + g.final[Dest(g, p)].value
    ensures !isFinal ==> forall p :: IsPath(g, p) && Frames(p) == n ==>
              PathCost(ac, TokenPath(toks[q])) <= PathCost(ac, p)
  {
    if isFinal {
      var r :| r in toks && g.final[r].Some?;
      var p := TokenPath(toks[r]);
      assert IsPath(g, p) && Frames(p) == n && Dest(g, p) == r;
    }
  }
}
