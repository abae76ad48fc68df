/** The epsilon pass on values: what it closes, and the measure that makes its queue run dry. */
module EpsilonClosure {
  import opened Wfst
  import opened ViterbiPaths
  import opened BeamCutoff
  import opened Emission

  /** The first `n` epsilon arcs of `q`, taken at cost `w`, propose nothing better within the cutoff. */
  ghost predicate ClosedAt(g: Fst, toks: Tokens, q: nat, w: int, cutoff: Bound, n: nat)
    requires q < |g.arcs| && n <= |g.arcs[q]|
  {
    forall i :: 0 <= i < n && g.arcs[q][i].ilabel == 0 && Within(w + g.arcs[q][i].weight, cutoff) ==>
      Covered(toks, g.arcs[q][i].nextstate, w + g.arcs[q][i].weight)
  }

  /** Every token within the cutoff, save those of the states in `queue`, is fully expanded. */
  ghost predicate ClosedExcept(g: Fst, toks: Tokens, cutoff: Bound, queue: seq<nat>)
    requires forall q :: q in toks ==> q < |g.arcs|
  {
    forall q :: q in toks && q !in queue && Within(toks[q].weight, cutoff) ==>
      ClosedAt(g, toks, q, toks[q].weight, cutoff, |g.arcs[q]|)
  }

  /** A token the pass adds or replaces lies within the cutoff. */
  ghost predicate OnlyWithin(toks: Tokens, was: Tokens, cutoff: Bound) {
    forall q :: q in toks && (q !in was || toks[q] != was[q]) ==> Within(toks[q].weight, cutoff)
  }

  // ---------- Termination ----------

  /** No token undercuts `floor` once the potential of its state is added. */
  ghost predicate AboveFloor(g: Fst, pot: seq<int>, floor: int, toks: Tokens)
    requires |pot| == |g.arcs|
  {
    forall q :: q in toks ==> q < |g.arcs| && floor <= toks[q].weight + pot[q]
  }

  ghost function Missing(toks: Tokens, n: nat): nat {
    if n == 0 then 0 else Missing(toks, n - 1) + if n - 1 in toks then 0 else 1
  }

  ghost function Slack(g: Fst, pot: seq<int>, floor: int, toks: Tokens, n: nat): nat
    requires |pot| == |g.arcs| && n <= |pot| && AboveFloor(g, pot, floor, toks)
  {
    if n == 0 then 0 else
      Slack(g, pot, floor, toks, n - 1) + if n - 1 in toks then toks[n - 1].weight + pot[n - 1] - floor else 0
  }

  ghost predicate Progress(g: Fst, pot: seq<int>, floor: int, toks: Tokens, was: Tokens)
    requires |pot| == |g.arcs| && AboveFloor(g, pot, floor, toks) && AboveFloor(g, pot, floor, was)
  {
    || Missing(toks, |pot|) < Missing(was, |pot|)
    || (Missing(toks, |pot|) == Missing(was, |pot|)
        && Slack(g, pot, floor, toks, |pot|) < Slack(g, pot, floor, was, |pot|))
  }

  lemma {:induction false} FloorExists(g: Fst, pot: seq<int>, toks: Tokens, n: nat) returns (floor: int)
    requires |pot| == |g.arcs| && n <= |pot|
    ensures forall q :: q in toks && q < n ==> floor <= toks[q].weight + pot[q]
  {
    if n == 0 { return 0; }
    floor := FloorExists(g, pot, toks, n - 1);
    if n - 1 in toks && toks[n - 1].weight + pot[n - 1] < floor {
      floor := toks[n - 1].weight + pot[n - 1];
    }
  }

  lemma {:induction false} MissingAfter(toks: Tokens, q: nat, t: Token, n: nat)
    ensures Missing(toks[q := t], n) == Missing(toks, n) - if q < n && q !in toks then 1 else 0
  {
    if n > 0 { MissingAfter(toks, q, t, n - 1); }
  }

  lemma {:induction false} SlackAfter(g: Fst, pot: seq<int>, floor: int, toks: Tokens, q: nat, t: Token, n: nat)
    requires |pot| == |g.arcs| && n <= |pot| && q in toks
    requires AboveFloor(g, pot, floor, toks) && AboveFloor(g, pot, floor, toks[q := t])
    ensures Slack(g, pot, floor, toks[q := t], n)
         == Slack(g, pot, floor, toks, n) + if q < n then t.weight - toks[q].weight else 0
  {
    if n > 0 { SlackAfter(g, pot, floor, toks, q, t, n - 1); }
  }

  /** Installing a token that changes the list makes progress. */
  lemma InstallProgress(g: Fst, pot: seq<int>, floor: int, toks: Tokens, t: Token)
    requires |pot| == |g.arcs| && AboveFloor(g, pot, floor, toks)
    requires t.arc.nextstate < |pot| && floor <= t.weight + pot[t.arc.nextstate]
    ensures AboveFloor(g, pot, floor, Install(toks, t))
    ensures Enters(toks, t) ==> Progress(g, pot, floor, Install(toks, t), toks)
  {
    var q := t.arc.nextstate;
    assert AboveFloor(g, pot, floor, Install(toks, t));
    if q !in toks {
      MissingAfter(toks, q, t, |pot|);
    } else if t.weight < toks[q].weight {
      MissingAfter(toks, q, t, |pot|);
      SlackAfter(g, pot, floor, toks, q, t, |pot|);
    }
  }

  // ---------- One arc ----------

  /** Where the expansion of `q` stands after its first `n` arcs; `rest` is the queue without it. */
  ghost predicate Expanding(g: Fst, ac: Acoustic, frame: nat, pot: seq<int>, floor: int, cutoff: Bound,
                            was: Tokens, rest: seq<nat>, q: nat, n: nat, toks: Tokens, queue: seq<nat>)
    requires g.Valid() && |pot| == |g.arcs| && q in was && q < |g.arcs| && n <= |g.arcs[q]|
    requires AboveFloor(g, pot, floor, was)
  {
    && TokensOk(g, ac, toks, frame) && AboveFloor(g, pot, floor, toks)
    && Improves(toks, was) && OnlyWithin(toks, was, cutoff)
    && q in toks && toks[q] == was[q]
    && (forall x :: x in queue ==> x in toks)
    && ClosedAt(g, toks, q, was[q].weight, cutoff, n)
    && ClosedExcept(g, toks, cutoff, queue + [q])
    && ((toks == was && queue == rest) || Progress(g, pot, floor, toks, was))
  }

  lemma ClosedAtGrows(g: Fst, toks: Tokens, toks': Tokens, q: nat, w: int, cutoff: Bound, n: nat)
    requires q < |g.arcs| && n <= |g.arcs[q]|
    requires ClosedAt(g, toks, q, w, cutoff, n) && Improves(toks', toks)
    ensures ClosedAt(g, toks', q, w, cutoff, n)
  {
  }

  /** Only the state whose token is installed can lose its closure, so queueing it is enough. */
  lemma ClosedExceptInstall(g: Fst, toks: Tokens, t: Token, cutoff: Bound, queue: seq<nat>, queue': seq<nat>)
    requires forall q :: q in toks ==> q < |g.arcs|
    requires ClosedExcept(g, toks, cutoff, queue) && t.arc.nextstate < |g.arcs|
    requires forall x :: x in queue || x == t.arc.nextstate ==> x in queue'
    ensures ClosedExcept(g, Install(toks, t), cutoff, queue')
  {
    var toks' := Install(toks, t);
    forall q | q in toks' && q !in queue' && Within(toks'[q].weight, cutoff)
      ensures ClosedAt(g, toks', q, toks'[q].weight, cutoff, |g.arcs[q]|)
    {
      ClosedAtGrows(g, toks, toks', q, toks[q].weight, cutoff, |g.arcs[q]|);
    }
  }

  /** An epsilon arc never improves on the token it starts from. */
  lemma NoSelfImprovement(g: Fst, ac: Acoustic, frame: nat, pot: seq<int>, tok: Token, q: nat, i: nat)
    requires g.Valid() && Potential(g, pot) && q < |g.arcs| && i < |g.arcs[q]| && g.arcs[q][i].ilabel == 0
    ensures Extend(g, ac, frame, tok, g.arcs[q][i]).arc.nextstate == q ==>
              Extend(g, ac, frame, tok, g.arcs[q][i]).weight >= tok.weight
  {
  }

  lemma ClosedAtStep(g: Fst, toks: Tokens, q: nat, w: int, cutoff: Bound, n: nat)
    requires q < |g.arcs| && n < |g.arcs[q]|
    requires ClosedAt(g, toks, q, w, cutoff, n)
    requires var a := g.arcs[q][n];
             a.ilabel == 0 && Within(w + a.weight, cutoff) ==> Covered(toks, a.nextstate, w + a.weight)
    ensures ClosedAt(g, toks, q, w, cutoff, n + 1)
  {
  }

  lemma ExpandingStep(g: Fst, ac: Acoustic, frame: nat, pot: seq<int>, floor: int, cutoff: Bound,
                      was: Tokens, rest: seq<nat>, q: nat, i: nat,
                      toks: Tokens, queue: seq<nat>, toks': Tokens, queue': seq<nat>)
    requires g.Valid() && Potential(g, pot) && q in was && q < |g.arcs| && i < |g.arcs[q]|
    requires AboveFloor(g, pot, floor, was)
    requires Expanding(g, ac, frame, pot, floor, cutoff, was, rest, q, i, toks, queue)
    requires var a := g.arcs[q][i];
             var t := Extend(g, ac, frame, was[q], a);
             if a.ilabel == 0 && Within(t.weight, cutoff) && Enters(toks, t)
             then toks' == Install(toks, t) && queue' == queue + [a.nextstate]
             else toks' == toks && queue' == queue
    ensures Expanding(g, ac, frame, pot, floor, cutoff, was, rest, q, i + 1, toks', queue')
  {
    hide TokenOk, ClosedAt, ClosedExcept;
    var a := g.arcs[q][i];
    var t := Extend(g, ac, frame, was[q], a);
    if a.ilabel == 0 && Within(t.weight, cutoff) {
      ExtendOk(g, ac, toks, frame, q, i);
      InstallOk(g, ac, toks, frame, t);
      InstallProgress(g, pot, floor, toks, t);
      NoSelfImprovement(g, ac, frame, pot, was[q], q, i);
      ImprovesTrans(Install(toks, t), toks, was);
      ClosedAtGrows(g, toks, Install(toks, t), q, was[q].weight, cutoff, i);
      ClosedExceptInstall(g, toks, t, cutoff, queue + [q], queue + [a.nextstate] + [q]);
    }
    ClosedAtStep(g, toks', q, was[q].weight, cutoff, i);
  }

  // ---------- Bookkeeping of the whole pass ----------

  /** What holds each time the queue is looked at. */
  ghost predicate Closing(g: Fst, ac: Acoustic, frame: nat, pot: seq<int>, floor: int, cutoff: Bound,
                          start: Tokens, toks: Tokens, queue: seq<nat>)
    requires g.Valid() && |pot| == |g.arcs|
  {
    && TokensOk(g, ac, toks, frame) && AboveFloor(g, pot, floor, toks)
    && Improves(toks, start) && OnlyWithin(toks, start, cutoff)
    && (forall x :: x in queue ==> x in toks)
    && ClosedExcept(g, toks, cutoff, queue)
  }

  lemma ExpandingStarts(g: Fst, ac: Acoustic, frame: nat, pot: seq<int>, floor: int, cutoff: Bound,
                        start: Tokens, toks: Tokens, rest: seq<nat>, q: nat)
    requires g.Valid() && Potential(g, pot)
    requires Closing(g, ac, frame, pot, floor, cutoff, start, toks, rest + [q])
    ensures q in toks && q < |g.arcs|
    ensures Expanding(g, ac, frame, pot, floor, cutoff, toks, rest, q, 0, toks, rest)
  {
    assert q in rest + [q];
    assert forall x :: x in rest ==> x in rest + [q];
  }

  lemma ExpandingEnds(g: Fst, ac: Acoustic, frame: nat, pot: seq<int>, floor: int, cutoff: Bound,
                      start: Tokens, was: Tokens, rest: seq<nat>, q: nat, toks: Tokens, queue: seq<nat>)
    requires g.Valid() && Potential(g, pot)
    requires Closing(g, ac, frame, pot, floor, cutoff, start, was, rest + [q])
    requires q in was && q < |g.arcs|
    requires Expanding(g, ac, frame, pot, floor, cutoff, was, rest, q, |g.arcs[q]|, toks, queue)
    ensures Closing(g, ac, frame, pot, floor, cutoff, start, toks, queue)
    ensures (toks == was && queue == rest) || Progress(g, pot, floor, toks, was)
  {
    ImprovesTrans(toks, was, start);
    forall x | x in toks && x !in queue && Within(toks[x].weight, cutoff)
      ensures ClosedAt(g, toks, x, toks[x].weight, cutoff, |g.arcs[x]|)
    {
      if x != q { assert x !in queue + [q]; }
    }
  }

  lemma SkippingIsSafe(g: Fst, ac: Acoustic, frame: nat, pot: seq<int>, floor: int, cutoff: Bound,
                       start: Tokens, toks: Tokens, rest: seq<nat>, q: nat)
    requires g.Valid() && |pot| == |g.arcs|
    requires Closing(g, ac, frame, pot, floor, cutoff, start, toks, rest + [q])
    requires q in toks && !Within(toks[q].weight, cutoff)
    ensures Closing(g, ac, frame, pot, floor, cutoff, start, toks, rest)
  {
    assert forall x :: x in rest ==> x in rest + [q];
    forall x | x in toks && x !in rest && Within(toks[x].weight, cutoff)
      ensures ClosedAt(g, toks, x, toks[x].weight, cutoff, |g.arcs[x]|)
    {
      assert x !in rest + [q];
    }
  }
}
