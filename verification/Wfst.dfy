/** Weighted transducers as the decoders read them: numbered states, arcs in a fixed order
    per state, integer costs. Label 0 is epsilon. */
module Wfst {
  import opened Wrappers

  datatype Arc = Arc(ilabel: int, olabel: int, weight: int, nextstate: nat)

  datatype Fst = Fst(start: nat, arcs: seq<seq<Arc>>, final: seq<Option<int>>) {
    predicate Valid() {
      && start < |arcs|
      && |final| == |arcs|
      && forall s, i :: 0 <= s < |arcs| && 0 <= i < |arcs[s]| ==> arcs[s][i].nextstate < |arcs|
    }
  }

  /** `a` leaves state `s`. */
  predicate Leaves(g: Fst, s: nat, a: Arc) {
    s < |g.arcs| && a in g.arcs[s]
  }

  // ---------- Epsilon walks ----------

  predicate EpsWalk(g: Fst, s: nat, p: seq<Arc>)
    decreases |p|
  {
    p == [] || (Leaves(g, s, p[0]) && p[0].ilabel == 0 && EpsWalk(g, p[0].nextstate, p[1..]))
  }

  function WalkEnd(s: nat, p: seq<Arc>): nat {
    if p == [] then s else p[|p| - 1].nextstate
  }

  function WalkWeight(p: seq<Arc>): int {
    if p == [] then 0 else p[0].weight + WalkWeight(p[1..])
  }

  /** Going round an epsilon cycle never lowers a cost. */
  ghost predicate NoNegativeEpsCycle(g: Fst) {
    forall s: nat, p :: s < |g.arcs| && EpsWalk(g, s, p) && WalkEnd(s, p) == s ==> WalkWeight(p) >= 0
  }

  /** `pot` never drops by more than the weight of an epsilon arc. */
  ghost predicate Potential(g: Fst, pot: seq<int>)
    requires g.Valid()
  {
    && |pot| == |g.arcs|
    && forall s, i :: 0 <= s < |g.arcs| && 0 <= i < |g.arcs[s]| && g.arcs[s][i].ilabel == 0 ==>
         pot[s] <= g.arcs[s][i].weight + pot[g.arcs[s][i].nextstate]
  }

  lemma {:induction false} WalkSplit(g: Fst, s: nat, p: seq<Arc>, i: nat)
    requires i <= |p| && EpsWalk(g, s, p)
    ensures EpsWalk(g, s, p[..i]) && EpsWalk(g, WalkEnd(s, p[..i]), p[i..])
    ensures WalkWeight(p) == WalkWeight(p[..i]) + WalkWeight(p[i..])
    decreases |p|
  {
    if i == 0 {
      assert p[..0] == [] && p[0..] == p;
    } else {
      WalkSplit(g, p[0].nextstate, p[1..], i - 1);
      assert p[..i][1..] == p[1..][..i - 1];
      assert p[1..][i - 1..] == p[i..];
    }
  }

  lemma {:induction false} WalkJoin(g: Fst, s: nat, p: seq<Arc>, q: seq<Arc>)
    requires EpsWalk(g, s, p) && EpsWalk(g, WalkEnd(s, p), q)
    ensures EpsWalk(g, s, p + q)
    ensures WalkWeight(p + q) == WalkWeight(p) + WalkWeight(q)
    ensures WalkEnd(s, p + q) == WalkEnd(WalkEnd(s, p), q)
    decreases |p|
  {
    if p == [] {
      assert p + q == q;
    } else {
      WalkJoin(g, p[0].nextstate, p[1..], q);
      assert (p + q)[1..] == p[1..] + q;
    }
  }

  lemma {:induction false} WalkInside(g: Fst, s: nat, p: seq<Arc>)
    requires g.Valid() && s < |g.arcs| && EpsWalk(g, s, p)
    ensures WalkEnd(s, p) < |g.arcs|
    decreases |p|
  {
    if p != [] {
      var i :| 0 <= i < |g.arcs[s]| && g.arcs[s][i] == p[0];
      WalkInside(g, p[0].nextstate, p[1..]);
    }
  }

  /** A potential rules negative epsilon cycles out. */
  lemma {:induction false} PotentialBoundsWalk(g: Fst, pot: seq<int>, s: nat, p: seq<Arc>)
    requires g.Valid() && Potential(g, pot) && s < |g.arcs| && EpsWalk(g, s, p)
    ensures WalkEnd(s, p) < |g.arcs|
    ensures pot[s] - pot[WalkEnd(s, p)] <= WalkWeight(p)
    decreases |p|
  {
    if p != [] {
      var i :| 0 <= i < |g.arcs[s]| && g.arcs[s][i] == p[0];
      PotentialBoundsWalk(g, pot, p[0].nextstate, p[1..]);
    }
  }

  // ---------- Shortening walks ----------

  lemma {:induction false} Pigeonhole(xs: seq<nat>, n: nat) returns (i: nat, j: nat)
    requires |xs| > n && forall k :: 0 <= k < |xs| ==> xs[k] < n
    ensures i < j < |xs| && xs[i] == xs[j]
    decreases n
  {
    var last := |xs| - 1;
    if k :| 0 <= k < last && xs[k] == xs[last] {
      i, j := k, last;
    } else {
      // Rename the value n-1 to xs[last], which occurs nowhere else, and drop the last element.
      var ys := seq(last, k requires 0 <= k < last => if xs[k] == n - 1 then xs[last] else xs[k]);
      i, j := Pigeonhole(ys, n - 1);
    }
  }

  lemma {:induction false} ShortenWalk(g: Fst, s: nat, p: seq<Arc>) returns (q: seq<Arc>)
    requires g.Valid() && NoNegativeEpsCycle(g) && s < |g.arcs| && EpsWalk(g, s, p)
    ensures EpsWalk(g, s, q) && |q| <= |g.arcs|
    ensures WalkEnd(s, q) == WalkEnd(s, p) && WalkWeight(q) <= WalkWeight(p)
    decreases |p|
  {
    if |p| <= |g.arcs| {
      q := p;
    } else {
      forall k | 0 <= k <= |p| ensures WalkEnd(s, p[..k]) < |g.arcs| {
        WalkSplit(g, s, p, k);
        WalkInside(g, s, p[..k]);
      }
      var stops := seq(|p|, k requires 0 <= k < |p| => WalkEnd(s, p[..k]));
      var i, j := Pigeonhole(stops, |g.arcs|);
      var at := stops[i];
      WalkSplit(g, s, p, j);
      WalkSplit(g, s, p[..j], i);
      assert p[..j][..i] == p[..i];
      var cycle := p[..j][i..];
      assert WalkEnd(at, cycle) == at;
      WalkJoin(g, s, p[..i], p[j..]);
      assert WalkEnd(s, p[..i] + p[j..]) == WalkEnd(s, p);
      q := ShortenWalk(g, s, p[..i] + p[j..]);
    }
  }

  // ---------- A potential exists exactly when no epsilon cycle is negative ----------

  /** Least weight of an epsilon walk of at most `k` arcs from `s`. */
  ghost function Cheapest(g: Fst, k: nat, s: nat): int
    requires g.Valid() && s < |g.arcs|
    decreases k, 1, 0
  {
    if k == 0 then 0 else CheapestVia(g, k, s, |g.arcs[s]|)
  }

  ghost function CheapestVia(g: Fst, k: nat, s: nat, i: nat): int
    requires g.Valid() && s < |g.arcs| && i <= |g.arcs[s]| && k > 0
    decreases k, 0, i
  {
    if i == 0 then 0 else
      var a := g.arcs[s][i - 1];
      var rest := CheapestVia(g, k, s, i - 1);
      if a.ilabel != 0 then rest else
        var via := a.weight + Cheapest(g, k - 1, a.nextstate);
        if via < rest then via else rest
  }

  lemma {:induction false} CheapestViaFacts(g: Fst, k: nat, s: nat, i: nat)
    requires g.Valid() && s < |g.arcs| && i <= |g.arcs[s]| && k > 0
    ensures CheapestVia(g, k, s, i) <= 0
    ensures forall j {:trigger g.arcs[s][j]} :: 0 <= j < i && g.arcs[s][j].ilabel == 0 ==>
              CheapestVia(g, k, s, i) <= g.arcs[s][j].weight + Cheapest(g, k - 1, g.arcs[s][j].nextstate)
    ensures CheapestVia(g, k, s, i) == 0
         || exists j :: 0 <= j < i && g.arcs[s][j].ilabel == 0
              && CheapestVia(g, k, s, i) == g.arcs[s][j].weight + Cheapest(g, k - 1, g.arcs[s][j].nextstate)
  {
    if i > 0 { CheapestViaFacts(g, k, s, i - 1); }
  }

  lemma {:induction false} CheapestIsLeast(g: Fst, k: nat, s: nat, p: seq<Arc>)
    requires g.Valid() && s < |g.arcs| && EpsWalk(g, s, p) && |p| <= k
    ensures Cheapest(g, k, s) <= WalkWeight(p)
  {
    if k > 0 {
      CheapestViaFacts(g, k, s, |g.arcs[s]|);
      if p != [] {
        var i :| 0 <= i < |g.arcs[s]| && g.arcs[s][i] == p[0];
        CheapestIsLeast(g, k - 1, p[0].nextstate, p[1..]);
      }
    }
  }

  lemma {:induction false} CheapestIsReached(g: Fst, k: nat, s: nat) returns (p: seq<Arc>)
    requires g.Valid() && s < |g.arcs|
    ensures EpsWalk(g, s, p) && |p| <= k && WalkWeight(p) == Cheapest(g, k, s)
  {
    p := [];
    if k > 0 {
      CheapestViaFacts(g, k, s, |g.arcs[s]|);
      if Cheapest(g, k, s) != 0 {
        var j :| 0 <= j < |g.arcs[s]| && g.arcs[s][j].ilabel == 0
              && Cheapest(g, k, s) == g.arcs[s][j].weight + Cheapest(g, k - 1, g.arcs[s][j].nextstate);
        var q := CheapestIsReached(g, k - 1, g.arcs[s][j].nextstate);
        p := [g.arcs[s][j]] + q;
        assert p[1..] == q;
      }
    }
  }

  lemma {:induction false} PotentialExists(g: Fst) returns (pot: seq<int>)
    requires g.Valid() && NoNegativeEpsCycle(g)
    ensures Potential(g, pot)
  {
    var n := |g.arcs|;
    pot := seq(n, s requires 0 <= s < n => Cheapest(g, n, s));
    forall s, i | 0 <= s < n && 0 <= i < |g.arcs[s]| && g.arcs[s][i].ilabel == 0
      ensures pot[s] <= g.arcs[s][i].weight + pot[g.arcs[s][i].nextstate]
    {
      var a := g.arcs[s][i];
      var p := CheapestIsReached(g, n, a.nextstate);
      assert ([a] + p)[1..] == p;
      var q := ShortenWalk(g, s, [a] + p);
      CheapestIsLeast(g, n, s, q);
    }
  }

  lemma PotentialIffNoNegativeCycle(g: Fst)
    requires g.Valid()
    ensures NoNegativeEpsCycle(g) <==> exists pot :: Potential(g, pot)
  {
    if NoNegativeEpsCycle(g) {
      var pot := PotentialExists(g);
    }
    if pot :| Potential(g, pot) {
      forall s: nat, p | s < |g.arcs| && EpsWalk(g, s, p) && WalkEnd(s, p) == s
        ensures WalkWeight(p) >= 0
      {
        PotentialBoundsWalk(g, pot, s, p);
      }
    }
  }
}
