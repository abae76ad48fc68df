/** Paths, tokens and cutoffs of the Viterbi beam decoder (src/bin/faster-decoder-mod.cc).

    Costs are integers: a float cost is an integer multiple of the smallest float step, and
    rounding is not modelled. `Inf` stands for the float infinity, and for the largest float in
    the cutoff of the first epsilon pass, which no cost exceeds. */
module ViterbiPaths {
  import opened Wfst
  import opened Wrappers

  datatype Bound = Fin(value: int) | Inf

  /** `w < b` */
  predicate Below(w: int, b: Bound) { b.Inf? || w < b.value }

  /** not `w > b` */
  predicate Within(w: int, b: Bound) { b.Inf? || w <= b.value }

  function Plus(w: int, beam: Bound): Bound {
    if beam.Inf? then Inf else Fin(w + beam.value)
  }

  // ---------- Paths and tokens ----------

  /** The acoustic cost of a label in a frame: the negated log-likelihood. */
  type Acoustic = (nat, int) -> int

  function Dest(g: Fst, p: seq<Arc>): nat {
    if p == [] then g.start else p[|p| - 1].nextstate
  }

  predicate IsPath(g: Fst, p: seq<Arc>) {
    p == [] || (IsPath(g, p[..|p| - 1]) && Leaves(g, Dest(g, p[..|p| - 1]), p[|p| - 1]))
  }

  /** How many frames a path consumes: one per arc with an input label. */
  function Frames(p: seq<Arc>): nat {
    if p == [] then 0 else Frames(p[..|p| - 1]) + if p[|p| - 1].ilabel != 0 then 1 else 0
  }

  function ArcAcoustic(ac: Acoustic, frame: nat, a: Arc): int {
    if a.ilabel != 0 then ac(frame, a.ilabel) else 0
  }

  function PathCost(ac: Acoustic, p: seq<Arc>): int {
    if p == [] then 0 else
      var init := p[..|p| - 1];
      PathCost(ac, init) + p[|p| - 1].weight + ArcAcoustic(ac, Frames(init), p[|p| - 1])
  }

  /** A token never changes once made; `prev` is the token it was extended from. */
  datatype Token = Token(arc: Arc, weight: int, prev: Option<Token>)

  /** The arcs along the prev chain, oldest first; the arc of the first token is a dummy. */
  function TokenPath(t: Token): seq<Arc> {
    match t.prev
    case None => []
    case Some(p) => TokenPath(p) + [t.arc]
  }

  function TokenFrames(t: Token): nat {
    match t.prev
    case None => 0
    case Some(p) => TokenFrames(p) + if t.arc.ilabel != 0 then 1 else 0
  }

  /** Every link of the chain is an arc of the transducer, charged its graph and acoustic cost. */
  predicate TokenOk(g: Fst, ac: Acoustic, t: Token) {
    match t.prev
    case None => t.arc.nextstate == g.start && t.weight == 0 && t.arc.weight == 0
    case Some(p) =>
      && TokenOk(g, ac, p)
      && Leaves(g, p.arc.nextstate, t.arc)
      && t.weight == p.weight + t.arc.weight + ArcAcoustic(ac, TokenFrames(p), t.arc)
  }

  /** A token's weight is the cost of the real path its chain spells. */
  lemma {:induction false} TokenIsPath(g: Fst, ac: Acoustic, t: Token)
    requires TokenOk(g, ac, t)
    ensures IsPath(g, TokenPath(t)) && Dest(g, TokenPath(t)) == t.arc.nextstate
    ensures Frames(TokenPath(t)) == TokenFrames(t)
    ensures PathCost(ac, TokenPath(t)) == t.weight
  {
    match t.prev {
      case None =>
      case Some(p) =>
        TokenIsPath(g, ac, p);
        assert TokenPath(t)[..|TokenPath(t)| - 1] == TokenPath(p);
    }
  }

  type Tokens = map<nat, Token>

  ghost predicate TokensOk(g: Fst, ac: Acoustic, toks: Tokens, frame: nat) {
    forall q :: q in toks ==>
      && q < |g.arcs|
      && toks[q].arc.nextstate == q
      && TokenFrames(toks[q]) == frame
      && TokenOk(g, ac, toks[q])
  }

  /** State `q` holds a token costing at most `cost`. */
  predicate Covered(toks: Tokens, q: nat, cost: int) {
    q in toks && toks[q].weight <= cost
  }

  ghost predicate Improves(toks: Tokens, was: Tokens) {
    forall q :: q in was ==> Covered(toks, q, was[q].weight)
  }
}
