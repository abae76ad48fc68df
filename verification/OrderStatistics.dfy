/** Order statistics of a list of weights: what the limits on active tokens are read from. */
module OrderStatistics {
  import opened ViterbiPaths

  function CountBelow(ws: seq<int>, b: Bound): nat {
    if ws == [] then 0 else CountBelow(ws[1..], b) + if Below(ws[0], b) then 1 else 0
  }

  function CountWithin(ws: seq<int>, b: Bound): nat {
    if ws == [] then 0 else CountWithin(ws[1..], b) + if Within(ws[0], b) then 1 else 0
  }

  function LeastAt(ws: seq<int>): (k: nat)
    requires ws != []
    ensures k < |ws| && forall i :: 0 <= i < |ws| ==> ws[k] <= ws[i]
  {
    if |ws| == 1 then 0 else
      var k := LeastAt(ws[1..]) + 1;
      assert forall i :: 1 <= i < |ws| ==> ws[i] == ws[1..][i - 1];
      if ws[0] <= ws[k] then 0 else k
  }

  function Without(ws: seq<int>, k: nat): seq<int>
    requires k < |ws|
  {
    ws[..k] + ws[k + 1..]
  }

  /** What std::nth_element leaves at position `n`. */
  function Nth(ws: seq<int>, n: nat): int
    requires n < |ws|
    decreases n
  {
    var k := LeastAt(ws);
    if n == 0 then ws[k] else Nth(Without(ws, k), n - 1)
  }

  lemma {:induction false} CountWithout(ws: seq<int>, k: nat, b: Bound)
    requires k < |ws|
    ensures CountBelow(ws, b) == CountBelow(Without(ws, k), b) + if Below(ws[k], b) then 1 else 0
    ensures CountWithin(ws, b) == CountWithin(Without(ws, k), b) + if Within(ws[k], b) then 1 else 0
    decreases k
  {
    if k == 0 {
      assert Without(ws, 0) == ws[1..];
    } else {
      CountWithout(ws[1..], k - 1, b);
      assert Without(ws, k)[1..] == Without(ws[1..], k - 1);
    }
  }

  /** At most `n` elements lie strictly below the n-th and more than `n` lie at or below it. */
  lemma {:induction false} NthCounts(ws: seq<int>, n: nat)
    requires n < |ws|
    ensures Nth(ws, n) in ws
    ensures CountBelow(ws, Fin(Nth(ws, n))) <= n < CountWithin(ws, Fin(Nth(ws, n)))
    decreases n
  {
    var k := LeastAt(ws);
    var rest := Without(ws, k);
    CountWithout(ws, k, Fin(Nth(ws, n)));
    if n == 0 {
      NoneBelow(ws, ws[k]);
    } else {
      NthCounts(rest, n - 1);
      assert forall x :: x in rest ==> x in ws;
    }
  }

  lemma {:induction false} NoneBelow(ws: seq<int>, v: int)
    requires forall i :: 0 <= i < |ws| ==> v <= ws[i]
    ensures CountBelow(ws, Fin(v)) == 0
  {
    if ws != [] { NoneBelow(ws[1..], v); }
  }

  lemma {:induction false} CountMonotone(ws: seq<int>, a: Bound, b: Bound)
    requires b.Inf? || (a.Fin? && a.value <= b.value)
    ensures CountBelow(ws, a) <= CountBelow(ws, b) <= |ws|
    ensures CountWithin(ws, a) <= CountWithin(ws, b) <= |ws|
    ensures CountBelow(ws, b) <= CountWithin(ws, b)
  {
    if ws != [] { CountMonotone(ws[1..], a, b); }
  }

  lemma {:induction false} CountStrict(ws: seq<int>, a: int, b: int)
    requires a < b
    ensures CountWithin(ws, Fin(a)) <= CountBelow(ws, Fin(b))
  {
    if ws != [] { CountStrict(ws[1..], a, b); }
  }

  lemma {:induction false} CountAll(ws: seq<int>)
    ensures CountWithin(ws, Inf) == CountBelow(ws, Inf) == |ws|
  {
    if ws != [] { CountAll(ws[1..]); }
  }
}
