/** Triangular probing over a table whose size is a power of two: the probes of one hash visit
    every slot once before any slot comes again. */
module Probing {

  /** The sum of the first `p` probe steps. */
  function Triangle(p: nat): nat {
    if p == 0 then 0 else Triangle(p - 1) + p
  }

  /** The slot of probe `p`. */
  function Slot(h: nat, p: nat, c: nat): (i: nat)
    requires c > 0
    ensures i < c
  {
    (h + Triangle(p)) % c
  }

  predicate PowerOfTwo(c: nat) {
    c == 1 || (c > 0 && c % 2 == 0 && PowerOfTwo(c / 2))
  }

  lemma NextPower(c: nat)
    ensures PowerOfTwo(64)
    ensures PowerOfTwo(c) ==> PowerOfTwo(c * 2)
  {
    assert PowerOfTwo(4) && PowerOfTwo(16);
  }

  lemma {:induction false} TriangleDoubled(p: nat)
    ensures 2 * Triangle(p) == p * (p + 1)
  {
    if p > 0 {
      TriangleDoubled(p - 1);
    }
  }

  // ---------- Remainders ----------

  lemma Scale(c: int, d: int)
    requires c >= 0
    ensures d >= 1 ==> c * d >= c
    ensures d <= -1 ==> c * d <= -c
  {
    if d >= 1 {
      assert c * d == c * (d - 1) + c;
    } else if d <= -1 {
      assert c * d == -(c * (-1 - d)) - c;
    }
  }

  lemma DivisionIsUnique(x: int, c: nat, q: int, r: int)
    requires c > 0 && x == c * q + r && 0 <= r < c
    ensures x % c == r
  {
    assert c * (x / c - q) == r - x % c;
    Scale(c, x / c - q);
  }

  lemma RemainderOfSum(x: nat, y: nat, c: nat)
    requires c > 0
    ensures (x % c + y) % c == (x + y) % c
  {
    var z := x % c + y;
    assert x + y == c * (x / c + z / c) + z % c;
    DivisionIsUnique(x + y, c, x / c + z / c, z % c);
  }

  lemma FirstProbe(h: nat, c: nat)
    requires c > 0
    ensures h % c == Slot(h, 0, c)
  {
  }

  /** The code goes from one probe to the next by adding the number of the probe. */
  lemma NextProbe(h: nat, p: nat, c: nat)
    requires c > 0
    ensures (Slot(h, p, c) + (p + 1)) % c == Slot(h, p + 1, c)
  {
    RemainderOfSum(h + Triangle(p), p + 1, c);
  }

  // ---------- No slot twice ----------

  lemma {:induction false} OddFactorDropsOut(c: nat, a: nat, b: nat, m: int) returns (j: int)
    requires PowerOfTwo(c) && b % 2 == 1 && a * b == c * m
    ensures a == c * j
  {
    if c == 1 {
      j := a;
    } else {
      var half := c / 2;
      assert a * b == 2 * (half * m);
      EvenProduct(a, b, half * m);
      var a' := a / 2;
      assert 2 * (a' * b) == a * b;
      j := OddFactorDropsOut(half, a', b, m);
      assert a == 2 * (half * j) == c * j;
    }
  }

  lemma EvenProduct(a: nat, b: nat, k: int)
    requires b % 2 == 1 && a * b == 2 * k
    ensures a % 2 == 0
  {
    var b' := b / 2;
    assert a * b == 2 * (a * b') + a;
  }

  lemma SameRemainder(x: nat, y: nat, c: nat) returns (m: int)
    requires c > 0 && x % c == y % c
    ensures x - y == c * m
  {
    m := x / c - y / c;
  }

  lemma Factors(p: nat, q: nat, x: nat, y: nat, c: nat, m: int)
    requires q <= p && 2 * x == p * (p + 1) && 2 * y == q * (q + 1) && x - y == c * m
    ensures (p - q) * (p + q + 1) == (2 * c) * m
  {
    assert (p - q) * (p + q + 1) == p * (p + 1) - q * (q + 1);
    assert (2 * c) * m == 2 * (c * m);
  }

  lemma TriangleDifference(h: nat, p: nat, q: nat, c: nat) returns (m: int)
    requires c > 0 && Slot(h, p, c) == Slot(h, q, c)
    ensures Triangle(p) - Triangle(q) == c * m
  {
    m := SameRemainder(h + Triangle(p), h + Triangle(q), c);
  }

  /** Two of the first `c` probes never share a slot. */
  lemma ProbesAreDistinct(h: nat, p: nat, q: nat, c: nat)
    requires PowerOfTwo(c) && q <= p < c && Slot(h, p, c) == Slot(h, q, c)
    ensures p == q
  {
    hide Slot, Triangle;
    var m := TriangleDifference(h, p, q, c);
    TriangleDoubled(p);
    TriangleDoubled(q);
    Factors(p, q, Triangle(p), Triangle(q), c, m);
    SmallFactors(p - q, p + q + 1, 2 * c, m);
  }

  lemma SmallFactors(diff: nat, sum: nat, c: nat, m: int)
    requires PowerOfTwo(c) && diff < c && 0 < sum < c && diff % 2 != sum % 2 && diff * sum == c * m
    ensures diff == 0
  {
    if sum % 2 == 1 {
      var j := OddFactorDropsOut(c, diff, sum, m);
      Scale(c, j);
    } else {
      var j := OddFactorDropsOut(c, sum, diff, m);
      Scale(c, j);
    }
  }

  // ---------- Every slot ----------

  ghost function Visited(h: nat, n: nat, c: nat): set<nat>
    requires c > 0
  {
    set p | 0 <= p < n :: Slot(h, p, c)
  }

  lemma {:induction false} VisitedCount(h: nat, n: nat, c: nat)
    requires PowerOfTwo(c) && n <= c
    ensures |Visited(h, n, c)| == n
  {
    hide Slot;
    if n > 0 {
      VisitedCount(h, n - 1, c);
      assert Visited(h, n, c) == Visited(h, n - 1, c) + {Slot(h, n - 1, c)};
      if Slot(h, n - 1, c) in Visited(h, n - 1, c) {
        var q :| 0 <= q < n - 1 && Slot(h, q, c) == Slot(h, n - 1, c);
        ProbesAreDistinct(h, n - 1, q, c);
        assert false;
      }
    } else {
      assert Visited(h, 0, c) == {};
    }
  }

  ghost function Below(c: nat): (s: set<nat>)
    ensures forall i: nat :: i in s <==> i < c
    ensures |s| == c
  {
    if c == 0 then {} else Below(c - 1) + {c - 1}
  }

  lemma FullSubset(a: set<nat>, b: set<nat>)
    requires a <= b && |a| == |b|
    ensures a == b
  {
    assert b == a + (b - a);
    assert |b| == |a| + |b - a|;
  }

  /** Within the first `c` probes every slot is visited. */
  lemma ProbesReachEverySlot(h: nat, c: nat, i: nat)
    requires PowerOfTwo(c) && i < c
    ensures exists p: nat :: p < c && Slot(h, p, c) == i
  {
    VisitedCount(h, c, c);
    FullSubset(Visited(h, c, c), Below(c));
    assert i in Below(c);
  }
}
