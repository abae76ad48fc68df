/** Stable sorting by key, and what one pass of a counting sort does for it
    (3rdparty/rdestl/radix_sorter.h). */
module StableSort {

  /** The elements on which `f` is `v`, in order. */
  function Filter<T>(s: seq<T>, f: T -> nat, v: nat): seq<T> {
    if s == [] then []
    else Filter(s[..|s| - 1], f, v) + if f(s[|s| - 1]) == v then [s[|s| - 1]] else []
  }

  /** The elements on which `f` is below `v`, bucket after bucket. */
  function Buckets<T>(s: seq<T>, f: T -> nat, v: nat): seq<T> {
    if v == 0 then [] else Buckets(s, f, v - 1) + Filter(s, f, v - 1)
  }

  predicate SortedBy<T>(s: seq<T>, f: T -> nat) {
    forall i, j :: 0 <= i < j < |s| ==> f(s[i]) <= f(s[j])
  }

  /** The same elements, those of equal key in the same order. */
  ghost predicate Stable<T>(s: seq<T>, t: seq<T>, f: T -> nat) {
    forall v: nat :: Filter(s, f, v) == Filter(t, f, v)
  }

  // ---------- Filters ----------

  lemma {:induction false} FilterHolds<T>(s: seq<T>, f: T -> nat, v: nat)
    ensures forall i :: 0 <= i < |Filter(s, f, v)| ==> f(Filter(s, f, v)[i]) == v
  {
    if s != [] {
      FilterHolds(s[..|s| - 1], f, v);
    }
  }

  lemma {:induction false} FilterJoins<T>(a: seq<T>, b: seq<T>, f: T -> nat, v: nat)
    ensures Filter(a + b, f, v) == Filter(a, f, v) + Filter(b, f, v)
  {
    if b == [] {
      assert a + b == a;
    } else {
      var last := |b| - 1;
      assert (a + b)[..|a + b| - 1] == a + b[..last];
      FilterJoins(a, b[..last], f, v);
      assert Filter(a, f, v) + (Filter(b[..last], f, v) + (if f(b[last]) == v then [b[last]] else []))
          == Filter(a, f, v) + Filter(b[..last], f, v) + (if f(b[last]) == v then [b[last]] else []);
    }
  }

  /** A filter finds nothing where another value rules. */
  lemma {:induction false} FilterNothing<T>(s: seq<T>, f: T -> nat, v: nat)
    requires forall i :: 0 <= i < |s| ==> f(s[i]) != v
    ensures Filter(s, f, v) == []
  {
    if s != [] {
      FilterNothing(s[..|s| - 1], f, v);
    }
  }

  /** Filtering by a finer value alone, or by a coarser one first, gives the same. */
  lemma {:induction false} FilterTwice<T>(s: seq<T>, f: T -> nat, v: nat, g: T -> nat, w: nat)
    requires forall x :: x in s && g(x) == w ==> f(x) == v
    ensures Filter(Filter(s, f, v), g, w) == Filter(s, g, w)
  {
    if s != [] {
      var init, x := s[..|s| - 1], s[|s| - 1];
      assert forall y :: y in init ==> y in s;
      FilterTwice(init, f, v, g, w);
      FilterJoins(Filter(init, f, v), if f(x) == v then [x] else [], g, w);
      assert [x][..0] == [];
      assert x in s;
    }
  }

  lemma {:induction false} FilterShort<T>(s: seq<T>, f: T -> nat, v: nat)
    ensures |Filter(s, f, v)| <= |s|
    ensures |Filter(s, f, v)| == |s| ==> Filter(s, f, v) == s && forall i :: 0 <= i < |s| ==> f(s[i]) == v
  {
    if s != [] {
      FilterShort(s[..|s| - 1], f, v);
      assert s == s[..|s| - 1] + [s[|s| - 1]];
    }
  }

  lemma {:induction false} FilterSorted<T>(s: seq<T>, f: T -> nat, v: nat, g: T -> nat)
    requires SortedBy(s, g)
    ensures SortedBy(Filter(s, f, v), g)
    ensures forall x :: x in Filter(s, f, v) ==> x in s
  {
    if s != [] {
      var init, last := s[..|s| - 1], s[|s| - 1];
      FilterSorted(init, f, v, g);
      var t := Filter(init, f, v);
      forall i | 0 <= i < |t| ensures g(t[i]) <= g(last) {
        assert t[i] in init;
        var j :| 0 <= j < |init| && init[j] == t[i];
        assert s[j] == t[i];
      }
    }
  }

  // ---------- Buckets ----------

  lemma {:induction false} BucketsHold<T>(s: seq<T>, f: T -> nat, v: nat)
    ensures forall i :: 0 <= i < |Buckets(s, f, v)| ==> f(Buckets(s, f, v)[i]) < v
  {
    if v > 0 {
      BucketsHold(s, f, v - 1);
      FilterHolds(s, f, v - 1);
    }
  }

  /** The buckets keep, of every finer value, the same elements in the same order. */
  lemma {:induction false} BucketsStable<T>(s: seq<T>, f: T -> nat, n: nat, g: T -> nat, w: nat, v: nat)
    requires forall x :: x in s && g(x) == w ==> f(x) == v
    ensures Filter(Buckets(s, f, n), g, w) == if v < n then Filter(s, g, w) else []
  {
    hide Filter, Buckets;
    BucketsStep(s, f, n);
    if n == 0 {
      FilterNothing([], g, w);
    } else {
      BucketsStable(s, f, n - 1, g, w, v);
      FilterJoins(Buckets(s, f, n - 1), Filter(s, f, n - 1), g, w);
      if v == n - 1 {
        FilterTwice(s, f, v, g, w);
      } else {
        OtherBucket(s, f, n - 1, g, w, v);
      }
    }
  }

  lemma BucketsStep<T>(s: seq<T>, f: T -> nat, n: nat)
    ensures Buckets(s, f, n) == if n == 0 then [] else Buckets(s, f, n - 1) + Filter(s, f, n - 1)
  {
  }

  lemma {:induction false} OtherBucket<T>(s: seq<T>, f: T -> nat, u: nat, g: T -> nat, w: nat, v: nat)
    requires u != v && forall x :: x in s && g(x) == w ==> f(x) == v
    ensures Filter(Filter(s, f, u), g, w) == []
  {
    if s != [] {
      var init, x := s[..|s| - 1], s[|s| - 1];
      assert forall y :: y in init ==> y in s;
      OtherBucket(init, f, u, g, w, v);
      FilterJoins(Filter(init, f, u), if f(x) == u then [x] else [], g, w);
      assert [x][..0] == [];
      assert x in s;
    }
  }

  /** Buckets of a sequence sorted by the low part of a value are sorted by the whole value. */
  lemma {:induction false} BucketsSorted<T>(s: seq<T>, f: T -> nat, n: nat, low: T -> nat, whole: T -> nat)
    requires SortedBy(s, low)
    requires forall x, y :: x in s && y in s && f(x) < f(y) ==> whole(x) <= whole(y)
    requires forall x, y :: x in s && y in s && f(x) == f(y) && low(x) <= low(y) ==> whole(x) <= whole(y)
    ensures SortedBy(Buckets(s, f, n), whole)
    ensures forall x :: x in Buckets(s, f, n) ==> x in s
  {
    if n > 0 {
      BucketsSorted(s, f, n - 1, low, whole);
      FilterSorted(s, f, n - 1, low);
      FilterHolds(s, f, n - 1);
      BucketsHold(s, f, n - 1);
      var b, t := Buckets(s, f, n - 1), Filter(s, f, n - 1);
      forall i, j | 0 <= i < j < |b + t| ensures whole((b + t)[i]) <= whole((b + t)[j]) {
        if i < |b| {
          assert (b + t)[i] == b[i] && b[i] in s;
          if j >= |b| {
            assert (b + t)[j] == t[j - |b|] && t[j - |b|] in s;
          }
        } else {
          assert (b + t)[i] == t[i - |b|] && (b + t)[j] == t[j - |b|] && t[i - |b|] in s && t[j - |b|] in s;
        }
      }
    }
  }

  /** If `f` is below `n` everywhere, the buckets hold every element. */
  lemma {:induction false} BucketsLength<T>(s: seq<T>, f: T -> nat, n: nat)
    requires forall i :: 0 <= i < |s| ==> f(s[i]) < n
    ensures |Buckets(s, f, n)| == |s|
  {
    if s == [] {
      EmptyBuckets(f, n);
    } else {
      BucketsLength(s[..|s| - 1], f, n);
      OneMore(s, f, n);
    }
  }

  lemma {:induction false} EmptyBuckets<T>(f: T -> nat, n: nat)
    ensures Buckets([], f, n) == []
  {
    if n > 0 {
      EmptyBuckets(f, n - 1);
    }
  }

  lemma {:induction false} OneMore<T>(s: seq<T>, f: T -> nat, n: nat)
    requires s != []
    ensures |Buckets(s, f, n)| == |Buckets(s[..|s| - 1], f, n)| + if f(s[|s| - 1]) < n then 1 else 0
  {
    if n > 0 {
      OneMore(s, f, n - 1);
    }
  }

  // ---------- A stable sort is unique ----------

  lemma {:induction false} FilterFirst<T>(s: seq<T>, f: T -> nat, v: nat)
    requires s != []
    ensures Filter(s, f, v) == (if f(s[0]) == v then [s[0]] else []) + Filter(s[1..], f, v)
  {
    FilterJoins([s[0]], s[1..], f, v);
    assert [s[0]] + s[1..] == s && [s[0]][..0] == [];
  }

  /** Of the arrangements that are sorted and keep equal keys in order, there is only one. */
  lemma {:induction false} StableSortIsUnique<T>(a: seq<T>, b: seq<T>, f: T -> nat)
    requires SortedBy(a, f) && SortedBy(b, f) && Stable(a, b, f)
    ensures a == b
  {
    if a == [] {
      if b != [] {
        HeadsAgree(b, a, f);
      }
    } else {
      HeadsAgree(a, b, f);
      forall v: nat ensures Filter(a[1..], f, v) == Filter(b[1..], f, v) {
        FilterFirst(a, f, v);
        FilterFirst(b, f, v);
        assert Filter(a, f, v) == Filter(b, f, v);
        Cancel(if f(a[0]) == v then [a[0]] else [], Filter(a[1..], f, v), Filter(b[1..], f, v));
      }
      StableSortIsUnique(a[1..], b[1..], f);
      assert a == [a[0]] + a[1..] && b == [b[0]] + b[1..];
    }
  }

  lemma Cancel<T>(p: seq<T>, x: seq<T>, y: seq<T>)
    requires p + x == p + y
    ensures x == y
  {
    assert x == (p + x)[|p|..] && y == (p + y)[|p|..];
  }

  lemma HeadsAgree<T>(a: seq<T>, b: seq<T>, f: T -> nat)
    requires SortedBy(a, f) && SortedBy(b, f) && Stable(a, b, f) && a != []
    ensures b != [] && a[0] == b[0]
  {
    FilterFirst(a, f, f(a[0]));
    assert Filter(b, f, f(a[0])) == Filter(a, f, f(a[0])) != [];
    FilterFirst(b, f, f(b[0]));
    assert Filter(a, f, f(b[0])) == Filter(b, f, f(b[0])) != [];
    SameLeast(a, b, f);
    SameLeast(b, a, f);
    FilterFirst(b, f, f(a[0]));
    assert a[0] == Filter(a, f, f(a[0]))[0] && b[0] == Filter(b, f, f(a[0]))[0];
  }

  lemma SameLeast<T>(a: seq<T>, b: seq<T>, f: T -> nat)
    requires a != [] && b != [] && SortedBy(a, f) && Filter(a, f, f(b[0])) != []
    ensures f(a[0]) <= f(b[0])
  {
    FilterHolds(a, f, f(b[0]));
    FilterSorted(a, f, f(b[0]), f);
    var x := Filter(a, f, f(b[0]))[0];
    assert x in a;
  }

  /** A stable arrangement is a permutation. */
  lemma StablePermutes<T>(a: seq<T>, b: seq<T>, f: T -> nat)
    requires Stable(a, b, f)
    ensures multiset(a) == multiset(b)
  {
    forall x | true ensures multiset(a)[x] == multiset(b)[x] {
      FilterCounts(a, f, x);
      FilterCounts(b, f, x);
      assert Filter(a, f, f(x)) == Filter(b, f, f(x));
    }
  }

  lemma {:induction false} FilterCounts<T>(s: seq<T>, f: T -> nat, x: T)
    ensures multiset(Filter(s, f, f(x)))[x] == multiset(s)[x]
  {
    if s != [] {
      FilterCounts(s[..|s| - 1], f, x);
      assert s == s[..|s| - 1] + [s[|s| - 1]];
    }
  }

  // ---------- Where the buckets lie ----------

  lemma {:induction false} FilterGrows<T>(s: seq<T>, f: T -> nat, v: nat, i: nat)
    requires i <= |s|
    ensures |Filter(s[..i], f, v)| <= |Filter(s, f, v)|
    decreases |s| - i
  {
    if i == |s| {
      assert s[..i] == s;
    } else {
      assert s[..i + 1][..i] == s[..i];
      FilterGrows(s, f, v, i + 1);
    }
  }

  lemma {:induction false} BucketsGrow<T>(s: seq<T>, f: T -> nat, v: nat, w: nat)
    requires v <= w
    ensures |Buckets(s, f, v)| <= |Buckets(s, f, w)|
  {
    if v < w {
      BucketsGrow(s, f, v, w - 1);
    }
  }

  /** The first `i` elements are in their buckets, and `offs` says where each bucket goes on. */
  ghost predicate Placed<T>(s: seq<T>, f: T -> nat, n: nat, i: nat, offs: seq<nat>, out: seq<T>)
    requires i <= |s|
  {
    && |offs| == n && |s| <= |out|
    && forall v: nat :: v < n ==> BucketPlaced(s, f, i, v, offs[v], out)
  }

  ghost predicate BucketPlaced<T>(s: seq<T>, f: T -> nat, i: nat, v: nat, end: nat, out: seq<T>)
    requires i <= |s|
  {
    var start := |Buckets(s, f, v)|;
    end == start + |Filter(s[..i], f, v)| && end <= |out| && out[start..end] == Filter(s[..i], f, v)
  }

  lemma PlacedBounds<T>(s: seq<T>, f: T -> nat, n: nat, i: nat, v: nat)
    requires v < n && i <= |s| && forall j :: 0 <= j < |s| ==> f(s[j]) < n
    ensures |Buckets(s, f, v)| + |Filter(s[..i], f, v)| <= |Buckets(s, f, v + 1)| <= |s|
  {
    hide Filter, Buckets;
    BucketsStep(s, f, v + 1);
    FilterGrows(s, f, v, i);
    BucketsGrow(s, f, v + 1, n);
    BucketsLength(s, f, n);
  }

  /** The next element goes to the end of its bucket, and disturbs no other. */
  lemma PlaceNext<T>(s: seq<T>, f: T -> nat, n: nat, i: nat, offs: seq<nat>, out: seq<T>)
    requires i < |s| && Placed(s, f, n, i, offs, out) && forall j :: 0 <= j < |s| ==> f(s[j]) < n
    ensures var v := f(s[i]);
            && offs[v] < |s|
            && Placed(s, f, n, i + 1, offs[v := offs[v] + 1], out[offs[v] := s[i]])
  {
    hide Filter, Buckets;
    var v := f(s[i]);
    assert BucketPlaced(s, f, i, v, offs[v], out);
    FilterNext(s, f, v, i);
    PlacedBounds(s, f, n, i + 1, v);
    var out' := out[offs[v] := s[i]];
    forall w: nat | w < n ensures BucketPlaced(s, f, i + 1, w, if w == v then offs[v] + 1 else offs[w], out') {
      assert BucketPlaced(s, f, i, w, offs[w], out);
      FilterNext(s, f, w, i);
      var start := |Buckets(s, f, w)|;
      if w == v {
        assert out'[start..offs[v] + 1] == out[start..offs[v]] + [s[i]];
      } else {
        PlacedBounds(s, f, n, i, w);
        if w < v {
          BucketsGrow(s, f, w + 1, v);
        } else {
          BucketsGrow(s, f, v + 1, w);
        }
        assert out'[start..offs[w]] == out[start..offs[w]];
      }
    }
  }

  lemma FilterNext<T>(s: seq<T>, f: T -> nat, v: nat, i: nat)
    requires i < |s|
    ensures Filter(s[..i + 1], f, v) == Filter(s[..i], f, v) + if f(s[i]) == v then [s[i]] else []
  {
    assert s[..i + 1][..i] == s[..i];
  }

  /** Once all are placed, the buckets lie one behind the other. */
  lemma {:induction false} PlacedAll<T>(s: seq<T>, f: T -> nat, n: nat, offs: seq<nat>, out: seq<T>, v: nat)
    requires Placed(s, f, n, |s|, offs, out) && v <= n && forall j :: 0 <= j < |s| ==> f(s[j]) < n
    ensures |Buckets(s, f, v)| <= |out| && out[..|Buckets(s, f, v)|] == Buckets(s, f, v)
  {
    if v > 0 {
      PlacedAll(s, f, n, offs, out, v - 1);
      assert BucketPlaced(s, f, |s|, v - 1, offs[v - 1], out);
      assert s[..|s|] == s;
      var start, end := |Buckets(s, f, v - 1)|, offs[v - 1];
      assert out[..end] == out[..start] + out[start..end];
    }
  }

  /** How many elements have a value depends on the multiset alone. */
  lemma {:induction false} CountsAgree<T>(a: seq<T>, b: seq<T>, f: T -> nat, v: nat)
    requires multiset(a) == multiset(b)
    ensures |Filter(a, f, v)| == |Filter(b, f, v)|
  {
    if a == [] {
      assert |b| == |multiset(b)| == |multiset(a)| == 0;
    } else {
      var init, x := a[..|a| - 1], a[|a| - 1];
      assert a == init + [x];
      var p, q := Extract(b, x, init);
      CountsAgree(init, p + q, f, v);
      FilterJoins(p + [x], q, f, v);
      FilterJoins(p, [x], f, v);
      FilterJoins(p, q, f, v);
      assert [x][..0] == [];
      FilterJoins(init, [x], f, v);
    }
  }

  lemma Extract<T>(b: seq<T>, x: T, rest: seq<T>) returns (p: seq<T>, q: seq<T>)
    requires multiset(rest + [x]) == multiset(b)
    ensures b == p + [x] + q && multiset(rest) == multiset(p + q)
  {
    assert multiset(rest + [x]) == multiset(rest) + multiset{x};
    assert x in multiset(b);
    var j :| 0 <= j < |b| && b[j] == x;
    p, q := b[..j], b[j + 1..];
    assert b == p + [x] + q;
    assert multiset(b) == multiset(p) + multiset{x} + multiset(q);
    assert multiset(p + q) == multiset(p) + multiset(q);
    assert multiset(rest) == multiset(b) - multiset{x};
  }

  lemma {:induction false} BucketCountsAgree<T>(a: seq<T>, b: seq<T>, f: T -> nat, v: nat)
    requires multiset(a) == multiset(b)
    ensures |Buckets(a, f, v)| == |Buckets(b, f, v)|
  {
    hide Filter, Buckets;
    BucketsStep(a, f, v);
    BucketsStep(b, f, v);
    if v > 0 {
      BucketCountsAgree(a, b, f, v - 1);
      CountsAgree(a, b, f, v - 1);
    }
  }
}
