/** Hoare's quicksort and heapsort over an array, by any strict weak order (3rdparty/rdestl/sort.h). */
module Sorting {

  /** Not both ways, and whatever lies between two elements is apart from one of them. */
  ghost predicate StrictWeak<T(!new)>(pred: (T, T) -> bool) {
    && (forall x, y :: pred(x, y) ==> !pred(y, x))
    && (forall x, y, z :: pred(x, z) ==> pred(x, y) || pred(y, z))
  }

  lemma NotGreater<T(!new)>(pred: (T, T) -> bool, x: T, y: T, z: T)
    requires StrictWeak(pred) && !pred(y, x) && !pred(z, y)
    ensures !pred(z, x)
  {
  }

  /** No element is less than one that comes before it. */
  ghost predicate Sorted<T(!new)>(pred: (T, T) -> bool, s: seq<T>) {
    forall k, l :: 0 <= k < l < |s| ==> !pred(s[l], s[k])
  }

  // ---------- Permuting a range ----------

  /** `t` has the elements of `s` from `lo` to `hi` in another order and the others in place. */
  ghost predicate Permuted<T>(s: seq<T>, t: seq<T>, lo: nat, hi: nat) {
    && lo <= hi <= |s| == |t| && s[..lo] == t[..lo] && s[hi..] == t[hi..]
    && multiset(s[lo..hi]) == multiset(t[lo..hi])
  }

  lemma PermutedTrans<T>(s: seq<T>, t: seq<T>, u: seq<T>, lo: nat, hi: nat)
    requires Permuted(s, t, lo, hi) && Permuted(t, u, lo, hi)
    ensures Permuted(s, u, lo, hi)
  {
  }

  lemma PermutedWiden<T>(s: seq<T>, t: seq<T>, lo: nat, hi: nat, lo': nat, hi': nat)
    requires Permuted(s, t, lo, hi) && lo' <= lo && hi <= hi' <= |s|
    ensures Permuted(s, t, lo', hi')
  {
    assert s[lo'..hi'] == s[..lo][lo'..] + s[lo..hi] + s[hi..][..hi' - hi];
    assert t[lo'..hi'] == t[..lo][lo'..] + t[lo..hi] + t[hi..][..hi' - hi];
    assert s[..lo'] == s[..lo][..lo'] && t[..lo'] == t[..lo][..lo'];
    assert s[hi'..] == s[hi..][hi' - hi..] && t[hi'..] == t[hi..][hi' - hi..];
  }

  lemma SwapPermutes<T>(s: seq<T>, i: nat, j: nat, lo: nat, hi: nat)
    requires lo <= i < hi <= |s| && lo <= j < hi
    ensures Permuted(s, s[i := s[j]][j := s[i]], lo, hi)
  {
    var t := s[i := s[j]][j := s[i]];
    assert t[lo..hi] == s[lo..hi][i - lo := s[j]][j - lo := s[i]];
  }

  /** What all elements of the range have in common they keep. */
  lemma PermutedKeeps<T>(s: seq<T>, t: seq<T>, lo: nat, hi: nat, p: T -> bool)
    requires Permuted(s, t, lo, hi) && forall k :: lo <= k < hi ==> p(s[k])
    ensures forall k :: lo <= k < hi ==> p(t[k])
  {
    forall k | lo <= k < hi ensures p(t[k]) {
      assert t[lo..hi][k - lo] in multiset(t[lo..hi]);
      assert t[k] in s[lo..hi];
    }
  }

  lemma PermutedElsewhere<T>(s: seq<T>, t: seq<T>, lo: nat, hi: nat, k: nat)
    requires Permuted(s, t, lo, hi) && k < |s| && (k < lo || hi <= k)
    ensures s[k] == t[k]
  {
    if k < lo {
      assert s[..lo][k] == t[..lo][k];
    } else {
      assert s[hi..][k - hi] == t[hi..][k - hi];
    }
  }

  // ---------- Quicksort ----------

  /** Exchanges two elements of a range. */
  method Swap<T>(a: array<T>, i: nat, j: nat, ghost s: seq<T>, ghost lo: nat, ghost hi: nat)
    requires lo <= i <= j < hi <= a.Length && Permuted(s, a[..], lo, hi)
    modifies a
    ensures Permuted(s, a[..], lo, hi)
    ensures a[i] == old(a[j]) && a[j] == old(a[i])
            && forall k :: 0 <= k < a.Length && k != i && k != j ==> a[k] == old(a[k])
  {
    ghost var t := a[..];
    if i != j {
      var tmp := a[i];
      a[i] := a[j];
      a[j] := tmp;
    }
    SwapPermutes(t, i, j, lo, hi);
    assert a[..] == t[i := t[j]][j := t[i]];
    PermutedTrans(s, t, a[..], lo, hi);
  }

  /** Skips what may stay on the left; an element further right stops it. */
  method SkipLess<T(!new)>(a: array<T>, i0: nat, pivot: T, pred: (T, T) -> bool, ghost stop: nat) returns (i: nat)
    requires StrictWeak(pred) && i0 <= stop < a.Length && !pred(a[stop], pivot)
    ensures i0 <= i <= stop && !pred(a[i], pivot) && forall k :: i0 <= k < i ==> !pred(pivot, a[k])
  {
    i := i0;
    while pred(a[i], pivot)
      invariant i0 <= i <= stop && forall k :: i0 <= k < i ==> !pred(pivot, a[k])
      decreases stop - i
    {
      i := i + 1;
    }
  }

  /** Skips what may stay on the right; an element further left stops it. */
  method SkipGreater<T(!new)>(a: array<T>, j0: nat, pivot: T, pred: (T, T) -> bool, ghost stop: nat) returns (j: nat)
    requires StrictWeak(pred) && stop <= j0 < a.Length && !pred(pivot, a[stop])
    ensures stop <= j <= j0 && !pred(pivot, a[j]) && forall k :: j < k <= j0 ==> !pred(a[k], pivot)
  {
    j := j0;
    while pred(pivot, a[j])
      invariant stop <= j <= j0 && forall k :: j < k <= j0 ==> !pred(a[k], pivot)
      decreases j - stop
    {
      j := j - 1;
    }
  }

  /** Before `i` nothing is greater than the pivot, behind `j` nothing is less. */
  ghost predicate Parted<T(!new)>(pred: (T, T) -> bool, s: seq<T>, pivot: T, low: nat, i: nat, j: int, high: nat) {
    && low <= i && j <= high < |s| && i <= |s| && -1 <= j
    && (forall k :: low <= k < i ==> !pred(pivot, s[k]))
    && (forall k :: j < k <= high ==> !pred(s[k], pivot))
  }

  /** Two elements that stop the scans. */
  ghost predicate Stops<T(!new)>(pred: (T, T) -> bool, s: seq<T>, pivot: T, low: nat, i: nat, j: int, high: nat,
                                 left: nat, right: nat) {
    && low <= left <= j <= high < |s| && low <= i <= right <= high
    && !pred(s[right], pivot) && !pred(pivot, s[left])
    && if i == low && j == high then left == right < high else low < i && j < high
  }

  /** Scans from both sides and exchanges the two elements that stop the scans. */
  method PartitionStep<T(!new)>(a: array<T>, ghost low: nat, ghost high: nat, i0: nat, j0: nat, pivot: T,
                                pred: (T, T) -> bool, ghost left0: nat, ghost right0: nat)
    returns (i: nat, j: int, ghost left: nat, ghost right: nat)
    requires StrictWeak(pred) && low < high < a.Length && i0 <= j0
    requires Parted(pred, a[..], pivot, low, i0, j0, high)
             && Stops(pred, a[..], pivot, low, i0, j0, high, left0, right0)
    modifies a
    ensures Permuted(old(a[..]), a[..], low, high + 1) && Parted(pred, a[..], pivot, low, i, j, high)
    ensures low < i <= high && low - 1 <= j < high
            && (i <= j ==> Stops(pred, a[..], pivot, low, i, j, high, left, right) && j - i < j0 - i0)
  {
    hide Permuted, StrictWeak;
    ghost var s := a[..];
    PermutedSame(s, low, high + 1);
    left, right := left0, right0;
    i := SkipLess(a, i0, pivot, pred, right);
    j := SkipGreater(a, j0, pivot, pred, left);
    if j >= i {
      Swap(a, i, j, s, low, high + 1);
      left, right := i, j;
      i := i + 1;
      j := j - 1;
    }
  }

  /** Splits a range: before `i` nothing is greater than the pivot, behind `j` nothing is less. Neither
      scan tests for the end of the range. */
  method Partition<T(!new)>(a: array<T>, low: nat, high: nat, pred: (T, T) -> bool) returns (i: nat, j: int, pivot: T)
    requires StrictWeak(pred) && low < high < a.Length
    modifies a
    ensures low < i <= high && low - 1 <= j < high && j < i
    ensures Permuted(old(a[..]), a[..], low, high + 1)
    ensures forall k :: low <= k < i ==> !pred(pivot, a[k])
    ensures forall k :: j < k <= high ==> !pred(a[k], pivot)
  {
    hide Permuted, StrictWeak, Stops;
    i, j := low, high;
    pivot := a[(low + high) / 2];
    ghost var was := a[..];
    PivotStops(pred, was, low, high);
    PermutedSame(was, low, high + 1);
    ghost var left: nat, right: nat := (low + high) / 2, (low + high) / 2;
    while i <= j
      invariant Permuted(was, a[..], low, high + 1) && Parted(pred, a[..], pivot, low, i, j, high)
      invariant i <= j ==> Stops(pred, a[..], pivot, low, i, j, high, left, right)
      invariant i > j ==> low < i <= high && low - 1 <= j < high
      decreases j - i
    {
      ghost var s := a[..];
      i, j, left, right := PartitionStep(a, low, high, i, j, pivot, pred, left, right);
      PermutedTrans(was, s, a[..], low, high + 1);
    }
  }

  lemma PivotStops<T(!new)>(pred: (T, T) -> bool, s: seq<T>, low: nat, high: nat)
    requires StrictWeak(pred) && low < high < |s|
    ensures var mid := (low + high) / 2; Stops(pred, s, s[mid], low, low, high, high, mid, mid)
  {
  }

  lemma PermutedSame<T>(s: seq<T>, lo: nat, hi: nat)
    requires lo <= hi <= |s|
    ensures Permuted(s, s, lo, hi)
  {
  }

  /** Nothing before `mid` is greater than anything behind it in the range. */
  ghost predicate SortedUpTo<T(!new)>(pred: (T, T) -> bool, s: seq<T>, lo: nat, mid: nat, hi: nat) {
    lo <= mid <= hi <= |s| && forall k, l :: lo <= k < mid && k < l < hi ==> !pred(s[l], s[k])
  }

  lemma RestPermuted<T(!new)>(pred: (T, T) -> bool, s: seq<T>, t: seq<T>, lo: nat, mid: nat, hi: nat)
    requires SortedUpTo(pred, s, lo, mid, hi) && Permuted(s, t, mid, hi)
    ensures SortedUpTo(pred, t, lo, mid, hi)
  {
    forall k, l | lo <= k < mid && k < l < hi ensures !pred(t[l], t[k]) {
      PermutedElsewhere(s, t, mid, hi, k);
      if l < mid {
        PermutedElsewhere(s, t, mid, hi, l);
      } else {
        PermutedKeeps(s, t, mid, hi, x => !pred(x, s[k]));
      }
    }
  }

  /** The left part, sorted, goes on from what was sorted before it, and the part around the pivot follows. */
  lemma LeftSorted<T(!new)>(pred: (T, T) -> bool, s: seq<T>, t: seq<T>, lo: nat, low: nat, j: int, i: nat,
                            hi: nat, pivot: T)
    requires StrictWeak(pred) && SortedUpTo(pred, s, lo, low, hi) && low < i < hi && low - 1 <= j < i
    requires Permuted(s, t, low, j + 1) && SortedUpTo(pred, t, low, j + 1, j + 1)
    requires forall k :: low <= k < i ==> !pred(pivot, s[k])
    requires forall k :: j < k < hi ==> !pred(s[k], pivot)
    ensures SortedUpTo(pred, t, lo, i, hi)
  {
    PermutedKeeps(s, t, low, j + 1, x => !pred(pivot, x));
    PermutedWiden(s, t, low, j + 1, low, hi);
    RestPermuted(pred, s, t, lo, low, hi);
    hide Permuted;
    forall k, l | low <= k < i && k < l < hi ensures !pred(t[l], t[k]) {
      if l > j {
        PermutedElsewhere(s, t, low, j + 1, l);
        if k > j {
          PermutedElsewhere(s, t, low, j + 1, k);
        }
        NotGreater(pred, t[k], pivot, t[l]);
      }
    }
  }

  method QuickSortRange<T(!new)>(a: array<T>, low0: nat, high: nat, pred: (T, T) -> bool)
    requires StrictWeak(pred) && low0 < high < a.Length
    modifies a
    ensures Permuted(old(a[..]), a[..], low0, high + 1) && SortedUpTo(pred, a[..], low0, high + 1, high + 1)
    decreases high - low0
  {
    hide Permuted, SortedUpTo, StrictWeak;
    ghost var was := a[..];
    var low := low0;
    PermutedSame(was, low0, high + 1);
    NothingSorted(pred, was, low0, high + 1);
    while true
      invariant low0 <= low < high && Permuted(was, a[..], low0, high + 1)
                && SortedUpTo(pred, a[..], low0, low, high + 1)
      decreases high - low
    {
      ghost var s := a[..];
      var i, j, pivot := Partition(a, low, high, pred);
      ghost var t := a[..];
      RestPermuted(pred, s, t, low0, low, high + 1);
      SortLeft(a, low, j, pred);
      LeftSorted(pred, t, a[..], low0, low, j, i, high + 1, pivot);
      Compose(was, s, t, a[..], low0, low, j + 1, high + 1);
      if i < high {
        low := i;
      } else {
        OneLeft(pred, a[..], low0, high);
        break;
      }
    }
  }

  method SortLeft<T(!new)>(a: array<T>, low: nat, j: int, pred: (T, T) -> bool)
    requires StrictWeak(pred) && low - 1 <= j < a.Length
    modifies a
    ensures Permuted(old(a[..]), a[..], low, j + 1) && SortedUpTo(pred, a[..], low, j + 1, j + 1)
    decreases j - low + 1, 1
  {
    if low < j {
      QuickSortRange(a, low, j, pred);
    }
  }

  lemma NothingSorted<T(!new)>(pred: (T, T) -> bool, s: seq<T>, lo: nat, hi: nat)
    requires lo <= hi <= |s|
    ensures SortedUpTo(pred, s, lo, lo, hi)
  {
  }

  lemma OneLeft<T(!new)>(pred: (T, T) -> bool, s: seq<T>, lo: nat, high: nat)
    requires SortedUpTo(pred, s, lo, high, high + 1)
    ensures SortedUpTo(pred, s, lo, high + 1, high + 1)
  {
  }

  lemma Compose<T>(was: seq<T>, s: seq<T>, t: seq<T>, u: seq<T>, lo: nat, low: nat, mid: nat, hi: nat)
    requires Permuted(was, s, lo, hi) && Permuted(s, t, low, hi) && Permuted(t, u, low, mid) && lo <= low && mid <= hi
    ensures Permuted(was, u, lo, hi)
  {
    hide Permuted;
    LengthKept(t, u, low, mid);
    LengthKept(s, t, low, hi);
    PermutedWiden(s, t, low, hi, lo, hi);
    PermutedWiden(t, u, low, mid, lo, hi);
    PermutedTrans(was, s, t, lo, hi);
    PermutedTrans(was, t, u, lo, hi);
  }

  lemma LengthKept<T>(s: seq<T>, t: seq<T>, lo: nat, hi: nat)
    requires Permuted(s, t, lo, hi)
    ensures lo <= hi <= |s| == |t|
  {
  }

  /** Sorts the whole array. */
  method QuickSort<T(!new)>(a: array<T>, pred: (T, T) -> bool)
    requires StrictWeak(pred)
    modifies a
    ensures Sorted(pred, a[..]) && multiset(a[..]) == multiset(old(a[..]))
  {
    if a.Length > 1 {
      QuickSortRange(a, 0, a.Length - 1, pred);
      assert a[..][0..a.Length] == a[..] && old(a[..])[0..a.Length] == old(a[..]);
    }
  }

  // ---------- Heapsort ----------

  /** Among the first `n` elements, counted from 1, no child of an element from `from` on is greater than it. */
  ghost predicate Heap<T(!new)>(pred: (T, T) -> bool, s: seq<T>, from: nat, n: nat) {
    n <= |s| && forall c :: 2 <= c <= n && from <= c / 2 ==> !pred(s[c / 2 - 1], s[c - 1])
  }

  /** The same but for the children of `hole`, which are not greater than what is above it. */
  ghost predicate HeapAround<T(!new)>(pred: (T, T) -> bool, s: seq<T>, from: nat, n: nat, hole: nat) {
    && n <= |s|
    && (forall c :: 2 <= c <= n && from <= c / 2 && c / 2 != hole ==> !pred(s[c / 2 - 1], s[c - 1]))
    && (forall c :: 2 <= c <= n && c / 2 == hole && from <= hole / 2 && hole >= 2 ==> !pred(s[hole / 2 - 1], s[c - 1]))
  }

  ghost predicate IsGreaterChild<T(!new)>(pred: (T, T) -> bool, s: seq<T>, n: nat, k: nat, child: nat) {
    && 1 <= k && child / 2 == k && child <= n <= |s|
    && forall c :: c / 2 == k && 2 <= c <= n ==> !pred(s[child - 1], s[c - 1])
  }

  /** The greater child, if greater than the element, changes places with it. */
  lemma SiftStep<T(!new)>(pred: (T, T) -> bool, s: seq<T>, t: seq<T>, k0: nat, n: nat, k: nat, child: nat)
    requires StrictWeak(pred) && 1 <= k0 <= k && HeapAround(pred, s, k0, n, k) && IsGreaterChild(pred, s, n, k, child)
    requires pred(s[k - 1], s[child - 1]) && t == s[k - 1 := s[child - 1]][child - 1 := s[k - 1]]
    ensures HeapAround(pred, t, k0, n, child)
  {
    hide StrictWeak;
    NotBothWays(pred, s[k - 1], s[child - 1]);
    forall c | 2 <= c <= n && k0 <= c / 2 && c / 2 != child ensures !pred(t[c / 2 - 1], t[c - 1]) {
      if c / 2 == k {
        assert t[c - 1] == if c == child then s[k - 1] else s[c - 1];
      } else {
        assert t[c / 2 - 1] == s[c / 2 - 1] && t[c - 1] == if c == k then s[child - 1] else s[c - 1];
      }
    }
    forall c | 2 <= c <= n && c / 2 == child ensures !pred(t[child / 2 - 1], t[c - 1]) {
      assert t[c - 1] == s[c - 1] && t[child / 2 - 1] == s[child - 1];
    }
  }

  lemma NotBothWays<T(!new)>(pred: (T, T) -> bool, x: T, y: T)
    requires StrictWeak(pred) && pred(x, y)
    ensures !pred(y, x)
  {
  }

  lemma SiftStops<T(!new)>(pred: (T, T) -> bool, s: seq<T>, k0: nat, n: nat, k: nat, child: nat)
    requires StrictWeak(pred) && HeapAround(pred, s, k0, n, k) && IsGreaterChild(pred, s, n, k, child)
    requires !pred(s[k - 1], s[child - 1])
    ensures Heap(pred, s, k0, n)
  {
    forall c | 2 <= c <= n && k0 <= c / 2 ensures !pred(s[c / 2 - 1], s[c - 1]) {
      if c / 2 == k {
        NotGreater(pred, s[c - 1], s[child - 1], s[k - 1]);
      }
    }
  }

  lemma SiftStarts<T(!new)>(pred: (T, T) -> bool, s: seq<T>, k0: nat, n: nat)
    requires Heap(pred, s, k0 + 1, n)
    ensures HeapAround(pred, s, k0, n, k0)
  {
  }

  lemma SiftAtLeaf<T(!new)>(pred: (T, T) -> bool, s: seq<T>, k0: nat, n: nat, k: nat)
    requires HeapAround(pred, s, k0, n, k) && k > n / 2
    ensures Heap(pred, s, k0, n)
  {
  }

  /** Moves the element `k0` down below its greater children. */
  method DownHeap<T(!new)>(a: array<T>, k0: nat, n: nat, pred: (T, T) -> bool)
    requires StrictWeak(pred) && 1 <= k0 <= a.Length && n <= a.Length && Heap(pred, a[..], k0 + 1, n)
    modifies a
    ensures Heap(pred, a[..], k0, n)
    ensures if k0 <= n then Permuted(old(a[..]), a[..], 0, n) else a[..] == old(a[..])
  {
    hide HeapAround, Heap, Permuted, StrictWeak, Holed;
    var k, stopped := k0, false;
    var temp := a[k - 1];
    ghost var was, s := a[..], a[..];
    SiftStarts(pred, s, k0, n);
    MaybePermuted(was, n);
    FillsOwn(was, k - 1);
    while k <= n / 2 && !stopped
      invariant k0 <= k <= a.Length && Holed(a[..], s, k - 1, temp)
      invariant if stopped then Heap(pred, s, k0, n) else HeapAround(pred, s, k0, n, k)
      invariant if k0 <= n then Permuted(was, s, 0, n) && k <= n else k == k0 && s == was
      decreases n - k, !stopped
    {
      ghost var t := s;
      k, stopped, s := SiftOnce(a, k, temp, k0, n, pred, t);
      PermutedTrans(was, t, s, 0, n);
    }
    if !stopped {
      SiftAtLeaf(pred, s, k0, n, k);
    }
    Fill(a, k - 1, temp, s);
  }

  method Fill<T>(a: array<T>, hole: nat, temp: T, ghost s: seq<T>)
    requires Holed(a[..], s, hole, temp)
    modifies a
    ensures a[..] == s
  {
    a[hole] := temp;
  }

  /** One step: the greater child moves up into the hole, or the element may stay there. */
  method SiftOnce<T(!new)>(a: array<T>, k: nat, temp: T, ghost k0: nat, n: nat, pred: (T, T) -> bool, ghost s: seq<T>)
    returns (k': nat, stopped: bool, ghost t: seq<T>)
    requires StrictWeak(pred) && 1 <= k0 <= k <= n / 2 && n <= a.Length
    requires Holed(a[..], s, k - 1, temp) && HeapAround(pred, s, k0, n, k)
    modifies a
    ensures k <= k' <= n && Holed(a[..], t, k' - 1, temp) && Permuted(s, t, 0, n) && (!stopped ==> k < k')
    ensures if stopped then Heap(pred, t, k0, n) else HeapAround(pred, t, k0, n, k')
  {
    hide HeapAround, Heap, Permuted, StrictWeak;
    var child := GreaterChild(a, s, k, n, pred);
    if pred(temp, a[child - 1]) {
      t := s[k - 1 := s[child - 1]][child - 1 := s[k - 1]];
      SiftStep(pred, s, t, k0, n, k, child);
      SwapPermutes(s, k - 1, child - 1, 0, n);
      a[k - 1] := a[child - 1];
      k', stopped := child, false;
    } else {
      SiftStops(pred, s, k0, n, k, child);
      PermutedSame(s, 0, n);
      k', stopped, t := k, true, s;
    }
  }

  lemma FillsOwn<T>(s: seq<T>, i: nat)
    requires i < |s|
    ensures Holed(s, s, i, s[i])
  {
  }

  /** `s` is `now` with `temp` in the hole. */
  ghost predicate Holed<T>(now: seq<T>, s: seq<T>, hole: nat, temp: T) {
    hole < |s| == |now| && s[hole] == temp && forall i :: 0 <= i < |s| && i != hole ==> s[i] == now[i]
  }

  lemma MaybePermuted<T>(s: seq<T>, n: nat)
    ensures n <= |s| ==> Permuted(s, s, 0, n)
  {
  }

  method GreaterChild<T(!new)>(a: array<T>, ghost s: seq<T>, k: nat, n: nat, pred: (T, T) -> bool) returns (child: nat)
    requires StrictWeak(pred) && 1 <= k <= n / 2 && n <= a.Length == |s| && forall i :: k <= i < n ==> a[i] == s[i]
    ensures IsGreaterChild(pred, s, n, k, child)
  {
    child := 2 * k;
    if child < n && pred(a[child - 1], a[child]) {
      child := child + 1;
    }
  }

  lemma {:induction false} RootIsGreatest<T(!new)>(pred: (T, T) -> bool, s: seq<T>, n: nat, c: nat)
    requires StrictWeak(pred) && Heap(pred, s, 1, n) && 1 <= c <= n
    ensures !pred(s[0], s[c - 1])
    decreases c
  {
    if c > 1 {
      RootIsGreatest(pred, s, n, c / 2);
      NotGreater(pred, s[c - 1], s[c / 2 - 1], s[0]);
    } else {
      assert !pred(s[0], s[0]);
    }
  }

  /** From `n` on everything is in place: in order, and not less than anything before it. */
  ghost predicate SortedFrom<T(!new)>(pred: (T, T) -> bool, s: seq<T>, n: nat) {
    n <= |s| && forall k, l :: 0 <= k < l < |s| && n <= l ==> !pred(s[l], s[k])
  }

  lemma GreatestPlaced<T(!new)>(pred: (T, T) -> bool, s: seq<T>, n: nat)
    requires StrictWeak(pred) && 1 <= n <= |s| && Heap(pred, s, 1, n) && SortedFrom(pred, s, n)
    ensures var t := s[0 := s[n - 1]][n - 1 := s[0]]; SortedFrom(pred, t, n - 1) && Heap(pred, t, 2, n - 1)
  {
    forall k | 0 <= k < n ensures !pred(s[0], s[k]) {
      RootIsGreatest(pred, s, n, k + 1);
    }
    var t := s[0 := s[n - 1]][n - 1 := s[0]];
    forall k, l | 0 <= k < l < |t| && n - 1 <= l ensures !pred(t[l], t[k]) {
      if l == n - 1 {
        assert t[k] == s[if k == 0 then n - 1 else k];
      }
    }
  }

  lemma FrontPermuted<T(!new)>(pred: (T, T) -> bool, s: seq<T>, t: seq<T>, n: nat)
    requires SortedFrom(pred, s, n) && Permuted(s, t, 0, n)
    ensures SortedFrom(pred, t, n)
  {
    forall k, l | 0 <= k < l < |t| && n <= l ensures !pred(t[l], t[k]) {
      PermutedElsewhere(s, t, 0, n, l);
      if k < n {
        PermutedKeeps(s, t, 0, n, x => !pred(s[l], x));
      } else {
        PermutedElsewhere(s, t, 0, n, k);
      }
    }
  }

  method HeapSort<T(!new)>(a: array<T>, pred: (T, T) -> bool)
    requires StrictWeak(pred)
    modifies a
    ensures Sorted(pred, a[..]) && multiset(a[..]) == multiset(old(a[..]))
  {
    hide Permuted, Heap, SortedFrom, StrictWeak;
    ghost var was := a[..];
    BuildHeap(a, pred);
    var n: nat := a.Length;
    NothingPlaced(pred, a[..]);
    while n >= 1
      invariant n <= a.Length && Heap(pred, a[..], 1, n) && SortedFrom(pred, a[..], n)
                && Permuted(was, a[..], 0, a.Length)
      decreases n
    {
      ghost var s := a[..];
      TakeGreatest(a, n, pred);
      PermutedTrans(was, s, a[..], 0, a.Length);
      n := n - 1;
    }
    AllPlaced(pred, was, a[..]);
  }

  method BuildHeap<T(!new)>(a: array<T>, pred: (T, T) -> bool)
    requires StrictWeak(pred)
    modifies a
    ensures Heap(pred, a[..], 1, a.Length) && Permuted(old(a[..]), a[..], 0, a.Length)
  {
    hide Permuted;
    ghost var was := a[..];
    PermutedSame(was, 0, a.Length);
    var k: nat := a.Length / 2;
    while k != 0
      invariant k <= a.Length / 2 && Heap(pred, a[..], k + 1, a.Length) && Permuted(was, a[..], 0, a.Length)
      decreases k
    {
      ghost var s := a[..];
      DownHeap(a, k, a.Length, pred);
      PermutedTrans(was, s, a[..], 0, a.Length);
      k := k - 1;
    }
  }

  /** Puts the root behind the others and makes these a heap again. */
  method TakeGreatest<T(!new)>(a: array<T>, n: nat, pred: (T, T) -> bool)
    requires StrictWeak(pred) && 1 <= n <= a.Length && Heap(pred, a[..], 1, n) && SortedFrom(pred, a[..], n)
    modifies a
    ensures Heap(pred, a[..], 1, n - 1) && SortedFrom(pred, a[..], n - 1) && Permuted(old(a[..]), a[..], 0, a.Length)
  {
    hide Permuted, Heap, SortedFrom, StrictWeak;
    ghost var s := a[..];
    GreatestPlaced(pred, s, n);
    SwapPermutes(s, 0, n - 1, 0, a.Length);
    var temp := a[0];
    a[0] := a[n - 1];
    a[n - 1] := temp;
    ghost var t := a[..];
    assert t == s[0 := s[n - 1]][n - 1 := s[0]];
    DownHeap(a, 1, n - 1, pred);
    if n > 1 {
      FrontPermuted(pred, t, a[..], n - 1);
      PermutedWiden(t, a[..], 0, n - 1, 0, a.Length);
      PermutedTrans(s, t, a[..], 0, a.Length);
    }
  }

  lemma NothingPlaced<T(!new)>(pred: (T, T) -> bool, s: seq<T>)
    ensures SortedFrom(pred, s, |s|)
  {
  }

  lemma AllPlaced<T(!new)>(pred: (T, T) -> bool, was: seq<T>, s: seq<T>)
    requires SortedFrom(pred, s, 0) && Permuted(was, s, 0, |s|)
    ensures Sorted(pred, s) && multiset(s) == multiset(was)
  {
    assert s[0..|s|] == s && was[0..|s|] == was;
  }
}
