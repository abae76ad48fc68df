/** rde::radix_sorter (3rdparty/rdestl/radix_sorter.h) for unsigned 32-bit keys, with the internal
    buffer: four passes by byte between the caller's array and a second one. */
module RadixSorter {
  import opened Probing
  import opened StableSort

  const HISTOGRAM_SIZE: nat := 256

  /** Byte `d` of a key, counted from the low end. */
  function Digit(x: nat, d: nat): (b: nat)
    ensures b < 256
  {
    (x / Scale256(d)) % 256
  }

  function Scale256(d: nat): (s: nat)
    ensures s > 0
  {
    if d == 0 then 1 else 256 * Scale256(d - 1)
  }

  function ByDigit<T>(key: T -> nat, d: nat): T -> nat { x => Digit(key(x), d) }

  /** The key's lowest `d` bytes. */
  function ByLow<T>(key: T -> nat, d: nat): T -> nat { x => key(x) % Scale256(d) }

  lemma MulLe(m: nat, a: nat, b: nat)
    requires a <= b
    ensures m * a <= m * b
  {
  }

  lemma Spread(m: nat, h: nat, b: nat)
    ensures m * (256 * h + b) == (256 * m) * h + m * b
  {
  }

  lemma LowByte(x: nat, m: nat, q: nat, r: nat)
    requires x == m * q + r && r < m
    ensures x % (256 * m) == m * (q % 256) + r
  {
    var h, b := q / 256, q % 256;
    Spread(m, h, b);
    MulLe(m, b, 255);
    DivisionIsUnique(x, 256 * m, h, m * b + r);
  }

  lemma LowAndDigit(x: nat, d: nat)
    ensures x % Scale256(d + 1) == Scale256(d) * Digit(x, d) + x % Scale256(d)
  {
    hide Scale256;
    var m := Scale256(d);
    ScaleStep(d);
    DivMod(x, m);
    LowByte(x, m, x / m, x % m);
  }

  lemma ScaleStep(d: nat)
    ensures Scale256(d + 1) == 256 * Scale256(d)
  {
  }

  lemma DivMod(x: nat, m: nat)
    requires m > 0
    ensures x == m * (x / m) + x % m && x % m < m
  {
  }

  /** One pass by byte `d`. */
  function Pass<T>(s: seq<T>, key: T -> nat, d: nat): seq<T> {
    Buckets(s, ByDigit(key, d), 256)
  }

  /** A pass by the next byte sorts by one byte more, and moves no equal keys past each other. */
  lemma PassSorts<T>(s: seq<T>, key: T -> nat, d: nat)
    requires SortedBy(s, ByLow(key, d))
    ensures SortedBy(Pass(s, key, d), ByLow(key, d + 1)) && Stable(s, Pass(s, key, d), key)
    ensures |Pass(s, key, d)| == |s|
  {
    var f, low, whole := ByDigit(key, d), ByLow(key, d), ByLow(key, d + 1);
    forall x, y | x in s && y in s && f(x) < f(y) ensures whole(x) <= whole(y) {
      DigitsOrder(key(x), key(y), d);
    }
    forall x, y | x in s && y in s && f(x) == f(y) && low(x) <= low(y) ensures whole(x) <= whole(y) {
      LowAndDigit(key(x), d);
      LowAndDigit(key(y), d);
    }
    BucketsSorted(s, f, 256, low, whole);
    forall v: nat ensures Filter(s, key, v) == Filter(Pass(s, key, d), key, v) {
      BucketsStable(s, f, 256, key, v, Digit(v, d));
    }
    BucketsLength(s, f, 256);
  }

  lemma DigitsOrder(x: nat, y: nat, d: nat)
    requires Digit(x, d) < Digit(y, d)
    ensures x % Scale256(d + 1) <= y % Scale256(d + 1)
  {
    hide Digit, Scale256;
    LowAndDigit(x, d);
    LowAndDigit(y, d);
    SmallerDigit(Scale256(d), Digit(x, d), Digit(y, d), x % Scale256(d), y % Scale256(d));
  }

  lemma SmallerDigit(m: nat, a: nat, b: nat, r: nat, r': nat)
    requires a < b && r < m
    ensures m * a + r <= m * b + r'
  {
    MulLe(m, a + 1, b);
  }

  // ---------- The histograms ----------

  /** Four histograms one behind the other: how often each byte value comes in each place. */
  ghost predicate Counted<T>(h: seq<nat>, s: seq<T>, key: T -> nat)
  {
    |h| == 4 * HISTOGRAM_SIZE
    && forall d: nat, v: nat :: d < 4 && v < 256 ==> h[256 * d + v] == |Filter(s, ByDigit(key, d), v)|
  }

  /** The four histograms turned into where each bucket starts. */
  ghost predicate Offsets<T>(h: seq<nat>, s: seq<T>, key: T -> nat, d: nat)
    requires d < 4
  {
    |h| == 4 * HISTOGRAM_SIZE && forall v: nat :: v < 256 ==> h[256 * d + v] == |Buckets(s, ByDigit(key, d), v)|
  }

  method CountKey<T>(histogram: array<nat>, x: nat, ghost s: seq<T>, ghost e: T, ghost key: T -> nat)
    requires Counted(histogram[..], s, key) && key(e) == x
    modifies histogram
    ensures Counted(histogram[..], s + [e], key)
  {
    ghost var h := histogram[..];
    histogram[Digit(x, 0)] := histogram[Digit(x, 0)] + 1;
    histogram[256 + Digit(x, 1)] := histogram[256 + Digit(x, 1)] + 1;
    histogram[512 + Digit(x, 2)] := histogram[512 + Digit(x, 2)] + 1;
    histogram[768 + Digit(x, 3)] := histogram[768 + Digit(x, 3)] + 1;
    assert (s + [e])[..|s|] == s;
    forall d: nat, v: nat | d < 4 && v < 256
      ensures histogram[256 * d + v] == |Filter(s + [e], ByDigit(key, d), v)|
    {
      assert histogram[256 * d + v] == h[256 * d + v] + if Digit(x, d) == v then 1 else 0;
    }
  }

  lemma SortedGoesOn<T>(src: seq<T>, key: T -> nat, i: nat)
    requires i < |src| && SortedBy(src[..i], key)
    ensures i == 0 || key(src[i - 1]) <= key(src[i]) ==> SortedBy(src[..i + 1], key)
    ensures i > 0 && key(src[i]) < key(src[i - 1]) ==> !SortedBy(src, key)
    ensures src[..i + 1] == src[..i] + [src[i]]
  {
    if i > 0 {
      assert forall j :: 0 <= j < i ==> key(src[..i][j]) <= key(src[..i][i - 1]);
    }
  }

  /** Counts until a key is smaller than the one before it; says where it stopped. */
  method CountWhileSorted<T>(src: array<T>, num: nat, key: T -> nat, histogram: array<nat>)
      returns (alreadySorted: bool, k: nat)
    requires 0 < num <= src.Length && src as object != histogram as object && Counted(histogram[..], [], key)
    modifies histogram
    ensures alreadySorted <==> SortedBy(src[..num], key)
    ensures !alreadySorted ==> k < num && Counted(histogram[..], src[..k], key)
  {
    hide Counted, SortedBy;
    ghost var s := src[..num];
    alreadySorted, k := true, 0;
    var prevValue := key(src[0]);
    EmptySorted(s, key);
    for i := 0 to num
      invariant Counted(histogram[..], s[..i], key) && SortedBy(s[..i], key)
      invariant prevValue == key(s[if i == 0 then 0 else i - 1])
    {
      k := i;
      var x := key(src[i]);
      SortedGoesOn(s, key, i);
      if x < prevValue {
        alreadySorted := false;
        assert src[..i] == s[..i];
        return;
      }
      CountKey(histogram, x, s[..i], src[i], key);
      prevValue := x;
    }
    assert s[..num] == s;
  }

  lemma EmptySorted<T>(s: seq<T>, key: T -> nat)
    ensures s[..0] == [] && SortedBy(s[..0], key)
  {
  }

  // ---------- The offsets ----------

  /** Histogram `d` with its first `i` entries turned into where their buckets start. */
  ghost predicate HalfOffsets<T>(h: seq<nat>, s: seq<T>, key: T -> nat, d: nat, i: nat)
    requires d < 4
  {
    |h| == 4 * HISTOGRAM_SIZE
    && forall v: nat :: v < 256 ==>
       h[256 * d + v]
       == if v < i then |Buckets(s, ByDigit(key, d), v)| else |Filter(s, ByDigit(key, d), v)|
  }

  lemma OffsetsStay<T>(h: seq<nat>, h': seq<nat>, s: seq<T>, key: T -> nat, d: nat, i: nat, changed: nat)
    requires d < 4 && HalfOffsets(h, s, key, d, i) && changed != d && |h'| == |h|
    requires forall j :: 0 <= j < |h| && !(256 * changed <= j < 256 * changed + 256) ==> h'[j] == h[j]
    ensures HalfOffsets(h', s, key, d, i)
  {
  }

  method TurnIntoOffset<T>(histogram: array<nat>, i: nat, d: nat, offset: nat, ghost s: seq<T>, ghost key: T -> nat)
      returns (next: nat)
    requires d < 4 && i < 256 && HalfOffsets(histogram[..], s, key, d, i)
             && offset == |Buckets(s, ByDigit(key, d), i)| + 1
    modifies histogram
    ensures HalfOffsets(histogram[..], s, key, d, i + 1) && next == |Buckets(s, ByDigit(key, d), i + 1)| + 1
    ensures forall j :: 0 <= j < histogram.Length && !(256 * d <= j < 256 * d + 256) ==>
              histogram[..][j] == old(histogram[..])[j]
  {
    hide Buckets, Filter;
    BucketsStep(s, ByDigit(key, d), i + 1);
    next := histogram[i + HISTOGRAM_SIZE * d] + offset;
    histogram[i + HISTOGRAM_SIZE * d] := offset - 1;
  }

  method CalculateOffsets<T>(histogram: array<nat>, ghost s: seq<T>, ghost key: T -> nat)
    requires Counted(histogram[..], s, key)
    modifies histogram
    ensures forall d: nat :: d < 4 ==> Offsets(histogram[..], s, key, d)
  {
    hide HalfOffsets, Counted, Offsets, Buckets, Filter;
    var o0, o1, o2, o3 := 1, 1, 1, 1;
    OffsetsBegin(histogram[..], s, key);
    for i := 0 to HISTOGRAM_SIZE
      invariant HalfOffsets(histogram[..], s, key, 0, i) && HalfOffsets(histogram[..], s, key, 1, i)
      invariant HalfOffsets(histogram[..], s, key, 2, i) && HalfOffsets(histogram[..], s, key, 3, i)
      invariant o0 == |Buckets(s, ByDigit(key, 0), i)| + 1 && o1 == |Buckets(s, ByDigit(key, 1), i)| + 1
      invariant o2 == |Buckets(s, ByDigit(key, 2), i)| + 1 && o3 == |Buckets(s, ByDigit(key, 3), i)| + 1
    {
      ghost var h0 := histogram[..];
      o0 := TurnIntoOffset(histogram, i, 0, o0, s, key);
      ghost var h1 := histogram[..];
      OthersStay(h0, h1, s, key, 0, i, i, i, i);
      o1 := TurnIntoOffset(histogram, i, 1, o1, s, key);
      ghost var h2 := histogram[..];
      OthersStay(h1, h2, s, key, 1, i + 1, i, i, i);
      o2 := TurnIntoOffset(histogram, i, 2, o2, s, key);
      ghost var h3 := histogram[..];
      OthersStay(h2, h3, s, key, 2, i + 1, i + 1, i, i);
      o3 := TurnIntoOffset(histogram, i, 3, o3, s, key);
      OthersStay(h3, histogram[..], s, key, 3, i + 1, i + 1, i + 1, i);
    }
    OffsetsEnd(histogram[..], s, key);
  }

  lemma OthersStay<T>(h: seq<nat>, h': seq<nat>, s: seq<T>, key: T -> nat, changed: nat, i0: nat, i1: nat,
                      i2: nat, i3: nat)
    requires HalfOffsets(h, s, key, 0, i0) && HalfOffsets(h, s, key, 1, i1) && HalfOffsets(h, s, key, 2, i2)
             && HalfOffsets(h, s, key, 3, i3)
    requires changed < 4 && |h'| == |h|
    requires forall j :: 0 <= j < |h| && !(256 * changed <= j < 256 * changed + 256) ==> h'[j] == h[j]
    ensures changed != 0 ==> HalfOffsets(h', s, key, 0, i0)
    ensures changed != 1 ==> HalfOffsets(h', s, key, 1, i1)
    ensures changed != 2 ==> HalfOffsets(h', s, key, 2, i2)
    ensures changed != 3 ==> HalfOffsets(h', s, key, 3, i3)
  {
    hide HalfOffsets;
    if changed != 0 { OffsetsStay(h, h', s, key, 0, i0, changed); }
    if changed != 1 { OffsetsStay(h, h', s, key, 1, i1, changed); }
    if changed != 2 { OffsetsStay(h, h', s, key, 2, i2, changed); }
    if changed != 3 { OffsetsStay(h, h', s, key, 3, i3, changed); }
  }

  lemma OffsetsBegin<T>(h: seq<nat>, s: seq<T>, key: T -> nat)
    requires Counted(h, s, key)
    ensures forall d: nat :: d < 4 ==> HalfOffsets(h, s, key, d, 0) && |Buckets(s, ByDigit(key, d), 0)| == 0
  {
  }

  lemma OffsetsEnd<T>(h: seq<nat>, s: seq<T>, key: T -> nat)
    requires HalfOffsets(h, s, key, 0, 256) && HalfOffsets(h, s, key, 1, 256) && HalfOffsets(h, s, key, 2, 256)
             && HalfOffsets(h, s, key, 3, 256)
    ensures forall d: nat :: d < 4 ==> Offsets(h, s, key, d)
  {
    hide HalfOffsets, Offsets;
    OffsetsDone(h, s, key, 0);
    OffsetsDone(h, s, key, 1);
    OffsetsDone(h, s, key, 2);
    OffsetsDone(h, s, key, 3);
  }

  lemma OffsetsDone<T>(h: seq<nat>, s: seq<T>, key: T -> nat, d: nat)
    requires d < 4 && HalfOffsets(h, s, key, d, 256)
    ensures Offsets(h, s, key, d)
  {
    hide Buckets, Filter;
  }

  // ---------- The passes ----------

  /** Distributes by byte `d`, in order. */
  method Distribute<T>(src: array<T>, num: nat, key: T -> nat, d: nat, histogram: array<nat>, dst: array<T>)
    requires d < 4 && num <= src.Length && num <= dst.Length && src != dst
    requires src as object != histogram as object && dst as object != histogram as object
    requires Offsets(histogram[..], src[..num], key, d)
    modifies histogram, dst
    ensures dst[..num] == Pass(src[..num], key, d) && dst[num..] == old(dst[..])[num..]
    ensures forall d': nat :: d' < 4 && d' != d && old(Offsets(histogram[..], src[..num], key, d')) ==>
              Offsets(histogram[..], src[..num], key, d')
  {
    hide Placed, Buckets, Filter;
    ghost var s, f, h0 := src[..num], ByDigit(key, d), histogram[..];
    StartPlaced(s, f, h0[256 * d..256 * d + 256], dst[..]);
    for i := 0 to num
      invariant src[..num] == s && histogram.Length == |h0|
      invariant Placed(s, f, 256, i, histogram[256 * d..256 * d + 256], dst[..])
      invariant dst[num..] == old(dst[..])[num..]
      invariant forall j :: 0 <= j < |h0| && !(256 * d <= j < 256 * d + 256) ==> histogram[j] == h0[j]
    {
      var pos := Digit(key(src[i]), d);
      ghost var offs, out := histogram[256 * d..256 * d + 256], dst[..];
      PlaceNext(s, f, 256, i, offs, out);
      dst[histogram[256 * d + pos]] := src[i];
      histogram[256 * d + pos] := histogram[256 * d + pos] + 1;
      assert histogram[256 * d..256 * d + 256] == offs[pos := offs[pos] + 1];
      assert dst[..] == out[offs[pos] := s[i]];
    }
    PlacedAll(s, f, 256, histogram[256 * d..256 * d + 256], dst[..], 256);
    BucketsLength(s, f, 256);
    forall d': nat | d' < 4 && d' != d && Offsets(h0, s, key, d') ensures Offsets(histogram[..], s, key, d') {
    }
  }

  lemma StartPlaced<T>(s: seq<T>, f: T -> nat, offs: seq<nat>, out: seq<T>)
    requires |offs| == 256 && |s| <= |out| && forall v: nat :: v < 256 ==> offs[v] == |Buckets(s, f, v)|
    requires forall j :: 0 <= j < |s| ==> f(s[j]) < 256
    ensures Placed(s, f, 256, 0, offs, out)
  {
    forall v: nat | v < 256 ensures BucketPlaced(s, f, 0, v, offs[v], out) {
      PlacedBounds(s, f, 256, 0, v);
    }
  }

  lemma OffsetsPermute<T>(h: seq<nat>, s: seq<T>, t: seq<T>, key: T -> nat, d: nat)
    requires d < 4 && Offsets(h, s, key, d) && multiset(s) == multiset(t)
    ensures Offsets(h, t, key, d)
  {
    forall v: nat | v < 256 ensures h[256 * d + v] == |Buckets(t, ByDigit(key, d), v)| {
      BucketCountsAgree(s, t, ByDigit(key, d), v);
    }
  }

  /** After its pass, the next histogram still fits. */
  lemma PassGoesOn<T>(h: seq<nat>, s: seq<T>, key: T -> nat, d: nat)
    requires d < 4 && SortedBy(s, ByLow(key, d))
    ensures SortedBy(Pass(s, key, d), ByLow(key, d + 1)) && Stable(s, Pass(s, key, d), key)
    ensures forall d': nat :: d' < 4 && Offsets(h, s, key, d') ==> Offsets(h, Pass(s, key, d), key, d')
  {
    hide Offsets, Pass, Stable;
    PassSorts(s, key, d);
    StablePermutes(s, Pass(s, key, d), key);
    forall d': nat | d' < 4 && Offsets(h, s, key, d') ensures Offsets(h, Pass(s, key, d), key, d') {
      OffsetsPermute(h, s, Pass(s, key, d), key, d');
    }
  }

  lemma StableChain<T>(a: seq<T>, b: seq<T>, c: seq<T>, key: T -> nat)
    requires Stable(a, b, key) && Stable(b, c, key)
    ensures Stable(a, c, key)
  {
    forall v: nat ensures Filter(a, key, v) == Filter(c, key, v) {
      assert Filter(a, key, v) == Filter(b, key, v) && Filter(b, key, v) == Filter(c, key, v);
    }
  }

  // ---------- The whole sort ----------

  predicate Keys32<T>(s: seq<T>, key: T -> nat) {
    forall i :: 0 <= i < |s| ==> key(s[i]) < 0x1_0000_0000
  }

  /** If all upper bytes are zero, two passes are enough; four always are. */
  lemma ShortKeysAreSorted<T>(s: seq<T>, t: seq<T>, key: T -> nat)
    requires Keys32(s, key) && Stable(s, t, key) && SortedBy(t, ByLow(key, 2))
    requires |Filter(s, ByDigit(key, 2), 0)| == |s| && |Filter(s, ByDigit(key, 3), 0)| == |s|
    ensures SortedBy(t, key)
  {
    hide Filter, Digit, Scale256, Stable;
    FilterShort(s, ByDigit(key, 2), 0);
    FilterShort(s, ByDigit(key, 3), 0);
    StablePermutes(s, t, key);
    forall i | 0 <= i < |t| ensures key(t[i]) == ByLow(key, 2)(t[i]) {
      assert t[i] in multiset(t);
      var j :| 0 <= j < |s| && s[j] == t[i];
      assert ByDigit(key, 2)(s[j]) == 0 && ByDigit(key, 3)(s[j]) == 0;
      ShortKey(key(s[j]));
    }
  }

  lemma ShortKey(x: nat)
    requires x < 0x1_0000_0000 && Digit(x, 2) == 0 && Digit(x, 3) == 0
    ensures x % Scale256(2) == x
  {
    assert Scale256(1) == 256;
    assert Scale256(2) == 65536;
    assert Scale256(3) == 0x100_0000;
    assert x / 0x100_0000 == 0;
    assert x / 65536 < 256;
  }

  lemma FourPassesSort<T>(s: seq<T>, t: seq<T>, key: T -> nat)
    requires Keys32(s, key) && Stable(s, t, key) && SortedBy(t, ByLow(key, 4))
    ensures SortedBy(t, key)
  {
    StablePermutes(s, t, key);
    assert Scale256(2) == 65536 && Scale256(4) == 0x1_0000_0000;
    forall i | 0 <= i < |t| ensures key(t[i]) == ByLow(key, 4)(t[i]) {
      assert t[i] in multiset(t);
      var j :| 0 <= j < |s| && s[j] == t[i];
    }
  }

  lemma ZeroBytes<T>(s: seq<T>, key: T -> nat)
    ensures SortedBy(s, ByLow(key, 0)) && Stable(s, s, key)
  {
  }

  method CountRest<T>(src: array<T>, num: nat, key: T -> nat, histogram: array<nat>, k0: nat)
    requires k0 <= num <= src.Length && src as object != histogram as object && Counted(histogram[..], src[..k0], key)
    modifies histogram
    ensures Counted(histogram[..], src[..num], key)
  {
    hide Counted;
    for k := k0 to num
      invariant Counted(histogram[..], src[..k], key)
    {
      assert src[..k + 1] == src[..k] + [src[k]];
      CountKey(histogram, key(src[k]), src[..k], src[k], key);
    }
  }

  method SortWith<T>(src: array<T>, num: nat, key: T -> nat, help: array<T>)
    requires num <= src.Length && num <= help.Length && src != help && Keys32(src[..num], key)
    modifies src, help
    ensures SortedBy(src[..num], key) && Stable(old(src[..num]), src[..num], key)
    ensures src[num..] == old(src[..])[num..]
  {
    hide Counted, Offsets, Pass, Stable, SortedBy, Keys32;
    ghost var s := src[..num];
    ZeroBytes(s, key);
    if num == 0 {
      AllSorted(s, key);
      return;
    }
    var histogram := new nat[HISTOGRAM_SIZE * 4](_ => 0);
    NothingCounted(histogram[..], key);
    var alreadySorted, k := CountWhileSorted(src, num, key, histogram);
    if alreadySorted {
      return;
    }
    CountRest(src, num, key, histogram, k);
    ZeroCounts(histogram[..], s, key);
    var canBreakAfter16Bits := histogram[512] == num && histogram[768] == num;
    CalculateOffsets(histogram, s, key);
    Distribute(src, num, key, 0, histogram, help);
    PassGoesOn(histogram[..], s, key, 0);
    ghost var s1 := help[..num];
    Distribute(help, num, key, 1, histogram, src);
    PassGoesOn(histogram[..], s1, key, 1);
    ghost var s2 := src[..num];
    StableChain(s, s1, s2, key);
    if canBreakAfter16Bits {
      ShortKeysAreSorted(s, s2, key);
      return;
    }
    Distribute(src, num, key, 2, histogram, help);
    PassGoesOn(histogram[..], s2, key, 2);
    ghost var s3 := help[..num];
    StableChain(s, s2, s3, key);
    Distribute(help, num, key, 3, histogram, src);
    PassGoesOn(histogram[..], s3, key, 3);
    StableChain(s, s3, src[..num], key);
    FourPassesSort(s, src[..num], key);
  }

  lemma AllSorted<T>(s: seq<T>, key: T -> nat)
    ensures |s| <= 1 ==> SortedBy(s, key)
  {
  }

  lemma NothingCounted<T>(h: seq<nat>, key: T -> nat)
    requires |h| == 4 * HISTOGRAM_SIZE && forall j :: 0 <= j < |h| ==> h[j] == 0
    ensures Counted(h, [], key)
  {
  }

  lemma ZeroCounts<T>(h: seq<nat>, s: seq<T>, key: T -> nat)
    requires Counted(h, s, key)
    ensures |h| == 4 * HISTOGRAM_SIZE
    ensures h[512] == |Filter(s, ByDigit(key, 2), 0)| && h[768] == |Filter(s, ByDigit(key, 3), 0)|
  {
    assert h[256 * 2 + 0] == |Filter(s, ByDigit(key, 2), 0)|;
    assert h[256 * 3 + 0] == |Filter(s, ByDigit(key, 3), 0)|;
  }

  class RadixSorter<T(0)> {
    var dst: array<T>

    constructor ()
      ensures fresh(dst)
    {
      dst := new T[0];
    }

    /** Sorts with the internal buffer. */
    method Sort(src: array<T>, num: nat, key: T -> nat)
      requires num <= src.Length && src != dst && Keys32(src[..num], key)
      modifies this, dst, src
      ensures SortedBy(src[..num], key) && Stable(old(src[..num]), src[..num], key)
      ensures src[num..] == old(src[..])[num..] && src != dst
    {
      if num > dst.Length {
        dst := new T[num];
      }
      SortWith(src, num, key, dst);
    }
  }
}
