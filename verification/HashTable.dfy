/** The open-addressing table of 3rdparty/rdestl/hash_map.h, as a sequence of nodes, and the map it stands for. */
module HashTable {
  import opened Probing

  const UNUSED_HASH: Word := 0xFFFF_FFFF
  const DELETED_HASH: Word := 0xFFFF_FFFE

  datatype Data<K, V> = NoData | Entry(key: K, value: V)

  type Word = x: nat | x < 0x1_0000_0000

  datatype Node<K, V> = Node(hash: Word, data: Data<K, V>) {
    predicate IsUnused() { hash == UNUSED_HASH }
    predicate IsDeleted() { hash == DELETED_HASH }
    predicate IsOccupied() { hash < DELETED_HASH }
  }

  /** A raw hash with bit 1 cleared, in 32 bits: never one of the two markers. */
  function MaskHash(raw: nat): (h: nat)
    ensures h < DELETED_HASH
  {
    var low := raw % 0x1_0000_0000;
    if low / 2 % 2 == 1 then low - 2 else low
  }

  /** Masking clears bit 1 and leaves the other bits of the word as they are. */
  lemma MaskClearsOneBit(raw: nat)
    ensures MaskHash(raw) / 2 % 2 == 0
    ensures MaskHash(raw) % 2 == raw % 0x1_0000_0000 % 2 && MaskHash(raw) / 4 == raw % 0x1_0000_0000 / 4
  {
    var low := raw % 0x1_0000_0000;
    var q, r := low / 4, low % 4;
    assert low == 4 * q + r && low / 2 == 2 * q + r / 2;
    if r >= 2 {
      assert (low - 2) / 2 == 2 * q && (low - 2) / 4 == q;
    }
  }

  predicate Holds<K(==), V>(n: Node<K, V>, h: nat, k: K) {
    n.hash == h && n.data.Entry? && n.data.key == k
  }

  // ---------- What the table stands for ----------

  /** Live nodes carry their key's hash and an entry of the map. */
  ghost predicate Live<K, V>(s: seq<Node<K, V>>, hasher: K -> nat, m: map<K, V>) {
    forall i :: 0 <= i < |s| && s[i].IsOccupied() ==>
      && s[i].data.Entry? && s[i].hash == MaskHash(hasher(s[i].data.key))
      && s[i].data.key in m && m[s[i].data.key] == s[i].data.value
  }

  /** No key is live twice. */
  ghost predicate Unique<K, V>(s: seq<Node<K, V>>) {
    forall i, j ::
      0 <= i < j < |s| && s[i].IsOccupied() && s[j].IsOccupied() && s[i].data.Entry? && s[j].data.Entry? ==>
      s[i].data.key != s[j].data.key
  }

  /** No unused node comes before probe `p`. */
  ghost predicate Open<K, V>(s: seq<Node<K, V>>, h: nat, p: nat)
    requires |s| > 0
  {
    forall q: nat :: q < p ==> !s[Slot(h, q, |s|)].IsUnused()
  }

  ghost predicate FoundAt<K, V>(s: seq<Node<K, V>>, h: nat, k: K, p: nat)
    requires |s| > 0
  {
    Open(s, h, p) && Holds(s[Slot(h, p, |s|)], h, k)
  }

  ghost predicate KeyFound<K, V>(s: seq<Node<K, V>>, h: nat, k: K)
    requires |s| > 0
  {
    exists p: nat :: FoundAt(s, h, k, p)
  }

  /** Every key of the map has a live node that its probes meet before any unused one. */
  ghost predicate Found<K, V>(s: seq<Node<K, V>>, hasher: K -> nat, m: map<K, V>)
    requires |s| > 0
  {
    forall k :: k in m ==> KeyFound(s, MaskHash(hasher(k)), k)
  }

  ghost predicate Table<K, V>(s: seq<Node<K, V>>, hasher: K -> nat, m: map<K, V>) {
    PowerOfTwo(|s|) && Live(s, hasher, m) && Unique(s) && Found(s, hasher, m)
  }

  // ---------- Used nodes ----------

  function Used<K, V>(s: seq<Node<K, V>>): nat {
    if s == [] then 0 else Used(s[..|s| - 1]) + if s[|s| - 1].IsUnused() then 0 else 1
  }

  lemma {:induction false} UsedUpdate<K, V>(s: seq<Node<K, V>>, i: nat, n: Node<K, V>)
    requires i < |s|
    ensures Used(s[i := n]) == Used(s) + (if n.IsUnused() then 0 else 1) - (if s[i].IsUnused() then 0 else 1)
  {
    var last := |s| - 1;
    if i == last {
      assert s[i := n][..last] == s[..last];
    } else {
      UsedUpdate(s[..last], i, n);
      assert s[i := n][..last] == s[..last][i := n];
    }
  }

  lemma {:induction false} UnusedCounts<K, V>(s: seq<Node<K, V>>)
    ensures Used(s) <= |s|
    ensures Used(s) == |s| <==> forall i :: 0 <= i < |s| ==> !s[i].IsUnused()
    ensures Used(s) == 0 <==> forall i :: 0 <= i < |s| ==> s[i].IsUnused()
  {
    if s != [] {
      UnusedCounts(s[..|s| - 1]);
    }
  }

  ghost function LiveKeys<K, V>(s: seq<Node<K, V>>): (keys: set<K>)
    ensures forall i :: 0 <= i < |s| && s[i].IsOccupied() && s[i].data.Entry? ==> s[i].data.key in keys
    ensures |keys| <= Used(s)
  {
    if s == [] then {}
    else
      var n := s[|s| - 1];
      LiveKeys(s[..|s| - 1]) + if n.IsOccupied() && n.data.Entry? then {n.data.key} else {}
  }

  lemma SubsetCount<K>(a: set<K>, b: set<K>)
    requires a <= b
    ensures |a| <= |b|
    ensures a != b ==> |a| < |b|
  {
    assert b == a + (b - a);
    assert |b| == |a| + |b - a|;
  }

  /** A table has at least as many used nodes as its map has keys. */
  lemma TableUses<K, V>(s: seq<Node<K, V>>, hasher: K -> nat, m: map<K, V>)
    requires Table(s, hasher, m)
    ensures |m| <= Used(s)
  {
    hide Slot, MaskHash, Open;
    var keys := LiveKeys(s);
    forall k | k in m ensures k in keys {
      var p: nat :| FoundAt(s, MaskHash(hasher(k)), k, p);
      HeldIsLive(s, hasher, m, k, Slot(MaskHash(hasher(k)), p, |s|));
    }
    SubsetCount(m.Keys, keys);
  }

  lemma TableSize<K, V>(s: seq<Node<K, V>>, hasher: K -> nat, m: map<K, V>)
    requires Table(s, hasher, m)
    ensures PowerOfTwo(|s|) && |s| > 0
  {
  }

  /** While a node is unused, the probes of every hash meet an unused node within the table's size. */
  lemma ProbesMeetUnused<K, V>(s: seq<Node<K, V>>, h: nat) returns (p: nat)
    requires PowerOfTwo(|s|) && Used(s) < |s|
    ensures p < |s| && s[Slot(h, p, |s|)].IsUnused()
  {
    UnusedCounts(s);
    var i: nat :| i < |s| && s[i].IsUnused();
    ProbesReachEverySlot(h, |s|, i);
    p :| p < |s| && Slot(h, p, |s|) == i;
  }

  /** In a full table no probe sequence ever ends, so a search for an absent key never does. */
  lemma FullTableNeverEnds<K, V>(s: seq<Node<K, V>>, h: nat, p: nat)
    requires |s| > 0 && Used(s) == |s|
    ensures !s[Slot(h, p, |s|)].IsUnused()
  {
    UnusedCounts(s);
  }

  /** The growth test leaves an unused node after every insertion exactly when the load factor is above 4. */
  lemma LoadFactorKeepsRoom(loadFactor: nat, capacity: nat)
    requires capacity >= 64
    ensures (forall used: nat :: used * loadFactor < capacity * 4 ==> used + 1 < capacity) <==> loadFactor > 4
  {
    if loadFactor > 4 {
      forall used: nat | used * loadFactor < capacity * 4 ensures used + 1 < capacity {
        assert used * loadFactor == used * 5 + used * (loadFactor - 5);
      }
    } else {
      var used := capacity - 1;
      assert used * 4 == used * loadFactor + used * (4 - loadFactor);
      assert used * loadFactor < capacity * 4 && !(used + 1 < capacity);
    }
  }

  // ---------- What the operations do to it ----------

  lemma EmptyTable<K, V>(s: seq<Node<K, V>>, hasher: K -> nat)
    requires PowerOfTwo(|s|) && forall i :: 0 <= i < |s| ==> s[i].IsUnused()
    ensures Table(s, hasher, map[])
  {
  }

  /** The probes up to `p` met neither the key nor, before `p`, an unused node. */
  ghost predicate Searched<K, V>(s: seq<Node<K, V>>, h: nat, k: K, p: nat)
    requires |s| > 0
  {
    Open(s, h, p) && forall q: nat :: q <= p ==> !Holds(s[Slot(h, q, |s|)], h, k)
  }

  lemma SearchStarts<K, V>(s: seq<Node<K, V>>, h: nat, k: K)
    requires |s| > 0 && !Holds(s[Slot(h, 0, |s|)], h, k)
    ensures Searched(s, h, k, 0)
  {
  }

  lemma SearchGoesOn<K, V>(s: seq<Node<K, V>>, h: nat, k: K, p: nat)
    requires |s| > 0 && Searched(s, h, k, p) && !s[Slot(h, p, |s|)].IsUnused()
    requires !Holds(s[Slot(h, p + 1, |s|)], h, k)
    ensures Searched(s, h, k, p + 1)
  {
    hide Slot;
  }

  /** A search that met no node with the key up to an unused one has shown it absent. */
  lemma UnusedMeansAbsent<K, V>(s: seq<Node<K, V>>, hasher: K -> nat, m: map<K, V>, k: K, p: nat)
    requires Table(s, hasher, m)
    requires Searched(s, MaskHash(hasher(k)), k, p) && s[Slot(MaskHash(hasher(k)), p, |s|)].IsUnused()
    ensures k !in m
  {
    hide Slot;
    var h := MaskHash(hasher(k));
    assert forall p': nat :: p' > p ==> !Open(s, h, p');
    assert forall p': nat :: !FoundAt(s, h, k, p');
  }

  /** A node that holds the key is live, and holds its value. */
  lemma HeldIsLive<K, V>(s: seq<Node<K, V>>, hasher: K -> nat, m: map<K, V>, k: K, i: nat)
    requires Table(s, hasher, m) && i < |s| && Holds(s[i], MaskHash(hasher(k)), k)
    ensures s[i].IsOccupied() && k in m && m[k] == s[i].data.value
  {
  }

  /** Where a search may place an absent key: at a probe that no unused node comes before. */
  ghost predicate PlaceFor<K, V>(s: seq<Node<K, V>>, h: nat, i: nat) {
    i < |s| && !s[i].IsOccupied() && exists p: nat :: Slot(h, p, |s|) == i && Open(s, h, p)
  }

  /** The first node on the probes of a hash that is not live: deleted nodes are used again. */
  ghost predicate FirstFree<K, V>(s: seq<Node<K, V>>, h: nat, i: nat)
    requires |s| > 0
  {
    i < |s| && !s[i].IsOccupied() && exists p: nat :: Slot(h, p, |s|) == i && LiveBefore(s, h, p)
  }

  ghost predicate LiveBefore<K, V>(s: seq<Node<K, V>>, h: nat, p: nat)
    requires |s| > 0
  {
    forall q: nat :: q < p ==> s[Slot(h, q, |s|)].IsOccupied()
  }

  ghost predicate LiveThrough<K, V>(s: seq<Node<K, V>>, h: nat, p: nat)
    requires |s| > 0
  {
    LiveBefore(s, h, p + 1)
  }

  lemma NoneLiveYet<K, V>(s: seq<Node<K, V>>, h: nat)
    requires |s| > 0
    ensures if s[Slot(h, 0, |s|)].IsOccupied() then LiveThrough(s, h, 0) else FirstFree(s, h, Slot(h, 0, |s|))
  {
    assert LiveBefore(s, h, 0);
  }

  lemma LiveSoFar<K, V>(s: seq<Node<K, V>>, h: nat, p: nat)
    requires |s| > 0 && p > 0 && LiveThrough(s, h, p - 1)
    ensures if s[Slot(h, p, |s|)].IsOccupied() then LiveThrough(s, h, p) else FirstFree(s, h, Slot(h, p, |s|))
  {
  }

  lemma FirstFreeIsPlace<K, V>(s: seq<Node<K, V>>, h: nat, i: nat)
    requires |s| > 0 && FirstFree(s, h, i)
    ensures PlaceFor(s, h, i)
  {
    hide Slot;
    var p: nat :| Slot(h, p, |s|) == i && LiveBefore(s, h, p);
    assert Open(s, h, p);
  }

  lemma SearchGivesPlace<K, V>(s: seq<Node<K, V>>, h: nat, k: K, p: nat)
    requires |s| > 0 && Searched(s, h, k, p) && !s[Slot(h, p, |s|)].IsOccupied()
    ensures PlaceFor(s, h, Slot(h, p, |s|))
  {
  }

  /** A key whose node is not the one written is still found, unless an unused node is written. */
  lemma OtherStaysFound<K, V>(s: seq<Node<K, V>>, hasher: K -> nat, m: map<K, V>, i: nat, n: Node<K, V>, k: K)
    requires |s| > 0 && Found(s, hasher, m) && k in m && i < |s| && !n.IsUnused()
    requires !Holds(s[i], MaskHash(hasher(k)), k)
    ensures KeyFound(s[i := n], MaskHash(hasher(k)), k)
  {
    hide Slot, MaskHash, Holds;
    var h := MaskHash(hasher(k));
    var p: nat :| FoundAt(s, h, k, p);
    assert Open(s[i := n], h, p);
    assert FoundAt(s[i := n], h, k, p);
  }

  lemma PlacedIsFound<K, V>(s: seq<Node<K, V>>, h: nat, k: K, v: V, i: nat)
    requires PlaceFor(s, h, i) && h < DELETED_HASH
    ensures KeyFound(s[i := Node(h, Entry(k, v))], h, k)
  {
    hide Slot;
    var p: nat :| Slot(h, p, |s|) == i && Open(s, h, p);
    var t := s[i := Node(h, Entry(k, v))];
    assert Open(t, h, p);
    assert FoundAt(t, h, k, p);
  }

  lemma PlaceKeepsTable<K, V>(s: seq<Node<K, V>>, hasher: K -> nat, m: map<K, V>, k: K, v: V, i: nat)
    requires Table(s, hasher, m) && k !in m && PlaceFor(s, MaskHash(hasher(k)), i)
    ensures Table(s[i := Node(MaskHash(hasher(k)), Entry(k, v))], hasher, m[k := v])
  {
    hide FoundAt, MaskHash;
    var n := Node(MaskHash(hasher(k)), Entry(k, v));
    PlacedIsFound(s, MaskHash(hasher(k)), k, v, i);
    forall k' | k' in m ensures KeyFound(s[i := n], MaskHash(hasher(k')), k') {
      OtherStaysFound(s, hasher, m, i, n, k');
    }
  }

  lemma RemoveKeepsTable<K, V>(s: seq<Node<K, V>>, hasher: K -> nat, m: map<K, V>, i: nat)
    requires Table(s, hasher, m) && i < |s| && s[i].IsOccupied()
    ensures Table(s[i := Node(DELETED_HASH, NoData)], hasher, m - {s[i].data.key})
  {
    hide FoundAt, MaskHash;
    var n: Node<K, V> := Node(DELETED_HASH, NoData);
    forall k' | k' in m && k' != s[i].data.key ensures KeyFound(s[i := n], MaskHash(hasher(k')), k') {
      OtherStaysFound(s, hasher, m, i, n, k');
    }
  }

  lemma AssignedIsFound<K, V>(s: seq<Node<K, V>>, hasher: K -> nat, m: map<K, V>, i: nat, v: V)
    requires Table(s, hasher, m) && i < |s| && s[i].IsOccupied()
    ensures var k := s[i].data.key;
            KeyFound(s[i := s[i].(data := Entry(k, v))], MaskHash(hasher(k)), k)
  {
    hide Slot, MaskHash;
    var k := s[i].data.key;
    var h := MaskHash(hasher(k));
    var p: nat :| FoundAt(s, h, k, p);
    var t := s[i := s[i].(data := Entry(k, v))];
    assert Open(t, h, p);
    assert FoundAt(t, h, k, p);
  }

  lemma AssignKeepsTable<K, V>(s: seq<Node<K, V>>, hasher: K -> nat, m: map<K, V>, i: nat, v: V)
    requires Table(s, hasher, m) && i < |s| && s[i].IsOccupied()
    ensures Table(s[i := s[i].(data := Entry(s[i].data.key, v))], hasher, m[s[i].data.key := v])
  {
    hide FoundAt, MaskHash;
    var k := s[i].data.key;
    var n := s[i].(data := Entry(k, v));
    AssignedIsFound(s, hasher, m, i, v);
    forall k' | k' in m && k' != k ensures KeyFound(s[i := n], MaskHash(hasher(k')), k') {
      OtherStaysFound(s, hasher, m, i, n, k');
    }
  }
}
