/** rde::hash_map (3rdparty/rdestl/hash_map.h): insert, operator[], erase, clear, reserve and
    assignment over an array of nodes, refining a map from keys to values. */
module HashMap {
  import opened Probing
  import opened HashTable

  const INITIAL_CAPACITY: nat := 64

  datatype Place = Null | At(n: nat)

  /** Copies a live node to the first unused one on the probes of its hash. */
  method PlaceCopy<K(==), V>(newNodes: array<Node<K, V>>, node: Node<K, V>, ghost hasher: K -> nat,
                             ghost moved: map<K, V>)
    requires node.IsOccupied() && node.data.Entry? && node.hash == MaskHash(hasher(node.data.key))
             && node.data.key !in moved
    requires Table(newNodes[..], hasher, moved) && Used(newNodes[..]) < newNodes.Length
    modifies newNodes
    ensures Table(newNodes[..], hasher, moved[node.data.key := node.data.value])
    ensures Used(newNodes[..]) == old(Used(newNodes[..])) + 1
  {
    hide Slot, MaskHash, Table, PowerOfTwo, Used, PlaceFor;
    ghost var before := newNodes[..];
    TableSize(before, hasher, moved);
    var i := FindUnused(newNodes, node.hash);
    UsedUpdate(before, i, node);
    PlaceKeepsTable(before, hasher, moved, node.data.key, node.data.value, i);
    newNodes[i] := node;
    assert newNodes[..] == before[i := node];
  }

  /** Copies the live nodes of one table into another that is unused. */
  method Rehash<K(==), V>(newNodes: array<Node<K, V>>, capacity: nat, nodes: array<Node<K, V>>,
                          ghost hasher: K -> nat, ghost model: map<K, V>)
    requires newNodes != nodes && PowerOfTwo(newNodes.Length)
    requires forall i :: 0 <= i < newNodes.Length ==> newNodes[i].IsUnused()
    requires capacity <= nodes.Length && (capacity == nodes.Length || model == map[])
    requires Table(nodes[..], hasher, model) && |model| < newNodes.Length
    modifies newNodes
    ensures Table(newNodes[..], hasher, model) && Used(newNodes[..]) == |model|
  {
    hide Slot, MaskHash, Table, PowerOfTwo, Used, Moved, PlaceFor, Holds;
    ghost var moved: map<K, V>, source := map[], nodes[..];
    EmptyTable(newNodes[..], hasher);
    UnusedCounts(newNodes[..]);
    NothingMoved(source, model);
    var it := 0;
    while it != capacity
      invariant it <= capacity && nodes[..] == source
      invariant Table(newNodes[..], hasher, moved) && Used(newNodes[..]) == |moved|
      invariant Moved(source, it, model, moved)
    {
      var node := nodes[it];
      if node.IsOccupied() {
        LiveEntry(source, hasher, model, it);
        MovesOn(source, it, hasher, model, moved);
        PlaceCopy(newNodes, node, hasher, moved);
        moved := moved[node.data.key := node.data.value];
      } else {
        SkipsOn(source, it, model, moved);
      }
      it := it + 1;
    }
    AllMoved(source, capacity, hasher, model, moved);
  }

  /** The first unused node on the probes of a hash. */
  method FindUnused<K, V>(nodes: array<Node<K, V>>, hash: nat) returns (i: nat)
    requires PowerOfTwo(nodes.Length) && Used(nodes[..]) < nodes.Length
    ensures i < nodes.Length && nodes[i].IsUnused() && PlaceFor(nodes[..], hash, i)
  {
    hide Slot, PowerOfTwo;
    i := hash % nodes.Length;
    FirstProbe(hash, nodes.Length);
    ghost var stop := ProbesMeetUnused(nodes[..], hash);
    var numProbes := 0;
    while !nodes[i].IsUnused()
      invariant numProbes <= stop && i == Slot(hash, numProbes, nodes.Length) && Open(nodes[..], hash, numProbes)
      decreases stop - numProbes
    {
      NextProbe(hash, numProbes, nodes.Length);
      numProbes := numProbes + 1;
      i := (i + numProbes) % nodes.Length;
    }
  }

  /** `moved` is the part of the map whose nodes come before `it`. */
  ghost predicate Moved<K, V>(s: seq<Node<K, V>>, it: nat, model: map<K, V>, moved: map<K, V>) {
    && it <= |s|
    && (forall k :: k in moved ==> k in model && moved[k] == model[k])
    && (forall i :: 0 <= i < it && s[i].IsOccupied() && s[i].data.Entry? ==> s[i].data.key in moved)
    && (forall k :: k in moved ==>
          exists i :: 0 <= i < it && s[i].IsOccupied() && s[i].data.Entry? && s[i].data.key == k)
  }

  lemma NothingMoved<K, V>(s: seq<Node<K, V>>, model: map<K, V>)
    ensures Moved(s, 0, model, map[])
  {
  }

  lemma LiveEntry<K, V>(s: seq<Node<K, V>>, hasher: K -> nat, model: map<K, V>, it: nat)
    requires Table(s, hasher, model) && it < |s| && s[it].IsOccupied()
    ensures s[it].data.Entry? && s[it].hash == MaskHash(hasher(s[it].data.key)) && s[it].data.key in model
  {
  }

  lemma MovesOn<K, V>(s: seq<Node<K, V>>, it: nat, hasher: K -> nat, model: map<K, V>, moved: map<K, V>)
    requires Table(s, hasher, model) && Moved(s, it, model, moved) && it < |s| && s[it].IsOccupied()
             && s[it].data.Entry?
    ensures s[it].data.key !in moved && |moved| < |model|
    ensures Moved(s, it + 1, model, moved[s[it].data.key := s[it].data.value])
  {
    hide MaskHash, Found;
    var k := s[it].data.key;
    assert k in model;
    assert k in model.Keys && k !in moved.Keys;
    SubsetCount(moved.Keys, model.Keys);
    var moved' := moved[k := s[it].data.value];
    forall k' | k' in moved'
      ensures exists i :: 0 <= i < it + 1 && s[i].IsOccupied() && s[i].data.Entry? && s[i].data.key == k'
    {
      if k' == k {
        assert s[it].data.key == k';
      } else {
        var i :| 0 <= i < it && s[i].IsOccupied() && s[i].data.Entry? && s[i].data.key == k';
      }
    }
  }

  lemma SkipsOn<K, V>(s: seq<Node<K, V>>, it: nat, model: map<K, V>, moved: map<K, V>)
    requires Moved(s, it, model, moved) && it < |s| && !s[it].IsOccupied()
    ensures Moved(s, it + 1, model, moved)
  {
  }

  lemma AllMoved<K, V>(s: seq<Node<K, V>>, capacity: nat, hasher: K -> nat, model: map<K, V>, moved: map<K, V>)
    requires Table(s, hasher, model) && Moved(s, capacity, model, moved) && (capacity == |s| || model == map[])
    ensures moved == model
  {
    hide MaskHash, Slot, Open;
    forall k | k in model ensures k in moved {
      var p: nat :| FoundAt(s, MaskHash(hasher(k)), k, p);
      HeldIsLive(s, hasher, model, k, Slot(MaskHash(hasher(k)), p, |s|));
    }
  }

  class HashMap<K(==), V> {
    const hasher: K -> nat
    const loadFactor4: nat
    var nodes: array<Node<K, V>>
    var size: nat
    var capacity: nat
    var numUsed: nat
    ghost var model: map<K, V>

    /** A map without capacity looks at one shared node that is never used. */
    ghost predicate Valid()
      reads this, nodes
    {
      && loadFactor4 > 4
      && nodes.Length == (if capacity == 0 then 1 else capacity)
      && (capacity > 0 ==> INITIAL_CAPACITY <= capacity && numUsed < capacity)
      && (capacity == 0 ==> numUsed == 0)
      && Table(nodes[..], hasher, model)
      && |model| == size <= numUsed
      && Used(nodes[..]) <= numUsed
    }

    constructor (hasher: K -> nat, loadFactor4: nat)
      requires loadFactor4 > 4
      ensures Valid() && model == map[] && fresh(nodes) && this.hasher == hasher && this.loadFactor4 == loadFactor4
    {
      this.hasher, this.loadFactor4 := hasher, loadFactor4;
      nodes := new Node<K, V>[1](_ => Node(UNUSED_HASH, NoData));
      size, capacity, numUsed, model := 0, 0, 0, map[];
      new;
      EmptyTable(nodes[..], hasher);
      UnusedCounts(nodes[..]);
    }

    function HashFunc(key: K): (h: nat)
      ensures h < DELETED_HASH
    {
      MaskHash(hasher(key))
    }

    lemma WithoutCapacity()
      requires Valid() && capacity == 0
      ensures nodes[0].IsUnused() && model == map[]
    {
      UnusedCounts(nodes[..]);
      assert nodes[..][0].IsUnused();
    }

    /** The node that holds the key, or the end. */
    method Lookup(key: K) returns (n: nat)
      requires Valid()
      ensures key in model ==> n < capacity && Holds(nodes[n], HashFunc(key), key) && nodes[n].data.value == model[key]
      ensures key !in model ==> n == capacity
    {
      hide Slot, MaskHash, Table, Searched, Used, PowerOfTwo;
      if capacity == 0 {
        WithoutCapacity();
      }
      var hash := HashFunc(key);
      TableSize(nodes[..], hasher, model);
      n := hash % nodes.Length;
      FirstProbe(hash, nodes.Length);
      if Holds(nodes[n], hash, key) {
        HeldIsLive(nodes[..], hasher, model, key, n);
        return;
      }
      SearchStarts(nodes[..], hash, key);
      ghost var stop := ProbesMeetUnused(nodes[..], hash);
      var numProbes := 0;
      while !nodes[n].IsUnused()
        invariant numProbes <= stop && n == Slot(hash, numProbes, nodes.Length)
                  && Searched(nodes[..], hash, key, numProbes)
        decreases stop - numProbes
      {
        NextProbe(hash, numProbes, nodes.Length);
        numProbes := numProbes + 1;
        n := (n + numProbes) % nodes.Length;
        if Holds(nodes[n], hash, key) {
          HeldIsLive(nodes[..], hasher, model, key, n);
          return;
        }
        SearchGoesOn(nodes[..], hash, key, numProbes - 1);
      }
      UnusedMeansAbsent(nodes[..], hasher, model, key, numProbes);
      return capacity;
    }

    /** The node that holds the key, or else the first deleted node met, or else the unused one. */
    method FindForInsert(key: K) returns (place: Place, hash: nat)
      requires Valid()
      ensures place.Null? <==> capacity == 0
      ensures place.At? ==> place.n < capacity && hash == HashFunc(key)
      ensures place.At? && key in model ==> Holds(nodes[place.n], hash, key) && nodes[place.n].data.value == model[key]
      ensures place.At? && key !in model ==> FirstFree(nodes[..], hash, place.n) && PlaceFor(nodes[..], hash, place.n)
    {
      hide Slot, MaskHash, Table, Searched, Used, PowerOfTwo, PlaceFor, FirstFree, LiveThrough;
      if capacity == 0 {
        return Null, 0;
      }
      hash := HashFunc(key);
      TableSize(nodes[..], hasher, model);
      var i := hash % capacity;
      FirstProbe(hash, capacity);
      if Holds(nodes[i], hash, key) {
        HeldIsLive(nodes[..], hasher, model, key, i);
        return At(i), hash;
      }
      var freeNode := Null;
      SearchStarts(nodes[..], hash, key);
      NoneLiveYet(nodes[..], hash);
      if nodes[i].IsDeleted() {
        freeNode := At(i);
      }
      ghost var stop := ProbesMeetUnused(nodes[..], hash);
      var numProbes := 0;
      while !nodes[i].IsUnused()
        invariant numProbes <= stop && i == Slot(hash, numProbes, capacity)
                  && Searched(nodes[..], hash, key, numProbes)
        invariant freeNode.At? ==> freeNode.n < capacity && FirstFree(nodes[..], hash, freeNode.n)
        invariant freeNode.Null? ==>
                    if nodes[i].IsUnused() then FirstFree(nodes[..], hash, i)
                    else LiveThrough(nodes[..], hash, numProbes)
        decreases stop - numProbes
      {
        NextProbe(hash, numProbes, capacity);
        numProbes := numProbes + 1;
        i := (i + numProbes) % capacity;
        if Holds(nodes[i], hash, key) {
          HeldIsLive(nodes[..], hasher, model, key, i);
          return At(i), hash;
        }
        SearchGoesOn(nodes[..], hash, key, numProbes - 1);
        if freeNode.Null? {
          LiveSoFar(nodes[..], hash, numProbes);
        }
        if nodes[i].IsDeleted() && freeNode.Null? {
          freeNode := At(i);
        }
      }
      UnusedMeansAbsent(nodes[..], hasher, model, key, numProbes);
      place := if freeNode.At? then freeNode else At(i);
      FirstFreeIsPlace(nodes[..], hash, place.n);
    }

    /** Moves the live nodes into a new table; the deleted ones are left behind. */
    method Grow(newCapacity: nat)
      requires Valid() && PowerOfTwo(newCapacity) && INITIAL_CAPACITY <= newCapacity && capacity < newCapacity
      modifies this
      ensures Valid() && model == old(model) && fresh(nodes) && capacity == newCapacity
      ensures numUsed == size == Used(nodes[..])
    {
      var newNodes := new Node<K, V>[newCapacity](_ => Node(UNUSED_HASH, NoData));
      if capacity == 0 {
        WithoutCapacity();
      }
      Rehash(newNodes, capacity, nodes, hasher, model);
      capacity := newCapacity;
      nodes := newNodes;
      numUsed := size;
    }

    method GrowDouble()
      requires Valid()
      modifies this
      ensures Valid() && model == old(model) && fresh(nodes)
      ensures capacity == if old(capacity) == 0 then 64 else 2 * old(capacity)
      ensures numUsed == size && numUsed + 1 < capacity
    {
      TableSize(nodes[..], hasher, model);
      NextPower(capacity);
      Grow(if capacity == 0 then INITIAL_CAPACITY else capacity * 2);
    }

    predicate Loaded()
      reads this
    {
      numUsed * loadFactor4 >= capacity * 4
    }

    /** Puts an entry where a search for its key said. */
    method Fill(n: nat, hash: nat, key: K, value: V)
      requires Valid() && key !in model && n < capacity && numUsed + 1 < capacity
      requires hash == HashFunc(key) && PlaceFor(nodes[..], hash, n)
      modifies this, nodes
      ensures Valid() && model == old(model)[key := value] && nodes == old(nodes)
      ensures nodes[n] == Node(hash, Entry(key, value)) && capacity == old(capacity)
    {
      hide Slot, MaskHash, Table, Used, PlaceFor;
      ghost var before := nodes[..];
      UsedUpdate(before, n, Node(hash, Entry(key, value)));
      PlaceKeepsTable(before, hasher, model, key, value, n);
      if nodes[n].IsUnused() {
        numUsed := numUsed + 1;
      }
      nodes[n] := Node(hash, Entry(key, value));
      assert nodes[..] == before[n := nodes[n]];
      model := model[key := value];
      size := size + 1;
      TableUses(nodes[..], hasher, model);
    }

    /** Inserts unless the key is there. */
    method Insert(key: K, value: V) returns (n: nat, inserted: bool)
      requires Valid()
      modifies this, nodes
      ensures Valid() && (nodes == old(nodes) || fresh(nodes))
      ensures inserted <==> key !in old(model)
      ensures model == if inserted then old(model)[key := value] else old(model)
      ensures capacity == if old(numUsed * loadFactor4 < capacity * 4) then old(capacity)
                          else if old(capacity) == 0 then 64 else 2 * old(capacity)
      ensures n < capacity && Holds(nodes[n], HashFunc(key), key) && nodes[n].data.value == model[key]
    {
      hide Table, MaskHash, Used;
      LoadFactorKeepsRoom(loadFactor4, if capacity == 0 then INITIAL_CAPACITY else capacity);
      if Loaded() {
        GrowDouble();
      }
      var place, hash := FindForInsert(key);
      n := place.n;
      inserted := !nodes[n].IsOccupied();
      if inserted {
        Fill(n, hash, key, value);
      }
    }

    /** The node of a key, which is inserted with a default value if it was absent. */
    method Index(key: K, default: V) returns (n: nat)
      requires Valid()
      modifies this, nodes
      ensures Valid() && (nodes == old(nodes) || fresh(nodes))
      ensures model == if key in old(model) then old(model) else old(model)[key := default]
      ensures n < capacity && Holds(nodes[n], HashFunc(key), key) && nodes[n].data.value == model[key]
    {
      hide Table, MaskHash, Used;
      var place, hash := FindForInsert(key);
      if place.Null? || !nodes[place.n].IsOccupied() {
        n := InsertAt(place, hash, key, default);
      } else {
        n := place.n;
      }
    }

    method InsertAt(place: Place, hash: nat, key: K, value: V) returns (n: nat)
      requires Valid() && key !in model && (place.Null? <==> capacity == 0)
      requires place.At? ==> place.n < capacity && hash == HashFunc(key) && PlaceFor(nodes[..], hash, place.n)
      modifies this, nodes
      ensures Valid() && (nodes == old(nodes) || fresh(nodes)) && model == old(model)[key := value]
      ensures n < capacity && Holds(nodes[n], HashFunc(key), key) && nodes[n].data.value == value
    {
      hide Table, MaskHash, Used, PlaceFor;
      if place.Null? || Loaded() {
        var inserted;
        n, inserted := Insert(key, value);
      } else {
        LoadFactorKeepsRoom(loadFactor4, capacity);
        n := place.n;
        Fill(n, hash, key, value);
      }
    }

    /** Assigns through the reference that operator[] returned. */
    method SetValue(n: nat, value: V)
      requires Valid() && n < capacity && nodes[n].IsOccupied() && nodes[n].data.Entry?
      modifies `model, nodes
      ensures Valid() && model == old(model)[old(nodes[n].data.key) := value]
    {
      hide Slot, MaskHash, Table, Used;
      ghost var before := nodes[..];
      LiveEntry(before, hasher, model, n);
      ghost var k := nodes[n].data.key;
      AssignKeepsTable(before, hasher, model, n, value);
      UsedUpdate(before, n, nodes[n].(data := Entry(nodes[n].data.key, value)));
      nodes[n] := nodes[n].(data := Entry(nodes[n].data.key, value));
      assert nodes[..] == before[n := nodes[n]];
      ghost var grown := model.Keys + {k};
      assert grown == model.Keys;
      model := model[k := value];
      assert model.Keys == grown;
    }

    /** Marks the node of a key deleted, if there is one. */
    method Erase(key: K) returns (erased: nat)
      requires Valid()
      modifies this, nodes
      ensures Valid() && nodes == old(nodes) && model == old(model) - {key}
      ensures erased == (if key in old(model) then 1 else 0) && numUsed == old(numUsed)
    {
      hide Table, MaskHash, Used;
      var n := Lookup(key);
      if n != capacity && nodes[n].IsOccupied() {
        EraseNode(n);
        erased := 1;
      } else {
        erased := 0;
      }
    }

    method EraseNode(n: nat)
      requires Valid() && n < capacity && nodes[n].IsOccupied() && nodes[n].data.Entry?
      modifies this, nodes
      ensures Valid() && nodes == old(nodes) && model == old(model) - {old(nodes[n].data.key)}
              && numUsed == old(numUsed)
    {
      hide Slot, MaskHash, Table, Used;
      ghost var before := nodes[..];
      ghost var k := nodes[n].data.key;
      LiveEntry(before, hasher, model, n);
      RemoveKeepsTable(before, hasher, model, n);
      UsedUpdate(before, n, Node(DELETED_HASH, NoData));
      nodes[n] := Node(DELETED_HASH, NoData);
      assert nodes[..] == before[n := nodes[n]];
      assert model.Keys == (model.Keys - {k}) + {k};
      model := model - {k};
      size := size - 1;
    }

    method Clear()
      requires Valid()
      modifies this, nodes
      ensures Valid() && model == map[] && numUsed == size == 0 && capacity == old(capacity) && nodes == old(nodes)
      ensures forall i :: 0 <= i < nodes.Length ==> nodes[i].IsUnused()
    {
      hide Slot, MaskHash, Table, Used;
      if capacity == 0 {
        WithoutCapacity();
      }
      TableSize(nodes[..], hasher, model);
      var iter := 0;
      while iter != capacity
        invariant iter <= capacity
        invariant forall i :: 0 <= i < iter ==> nodes[i].IsUnused()
        invariant capacity == 0 ==> nodes[0].IsUnused()
        modifies nodes
      {
        nodes[iter] := nodes[iter].(hash := UNUSED_HASH);
        iter := iter + 1;
      }
      size, numUsed, model := 0, 0, map[];
      EmptyTable(nodes[..], hasher);
      UnusedCounts(nodes[..]);
    }

    /** Makes room for at least so many nodes; never shrinks. */
    method Reserve(minSize: nat)
      requires Valid()
      modifies this
      ensures Valid() && model == old(model) && capacity >= minSize && capacity >= old(capacity)
      ensures capacity > old(capacity) ==> capacity == 64 || capacity < 2 * minSize
      ensures nodes == old(nodes) || fresh(nodes)
    {
      hide Table, Used, PowerOfTwo;
      TableSize(nodes[..], hasher, model);
      NextPower(capacity);
      var newCapacity := if capacity == 0 then INITIAL_CAPACITY else capacity;
      while newCapacity < minSize
        invariant PowerOfTwo(newCapacity) && newCapacity >= INITIAL_CAPACITY && newCapacity >= capacity
        invariant newCapacity > capacity ==> newCapacity == 64 || newCapacity < 2 * minSize
        modifies {}
      {
        NextPower(newCapacity);
        newCapacity := newCapacity * 2;
      }
      if newCapacity > capacity {
        Grow(newCapacity);
      }
    }

    /** Copies another map; the nodes are kept when they are enough. Deleted nodes are not copied but
        stay in the count of used nodes, which is right exactly when the other map counts none. */
    method Assign(rhs: HashMap<K, V>)
      requires Valid() && rhs.Valid() && rhs.hasher == hasher && (rhs != this ==> rhs.nodes != nodes)
      modifies this, nodes
      ensures Valid() && model == old(rhs.model) && (nodes == old(nodes) || fresh(nodes))
      ensures rhs != this ==> capacity >= rhs.capacity && numUsed == rhs.numUsed && Used(nodes[..]) == size == rhs.size
      ensures rhs != this ==> (numUsed == Used(nodes[..]) <==> rhs.numUsed == rhs.size)
    {
      hide Slot, MaskHash, Table, Used, PowerOfTwo;
      if rhs != this {
        Clear();
        TableSize(nodes[..], hasher, model);
        TableSize(rhs.nodes[..], hasher, rhs.model);
        if capacity < rhs.capacity {
          nodes := new Node<K, V>[rhs.capacity](_ => Node(UNUSED_HASH, NoData));
          capacity := rhs.capacity;
        }
        if rhs.capacity == 0 {
          rhs.WithoutCapacity();
        }
        if capacity == 0 {
          EmptyTable(nodes[..], hasher);
          UnusedCounts(nodes[..]);
        } else {
          Rehash(nodes, rhs.capacity, rhs.nodes, hasher, rhs.model);
        }
        size := rhs.size;
        numUsed := rhs.numUsed;
        model := rhs.model;
      }
    }
  }

  /** A count that is wrong: an entry inserted and erased leaves no used node in a copy that counts one. */
  method CopyMiscounts<K(==), V>(hasher: K -> nat, key: K, value: V) returns (copy: HashMap<K, V>)
    ensures copy.Valid() && copy.model == map[] && Used(copy.nodes[..]) == 0 < copy.numUsed
  {
    var source := new HashMap<K, V>(hasher, 5);
    var n, inserted := source.Insert(key, value);
    assert key in source.model;
    assert |source.model| > 0;
    var erased := source.Erase(key);
    assert source.model == map[];
    copy := new HashMap<K, V>(hasher, 5);
    copy.Assign(source);
  }
}
