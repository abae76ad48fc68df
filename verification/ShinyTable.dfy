/** What the node table of the Shiny profiler holds (3rdparty/Shiny/src/ShinyManager.c). */
module ShinyTable {
  import opened Probing
  import opened OddProbing
  import opened ShinyNodes

  type Table = seq<ShinyNode?>

  /** A word made of two addresses. */
  type AddressHash = (ShinyNode, ShinyZone) -> nat

  function HashValue(hash: AddressHash, parent: ShinyNode, zone: ShinyZone): (h: nat)
    ensures h < WORD
  {
    hash(parent, zone) % WORD
  }

  predicate IsEqual(n: ShinyNode, parent: ShinyNode, zone: ShinyZone) { n.parent == parent && n.zone == zone }

  /** The first `p` probes of a hash meet nodes. */
  ghost predicate PathTo(t: Table, h: nat, p: nat) {
    |t| > 0 && forall q: nat :: q < p ==> t[StepSlot(h, q, |t|)] != null
  }

  ghost predicate FoundAt(t: Table, h: nat, p: nat, n: ShinyNode) {
    PathTo(t, h, p) && t[StepSlot(h, p, |t|)] == n
  }

  ghost predicate Found(t: Table, hash: AddressHash, n: ShinyNode) {
    exists p: nat :: FoundAt(t, HashValue(hash, n.parent, n.zone), p, n)
  }

  /** The slots hold these nodes, none twice. */
  ghost predicate Holds(t: Table, nodes: set<ShinyNode>) {
    && (forall i :: 0 <= i < |t| && t[i] != null ==> t[i] in nodes)
    && (forall i, j :: 0 <= i < j < |t| && t[i] != null ==> t[i] != t[j])
  }

  ghost predicate TableOk(t: Table, hash: AddressHash, nodes: set<ShinyNode>) {
    && PowerOfTwo(|t|) && |t| <= WORD && Holds(t, nodes)
    && forall n :: n in nodes ==> Found(t, hash, n)
  }

  lemma EmptyTable(t: Table, hash: AddressHash)
    requires PowerOfTwo(|t|) && |t| <= WORD && forall i :: 0 <= i < |t| ==> t[i] == null
    ensures TableOk(t, hash, {})
  {
  }

  // ---------- Room ----------

  lemma {:induction false} HoldsCount(t: Table, nodes: set<ShinyNode>)
    requires Holds(t, nodes) && forall i :: 0 <= i < |t| ==> t[i] != null
    ensures |t| <= |nodes|
  {
    if t != [] {
      var n: ShinyNode := t[|t| - 1];
      HoldsCount(t[..|t| - 1], nodes - {n});
    }
  }

  /** A table with more slots than nodes has an unused slot among the probes of any hash. */
  lemma ProbesMeetUnused(t: Table, hash: AddressHash, nodes: set<ShinyNode>, h: nat)
    requires TableOk(t, hash, nodes) && |nodes| < |t|
    ensures exists p: nat :: p < |t| && t[StepSlot(h, p, |t|)] == null
  {
    if forall i :: 0 <= i < |t| ==> t[i] != null {
      HoldsCount(t, nodes);
    } else {
      var i :| 0 <= i < |t| && t[i] == null;
      StepsReachEverySlot(h, |t|, i);
    }
  }

  // ---------- Lookup and insertion ----------

  /** A search that met an unused slot before the node has shown that there is none. */
  lemma UnusedMeansAbsent(t: Table, hash: AddressHash, nodes: set<ShinyNode>, parent: ShinyNode,
                          zone: ShinyZone, p: nat)
    requires TableOk(t, hash, nodes)
    requires var h := HashValue(hash, parent, zone);
             && PathTo(t, h, p) && t[StepSlot(h, p, |t|)] == null
             && forall q: nat :: q < p ==> !IsEqual(t[StepSlot(h, q, |t|)], parent, zone)
    ensures forall n :: n in nodes ==> !IsEqual(n, parent, zone)
  {
    hide StepSlot, PowerOfTwo, HashValue;
    var h := HashValue(hash, parent, zone);
    forall n | n in nodes ensures !IsEqual(n, parent, zone) {
      var hn := HashValue(hash, n.parent, n.zone);
      var q: nat :| FoundAt(t, hn, q, n);
      Apart(t, parent, zone, h, p, n, hn, q);
    }
  }

  lemma Apart(t: Table, parent: ShinyNode, zone: ShinyZone, h: nat, p: nat, n: ShinyNode, hn: nat, q: nat)
    requires PathTo(t, h, p) && t[StepSlot(h, p, |t|)] == null && FoundAt(t, hn, q, n)
    requires forall q: nat :: q < p ==> !IsEqual(t[StepSlot(h, q, |t|)], parent, zone)
    requires IsEqual(n, parent, zone) ==> hn == h
    ensures !IsEqual(n, parent, zone)
  {
    hide StepSlot;
  }

  /** Putting a node where its search ended keeps every other node found. */
  lemma PutKeepsTable(t: Table, hash: AddressHash, nodes: set<ShinyNode>, n: ShinyNode, p: nat)
    requires TableOk(t, hash, nodes) && n !in nodes
    requires var h := HashValue(hash, n.parent, n.zone); PathTo(t, h, p) && t[StepSlot(h, p, |t|)] == null
    ensures TableOk(t[StepSlot(HashValue(hash, n.parent, n.zone), p, |t|) := n], hash, nodes + {n})
  {
    hide StepSlot, PowerOfTwo, HashValue;
    var h := HashValue(hash, n.parent, n.zone);
    var t' := t[StepSlot(h, p, |t|) := n];
    assert FoundAt(t', h, p, n);
    forall m | m in nodes ensures Found(t', hash, m) {
      var hm := HashValue(hash, m.parent, m.zone);
      var q: nat :| FoundAt(t, hm, q, m);
      assert FoundAt(t', hm, q, m);
    }
  }
}
