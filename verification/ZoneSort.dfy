/** ShinyZone_sortChain (3rdparty/Shiny/src/ShinyZone.c): a merge sort of a linked list over four
    tapes, which relinks the records in place. */
module ZoneSort {
  import opened ShinyNodes

  /** Each record points at the next; where the last one points does not matter. */
  ghost predicate Chain(zones: seq<ShinyZone>)
    reads zones
  {
    forall i :: 0 <= i < |zones| - 1 ==> zones[i].next == zones[i + 1]
  }

  class Tape {
    var first: ShinyZone?
    var last: ShinyZone?
    var count: nat
    ghost var zones: seq<ShinyZone>

    /** Of a new tape only the count is set; the pointers are whatever they were. */
    constructor (first: ShinyZone?, last: ShinyZone?)
      ensures count == 0 && zones == [] && Valid() && Ended() && this.first == first
    {
      this.first, this.last, count, zones := first, last, 0, [];
    }

    ghost predicate Valid()
      reads this, zones
    {
      && count == |zones|
      && (count > 0 ==> first == zones[0])
      && Chain(zones)
    }

    /** The last record is known too, as on a tape written to by a merge. */
    ghost predicate Ended()
      reads this, zones
    {
      Valid() && (count > 0 ==> last == zones[count - 1])
    }
  }

  predicate NoTwice(s: seq<ShinyZone>) {
    forall i, j :: 0 <= i < j < |s| ==> s[i] != s[j]
  }

  predicate In(s: seq<ShinyZone>, all: set<ShinyZone>) {
    forall i :: 0 <= i < |s| ==> s[i] in all
  }

  predicate Apart(a: seq<ShinyZone>, b: seq<ShinyZone>) {
    forall i, j :: 0 <= i < |a| && 0 <= j < |b| ==> a[i] != b[j]
  }

  /** The first record of one tape becomes the last of another. */
  method Move(chosen: Tape, output: Tape)
    requires chosen != output && chosen.Valid() && output.Ended() && chosen.count > 0
    requires NoTwice(output.zones) && Apart(output.zones, chosen.zones)
    modifies chosen, output, output.zones`next
    ensures chosen.Valid() && output.Ended()
    ensures chosen.zones == old(chosen.zones)[1..] && output.zones == old(output.zones) + [old(chosen.zones)[0]]
  {
    ghost var rest, out := chosen.zones, output.zones;
    chosen.count := chosen.count - 1;
    var chosenRecord := chosen.first;
    chosen.first := chosenRecord.next;
    if output.count == 0 {
      output.first := chosenRecord;
    } else {
      output.last.next := chosenRecord;
    }
    output.last := chosenRecord;
    output.count := output.count + 1;
    chosen.zones, output.zones := rest[1..], out + [rest[0]];
  }

  // ---------- No record is lost or doubled ----------

  ghost predicate Whole(a: seq<ShinyZone>, b: seq<ShinyZone>, c: seq<ShinyZone>, d: seq<ShinyZone>,
                        all: set<ShinyZone>) {
    multiset(a) + multiset(b) + multiset(c) + multiset(d) == multiset(all)
  }

  lemma TwiceCounts(s: seq<ShinyZone>, i: nat, j: nat)
    requires i < j < |s|
    ensures s[i] == s[j] ==> multiset(s)[s[i]] >= 2
  {
    assert s == s[..i] + [s[i]] + s[i + 1..j] + [s[j]] + s[j + 1..];
  }

  lemma WholeApart(a: seq<ShinyZone>, b: seq<ShinyZone>, c: seq<ShinyZone>, d: seq<ShinyZone>, all: set<ShinyZone>)
    requires Whole(a, b, c, d, all)
    ensures NoTwice(c) && Apart(c, a) && Apart(c, b) && Apart(c, d)
    ensures In(c, all)
  {
    forall i, j | 0 <= i < j < |c| ensures c[i] != c[j] {
      TwiceCounts(c, i, j);
      assert multiset(c)[c[i]] <= multiset(all)[c[i]] <= 1;
    }
    forall z | z in c ensures z !in a && z !in b && z !in d && z in all {
      assert multiset(c)[z] >= 1;
      assert multiset(all)[z] == multiset(a)[z] + multiset(b)[z] + multiset(c)[z] + multiset(d)[z];
      assert z in a ==> multiset(a)[z] >= 1;
      assert z in b ==> multiset(b)[z] >= 1;
      assert z in d ==> multiset(d)[z] >= 1;
    }
    ApartFrom(c, a);
    ApartFrom(c, b);
    ApartFrom(c, d);
  }

  lemma ApartFrom(c: seq<ShinyZone>, a: seq<ShinyZone>)
    requires forall z :: z in c ==> z !in a
    ensures Apart(c, a)
  {
    forall i, j | 0 <= i < |c| && 0 <= j < |a| ensures c[i] != a[j] {
      assert c[i] in c && c[i] !in a && a[j] in a;
    }
  }

  lemma WholeMoves(a: seq<ShinyZone>, b: seq<ShinyZone>, c: seq<ShinyZone>, d: seq<ShinyZone>, all: set<ShinyZone>)
    requires Whole(a, b, c, d, all) && a != []
    ensures Whole(a[1..], b, c + [a[0]], d, all)
  {
    assert a == [a[0]] + a[1..];
  }

  lemma WholeSwaps(a: seq<ShinyZone>, b: seq<ShinyZone>, c: seq<ShinyZone>, d: seq<ShinyZone>, all: set<ShinyZone>)
    requires Whole(a, b, c, d, all)
    ensures Whole(b, a, c, d, all) && Whole(c, d, a, b, all) && Whole(a, b, d, c, all)
  {
  }

  // ---------- Runs ----------

  /** What the zones are sorted by, as it is while they are sorted. */
  type Averages = ShinyZone -> int

  ghost predicate Shown(avg: Averages, all: set<ShinyZone>)
    reads all`avg
  {
    forall z :: z in all ==> z.avg == avg(z)
  }

  lemma FirstsShown(avg: Averages, a: seq<ShinyZone>, b: seq<ShinyZone>, c: seq<ShinyZone>, d: seq<ShinyZone>,
                    all: set<ShinyZone>)
    requires Shown(avg, all) && Whole(a, b, c, d, all) && a != [] && b != []
    ensures a[0].avg == avg(a[0]) && b[0].avg == avg(b[0])
  {
    hide Whole;
    InAll(a, b, c, d, all);
  }

  /** Sorted with the largest first. */
  predicate Sorted(avg: Averages, s: seq<ShinyZone>) {
    forall i, j :: 0 <= i < j < |s| ==> avg(s[i]) >= avg(s[j])
  }

  predicate Above(avg: Averages, s: seq<ShinyZone>, t: seq<ShinyZone>) {
    forall i, j :: 0 <= i < |s| && 0 <= j < |t| ==> avg(s[i]) >= avg(t[j])
  }

  /** What is merged so far, and what is left of two runs. */
  ghost predicate Merging(avg: Averages, out: seq<ShinyZone>, x: seq<ShinyZone>, y: seq<ShinyZone>,
                          from: multiset<ShinyZone>) {
    Sorted(avg, out) && Sorted(avg, x) && Sorted(avg, y) && Above(avg, out, x) && Above(avg, out, y)
        && multiset(out) + multiset(x) + multiset(y) == from
  }

  lemma MergeTakes(avg: Averages, out: seq<ShinyZone>, x: seq<ShinyZone>, y: seq<ShinyZone>, from: multiset<ShinyZone>)
    requires Merging(avg, out, x, y, from) && x != [] && (y != [] ==> avg(x[0]) >= avg(y[0]))
    ensures Merging(avg, out + [x[0]], x[1..], y, from)
  {
    assert x == [x[0]] + x[1..];
  }

  lemma MergeSwaps(avg: Averages, out: seq<ShinyZone>, x: seq<ShinyZone>, y: seq<ShinyZone>, from: multiset<ShinyZone>)
    requires Merging(avg, out, x, y, from)
    ensures Merging(avg, out, y, x, from)
  {
  }

  lemma MergeStarts(avg: Averages, x: seq<ShinyZone>, y: seq<ShinyZone>)
    requires Sorted(avg, x) && Sorted(avg, y)
    ensures Merging(avg, [], x, y, multiset(x) + multiset(y))
  {
  }

  lemma MergeEnds(avg: Averages, out: seq<ShinyZone>, from: multiset<ShinyZone>)
    requires Merging(avg, out, [], [], from)
    ensures Sorted(avg, out) && multiset(out) == from
  {
  }

  /** Moves one record while the other two tapes stay as they are. */
  method MoveOne(chosen: Tape, idle: Tape, output: Tape, other: Tape, ghost all: set<ShinyZone>)
    requires chosen != idle && chosen != output && chosen != other && idle != output && idle != other && output != other
    requires chosen.Valid() && idle.Valid() && output.Ended() && other.Ended() && chosen.count > 0
    requires Whole(chosen.zones, idle.zones, output.zones, other.zones, all)
    modifies chosen, output, all`next
    ensures chosen.Valid() && idle.Valid() && output.Ended() && other.Ended()
    ensures Whole(chosen.zones, idle.zones, output.zones, other.zones, all)
    ensures chosen.zones == old(chosen.zones)[1..] && output.zones == old(output.zones) + [old(chosen.zones)[0]]
  {
    hide Whole;
    WholeApart(chosen.zones, idle.zones, output.zones, other.zones, all);
    WholeMoves(chosen.zones, idle.zones, output.zones, other.zones, all);
    Move(chosen, output);
  }

  lemma TakeFront(zones: seq<ShinyZone>, x: seq<ShinyZone>, rest: seq<ShinyZone>, written: seq<ShinyZone>,
                  before: seq<ShinyZone>, out: seq<ShinyZone>)
    requires zones == x + rest && x != [] && written == before + out
    ensures zones != [] && zones[0] == x[0] && zones[1..] == x[1..] + rest
            && written + [zones[0]] == before + (out + [x[0]])
  {
  }

  /** Takes the first record of one run, which is not below that of the other. */
  method MergeNext(ghost avg: Averages, chosen: Tape, idle: Tape, output: Tape, other: Tape,
                   ghost all: set<ShinyZone>, ghost x: seq<ShinyZone>, ghost rest: seq<ShinyZone>,
                   ghost y: seq<ShinyZone>, ghost before: seq<ShinyZone>, ghost run: seq<ShinyZone>,
                   ghost from: multiset<ShinyZone>)
    requires chosen != idle && chosen != output && chosen != other && idle != output && idle != other && output != other
    requires chosen.Valid() && idle.Valid() && output.Ended() && other.Ended()
    requires Whole(chosen.zones, idle.zones, output.zones, other.zones, all) && Shown(avg, all)
    requires chosen.zones == x + rest && x != [] && output.zones == before + run
    requires Merging(avg, run, x, y, from) && (y != [] ==> avg(x[0]) >= avg(y[0]))
    modifies chosen, output, all`next
    ensures chosen.Valid() && idle.Valid() && output.Ended() && other.Ended()
    ensures Whole(chosen.zones, idle.zones, output.zones, other.zones, all) && Shown(avg, all)
    ensures chosen.zones == x[1..] + rest && output.zones == before + (run + [x[0]])
    ensures Merging(avg, run + [x[0]], x[1..], y, from)
  {
    hide Whole, Merging, Chain, Shown;
    TakeFront(chosen.zones, x, rest, output.zones, before, run);
    MergeTakes(avg, run, x, y, from);
    MoveOne(chosen, idle, output, other, all);
  }

  /** Merges the first run of two tapes onto a third. The runs end after `blockSize` records or with the tape. */
  method MergeRuns(ghost avg: Averages, tape0: Tape, tape1: Tape, output: Tape, other: Tape, blockSize: nat,
                   ghost all: set<ShinyZone>,
                   ghost r0: seq<ShinyZone>, ghost rest0: seq<ShinyZone>, ghost r1: seq<ShinyZone>,
                       ghost rest1: seq<ShinyZone>)
    returns (ghost run: seq<ShinyZone>)
    requires tape0 != tape1 && tape0 != output && tape0 != other && tape1 != output && tape1 != other && output != other
    requires Shown(avg, all)
    requires tape0.Valid() && tape1.Valid() && output.Ended() && other.Ended()
    requires Whole(tape0.zones, tape1.zones, output.zones, other.zones, all)
    requires tape0.zones == r0 + rest0 && tape1.zones == r1 + rest1 && Sorted(avg, r0) && Sorted(avg, r1)
    requires |r0| <= blockSize && |r1| <= blockSize && (|r0| < blockSize ==> rest0 == [])
             && (|r1| < blockSize ==> rest1 == [])
    modifies tape0, tape1, output, all`next
    ensures tape0.Valid() && tape1.Valid() && output.Ended() && other.Ended()
    ensures Whole(tape0.zones, tape1.zones, output.zones, other.zones, all)
    ensures tape0.zones == rest0 && tape1.zones == rest1 && output.zones == old(output.zones) + run
    ensures Sorted(avg, run) && multiset(run) == multiset(r0) + multiset(r1)
  {
    hide Whole, Sorted, Merging, Tape.Ended, Chain, Shown, In, NoTwice, Apart;
    var n0, n1 := blockSize, blockSize;
    ghost var x, y, from, before := r0, r1, multiset(r0) + multiset(r1), output.zones;
    run := [];
    MergeStarts(avg, r0, r1);
    while true
      invariant tape0.Valid() && tape1.Valid() && output.Ended() && other.Ended()
      invariant Whole(tape0.zones, tape1.zones, output.zones, other.zones, all)
      invariant tape0.zones == x + rest0 && tape1.zones == y + rest1 && output.zones == before + run
      invariant n0 == blockSize - (|r0| - |x|) >= 0 && n1 == blockSize - (|r1| - |y|) >= 0
      invariant Merging(avg, run, x, y, from) && Shown(avg, all)
      decreases |x| + |y|
    {
      var fromTape1;
      if n0 == 0 || tape0.count == 0 {
        if n1 == 0 || tape1.count == 0 {
          break;
        }
        fromTape1 := true;
      } else if n1 == 0 || tape1.count == 0 {
        fromTape1 := false;
      } else {
        FirstsShown(avg, tape0.zones, tape1.zones, output.zones, other.zones, all);
        fromTape1 := tape1.first.avg - tape0.first.avg > 0;
      }
      if fromTape1 {
        n1 := n1 - 1;
        WholeSwaps(tape0.zones, tape1.zones, output.zones, other.zones, all);
        MergeSwaps(avg, run, x, y, from);
        MergeNext(avg, tape1, tape0, output, other, all, y, rest1, x, before, run, from);
        run, y := run + [y[0]], y[1..];
        WholeSwaps(tape1.zones, tape0.zones, output.zones, other.zones, all);
        MergeSwaps(avg, run, y, x, from);
      } else {
        n0 := n0 - 1;
        MergeNext(avg, tape0, tape1, output, other, all, x, rest0, y, before, run, from);
        run, x := run + [x[0]], x[1..];
      }
    }
    MergeEnds(avg, run, from);
  }

  // ---------- A pass over two tapes ----------

  function Flatten(runs: seq<seq<ShinyZone>>): seq<ShinyZone> {
    if runs == [] then [] else runs[0] + Flatten(runs[1..])
  }

  lemma {:induction false} FlattenAppends(runs: seq<seq<ShinyZone>>, run: seq<ShinyZone>)
    ensures Flatten(runs + [run]) == Flatten(runs) + run
  {
    if runs == [] {
      assert [run][1..] == [];
    } else {
      assert (runs + [run])[1..] == runs[1..] + [run];
      FlattenAppends(runs[1..], run);
    }
  }

  /** Sorted runs dealt out in turn to two tapes, each as long as `b` unless it is the very last. */
  ghost predicate Alternating(avg: Averages, r0: seq<seq<ShinyZone>>, r1: seq<seq<ShinyZone>>, b: nat) {
    && |r1| <= |r0| <= |r1| + 1
    && (forall i :: 0 <= i < |r0| ==> 0 < |r0[i]| <= b && Sorted(avg, r0[i]))
    && (forall i :: 0 <= i < |r1| ==> 0 < |r1[i]| <= b && Sorted(avg, r1[i]))
    && (forall i :: 0 <= i < |r1| ==> |r0[i]| == b)
    && (forall i :: 0 <= i < |r0| - 1 ==> |r1[i]| == b)
  }

  /** As long as more runs come, all are full. */
  ghost predicate Filling(avg: Averages, r0: seq<seq<ShinyZone>>, r1: seq<seq<ShinyZone>>, b: nat, more: bool) {
    && Alternating(avg, r0, r1, b)
    && (more ==> (forall i :: 0 <= i < |r0| ==> |r0[i]| == b) && (forall i :: 0 <= i < |r1| ==> |r1[i]| == b))
  }

  function Head(runs: seq<seq<ShinyZone>>): seq<ShinyZone> { if runs == [] then [] else runs[0] }

  function Tail(runs: seq<seq<ShinyZone>>): seq<seq<ShinyZone>> { if runs == [] then [] else runs[1..] }

  lemma HeadsMerge(avg: Averages, r0: seq<seq<ShinyZone>>, r1: seq<seq<ShinyZone>>, b: nat)
    requires Alternating(avg, r0, r1, b) && r0 != []
    ensures Flatten(r0) == Head(r0) + Flatten(Tail(r0)) && Flatten(r1) == Head(r1) + Flatten(Tail(r1))
    ensures Sorted(avg, Head(r0)) && Sorted(avg, Head(r1)) && 0 < |Head(r0)| <= b && |Head(r1)| <= b
    ensures |Head(r0)| < b ==> Flatten(Tail(r0)) == []
    ensures |Head(r1)| < b ==> Flatten(Tail(r1)) == []
    ensures Alternating(avg, Tail(r0), Tail(r1), b)
    ensures Tail(r0) != [] ==> |Head(r0)| == |Head(r1)| == b
  {
  }

  /** The next merged run goes to the tape whose turn it is. */
  lemma Dealt(avg: Averages, d0: seq<seq<ShinyZone>>, d1: seq<seq<ShinyZone>>, b: nat, run: seq<ShinyZone>, more: bool)
    requires Filling(avg, d0, d1, b, true) && Sorted(avg, run) && 0 < |run| <= b && (more ==> |run| == b)
    ensures |d0| == |d1| ==> Filling(avg, d0 + [run], d1, b, more)
    ensures |d0| != |d1| ==> Filling(avg, d0, d1 + [run], b, more)
  {
  }

  /** The four tapes: two to read, two to write. */
  ghost predicate Ready(t0: Tape, t1: Tape, d0: Tape, d1: Tape, all: set<ShinyZone>)
    reads t0, t1, d0, d1, all
  {
    && t0 != t1 && t0 != d0 && t0 != d1 && t1 != d0 && t1 != d1 && d0 != d1
    && In(t0.zones, all) && In(t1.zones, all) && In(d0.zones, all) && In(d1.zones, all)
    && t0.Valid() && t1.Valid() && d0.Ended() && d1.Ended()
    && Whole(t0.zones, t1.zones, d0.zones, d1.zones, all)
  }

  lemma InAll(a: seq<ShinyZone>, b: seq<ShinyZone>, c: seq<ShinyZone>, d: seq<ShinyZone>, all: set<ShinyZone>)
    requires Whole(a, b, c, d, all)
    ensures In(a, all) && In(b, all) && In(c, all) && In(d, all)
  {
    WholeSwaps(a, b, c, d, all);
    WholeApart(a, b, c, d, all);
    WholeSwaps(b, a, c, d, all);
    WholeApart(a, b, d, c, all);
    WholeApart(c, d, a, b, all);
    WholeSwaps(c, d, a, b, all);
    WholeApart(c, d, b, a, all);
  }

  /** Merges the first runs of both source tapes onto one of the others. */
  method MergeInto(ghost avg: Averages, t0: Tape, t1: Tape, output: Tape, other: Tape, b: nat,
                   ghost all: set<ShinyZone>, ghost x0: seq<seq<ShinyZone>>, ghost x1: seq<seq<ShinyZone>>,
                   ghost e: seq<seq<ShinyZone>>)
    returns (ghost run: seq<ShinyZone>)
    requires Ready(t0, t1, output, other, all) && Shown(avg, all) && Alternating(avg, x0, x1, b) && x0 != []
    requires t0.zones == Flatten(x0) && t1.zones == Flatten(x1) && output.zones == Flatten(e)
    modifies t0, t1, output, all`next
    ensures Ready(t0, t1, output, other, all) && Shown(avg, all) && Alternating(avg, Tail(x0), Tail(x1), b)
    ensures t0.zones == Flatten(Tail(x0)) && t1.zones == Flatten(Tail(x1)) && output.zones == Flatten(e + [run])
    ensures Sorted(avg, run) && 0 < |run| <= 2 * b && (Tail(x0) != [] ==> |run| == 2 * b)
  {
    hide Whole, Alternating, Chain, Sorted, Shown, Flatten;
    HeadsMerge(avg, x0, x1, b);
    run := MergeRuns(avg, t0, t1, output, other, b, all, Head(x0), Flatten(Tail(x0)), Head(x1), Flatten(Tail(x1)));
    FlattenAppends(e, run);
    InAll(t0.zones, t1.zones, output.zones, other.zones, all);
    RunLength(run, Head(x0), Head(x1));
  }

  lemma ReadySwaps(t0: Tape, t1: Tape, d0: Tape, d1: Tape, all: set<ShinyZone>)
    requires Ready(t0, t1, d0, d1, all)
    ensures Ready(t0, t1, d1, d0, all)
  {
    WholeSwaps(t0.zones, t1.zones, d0.zones, d1.zones, all);
  }

  /** One pass: the runs of both source tapes are merged in pairs and dealt out to the other two. */
  method MergePass(ghost avg: Averages, t0: Tape, t1: Tape, d0: Tape, d1: Tape, b: nat, ghost all: set<ShinyZone>,
                   ghost r0: seq<seq<ShinyZone>>, ghost r1: seq<seq<ShinyZone>>)
    returns (ghost e0: seq<seq<ShinyZone>>, ghost e1: seq<seq<ShinyZone>>)
    requires Ready(t0, t1, d0, d1, all) && d0.zones == d1.zones == [] && Shown(avg, all)
    requires Alternating(avg, r0, r1, b) && t0.zones == Flatten(r0) && t1.zones == Flatten(r1)
    modifies t0, t1, d0, d1, all`next
    ensures Ready(t0, t1, d0, d1, all) && t0.zones == t1.zones == []
    ensures Alternating(avg, e0, e1, 2 * b) && d0.zones == Flatten(e0) && d1.zones == Flatten(e1)
    ensures |e0| + |e1| == |r0|
  {
    hide Whole, Alternating, Chain, Filling, Sorted, Shown, In;
    ghost var x0, x1 := r0, r1;
    e0, e1 := [], [];
    var dest1 := false;
    StartDealing(avg, r0, r1, b);
    while t0.count != 0
      invariant Ready(t0, t1, d0, d1, all) && Shown(avg, all) && Alternating(avg, x0, x1, b)
      invariant t0.zones == Flatten(x0) && t1.zones == Flatten(x1)
      invariant Filling(avg, e0, e1, 2 * b, x0 != []) && d0.zones == Flatten(e0) && d1.zones == Flatten(e1)
      invariant |e0| == |e1| + (if dest1 then 1 else 0) && |e0| + |e1| + |x0| == |r0|
      decreases |x0|
    {
      ghost var run: seq<ShinyZone>;
      if !dest1 {
        run := MergeInto(avg, t0, t1, d0, d1, b, all, x0, x1, e0);
        Dealt(avg, e0, e1, 2 * b, run, Tail(x0) != []);
        e0 := e0 + [run];
      } else {
        ReadySwaps(t0, t1, d0, d1, all);
        run := MergeInto(avg, t0, t1, d1, d0, b, all, x0, x1, e1);
        ReadySwaps(t0, t1, d1, d0, all);
        Dealt(avg, e0, e1, 2 * b, run, Tail(x0) != []);
        e1 := e1 + [run];
      }
      x0, x1 := Tail(x0), Tail(x1);
      dest1 := !dest1;
    }
    AllDealt(avg, x0, x1, e0, e1, b);
  }

  lemma RunLength(run: seq<ShinyZone>, a: seq<ShinyZone>, b: seq<ShinyZone>)
    requires multiset(run) == multiset(a) + multiset(b)
    ensures |run| == |a| + |b|
  {
    assert |multiset(run)| == |run| && |multiset(a)| == |a| && |multiset(b)| == |b|;
  }

  lemma StartDealing(avg: Averages, r0: seq<seq<ShinyZone>>, r1: seq<seq<ShinyZone>>, b: nat)
    requires Alternating(avg, r0, r1, b)
    ensures Filling(avg, [], [], 2 * b, r0 != [])
  {
  }

  lemma AllDealt(avg: Averages, r0: seq<seq<ShinyZone>>, r1: seq<seq<ShinyZone>>, e0: seq<seq<ShinyZone>>,
                 e1: seq<seq<ShinyZone>>, b: nat)
    requires Alternating(avg, r0, r1, b) && Flatten(r0) == [] && Filling(avg, e0, e1, 2 * b, r0 != [])
    ensures r0 == [] && r1 == [] && Flatten(r1) == [] && Alternating(avg, e0, e1, 2 * b)
  {
  }

  // ---------- The whole sort ----------

  /** A null-terminated list of the records of `zones`. */
  ghost predicate List(first: ShinyZone?, zones: seq<ShinyZone>)
    reads zones
  {
    && first == (if zones == [] then null else zones[0])
    && Chain(zones) && (zones != [] ==> zones[|zones| - 1].next == null)
  }

  /** Puts a record before the others. */
  method Push(tape: Tape, p: ShinyZone)
    requires tape.Valid() && p !in tape.zones
    modifies tape, p`next
    ensures tape.Valid() && tape.zones == [p] + old(tape.zones) && p.next == old(tape.first)
  {
    p.next := tape.first;
    tape.first := p;
    tape.count := tape.count + 1;
    tape.zones := [p] + tape.zones;
  }

  function Singles(zones: seq<ShinyZone>): seq<seq<ShinyZone>> { if zones
                                                                == [] then [] else [[zones[0]]] + Singles(zones[1..]) }

  lemma {:induction false} SinglesFlatten(zones: seq<ShinyZone>)
    ensures Flatten(Singles(zones)) == zones && |Singles(zones)| == |zones|
    ensures forall i :: 0 <= i < |zones| ==> Singles(zones)[i] == [zones[i]]
  {
    if zones != [] {
      SinglesFlatten(zones[1..]);
    }
  }

  lemma SinglesAlternate(avg: Averages, a: seq<ShinyZone>, b: seq<ShinyZone>)
    requires |b| <= |a| <= |b| + 1
    ensures Alternating(avg, Singles(a), Singles(b), 1)
  {
    SinglesFlatten(a);
    SinglesFlatten(b);
  }

  /** Deals the next record of the list to one of two tapes. */
  method Deal(p: ShinyZone, tape: Tape, idle: Tape, ghost rest: seq<ShinyZone>, ghost all: set<ShinyZone>)
      returns (next: ShinyZone?)
    requires tape != idle && tape.Valid() && idle.Valid() && rest != [] && List(p, rest)
             && Whole(tape.zones, idle.zones, rest, [], all)
    modifies tape, p`next
    ensures tape.Valid() && idle.Valid() && tape.zones == [p] + old(tape.zones)
    ensures List(next, rest[1..]) && Whole(tape.zones, idle.zones, rest[1..], [], all)
    ensures p.next == old(tape.first)
  {
    WholeApart(tape.zones, idle.zones, rest, [], all);
    DealtWhole(tape.zones, idle.zones, rest, all);
    next := p.next;
    Push(tape, p);
  }

  lemma DealtWhole(a: seq<ShinyZone>, b: seq<ShinyZone>, rest: seq<ShinyZone>, all: set<ShinyZone>)
    requires rest != [] && Whole(a, b, rest, [], all)
    ensures Whole([rest[0]] + a, b, rest[1..], [], all) && rest[0] !in a
  {
    WholeApart(a, b, rest, [], all);
    assert rest == [rest[0]] + rest[1..];
    assert multiset([rest[0]] + a) == multiset{rest[0]} + multiset(a);
  }

  /** Distributes the records alternately to two tapes. */
  method Distribute(first: ShinyZone?, tape0: Tape, tape1: Tape, ghost chain: seq<ShinyZone>, ghost all: set<ShinyZone>)
    requires List(first, chain) && tape0 != tape1 && tape0.zones == tape1.zones == [] && tape0.Valid() && tape1.Valid()
    requires multiset(chain) == multiset(all) && tape0.first == null
    modifies tape0, tape1, all`next
    ensures tape0.Valid() && tape1.Valid() && |tape1.zones| <= |tape0.zones| <= |tape1.zones| + 1
    ensures Whole(tape0.zones, tape1.zones, [], [], all)
    ensures |chain| == 1 ==> chain[0].next == null
  {
    hide Whole, Chain;
    var p := first;
    var base1 := false;
    ghost var rest := chain;
    DistributeStarts(chain, all);
    while p != null
      invariant List(p, rest) && tape0.Valid() && tape1.Valid()
      invariant Whole(tape0.zones, tape1.zones, rest, [], all)
      invariant |tape0.zones| == |tape1.zones| + if base1 then 1 else 0
      invariant |chain| == 1 ==>
                  if base1 then rest == [] && chain[0].next == null else rest == chain && tape0.first == null
      decreases |rest|
    {
      WholeApart(tape0.zones, tape1.zones, rest, [], all);
      if !base1 {
        p := Deal(p, tape0, tape1, rest, all);
      } else {
        WholeSwaps(tape0.zones, tape1.zones, rest, [], all);
        p := Deal(p, tape1, tape0, rest, all);
        WholeSwaps(tape1.zones, tape0.zones, rest[1..], [], all);
      }
      base1 := !base1;
      rest := rest[1..];
    }
  }

  lemma DistributeStarts(chain: seq<ShinyZone>, all: set<ShinyZone>)
    requires multiset(chain) == multiset(all)
    ensures Whole([], [], chain, [], all)
  {
  }

  /** Pass after pass between the two pairs of tapes, until one run is left. */
  method MergeAll(ghost avg: Averages, a: Tape, b: Tape, c: Tape, d: Tape, ghost all: set<ShinyZone>,
                  ghost runs0: seq<seq<ShinyZone>>, ghost runs1: seq<seq<ShinyZone>>)
    returns (tape0: Tape)
    requires Ready(a, b, c, d, all) && c.zones == d.zones == [] && Shown(avg, all)
    requires Alternating(avg, runs0, runs1, 1) && a.zones == Flatten(runs0) && b.zones == Flatten(runs1)
    modifies a, b, c, d, all`next
    ensures tape0 in {a, b, c, d} && tape0.Valid() && Sorted(avg, tape0.zones) && Whole(tape0.zones, [], [], [], all)
            && In(tape0.zones, all)
    ensures (runs1 != [] ==> tape0.Ended()) && Shown(avg, all)
    ensures runs1 == [] ==> forall z :: z in all ==> z.next == old(z.next)
  {
    hide Whole, Sorted, Chain, Alternating, Flatten, Ready, Shown;
    ghost var r0, r1 := runs0, runs1;
    var tape1, dest0, dest1 := b, c, d;
    var blockSize: nat := 1;
    tape0 := a;
    ghost var tapes := {a, b, c, d};
    ReadyIsWhole(a, b, c, d, all);
    while tape1.count != 0
      invariant tape0 in tapes && tape1 in tapes && dest0 in tapes && dest1 in tapes
      invariant Ready(tape0, tape1, dest0, dest1, all) && dest0.zones == dest1.zones == []
      invariant Alternating(avg, r0, r1, blockSize) && tape0.zones == Flatten(r0) && tape1.zones == Flatten(r1)
      invariant tape0.Valid() && tape1.Valid() && Shown(avg, all)
      invariant runs1 == [] ==> r1 == [] && forall z :: z in all ==> z.next == old(z.next)
      invariant runs1 != [] ==> r1 != [] || tape0.Ended()
      decreases |r0| + |r1|
    {
      NonEmptyRuns(r1);
      r0, r1 := MergeAndTurn(avg, tape0, tape1, dest0, dest1, blockSize, all, r0, r1);
      tape0, tape1, dest0, dest1 := dest0, dest1, tape0, tape1;
      blockSize := blockSize * 2;
    }
    LastPass(avg, r0, r1, blockSize);
    ReadyIsWhole(tape0, tape1, dest0, dest1, all);
    InAll(tape0.zones, tape1.zones, dest0.zones, dest1.zones, all);
  }

  method MergeAndTurn(ghost avg: Averages, t0: Tape, t1: Tape, d0: Tape, d1: Tape, b: nat, ghost all: set<ShinyZone>,
                      ghost r0: seq<seq<ShinyZone>>, ghost r1: seq<seq<ShinyZone>>)
    returns (ghost e0: seq<seq<ShinyZone>>, ghost e1: seq<seq<ShinyZone>>)
    requires Ready(t0, t1, d0, d1, all) && d0.zones == d1.zones == [] && Shown(avg, all)
    requires Alternating(avg, r0, r1, b) && t0.zones == Flatten(r0) && t1.zones == Flatten(r1)
    modifies t0, t1, d0, d1, all`next
    ensures Ready(d0, d1, t0, t1, all) && t0.zones == t1.zones == [] && d0.Ended() && d1.Valid()
    ensures Alternating(avg, e0, e1, 2 * b) && d0.zones == Flatten(e0) && d1.zones == Flatten(e1)
    ensures |e0| + |e1| == |r0|
  {
    hide Whole, Sorted, Chain, Alternating, Flatten, Shown;
    d0.count, d1.count := 0, 0;
    e0, e1 := MergePass(avg, t0, t1, d0, d1, b, all, r0, r1);
    ReadyTurns(t0, t1, d0, d1, all);
  }

  lemma ReadyIsWhole(t0: Tape, t1: Tape, d0: Tape, d1: Tape, all: set<ShinyZone>)
    requires Ready(t0, t1, d0, d1, all)
    ensures Whole(t0.zones, t1.zones, d0.zones, d1.zones, all) && t0.Valid() && t1.Valid()
  {
  }

  /** Drained tapes can be written to, and the others read. */
  lemma ReadyTurns(t0: Tape, t1: Tape, d0: Tape, d1: Tape, all: set<ShinyZone>)
    requires Ready(t0, t1, d0, d1, all) && t0.zones == t1.zones == []
    ensures Ready(d0, d1, t0, t1, all)
  {
    WholeSwaps(t0.zones, t1.zones, d0.zones, d1.zones, all);
  }

  lemma NonEmptyRuns(runs: seq<seq<ShinyZone>>)
    ensures Flatten(runs) != [] ==> runs != []
  {
  }

  /** Sorts a list of two or more records; with fewer it changes nothing and returns no last record. */
  method SortChain(first: ShinyZone?, ghost chain: seq<ShinyZone>)
    returns (newFirst: ShinyZone?, last: ShinyZone?, ghost sorted: seq<ShinyZone>)
    requires List(first, chain) && NoTwice(chain)
    modifies chain`next
    ensures List(newFirst, sorted) && Descending(sorted) && multiset(sorted) == multiset(chain)
    ensures |sorted| == |chain| && NoTwice(sorted)
    ensures |chain| >= 2 ==> last == sorted[|sorted| - 1]
    ensures |chain| < 2 ==> last == null && newFirst == first && sorted == chain
  {
    hide Whole, Alternating, Chain, Flatten, Singles, Ready, Sorted, Shown, Descending;
    ghost var all := set z | z in chain;
    EachOnce(chain, all);
    ghost var avg := Snapshot(all);
    var tape0 := Sort4(avg, first, chain, all);
    if tape0.count > 1 {
      sorted := tape0.zones;
      last := tape0.last;
      newFirst := tape0.first;
      CutTail(last, sorted);
      SortedByAverage(avg, sorted, all);
    } else {
      sorted := chain;
      newFirst, last := first, null;
      AtMostOne(chain);
    }
  }

  lemma Snapshot(all: set<ShinyZone>) returns (avg: Averages)
    ensures Shown(avg, all)
  {
    var shown := map z | z in all :: z.avg;
    avg := z => if z in shown then shown[z] else 0;
  }

  lemma SortedByAverage(avg: Averages, s: seq<ShinyZone>, all: set<ShinyZone>)
    requires Sorted(avg, s) && Shown(avg, all) && In(s, all)
    ensures Descending(s)
  {
  }

  lemma AtMostOne(s: seq<ShinyZone>)
    ensures |s| <= 1 ==> Descending(s)
  {
  }

  /** Sorted by the averages that the zones hold. */
  ghost predicate Descending(s: seq<ShinyZone>)
    reads s`avg
  {
    forall i, j :: 0 <= i < j < |s| ==> s[i].avg >= s[j].avg
  }

  /** Distributes the list and merges it onto one tape. */
  method Sort4(ghost avg: Averages, first: ShinyZone?, ghost chain: seq<ShinyZone>, ghost all: set<ShinyZone>)
      returns (tape0: Tape)
    requires List(first, chain) && all == (set z | z in chain) && multiset(chain) == multiset(all) && Shown(avg, all)
    modifies all`next
    ensures fresh(tape0) && tape0.Valid() && Sorted(avg, tape0.zones) && In(tape0.zones, all) && NoTwice(tape0.zones)
    ensures Shown(avg, all)
    ensures |tape0.zones| == |chain| && multiset(tape0.zones) == multiset(chain)
    ensures |chain| >= 2 ==> tape0.Ended()
    ensures |chain| < 2 ==> List(first, chain)
  {
    hide Whole, Sorted, Alternating, Chain, Flatten, Singles, Shown;
    var a := new Tape(null, first);
    var b := new Tape(first, first);
    var c := new Tape(first, first);
    var d := new Tape(first, first);
    Distribute(first, a, b, chain, all);
    InAll(a.zones, b.zones, [], [], all);
    SinglesAlternate(avg, a.zones, b.zones);
    SinglesFlatten(a.zones);
    SinglesFlatten(b.zones);
    WholeCount(a.zones, b.zones, [], [], all, chain);
    tape0 := MergeAll(avg, a, b, c, d, all, Singles(a.zones), Singles(b.zones));
    WholeCount(tape0.zones, [], [], [], all, chain);
    if |chain| < 2 {
      ShortList(first, chain);
    }
  }

  lemma ShortList(first: ShinyZone?, chain: seq<ShinyZone>)
    requires |chain| < 2 && first == (if chain == [] then null else chain[0])
             && (|chain| == 1 ==> chain[0].next == null)
    ensures List(first, chain)
  {
  }

  /** The last record ends the list. */
  method CutTail(last: ShinyZone, ghost sorted: seq<ShinyZone>)
    requires sorted != [] && Chain(sorted) && NoTwice(sorted) && last == sorted[|sorted| - 1]
    modifies last`next
    ensures List(sorted[0], sorted)
  {
    last.next := null;
  }

  lemma NonEmptyRun(runs: seq<seq<ShinyZone>>, b: nat)
    requires forall i :: 0 <= i < |runs| ==> 0 < |runs[i]| <= b
    ensures runs != [] ==> Flatten(runs) != []
  {
  }

  lemma LastPass(avg: Averages, r0: seq<seq<ShinyZone>>, r1: seq<seq<ShinyZone>>, b: nat)
    requires Alternating(avg, r0, r1, b) && Flatten(r1) == []
    ensures Sorted(avg, Flatten(r0)) && r1 == []
  {
    NonEmptyRun(r1, b);
    if r0 != [] {
      assert r1 == [];
      assert Flatten(r0) == r0[0] + Flatten(r0[1..]) && r0[1..] == [];
    }
  }

  lemma EachOnce(chain: seq<ShinyZone>, all: set<ShinyZone>)
    requires NoTwice(chain) && all == set z | z in chain
    ensures multiset(chain) == multiset(all)
  {
    forall z | true ensures multiset(chain)[z] == multiset(all)[z] {
      OnceOnly(chain, z);
    }
  }

  lemma {:induction false} OnceOnly(s: seq<ShinyZone>, z: ShinyZone)
    requires NoTwice(s)
    ensures multiset(s)[z] == if z in s then 1 else 0
  {
    if s != [] {
      var init, x := s[..|s| - 1], s[|s| - 1];
      assert s == init + [x];
      OnceOnly(init, z);
    }
  }

  lemma WholeCount(a: seq<ShinyZone>, b: seq<ShinyZone>, c: seq<ShinyZone>, d: seq<ShinyZone>, all: set<ShinyZone>,
                   chain: seq<ShinyZone>)
    requires Whole(a, b, c, d, all) && multiset(chain) == multiset(all)
    ensures |a| + |b| + |c| + |d| == |chain|
    ensures b == [] && c == [] && d == [] ==> multiset(a) == multiset(chain) && NoTwice(a)
  {
    assert |multiset(chain)| == |multiset(a)| + |multiset(b)| + |multiset(c)| + |multiset(d)|;
    WholeSwaps(a, b, c, d, all);
    WholeApart(c, d, a, b, all);
  }
}
