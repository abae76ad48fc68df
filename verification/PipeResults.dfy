/** What the callers of the pipe see: the bytes that gets return are the bytes of the child in order,
    and the bytes of the puts that were taken reach the child in order
    (3rdparty/exec-stream/posix/exec-stream-helpers.cpp). */
module PipeResults {
  import opened PipeProtocol
  import opened PipeInvariants
  import opened PipeTheorems
  import opened Wrappers

  // ---------- One get ----------

  /** A get that returns bytes takes the first ones of the queue: as many as it asked for, or all. */
  lemma GetTakesFront(c: Config, s: State)
    requires Enabled(c, s, GetTake) && Apply(c, s, GetTake).user.result.Got?
    ensures var s' := Apply(c, s, GetTake);
            var (k, size, bytes) := (s.user.pc.k, s.user.pc.size, s'.user.result.bytes);
            && s'.user.result.k == k
            && s.Of(k).queue == bytes + s'.Of(k).queue
            && s'.Of(k).delivered == s.Of(k).delivered + bytes
            && |bytes| <= size && (|bytes| == size || s'.Of(k).queue == [])
            && forall other :: other != k ==> s'.Of(other) == s.Of(other)
  {
    hide Apply, DoGetTake;
    TakeOutcome(c, s);
  }

  /** Both ways of taking, with the mutex or from a stopped worker. */
  lemma TakeOutcome(c: Config, s: State)
    requires Enabled(c, s, GetTake)
    ensures CanGetTake(c, s) && Apply(c, s, GetTake) == DoGetTake(c, s)
    ensures var s', k := DoGetTake(c, s), s.user.pc.k;
            && s'.accepted == s.accepted && (forall other :: s'.Of(other).read == s.Of(other).read)
            && (s'.user.pc == UIdle || s'.user.pc == UGetReset(k))
            && if s'.user.result.Threw? then s'.user.pc.UIdle? && forall other :: s'.Of(other) == s.Of(other)
               else
                 && s'.user.result.Got? && s'.user.result.k == k
                 && s.Of(k).queue == s'.user.result.bytes + s'.Of(k).queue
                 && s'.Of(k).delivered == s.Of(k).delivered + s'.user.result.bytes
                 && |s'.user.result.bytes| <= s.user.pc.size
                 && (|s'.user.result.bytes| == s.user.pc.size || s'.Of(k).queue == [])
                 && forall other :: other != k ==> s'.Of(other) == s.Of(other)
  {
    hide TakeOut;
    TakenFromFront(s, s.user.pc.k, s.user.pc.size, {EofBit(s.user.pc.k)});
    TakenFromFront(s, s.user.pc.k, s.user.pc.size, s.user.pc.snap);
  }

  lemma TakenFromFront(s: State, k: Kind, size: nat, snap: set<Bit>)
    ensures var s' := TakeOut(s, k, size, snap);
            && s'.user.result.Got? && s'.user.result.k == k && s'.user.pc == s.user.pc
            && s.Of(k).queue == s'.user.result.bytes + s'.Of(k).queue
            && s'.Of(k).delivered == s.Of(k).delivered + s'.user.result.bytes
            && |s'.user.result.bytes| <= size && (|s'.user.result.bytes| == size || s'.Of(k).queue == [])
            && (forall other :: other != k ==> s'.Of(other) == s.Of(other))
            && s'.accepted == s.accepted && forall other :: s'.Of(other).read == s.Of(other).read
  {
  }

  // ---------- All gets ----------

  predicate Getting(pc: UserPc, k: Kind) {
    (pc.UGetWait? || pc.UGetLock? || pc.UGetReset? || pc.UGetWant?) && pc.k == k
  }

  /** What a step hands to the caller of a get of `k`: the bytes of the result it returns with. */
  function Returns(s: State, s': State, k: Kind): seq<byte> {
    if Getting(s.user.pc, k) && s'.user.pc.UIdle? && s'.user.result.Got? then s'.user.result.bytes else []
  }

  /** The results of all gets of `k` that return during the run, joined in order. */
  function Returned(c: Config, s: State, actions: seq<Action>, k: Kind): seq<byte>
    requires Run(c, s, actions).Some?
    decreases |actions|
  {
    if actions == [] then [] else
      var s' := Apply(c, s, actions[0]);
      Returns(s, s', k) + Returned(c, s', actions[1..], k)
  }

  /** What the child writes to `k` during the run: the chunks that are read from it, joined in order. */
  function ChildBytes(c: Config, s: State, actions: seq<Action>, k: Kind): seq<byte>
    requires Run(c, s, actions).Some?
    decreases |actions|
  {
    if actions == [] then [] else
      (if actions[0].Read? && s.worker.pc == WRead(k) then actions[0].chunk else [])
      + ChildBytes(c, Apply(c, s, actions[0]), actions[1..], k)
  }

  /** Bytes that a get has taken and not yet returned. */
  function Taking(s: State, k: Kind): seq<byte> {
    if (s.user.pc.UGetReset? || s.user.pc.UGetWant?) && s.user.pc.k == k && s.user.result.Got?
    then s.user.result.bytes else []
  }

  /** After gets have returned `got`. */
  predicate HandedOut(s: State, got: seq<byte>, k: Kind) {
    && s.Of(k).delivered == got + Taking(s, k)
    && (s.user.pc.UGetReset? || s.user.pc.UGetWant? ==> s.user.result.Got? && s.user.result.k == s.user.pc.k)
  }

  /** What the worker does leaves the user and what was handed over as they are. */
  predicate ByTheWorker(a: Action) {
    a.Wake? || a.WakeTimeout? || a.Detach? || a.ResetGotIn? || a.SetWantIn? || a.ClosePipe? || a.CheckStop?
    || a.Select? || a.Write? || a.WriteAgain? || a.Read? || a.ReadAgain? || a.Enqueue? || a.ResetWant? || a.SetGot?
    || a.Loop? || a.Halt? || a.Fail?
  }

  lemma WorkerLeavesUser(c: Config, s: State, a: Action)
    requires Enabled(c, s, a) && ByTheWorker(a)
    ensures var s' := Apply(c, s, a);
            s'.user == s.user && s'.accepted == s.accepted && forall k :: s'.Of(k).delivered == s.Of(k).delivered
  {
  }

  /** Of the user's steps only the taking of bytes changes a stream. */
  lemma UserLeavesStreams(c: Config, s: State, a: Action)
    requires Enabled(c, s, a) && !ByTheWorker(a) && a != GetTake
    ensures var s' := Apply(c, s, a);
            && (forall k :: s'.Of(k) == s.Of(k))
            && (s'.user.result.Got? ==> s'.user.result == s.user.result)
            && (s'.user.pc.UGetReset? || s'.user.pc.UGetWant? ==>
                  (s.user.pc.UGetReset? || s.user.pc.UGetWant?) && s'.user.pc.k == s.user.pc.k
                  && s'.user.result == s.user.result)
            && (s'.user.pc.UIdle? && s'.user.result.Got? && !s.user.pc.UIdle? ==>
                  s.user.pc.UGetWant? || Putting(s.user.pc))
            && (s.user.pc.UGetReset? ==> s'.user.pc.UGetWant?)
            && (s.user.pc.UGetWant? ==> s'.user.pc.UIdle? && s'.user.result == s.user.result)
  {
    hide TakeOut, Concat;
  }

  lemma TakeHandsOut(c: Config, s: State, got: seq<byte>, k: Kind)
    requires HandedOut(s, got, k) && Enabled(c, s, GetTake)
    ensures var s' := Apply(c, s, GetTake); HandedOut(s', got + Returns(s, s', k), k)
  {
    hide Apply, DoGetTake;
    TakeOutcome(c, s);
  }

  lemma StepHandsOut(c: Config, s: State, a: Action, got: seq<byte>, k: Kind)
    requires HandedOut(s, got, k) && Enabled(c, s, a)
    ensures var s' := Apply(c, s, a); HandedOut(s', got + Returns(s, s', k), k)
  {
    hide Apply, Enabled;
    if a == GetTake {
      TakeHandsOut(c, s, got, k);
    } else if ByTheWorker(a) {
      WorkerLeavesUser(c, s, a);
    } else {
      UserLeavesStreams(c, s, a);
    }
  }

  lemma {:induction false} RunHandsOut(c: Config, s: State, actions: seq<Action>, got: seq<byte>, k: Kind)
    requires HandedOut(s, got, k) && Run(c, s, actions).Some?
    ensures HandedOut(Run(c, s, actions).value, got + Returned(c, s, actions, k), k)
    decreases |actions|
  {
    hide Enabled, Apply, HandedOut, Returns;
    if actions == [] {
      assert got + [] == got;
    } else {
      var s' := Apply(c, s, actions[0]);
      StepHandsOut(c, s, actions[0], got, k);
      RunHandsOut(c, s', actions[1..], got + Returns(s, s', k), k);
      assert got + Returns(s, s', k) + Returned(c, s', actions[1..], k) == got + Returned(c, s, actions, k);
    }
  }

  lemma TakeReads(c: Config, s: State)
    requires Enabled(c, s, GetTake)
    ensures forall k :: Apply(c, s, GetTake).Of(k).read == s.Of(k).read
  {
    hide Apply, DoGetTake;
    TakeOutcome(c, s);
  }

  lemma WorkerReads(c: Config, s: State, a: Action, k: Kind)
    requires Enabled(c, s, a) && ByTheWorker(a)
    ensures Apply(c, s, a).Of(k).read == s.Of(k).read + if a.Read? && s.worker.pc == WRead(k) then a.chunk else []
  {
    hide Concat;
  }

  lemma StepReads(c: Config, s: State, a: Action, k: Kind)
    requires Enabled(c, s, a)
    ensures Apply(c, s, a).Of(k).read == s.Of(k).read + if a.Read? && s.worker.pc == WRead(k) then a.chunk else []
  {
    hide Apply, Enabled;
    if a == GetTake {
      TakeReads(c, s);
    } else if ByTheWorker(a) {
      WorkerReads(c, s, a, k);
    } else {
      UserLeavesStreams(c, s, a);
    }
  }

  lemma {:induction false} RunReads(c: Config, s: State, actions: seq<Action>, k: Kind)
    requires Run(c, s, actions).Some?
    ensures Run(c, s, actions).value.Of(k).read == s.Of(k).read + ChildBytes(c, s, actions, k)
    decreases |actions|
  {
    hide Enabled, Apply;
    if actions != [] {
      StepReads(c, s, actions[0], k);
      RunReads(c, Apply(c, s, actions[0]), actions[1..], k);
    }
  }

  /** Whatever the threads do, what gets return is the beginning of what the child wrote. While the
      worker has not failed nothing else is missing than what is queued or in flight, or held by a get
      that has yet to return; and when a get reports the end, nothing is missing at all. */
  lemma ResultsAreChildBytes(c: Config, actions: seq<Action>, k: Kind)
    requires Run(c, Initial(), actions).Some?
    ensures Returned(c, Initial(), actions, k) <= ChildBytes(c, Initial(), actions, k)
    ensures var s := Run(c, Initial(), actions).value;
            !s.worker.error ==>
              Returned(c, Initial(), actions, k) + Taking(s, k) + s.Of(k).queue + InFlight(s, k)
              == ChildBytes(c, Initial(), actions, k)
    ensures var s := Run(c, Initial(), actions).value;
            s.user.pc.UIdle? && s.user.result.Got? && s.user.result.k == k && s.user.result.noMore ==>
              Returned(c, Initial(), actions, k) == ChildBytes(c, Initial(), actions, k)
  {
    hide Inv, HandedOut, Run, Returned, ChildBytes, Taking;
    var s := Run(c, Initial(), actions).value;
    assert Reachable(c, s);
    InitialHandsOut(k);
    RunHandsOut(c, Initial(), actions, [], k);
    RunReads(c, Initial(), actions, k);
    DeliveredInOrder(c, s, k);
    if s.user.result.Got? {
      NothingMeansEndOfFile(c, s);
    }
    var got, child := Returned(c, Initial(), actions, k), ChildBytes(c, Initial(), actions, k);
    assert [] + got == got && [] + child == child;
    HandedOutMeans(s, got, k);
    if s.user.pc.UIdle? {
      NothingTaken(s, k);
    }
  }

  lemma InitialHandsOut(k: Kind)
    ensures HandedOut(Initial(), [], k) && Initial().Of(k).read == []
  {
  }

  lemma NothingTaken(s: State, k: Kind)
    requires s.user.pc.UIdle?
    ensures Taking(s, k) == []
  {
  }

  lemma HandedOutMeans(s: State, got: seq<byte>, k: Kind)
    requires HandedOut(s, got, k)
    ensures s.Of(k).delivered == got + Taking(s, k)
  {
  }

  // ---------- All puts ----------

  /** What the put under way was called with. */
  function Source(a: Action, src: seq<byte>): seq<byte> { if a.CallPut? then a.src else src }

  /** What a step adds to the bytes whose put has returned as taken. */
  function Accepts(s: State, s': State, src: seq<byte>): seq<byte> {
    if Putting(s.user.pc) && s'.user.pc.UIdle? && s'.user.result.Taken? then src else []
  }

  /** The arguments of all puts that return as taken during the run, joined in order. */
  function Sent(c: Config, s: State, actions: seq<Action>, src: seq<byte>): seq<byte>
    requires Run(c, s, actions).Some?
    decreases |actions|
  {
    if actions == [] then [] else
      var s' := Apply(c, s, actions[0]);
      Accepts(s, s', src) + Sent(c, s', actions[1..], Source(actions[0], src))
  }

  /** The argument of the put under way after the run. */
  function LastSource(actions: seq<Action>, src: seq<byte>): seq<byte> {
    if actions == [] then src else LastSource(actions[1..], Source(actions[0], src))
  }

  predicate Storing(pc: UserPc) {
    pc.UPutReset? || pc.UPutTell?
  }

  predicate HandedIn(s: State, sent: seq<byte>, src: seq<byte>) {
    && s.accepted == sent + (if Storing(s.user.pc) then src else [])
    && (s.user.pc.UPutWait? || s.user.pc.UPutLock? ==> s.user.pc.src == src)
    && (Storing(s.user.pc) ==> s.user.result.Taken?)
  }

  lemma StepHandsIn(c: Config, s: State, a: Action, sent: seq<byte>, src: seq<byte>)
    requires HandedIn(s, sent, src) && Enabled(c, s, a)
    ensures var s' := Apply(c, s, a); HandedIn(s', sent + Accepts(s, s', src), Source(a, src))
  {
    hide TakeOut, Concat, Apply;
    if ByTheWorker(a) {
      WorkerLeavesUser(c, s, a);
    } else {
      UserHandsIn(c, s, a, sent, src);
    }
  }

  lemma UserHandsIn(c: Config, s: State, a: Action, sent: seq<byte>, src: seq<byte>)
    requires HandedIn(s, sent, src) && Enabled(c, s, a) && !ByTheWorker(a)
    ensures var s' := Apply(c, s, a); HandedIn(s', sent + Accepts(s, s', src), Source(a, src))
  {
    hide Apply, Enabled;
    if a == GetTake {
      TakeLeavesPuts(c, s);
    } else {
      OtherHandsIn(c, s, a, sent, src);
    }
  }

  lemma TakeLeavesPuts(c: Config, s: State)
    requires Enabled(c, s, GetTake)
    ensures var s' := Apply(c, s, GetTake);
            s'.accepted == s.accepted && s.user.pc.UGetLock? && (s'.user.pc.UIdle? || s'.user.pc.UGetReset?)
  {
    hide Apply, DoGetTake;
    TakeOutcome(c, s);
  }

  lemma OtherHandsIn(c: Config, s: State, a: Action, sent: seq<byte>, src: seq<byte>)
    requires HandedIn(s, sent, src) && Enabled(c, s, a) && !ByTheWorker(a) && a != GetTake
    ensures var s' := Apply(c, s, a); HandedIn(s', sent + Accepts(s, s', src), Source(a, src))
  {
    hide TakeOut, Concat;
  }

  lemma {:induction false} RunHandsIn(c: Config, s: State, actions: seq<Action>, sent: seq<byte>, src: seq<byte>)
    requires HandedIn(s, sent, src) && Run(c, s, actions).Some?
    ensures HandedIn(Run(c, s, actions).value, sent + Sent(c, s, actions, src), LastSource(actions, src))
    decreases |actions|
  {
    hide Enabled, Apply, HandedIn, Accepts;
    if actions == [] {
      assert sent + [] == sent;
    } else {
      var s' := Apply(c, s, actions[0]);
      StepHandsIn(c, s, actions[0], sent, src);
      RunHandsIn(c, s', actions[1..], sent + Accepts(s, s', src), Source(actions[0], src));
      assert sent + Accepts(s, s', src) + Sent(c, s', actions[1..], Source(actions[0], src))
          == sent + Sent(c, s, actions, src);
    }
  }

  /** Outside a put, the arguments of the puts taken so far are what was written to the child, the rest
      of the worker's chunk and the queue; once the pipe is closed, or the worker has stopped without an
      error, all of them were written. */
  lemma PutsReachTheChild(c: Config, actions: seq<Action>)
    requires Run(c, Initial(), actions).Some? && !Putting(Run(c, Initial(), actions).value.user.pc)
    ensures var s := Run(c, Initial(), actions).value;
            && Sent(c, Initial(), actions, []) == s.written + Rest(s.worker) + Concat(s.inq)
            && (s.pipeClosed || (Finished(s.worker.pc) && !s.worker.error) ==>
                  s.written == Sent(c, Initial(), actions, []))
  {
    hide Inv, Run, Sent;
    var s := Run(c, Initial(), actions).value;
    assert Reachable(c, s);
    assert HandedIn(Initial(), [], []);
    RunHandsIn(c, Initial(), actions, [], []);
    AcceptedInOrder(c, s);
    if s.pipeClosed || (Finished(s.worker.pc) && !s.worker.error) {
      ClosesAfterLastByte(c, s);
    }
  }

  // ---------- After the last put ----------

  predicate InputOver(s: State) {
    (s.user.inBad || s.user.inClosed) && !Putting(s.user.pc)
  }

  lemma InputStaysOver(c: Config, s: State, a: Action, src: seq<byte>)
    requires InputOver(s) && Enabled(c, s, a)
    ensures InputOver(Apply(c, s, a)) && Accepts(s, Apply(c, s, a), src) == []
  {
    hide Apply, Enabled;
    if ByTheWorker(a) {
      WorkerLeavesUser(c, s, a);
    } else if a == GetTake {
      TakeLeavesPuts(c, s);
      TakeKeepsFlags(c, s);
    } else {
      UserStaysOver(c, s, a);
    }
  }

  lemma TakeKeepsFlags(c: Config, s: State)
    requires Enabled(c, s, GetTake)
    ensures var s' := Apply(c, s, GetTake); s'.user.inBad == s.user.inBad && s'.user.inClosed == s.user.inClosed
  {
  }

  lemma UserStaysOver(c: Config, s: State, a: Action)
    requires InputOver(s) && Enabled(c, s, a) && !ByTheWorker(a) && a != GetTake
    ensures InputOver(Apply(c, s, a))
  {
    hide TakeOut, Concat;
  }

  lemma {:induction false} NothingSentWhenOver(c: Config, s: State, actions: seq<Action>, src: seq<byte>)
    requires InputOver(s) && Run(c, s, actions).Some?
    ensures Sent(c, s, actions, src) == [] && InputOver(Run(c, s, actions).value)
    decreases |actions|
  {
    hide Enabled, Apply, InputOver, Accepts;
    if actions != [] {
      InputStaysOver(c, s, actions[0], src);
      NothingSentWhenOver(c, Apply(c, s, actions[0]), actions[1..], Source(actions[0], src));
    }
  }

  /** Once a put has timed out, or the input was closed, no put is ever taken again. */
  lemma NoPutAfterTheLast(c: Config, s: State, a: Action, actions: seq<Action>)
    requires a in {PutTimeout, CallCloseIn} && Enabled(c, s, a) && Run(c, Apply(c, s, a), actions).Some?
    ensures Sent(c, Apply(c, s, a), actions, []) == []
  {
    NothingSentWhenOver(c, Apply(c, s, a), actions, []);
  }
}
