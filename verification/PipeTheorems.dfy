/** What the pipe protocol promises in every reachable state, and the one way it can stand still. */
module PipeTheorems {
  import opened PipeProtocol
  import opened PipeInvariants
  import opened Wrappers

  // ---------- From the child ----------

  /** No byte of the child is lost, repeated or reordered. A failing worker can only lose the end. */
  lemma DeliveredInOrder(c: Config, s: State, k: Kind)
    requires Reachable(c, s)
    ensures s.Of(k).delivered + s.Of(k).queue <= s.Of(k).read
    ensures !s.worker.error ==> s.Of(k).delivered + s.Of(k).queue + InFlight(s, k) == s.Of(k).read
  {
    ReachableInv(c, s);
  }

  /** A get returns nothing exactly at end of file, which means that everything was delivered. */
  lemma NothingMeansEndOfFile(c: Config, s: State)
    requires Reachable(c, s) && s.user.result.Got?
    ensures s.user.result.bytes == [] <==> s.user.result.noMore
    ensures s.user.result.noMore ==>
            s.Of(s.user.result.k).eof
            && s.Of(s.user.result.k).delivered == s.Of(s.user.result.k).read
  {
    ReachableInv(c, s);
  }

  /** Outside the mutex the bits tell the truth about the queue. */
  lemma BitsMatchQueue(c: Config, s: State, k: Kind)
    requires Reachable(c, s) && s.mutex.Free? && !Finished(s.worker.pc)
    ensures KindBit(k) in s.control <==> c.Limit(k) == 0 || |s.Of(k).queue| < c.Limit(k)
    ensures KindBit(k) in s.response && !s.Of(k).eof <==> s.Of(k).queue != [] && !s.Of(k).eof
  {
    ReachableInv(c, s);
  }

  /** A limited queue holds at most one read more than fits below the limit. */
  lemma QueueStaysBounded(c: Config, s: State, k: Kind)
    requires Reachable(c, s) && c.Limit(k) > 0
    ensures |s.Of(k).queue| <= c.Limit(k) - 1 + c.ReadSize(k)
  {
    ReachableInv(c, s);
  }

  // ---------- To the child ----------

  /** Every accepted byte is written, waits in the worker's chunk or waits in the queue, in this order. */
  lemma AcceptedInOrder(c: Config, s: State)
    requires Reachable(c, s)
    ensures s.accepted == s.written + Rest(s.worker) + Concat(s.inq)
  {
    ReachableInv(c, s);
  }

  /** The pipe is closed, or a worker without error stops, only after every accepted byte was
      written; and once the pipe is closed nothing more is ever accepted. */
  lemma ClosesAfterLastByte(c: Config, s: State)
    requires Reachable(c, s)
    requires s.pipeClosed || (Finished(s.worker.pc) && !s.worker.error)
    ensures s.written == s.accepted
    ensures s.pipeClosed ==> s.user.inClosed
    ensures !s.user.pc.UPutLock?
  {
    ReachableInv(c, s);
  }

  // ---------- Waiting ----------

  /** Steps that neither wait for a timeout, nor report a failure, nor start a new call. */
  predicate Prompt(a: Action) {
    !a.WakeTimeout? && !a.GetTimeout? && !a.PutTimeout? && !a.Fail?
    && !a.CallGet? && !a.CallPut? && !a.CallCloseIn? && !a.CallStop?
  }

  ghost predicate Stuck(c: Config, s: State) {
    forall a :: Prompt(a) ==> !Enabled(c, s, a)
  }

  /** A put waits for room, while the worker still holds a chunk and has nothing to read: it waits
      for neither stream, nor for the input. */
  predicate WriterStalls(c: Config, s: State) {
    && s.user.pc.UPutWait? && s.worker.pc.WWait?
    && 0 < c.inLimit <= |Concat(s.inq)| && s.worker.chunk.Some?
    && (s.out.eof || 0 < c.outLimit <= |s.out.queue|) && (s.err.eof || 0 < c.errLimit <= |s.err.queue|)
  }

  /** A step of the worker that needs no timeout. */
  function WorkerStep(s: State): Action {
    match s.worker.pc
    case WWait => Wake
    case WLockIn => Detach
    case WInReset => ResetGotIn
    case WInSet => SetWantIn
    case WClose => ClosePipe
    case WStop => CheckStop
    case WSelect => Select({})
    case WWrite => WriteAgain
    case WRead(_) => ReadAgain
    case WLock(_, _) => Enqueue
    case WFull(_, _) => ResetWant
    case WTell(_, _) => SetGot
    case WEnd => Loop
    case WHalt => Halt
    case WDead => Halt
  }

  /** A step of a user inside a call that needs no timeout. */
  function UserStep(s: State): Action {
    match s.user.pc
    case UGetWait(_, _) => GetWake
    case UGetLock(_, _, _) => GetTake
    case UGetReset(_) => GetReset
    case UGetWant(_) => GetWant
    case UPutWait(_) => PutWake
    case UPutLock(_, _) => PutStore
    case UPutReset => PutReset
    case UPutTell => PutTell
    case _ => StopWake
  }

  /** A thread that is inside a critical section, or about to enter a free one, can always step. */
  lemma OnlyWaitingBlocks(c: Config, s: State)
    requires Inv(c, s) && !s.user.pc.UIdle? && !s.user.pc.UStopped?
    requires !Enabled(c, s, UserStep(s)) && !Enabled(c, s, WorkerStep(s))
    ensures s.worker.pc.WWait? && (s.user.pc.UGetWait? || s.user.pc.UPutWait?)
  {
    hide KindInv;
  }

  lemma ReaderIsServed(c: Config, s: State)
    requires Inv(c, s) && s.user.pc.UGetWait? && s.worker.pc.WWait? && !CanGetWake(c, s)
    ensures KindBit(s.user.pc.k) in s.control * WaitFor(s)
  {
    var k := s.user.pc.k;
    var wanted := {KindBit(k), SChild, EofBit(k)};
    assert KindBit(k) in s.response ==> KindBit(k) in s.response * wanted;
    assert EofBit(k) in s.response ==> EofBit(k) in s.response * wanted;
    assert s.Of(k).queue == [] && !s.Of(k).eof;
  }

  lemma StallIsTheOnlyBlock(c: Config, s: State)
    requires Inv(c, s) && s.user.pc.UPutWait? && s.worker.pc.WWait? && !CanPutWake(c, s) && !CanWake(c, s)
    ensures WriterStalls(c, s)
  {
    assert SIn in s.response ==> SIn in s.response * {SIn, SChild};
    assert forall b :: b in s.control && b in WaitFor(s) ==> b in s.control * WaitFor(s);
  }

  lemma StallBlocks(c: Config, s: State, a: Action)
    requires Inv(c, s) && WriterStalls(c, s) && Prompt(a)
    ensures !Enabled(c, s, a)
  {
    assert SChild !in s.control && SOut !in s.control * WaitFor(s) && SErr !in s.control * WaitFor(s);
    assert s.control * WaitFor(s) == {};
    assert s.response * {SIn, SChild} == {};
  }

  /** A user inside a call and the worker never block each other, whatever happened before, except
      in a stalled put: there, and only there, nothing but a timeout can move them. In particular
      a get and a stop are never left waiting. */
  lemma BlockedExactlyWhenWriterStalls(c: Config, s: State)
    requires Reachable(c, s) && !s.user.pc.UIdle? && !s.user.pc.UStopped?
    ensures Stuck(c, s) <==> WriterStalls(c, s)
  {
    hide Enabled, Inv;
    ReachableInv(c, s);
    if Stuck(c, s) {
      assert Prompt(UserStep(s)) && Prompt(WorkerStep(s));
      StuckStalls(c, s);
    }
    if WriterStalls(c, s) {
      forall a | Prompt(a) ensures !Enabled(c, s, a) {
        StallBlocks(c, s, a);
      }
    }
  }

  lemma StuckStalls(c: Config, s: State)
    requires Inv(c, s) && !s.user.pc.UIdle? && !s.user.pc.UStopped?
    requires !Enabled(c, s, UserStep(s)) && !Enabled(c, s, WorkerStep(s))
    ensures WriterStalls(c, s)
  {
    hide Inv;
    OnlyWaitingBlocks(c, s);
    if s.user.pc.UGetWait? {
      ReaderIsServed(c, s);
    } else {
      StallIsTheOnlyBlock(c, s);
    }
  }
}
