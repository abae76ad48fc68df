/** What every step of the pipe protocol keeps, whoever takes it. */
module PipeInvariants {
  import opened PipeProtocol
  import opened Wrappers

  // ---------- Places in the worker's loop ----------

  predicate WorkerHolds(pc: WorkerPc) {
    pc.WInReset? || pc.WInSet? || pc.WFull? || pc.WTell?
  }

  predicate UserHolds(pc: UserPc) {
    pc.UGetReset? || pc.UGetWant? || pc.UPutReset? || pc.UPutTell?
  }

  predicate Putting(pc: UserPc) {
    pc.UPutWait? || pc.UPutLock? || pc.UPutReset? || pc.UPutTell?
  }

  /** Between the snapshot and the select of one round. */
  predicate BeforeSelect(pc: WorkerPc) {
    pc.WLockIn? || pc.WInReset? || pc.WInSet? || pc.WClose? || pc.WStop? || pc.WSelect?
  }

  /** Handling a chunk of `k`. */
  predicate Handling(pc: WorkerPc, k: Kind) {
    (pc.WLock? || pc.WFull? || pc.WTell?) && pc.k == k
  }

  /** After the select, with the read of `k` still to come. */
  predicate ReadToCome(pc: WorkerPc, k: Kind) {
    pc.WWrite? || pc == WRead(k) || (k.Err? && (pc == WRead(Out) || Handling(pc, Out)))
  }

  /** After the input queue was looked at, before the stop request is. */
  predicate Fetched(pc: WorkerPc) {
    pc.WInReset? || pc.WInSet? || pc.WClose? || pc.WStop?
  }

  predicate Finished(pc: WorkerPc) {
    pc.WHalt? || pc.WDead?
  }

  // ---------- The parts of the invariant ----------

  predicate MutexOk(s: State) {
    (s.mutex.ByWorker? <==> WorkerHolds(s.worker.pc)) && (s.mutex.ByUser? <==> UserHolds(s.user.pc))
  }

  predicate StopOk(s: State) {
    && (SChild in s.response <==> s.worker.pc.WDead?)
    && (SChild in s.control <==> s.user.pc.UStopWait? || s.user.pc.UStopped?)
    && (SChild in s.worker.snap ==> SChild in s.control)
    && (s.worker.error ==> Finished(s.worker.pc))
    && (s.user.pc.UGetLock? && SChild in s.user.pc.snap ==> s.worker.pc.WDead?)
    && (s.user.pc.UPutLock? && SChild in s.user.pc.snap ==> s.worker.pc.WDead?)
    && (Finished(s.worker.pc) && !s.worker.error ==>
          SChild in s.control || (s.worker.inClosed && s.out.eof && s.err.eof))
  }

  /** End of file is announced exactly when it was read, and nothing is read after it. */
  predicate EofOk(s: State, k: Kind) {
    && (s.Of(k).eof <==> EofBit(k) in s.response)
    && (s.user.pc.UGetLock? && s.user.pc.k == k && EofBit(k) in s.user.pc.snap ==> s.Of(k).eof)
    && (Handling(s.worker.pc, k) ==> !s.Of(k).eof)
    && (ReadToCome(s.worker.pc, k) && KindBit(k) in s.worker.ready ==> !s.Of(k).eof && KindBit(k) in s.worker.snap)
  }

  /** Bytes read whose chunk has not reached the queue yet. */
  function InFlight(s: State, k: Kind): seq<byte> {
    if s.worker.pc.WLock? && s.worker.pc.k == k then s.worker.pc.chunk else []
  }

  /** Bytes delivered, then bytes queued, then the chunk in flight: exactly the bytes read. A
      failing worker can lose the chunk, but never once end of file was read. */
  predicate OutConserved(s: State, k: Kind) {
    && s.Of(k).delivered + s.Of(k).queue <= s.Of(k).read
    && (!s.worker.error || s.Of(k).eof ==> s.Of(k).delivered + s.Of(k).queue + InFlight(s, k) == s.Of(k).read)
  }

  /** While the worker runs, want-data is set exactly when the queue is not full, but for the moments
      inside the mutex. */
  predicate WantOk(c: Config, s: State, k: Kind) {
    !Finished(s.worker.pc) ==>
      && (QueueFull(c, s, k) && KindBit(k) in s.control ==>
          s.worker.pc.WFull? && s.worker.pc.k == k && s.worker.pc.chunk != [])
      && (!QueueFull(c, s, k) && KindBit(k) !in s.control ==>
          (s.user.pc.UGetReset? || s.user.pc.UGetWant?) && s.user.pc.k == k)
  }

  /** A queue with bytes has got-data set; got-data without end of file means there are bytes. */
  predicate GotOk(s: State, k: Kind) {
    && (s.Of(k).queue != [] && KindBit(k) !in s.response ==>
          s.worker.error || ((s.worker.pc.WFull? || s.worker.pc.WTell?) && s.worker.pc.k == k))
    && (KindBit(k) in s.response && EofBit(k) !in s.response && s.Of(k).queue == [] ==>
          s.worker.pc.WDead? || (s.user.pc.UGetReset? && s.user.pc.k == k))
    && ((s.worker.pc.WFull? || s.worker.pc.WTell?) && s.worker.pc.k == k && s.worker.pc.chunk != [] ==>
        s.Of(k).queue != [])
    && (s.user.pc.UGetLock? && s.user.pc.k == k && SChild !in s.user.pc.snap && EofBit(k) !in s.user.pc.snap ==>
          s.Of(k).queue != [])
  }

  /** The worker only reads for a queue that was not full, so a limited queue stays bounded. */
  predicate SizeOk(c: Config, s: State, k: Kind) {
    && ((BeforeSelect(s.worker.pc) || ReadToCome(s.worker.pc, k)) && KindBit(k) in s.worker.snap ==>
        !QueueFull(c, s, k))
    && (s.worker.pc.WLock? && s.worker.pc.k == k ==> !QueueFull(c, s, k) && |s.worker.pc.chunk| <= c.ReadSize(k))
    && (c.Limit(k) > 0 ==> |s.Of(k).queue| <= c.Limit(k) - 1 + c.ReadSize(k))
  }

  /** The rest of the chunk being written. */
  function Rest(w: Worker): seq<byte> {
    if w.chunk.Some? then w.chunk.value else []
  }

  /** Bytes written, then the rest of the chunk, then the queue: exactly the bytes put accepted. */
  predicate InConserved(s: State) {
    s.accepted == s.written + Rest(s.worker) + Concat(s.inq)
  }

  predicate GotInOk(s: State) {
    Concat(s.inq) != [] && SIn !in s.control ==> s.user.pc.UPutReset? || s.user.pc.UPutTell?
  }

  /** A put may go on exactly when the input queue is not full, but for the moments inside the mutex. */
  predicate SpaceOk(c: Config, s: State) {
    && (!Full(|Concat(s.inq)|, c.inLimit) && SIn !in s.response ==>
          s.worker.error || s.worker.pc.WInReset? || s.worker.pc.WInSet?)
    && (Full(|Concat(s.inq)|, c.inLimit) && SIn in s.response ==> s.user.pc.UPutReset?)
  }

  predicate CloseOk(s: State) {
    && (SInEof in s.control <==> s.user.inClosed)
    && (SInEof in s.worker.snap ==> s.user.inClosed)
    && (s.user.inClosed ==> !Putting(s.user.pc))
    && (s.worker.inEof ==> s.user.inClosed && Concat(s.inq) == [])
    && (s.worker.inClosed <==> s.pipeClosed)
    && (s.worker.inClosed ==> s.worker.inEof && s.worker.chunk.None?)
  }

  /** A stop request is only seen by a worker that has nothing left to fetch. */
  predicate DrainOk(s: State) {
    && (s.worker.pc.WLockIn? ==> s.worker.chunk.None?)
    && (SChild in s.worker.snap && s.worker.chunk.None? && Fetched(s.worker.pc) ==> Concat(s.inq) == [])
    && (Finished(s.worker.pc) && !s.worker.error ==> s.worker.chunk.None? && Concat(s.inq) == [])
  }

  /** The last get returned bytes, or end of file with everything delivered, never neither. */
  predicate ResultOk(s: State) {
    s.user.result.Got? ==>
      var st := s.Of(s.user.result.k);
      && (s.user.result.bytes == [] <==> s.user.result.noMore)
      && (s.user.result.noMore ==> st.eof && st.queue == [] && st.delivered == st.read)
  }

  /** What holds of each stream from the child. */
  ghost predicate KindInv(c: Config, s: State, k: Kind) {
    EofOk(s, k) && OutConserved(s, k) && WantOk(c, s, k) && GotOk(s, k) && SizeOk(c, s, k)
  }

  /** What holds of the threads, of the stream to the child and of the results. */
  ghost predicate CoreInv(c: Config, s: State) {
    && MutexOk(s) && StopOk(s) && GetSize(s) && ResultOk(s)
    && InConserved(s) && GotInOk(s) && SpaceOk(c, s) && CloseOk(s) && DrainOk(s)
  }

  ghost predicate Inv(c: Config, s: State) {
    CoreInv(c, s) && KindInv(c, s, Out) && KindInv(c, s, Err)
  }

  predicate GetSize(s: State) {
    (s.user.pc.UGetWait? || s.user.pc.UGetLock?) ==> s.user.pc.size > 0
  }

  // ---------- Sequences ----------

  lemma {:induction false} ConcatAppends(a: seq<seq<byte>>, x: seq<byte>)
    ensures Concat(a + [x]) == Concat(a) + x
  {
    if a == [] {
      assert a + [x] == [x] && [x][1..] == [];
    } else {
      ConcatAppends(a[1..], x);
      assert (a + [x])[1..] == a[1..] + [x];
      assert a[0] + (Concat(a[1..]) + x) == a[0] + Concat(a[1..]) + x;
    }
  }

  lemma SplitChunk(written: seq<byte>, chunk: seq<byte>, n: nat, queued: seq<byte>)
    requires n <= |chunk|
    ensures written + chunk + queued == written + chunk[..n] + chunk[n..] + queued
  {
    assert chunk == chunk[..n] + chunk[n..];
  }

  lemma MoveFront(delivered: seq<byte>, queue: seq<byte>, n: nat)
    requires n <= |queue|
    ensures delivered + queue == (delivered + queue[..n]) + queue[n..]
  {
    assert queue == queue[..n] + queue[n..];
  }

  // ---------- Every step keeps the invariant ----------

  lemma WakeKeeps(c: Config, s: State)
    requires Inv(c, s) && CanWake(c, s)
    ensures Inv(c, DoWake(c, s))
  {
  }

  lemma WakeTimeoutKeeps(c: Config, s: State)
    requires Inv(c, s) && CanWakeTimeout(c, s)
    ensures Inv(c, DoWakeTimeout(c, s))
  {
  }

  lemma DetachKeepsKind(c: Config, s: State, kind: Kind)
    requires Inv(c, s) && CanDetach(c, s)
    ensures KindInv(c, DoDetach(c, s), kind)
  {
  }

  lemma DetachKeepsCore(c: Config, s: State)
    requires Inv(c, s) && CanDetach(c, s)
    ensures CoreInv(c, DoDetach(c, s))
  {
    if s.inq != [] {
      assert s.inq == [s.inq[0]] + s.inq[1..];
      assert s.written + [] + (s.inq[0] + Concat(s.inq[1..])) == s.written + s.inq[0] + Concat(s.inq[1..]);
    }
  }

  lemma DetachKeeps(c: Config, s: State)
    requires Inv(c, s) && CanDetach(c, s)
    ensures Inv(c, DoDetach(c, s))
  {
    hide CoreInv, KindInv;
    DetachKeepsCore(c, s);
    DetachKeepsKind(c, s, Out);
    DetachKeepsKind(c, s, Err);
  }

  lemma ResetGotInKeeps(c: Config, s: State)
    requires Inv(c, s) && CanResetGotIn(c, s)
    ensures Inv(c, DoResetGotIn(c, s))
  {
  }

  lemma SetWantInKeeps(c: Config, s: State)
    requires Inv(c, s) && CanSetWantIn(c, s)
    ensures Inv(c, DoSetWantIn(c, s))
  {
  }

  lemma ClosePipeKeepsKind(c: Config, s: State, kind: Kind)
    requires Inv(c, s) && CanClosePipe(c, s)
    ensures KindInv(c, DoClosePipe(c, s), kind)
  {
    hide InConserved, GotInOk, SpaceOk, CloseOk, DrainOk, ResultOk;
  }

  lemma ClosePipeKeepsCore(c: Config, s: State)
    requires Inv(c, s) && CanClosePipe(c, s)
    ensures CoreInv(c, DoClosePipe(c, s))
  {
    hide KindInv;
  }

  lemma ClosePipeKeeps(c: Config, s: State)
    requires Inv(c, s) && CanClosePipe(c, s)
    ensures Inv(c, DoClosePipe(c, s))
  {
    hide CoreInv, KindInv;
    ClosePipeKeepsCore(c, s);
    ClosePipeKeepsKind(c, s, Out);
    ClosePipeKeepsKind(c, s, Err);
  }

  lemma CheckStopKeeps(c: Config, s: State)
    requires Inv(c, s) && CanCheckStop(c, s)
    ensures Inv(c, DoCheckStop(c, s))
  {
  }

  lemma SelectKeeps(c: Config, s: State, ready: set<Bit>)
    requires Inv(c, s) && CanSelect(c, s, ready)
    ensures Inv(c, DoSelect(c, s, ready))
  {
  }

  lemma WriteKeeps(c: Config, s: State, n: nat)
    requires Inv(c, s) && CanWrite(c, s, n)
    ensures Inv(c, DoWrite(c, s, n))
  {
    SplitChunk(s.written, s.worker.chunk.value, n, Concat(s.inq));
  }

  lemma WriteAgainKeeps(c: Config, s: State)
    requires Inv(c, s) && CanWriteAgain(c, s)
    ensures Inv(c, DoWriteAgain(c, s))
  {
  }

  lemma ReadConserves(c: Config, s: State, chunk: seq<byte>, kind: Kind)
    requires CanRead(c, s, chunk) && OutConserved(s, kind) && StopOk(s)
    ensures OutConserved(DoRead(c, s, chunk), kind)
  {
  }

  lemma ReadKeepsKind(c: Config, s: State, chunk: seq<byte>, kind: Kind)
    requires Inv(c, s) && CanRead(c, s, chunk)
    ensures KindInv(c, DoRead(c, s, chunk), kind)
  {
    hide OutConserved, InConserved, GotInOk, SpaceOk, CloseOk, DrainOk, ResultOk;
    ReadConserves(c, s, chunk, kind);
  }

  lemma ReadKeepsCore(c: Config, s: State, chunk: seq<byte>)
    requires Inv(c, s) && CanRead(c, s, chunk)
    ensures CoreInv(c, DoRead(c, s, chunk))
  {
  }

  lemma ReadKeeps(c: Config, s: State, chunk: seq<byte>)
    requires Inv(c, s) && CanRead(c, s, chunk)
    ensures Inv(c, DoRead(c, s, chunk))
  {
    hide CoreInv, KindInv;
    ReadKeepsCore(c, s, chunk);
    ReadKeepsKind(c, s, chunk, Out);
    ReadKeepsKind(c, s, chunk, Err);
  }

  lemma ReadAgainKeeps(c: Config, s: State)
    requires Inv(c, s) && CanReadAgain(c, s)
    ensures Inv(c, DoReadAgain(c, s))
  {
  }

  lemma EnqueueConserves(c: Config, s: State, kind: Kind)
    requires CanEnqueue(c, s) && OutConserved(s, kind) && StopOk(s)
    ensures OutConserved(DoEnqueue(c, s), kind)
  {
    var st, x := s.Of(kind), s.worker.pc.chunk;
    assert st.delivered + (st.queue + x) == st.delivered + st.queue + x;
  }

  lemma EnqueueKeepsKind(c: Config, s: State, kind: Kind)
    requires Inv(c, s) && CanEnqueue(c, s)
    ensures KindInv(c, DoEnqueue(c, s), kind)
  {
    hide OutConserved, InConserved, GotInOk, SpaceOk, CloseOk, DrainOk, ResultOk;
    EnqueueConserves(c, s, kind);
  }

  lemma EnqueueKeepsCore(c: Config, s: State)
    requires Inv(c, s) && CanEnqueue(c, s)
    ensures CoreInv(c, DoEnqueue(c, s))
  {
  }

  lemma EnqueueKeeps(c: Config, s: State)
    requires Inv(c, s) && CanEnqueue(c, s)
    ensures Inv(c, DoEnqueue(c, s))
  {
    hide CoreInv, KindInv;
    EnqueueKeepsCore(c, s);
    EnqueueKeepsKind(c, s, Out);
    EnqueueKeepsKind(c, s, Err);
  }

  lemma ResetWantKeeps(c: Config, s: State)
    requires Inv(c, s) && CanResetWant(c, s)
    ensures Inv(c, DoResetWant(c, s))
  {
  }

  lemma SetGotKeepsKind(c: Config, s: State, kind: Kind)
    requires Inv(c, s) && CanSetGot(c, s)
    ensures KindInv(c, DoSetGot(c, s), kind)
  {
    hide InConserved, GotInOk, SpaceOk, CloseOk, DrainOk, ResultOk;
  }

  lemma SetGotKeepsCore(c: Config, s: State)
    requires Inv(c, s) && CanSetGot(c, s)
    ensures CoreInv(c, DoSetGot(c, s))
  {
  }

  lemma SetGotKeeps(c: Config, s: State)
    requires Inv(c, s) && CanSetGot(c, s)
    ensures Inv(c, DoSetGot(c, s))
  {
    hide CoreInv, KindInv;
    SetGotKeepsCore(c, s);
    SetGotKeepsKind(c, s, Out);
    SetGotKeepsKind(c, s, Err);
  }

  lemma LoopKeeps(c: Config, s: State)
    requires Inv(c, s) && CanLoop(c, s)
    ensures Inv(c, DoLoop(c, s))
  {
  }

  lemma HaltKeeps(c: Config, s: State)
    requires Inv(c, s) && CanHalt(c, s)
    ensures Inv(c, DoHalt(c, s))
  {
  }

  lemma FailKeeps(c: Config, s: State)
    requires Inv(c, s) && CanFail(c, s)
    ensures Inv(c, DoFail(c, s))
  {
  }

  lemma CallGetKeeps(c: Config, s: State, k: Kind, size: nat)
    requires Inv(c, s) && CanCallGet(c, s, k, size)
    ensures Inv(c, DoCallGet(c, s, k, size))
  {
  }

  lemma CallPutKeepsKind(c: Config, s: State, src: seq<byte>, kind: Kind)
    requires Inv(c, s) && CanCallPut(c, s, src)
    ensures KindInv(c, DoCallPut(c, s, src), kind)
  {
    hide InConserved, GotInOk, SpaceOk, CloseOk, DrainOk, ResultOk;
  }

  lemma CallPutKeepsCore(c: Config, s: State, src: seq<byte>)
    requires Inv(c, s) && CanCallPut(c, s, src)
    ensures CoreInv(c, DoCallPut(c, s, src))
  {
    hide KindInv;
  }

  lemma CallPutKeeps(c: Config, s: State, src: seq<byte>)
    requires Inv(c, s) && CanCallPut(c, s, src)
    ensures Inv(c, DoCallPut(c, s, src))
  {
    hide CoreInv, KindInv;
    CallPutKeepsCore(c, s, src);
    CallPutKeepsKind(c, s, src, Out);
    CallPutKeepsKind(c, s, src, Err);
  }

  lemma CallCloseInKeeps(c: Config, s: State)
    requires Inv(c, s) && CanCallCloseIn(c, s)
    ensures Inv(c, DoCallCloseIn(c, s))
  {
  }

  lemma CallStopKeeps(c: Config, s: State)
    requires Inv(c, s) && CanCallStop(c, s)
    ensures Inv(c, DoCallStop(c, s))
  {
  }

  lemma GetWakeKeeps(c: Config, s: State)
    requires Inv(c, s) && CanGetWake(c, s)
    ensures Inv(c, DoGetWake(c, s))
  {
  }

  lemma GetTimeoutKeeps(c: Config, s: State)
    requires Inv(c, s) && CanGetTimeout(c, s)
    ensures Inv(c, DoGetTimeout(c, s))
  {
  }

  lemma TakeOutConserves(s: State, k: Kind, size: nat, snap: set<Bit>, kind: Kind)
    requires OutConserved(s, kind)
    ensures OutConserved(TakeOut(s, k, size, snap), kind)
  {
    if k == kind {
      var q := s.Of(k).queue;
      MoveFront(s.Of(k).delivered, q, if size <= |q| then size else |q|);
    }
  }

  lemma GetTakeConserves(c: Config, s: State, kind: Kind)
    requires CanGetTake(c, s) && OutConserved(s, kind)
    ensures OutConserved(DoGetTake(c, s), kind)
  {
    hide TakeOut;
    var u := s.user.pc;
    TakeOutConserves(s, u.k, u.size, {EofBit(u.k)}, kind);
    TakeOutConserves(s, u.k, u.size, u.snap, kind);
  }

  lemma GetTakeEof(c: Config, s: State, kind: Kind)
    requires CanGetTake(c, s) && EofOk(s, kind) && StopOk(s)
    ensures EofOk(DoGetTake(c, s), kind)
  {
  }

  lemma GetTakeWant(c: Config, s: State, kind: Kind)
    requires CanGetTake(c, s) && WantOk(c, s, kind) && StopOk(s)
    ensures WantOk(c, DoGetTake(c, s), kind)
  {
  }

  lemma GetTakeGot(c: Config, s: State, kind: Kind)
    requires CanGetTake(c, s) && GotOk(s, kind) && StopOk(s) && MutexOk(s)
    ensures GotOk(DoGetTake(c, s), kind)
  {
  }

  lemma GetTakeSize(c: Config, s: State, kind: Kind)
    requires CanGetTake(c, s) && SizeOk(c, s, kind)
    ensures SizeOk(c, DoGetTake(c, s), kind)
  {
  }

  lemma GetTakeKeepsKind(c: Config, s: State, kind: Kind)
    requires Inv(c, s) && CanGetTake(c, s)
    ensures KindInv(c, DoGetTake(c, s), kind)
  {
    hide DoGetTake, EofOk, OutConserved, WantOk, GotOk, SizeOk, MutexOk, StopOk;
    GetTakeConserves(c, s, kind);
    GetTakeEof(c, s, kind);
    GetTakeWant(c, s, kind);
    GetTakeGot(c, s, kind);
    GetTakeSize(c, s, kind);
  }

  lemma GetTakeResult(c: Config, s: State)
    requires Inv(c, s) && CanGetTake(c, s)
    ensures ResultOk(DoGetTake(c, s))
  {
    hide WantOk, SizeOk, MutexOk, InConserved, GotInOk, SpaceOk, CloseOk, DrainOk;
  }

  /** A get leaves the queue to the child alone. */
  lemma GetTakeInput(c: Config, s: State)
    requires CanGetTake(c, s) && InConserved(s) && GotInOk(s) && SpaceOk(c, s) && CloseOk(s) && DrainOk(s)
    ensures var t := DoGetTake(c, s); InConserved(t) && GotInOk(t) && SpaceOk(c, t) && CloseOk(t) && DrainOk(t)
  {
  }

  lemma GetTakeThreads(c: Config, s: State)
    requires CanGetTake(c, s) && MutexOk(s) && StopOk(s) && GetSize(s)
    ensures var t := DoGetTake(c, s); MutexOk(t) && StopOk(t) && GetSize(t)
  {
  }

  lemma GetTakeKeepsCore(c: Config, s: State)
    requires Inv(c, s) && CanGetTake(c, s)
    ensures CoreInv(c, DoGetTake(c, s))
  {
    hide DoGetTake, KindInv, MutexOk, StopOk, GetSize, ResultOk, InConserved, GotInOk, SpaceOk, CloseOk, DrainOk;
    GetTakeThreads(c, s);
    GetTakeResult(c, s);
    GetTakeInput(c, s);
  }

  lemma GetTakeKeeps(c: Config, s: State)
    requires Inv(c, s) && CanGetTake(c, s)
    ensures Inv(c, DoGetTake(c, s))
  {
    hide CoreInv, KindInv;
    GetTakeKeepsCore(c, s);
    GetTakeKeepsKind(c, s, Out);
    GetTakeKeepsKind(c, s, Err);
  }

  lemma GetResetKeeps(c: Config, s: State)
    requires Inv(c, s) && CanGetReset(c, s)
    ensures Inv(c, DoGetReset(c, s))
  {
  }

  lemma GetWantKeeps(c: Config, s: State)
    requires Inv(c, s) && CanGetWant(c, s)
    ensures Inv(c, DoGetWant(c, s))
  {
  }

  lemma PutWakeKeeps(c: Config, s: State)
    requires Inv(c, s) && CanPutWake(c, s)
    ensures Inv(c, DoPutWake(c, s))
  {
  }

  lemma PutTimeoutKeeps(c: Config, s: State)
    requires Inv(c, s) && CanPutTimeout(c, s)
    ensures Inv(c, DoPutTimeout(c, s))
  {
  }

  lemma PutStoreKeepsKind(c: Config, s: State, kind: Kind)
    requires Inv(c, s) && CanPutStore(c, s)
    ensures KindInv(c, DoPutStore(c, s), kind)
  {
  }

  lemma PutStoreKeepsCore(c: Config, s: State)
    requires Inv(c, s) && CanPutStore(c, s)
    ensures CoreInv(c, DoPutStore(c, s))
  {
    ConcatAppends(s.inq, s.user.pc.src);
  }

  lemma PutStoreKeeps(c: Config, s: State)
    requires Inv(c, s) && CanPutStore(c, s)
    ensures Inv(c, DoPutStore(c, s))
  {
    hide CoreInv, KindInv;
    PutStoreKeepsCore(c, s);
    PutStoreKeepsKind(c, s, Out);
    PutStoreKeepsKind(c, s, Err);
  }

  lemma PutResetKeeps(c: Config, s: State)
    requires Inv(c, s) && CanPutReset(c, s)
    ensures Inv(c, DoPutReset(c, s))
  {
  }

  lemma PutTellKeeps(c: Config, s: State)
    requires Inv(c, s) && CanPutTell(c, s)
    ensures Inv(c, DoPutTell(c, s))
  {
  }

  lemma StopWakeKeeps(c: Config, s: State)
    requires Inv(c, s) && CanStopWake(c, s)
    ensures Inv(c, DoStopWake(c, s))
  {
  }

  /** The invariant survives every step of either thread. */
  lemma StepKeeps(c: Config, s: State, a: Action)
    requires Inv(c, s) && Enabled(c, s, a)
    ensures Inv(c, Apply(c, s, a))
  {
    hide Inv;
    match a {
      case Wake => WakeKeeps(c, s);
      case WakeTimeout => WakeTimeoutKeeps(c, s);
      case Detach => DetachKeeps(c, s);
      case ResetGotIn => ResetGotInKeeps(c, s);
      case SetWantIn => SetWantInKeeps(c, s);
      case ClosePipe => ClosePipeKeeps(c, s);
      case CheckStop => CheckStopKeeps(c, s);
      case Select(ready) => SelectKeeps(c, s, ready);
      case Write(n) => WriteKeeps(c, s, n);
      case WriteAgain => WriteAgainKeeps(c, s);
      case Read(chunk) => ReadKeeps(c, s, chunk);
      case ReadAgain => ReadAgainKeeps(c, s);
      case Enqueue => EnqueueKeeps(c, s);
      case ResetWant => ResetWantKeeps(c, s);
      case SetGot => SetGotKeeps(c, s);
      case Loop => LoopKeeps(c, s);
      case Halt => HaltKeeps(c, s);
      case Fail => FailKeeps(c, s);
      case CallGet(k, size) => CallGetKeeps(c, s, k, size);
      case CallPut(src) => CallPutKeeps(c, s, src);
      case CallCloseIn => CallCloseInKeeps(c, s);
      case CallStop => CallStopKeeps(c, s);
      case GetWake => GetWakeKeeps(c, s);
      case GetTimeout => GetTimeoutKeeps(c, s);
      case GetTake => GetTakeKeeps(c, s);
      case GetReset => GetResetKeeps(c, s);
      case GetWant => GetWantKeeps(c, s);
      case PutWake => PutWakeKeeps(c, s);
      case PutTimeout => PutTimeoutKeeps(c, s);
      case PutStore => PutStoreKeeps(c, s);
      case PutReset => PutResetKeeps(c, s);
      case PutTell => PutTellKeeps(c, s);
      case StopWake => StopWakeKeeps(c, s);
    }
  }

  lemma {:induction false} RunKeeps(c: Config, s: State, actions: seq<Action>)
    requires Inv(c, s) && Run(c, s, actions).Some?
    ensures Inv(c, Run(c, s, actions).value)
    decreases |actions|
  {
    hide Inv, Apply;
    if actions != [] {
      StepKeeps(c, s, actions[0]);
      RunKeeps(c, Apply(c, s, actions[0]), actions[1..]);
    }
  }

  lemma InitialInv(c: Config)
    ensures Inv(c, Initial())
  {
  }

  lemma ReachableInv(c: Config, s: State)
    requires Reachable(c, s)
    ensures Inv(c, s)
  {
    hide Inv;
    var actions :| Run(c, Initial(), actions) == Some(s);
    InitialInv(c);
    RunKeeps(c, Initial(), actions);
  }
}
