/** The worker moves bytes on: what is queued for the child can be written, and what the child wrote can be
    queued, without a timeout and without the user
    (3rdparty/exec-stream/posix/exec-stream-helpers.cpp). */
module PipeProgress {
  import opened PipeProtocol
  import opened PipeTheorems
  import opened PipeResults
  import opened PipeStall
  import opened Wrappers

  /** Worker steps that need no timeout lead from `s` to `t`. */
  ghost predicate WorkerReaches(c: Config, s: State, t: State) {
    exists actions :: Run(c, s, actions) == Some(t) && AllOwn(actions)
  }

  predicate AllOwn(actions: seq<Action>) {
    forall i :: 0 <= i < |actions| ==> ByTheWorker(actions[i]) && Prompt(actions[i])
  }

  lemma StaysPut(c: Config, s: State)
    ensures WorkerReaches(c, s, s)
  {
    assert Run(c, s, []) == Some(s) && AllOwn([]);
  }

  lemma OneStepOn(c: Config, s: State, t: State, a: Action, u: State)
    requires WorkerReaches(c, s, t) && Enabled(c, t, a) && Apply(c, t, a) == u && ByTheWorker(a) && Prompt(a)
    ensures WorkerReaches(c, s, u)
  {
    hide Enabled, Apply, Run;
    var actions :| Run(c, s, actions) == Some(t) && AllOwn(actions);
    RunExtends(c, s, actions, a);
    assert AllOwn(actions + [a]);
  }

  lemma WakeOn(c: Config, s: State) returns (t: State)
    requires s.worker.pc.WWait? && s.worker.chunk.None? && !s.worker.inEof && SIn in s.control
    ensures WorkerReaches(c, s, t)
    ensures t.inq == s.inq && t.written == s.written && t.mutex == s.mutex && t.worker.pc.WLockIn?
    ensures t.worker.chunk.None? && !t.worker.inEof && t.user == s.user
  {
    hide WorkerReaches;
    StaysPut(c, s);
    assert SIn in s.control * WaitFor(s) && SIn in s.control * {SIn, SInEof};
    t := DoWake(c, s);
    OneStepOn(c, s, s, Wake, t);
  }

  lemma DetachOn(c: Config, s0: State, s: State) returns (t: State)
    requires WorkerReaches(c, s0, s) && s.worker.pc.WLockIn? && s.mutex.Free? && Concat(s.inq) != [] && s.inq != []
    requires !s.worker.inEof
    ensures WorkerReaches(c, s0, t) && t.worker.pc.WClose? && t.worker.chunk == Some(s.inq[0]) && t.inq == s.inq[1..]
    ensures t.written == s.written && t.user == s.user && !t.worker.inEof
  {
    hide WorkerReaches, Concat, Full;
    var s1 := DoDetach(c, s);
    OneStepOn(c, s0, s, Detach, s1);
    var s2 := DoResetGotIn(c, s1);
    OneStepOn(c, s0, s1, ResetGotIn, s2);
    t := DoSetWantIn(c, s2);
    OneStepOn(c, s0, s2, SetWantIn, t);
  }

  lemma WriteOn(c: Config, s0: State, s: State) returns (t: State)
    requires WorkerReaches(c, s0, s) && s.worker.pc.WClose? && s.worker.chunk.Some? && !s.worker.inEof
    ensures WorkerReaches(c, s0, t) && t.written == s.written + s.worker.chunk.value
    ensures t.inq == s.inq && t.user == s.user
  {
    hide WorkerReaches;
    var s1 := DoClosePipe(c, s);
    OneStepOn(c, s0, s, ClosePipe, s1);
    var s2 := DoCheckStop(c, s1);
    OneStepOn(c, s0, s1, CheckStop, s2);
    var s3 := DoSelect(c, s2, {SIn});
    OneStepOn(c, s0, s2, Select({SIn}), s3);
    var n := |s.worker.chunk.value|;
    t := DoWrite(c, s3, n);
    OneStepOn(c, s0, s3, Write(n), t);
    assert s.worker.chunk.value[..n] == s.worker.chunk.value;
  }

  /** A waiting worker with nothing left to write is woken by queued input and can write all of its first
      chunk. */
  lemma QueuedInputGetsWritten(c: Config, s: State) returns (t: State)
    requires s.worker.pc.WWait? && s.worker.chunk.None? && !s.worker.inEof && s.mutex.Free?
    requires SIn in s.control && Concat(s.inq) != []
    ensures WorkerReaches(c, s, t) && s.inq != []
    ensures t.written == s.written + s.inq[0] && t.inq == s.inq[1..] && t.user == s.user
  {
    hide WorkerReaches;
    assert s.inq != [];
    var s1 := WakeOn(c, s);
    var s2 := DetachOn(c, s, s1);
    t := WriteOn(c, s, s2);
  }

  /** A worker about to select, that may read `k`, can queue what the child wrote, and tells the user. */
  lemma ChildBytesGetQueued(c: Config, s: State, k: Kind, chunk: seq<byte>) returns (t: State)
    requires s.worker.pc.WSelect? && s.mutex.Free? && KindBit(k) in s.worker.snap && !s.Of(k).eof
    requires chunk != [] && |chunk| <= c.ReadSize(k)
    ensures WorkerReaches(c, s, t)
    ensures t.Of(k).queue == s.Of(k).queue + chunk && KindBit(k) in t.response && t.mutex.Free? && t.user == s.user
  {
    hide WorkerReaches;
    StaysPut(c, s);
    var s1 := DoSelect(c, s, {KindBit(k)});
    OneStepOn(c, s, s, Select({KindBit(k)}), s1);
    var s2 := DoWriteAgain(c, s1);
    OneStepOn(c, s, s1, WriteAgain, s2);
    if k.Out? {
      t := ReadOn(c, s, s2, k, chunk);
    } else {
      var s3 := DoReadAgain(c, s2);
      OneStepOn(c, s, s2, ReadAgain, s3);
      t := ReadOn(c, s, s3, k, chunk);
    }
  }

  lemma ReadOn(c: Config, s0: State, s: State, k: Kind, chunk: seq<byte>) returns (t: State)
    requires WorkerReaches(c, s0, s) && s.worker.pc == WRead(k) && KindBit(k) in s.worker.ready && s.mutex.Free?
    requires |chunk| <= c.ReadSize(k)
    ensures WorkerReaches(c, s0, t)
    ensures t.Of(k).queue == s.Of(k).queue + chunk && KindBit(k) in t.response && t.mutex.Free? && t.user == s.user
  {
    hide WorkerReaches;
    var s1 := DoRead(c, s, chunk);
    OneStepOn(c, s0, s, Read(chunk), s1);
    var s2 := DoEnqueue(c, s1);
    OneStepOn(c, s0, s1, Enqueue, s2);
    t := TellOn(c, s0, s2);
  }

  lemma TellOn(c: Config, s0: State, s: State) returns (t: State)
    requires WorkerReaches(c, s0, s) && s.worker.pc.WFull?
    ensures WorkerReaches(c, s0, t) && (forall k :: t.Of(k).queue == s.Of(k).queue)
    ensures KindBit(s.worker.pc.k) in t.response && t.mutex.Free? && t.user == s.user
  {
    hide WorkerReaches, QueueFull;
    var s1 := DoResetWant(c, s);
    OneStepOn(c, s0, s, ResetWant, s1);
    t := DoSetGot(c, s1);
    OneStepOn(c, s0, s1, SetGot, t);
  }

  /** Once the input is closed and nothing of it is left, a waiting worker can close the pipe. */
  lemma ClosedInputClosesPipe(c: Config, s: State) returns (t: State)
    requires s.worker.pc.WWait? && s.worker.chunk.None? && !s.worker.inEof && s.mutex.Free?
    requires SInEof in s.control && Concat(s.inq) == []
    ensures WorkerReaches(c, s, t) && t.pipeClosed && t.worker.inClosed && t.user == s.user
  {
    hide WorkerReaches, Concat, Full;
    StaysPut(c, s);
    assert SInEof in s.control * WaitFor(s) && SInEof in s.control * {SIn, SInEof};
    var s1 := DoWake(c, s);
    OneStepOn(c, s, s, Wake, s1);
    var s2 := DoDetach(c, s1);
    OneStepOn(c, s, s1, Detach, s2);
    t := CloseOn(c, s, s2);
  }

  lemma CloseOn(c: Config, s0: State, s: State) returns (t: State)
    requires WorkerReaches(c, s0, s) && s.worker.pc.WInReset? && s.worker.inEof && s.worker.chunk.None?
    ensures WorkerReaches(c, s0, t) && t.pipeClosed && t.worker.inClosed && t.user == s.user
  {
    hide WorkerReaches, Concat, Full;
    var s1 := DoResetGotIn(c, s);
    OneStepOn(c, s0, s, ResetGotIn, s1);
    var s2 := DoSetWantIn(c, s1);
    OneStepOn(c, s0, s1, SetWantIn, s2);
    t := DoClosePipe(c, s2);
    OneStepOn(c, s0, s2, ClosePipe, t);
  }

  /** With the pipe closed and both streams at their end the worker stops by itself and says so. */
  lemma EndedWorkerStops(c: Config, s: State) returns (t: State)
    requires s.worker.pc.WEnd? && s.worker.inClosed && s.out.eof && s.err.eof
    ensures WorkerReaches(c, s, t) && t.worker.pc.WDead? && SChild in t.response && t.user == s.user
  {
    hide WorkerReaches;
    StaysPut(c, s);
    var s1 := DoLoop(c, s);
    OneStepOn(c, s, s, Loop, s1);
    t := DoHalt(c, s1);
    OneStepOn(c, s, s1, Halt, t);
  }
}
