/** The stalled put does happen: a run of the pipe protocol that reaches it. */
module PipeStall {
  import opened PipeProtocol
  import opened PipeTheorems
  import opened Wrappers

  lemma {:induction false} RunExtends(c: Config, s: State, actions: seq<Action>, a: Action)
    requires Run(c, s, actions).Some? && Enabled(c, Run(c, s, actions).value, a)
    ensures Run(c, s, actions + [a]) == Some(Apply(c, Run(c, s, actions).value, a))
    decreases |actions|
  {
    hide Enabled, Apply;
    if actions == [] {
      assert [a][1..] == [];
    } else {
      assert (actions + [a])[1..] == actions[1..] + [a];
      RunExtends(c, Apply(c, s, actions[0]), actions[1..], a);
    }
  }

  lemma StepReaches(c: Config, s: State, a: Action, t: State)
    requires Reachable(c, s) && Enabled(c, s, a) && Apply(c, s, a) == t
    ensures Reachable(c, t)
  {
    hide Enabled, Apply, Run;
    var actions :| Run(c, Initial(), actions) == Some(s);
    RunExtends(c, Initial(), actions, a);
  }

  function StallConfig(): Config { Config(1, 0, 0, 1, 1) }

  /** The state after a put of one byte into the empty input queue. */
  function PutByte(s: State, b: byte): State {
    s.(control := s.control + {SIn}, response := s.response - {SIn}, inq := [[b]], accepted := s.accepted + [b],
       user := User(UIdle, false, false, Taken))
  }

  function OnePut(): State { PutByte(Initial(), 1) }

  /** The worker has fetched the byte and is about to select. */
  function Fetched(): State {
    OnePut().(control := {SOut, SErr}, response := {SIn}, inq := [],
              worker := Worker(WSelect, {SOut, SErr, SIn}, false, false, Some([1]), {}, false))
  }

  /** The state after reading the end of file of `k`. */
  function EndRead(s: State, k: Kind): State {
    s.With(k, s.Of(k).(eof := true)).WorkerAt(AfterRead(k)).(response := s.response + {KindBit(k)} + {EofBit(k)})
  }

  /** The child did not take the byte and closed its outputs: the worker has read both ends of file. */
  function Ended(): State {
    var s := Fetched();
    EndRead(EndRead(s.(worker := s.worker.(pc := WRead(Out), ready := {SOut, SErr})), Out), Err)
  }

  /** Two more puts: one is taken, the other must wait. */
  function Stalled(): State {
    PutByte(Ended().WorkerAt(WWait), 2).UserAt(UPutWait([3]))
  }

  lemma StartIsReachable(c: Config)
    ensures Reachable(c, Initial())
  {
    assert Run(c, Initial(), []) == Some(Initial());
  }

  lemma ReachesPutByte(c: Config, s: State, b: byte)
    requires c == StallConfig() && Reachable(c, s) && s.mutex.Free? && s.inq == [] && SIn in s.response
             && SChild !in s.response
    requires s.user.pc.UIdle? && !s.user.inClosed && !s.user.inBad
    ensures Reachable(c, PutByte(s, b))
  {
    hide Reachable;
    var s1 := DoCallPut(c, s, [b]);
    StepReaches(c, s, CallPut([b]), s1);
    assert SIn in s1.response * {SIn, SChild};
    var s2 := DoPutWake(c, s1);
    StepReaches(c, s1, PutWake, s2);
    ReachesStored(c, s2, b);
  }

  lemma ReachesStored(c: Config, s: State, b: byte)
    requires c == StallConfig() && Reachable(c, s) && s.mutex.Free? && s.inq == []
    requires s.user.pc.UPutLock? && s.user.pc.src == [b] && SChild !in s.user.pc.snap && !s.user.inClosed
             && !s.user.inBad
    ensures Reachable(c, PutByte(s, b))
  {
    hide Reachable;
    assert Concat([[b]]) == [b];
    var s3 := DoPutStore(c, s);
    StepReaches(c, s, PutStore, s3);
    var s4 := DoPutReset(c, s3);
    StepReaches(c, s3, PutReset, s4);
    ReachesTold(c, s4);
    assert DoPutTell(c, s4) == PutByte(s, b);
  }

  lemma ReachesTold(c: Config, s: State)
    requires Reachable(c, s) && CanPutTell(c, s)
    ensures Reachable(c, DoPutTell(c, s))
  {
    hide Reachable, Concat;
    StepReaches(c, s, PutTell, DoPutTell(c, s));
  }

  lemma ReachesFetched(c: Config)
    requires c == StallConfig() && Reachable(c, OnePut())
    ensures Reachable(c, Fetched())
  {
    hide Reachable;
    assert Concat([[1]]) == [1];
    var s0 := OnePut();
    var s1 := DoWake(c, s0);
    StepReaches(c, s0, Wake, s1);
    var s2 := DoDetach(c, s1);
    StepReaches(c, s1, Detach, s2);
    var s3 := DoResetGotIn(c, s2);
    StepReaches(c, s2, ResetGotIn, s3);
    var s4 := DoSetWantIn(c, s3);
    StepReaches(c, s3, SetWantIn, s4);
    var s5 := DoClosePipe(c, s4);
    StepReaches(c, s4, ClosePipe, s5);
    var s6 := DoCheckStop(c, s5);
    StepReaches(c, s5, CheckStop, s6);
    assert s6 == Fetched();
  }

  lemma ReachesEndRead(c: Config, s: State, k: Kind)
    requires Reachable(c, s) && s.worker.pc == WRead(k) && KindBit(k) in s.worker.ready && s.mutex.Free?
    ensures Reachable(c, EndRead(s, k))
  {
    hide Reachable;
    var s1 := s.WorkerAt(WLock(k, []));
    StepReaches(c, s, Read([]), s1);
    var s2 := s.WorkerAt(WFull(k, [])).(mutex := ByWorker);
    StepReaches(c, s1, Enqueue, s2);
    ReachesEndTold(c, s2, k);
  }

  lemma ReachesEndTold(c: Config, s: State, k: Kind)
    requires Reachable(c, s) && s.worker.pc == WFull(k, [])
    ensures Reachable(c, EndRead(s, k).(mutex := Free))
  {
    hide Reachable;
    var s3 := s.WorkerAt(WTell(k, []));
    StepReaches(c, s, ResetWant, s3);
    StepReaches(c, s3, SetGot, EndRead(s, k).(mutex := Free));
  }

  lemma EndReadAdvances(s: State, k: Kind)
    ensures EndRead(s, k).worker == s.worker.(pc := AfterRead(k)) && EndRead(s, k).mutex == s.mutex
  {
  }

  lemma ReachesEnded(c: Config)
    requires Reachable(c, Fetched())
    ensures Reachable(c, Ended())
  {
    hide Reachable, EndRead;
    var s0 := Fetched();
    var s1 := DoSelect(c, s0, {SOut, SErr});
    StepReaches(c, s0, Select({SOut, SErr}), s1);
    var s2 := DoWriteAgain(c, s1);
    StepReaches(c, s1, WriteAgain, s2);
    ReachesEndRead(c, s2, Out);
    EndReadAdvances(s2, Out);
    ReachesEndRead(c, EndRead(s2, Out), Err);
  }

  lemma ReachesStalled(c: Config)
    requires c == StallConfig() && Reachable(c, Ended())
    ensures Reachable(c, Stalled())
  {
    hide Reachable;
    var s0 := Ended();
    var s1 := s0.WorkerAt(WWait);
    StepReaches(c, s0, Loop, s1);
    ReachesPutByte(c, s1, 2);
    var s2 := PutByte(s1, 2);
    StepReaches(c, s2, CallPut([3]), Stalled());
  }

  /** A stalled put is reachable: the child closes its output while the worker still holds a byte
      for it, so the worker waits for a stop request only. */
  lemma StallHappens()
    ensures exists c, s :: Reachable(c, s) && WriterStalls(c, s)
  {
    hide Reachable;
    var c := StallConfig();
    StartIsReachable(c);
    ReachesPutByte(c, Initial(), 1);
    ReachesFetched(c);
    ReachesEnded(c);
    ReachesStalled(c);
    assert Concat([[2]]) == [2];
    assert WriterStalls(c, Stalled());
  }
}
