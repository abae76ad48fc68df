/** The two threads of an exec-stream (3rdparty/exec-stream/posix/exec-stream-helpers.cpp): the
    user calls get, put, close_in and stop_thread, the worker moves bytes between the queues and
    the child. Each action below is one step that the other thread cannot divide: a snapshot or an
    update of an event word, or the queue work done under the mutex. What the operating system
    decides (timeouts, readiness, partial writes, bytes read, failures) is chosen by the action. */
module PipeProtocol {
  import opened Wrappers

  newtype byte = b: int | 0 <= b < 256

  /** The child streams that are read. */
  datatype Kind = Out | Err

  /** The bits of the two event words. */
  datatype Bit = SIn | SOut | SErr | SChild | SInEof | SOutEof | SErrEof

  function KindBit(k: Kind): Bit { if k.Out? then SOut else SErr }

  function EofBit(k: Kind): Bit { if k.Out? then SOutEof else SErrEof }

  datatype Config = Config(inLimit: nat, outLimit: nat, errLimit: nat, outRead: nat, errRead: nat) {
    function Limit(k: Kind): nat { if k.Out? then outLimit else errLimit }
    function ReadSize(k: Kind): nat { if k.Out? then outRead else errRead }
  }

  /** A queue from the child: what is in it, all bytes read so far, all bytes handed to the user. */
  datatype Stream = Stream(queue: seq<byte>, read: seq<byte>, delivered: seq<byte>, eof: bool)

  datatype WorkerPc =
    | WWait                             // about to wait for the control word
    | WLockIn                           // about to take the mutex for the input queue
    | WInReset | WInSet                 // holding it: clear got-data, then set want-data
    | WClose | WStop                    // close the pipe; obey a stop request
    | WSelect | WWrite                  // select, then write
    | WRead(k: Kind)                    // about to read a child stream
    | WLock(k: Kind, chunk: seq<byte>)  // read, about to take the mutex
    | WFull(k: Kind, chunk: seq<byte>)  // holding it: clear want-data if full
    | WTell(k: Kind, chunk: seq<byte>)  // holding it: set got-data
    | WEnd | WHalt | WDead

  datatype Worker = Worker(pc: WorkerPc, snap: set<Bit>, inEof: bool, inClosed: bool, chunk: Option<seq<byte>>,
                           ready: set<Bit>, error: bool)

  datatype UserPc =
    | UIdle
    | UGetWait(k: Kind, size: nat) | UGetLock(k: Kind, size: nat, snap: set<Bit>)
    | UGetReset(k: Kind) | UGetWant(k: Kind)
    | UPutWait(src: seq<byte>) | UPutLock(src: seq<byte>, snap: set<Bit>) | UPutReset | UPutTell
    | UStopWait | UStopped

  datatype Result =
    | Nothing
    | Got(k: Kind, bytes: seq<byte>, noMore: bool)
    | Taken | Refused
    | Threw

  datatype User = User(pc: UserPc, inClosed: bool, inBad: bool, result: Result)

  datatype Owner = Free | ByUser | ByWorker

  datatype State = State(mutex: Owner, control: set<Bit>, response: set<Bit>, inq: seq<seq<byte>>, out: Stream,
                         err: Stream, worker: Worker, user: User, accepted: seq<byte>, written: seq<byte>,
                         pipeClosed: bool) {
    function Of(k: Kind): Stream { if k.Out? then out else err }

    function With(k: Kind, st: Stream): State {
      if k.Out? then this.(out := st) else this.(err := st)
    }

    function WorkerAt(pc: WorkerPc): State { this.(worker := worker.(pc := pc)) }

    function UserAt(pc: UserPc): State { this.(user := user.(pc := pc)) }
  }

  function Concat(chunks: seq<seq<byte>>): seq<byte> {
    if chunks == [] then [] else chunks[0] + Concat(chunks[1..])
  }

  predicate Full(bytes: nat, limit: nat) {
    limit != 0 && bytes >= limit
  }

  predicate QueueFull(c: Config, s: State, k: Kind) {
    Full(|s.Of(k).queue|, c.Limit(k))
  }

  /** What `start` sets up. */
  function Initial(): State {
    State(Free, {SOut, SErr}, {SIn}, [], Stream([], [], [], false), Stream([], [], [], false),
          Worker(WWait, {}, false, false, None, {}, false), User(UIdle, false, false, Nothing), [], [], false)
  }

  /** What the worker waits for. */
  function WaitFor(s: State): set<Bit> {
    {SChild}
    + (if !s.worker.inEof && s.worker.chunk.None? then {SIn, SInEof} else {})
    + (if !s.out.eof then {SOut} else {})
    + (if !s.err.eof then {SErr} else {})
  }

  datatype Action =
    // the worker
    | Wake | WakeTimeout | Detach | ResetGotIn | SetWantIn | ClosePipe | CheckStop
    | Select(ready: set<Bit>) | Write(n: nat) | WriteAgain
    | Read(chunk: seq<byte>) | ReadAgain | Enqueue | ResetWant | SetGot | Loop | Halt | Fail
    // the user
    | CallGet(k: Kind, size: nat) | CallPut(src: seq<byte>) | CallCloseIn | CallStop
    | GetWake | GetTimeout | GetTake | GetReset | GetWant
    | PutWake | PutTimeout | PutStore | PutReset | PutTell
    | StopWake

  /** The worker's read step that comes after the one for `k`. */
  function AfterRead(k: Kind): WorkerPc { if k.Out? then WRead(Err) else WEnd }

  // ---------- The actions ----------

  /** Where the worker goes after a snapshot: to the input queue if there is something to fetch, past it otherwise. */
  function AfterWait(s: State, snap: set<Bit>): WorkerPc {
    if s.worker.chunk.None? && snap * {SIn, SInEof} != {} then WLockIn else WClose
  }

  function TakeOut(s: State, k: Kind, size: nat, snap: set<Bit>): State {
    var st := s.Of(k);
    var n := if size <= |st.queue| then size else |st.queue|;
    var got := Got(k, st.queue[..n], st.queue == [] && EofBit(k) in snap);
    s.With(k, st.(queue := st.queue[n..], delivered := st.delivered + st.queue[..n])).(user := s.user.(result := got))
  }

  predicate CanWake(c: Config, s: State) {
    s.worker.pc.WWait? && s.control * WaitFor(s) != {}
  }

  /** The worker wakes: it keeps a snapshot of the whole control word. */
  function DoWake(c: Config, s: State): State
    requires CanWake(c, s)
  {
    s.(worker := s.worker.(pc := AfterWait(s, s.control), snap := s.control))
  }

  predicate CanWakeTimeout(c: Config, s: State) {
    s.worker.pc.WWait?
  }

  /** The wait times out: the snapshot is empty. */
  function DoWakeTimeout(c: Config, s: State): State
    requires CanWakeTimeout(c, s)
  {
    s.(worker := s.worker.(pc := WClose, snap := {}))
  }

  predicate CanDetach(c: Config, s: State) {
    s.worker.pc.WLockIn? && s.mutex.Free?
  }

  /** Under the mutex: notes the end of the input, or detaches the first queued chunk. */
  function DoDetach(c: Config, s: State): State
    requires CanDetach(c, s)
  {
    var w := s.worker;
    var total := |Concat(s.inq)|;
    var inEof := w.inEof || (total == 0 && SInEof in w.snap);
    if total != 0 && s.inq != [] then
      s.(mutex := ByWorker, inq := s.inq[1..], worker := w.(pc := WInReset, inEof := inEof, chunk := Some(s.inq[0])))
    else
      s.(mutex := ByWorker, worker := w.(pc := WInReset, inEof := inEof))
  }

  predicate CanResetGotIn(c: Config, s: State) {
    s.worker.pc.WInReset?
  }

  /** Got-data is cleared when the input queue is empty. */
  function DoResetGotIn(c: Config, s: State): State
    requires CanResetGotIn(c, s)
  {
    s.WorkerAt(WInSet).(control := if Concat(s.inq) == [] then s.control - {SIn} else s.control)
  }

  predicate CanSetWantIn(c: Config, s: State) {
    s.worker.pc.WInSet?
  }

  /** Want-data is set when the input queue is not full; the mutex is released. */
  function DoSetWantIn(c: Config, s: State): State
    requires CanSetWantIn(c, s)
  {
    s.WorkerAt(WClose).(mutex := Free,
                        response := if Full(|Concat(s.inq)|, c.inLimit) then s.response else s.response + {SIn})
  }

  predicate CanClosePipe(c: Config, s: State) {
    s.worker.pc.WClose?
  }

  /** The pipe is closed once the input has ended and nothing is left to write. */
  function DoClosePipe(c: Config, s: State): State
    requires CanClosePipe(c, s)
  {
    if s.worker.inEof && s.worker.chunk.None? then
      s.(pipeClosed := true, worker := s.worker.(pc := WStop, inClosed := true))
    else s.WorkerAt(WStop)
  }

  predicate CanCheckStop(c: Config, s: State) {
    s.worker.pc.WStop?
  }

  /** A stop request is obeyed when nothing is left to write. */
  function DoCheckStop(c: Config, s: State): State
    requires CanCheckStop(c, s)
  {
    s.WorkerAt(if s.worker.chunk.None? && SChild in s.worker.snap then WHalt else WSelect)
  }

  predicate CanSelect(c: Config, s: State, ready: set<Bit>) {
    s.worker.pc.WSelect?
    && ready <= (if s.worker.chunk.Some? then {SIn} else {})
    + (if !s.out.eof && SOut in s.worker.snap then {SOut} else {})
    + (if !s.err.eof && SErr in s.worker.snap then {SErr} else {})
  }

  /** Select reports some of the descriptors asked for. */
  function DoSelect(c: Config, s: State, ready: set<Bit>): State
    requires CanSelect(c, s, ready)
  {
    s.(worker := s.worker.(pc := WWrite, ready := ready))
  }

  predicate CanWrite(c: Config, s: State, n: nat) {
    s.worker.pc.WWrite? && SIn in s.worker.ready && s.worker.chunk.Some? && n <= |s.worker.chunk.value|
  }

  /** Some bytes of the chunk are written. */
  function DoWrite(c: Config, s: State, n: nat): State
    requires CanWrite(c, s, n)
  {
    s.(written := s.written + s.worker.chunk.value[..n],
       worker := s.worker.(pc := WRead(Out),
                           chunk := if n == |s.worker.chunk.value| then None else Some(s.worker.chunk.value[n..])))
  }

  predicate CanWriteAgain(c: Config, s: State) {
    s.worker.pc.WWrite?
  }

  /** Nothing is written this round. */
  function DoWriteAgain(c: Config, s: State): State
    requires CanWriteAgain(c, s)
  {
    s.WorkerAt(WRead(Out))
  }

  predicate CanRead(c: Config, s: State, chunk: seq<byte>) {
    s.worker.pc.WRead? && KindBit(s.worker.pc.k) in s.worker.ready && |chunk| <= c.ReadSize(s.worker.pc.k)
  }

  /** A chunk is read from the child; an empty one is its end of file. */
  function DoRead(c: Config, s: State, chunk: seq<byte>): State
    requires CanRead(c, s, chunk)
  {
    var st := s.Of(s.worker.pc.k);
    s.With(s.worker.pc.k, st.(read := st.read + chunk)).WorkerAt(WLock(s.worker.pc.k, chunk))
  }

  predicate CanReadAgain(c: Config, s: State) {
    s.worker.pc.WRead?
  }

  /** Nothing is read this round. */
  function DoReadAgain(c: Config, s: State): State
    requires CanReadAgain(c, s)
  {
    s.WorkerAt(AfterRead(s.worker.pc.k))
  }

  predicate CanEnqueue(c: Config, s: State) {
    s.worker.pc.WLock? && s.mutex.Free?
  }

  /** The mutex is taken and the chunk queued. */
  function DoEnqueue(c: Config, s: State): State
    requires CanEnqueue(c, s)
  {
    var st := s.Of(s.worker.pc.k);
    s.With(s.worker.pc.k, st.(queue := st.queue + s.worker.pc.chunk))
     .WorkerAt(WFull(s.worker.pc.k, s.worker.pc.chunk)).(mutex := ByWorker)
  }

  predicate CanResetWant(c: Config, s: State) {
    s.worker.pc.WFull?
  }

  /** Want-data is cleared when the queue is full. */
  function DoResetWant(c: Config, s: State): State
    requires CanResetWant(c, s)
  {
    s.WorkerAt(WTell(s.worker.pc.k, s.worker.pc.chunk)).(
      control := if s.worker.pc.chunk != [] && QueueFull(c, s, s.worker.pc.k) then s.control - {KindBit(s.worker.pc.k)}
                 else s.control)
  }

  predicate CanSetGot(c: Config, s: State) {
    s.worker.pc.WTell?
  }

  /** Got-data is set, with end of file if it was read; the mutex is released. */
  function DoSetGot(c: Config, s: State): State
    requires CanSetGot(c, s)
  {
    var st := s.Of(s.worker.pc.k);
    var ended := s.worker.pc.chunk == [];
    s.With(s.worker.pc.k, st.(eof := st.eof || ended)).WorkerAt(AfterRead(s.worker.pc.k)).(mutex := Free,
      response := s.response + {KindBit(s.worker.pc.k)} + if ended then {EofBit(s.worker.pc.k)} else {})
  }

  predicate CanLoop(c: Config, s: State) {
    s.worker.pc.WEnd?
  }

  /** The round ends. */
  function DoLoop(c: Config, s: State): State
    requires CanLoop(c, s)
  {
    s.WorkerAt(if s.worker.inClosed && s.out.eof && s.err.eof then WHalt else WWait)
  }

  predicate CanHalt(c: Config, s: State) {
    s.worker.pc.WHalt?
  }

  /** The worker announces that it has stopped. */
  function DoHalt(c: Config, s: State): State
    requires CanHalt(c, s)
  {
    s.WorkerAt(WDead).(response := s.response + {SChild})
  }

  predicate CanFail(c: Config, s: State) {
    !s.worker.pc.WHalt? && !s.worker.pc.WDead?
  }

  /** Any operation fails: the worker stops with an error and lets go of the mutex. */
  function DoFail(c: Config, s: State): State
    requires CanFail(c, s)
  {
    s.(mutex := if s.mutex.ByWorker? then Free else s.mutex, worker := s.worker.(pc := WHalt, error := true))
  }

  predicate CanCallGet(c: Config, s: State, k: Kind, size: nat) {
    s.user.pc.UIdle? && size > 0
  }

  function DoCallGet(c: Config, s: State, k: Kind, size: nat): State
    requires CanCallGet(c, s, k, size)
  {
    s.UserAt(UGetWait(k, size))
  }

  predicate CanCallPut(c: Config, s: State, src: seq<byte>) {
    s.user.pc.UIdle?
  }

  /** A put is refused once the input is closed or broken. */
  function DoCallPut(c: Config, s: State, src: seq<byte>): State
    requires CanCallPut(c, s, src)
  {
    if s.user.inClosed || s.user.inBad then s.(user := s.user.(result := Refused)) else s.UserAt(UPutWait(src))
  }

  predicate CanCallCloseIn(c: Config, s: State) {
    s.user.pc.UIdle?
  }

  function DoCallCloseIn(c: Config, s: State): State
    requires CanCallCloseIn(c, s)
  {
    s.(control := s.control + {SInEof}, user := s.user.(inClosed := true))
  }

  predicate CanCallStop(c: Config, s: State) {
    s.user.pc.UIdle?
  }

  function DoCallStop(c: Config, s: State): State
    requires CanCallStop(c, s)
  {
    s.UserAt(UStopWait).(control := s.control + {SChild})
  }

  predicate CanGetWake(c: Config, s: State) {
    s.user.pc.UGetWait? && s.response * {KindBit(s.user.pc.k), SChild, EofBit(s.user.pc.k)} != {}
  }

  function DoGetWake(c: Config, s: State): State
    requires CanGetWake(c, s)
  {
    s.UserAt(UGetLock(s.user.pc.k, s.user.pc.size, s.response))
  }

  predicate CanGetTimeout(c: Config, s: State) {
    s.user.pc.UGetWait?
  }

  function DoGetTimeout(c: Config, s: State): State
    requires CanGetTimeout(c, s)
  {
    s.(user := s.user.(pc := UIdle, result := Threw))
  }

  predicate CanGetTake(c: Config, s: State) {
    s.user.pc.UGetLock? && (SChild in s.user.pc.snap || s.mutex.Free?)
  }

  /** Bytes are taken under the mutex, or without it from a stopped worker. */
  function DoGetTake(c: Config, s: State): State
    requires CanGetTake(c, s)
  {
    if SChild in s.user.pc.snap then
      if s.Of(s.user.pc.k).queue == [] && s.worker.error then s.(user := s.user.(pc := UIdle, result := Threw))
      else TakeOut(s, s.user.pc.k, s.user.pc.size, {EofBit(s.user.pc.k)}).UserAt(UIdle)
    else TakeOut(s, s.user.pc.k, s.user.pc.size, s.user.pc.snap).UserAt(UGetReset(s.user.pc.k)).(mutex := ByUser)
  }

  predicate CanGetReset(c: Config, s: State) {
    s.user.pc.UGetReset?
  }

  /** Got-data is cleared when the queue is empty. */
  function DoGetReset(c: Config, s: State): State
    requires CanGetReset(c, s)
  {
    s.UserAt(UGetWant(s.user.pc.k)).(
      response := if s.Of(s.user.pc.k).queue == [] then s.response - {KindBit(s.user.pc.k)} else s.response)
  }

  predicate CanGetWant(c: Config, s: State) {
    s.user.pc.UGetWant?
  }

  /** Want-data is set when the queue is not full; the mutex is released. */
  function DoGetWant(c: Config, s: State): State
    requires CanGetWant(c, s)
  {
    s.UserAt(UIdle).(mutex := Free,
      control := if QueueFull(c, s, s.user.pc.k) then s.control else s.control + {KindBit(s.user.pc.k)})
  }

  predicate CanPutWake(c: Config, s: State) {
    s.user.pc.UPutWait? && s.response * {SIn, SChild} != {}
  }

  function DoPutWake(c: Config, s: State): State
    requires CanPutWake(c, s)
  {
    s.UserAt(UPutLock(s.user.pc.src, s.response))
  }

  predicate CanPutTimeout(c: Config, s: State) {
    s.user.pc.UPutWait?
  }

  function DoPutTimeout(c: Config, s: State): State
    requires CanPutTimeout(c, s)
  {
    s.(user := s.user.(pc := UIdle, inBad := true, result := Refused))
  }

  predicate CanPutStore(c: Config, s: State) {
    s.user.pc.UPutLock? && (SChild in s.user.pc.snap || s.mutex.Free?)
  }

  /** The bytes are queued under the mutex, unless the worker has stopped. */
  function DoPutStore(c: Config, s: State): State
    requires CanPutStore(c, s)
  {
    if SChild in s.user.pc.snap then
      s.(user := s.user.(pc := UIdle, result := if s.worker.error then Threw else Refused))
    else s.(mutex := ByUser, inq := s.inq + [s.user.pc.src], accepted := s.accepted + s.user.pc.src,
            user := s.user.(pc := UPutReset, result := Taken))
  }

  predicate CanPutReset(c: Config, s: State) {
    s.user.pc.UPutReset?
  }

  /** Want-data is cleared when the input queue is full. */
  function DoPutReset(c: Config, s: State): State
    requires CanPutReset(c, s)
  {
    s.UserAt(UPutTell).(response := if Full(|Concat(s.inq)|, c.inLimit) then s.response - {SIn} else s.response)
  }

  predicate CanPutTell(c: Config, s: State) {
    s.user.pc.UPutTell?
  }

  /** Got-data is set when the input queue is not empty; the mutex is released. */
  function DoPutTell(c: Config, s: State): State
    requires CanPutTell(c, s)
  {
    s.UserAt(UIdle).(mutex := Free, control := if Concat(s.inq) == [] then s.control else s.control + {SIn})
  }

  predicate CanStopWake(c: Config, s: State) {
    s.user.pc.UStopWait? && SChild in s.response
  }

  function DoStopWake(c: Config, s: State): State
    requires CanStopWake(c, s)
  {
    s.UserAt(UStopped)
  }

  predicate Enabled(c: Config, s: State, a: Action) {
    match a
    case Wake => CanWake(c, s)
    case WakeTimeout => CanWakeTimeout(c, s)
    case Detach => CanDetach(c, s)
    case ResetGotIn => CanResetGotIn(c, s)
    case SetWantIn => CanSetWantIn(c, s)
    case ClosePipe => CanClosePipe(c, s)
    case CheckStop => CanCheckStop(c, s)
    case Select(ready) => CanSelect(c, s, ready)
    case Write(n) => CanWrite(c, s, n)
    case WriteAgain => CanWriteAgain(c, s)
    case Read(chunk) => CanRead(c, s, chunk)
    case ReadAgain => CanReadAgain(c, s)
    case Enqueue => CanEnqueue(c, s)
    case ResetWant => CanResetWant(c, s)
    case SetGot => CanSetGot(c, s)
    case Loop => CanLoop(c, s)
    case Halt => CanHalt(c, s)
    case Fail => CanFail(c, s)
    case CallGet(k, size) => CanCallGet(c, s, k, size)
    case CallPut(src) => CanCallPut(c, s, src)
    case CallCloseIn => CanCallCloseIn(c, s)
    case CallStop => CanCallStop(c, s)
    case GetWake => CanGetWake(c, s)
    case GetTimeout => CanGetTimeout(c, s)
    case GetTake => CanGetTake(c, s)
    case GetReset => CanGetReset(c, s)
    case GetWant => CanGetWant(c, s)
    case PutWake => CanPutWake(c, s)
    case PutTimeout => CanPutTimeout(c, s)
    case PutStore => CanPutStore(c, s)
    case PutReset => CanPutReset(c, s)
    case PutTell => CanPutTell(c, s)
    case StopWake => CanStopWake(c, s)
  }

  function Apply(c: Config, s: State, a: Action): State
    requires Enabled(c, s, a)
  {
    match a
    case Wake => DoWake(c, s)
    case WakeTimeout => DoWakeTimeout(c, s)
    case Detach => DoDetach(c, s)
    case ResetGotIn => DoResetGotIn(c, s)
    case SetWantIn => DoSetWantIn(c, s)
    case ClosePipe => DoClosePipe(c, s)
    case CheckStop => DoCheckStop(c, s)
    case Select(ready) => DoSelect(c, s, ready)
    case Write(n) => DoWrite(c, s, n)
    case WriteAgain => DoWriteAgain(c, s)
    case Read(chunk) => DoRead(c, s, chunk)
    case ReadAgain => DoReadAgain(c, s)
    case Enqueue => DoEnqueue(c, s)
    case ResetWant => DoResetWant(c, s)
    case SetGot => DoSetGot(c, s)
    case Loop => DoLoop(c, s)
    case Halt => DoHalt(c, s)
    case Fail => DoFail(c, s)
    case CallGet(k, size) => DoCallGet(c, s, k, size)
    case CallPut(src) => DoCallPut(c, s, src)
    case CallCloseIn => DoCallCloseIn(c, s)
    case CallStop => DoCallStop(c, s)
    case GetWake => DoGetWake(c, s)
    case GetTimeout => DoGetTimeout(c, s)
    case GetTake => DoGetTake(c, s)
    case GetReset => DoGetReset(c, s)
    case GetWant => DoGetWant(c, s)
    case PutWake => DoPutWake(c, s)
    case PutTimeout => DoPutTimeout(c, s)
    case PutStore => DoPutStore(c, s)
    case PutReset => DoPutReset(c, s)
    case PutTell => DoPutTell(c, s)
    case StopWake => DoStopWake(c, s)
  }

  /** The state after a run of actions, if each is enabled where it is taken. */
  function Run(c: Config, s: State, actions: seq<Action>): Option<State>
    decreases |actions|
  {
    if actions == [] then Some(s)
    else if Enabled(c, s, actions[0]) then Run(c, Apply(c, s, actions[0]), actions[1..])
    else None
  }

  ghost predicate Reachable(c: Config, s: State) {
    exists actions :: Run(c, Initial(), actions) == Some(s)
  }
}
