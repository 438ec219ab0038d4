/**
 * The live-video protocol of qhyccdvideo.py on top of blocking.py: worker threads, reader threads and the event loop
 * interleave, one step at a time, around one driver lock.
 */
module LiveVideo {
  // ---- The camera and what the SDK calls do to it ----

  /**
   * `config` counts the settings written so far, so it names the settings the camera is in; `session` is the settings
   * generation in force at the latest begin_live(); `stale` is whether a setting has taken effect since the memory
   * length was last asked for.
   */
  datatype Device = Device(open: bool, live: bool, config: nat, session: nat, stale: bool)

  /**
   * SDK calls. `Write` is any of the set_* calls of _configure, `Measure` its get_mem_length; `Fetch` carries what the
   * buffer was allocated for.
   */
  datatype Call = Begin(generation: nat) | End | Write | Measure | Fetch(sizedFor: nat) | Shut

  /** A call, and the camera it was made on. */
  datatype Event = Event(call: Call, on: Device)

  function Perform(d: Device, c: Call): Device {
    match c
    case Begin(g) => d.(live := true, session := g)
    case End => d.(live := false)
    case Write => d.(config := d.config + 1, stale := true)
    case Measure => d.(stale := false)
    case Fetch(_) => d
    case Shut => d.(open := false, live := false)
  }

  datatype Buffer = NoBuffer | Sized(config: nat)

  /**
   * The fields of QHYCCDVideo the threads share: whether _driver is set, _capturing, what _buffer was allocated for,
   * the settings generation; and the camera with the log of all calls made on it.
   */
  datatype Shared = Shared(driver: bool, capturing: bool, buffer: Buffer, generation: nat, device: Device,
      log: seq<Event>)

  function Do(s: Shared, c: Call): Shared {
    s.(device := Perform(s.device, c), log := s.log + [Event(c, s.device)])
  }

  // ---- Threads ----

  /** The functions handed to _run_blocking. */
  datatype Job = Apply | Start | Stop | Close

  /**
   * Where a worker thread is; between Entered and Leaving it holds the driver lock. `found` records whether a stop
   * found _capturing set when it entered.
   */
  datatype WorkerPc =
    | Waiting
    | Entered
    | HasDriver
    | Configuring(written: nat)
    | Allocated
    | Restarting(raised: bool)
    | Begun
    | Halting(found: bool)
    | EndingLive(found: bool)
    | Leaving(raised: bool)
    | Finished(raised: bool)

  datatype Worker = Worker(job: Job, pc: WorkerPc)

  /** Where a reader thread is; between Holding and Returning it holds the driver lock. */
  datatype ReaderPc =
    | Top
    | Yielding
    | AtLock
    | Holding
    | Fetching(sizedFor: nat)
    | Stamping(taken: Device)
    | Again
    | Returning
    | Done

  datatype Reader = Reader(stop: bool, pc: ReaderPc)

  datatype Thread = W(i: nat) | R(i: nat)

  datatype Lock = Free | HeldBy(thread: Thread)

  /** A frame handed to the event loop: its stamp, and the camera it was taken from. */
  datatype Frame = Frame(generation: nat, taken: Device)

  /**
   * `writes` is how many set_* calls this camera's _configure makes; `closing` is how far the event loop is with
   * dropping _driver and having it closed.
   */
  datatype State = State(
    shared: Shared,
    lock: Lock,
    workers: seq<Worker>,
    readers: seq<Reader>,
    pending: bool,
    frames: seq<Frame>,
    closing: Closing,
    writes: nat
  )

  datatype Closing = NotClosing | DriverDropped | ClosedBy(worker: nat)

  /** What can happen next. */
  datatype Action =
    | Spawn(job: Job)
    | SpawnReader
    | SetStop(reader: nat)
    | SetPending(on: bool)
    | DropDriver
    | Work(worker: nat)
    | WriteRaises(worker: nat, written: bool)
    | Read(reader: nat, hasFrame: bool)

  /** After QHYCCDDriver.open(), which leaves live mode off. */
  function Opened(writes: nat): State {
    State(Shared(true, false, NoBuffer, 0, Device(true, false, 0, 0, false), []), Free, [], [], false, [],
      NotClosing, writes)
  }

  // ---- Worker steps ----

  /** One step of a worker inside the lock, on the shared fields; the second part is where it is then. */
  function Inside(s: Shared, job: Job, pc: WorkerPc, writes: nat): (Shared, WorkerPc) {
    match pc
    case Entered => (
      match job
      case Apply => (s, if s.driver then HasDriver else Leaving(false))
      case Start => (s, if s.driver then HasDriver else Leaving(true))
      case Stop => (s.(capturing := false), Halting(s.capturing))
      case Close => (Do(s, Shut), Leaving(false)))
    case HasDriver => (
      if job.Apply? then (if s.capturing then Do(s, End) else s, Configuring(0))
      else if s.driver then (Do(s, Begin(s.generation)), Begun)
      else (s, Leaving(true)))
    case Configuring(k) =>
      if k < writes then (Do(s, Write), Configuring(k + 1))
      else (Do(s, Measure).(buffer := Sized(s.device.config)), Allocated)
    case Allocated => (s.(generation := s.generation + 1), Restarting(false))
    case Restarting(raised) => (if s.capturing then Do(s, Begin(s.generation)) else s, Leaving(raised))
    case Begun => (s.(capturing := true), Leaving(false))
    case Halting(found) => (s, if s.driver then EndingLive(found) else Leaving(false))
    case EndingLive(_) => if s.driver then (Do(s, End), Leaving(false)) else (s, Leaving(true))
    case Waiting => (s, pc)
    case Leaving(_) => (s, pc)
    case Finished(_) => (s, pc)
  }

  function WorkStep(s: State, w: nat): State {
    if w >= |s.workers| then s
    else
      var t := s.workers[w];
      match t.pc
      case Waiting =>
        if s.lock == Free then s.(lock := HeldBy(W(w)), workers := s.workers[w := t.(pc := Entered)]) else s
      case Leaving(raised) => s.(lock := Free, workers := s.workers[w := t.(pc := Finished(raised))])
      case Finished(_) => s
      case _ =>
        var (shared, pc) := Inside(s.shared, t.job, t.pc, s.writes);
        s.(shared := shared, workers := s.workers[w := t.(pc := pc)])
  }

  /**
   * An SDK call of _configure raises: a set_* call with or without having changed the camera, or one that reads back.
   * Live mode is restarted all the same, then the exception goes on.
   */
  function RaisesInside(s: Shared, k: nat, writes: nat, written: bool): Shared {
    if written && k < writes then Do(s, Write) else s
  }

  function WriteRaisesStep(s: State, w: nat, written: bool): State {
    if w < |s.workers| && s.workers[w].pc.Configuring? then
      s.(shared := RaisesInside(s.shared, s.workers[w].pc.written, s.writes, written),
         workers := s.workers[w := s.workers[w].(pc := Restarting(true))])
    else s
  }

  // ---- Reader steps ----

  function ReadStep(s: State, r: nat, hasFrame: bool): State {
    if r >= |s.readers| then s
    else
      var t := s.readers[r];
      match t.pc
      case Top => s.(readers := s.readers[r := t.(pc := if t.stop then Done else Yielding)])
      case Yielding => if s.pending && !t.stop then s else s.(readers := s.readers[r := t.(pc := AtLock)])
      case AtLock =>
        if s.lock == Free then s.(lock := HeldBy(R(r)), readers := s.readers[r := t.(pc := Holding)]) else s
      case Holding =>
        var go := s.shared.driver && s.shared.buffer.Sized? && s.shared.capturing;
        s.(readers := s.readers[r := t.(pc := if go then Fetching(s.shared.buffer.config) else Returning)])
      case Fetching(b) =>
        s.(shared := Do(s.shared, Fetch(b)),
           readers := s.readers[r := t.(pc := if hasFrame then Stamping(s.shared.device) else Again)])
      case Stamping(d) =>
        s.(frames := s.frames + [Frame(s.shared.generation, d)], readers := s.readers[r := t.(pc := Again)])
      case Again => s.(lock := Free, readers := s.readers[r := t.(pc := Top)])
      case Returning => s.(lock := Free, readers := s.readers[r := t.(pc := Done)])
      case Done => s
  }

  // ---- The whole system ----

  /**
   * Any number of workers and readers may be started at any time, in particular while earlier workers have timed out
   * and are still waiting; only driver.close is handed to a worker at most once, after _driver has been dropped.
   */
  function Step(s: State, a: Action): State {
    match a
    case Spawn(job) =>
      if job.Close? then
        if s.closing.DriverDropped? then s.(workers := s.workers + [Worker(Close, Waiting)],
          closing := ClosedBy(|s.workers|))
        else s
      else s.(workers := s.workers + [Worker(job, Waiting)])
    case SpawnReader => s.(readers := s.readers + [Reader(false, Top)])
    case SetStop(r) => if r < |s.readers| then s.(readers := s.readers[r := s.readers[r].(stop := true)]) else s
    case SetPending(on) => s.(pending := on)
    case DropDriver =>
      if s.closing.NotClosing? then s.(shared := s.shared.(driver := false), closing := DriverDropped) else s
    case Work(w) => WorkStep(s, w)
    case WriteRaises(w, written) => WriteRaisesStep(s, w, written)
    case Read(r, hasFrame) => ReadStep(s, r, hasFrame)
  }

  function Run(s: State, actions: seq<Action>): State
    decreases |actions|
  {
    if actions == [] then s else Run(Step(s, actions[0]), actions[1..])
  }

  lemma RunTwo(s: State, a: Action, b: Action)
    ensures Run(s, [a, b]) == Step(Step(s, a), b)
  {
    assert [a, b][1..] == [b] && [b][1..] == [];
    assert Run(Step(s, a), [b]) == Run(Step(Step(s, a), b), []);
  }

  lemma {:induction false} RunConcat(s: State, a: seq<Action>, b: seq<Action>)
    ensures Run(s, a + b) == Run(Run(s, a), b)
    decreases |a|
  {
    if a == [] {
      assert a + b == b;
    } else {
      assert (a + b)[0] == a[0] && (a + b)[1..] == a[1..] + b;
      RunConcat(Step(s, a[0]), a[1..], b);
    }
  }
}
