/** What every interleaving of the live-video protocol keeps, time-outs and raising calls included. */
module LiveVideoSafety {
  import opened LiveVideo

  predicate HoldsLockW(pc: WorkerPc) { !pc.Waiting? && !pc.Finished? }

  predicate HoldsLockR(pc: ReaderPc) { pc.Holding? || pc.Fetching? || pc.Stamping? || pc.Again? || pc.Returning? }

  /** Only the thread the lock names is inside it. */
  ghost predicate Exclusive(s: State) {
    && (forall w | 0 <= w < |s.workers| :: HoldsLockW(s.workers[w].pc) <==> s.lock == HeldBy(W(w)))
    && (forall r | 0 <= r < |s.readers| :: HoldsLockR(s.readers[r].pc) <==> s.lock == HeldBy(R(r)))
    && (s.lock.HeldBy? ==> match s.lock.thread case W(w) => w < |s.workers| case R(r) => r < |s.readers|)
  }

  /** The camera is closed by one worker, started after _driver was dropped. */
  ghost predicate ClosedOnce(s: State) {
    && (s.closing.NotClosing? <==> s.shared.driver)
    && (forall w | 0 <= w < |s.workers| :: s.workers[w].job.Close? <==> s.closing == ClosedBy(w))
    && (s.closing.ClosedBy? ==> s.closing.worker < |s.workers|)
    && (s.shared.device.open <==>
          !(s.closing.ClosedBy?
            && (s.workers[s.closing.worker].pc.Leaving? || s.workers[s.closing.worker].pc.Finished?)))
  }

  /** The buffer was allocated for the camera's present settings exactly if nothing has changed them since. */
  predicate BufferOk(c: Shared) {
    c.buffer.Sized? ==> c.buffer.config <= c.device.config && (c.buffer.config == c.device.config <==> !c.device.stale)
  }

  /** Between settings changes. */
  predicate Settled(c: Shared) {
    && (c.driver ==> c.capturing == c.device.live)
    && (c.device.live ==> c.device.session == c.generation)
  }

  /** A stop on its way to stop_live: live mode is on exactly if _capturing was set when it entered. */
  predicate StopOk(c: Shared, found: bool) {
    && !c.capturing && (c.device.live ==> c.device.session == c.generation)
    && (c.driver ==> (c.device.live <==> found))
  }

  /** What holds of the shared fields while a worker is at pc. */
  predicate WorkerOk(c: Shared, job: Job, pc: WorkerPc, writes: nat) {
    match pc
    case Waiting => true
    case Entered => Settled(c)
    case HasDriver => (job.Apply? || job.Start?) && Settled(c) && c.capturing == c.device.live && c.device.open
    case Configuring(k) => job.Apply? && !c.device.live && c.device.open && k <= writes
    case Allocated => job.Apply? && !c.device.live && c.device.open
    case Restarting(_) => job.Apply? && !c.device.live && c.device.open
    case Begun => job.Start? && c.device.live && c.device.open && c.device.session == c.generation
    case Halting(found) => job.Stop? && StopOk(c, found)
    case EndingLive(found) => job.Stop? && StopOk(c, found) && c.device.open
    case Leaving(_) => Settled(c)
    case Finished(_) => true
  }

  predicate ReaderOk(c: Shared, pc: ReaderPc) {
    Settled(c) &&
    match pc
    case Fetching(b) => c.device.live && c.device.open && c.buffer == Sized(b)
    case Stamping(d) => c.device.live && c.device == d && c.buffer.Sized?
    case _ => true
  }

  /** What holds of the shared fields, by who is inside the lock. */
  ghost predicate SharedOk(s: State)
    requires Exclusive(s)
  {
    match s.lock
    case Free => Settled(s.shared)
    case HeldBy(W(w)) => WorkerOk(s.shared, s.workers[w].job, s.workers[w].pc, s.writes)
    case HeldBy(R(r)) => ReaderOk(s.shared, s.readers[r].pc)
  }

  /** A call that was in order: never on a closed camera, settings only while stopped, frames only while live. */
  predicate InOrder(e: Event) {
    && e.on.open
    && (e.call.Write? ==> !e.on.live)
    && (e.call.Fetch? ==> e.on.live)
  }

  /** Frames are fetched into a buffer allocated for the camera's present settings exactly if these are not stale. */
  predicate RightBuffer(e: Event) { e.call.Fetch? ==> (e.call.sizedFor == e.on.config <==> !e.on.stale) }

  /** The log is a history of the camera: each call is made on what the calls before have left. */
  ghost predicate History(c: Shared) {
    && (forall i | 0 <= i < |c.log| - 1 :: c.log[i + 1].on == Perform(c.log[i].on, c.log[i].call))
    && (c.log != [] ==> c.device == Perform(c.log[|c.log| - 1].on, c.log[|c.log| - 1].call))
    && (c.log != [] ==> c.log[0].on == Device(true, false, 0, 0, false))
    && (c.log == [] ==> c.device == Device(true, false, 0, 0, false))
  }

  ghost predicate LogOk(s: State) {
    && History(s.shared)
    && (forall e | e in s.shared.log :: InOrder(e))
    && (forall e | e in s.shared.log :: RightBuffer(e))
  }

  /** The buffer is that of the current generation: not between its allocation and the new generation. */
  ghost predicate Current(s: State)
    requires Exclusive(s)
  {
    match s.lock
    case HeldBy(W(w)) => !s.workers[w].pc.Allocated?
    case _ => true
  }

  /**
   * A frame of the generation that goes with this buffer: its settings are those of the buffer exactly if not stale.
   */
  predicate FrameOfBuffer(f: Frame, b: Buffer) {
    b.Sized? && (f.taken.config == b.config <==> !f.taken.stale)
  }

  /**
   * Of two frames with the same stamp, if one's settings are not stale, the other has the same exactly if its are not
   * either.
   */
  predicate SameStamp(f: Frame, g: Frame) {
    f.generation == g.generation && !f.taken.stale ==> (f.taken.config == g.taken.config <==> !g.taken.stale)
  }

  /** Stamps are the generation the frame's live session began with, never decrease, and name the camera's settings. */
  ghost predicate FramesOk(s: State)
    requires Exclusive(s)
  {
    && (forall f | f in s.frames ::
      f.taken.live && f.generation == f.taken.session && f.generation <= s.shared.generation)
    && (forall i, j | 0 <= i < j < |s.frames| :: s.frames[i].generation <= s.frames[j].generation)
    && (forall f, g | f in s.frames && g in s.frames :: SameStamp(f, g))
    && (Current(s) ==>
      forall f | f in s.frames && f.generation == s.shared.generation :: FrameOfBuffer(f, s.shared.buffer))
  }

  ghost predicate Inv(s: State) {
    Exclusive(s) && ClosedOnce(s) && SharedOk(s) && BufferOk(s.shared) && LogOk(s) && FramesOk(s)
  }

  lemma OpenedInv(writes: nat)
    ensures Inv(Opened(writes))
  {}

  // ---- Workers ----

  /** A call appended to the log. */
  lemma DoKeepsLog(s: State, c: Call, n: State)
    requires LogOk(s) && n.shared.log == Do(s.shared, c).log && n.shared.device == Do(s.shared, c).device
    requires InOrder(Event(c, s.shared.device)) && RightBuffer(Event(c, s.shared.device))
    ensures LogOk(n)
  {
    var e := Event(c, s.shared.device);
    forall x | x in n.shared.log ensures InOrder(x) && RightBuffer(x) {
      if x !in s.shared.log { assert x == e; }
    }
  }

  /** One step inside the lock keeps what the holder relies on. */
  lemma InsideKeepsOk(c: Shared, job: Job, pc: WorkerPc, writes: nat)
    requires HoldsLockW(pc) && !pc.Leaving? && WorkerOk(c, job, pc, writes)
    requires (c.driver ==> c.device.open) && (job.Close? ==> !c.driver)
    ensures var (n, pc') := Inside(c, job, pc, writes);
            HoldsLockW(pc') && WorkerOk(n, job, pc', writes)
  {}

  /** It makes at most one call, in order, and leaves _driver alone. */
  lemma InsideCalls(c: Shared, job: Job, pc: WorkerPc, writes: nat)
    requires HoldsLockW(pc) && !pc.Leaving? && WorkerOk(c, job, pc, writes)
    requires (c.driver ==> c.device.open) && (job.Close? ==> c.device.open)
    ensures var n := Inside(c, job, pc, writes).0;
            && n.driver == c.driver
            && (n.device.open <==> c.device.open && !(job.Close? && pc.Entered?))
            && (BufferOk(c) ==> BufferOk(n))
            && ((n.log == c.log && n.device == c.device) ||
                exists call ::
                  && n.log == Do(c, call).log && n.device == Do(c, call).device
                  && InOrder(Event(call, c.device)) && RightBuffer(Event(call, c.device)))
  {
    var n := Inside(c, job, pc, writes).0;
    if n.log != c.log || n.device != c.device {
      var call := match pc
        case Entered => Shut
        case HasDriver => if job.Apply? then End else Begin(c.generation)
        case Configuring(k) => if k < writes then Write else Measure
        case Restarting(_) => Begin(c.generation)
        case _ => End;
      assert n.log == Do(c, call).log && n.device == Do(c, call).device;
    }
  }

  lemma WorkKeepsExclusive(s: State, w: nat)
    requires Exclusive(s) && SharedOk(s) && w < |s.workers|
    requires var t := s.workers[w];
            HoldsLockW(t.pc) && !t.pc.Leaving? ==> HoldsLockW(Inside(s.shared, t.job, t.pc, s.writes).1)
    ensures Exclusive(WorkStep(s, w))
  {
    hide Inside, SharedOk;
    var n := WorkStep(s, w);
    assert n.readers == s.readers;
    assert forall v | 0 <= v < |n.workers| && v != w :: n.workers[v] == s.workers[v];
  }

  lemma WorkKeepsClosed(s: State, w: nat)
    requires Inv(s) && w < |s.workers|
    ensures ClosedOnce(WorkStep(s, w))
  {
    hide FramesOk, LogOk, InOrder, Inside;
    var t, n := s.workers[w], WorkStep(s, w);
    assert forall v | 0 <= v < |n.workers| && v != w :: n.workers[v] == s.workers[v];
    if HoldsLockW(t.pc) && !t.pc.Leaving? {
      if t.job.Close? { CloserPcs(s, w); }
      HolderOk(s, w);
      InsideCalls(s.shared, t.job, t.pc, s.writes);
      ClosePcs(s.shared, t.job, t.pc, s.writes);
    }
  }

  lemma HolderOk(s: State, w: nat)
    requires Exclusive(s) && SharedOk(s) && w < |s.workers| && HoldsLockW(s.workers[w].pc)
    ensures s.lock == HeldBy(W(w)) && WorkerOk(s.shared, s.workers[w].job, s.workers[w].pc, s.writes)
  {}

  /** The closing worker is nowhere but at its one call. */
  lemma CloserPcs(s: State, w: nat)
    requires Inv(s) && w < |s.workers| && s.workers[w].job.Close? && HoldsLockW(s.workers[w].pc)
        && !s.workers[w].pc.Leaving?
    ensures s.workers[w].pc.Entered? && s.shared.device.open && !s.shared.driver
  {
    hide FramesOk, LogOk;
    HolderOk(s, w);
  }

  lemma ClosePcs(c: Shared, job: Job, pc: WorkerPc, writes: nat)
    ensures job.Close? && pc.Entered? ==> Inside(c, job, pc, writes).1.Leaving?
  {}

  lemma DriverMeansOpen(s: State)
    requires ClosedOnce(s)
    ensures s.shared.driver ==> s.shared.device.open
  {}

  lemma WorkKeepsShared(s: State, w: nat)
    requires Inv(s) && w < |s.workers|
    requires Exclusive(WorkStep(s, w))
    ensures SharedOk(WorkStep(s, w))
  {
    hide FramesOk, LogOk, Inside, WorkerOk, ReaderOk;
    var t := s.workers[w];
    if HoldsLockW(t.pc) {
      HolderOk(s, w);
      if t.pc.Leaving? {
        LeavingSettled(s.shared, t.job, t.pc, s.writes);
      } else {
        DriverMeansOpen(s);
        if t.job.Close? { CloserPcs(s, w); }
        InsideKeepsOk(s.shared, t.job, t.pc, s.writes);
      }
    } else {
      EnteredSettled(s.shared, t.job, s.writes);
    }
  }

  lemma LeavingSettled(c: Shared, job: Job, pc: WorkerPc, writes: nat)
    requires pc.Leaving? && WorkerOk(c, job, pc, writes)
    ensures Settled(c)
  {}

  lemma EnteredSettled(c: Shared, job: Job, writes: nat)
    ensures Settled(c) <==> WorkerOk(c, job, Entered, writes)
  {}

  lemma WorkKeepsLog(s: State, w: nat)
    requires Inv(s) && w < |s.workers|
    ensures LogOk(WorkStep(s, w))
  {
    hide FramesOk, LogOk, Inside, WorkerOk, InOrder, RightBuffer;
    var t, n := s.workers[w], WorkStep(s, w);
    if HoldsLockW(t.pc) && !t.pc.Leaving? {
      HolderOk(s, w);
      DriverMeansOpen(s);
      if t.job.Close? { CloserPcs(s, w); }
      InsideCalls(s.shared, t.job, t.pc, s.writes);
      if n.shared.log == s.shared.log && n.shared.device == s.shared.device {
        SameLog(s, n);
      } else {
        var call :|
          && n.shared.log == Do(s.shared, call).log && n.shared.device == Do(s.shared, call).device
          && InOrder(Event(call, s.shared.device)) && RightBuffer(Event(call, s.shared.device));
        DoKeepsLog(s, call, n);
      }
    } else {
      SameLog(s, n);
    }
  }

  lemma WorkKeepsBuffer(s: State, w: nat)
    requires Inv(s) && w < |s.workers|
    ensures BufferOk(WorkStep(s, w).shared)
  {
    hide FramesOk, LogOk, Inside, WorkerOk, BufferOk;
    var t := s.workers[w];
    if HoldsLockW(t.pc) && !t.pc.Leaving? {
      HolderOk(s, w);
      DriverMeansOpen(s);
      if t.job.Close? { CloserPcs(s, w); }
      InsideCalls(s.shared, t.job, t.pc, s.writes);
    }
  }

  lemma SameLog(s: State, n: State)
    requires LogOk(s) && n.shared.log == s.shared.log && n.shared.device == s.shared.device
    ensures LogOk(n)
  {}

  /** Frames are untouched; the buffer moves only between its allocation and the new generation. */
  lemma SameFrames(s: State, n: State)
    requires Exclusive(s) && Exclusive(n) && FramesOk(s) && n.frames == s.frames
    requires n.shared.generation >= s.shared.generation
    requires !Current(n) || n.shared.generation > s.shared.generation ||
      (Current(s) && n.shared.generation == s.shared.generation && n.shared.buffer == s.shared.buffer)
    ensures FramesOk(n)
  {}

  lemma InsideGeneration(c: Shared, job: Job, pc: WorkerPc, writes: nat)
    requires HoldsLockW(pc) && !pc.Leaving?
    ensures var (n, pc') := Inside(c, job, pc, writes);
            && n.generation == (if pc.Allocated? then c.generation + 1 else c.generation)
            && (n.buffer == c.buffer || pc'.Allocated?)
  {}

  lemma WorkKeepsFrames(s: State, w: nat)
    requires Inv(s) && w < |s.workers|
    requires Exclusive(WorkStep(s, w))
    ensures FramesOk(WorkStep(s, w))
  {
    hide LogOk, Inside, WorkerOk, FramesOk, ClosedOnce;
    var t, n := s.workers[w], WorkStep(s, w);
    if HoldsLockW(t.pc) {
      HolderOk(s, w);
      if !t.pc.Leaving? { InsideGeneration(s.shared, t.job, t.pc, s.writes); }
    }
    SameFrames(s, n);
  }

  lemma WorkKeepsInv(s: State, w: nat)
    requires Inv(s)
    ensures Inv(WorkStep(s, w))
  {
    if w < |s.workers| {
      var t := s.workers[w];
      if HoldsLockW(t.pc) && !t.pc.Leaving? {
        hide LogOk, Inside, WorkerOk, FramesOk;
        HolderOk(s, w);
        DriverMeansOpen(s);
        if t.job.Close? { CloserPcs(s, w); }
        InsideKeepsOk(s.shared, t.job, t.pc, s.writes);
      }
      hide *;
      WorkKeepsExclusive(s, w);
      WorkKeepsClosed(s, w);
      WorkKeepsShared(s, w);
      WorkKeepsBuffer(s, w);
      WorkKeepsLog(s, w);
      WorkKeepsFrames(s, w);
    }
  }

  lemma WriteRaisesKeepsInv(s: State, w: nat, written: bool)
    requires Inv(s)
    ensures Inv(WriteRaisesStep(s, w, written))
  {
    var n := WriteRaisesStep(s, w, written);
    if n != s {
      HolderOk(s, w);
      assert Exclusive(n) && ClosedOnce(n) by {
        hide LogOk, FramesOk;
        assert forall v | 0 <= v < |n.workers| && v != w :: n.workers[v] == s.workers[v];
      }
      WriteRaisesKeepsLog(s, w, written);
      hide LogOk;
      SameFrames(s, n);
    }
  }

  lemma WriteRaisesKeepsLog(s: State, w: nat, written: bool)
    requires Inv(s)
    ensures LogOk(WriteRaisesStep(s, w, written))
  {
    hide LogOk, FramesOk, ClosedOnce;
    var n := WriteRaisesStep(s, w, written);
    if n.shared.log != s.shared.log {
      HolderOk(s, w);
      DoKeepsLog(s, Write, n);
    } else {
      SameLog(s, n);
    }
  }

  // ---- Readers ----

  /** A reader moves, and takes or releases the lock if it has to. */
  lemma MoveReader(s: State, n: State, r: nat, t: Reader)
    requires Exclusive(s) && r < |s.readers| && n.workers == s.workers && n.readers == s.readers[r := t]
    requires
      || (n.lock == s.lock && HoldsLockR(t.pc) == HoldsLockR(s.readers[r].pc))
      || (s.lock == Free && n.lock == HeldBy(R(r)) && HoldsLockR(t.pc))
      || (s.lock == HeldBy(R(r)) && n.lock == Free && !HoldsLockR(t.pc))
    ensures Exclusive(n) && (Current(s) <==> Current(n))
  {}

  lemma ReadKeepsExclusive(s: State, r: nat, hasFrame: bool)
    requires Exclusive(s)
    ensures Exclusive(ReadStep(s, r, hasFrame))
  {
    if r < |s.readers| {
      hide Exclusive;
      var n := ReadStep(s, r, hasFrame);
      ReaderHolds(s, r);
      if n == s { assert n.readers == s.readers[r := s.readers[r]]; }
      MoveReader(s, n, r, n.readers[r]);
    }
  }

  lemma ReaderHolds(s: State, r: nat)
    requires Exclusive(s) && r < |s.readers|
    ensures HoldsLockR(s.readers[r].pc) <==> s.lock == HeldBy(R(r))
  {}

  /** One step inside the lock keeps what the reader relies on; closing and driver are not its business. */
  lemma ReadKeepsShared(s: State, r: nat, hasFrame: bool)
    requires Inv(s) && Exclusive(ReadStep(s, r, hasFrame))
    ensures SharedOk(ReadStep(s, r, hasFrame))
  {
    hide LogOk, FramesOk, WorkerOk;
    DriverMeansOpen(s);
    hide ClosedOnce;
    if r < |s.readers| { ReaderHolds(s, r); }
  }

  lemma ReadKeepsClosed(s: State, r: nat, hasFrame: bool)
    requires Inv(s)
    ensures ClosedOnce(ReadStep(s, r, hasFrame))
  {
    hide LogOk, FramesOk, SharedOk, Exclusive;
  }

  lemma ReadKeepsLog(s: State, r: nat, hasFrame: bool)
    requires Inv(s)
    ensures LogOk(ReadStep(s, r, hasFrame))
  {
    hide LogOk, FramesOk, ClosedOnce;
    var n := ReadStep(s, r, hasFrame);
    if r < |s.readers| && s.readers[r].pc.Fetching? {
      DoKeepsLog(s, Fetch(s.readers[r].pc.sizedFor), n);
    } else {
      SameLog(s, n);
    }
  }

  lemma ReadKeepsFrames(s: State, r: nat, hasFrame: bool)
    requires Inv(s) && Exclusive(ReadStep(s, r, hasFrame))
    ensures FramesOk(ReadStep(s, r, hasFrame))
  {
    hide LogOk, ClosedOnce;
    var n := ReadStep(s, r, hasFrame);
    if r < |s.readers| && s.readers[r].pc.Stamping? {
      var f := Frame(s.shared.generation, s.readers[r].pc.taken);
      assert Current(s) && n.frames == s.frames + [f];
      AddFrame(s, n, f);
    } else {
      SameFrames(s, n);
    }
  }

  /** A frame of the present buffer agrees with all others of its stamp, since these are of the buffer, too. */
  lemma StampsExtend(frames: seq<Frame>, f: Frame, b: Buffer)
    requires forall g, h | g in frames && h in frames :: SameStamp(g, h)
    requires FrameOfBuffer(f, b)
    requires forall g | g in frames && g.generation == f.generation :: FrameOfBuffer(g, b)
    ensures forall g, h | g in frames + [f] && h in frames + [f] :: SameStamp(g, h)
  {
    forall g, h | g in frames + [f] && h in frames + [f] ensures SameStamp(g, h) {
      assert (g in frames || g == f) && (h in frames || h == f);
    }
  }

  lemma AddFrame(s: State, n: State, f: Frame)
    requires Exclusive(s) && Exclusive(n) && FramesOk(s) && Current(s)
    requires n.frames == s.frames + [f] && n.shared == s.shared && BufferOk(s.shared) && s.shared.buffer.Sized?
    requires f == Frame(s.shared.generation, s.shared.device) && f.taken.live && f.taken.session == f.generation
    ensures FramesOk(n)
  {
    hide Exclusive;
    StampsExtend(s.frames, f, s.shared.buffer);
    hide SameStamp;
    assert forall g | g in n.frames :: g in s.frames || g == f;
    forall i | 0 <= i < |s.frames| ensures n.frames[i].generation <= f.generation { assert s.frames[i] in s.frames; }
  }

  lemma ReadKeepsInv(s: State, r: nat, hasFrame: bool)
    requires Inv(s)
    ensures Inv(ReadStep(s, r, hasFrame))
  {
    assert Exclusive(s);
    ReadKeepsExclusive(s, r, hasFrame);
    ReadKeepsBuffer(s, r, hasFrame);
    hide ReadStep, Exclusive, ClosedOnce, SharedOk, BufferOk, LogOk, FramesOk;
    ReadKeepsShared(s, r, hasFrame);
    ReadKeepsClosed(s, r, hasFrame);
    ReadKeepsLog(s, r, hasFrame);
    ReadKeepsFrames(s, r, hasFrame);
  }

  lemma ReadKeepsBuffer(s: State, r: nat, hasFrame: bool)
    requires BufferOk(s.shared)
    ensures BufferOk(ReadStep(s, r, hasFrame).shared)
  {}

  // ---- Runs ----

  /** The event loop's own steps. */
  lemma LoopKeepsInv(s: State, a: Action)
    requires Inv(s) && !a.Work? && !a.WriteRaises? && !a.Read?
    ensures Inv(Step(s, a))
  {
    var n := Step(s, a);
    LoopKeepsExclusive(s, a);
    LoopKeepsOthers(s, a);
    hide LogOk, FramesOk, ClosedOnce, SharedOk;
    SameLog(s, n);
    SameFrames(s, n);
  }

  lemma LoopKeepsExclusive(s: State, a: Action)
    requires Exclusive(s) && !a.Work? && !a.WriteRaises? && !a.Read?
    ensures Exclusive(Step(s, a)) && (Current(s) <==> Current(Step(s, a)))
  {
    if a.SetStop? && a.reader < |s.readers| {
      var n := Step(s, a);
      hide Exclusive, Current;
      MoveReader(s, n, a.reader, n.readers[a.reader]);
    }
  }

  lemma LoopKeepsOthers(s: State, a: Action)
    requires Inv(s) && !a.Work? && !a.WriteRaises? && !a.Read? && Exclusive(Step(s, a))
    ensures SharedOk(Step(s, a)) && ClosedOnce(Step(s, a))
  {
    hide LogOk, FramesOk;
  }

  lemma StepKeepsInv(s: State, a: Action)
    requires Inv(s)
    ensures Inv(Step(s, a))
  {
    hide Inv;
    match a
    case Work(w) => WorkKeepsInv(s, w);
    case WriteRaises(w, written) => WriteRaisesKeepsInv(s, w, written);
    case Read(r, hasFrame) => ReadKeepsInv(s, r, hasFrame);
    case _ => LoopKeepsInv(s, a);
  }

  lemma {:induction false} RunKeepsInv(s: State, actions: seq<Action>)
    requires Inv(s)
    ensures Inv(Run(s, actions))
    decreases |actions|
  {
    if actions != [] {
      StepKeepsInv(s, actions[0]);
      RunKeepsInv(Step(s, actions[0]), actions[1..]);
    }
  }

  /**
   * Main theorem, for every interleaving: the log is a history of the camera in which no call follows the closing one,
   * settings are written only while live mode is off and frames are fetched only while it is on; and every frame
   * carries the generation its live session began with, in an order that never goes back.
   */
  lemma EveryRunIsSafe(writes: nat, actions: seq<Action>)
    ensures var s := Run(Opened(writes), actions);
            && History(s.shared)
            && (forall e | e in s.shared.log ::
              e.on.open && (e.call.Write? ==> !e.on.live) && (e.call.Fetch? ==> e.on.live))
            && (forall f | f in s.frames :: f.generation == f.taken.session)
            && (forall i, j | 0 <= i < j < |s.frames| :: s.frames[i].generation <= s.frames[j].generation)
  {
    OpenedInv(writes);
    RunKeepsInv(Opened(writes), actions);
  }

  /**
   * Main theorem, for every interleaving, raising calls included: a frame is fetched into a buffer allocated for the
   * settings the camera is in exactly if these are not stale; and of two frames with the same stamp, the first of which
   * is not stale, the second was taken with the same settings exactly if it is not stale either.
   */
  lemma StampsNameSettings(writes: nat, actions: seq<Action>)
    ensures var s := Run(Opened(writes), actions);
            && (forall e | e in s.shared.log && e.call.Fetch? :: e.call.sizedFor == e.on.config <==> !e.on.stale)
            && (forall f, g | f in s.frames && g in s.frames && f.generation == g.generation && !f.taken.stale ::
                  f.taken.config == g.taken.config <==> !g.taken.stale)
  {
    OpenedInv(writes);
    RunKeepsInv(Opened(writes), actions);
    var s := Run(Opened(writes), actions);
    forall f, g | f in s.frames && g in s.frames && f.generation == g.generation && !f.taken.stale
      ensures f.taken.config == g.taken.config <==> !g.taken.stale
    {
      assert SameStamp(f, g);
    }
  }

  /** A setting made before the i-th call has not been followed by a measurement before it. */
  ghost predicate UnmeasuredWrite(log: seq<Event>, i: nat)
    requires i <= |log|
  {
    exists j :: 0 <= j < i && log[j].call.Write? && forall k | j < k < i :: !log[k].call.Measure?
  }

  /** What stale means, in terms of the calls: a setting took effect after the last measurement, or before the first. */
  lemma {:induction false} StaleIff(c: Shared, i: nat)
    requires History(c) && i < |c.log|
    ensures c.log[i].on.stale <==> UnmeasuredWrite(c.log, i)
    decreases i
  {
    if i > 0 {
      StaleIff(c, i - 1);
      assert c.log[i - 1 + 1].on == Perform(c.log[i - 1].on, c.log[i - 1].call);
    }
  }

  /** Once the camera has been closed, no call is ever made on it again. */
  lemma {:induction false} ClosedForGood(s: State, actions: seq<Action>)
    requires Inv(s) && !s.shared.device.open
    ensures Run(s, actions).shared.log == s.shared.log
    decreases |actions|
  {
    if actions != [] {
      var n := Step(s, actions[0]);
      StepKeepsInv(s, actions[0]);
      ClosedStep(s, actions[0]);
      ClosedForGood(n, actions[1..]);
    }
  }

  lemma ClosedStep(s: State, a: Action)
    requires Inv(s) && Inv(Step(s, a)) && !s.shared.device.open
    ensures Step(s, a).shared.log == s.shared.log && !Step(s, a).shared.device.open
  {
    hide SharedOk, FramesOk, Step;
    var n := Step(s, a);
    LogGrows(s, a);
    if n.shared.log != s.shared.log { CallNeedsOpen(n, |s.shared.log|); }
  }

  lemma CallNeedsOpen(s: State, k: nat)
    requires LogOk(s) && k < |s.shared.log|
    ensures s.shared.log[k].on.open
  {
    assert s.shared.log[k] in s.shared.log;
  }

  /** A step makes at most one call, on the camera as it is. */
  lemma LogGrows(s: State, a: Action)
    ensures var n := Step(s, a).shared;
            && s.shared.log <= n.log
            && ((n.log == s.shared.log && n.device == s.shared.device)
                || (|n.log| == |s.shared.log| + 1 && n.log[|s.shared.log|].on == s.shared.device))
  {
    if a.Work? && a.worker < |s.workers| {
      var t := s.workers[a.worker];
      InsideLog(s.shared, t.job, t.pc, s.writes);
      hide Inside;
    }
  }

  lemma InsideLog(c: Shared, job: Job, pc: WorkerPc, writes: nat)
    ensures var n := Inside(c, job, pc, writes).0;
            && c.log <= n.log
            && ((n.log == c.log && n.device == c.device)
                || (|n.log| == |c.log| + 1 && n.log[|c.log|].on == c.device))
  {}
}
