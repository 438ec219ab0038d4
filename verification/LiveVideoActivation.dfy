/** frames() of qhyccdvideo.py as its caller drives it: one activation at a time, each start and stop awaited. */
module LiveVideoActivation {
  import opened LiveVideo
  import opened LiveVideoSafety
  import opened LiveVideoTurns

  /** Where the coroutine is: the worker it waits for, or streaming. */
  datatype Activation = Idle | Starting(worker: nat) | Active | Stopping(worker: nat)

  predicate PcIs(s: State, w: nat, pc: WorkerPc) { w < |s.workers| && s.workers[w].pc == pc }

  predicate IsFinished(s: State, w: nat) { w < |s.workers| && s.workers[w].pc.Finished? }

  /** The event loop may begin an activation: none is on, or the last one has ended or failed to start. */
  predicate Ready(s: State, act: Activation) {
    match act
    case Idle => true
    case Starting(w) => PcIs(s, w, Finished(true))
    case Active => false
    case Stopping(w) => IsFinished(s, w)
  }

  /** The steps of a coroutine whose calls do not time out; everything else, settings changes included, is free. */
  predicate Follows(s: State, act: Activation, a: Action) {
    match a
    case Spawn(job) => (job.Start? ==> Ready(s, act)) && (job.Stop? ==> act.Active?)
    case SpawnReader => act.Starting? && PcIs(s, act.worker, Finished(false))
    case _ => true
  }

  function Moved(s: State, act: Activation, a: Action): Activation {
    match a
    case Spawn(job) => if job.Start? then Starting(|s.workers|) else if job.Stop? then Stopping(|s.workers|) else act
    case SpawnReader => Active
    case _ => act
  }

  predicate Awaited(s: State, act: Activation, actions: seq<Action>)
    decreases |actions|
  {
    actions == []
      || (Follows(s, act, actions[0]) && Awaited(Step(s, actions[0]), Moved(s, act, actions[0]), actions[1..]))
  }

  /** What _capturing is at each point of an activation. */
  predicate ShouldCapture(s: State, act: Activation) {
    match act
    case Idle => false
    case Starting(w) => PcIs(s, w, Leaving(false)) || PcIs(s, w, Finished(false))
    case Active => true
    case Stopping(w) => PcIs(s, w, Waiting) || PcIs(s, w, Entered)
  }

  ghost predicate OneActivation(s: State, act: Activation) {
    && (forall w | 0 <= w < |s.workers| && s.workers[w].job.Start? && !s.workers[w].pc.Finished? :: act == Starting(w))
    && (forall w | 0 <= w < |s.workers| && s.workers[w].job.Stop? && !s.workers[w].pc.Finished? :: act == Stopping(w))
    && (act.Starting? ==> act.worker < |s.workers| && s.workers[act.worker].job.Start?)
    && (act.Stopping? ==> act.worker < |s.workers| && s.workers[act.worker].job.Stop?)
  }

  ghost predicate ActInv(s: State, act: Activation) {
    && OneActivation(s, act)
    && (s.shared.capturing <==> ShouldCapture(s, act))
    && (act.Stopping? ==> !PcIs(s, act.worker, Halting(false)) && !PcIs(s, act.worker, EndingLive(false)))
  }

  /** Steps other than a start of a worker leave jobs alone and finish workers for good. */
  ghost predicate SameJobs(s: State, n: State) {
    |n.workers| == |s.workers| &&
    forall w | 0 <= w < |s.workers| ::
      n.workers[w].job == s.workers[w].job && (s.workers[w].pc.Finished? ==> n.workers[w] == s.workers[w])
  }

  lemma WorkersStay(s: State, a: Action)
    requires !a.Spawn?
    ensures SameJobs(s, Step(s, a))
  {
    hide Inside;
  }

  lemma OneActivationKept(s: State, act: Activation, a: Action)
    requires OneActivation(s, act) && Follows(s, act, a)
    ensures OneActivation(Step(s, a), Moved(s, act, a))
  {
    if !a.Spawn? {
      WorkersStay(s, a);
      var n := Step(s, a);
      hide Step;
      assert forall w | 0 <= w < |n.workers| && !n.workers[w].pc.Finished? :: !s.workers[w].pc.Finished?;
    }
  }

  lemma WorkKeepsCapturing(s: State, act: Activation, w: nat)
    requires Inv(s) && ActInv(s, act)
    ensures WorkStep(s, w).shared.capturing <==> ShouldCapture(WorkStep(s, w), act)
  {
    hide LogOk, FramesOk, ClosedOnce, WorkerOk, BufferOk, WorkStep, ShouldCapture;
    if w >= |s.workers| {
      NoWorker(s, w);
    } else {
      var t := s.workers[w];
      if HoldsLockW(t.pc) { HolderOk(s, w); }
      if t.job.Start? && !t.pc.Finished? {
        hide Exclusive, SharedOk;
        PcOfStart(s.shared, t.pc, s.writes);
        StartKeepsCapturing(s, w);
      } else if t.job.Stop? && !t.pc.Finished? {
        hide Exclusive, SharedOk;
        PcOfStop(s.shared, t.pc, s.writes);
        StopKeepsCapturing(s, w);
      } else {
        OtherJobs(s, act, w);
      }
    }
  }

  lemma NoWorker(s: State, w: nat)
    requires w >= |s.workers|
    ensures WorkStep(s, w) == s
  {}

  lemma StartKeepsCapturing(s: State, w: nat)
    requires w < |s.workers| && s.workers[w].job.Start? && (s.shared.capturing <==> ShouldCapture(s, Starting(w)))
    requires var pc := s.workers[w].pc; pc.Waiting? || pc.Entered? || pc.HasDriver? || pc.Begun? || pc.Leaving?
    ensures WorkStep(s, w).shared.capturing <==> ShouldCapture(WorkStep(s, w), Starting(w))
  {}

  lemma StopKeepsCapturing(s: State, w: nat)
    requires w < |s.workers| && s.workers[w].job.Stop? && (s.shared.capturing <==> ShouldCapture(s, Stopping(w)))
    requires var pc := s.workers[w].pc; pc.Waiting? || pc.Entered? || pc.Halting? || pc.EndingLive? || pc.Leaving?
    ensures WorkStep(s, w).shared.capturing <==> ShouldCapture(WorkStep(s, w), Stopping(w))
  {}

  lemma PcOfStart(c: Shared, pc: WorkerPc, writes: nat)
    requires HoldsLockW(pc) ==> WorkerOk(c, Start, pc, writes)
    ensures pc.Waiting? || pc.Entered? || pc.HasDriver? || pc.Begun? || pc.Leaving? || pc.Finished?
  {}

  lemma PcOfStop(c: Shared, pc: WorkerPc, writes: nat)
    requires HoldsLockW(pc) ==> WorkerOk(c, Stop, pc, writes)
    ensures pc.Waiting? || pc.Entered? || pc.Halting? || pc.EndingLive? || pc.Leaving? || pc.Finished?
  {}

  /** A worker the activation does not wait for leaves _capturing and the awaited worker alone. */
  lemma OtherJobs(s: State, act: Activation, w: nat)
    requires Exclusive(s) && SharedOk(s) && ActInv(s, act) && w < |s.workers|
    requires s.workers[w].job.Apply? || s.workers[w].job.Close? || s.workers[w].pc.Finished?
    ensures WorkStep(s, w).shared.capturing == s.shared.capturing
    ensures ShouldCapture(WorkStep(s, w), act) == ShouldCapture(s, act)
  {
    var t := s.workers[w];
    if t.pc.Finished? {
      assert WorkStep(s, w) == s;
    } else {
      hide WorkStep, WorkerOk, BufferOk, PcIs;
      if HoldsLockW(t.pc) {
        HolderOk(s, w);
        KeepsCapturing(s.shared, t.job, t.pc, s.writes);
      }
      AwaitedElsewhere(s, act, w);
      OnlyThatWorker(s, w);
      hide Exclusive, SharedOk, OneActivation, Inside;
      SameAwaited(s, WorkStep(s, w), act);
    }
  }

  lemma SameAwaited(s: State, n: State, act: Activation)
    requires |n.workers| == |s.workers|
    requires act.Starting? || act.Stopping? ==>
        act.worker < |s.workers| && n.workers[act.worker] == s.workers[act.worker]
    ensures ShouldCapture(n, act) == ShouldCapture(s, act)
  {}

  lemma AwaitedElsewhere(s: State, act: Activation, w: nat)
    requires OneActivation(s, act) && w < |s.workers| && (s.workers[w].job.Apply? || s.workers[w].job.Close?)
    ensures (act.Starting? || act.Stopping?) ==> act.worker != w && act.worker < |s.workers|
  {}

  lemma OnlyThatWorker(s: State, w: nat)
    requires w < |s.workers|
    ensures var n := WorkStep(s, w);
            && |n.workers| == |s.workers| && (forall v | 0 <= v < |s.workers| && v != w :: n.workers[v] == s.workers[v])
            && (n.shared == s.shared || n.shared == Inside(s.shared, s.workers[w].job, s.workers[w].pc, s.writes).0)
            && (n.shared == s.shared || HoldsLockW(s.workers[w].pc))
  {
    hide Inside;
  }

  lemma KeepsCapturing(c: Shared, job: Job, pc: WorkerPc, writes: nat)
    requires (job.Apply? || job.Close?) && WorkerOk(c, job, pc, writes)
    ensures Inside(c, job, pc, writes).0.capturing == c.capturing
  {}

  lemma WorkKeepsHalting(s: State, act: Activation, w: nat)
    requires Inv(s) && ActInv(s, act)
    ensures var n := WorkStep(s, w);
            act.Stopping? ==> !PcIs(n, act.worker, Halting(false)) && !PcIs(n, act.worker, EndingLive(false))
  {
    hide LogOk, FramesOk, ClosedOnce;
    if w < |s.workers| && HoldsLockW(s.workers[w].pc) { HolderOk(s, w); }
  }

  lemma StepKeepsAct(s: State, act: Activation, a: Action)
    requires Inv(s) && ActInv(s, act) && Follows(s, act, a)
    ensures ActInv(Step(s, a), Moved(s, act, a))
  {
    OneActivationKept(s, act, a);
    match a
    case Work(w) =>
      WorkKeepsCapturing(s, act, w);
      WorkKeepsHalting(s, act, w);
    case WriteRaises(w, _) =>
      WriteRaisesKeepsAct(s, act, a);
    case _ => OthersKeepAct(s, act, a);
  }

  lemma WriteRaisesKeepsAct(s: State, act: Activation, a: Action)
    requires Inv(s) && ActInv(s, act) && a.WriteRaises? && OneActivation(Step(s, a), act)
    ensures ActInv(Step(s, a), act)
  {
    hide LogOk, FramesOk, ClosedOnce;
    if Step(s, a) != s { HolderOk(s, a.worker); }
  }

  lemma OthersKeepAct(s: State, act: Activation, a: Action)
    requires Inv(s) && ActInv(s, act) && Follows(s, act, a) && !a.Work? && !a.WriteRaises?
        && OneActivation(Step(s, a), Moved(s, act, a))
    ensures ActInv(Step(s, a), Moved(s, act, a))
  {
    hide LogOk, FramesOk, ClosedOnce, SharedOk, Inv;
    if a.Spawn? {
      hide OneActivation;
    } else {
      OthersLeave(s, a);
      hide Step, OneActivation;
    }
  }

  lemma OthersLeave(s: State, a: Action)
    requires !a.Work? && !a.WriteRaises? && !a.Spawn?
    ensures Step(s, a).workers == s.workers && Step(s, a).shared.capturing == s.shared.capturing
  {}

  /** The one worker that may start is the one awaited, and the one that may stop found _capturing set. */
  lemma ActOrderly(s: State, act: Activation, a: Action)
    requires Inv(s) && ActInv(s, act)
    ensures Orderly(s, a)
  {
    hide LogOk, FramesOk, ClosedOnce;
    if a.Work? && a.worker < |s.workers| && HoldsLockW(s.workers[a.worker].pc) { HolderOk(s, a.worker); }
  }

  lemma {:induction false} AwaitedIsOrderly(s: State, act: Activation, actions: seq<Action>)
    requires Inv(s) && ActInv(s, act) && Awaited(s, act, actions)
    ensures OrderlyRun(s, actions)
    decreases |actions|
  {
    if actions != [] {
      hide ActInv, Orderly;
      StepKeepsInv(s, actions[0]);
      ActOrderly(s, act, actions[0]);
      StepKeepsAct(s, act, actions[0]);
      AwaitedIsOrderly(Step(s, actions[0]), Moved(s, act, actions[0]), actions[1..]);
    }
  }

  /**
   * If every start and stop of an activation is awaited to its end, begin_live and stop_live alternate, however
   * settings changes, readers, rejected settings and closing interleave with them. (AlternatesIff says exactly when
   * they do.)
   */
  lemma BeginAndStopAlternate(writes: nat, actions: seq<Action>)
    requires Awaited(Opened(writes), Idle, actions)
    ensures forall e | e in Run(Opened(writes), actions).shared.log :: Turns(e)
  {
    OpenedInv(writes);
    AwaitedIsOrderly(Opened(writes), Idle, actions);
    AlternatesIff(writes, actions);
  }

  // ---- Where the conditions are needed ----

  /** Streaming, with nobody inside the lock. */
  predicate Streaming(s: State) {
    s.lock == Free && s.shared.driver && s.shared.capturing && s.shared.device.live && s.shared.buffer.Sized?
  }

  /** A stop that times out and a start that does not wait for it: live mode is begun while it is on. */
  function StopTimesOut(w: nat): seq<Action> {
    [Spawn(Stop), Spawn(Start)] + [Work(w + 1), Work(w + 1)] + [Work(w + 1), Work(w + 1)]
  }

  lemma TimedOutStopBeginsTwice(s: State)
    requires Streaming(s)
    ensures exists e | e in Run(s, StopTimesOut(|s.workers|)).shared.log :: e.call.Begin? && e.on.live
  {
    var w := |s.workers|;
    var a := [Spawn(Stop), Spawn(Start)];
    var b := [Work(w + 1), Work(w + 1)];
    RunConcat(s, a + b, b);
    RunConcat(s, a, b);
    RunTwo(s, Spawn(Stop), Spawn(Start));
    var s1 := Run(s, a);
    assert s1.workers == s.workers + [Worker(Stop, Waiting), Worker(Start, Waiting)] && s1.shared == s.shared;
    RunTwo(s1, Work(w + 1), Work(w + 1));
    var s2 := Run(s1, b);
    assert s2.workers[w + 1] == Worker(Start, HasDriver) && s2.shared == s.shared;
    RunTwo(s2, Work(w + 1), Work(w + 1));
    var s3 := Step(s2, Work(w + 1));
    assert s3.shared == Do(s.shared, Begin(s.shared.generation)) && s3.workers[w + 1] == Worker(Start, Begun);
    var e := Event(Begin(s.shared.generation), s.shared.device);
    assert s3.shared.log[|s.shared.log|] == e;
    assert e in Run(s2, b).shared.log;
  }

  /** Actions that leave the activation alone. */
  predicate LeavesActivation(a: Action) {
    match a
    case Spawn(job) => !job.Start? && !job.Stop?
    case SpawnReader => false
    case _ => true
  }

  lemma {:induction false} OthersAwaited(s: State, act: Activation, actions: seq<Action>)
    requires forall a | a in actions :: LeavesActivation(a)
    ensures Awaited(s, act, actions)
    decreases |actions|
  {
    if actions != [] {
      assert actions[0] in actions;
      OthersAwaited(Step(s, actions[0]), act, actions[1..]);
    }
  }

  /**
   * A settings change as _apply_settings makes it, whose first setting the camera takes on although its call raises;
   * then one turn of the activation's reader r.
   */
  function SettingRejected(w: nat, r: nat): (actions: seq<Action>)
    ensures forall a | a in actions :: LeavesActivation(a)
  {
    [SetPending(true), Spawn(Apply)] + [Work(w), Work(w)] + [Work(w), WriteRaises(w, true)] + [Work(w), Work(w)]
    + [SetPending(false), Read(r, true)] + [Read(r, true), Read(r, true)] + [Read(r, true), Read(r, true)]
    + [Read(r, true), Read(r, true)]
  }

  lemma RejectedSettingKeepsOldBuffer(s: State, r: nat)
    requires Streaming(s) && s.writes > 0 && BufferOk(s.shared) && r < |s.readers| && s.readers[r] == Reader(false, Top)
    ensures var n := Run(s, SettingRejected(|s.workers|, r));
            && (exists e | e in n.shared.log :: e.call.Fetch? && e.call.sizedFor < e.on.config)
            && n.frames == s.frames + [Frame(s.shared.generation, n.shared.device)] && n.shared.device.stale
  {
    var w, x := |s.workers|, Read(r, true);
    var a0, a1, a2 := [SetPending(true), Spawn(Apply)], [Work(w), Work(w)], [Work(w), WriteRaises(w, true)];
    var a4, b := [SetPending(false), x], [x, x];
    RunConcat(s, a0 + a1 + a2 + a1 + a4 + b + b, b);
    RunConcat(s, a0 + a1 + a2 + a1 + a4 + b, b);
    RunConcat(s, a0 + a1 + a2 + a1 + a4, b);
    RunConcat(s, a0 + a1 + a2 + a1, a4);
    RunConcat(s, a0 + a1 + a2, a1);
    RunConcat(s, a0 + a1, a2);
    RunConcat(s, a0, a1);
    var s1 := RejectedWrite(s);
    assert s1 == Run(s, a0 + a1 + a2 + a1);
    hide Run;
    RejectedRead(s1, r);
    var e := Event(Fetch(s.shared.buffer.config), s1.shared.device);
    assert Run(Run(Run(Run(s1, a4), b), b), b).shared.log[|s1.shared.log|] == e;
  }

  lemma RejectedWrite(s: State) returns (n: State)
    requires Streaming(s) && s.writes > 0
    ensures var w := |s.workers|;
            n == Run(Run(Run(Run(s, [SetPending(true), Spawn(Apply)]), [Work(w), Work(w)]),
              [Work(w), WriteRaises(w, true)]), [Work(w), Work(w)])
    ensures Streaming(n) && n.frames == s.frames && n.readers == s.readers
    ensures n.shared.buffer == s.shared.buffer && n.shared.generation == s.shared.generation
    ensures n.shared.device.config == s.shared.device.config + 1 && n.shared.device.stale
  {
    var w := |s.workers|;
    hide Step, Run;
    RunTwo(s, SetPending(true), Spawn(Apply));
    PendingApply(s);
    var s0 := s.(workers := s.workers + [Worker(Apply, Waiting)], pending := true);
    RunTwo(s0, Work(w), Work(w));
    ApplyEnters(s0, w);
    var s1 := s0.(workers := s0.workers[w := Worker(Apply, HasDriver)], lock := HeldBy(W(w)));
    RunTwo(s1, Work(w), WriteRaises(w, true));
    WriteRejected(s1, w);
    var s2 := s1.(workers := s0.workers[w := Worker(Apply, Restarting(true))], shared := Do(Do(s.shared, End), Write));
    assert s1.workers[w := Worker(Apply, Restarting(true))] == s2.workers;
    RunTwo(s2, Work(w), Work(w));
    RestartsAndLeaves(s2, w);
    n := Run(s2, [Work(w), Work(w)]);
  }

  lemma PendingApply(s: State)
    ensures Step(Step(s, SetPending(true)), Spawn(Apply)) ==
        s.(workers := s.workers + [Worker(Apply, Waiting)], pending := true)
  {}

  lemma ApplyEnters(s: State, w: nat)
    requires w < |s.workers| && s.workers[w] == Worker(Apply, Waiting) && s.lock == Free && s.shared.driver
    ensures Step(Step(s, Work(w)), Work(w)) ==
        s.(workers := s.workers[w := Worker(Apply, HasDriver)], lock := HeldBy(W(w)))
  {
    var n := Step(s, Work(w));
    assert n.workers[w := Worker(Apply, HasDriver)] == s.workers[w := Worker(Apply, HasDriver)];
  }

  lemma WriteRejected(s: State, w: nat)
    requires w < |s.workers| && s.workers[w] == Worker(Apply, HasDriver) && s.writes > 0 && s.shared.capturing
    ensures Step(Step(s, Work(w)), WriteRaises(w, true)) ==
      s.(workers := s.workers[w := Worker(Apply, Restarting(true))], shared := Do(Do(s.shared, End), Write))
  {
    var n := Step(s, Work(w));
    assert n == s.(workers := s.workers[w := Worker(Apply, Configuring(0))], shared := Do(s.shared, End));
    assert n.workers[w := Worker(Apply, Restarting(true))] == s.workers[w := Worker(Apply, Restarting(true))];
  }

  lemma RestartsAndLeaves(s: State, w: nat)
    requires w < |s.workers| && s.workers[w] == Worker(Apply, Restarting(true)) && s.shared.capturing
    ensures Step(Step(s, Work(w)), Work(w)) ==
      s.(workers := s.workers[w := Worker(Apply, Finished(true))], shared := Do(s.shared, Begin(s.shared.generation)),
        lock := Free)
  {
    var n := Step(s, Work(w));
    assert n.workers[w := Worker(Apply, Finished(true))] == s.workers[w := Worker(Apply, Finished(true))];
  }

  lemma RejectedRead(s: State, r: nat)
    requires Streaming(s) && r < |s.readers| && s.readers[r] == Reader(false, Top)
    ensures var x := Read(r, true); var n := Run(Run(Run(Run(s, [SetPending(false), x]), [x, x]), [x, x]), [x, x]);
            && n.shared == Do(s.shared, Fetch(s.shared.buffer.config))
            && n.frames == s.frames + [Frame(s.shared.generation, s.shared.device)]
  {
    var x := Read(r, true);
    var s0 := s.(pending := false);
    hide Run;
    RunTwo(s, SetPending(false), x);
    var s1 := s0.(readers := s.readers[r := Reader(false, Yielding)]);
    assert Step(Step(s, SetPending(false)), x) == s1;
    RunTwo(s1, x, x);
    ReaderEnters(s1, r);
    var s2 := s0.(lock := HeldBy(R(r)), readers := s.readers[r := Reader(false, Holding)]);
    assert s1.readers[r := Reader(false, Holding)] == s2.readers;
    RunTwo(s2, x, x);
    ReaderFetches(s2, r);
    var d := s.shared.device;
    var s3 := s2.(shared := Do(s.shared, Fetch(s.shared.buffer.config)),
        readers := s.readers[r := Reader(false, Stamping(d))]);
    assert s2.readers[r := Reader(false, Stamping(d))] == s3.readers;
    RunTwo(s3, x, x);
  }

  lemma ReaderEnters(s: State, r: nat)
    requires r < |s.readers| && s.readers[r] == Reader(false, Yielding) && !s.pending && s.lock == Free
    ensures Step(Step(s, Read(r, true)), Read(r, true)) ==
        s.(lock := HeldBy(R(r)), readers := s.readers[r := Reader(false, Holding)])
  {
    var n := Step(s, Read(r, true));
    assert n.readers[r := Reader(false, Holding)] == s.readers[r := Reader(false, Holding)];
  }

  lemma ReaderFetches(s: State, r: nat)
    requires r < |s.readers| && s.readers[r] == Reader(false, Holding)
    requires s.shared.driver && s.shared.capturing && s.shared.buffer.Sized?
    ensures Step(Step(s, Read(r, true)), Read(r, true)) ==
      s.(shared := Do(s.shared, Fetch(s.shared.buffer.config)),
        readers := s.readers[r := Reader(false, Stamping(s.shared.device))])
  {
    var n := Step(s, Read(r, true));
    var t := Reader(false, Stamping(s.shared.device));
    assert n.readers[r := t] == s.readers[r := t];
  }
}
