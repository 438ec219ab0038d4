/**
 * The functions QHYCCDVideo hands to _run_blocking, and the locked part of its reader, as methods on the object's
 * fields; a worker that nobody disturbs does in the step system what its method does in one go.
 */
module VideoBodies {
  import opened LiveVideo
  import opened LiveVideoSafety
  import opened LiveVideoActivation

  // ---- What the bodies do ----

  /** n settings written, all of which take effect. */
  function Written(c: Shared, n: nat): (r: Shared)
    ensures r.driver == c.driver && r.capturing == c.capturing && r.generation == c.generation && r.buffer == c.buffer
    ensures r.device == c.device.(config := c.device.config + n, stale := c.device.stale || n > 0)
    ensures |r.log| == |c.log| + n && c.log <= r.log
    ensures forall i | |c.log| <= i < |r.log| ::
        r.log[i].call == Write && r.log[i].on.config == c.device.config + i - |c.log|
  {
    if n == 0 then c else Do(Written(c, n - 1), Write)
  }

  /**
   * Which SDK call of _configure raises, if any: the set_* call with this number, taking effect or not, or one that
   * reads back.
   */
  datatype Trouble = NoTrouble | Raises(at: nat, written: bool) {
    predicate Strikes(writes: nat) { Raises? && at <= writes }
  }

  function Configured(c: Shared, writes: nat, t: Trouble): Shared {
    if t.Strikes(writes) then RaisesInside(Written(c, t.at), t.at, writes, t.written)
    else
      var d := Written(c, writes);
      Do(d, Measure).(buffer := Sized(d.device.config), generation := d.generation + 1)
  }

  /** Live mode is stopped around new settings if it is on, and comes back whatever happens in between. */
  function AfterApply(c: Shared, writes: nat, t: Trouble): Shared {
    if !c.driver then c
    else
      var d := Configured(if c.capturing then Do(c, End) else c, writes, t);
      if d.capturing then Do(d, Begin(d.generation)) else d
  }

  function AfterStart(c: Shared): (Shared, bool) {
    if c.driver then (Do(c, Begin(c.generation)).(capturing := true), false) else (c, true)
  }

  function AfterStop(c: Shared): Shared {
    var d := c.(capturing := false);
    if c.driver then Do(d, End) else d
  }

  /**
   * Applying settings: whatever ran before and whatever raises, live mode is as it was and its session has the
   * present generation. Without trouble the buffer is the one for the settings and the generation is new; with
   * trouble buffer and generation are the old ones, and the settings are stale exactly if they were or some setting
   * took effect.
   */
  lemma ApplySettles(c: Shared, writes: nat, t: Trouble)
    requires c.driver && c.capturing == c.device.live
    ensures var n := AfterApply(c, writes, t);
            && n.capturing == c.capturing == n.device.live && (n.device.live ==> n.device.session == n.generation)
            && (!t.Strikes(writes) ==>
                  n.buffer == Sized(n.device.config) && !n.device.stale
                  && n.device.config == c.device.config + writes && n.generation == c.generation + 1)
            && (t.Strikes(writes) ==>
                  n.buffer == c.buffer && n.generation == c.generation
                  && n.device.config == c.device.config + t.at + (if t.written && t.at < writes then 1 else 0)
                  && (n.device.stale <==> c.device.stale || t.at > 0 || (t.written && t.at < writes)))
  {}

  /** The restoring attempt that follows a rejected change makes up for it, if it succeeds. */
  lemma RestoringRecovers(c: Shared, writes: nat, t: Trouble)
    requires c.driver && c.capturing == c.device.live && BufferOk(c)
    ensures var n := AfterApply(AfterApply(c, writes, t), writes, NoTrouble);
            n.buffer == Sized(n.device.config) && !n.device.stale && n.generation > c.generation
              && n.capturing == c.capturing
  {
    ApplySettles(c, writes, t);
    ApplySettles(AfterApply(c, writes, t), writes, NoTrouble);
  }

  /**
   * Stopping undoes starting: the camera is back where it was but for the session's generation, with one call each to
   * show for it; and a start leaves live mode and _capturing on exactly if it did not raise.
   */
  lemma StopUndoesStart(c: Shared)
    requires !c.capturing && !c.device.live
    ensures var (n, raised) := AfterStart(c); var m := AfterStop(n);
            && (raised <==> !n.capturing) && (raised <==> !n.device.live) && (raised ==> n == c)
            && (!raised ==> n.device.session == n.generation)
            && m.(log := c.log, device := c.device) == c && m.device.(session := c.device.session) == c.device
            && (!raised ==> m.log == c.log + [Event(Begin(c.generation), c.device), Event(End, n.device)])
  {
    var (n, raised) := AfterStart(c);
    if !raised {
      assert (c.log + [Event(Begin(c.generation), c.device)]) + [Event(End, n.device)]
          == c.log + [Event(Begin(c.generation), c.device), Event(End, n.device)];
    }
  }

  // ---- Undisturbed workers ----

  function Works(w: nat, n: nat): (a: seq<Action>)
    ensures |a| == n && forall i | 0 <= i < n :: a[i] == Work(w)
  {
    seq(n, _ => Work(w))
  }

  lemma RunWorks(s: State, w: nat, n: nat)
    requires n > 0
    ensures Run(s, Works(w, n)) == Run(WorkStep(s, w), Works(w, n - 1))
  {
    assert Works(w, n)[1..] == Works(w, n - 1);
  }

  lemma {:induction false} FinishedStays(s: State, w: nat, n: nat)
    requires w < |s.workers| && s.workers[w].pc.Finished?
    ensures Run(s, Works(w, n)) == s
    decreases n
  {
    if n > 0 {
      RunWorks(s, w, n);
      FinishedStays(s, w, n - 1);
    }
  }

  lemma {:induction false} WrittenNext(c: Shared, n: nat)
    ensures Written(Do(c, Write), n) == Written(c, n + 1)
    decreases n
  {
    if n > 0 { WrittenNext(c, n - 1); }
  }

  lemma {:induction false} ConfiguringRuns(s: State, w: nat, k: nat, end: nat, rest: nat)
    requires w < |s.workers| && s.workers[w] == Worker(Apply, Configuring(k)) && k <= end <= s.writes
    ensures Run(s, Works(w, end - k + rest)) ==
      Run(s.(shared := Written(s.shared, end - k), workers := s.workers[w := Worker(Apply, Configuring(end))]),
        Works(w, rest))
    decreases end - k
  {
    if k == end {
      assert s.workers[w := Worker(Apply, Configuring(end))] == s.workers;
    } else {
      var n := WorkStep(s, w);
      assert n == s.(shared := Do(s.shared, Write), workers := s.workers[w := Worker(Apply, Configuring(k + 1))]);
      RunWorks(s, w, end - k + rest);
      hide Run;
      ConfiguringRuns(n, w, k + 1, end, rest);
      WrittenNext(s.shared, end - k - 1);
      assert n.workers[w := Worker(Apply, Configuring(end))] == s.workers[w := Worker(Apply, Configuring(end))];
    }
  }

  /** The state after worker w has been at pc with these fields. */
  function At(s: State, w: nat, c: Shared, pc: WorkerPc): State
    requires w < |s.workers|
  {
    s.(shared := c, lock := HeldBy(W(w)), workers := s.workers[w := s.workers[w].(pc := pc)])
  }

  lemma AtStep(s: State, w: nat, c: Shared, pc: WorkerPc)
    requires w < |s.workers| && HoldsLockW(pc) && !pc.Leaving?
    ensures var (n, pc') := Inside(c, s.workers[w].job, pc, s.writes); WorkStep(At(s, w, c, pc), w) == At(s, w, n, pc')
  {
    hide Inside;
    var a := At(s, w, c, pc);
    var (n, pc') := Inside(c, s.workers[w].job, pc, s.writes);
    assert a.workers[w := a.workers[w].(pc := pc')] == s.workers[w := s.workers[w].(pc := pc')];
  }

  /** One step of a worker that is not disturbed. */
  lemma AtRuns(s: State, w: nat, c: Shared, pc: WorkerPc, n: nat)
    requires w < |s.workers| && HoldsLockW(pc) && !pc.Leaving? && n > 0
    ensures var (c', pc') := Inside(c, s.workers[w].job, pc, s.writes);
            Run(At(s, w, c, pc), Works(w, n)) == Run(At(s, w, c', pc'), Works(w, n - 1))
  {
    hide Inside, WorkStep, Run, At;
    AtStep(s, w, c, pc);
    AtHas(s, w, c, pc);
    RunWorks(At(s, w, c, pc), w, n);
  }

  lemma AtHas(s: State, w: nat, c: Shared, pc: WorkerPc)
    requires w < |s.workers|
    ensures w < |At(s, w, c, pc).workers|
  {}

  lemma AtLeaves(s: State, w: nat, c: Shared, raised: bool, n: nat)
    requires w < |s.workers| && n > 0
    ensures Run(At(s, w, c, Leaving(raised)), Works(w, n)) ==
      s.(shared := c, lock := Free, workers := s.workers[w := s.workers[w].(pc := Finished(raised))])
  {
    var a := At(s, w, c, Leaving(raised));
    RunWorks(a, w, n);
    var f := WorkStep(a, w);
    assert a.workers[w := a.workers[w].(pc := Finished(raised))] ==
        s.workers[w := s.workers[w].(pc := Finished(raised))];
    FinishedStays(f, w, n - 1);
  }

  /** A worker that gets the lock and is not disturbed applies the settings in one go. */
  lemma ApplyRunsAlone(s: State, w: nat)
    requires s.lock == Free && w < |s.workers| && s.workers[w] == Worker(Apply, Waiting)
    ensures Run(s, Works(w, s.writes + 7)) ==
      s.(shared := AfterApply(s.shared, s.writes, NoTrouble), workers := s.workers[w := Worker(Apply, Finished(false))])
  {
    hide Run, WorkStep;
    var c := s.shared;
    Enters(s, w, s.writes + 7);
    AtStep(s, w, c, Entered);
    RunWorks(At(s, w, c, Entered), w, s.writes + 6);
    if !c.driver {
      AtLeaves(s, w, c, false, s.writes + 5);
    } else {
      hide At;
      AtStep(s, w, c, HasDriver);
      RunWorks(At(s, w, c, HasDriver), w, s.writes + 5);
      WritesAndRestarts(s, w, if c.capturing then Do(c, End) else c);
    }
  }

  lemma WritesAndRestarts(s: State, w: nat, d: Shared)
    requires w < |s.workers| && s.workers[w].job.Apply?
    ensures var f := Configured(d, s.writes, NoTrouble);
            Run(At(s, w, d, Configuring(0)), Works(w, s.writes + 4)) ==
              s.(shared := if f.capturing then Do(f, Begin(f.generation)) else f, lock := Free,
                 workers := s.workers[w := Worker(Apply, Finished(false))])
  {
    hide Run, Written, Do;
    AtConfiguring(s, w, d, s.writes, 4);
    AllocatesAndRestarts(s, w, Written(d, s.writes));
  }

  lemma AtConfiguring(s: State, w: nat, d: Shared, end: nat, rest: nat)
    requires w < |s.workers| && s.workers[w].job.Apply? && end <= s.writes
    ensures Run(At(s, w, d, Configuring(0)), Works(w, end + rest)) ==
        Run(At(s, w, Written(d, end), Configuring(end)), Works(w, rest))
  {
    hide Run, Written;
    var a := At(s, w, d, Configuring(0));
    ConfiguringRuns(a, w, 0, end, rest);
    assert a.workers[w := Worker(Apply, Configuring(end))] == At(s, w, Written(d, end), Configuring(end)).workers;
  }

  /** The same for a worker one of whose SDK calls raises. */
  lemma ApplyRaisesAlone(s: State, w: nat, t: Trouble)
    requires s.lock == Free && w < |s.workers| && s.workers[w] == Worker(Apply, Waiting) && s.shared.driver
        && t.Strikes(s.writes)
    ensures Run(s, Works(w, t.at + 3) + [WriteRaises(w, t.written)] + Works(w, 2)) ==
      s.(shared := AfterApply(s.shared, s.writes, t), workers := s.workers[w := Worker(Apply, Finished(true))])
  {
    var d := if s.shared.capturing then Do(s.shared, End) else s.shared;
    var first, second := Works(w, t.at + 3), [WriteRaises(w, t.written)];
    hide Run, Step, Works, At, Written, RaisesInside, Do;
    RunsToTrouble(s, w, d, t);
    RunConcat(s, first + second, Works(w, 2));
    RunConcat(s, first, second);
    RaisesAt(s, w, Written(d, t.at), t);
    TroubleToEnd(s, w, RaisesInside(Written(d, t.at), t.at, s.writes, t.written));
  }

  lemma RunsToTrouble(s: State, w: nat, d: Shared, t: Trouble)
    requires s.lock == Free && w < |s.workers| && s.workers[w] == Worker(Apply, Waiting) && s.shared.driver
        && t.Strikes(s.writes)
    requires d == if s.shared.capturing then Do(s.shared, End) else s.shared
    ensures Run(s, Works(w, t.at + 3)) == At(s, w, Written(d, t.at), Configuring(t.at))
  {
    hide Run, WorkStep, Written, At;
    var c := s.shared;
    Enters(s, w, t.at + 3);
    AtStep(s, w, c, Entered);
    RunWorks(At(s, w, c, Entered), w, t.at + 2);
    AtStep(s, w, c, HasDriver);
    RunWorks(At(s, w, c, HasDriver), w, t.at + 1);
    AtConfiguringOne(s, w, d, t.at);
  }

  lemma TroubleToEnd(s: State, w: nat, f: Shared)
    requires w < |s.workers| && s.workers[w] == Worker(Apply, Waiting)
    ensures Run(At(s, w, f, Restarting(true)), Works(w, 2)) ==
      s.(shared := if f.capturing then Do(f, Begin(f.generation)) else f, lock := Free,
         workers := s.workers[w := Worker(Apply, Finished(true))])
  {
    hide Run, WorkStep, At;
    AtStep(s, w, f, Restarting(true));
    RunWorks(At(s, w, f, Restarting(true)), w, 2);
    AtLeaves(s, w, if f.capturing then Do(f, Begin(f.generation)) else f, true, 1);
  }

  lemma AtConfiguringOne(s: State, w: nat, d: Shared, end: nat)
    requires w < |s.workers| && s.workers[w].job.Apply? && end <= s.writes
    ensures Run(At(s, w, d, Configuring(0)), Works(w, end)) == At(s, w, Written(d, end), Configuring(end))
  {
    AtConfiguring(s, w, d, end, 0);
    assert Works(w, end + 0) == Works(w, end);
    assert Run(At(s, w, Written(d, end), Configuring(end)), Works(w, 0)) == At(s, w, Written(d, end), Configuring(end));
  }

  lemma RaisesAt(s: State, w: nat, e: Shared, t: Trouble)
    requires w < |s.workers| && s.workers[w].job.Apply? && t.Strikes(s.writes)
    ensures Run(At(s, w, e, Configuring(t.at)), [WriteRaises(w, t.written)]) ==
      At(s, w, RaisesInside(e, t.at, s.writes, t.written), Restarting(true))
  {
    hide RaisesInside;
    var a := At(s, w, e, Configuring(t.at));
    var n := WriteRaisesStep(a, w, t.written);
    assert a.workers[w := Worker(Apply, Restarting(true))] == s.workers[w := Worker(Apply, Restarting(true))];
    assert Run(n, []) == n;
    assert [WriteRaises(w, t.written)][1..] == [];
  }

  lemma Enters(s: State, w: nat, n: nat)
    requires s.lock == Free && w < |s.workers| && s.workers[w].pc.Waiting? && n > 0
    ensures Run(s, Works(w, n)) == Run(At(s, w, s.shared, Entered), Works(w, n - 1))
  {
    RunWorks(s, w, n);
  }

  lemma AllocatesAndRestarts(s: State, w: nat, e: Shared)
    requires w < |s.workers| && s.workers[w].job.Apply?
    ensures var f := Do(e, Measure).(buffer := Sized(e.device.config), generation := e.generation + 1);
            Run(At(s, w, e, Configuring(s.writes)), Works(w, 4)) ==
              s.(shared := if f.capturing then Do(f, Begin(f.generation)) else f, lock := Free,
                 workers := s.workers[w := Worker(Apply, Finished(false))])
  {
    hide Run, WorkStep;
    var b := Do(e, Measure).(buffer := Sized(e.device.config));
    var f := b.(generation := e.generation + 1);
    AtStep(s, w, e, Configuring(s.writes));
    RunWorks(At(s, w, e, Configuring(s.writes)), w, 4);
    AtStep(s, w, b, Allocated);
    RunWorks(At(s, w, b, Allocated), w, 3);
    AtStep(s, w, f, Restarting(false));
    RunWorks(At(s, w, f, Restarting(false)), w, 2);
    AtLeaves(s, w, if f.capturing then Do(f, Begin(f.generation)) else f, false, 1);
  }

  /** So does one that starts live mode, or fails to. */
  lemma StartRunsAlone(s: State, w: nat)
    requires s.lock == Free && w < |s.workers| && s.workers[w] == Worker(Start, Waiting)
    ensures var (c, raised) := AfterStart(s.shared);
            Run(s, Works(w, 5)) == s.(shared := c, workers := s.workers[w := Worker(Start, Finished(raised))])
  {
    hide Run, WorkStep, At, Works, Do;
    var c := s.shared;
    Enters(s, w, 5);
    AtRuns(s, w, c, Entered, 4);
    if !c.driver {
      AtLeaves(s, w, c, true, 3);
    } else {
      var d := Do(c, Begin(c.generation));
      AtRuns(s, w, c, HasDriver, 3);
      AtRuns(s, w, d, Begun, 2);
      AtLeaves(s, w, d.(capturing := true), false, 1);
    }
  }

  /** And one that stops it. */
  lemma StopRunsAlone(s: State, w: nat)
    requires s.lock == Free && w < |s.workers| && s.workers[w] == Worker(Stop, Waiting)
    ensures Run(s, Works(w, 5)) == s.(shared := AfterStop(s.shared),
        workers := s.workers[w := Worker(Stop, Finished(false))])
  {
    hide Run, WorkStep, At, Works, Do;
    var c := s.shared;
    var d := c.(capturing := false);
    Enters(s, w, 5);
    AtRuns(s, w, c, Entered, 4);
    AtRuns(s, w, d, Halting(c.capturing), 3);
    if !c.driver {
      AtLeaves(s, w, d, false, 2);
    } else {
      AtRuns(s, w, d, EndingLive(c.capturing), 2);
      AtLeaves(s, w, Do(d, End), false, 1);
    }
  }

  /** Closing the module: _driver is dropped, then the camera is shut by one worker, which does not raise. */
  lemma CloseRunsAlone(s: State)
    requires s.lock == Free && s.closing.NotClosing?
    ensures var w := |s.workers|;
            Run(s, [DropDriver, Spawn(Close)] + Works(w, 3)) ==
              s.(shared := Do(s.shared.(driver := false), Shut), closing := ClosedBy(w),
                 workers := s.workers + [Worker(Close, Finished(false))])
  {
    var w := |s.workers|;
    var n := Step(Step(s, DropDriver), Spawn(Close));
    assert n == s.(shared := s.shared.(driver := false), closing := ClosedBy(w),
        workers := s.workers + [Worker(Close, Waiting)]);
    RunTwo(s, DropDriver, Spawn(Close));
    RunConcat(s, [DropDriver, Spawn(Close)], Works(w, 3));
    hide Run, Step, WorkStep, At, Works, Do;
    Enters(n, w, 3);
    AtRuns(n, w, n.shared, Entered, 2);
    AtLeaves(n, w, Do(n.shared, Shut), false, 1);
    assert n.workers[w := Worker(Close, Finished(false))] == s.workers + [Worker(Close, Finished(false))];
  }

  // ---- The object ----

  class Video {
    var driver: bool
    var capturing: bool
    var buffer: Buffer
    var generation: nat
    var device: Device
    var log: seq<Event>
    const hasBits: bool
    const hasGain: bool
    const hasOffset: bool

    function Fields(): Shared
      reads this
    {
      Shared(driver, capturing, buffer, generation, device, log)
    }

    /** Bin mode, resolution and exposure time always; the others if the camera has the control. */
    function Writes(): nat {
      3 + (if hasBits then 1 else 0) + (if hasGain then 1 else 0) + (if hasOffset then 1 else 0)
    }

    constructor (hasBits: bool, hasGain: bool, hasOffset: bool)
      ensures Fields() == Opened(0).shared
      ensures this.hasBits == hasBits && this.hasGain == hasGain && this.hasOffset == hasOffset
    {
      driver, capturing, buffer, generation := true, false, NoBuffer, 0;
      device, log := Device(true, false, 0, 0, false), [];
      this.hasBits, this.hasGain, this.hasOffset := hasBits, hasGain, hasOffset;
    }

    method Sdk(c: Call)
      modifies this
      ensures Fields() == Do(old(Fields()), c)
    {
      log := log + [Event(c, device)];
      device := Perform(device, c);
    }

    /**
     * One of the set_* calls of _configure, made if the camera has the control; n were made since the fields were c. It
     * raises if t says so.
     */
    method Setting(available: bool, t: Trouble, ghost c: Shared, n: nat) returns (raised: bool)
      requires n < Writes() && Fields() == Written(c, n)
      modifies this
      ensures raised <==> available && t.Raises? && t.at == n
      ensures Fields() ==
        if raised then RaisesInside(Written(c, n), n, Writes(), t.written)
          else Written(c, if available then n + 1 else n)
    {
      if !available { return false; }
      if t.Raises? && t.at == n {
        if t.written { Sdk(Write); }
        return true;
      }
      Sdk(Write);
      raised := false;
    }

    /** The set_* calls of _configure, up to the first that raises. */
    method WriteSettings(t: Trouble) returns (raised: bool)
      modifies this
      ensures raised <==> t.Raises? && t.at < Writes()
      ensures Fields() ==
        if raised then RaisesInside(Written(old(Fields()), t.at), t.at, Writes(), t.written)
          else Written(old(Fields()), Writes())
    {
      hide Written, RaisesInside;
      ghost var c := Fields();
      raised := Setting(true, t, c, 0);
      if raised { return; }
      raised := Setting(true, t, c, 1);
      if raised { return; }
      var n := 2;
      if hasBits {
        raised := Setting(true, t, c, n);
        if raised { return; }
        n := n + 1;
      }
      raised := MoreSettings(t, c, n);
    }

    /** Exposure time, gain and offset. */
    method MoreSettings(t: Trouble, ghost c: Shared, n: nat) returns (raised: bool)
      requires n == (if hasBits then 3 else 2) && Fields() == Written(c, n) && (t.Raises? ==> t.at >= n)
      modifies this
      ensures raised <==> t.Raises? && t.at < Writes()
      ensures Fields() == if raised then RaisesInside(Written(c, t.at), t.at, Writes(), t.written)
          else Written(c, Writes())
    {
      hide Written, RaisesInside;
      raised := Setting(true, t, c, n);
      if raised { return; }
      if hasGain {
        raised := Setting(true, t, c, n + 1);
        if raised { return; }
      }
      if hasOffset {
        raised := Setting(true, t, c, Writes() - 1);
      }
    }

    /** _configure. */
    method Configure(t: Trouble) returns (raised: bool)
      modifies this
      ensures raised <==> t.Strikes(Writes())
      ensures Fields() == Configured(old(Fields()), Writes(), t)
    {
      hide Written;
      raised := WriteSettings(t);
      if raised { return; }
      if t.Raises? && t.at == Writes() { return true; }
      Sdk(Measure);
      buffer := Sized(device.config);
      generation := generation + 1;
    }

    /** _apply: the exception of _configure goes through, after live mode has been restarted. */
    method ApplySettings(t: Trouble) returns (raised: bool)
      modifies this
      ensures raised <==> old(driver) && t.Strikes(Writes())
      ensures Fields() == AfterApply(old(Fields()), Writes(), t)
    {
      hide Configured, Do;
      if !driver { return false; }
      if capturing { Sdk(End); }
      ghost var d := Fields();
      raised := Configure(t);
      if capturing { Sdk(Begin(generation)); }
    }

    /** _start. */
    method StartLive() returns (raised: bool)
      modifies this
      ensures (Fields(), raised) == AfterStart(old(Fields()))
    {
      if !driver { return true; }
      Sdk(Begin(generation));
      capturing := true;
      raised := false;
    }

    /** _stop. */
    method StopLive()
      modifies this
      ensures Fields() == AfterStop(old(Fields()))
    {
      capturing := false;
      if driver { Sdk(End); }
    }

    /** The locked part of _read; `frame` is empty if the camera had none, `again` false if the reader gives up. */
    method ReadFrame(hasFrame: bool) returns (frame: seq<Frame>, again: bool)
      modifies this
      ensures again <==> old(driver && buffer.Sized? && capturing)
      ensures Fields() == if again then Do(old(Fields()), Fetch(old(buffer).config)) else old(Fields())
      ensures frame == if again && hasFrame then [Frame(old(generation), old(device))] else []
      ensures again && Settled(old(Fields())) ==>
          old(device.live) && forall f | f in frame :: f.generation == f.taken.session
      ensures again && BufferOk(old(Fields())) ==> RightBuffer(log[|log| - 1])
    {
      if !driver || buffer.NoBuffer? || !capturing { return [], false; }
      Sdk(Fetch(buffer.config));
      again := true;
      frame := if hasFrame then [Frame(generation, device)] else [];
    }
  }

  // ---- Reaching the streaming state ----

  /** Settings are applied, live mode is started, and the activation's reader begins. */
  function ToStreaming(writes: nat): seq<Action> {
    ([Spawn(Apply)] + Works(0, writes + 7)) + (([Spawn(Start)] + Works(1, 5)) + [SpawnReader])
  }

  lemma ApplyFirst(writes: nat)
    ensures var s := Run(Opened(writes), [Spawn(Apply)] + Works(0, writes + 7));
            && s.lock == Free && s.shared == AfterApply(Opened(writes).shared, writes, NoTrouble) && s.writes == writes
            && s.workers == [Worker(Apply, Finished(false))] && s.readers == [] && !s.pending
  {
    var s1 := Step(Opened(writes), Spawn(Apply));
    ApplyRunsAlone(s1, 0);
    assert ([Spawn(Apply)] + Works(0, writes + 7))[1..] == Works(0, writes + 7);
  }

  lemma StartSecond(s: State)
    requires s.lock == Free && |s.workers| == 1 && s.shared.driver
    ensures var n := Run(s, [Spawn(Start)] + Works(1, 5));
            && n == s.(shared := AfterStart(s.shared).0, workers := s.workers + [Worker(Start, Finished(false))])
  {
    var s1 := Step(s, Spawn(Start));
    StartRunsAlone(s1, 1);
    assert ([Spawn(Start)] + Works(1, 5))[1..] == Works(1, 5);
    assert s1.workers[1 := Worker(Start, Finished(false))] == s.workers + [Worker(Start, Finished(false))];
  }

  /**
   * The states the examples of LiveVideoActivation start from are reached by an awaited run from the opened camera,
   * with the buffer for the settings and the activation's reader at its beginning.
   */
  lemma StreamingIsReached(writes: nat)
    ensures var s := Run(Opened(writes), ToStreaming(writes));
            && Awaited(Opened(writes), Idle, ToStreaming(writes)) && Inv(s)
            && Streaming(s) && s.readers == [Reader(false, Top)] && s.writes == writes && !s.pending
            && s.shared.buffer == Sized(s.shared.device.config) && !s.shared.device.stale
            && s.shared.device.config == writes && s.shared.generation == 1
  {
    var s0 := Opened(writes);
    var first, second := [Spawn(Apply)] + Works(0, writes + 7), [Spawn(Start)] + Works(1, 5);
    ApplyFirst(writes);
    var s2 := Run(s0, first);
    ApplySettles(s0.shared, writes, NoTrouble);
    StartSecond(s2);
    var s4 := Run(s2, second);
    RunConcat(s0, first, second + [SpawnReader]);
    RunConcat(s2, second, [SpawnReader]);
    var s5 := Step(s4, SpawnReader);
    assert Run(s4, [SpawnReader]) == s5 by { assert [SpawnReader][1..] == [] && Run(s5, []) == s5; }
    OpenedInv(writes);
    RunKeepsInv(s0, ToStreaming(writes));
    hide Run, Inv, AfterApply;
    StreamingIsAwaited(writes, s2, s4);
  }

  lemma StreamingIsAwaited(writes: nat, s2: State, s4: State)
    requires s2 == Run(Opened(writes), [Spawn(Apply)] + Works(0, writes + 7))
        && s4 == Run(s2, [Spawn(Start)] + Works(1, 5))
    requires |s2.workers| == 1 && |s4.workers| == 2 && s4.workers[1].pc == Finished(false)
    ensures Awaited(Opened(writes), Idle, ToStreaming(writes))
  {
    var s0 := Opened(writes);
    var first, second := [Spawn(Apply)] + Works(0, writes + 7), [Spawn(Start)] + Works(1, 5);
    RunSpawn(s0, Apply, Works(0, writes + 7));
    hide Run, Step, Awaited, Works;
    StartIsAwaited(s2, s4);
    WorksFollow(Step(s0, Spawn(Apply)), Idle, 0, writes + 7, second + [SpawnReader]);
    assert [Spawn(Apply)] + (Works(0, writes + 7) + (second + [SpawnReader])) == ToStreaming(writes);
  }

  lemma RunSpawn(s: State, job: Job, rest: seq<Action>)
    ensures Run(s, [Spawn(job)] + rest) == Run(Step(s, Spawn(job)), rest)
  {
    assert ([Spawn(job)] + rest)[1..] == rest;
  }

  lemma StartIsAwaited(s2: State, s4: State)
    requires |s2.workers| == 1 && s4 == Run(s2, [Spawn(Start)] + Works(1, 5)) && |s4.workers| == 2
        && s4.workers[1].pc == Finished(false)
    ensures Awaited(s2, Idle, ([Spawn(Start)] + Works(1, 5)) + [SpawnReader])
  {
    RunSpawn(s2, Start, Works(1, 5));
    hide Run, Step, Awaited, Works;
    WorksFollow(Step(s2, Spawn(Start)), Starting(1), 1, 5, [SpawnReader]);
    assert [Spawn(Start)] + (Works(1, 5) + [SpawnReader]) == ([Spawn(Start)] + Works(1, 5)) + [SpawnReader];
  }

  lemma {:induction false} WorksFollow(s: State, act: Activation, w: nat, n: nat, rest: seq<Action>)
    requires Awaited(Run(s, Works(w, n)), act, rest)
    ensures Awaited(s, act, Works(w, n) + rest)
    decreases n
  {
    hide WorkStep;
    if n == 0 {
      assert Works(w, 0) + rest == rest;
    } else {
      RunWorks(s, w, n);
      WorksFollow(WorkStep(s, w), act, w, n - 1, rest);
      assert (Works(w, n) + rest)[0] == Work(w) && (Works(w, n) + rest)[1..] == Works(w, n - 1) + rest;
    }
  }

  lemma {:induction false} AwaitedConcat(s: State, act: Activation, a: seq<Action>, b: seq<Action>)
    requires Awaited(s, act, a) && forall x | x in b :: LeavesActivation(x)
    ensures Awaited(s, act, a + b)
    decreases |a|
  {
    hide Step;
    if a == [] {
      assert a + b == b;
      OthersAwaited(s, act, b);
    } else {
      assert (a + b)[0] == a[0] && (a + b)[1..] == a[1..] + b;
      AwaitedConcat(Step(s, a[0]), Moved(s, act, a[0]), a[1..], b);
    }
  }

  /**
   * A run in which every start and stop is awaited, with one activation and its one reader, and in which a frame is
   * nevertheless fetched into a buffer for other settings: one setting was rejected after it had taken effect.
   */
  lemma RejectedSettingIsReached(writes: nat)
    requires writes > 0
    ensures var actions := ToStreaming(writes) + SettingRejected(2, 0);
            Awaited(Opened(writes), Idle, actions)
            && exists e | e in Run(Opened(writes), actions).shared.log :: e.call.Fetch? && e.call.sizedFor < e.on.config
  {
    hide Run, ToStreaming, SettingRejected, Awaited;
    StreamingIsReached(writes);
    var s := Run(Opened(writes), ToStreaming(writes));
    TwoWorkers(writes);
    RejectedSettingKeepsOldBuffer(s, 0);
    RunConcat(Opened(writes), ToStreaming(writes), SettingRejected(2, 0));
    AwaitedConcat(Opened(writes), Idle, ToStreaming(writes), SettingRejected(2, 0));
  }

  lemma TwoWorkers(writes: nat)
    ensures |Run(Opened(writes), ToStreaming(writes)).workers| == 2
  {
    var s0 := Opened(writes);
    var first, second := [Spawn(Apply)] + Works(0, writes + 7), [Spawn(Start)] + Works(1, 5);
    ApplyFirst(writes);
    StartSecond(Run(s0, first));
    RunConcat(s0, first, second + [SpawnReader]);
    RunConcat(Run(s0, first), second, [SpawnReader]);
    var s4 := Run(Run(s0, first), second);
    assert [SpawnReader][1..] == []
        && Run(s4, [SpawnReader]) == Run(Step(s4, SpawnReader), []) == Step(s4, SpawnReader);
  }
}
