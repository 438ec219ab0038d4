/** When frames are fetched into a buffer for the camera's present settings, in terms of the calls that raised. */
module LiveVideoFresh {
  import opened LiveVideo
  import opened LiveVideoSafety

  /** An SDK call of _configure raises after at least one setting has taken effect, be it its own. */
  predicate Rejects(s: State, a: Action) {
    a.WriteRaises? && a.worker < |s.workers| && s.workers[a.worker].pc.Configuring? &&
      var k := s.workers[a.worker].pc.written;
      k > 0 || (a.written && k < s.writes)
  }

  /** _configure gets through its settings and allocates the buffer. */
  predicate Configures(s: State, a: Action) {
    a.Work? && a.worker < |s.workers| && s.workers[a.worker].pc.Configuring?
    && s.workers[a.worker].pc.written >= s.writes
  }

  /** A settings change was rejected half-way and no _configure has got through since. */
  predicate Rejected(s: State, actions: seq<Action>)
    decreases |actions|
  {
    actions != [] &&
      var before, a := actions[..|actions| - 1], actions[|actions| - 1];
      Rejects(Run(s, before), a) || (Rejected(s, before) && !Configures(Run(s, before), a))
  }

  /** The i-th step rejected a change, and no _configure has got through after it. */
  ghost predicate RejectedAt(s: State, actions: seq<Action>, i: nat)
    requires i < |actions|
  {
    && Rejects(Run(s, actions[..i]), actions[i])
    && forall j | i < j < |actions| :: !Configures(Run(s, actions[..j]), actions[j])
  }

  lemma RejectedAtSnoc(s: State, actions: seq<Action>, i: nat)
    requires i < |actions| - 1
    ensures var last := |actions| - 1;
            RejectedAt(s, actions, i) <==>
              RejectedAt(s, actions[..last], i) && !Configures(Run(s, actions[..last]), actions[last])
  {
    hide Run, Rejects, Configures;
    var last := |actions| - 1;
    var before := actions[..last];
    assert forall j | 0 <= j <= last :: before[..j] == actions[..j];
    if RejectedAt(s, before, i) && !Configures(Run(s, before), actions[last]) {
      forall j | i < j < |actions| ensures !Configures(Run(s, actions[..j]), actions[j]) {
        if j < last { assert !Configures(Run(s, before[..j]), before[j]); }
      }
    }
    if RejectedAt(s, actions, i) {
      forall j | i < j < last ensures !Configures(Run(s, before[..j]), before[j]) {
        assert !Configures(Run(s, actions[..j]), actions[j]);
      }
    }
  }

  lemma {:induction false} RejectedMeans(s: State, actions: seq<Action>)
    ensures Rejected(s, actions) <==> exists i: nat | i < |actions| :: RejectedAt(s, actions, i)
    decreases |actions|
  {
    if actions != [] {
      var last := |actions| - 1;
      RejectedMeans(s, actions[..last]);
      forall i: nat | i < last { RejectedAtSnoc(s, actions, i); }
      assert RejectedAt(s, actions, last) <==> Rejects(Run(s, actions[..last]), actions[last]);
      hide RejectedAt, Run, Rejects, Configures;
      if Rejected(s, actions) && !RejectedAt(s, actions, last) {
        var i: nat :| i < last && RejectedAt(s, actions[..last], i);
        assert RejectedAt(s, actions, i);
      }
      if exists i: nat | i < |actions| :: RejectedAt(s, actions, i) {
        var i: nat :| i < |actions| && RejectedAt(s, actions, i);
        if i < last { assert RejectedAt(s, actions[..last], i); }
      }
    }
  }

  predicate RewritingAt(pc: WorkerPc) { pc.Configuring? && pc.written > 0 }

  /** A worker is between its first setting and the allocation. */
  predicate Rewriting(s: State) {
    s.lock.HeldBy? && s.lock.thread.W? && s.lock.thread.i < |s.workers| && RewritingAt(s.workers[s.lock.thread.i].pc)
  }

  lemma RunSnoc(s: State, actions: seq<Action>)
    requires actions != []
    ensures Run(s, actions) == Step(Run(s, actions[..|actions| - 1]), actions[|actions| - 1])
  {
    var last := |actions| - 1;
    var n := Run(s, actions[..last]);
    assert actions == actions[..last] + [actions[last]];
    RunConcat(s, actions[..last], [actions[last]]);
    assert [actions[last]][1..] == [];
    assert Run(Step(n, actions[last]), []) == Step(n, actions[last]);
  }

  lemma InsideStale(c: Shared, job: Job, pc: WorkerPc, writes: nat)
    requires HoldsLockW(pc) && !pc.Leaving? && WorkerOk(c, job, pc, writes)
    ensures var (n, pc') := Inside(c, job, pc, writes);
            && (n.device.stale <==> if pc.Configuring? then pc.written < writes else c.device.stale)
            && (RewritingAt(pc') <==> pc.Configuring? && pc.written < writes)
  {}

  lemma WorkStale(s: State, w: nat, rejected: bool)
    requires Inv(s) && (s.shared.device.stale <==> rejected || Rewriting(s))
    ensures var n := WorkStep(s, w);
            n.shared.device.stale <==> (rejected && !Configures(s, Work(w))) || Rewriting(n)
  {
    hide LogOk, FramesOk, ClosedOnce, BufferOk, Inside, WorkerOk;
    if w < |s.workers| && HoldsLockW(s.workers[w].pc) {
      var t := s.workers[w];
      HolderOk(s, w);
      if !t.pc.Leaving? { InsideStale(s.shared, t.job, t.pc, s.writes); }
    }
  }

  lemma RaiseStale(s: State, a: Action, rejected: bool)
    requires Inv(s) && a.WriteRaises? && (s.shared.device.stale <==> rejected || Rewriting(s))
    ensures var n := Step(s, a); n.shared.device.stale <==> Rejects(s, a) || rejected || Rewriting(n)
  {
    hide LogOk, FramesOk, ClosedOnce, BufferOk, WorkerOk;
    var w := a.worker;
    if w < |s.workers| && HoldsLockW(s.workers[w].pc) { HolderOk(s, w); }
  }

  lemma OtherStale(s: State, a: Action)
    requires Exclusive(s) && !a.Work? && !a.WriteRaises?
    ensures var n := Step(s, a);
            n.shared.device.stale == s.shared.device.stale && (Rewriting(n) <==> Rewriting(s))
  {
    if a.Read? {
      if a.reader < |s.readers| { ReaderHolds(s, a.reader); }
      hide Exclusive;
    }
  }

  lemma StepStale(s: State, a: Action, rejected: bool)
    requires Inv(s) && (s.shared.device.stale <==> rejected || Rewriting(s))
    ensures var n := Step(s, a);
            n.shared.device.stale <==> Rejects(s, a) || (rejected && !Configures(s, a)) || Rewriting(n)
  {
    if a.Work? {
      WorkStale(s, a.worker, rejected);
    } else if a.WriteRaises? {
      RaiseStale(s, a, rejected);
    } else {
      OtherStale(s, a);
    }
  }

  /**
   * The camera's settings differ from those of the buffer exactly while being rewritten, or after a rejected change.
   */
  lemma {:induction false} StaleIffRejected(writes: nat, actions: seq<Action>)
    ensures var s := Run(Opened(writes), actions);
            s.shared.device.stale <==> Rejected(Opened(writes), actions) || Rewriting(s)
    decreases |actions|
  {
    var s := Opened(writes);
    OpenedInv(writes);
    assert !Rewriting(s);
    hide Inv, Step, Rejects, Configures, Rewriting;
    if actions != [] {
      var before, a := actions[..|actions| - 1], actions[|actions| - 1];
      RunSnoc(s, actions);
      StaleIffRejected(writes, before);
      RunKeepsInv(s, before);
      StepStale(Run(s, before), a, Rejected(s, before));
    }
  }

  // ---- Fetches ----

  /** The reader asks the camera for a frame. */
  predicate Fetches(s: State, a: Action) {
    a.Read? && a.reader < |s.readers| && s.readers[a.reader].pc.Fetching?
  }

  /** The frame goes into a buffer for the settings the camera is in exactly if no rejected change is left. */
  lemma FetchFitsIff(writes: nat, actions: seq<Action>, a: Action)
    requires Fetches(Run(Opened(writes), actions), a)
    ensures var s := Run(Opened(writes), actions); var n := Step(s, a);
            && |n.shared.log| == |s.shared.log| + 1 && n.shared.log[..|s.shared.log|] == s.shared.log
            && var e := n.shared.log[|s.shared.log|];
            e.call.Fetch? && (e.call.sizedFor == e.on.config <==> !Rejected(Opened(writes), actions))
  {
    hide LogOk, FramesOk, ClosedOnce, Rejected;
    OpenedInv(writes);
    RunKeepsInv(Opened(writes), actions);
    StaleIffRejected(writes, actions);
    var s := Run(Opened(writes), actions);
    hide Run;
    ReaderHolds(s, a.reader);
  }

  /** No frame is asked for while a rejected change is left. */
  predicate FetchesSettled(s: State, actions: seq<Action>)
    decreases |actions|
  {
    actions != [] ==>
      var before, a := actions[..|actions| - 1], actions[|actions| - 1];
      FetchesSettled(s, before) && (Fetches(Run(s, before), a) ==> !Rejected(s, before))
  }

  ghost predicate BuffersFit(log: seq<Event>) {
    forall e | e in log && e.call.Fetch? :: e.call.sizedFor == e.on.config
  }

  lemma CallFits(log: seq<Event>, e: Event)
    ensures BuffersFit(log + [e]) <==> BuffersFit(log) && (e.call.Fetch? ==> e.call.sizedFor == e.on.config)
  {
    forall x | x in log ensures x in log + [e] {}
    assert e in log + [e];
  }

  /** Only a reader's step at its fetch makes a fetch. */
  lemma OtherCalls(s: State, a: Action)
    requires Inv(s) && !Fetches(s, a)
    ensures BuffersFit(Step(s, a).shared.log) <==> BuffersFit(s.shared.log)
  {
    hide BuffersFit, Inv, Inside;
    if a.Work? && a.worker < |s.workers| {
      InsideFetchesNothing(s.shared, s.workers[a.worker].job, s.workers[a.worker].pc, s.writes);
    } else {
      CallFits(s.shared.log, Event(Write, s.shared.device));
    }
  }

  lemma InsideFetchesNothing(c: Shared, job: Job, pc: WorkerPc, writes: nat)
    ensures BuffersFit(Inside(c, job, pc, writes).0.log) <==> BuffersFit(c.log)
  {
    hide BuffersFit;
    var n := Inside(c, job, pc, writes).0;
    if n.log != c.log { CallFits(c.log, n.log[|c.log|]); }
  }

  lemma {:induction false} RunFitsIff(writes: nat, actions: seq<Action>)
    ensures BuffersFit(Run(Opened(writes), actions).shared.log) <==> FetchesSettled(Opened(writes), actions)
    decreases |actions|
  {
    var s := Opened(writes);
    OpenedInv(writes);
    assert BuffersFit([]);
    hide BuffersFit, Inv, Step, Rejected, Fetches;
    if actions != [] {
      var before, a := actions[..|actions| - 1], actions[|actions| - 1];
      RunSnoc(s, actions);
      RunFitsIff(writes, before);
      RunKeepsInv(s, before);
      var t := Run(s, before);
      if Fetches(t, a) {
        FetchFitsIff(writes, before, a);
        var log := Step(t, a).shared.log;
        assert log == t.shared.log + [log[|t.shared.log|]];
        CallFits(t.shared.log, log[|t.shared.log|]);
      } else {
        OtherCalls(t, a);
      }
    }
  }

  // ---- Stamps ----

  ghost predicate Fetched(log: seq<Event>, d: Device) { exists e :: e in log && e.call.Fetch? && e.on == d }

  /** Every frame, stamped or about to be, has been fetched from the camera it says. */
  ghost predicate FramesFetched(s: State) {
    && (forall f | f in s.frames :: Fetched(s.shared.log, f.taken))
    && (forall r | 0 <= r < |s.readers| && s.readers[r].pc.Stamping? :: Fetched(s.shared.log, s.readers[r].pc.taken))
  }

  lemma FetchedStays(log: seq<Event>, more: seq<Event>, d: Device)
    requires log <= more && Fetched(log, d)
    ensures Fetched(more, d)
  {
    var e :| e in log && e.call.Fetch? && e.on == d;
    assert e in more;
  }

  lemma JustFetched(log: seq<Event>, e: Event)
    requires e in log && e.call.Fetch?
    ensures Fetched(log, e.on)
  {}

  /** A frame is new only if a reader stamps it, and a reader stamps only what it has just fetched. */
  lemma FramesMove(s: State, a: Action)
    ensures var n := Step(s, a);
            && (forall f | f in n.frames :: f in s.frames ||
                  (a.Read? && a.reader < |s.readers| && s.readers[a.reader].pc == Stamping(f.taken)))
            && (forall r | 0 <= r < |n.readers| && n.readers[r].pc.Stamping? ::
                  r < |s.readers| &&
                  (n.readers[r].pc == s.readers[r].pc || (Fetches(s, a) && n.readers[r].pc.taken == s.shared.device)))
  {
    if a.Work? { hide WorkStep; WorkMovesNoFrames(s, a.worker); }
  }

  lemma WorkMovesNoFrames(s: State, w: nat)
    ensures WorkStep(s, w).frames == s.frames && WorkStep(s, w).readers == s.readers
  {
    hide Inside;
  }

  lemma StepFetched(s: State, a: Action)
    requires FramesFetched(s)
    ensures FramesFetched(Step(s, a))
  {
    hide Fetched;
    var n := Step(s, a);
    LogGrows(s, a);
    FramesMove(s, a);
    if Fetches(s, a) {
      var e := Event(Fetch(s.readers[a.reader].pc.sizedFor), s.shared.device);
      assert n.shared.log[|s.shared.log|] == e;
      JustFetched(n.shared.log, e);
    }
    hide Step, Fetches;
    forall d | Fetched(s.shared.log, d) ensures Fetched(n.shared.log, d) {
      FetchedStays(s.shared.log, n.shared.log, d);
    }
  }

  lemma {:induction false} RunFetched(s: State, actions: seq<Action>)
    requires FramesFetched(s)
    ensures FramesFetched(Run(s, actions))
    decreases |actions|
  {
    hide FramesFetched;
    if actions != [] {
      StepFetched(s, actions[0]);
      RunFetched(Step(s, actions[0]), actions[1..]);
    }
  }

  /**
   * Main theorem, for every interleaving: all frames are fetched into buffers for the settings the camera is in
   * exactly if none is asked for after a change was rejected half-way and before a _configure has got through; and
   * then frames with equal stamps were taken with equal settings.
   */
  lemma BuffersFitIff(writes: nat, actions: seq<Action>)
    ensures var s := Run(Opened(writes), actions); var settled := FetchesSettled(Opened(writes), actions);
            && (settled <==> forall e | e in s.shared.log && e.call.Fetch? :: e.call.sizedFor == e.on.config)
            && (settled ==>
                  forall f, g | f in s.frames && g in s.frames && f.generation == g.generation ::
                    f.taken.config == g.taken.config)
  {
    var s := Run(Opened(writes), actions);
    RunFitsIff(writes, actions);
    RunFetched(Opened(writes), actions);
    StampsNameSettings(writes, actions);
    if FetchesSettled(Opened(writes), actions) {
      forall f | f in s.frames ensures !f.taken.stale {
        var e :| e in s.shared.log && e.call.Fetch? && e.on == f.taken;
      }
    }
  }

  lemma {:induction false} NothingRejected(s: State, actions: seq<Action>)
    requires forall a | a in actions :: !a.WriteRaises?
    ensures !Rejected(s, actions) && FetchesSettled(s, actions)
    decreases |actions|
  {
    hide Run, Step;
    if actions != [] { NothingRejected(s, actions[..|actions| - 1]); }
  }

  /**
   * If no SDK call of _configure raises, every frame is fetched into a buffer for the settings the camera is in, and
   * frames with equal stamps were taken with equal settings.
   */
  lemma SucceedingCallsFit(writes: nat, actions: seq<Action>)
    requires forall a | a in actions :: !a.WriteRaises?
    ensures var s := Run(Opened(writes), actions);
            && (forall e | e in s.shared.log && e.call.Fetch? :: e.call.sizedFor == e.on.config)
            && (forall f, g | f in s.frames && g in s.frames && f.generation == g.generation ::
                  f.taken.config == g.taken.config)
  {
    NothingRejected(Opened(writes), actions);
    BuffersFitIff(writes, actions);
  }
}
