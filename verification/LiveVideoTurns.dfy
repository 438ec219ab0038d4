/** When begin_live and stop_live alternate, exactly, over every interleaving of the live-video protocol. */
module LiveVideoTurns {
  import opened LiveVideo
  import opened LiveVideoSafety

  /** Live mode is begun only while it is off and stopped only while it is on. */
  predicate Turns(e: Event) {
    (e.call.Begin? ==> !e.on.live) && (e.call.End? ==> e.on.live)
  }

  /**
   * Not one of the two steps that begin or stop live mode once too often: a start that gets to begin_live with
   * _capturing set, and a stop that gets to stop_live although it found _capturing unset.
   */
  predicate Orderly(s: State, a: Action) {
    a.Work? && a.worker < |s.workers| && s.shared.driver ==>
      var t := s.workers[a.worker];
      !(t == Worker(Start, HasDriver) && s.shared.capturing) && t != Worker(Stop, EndingLive(false))
  }

  predicate OrderlyRun(s: State, actions: seq<Action>)
    decreases |actions|
  {
    actions != [] ==> Orderly(s, actions[0]) && OrderlyRun(Step(s, actions[0]), actions[1..])
  }

  ghost predicate Alternates(log: seq<Event>) { forall e | e in log :: Turns(e) }

  lemma CallTurns(log: seq<Event>, e: Event)
    ensures Alternates(log + [e]) <==> Alternates(log) && Turns(e)
  {
    forall x | x in log ensures x in log + [e] {}
    assert e in log + [e];
  }

  /** A step inside the lock keeps the turns exactly if it is not one of the two. */
  lemma InsideTurns(c: Shared, job: Job, pc: WorkerPc, writes: nat)
    requires WorkerOk(c, job, pc, writes) && HoldsLockW(pc)
    ensures Alternates(Inside(c, job, pc, writes).0.log) <==>
              Alternates(c.log)
              && !(c.driver && ((job.Start? && pc.HasDriver? && c.capturing) || (job.Stop? && pc == EndingLive(false))))
  {
    hide Alternates;
    var n := Inside(c, job, pc, writes).0;
    if n.log != c.log {
      CallTurns(c.log, n.log[|c.log|]);
    }
  }

  lemma StepTurnsIff(s: State, a: Action)
    requires Inv(s)
    ensures Alternates(Step(s, a).shared.log) <==> Alternates(s.shared.log) && Orderly(s, a)
  {
    hide Alternates, LogOk, FramesOk, ClosedOnce, BufferOk, WorkerOk, Inside;
    match a
    case Work(w) =>
      if w < |s.workers| && HoldsLockW(s.workers[w].pc) {
        HolderOk(s, w);
        if !s.workers[w].pc.Leaving? { InsideTurns(s.shared, s.workers[w].job, s.workers[w].pc, s.writes); }
      }
    case WriteRaises(w, written) =>
      CallTurns(s.shared.log, Event(Write, s.shared.device));
    case Read(r, hasFrame) =>
      if r < |s.readers| && s.readers[r].pc.Fetching? {
        CallTurns(s.shared.log, Event(Fetch(s.readers[r].pc.sizedFor), s.shared.device));
      }
    case _ =>
  }

  lemma {:induction false} RunTurnsIff(s: State, actions: seq<Action>)
    requires Inv(s)
    ensures Alternates(Run(s, actions).shared.log) <==> Alternates(s.shared.log) && OrderlyRun(s, actions)
    decreases |actions|
  {
    hide Alternates, Inv, Step, Orderly;
    if actions != [] {
      StepTurnsIff(s, actions[0]);
      StepKeepsInv(s, actions[0]);
      RunTurnsIff(Step(s, actions[0]), actions[1..]);
    }
  }

  /**
   * Main theorem: in a run from the opened camera, time-outs and raising calls included, begin_live and stop_live
   * alternate exactly if no start got to begin_live with _capturing set and no stop got to stop_live that had found
   * it unset.
   */
  lemma AlternatesIff(writes: nat, actions: seq<Action>)
    ensures (forall e | e in Run(Opened(writes), actions).shared.log :: Turns(e)) <==>
            OrderlyRun(Opened(writes), actions)
  {
    OpenedInv(writes);
    RunTurnsIff(Opened(writes), actions);
  }
}
