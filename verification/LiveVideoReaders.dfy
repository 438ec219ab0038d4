/** What the stop event, a waiting setter and a stopped camera mean for a reader thread, and which workers raise. */
module LiveVideoReaders {
  import opened LiveVideo
  import opened LiveVideoSafety

  // ---- Frames fetched by one reader ----

  /** This action is a step of reader r that calls the SDK. */
  predicate Fetches(s: State, r: nat, a: Action) {
    a.Read? && a.reader == r && |Step(s, a).shared.log| > |s.shared.log|
  }

  /** How many frames reader r asks the SDK for in the course of a schedule. */
  function FetchCount(s: State, r: nat, actions: seq<Action>): nat
    decreases |actions|
  {
    if actions == [] then 0
    else (if Fetches(s, r, actions[0]) then 1 else 0) + FetchCount(Step(s, actions[0]), r, actions[1..])
  }

  /** How many frames reader r hands to the event loop in the course of a schedule. */
  function DeliveryCount(s: State, r: nat, actions: seq<Action>): nat
    decreases |actions|
  {
    if actions == [] then 0
    else
      var a := actions[0];
      (if a.Read? && a.reader == r && |Step(s, a).frames| > |s.frames| then 1 else 0)
      + DeliveryCount(Step(s, a), r, actions[1..])
  }

  /** Past its look at the stop event, and not yet done with the frame. */
  predicate FetchUnderWay(pc: ReaderPc) { pc.Yielding? || pc.AtLock? || pc.Holding? || pc.Fetching? }

  /** A reader that has found the camera stopped is on its way out, whatever its stop event says. */
  predicate Leaves(pc: ReaderPc) { pc.Returning? || pc.Done? }

  /** It will not begin another turn. */
  predicate Ending(t: Reader) { t.stop || Leaves(t.pc) }

  /** At most this many frames will still be asked for, and handed over, by a reader that begins no other turn. */
  function FetchesLeft(pc: ReaderPc): nat { if FetchUnderWay(pc) then 1 else 0 }

  function DeliveriesLeft(pc: ReaderPc): nat { if FetchUnderWay(pc) || pc.Stamping? then 1 else 0 }

  lemma OwnStepEnds(s: State, r: nat, hasFrame: bool)
    requires r < |s.readers| && Ending(s.readers[r])
    ensures var n := ReadStep(s, r, hasFrame);
            && |n.readers| == |s.readers| && Ending(n.readers[r]) && n.readers[r].stop == s.readers[r].stop
            && FetchesLeft(n.readers[r].pc) + |n.shared.log| <= FetchesLeft(s.readers[r].pc) + |s.shared.log|
            && DeliveriesLeft(n.readers[r].pc) + |n.frames| <= DeliveriesLeft(s.readers[r].pc) + |s.frames|
            && |n.shared.log| <= |s.shared.log| + 1 && |n.frames| <= |s.frames| + 1
  {}

  lemma OtherStepKeeps(s: State, r: nat, a: Action)
    requires r < |s.readers| && !(a.Read? && a.reader == r)
    ensures var n := Step(s, a);
            r < |n.readers| && n.readers[r].pc == s.readers[r].pc && (s.readers[r].stop ==> n.readers[r].stop)
  {
    hide Inside, RaisesInside;
  }

  /**
   * A reader whose stop event is set, or that has found the camera stopped, asks for at most the one frame whose fetch
   * is already under way, and hands over at most that one, whatever happens around it.
   */
  lemma {:induction false} EndingReaderFetchesAtMostOnce(s: State, r: nat, actions: seq<Action>)
    requires r < |s.readers| && Ending(s.readers[r])
    ensures FetchCount(s, r, actions) <= FetchesLeft(s.readers[r].pc)
    ensures DeliveryCount(s, r, actions) <= DeliveriesLeft(s.readers[r].pc)
    ensures r < |Run(s, actions).readers| && Ending(Run(s, actions).readers[r])
    decreases |actions|
  {
    if actions != [] {
      var a := actions[0];
      if a.Read? && a.reader == r { OwnStepEnds(s, r, a.hasFrame); } else { OtherStepKeeps(s, r, a); }
      var n := Step(s, a);
      hide Step;
      EndingReaderFetchesAtMostOnce(n, r, actions[1..]);
    }
  }

  /** So setting the event stops a reader: after it, at most the frame under way. */
  lemma StopEndsReader(s: State, r: nat, actions: seq<Action>)
    requires r < |s.readers|
    ensures FetchCount(s, r, [SetStop(r)] + actions) <= FetchesLeft(s.readers[r].pc)
    ensures DeliveryCount(s, r, [SetStop(r)] + actions) <= DeliveriesLeft(s.readers[r].pc)
    ensures Step(s, SetStop(r)).readers == s.readers[r := Reader(true, s.readers[r].pc)]
  {
    var n := Step(s, SetStop(r));
    assert n.readers[r] == Reader(true, s.readers[r].pc);
    assert ([SetStop(r)] + actions)[1..] == actions;
    EndingReaderFetchesAtMostOnce(n, r, actions);
  }

  /** A stopped reader that is between two frames does nothing more but end. */
  lemma {:induction false} StoppedReaderEnds(s: State, r: nat, actions: seq<Action>)
    requires r < |s.readers| && s.readers[r].stop && (s.readers[r].pc.Top? || s.readers[r].pc.Done?)
    ensures var n := Run(s, actions);
            && r < |n.readers| && n.readers[r].stop && (n.readers[r].pc.Top? || n.readers[r].pc.Done?)
            && ((exists hasFrame :: Read(r, hasFrame) in actions) ==> n.readers[r].pc.Done?)
    decreases |actions|
  {
    if actions != [] {
      var a := actions[0];
      if !(a.Read? && a.reader == r) { OtherStepKeeps(s, r, a); }
      var n := Step(s, a);
      assert forall f :: Read(r, f) in actions ==> Read(r, f) == a || Read(r, f) in actions[1..];
      if n.readers[r].pc.Done? { DoneStays(n, r, actions[1..]); }
      hide Step;
      StoppedReaderEnds(n, r, actions[1..]);
    }
  }

  lemma {:induction false} DoneStays(s: State, r: nat, actions: seq<Action>)
    requires r < |s.readers| && s.readers[r].pc.Done?
    ensures r < |Run(s, actions).readers| && Run(s, actions).readers[r].pc.Done?
    decreases |actions|
  {
    if actions != [] {
      var a := actions[0];
      if !(a.Read? && a.reader == r) { OtherStepKeeps(s, r, a); }
      var n := Step(s, a);
      hide Step;
      DoneStays(n, r, actions[1..]);
    }
  }

  // ---- Where a reader goes ----

  /**
   * A reader begins a turn exactly if its stop event is not set; goes for the lock exactly if no setter is waiting or
   * the event is set; and inside, it fetches exactly if the driver, a buffer and _capturing are there, and else ends.
   */
  lemma ReaderGoesOnIff(s: State, r: nat, hasFrame: bool)
    requires r < |s.readers|
    ensures var t, n := s.readers[r], ReadStep(s, r, hasFrame).readers;
            && |n| == |s.readers|
            && (t.pc.Top? ==> n[r].pc == if t.stop then Done else Yielding)
            && (t.pc.Yielding? ==> (n[r].pc.AtLock? <==> !s.pending || t.stop) && (n != s.readers ==> n[r].pc.AtLock?))
            && (t.pc.Holding? ==>
                  if s.shared.driver && s.shared.buffer.Sized? && s.shared.capturing
                  then n[r].pc == Fetching(s.shared.buffer.config) else Leaves(n[r].pc) && !n[r].pc.Done?)
  {}

  /** While a setter waits, a reader that has not been stopped stays where it is, however often it looks. */
  lemma {:induction false} ReaderWaitsForSetter(s: State, r: nat, actions: seq<Action>)
    requires r < |s.readers| && s.readers[r] == Reader(false, Yielding) && s.pending
    requires forall a | a in actions :: a != SetPending(false) && a != SetStop(r)
    ensures var n := Run(s, actions);
            r < |n.readers| && n.readers[r] == s.readers[r] && n.pending && FetchCount(s, r, actions) == 0
    decreases |actions|
  {
    if actions != [] {
      var a := actions[0];
      assert a in actions;
      WaitingStep(s, r, a);
      var n := Step(s, a);
      hide Step;
      assert forall b | b in actions[1..] :: b in actions;
      ReaderWaitsForSetter(n, r, actions[1..]);
    }
  }

  /** The setter's flag makes readers wait, and lets them on again. */
  lemma PendingHoldsReaders(s: State, r: nat, actions: seq<Action>, hasFrame: bool)
    requires r < |s.readers| && s.readers[r] == Reader(false, Yielding)
    requires forall a | a in actions :: a != SetPending(false) && a != SetStop(r)
    ensures FetchCount(s, r, [SetPending(true)] + actions) == 0
    ensures Step(Step(s, SetPending(false)), Read(r, hasFrame)).readers == s.readers[r := Reader(false, AtLock)]
  {
    var n := Step(s, SetPending(true));
    assert ([SetPending(true)] + actions)[1..] == actions;
    ReaderWaitsForSetter(n, r, actions);
  }

  lemma WaitingStep(s: State, r: nat, a: Action)
    requires r < |s.readers| && s.readers[r] == Reader(false, Yielding) && s.pending
    requires a != SetPending(false) && a != SetStop(r)
    ensures var n := Step(s, a);
            r < |n.readers| && n.readers[r] == s.readers[r] && n.pending && !Fetches(s, r, a)
  {
    hide Inside, RaisesInside;
  }

  // ---- An undisturbed turn ----

  /** n steps of reader r; the camera has a frame for it, or not. */
  function Reads(r: nat, hasFrame: bool, n: nat): seq<Action> { seq(n, _ => Read(r, hasFrame)) }

  function Placed(s: State, r: nat, pc: ReaderPc): State
    requires r < |s.readers|
  {
    s.(lock := if HoldsLockR(pc) then HeldBy(R(r)) else Free, readers := s.readers[r := Reader(false, pc)])
  }

  /** A step from pc to pc' that leaves c and f of the shared fields and the frames. */
  ghost predicate Moves(s: State, r: nat, hasFrame: bool, pc: ReaderPc, pc': ReaderPc, c: Shared, f: seq<Frame>)
    requires r < |s.readers|
  {
    ReadStep(Placed(s, r, pc), r, hasFrame) == Placed(s.(shared := c, frames := f), r, pc')
  }

  lemma UpdatedTwice<T>(q: seq<T>, r: nat, a: T, b: T)
    requires r < |q|
    ensures q[r := a][r := b] == q[r := b]
  {}

  lemma Approaches(s: State, r: nat, hasFrame: bool)
    requires r < |s.readers| && !s.pending
    ensures Moves(s, r, hasFrame, Top, Yielding, s.shared, s.frames)
    ensures Moves(s, r, hasFrame, Yielding, AtLock, s.shared, s.frames)
    ensures Moves(s, r, hasFrame, AtLock, Holding, s.shared, s.frames)
  {
    UpdatedTwice(s.readers, r, Reader(false, Top), Reader(false, Yielding));
    UpdatedTwice(s.readers, r, Reader(false, Yielding), Reader(false, AtLock));
    UpdatedTwice(s.readers, r, Reader(false, AtLock), Reader(false, Holding));
  }

  lemma GivesUp(s: State, r: nat, hasFrame: bool)
    requires r < |s.readers|
    ensures !(s.shared.driver && s.shared.buffer.Sized? && s.shared.capturing) ==>
              Moves(s, r, hasFrame, Holding, Returning, s.shared, s.frames)
    ensures Moves(s, r, hasFrame, Returning, Done, s.shared, s.frames)
    ensures Moves(s, r, hasFrame, Again, Top, s.shared, s.frames)
  {
    UpdatedTwice(s.readers, r, Reader(false, Holding), Reader(false, Returning));
    UpdatedTwice(s.readers, r, Reader(false, Returning), Reader(false, Done));
    UpdatedTwice(s.readers, r, Reader(false, Again), Reader(false, Top));
  }

  lemma FetchesFrame(s: State, r: nat, hasFrame: bool, b: nat, d: Device)
    requires r < |s.readers|
    ensures s.shared.driver && s.shared.buffer == Sized(b) && s.shared.capturing ==>
              Moves(s, r, hasFrame, Holding, Fetching(b), s.shared, s.frames)
    ensures Moves(s, r, hasFrame, Fetching(b), if hasFrame then Stamping(s.shared.device) else Again,
        Do(s.shared, Fetch(b)), s.frames)
    ensures Moves(s, r, hasFrame, Stamping(d), Again, s.shared, s.frames + [Frame(s.shared.generation, d)])
  {
    hide Do;
    UpdatedTwice(s.readers, r, Reader(false, Holding), Reader(false, Fetching(b)));
    UpdatedTwice(s.readers, r, Reader(false, Fetching(b)), Reader(false, Stamping(s.shared.device)));
    UpdatedTwice(s.readers, r, Reader(false, Fetching(b)), Reader(false, Again));
    UpdatedTwice(s.readers, r, Reader(false, Stamping(d)), Reader(false, Again));
  }

  lemma MovesRun(s: State, r: nat, hasFrame: bool, pc: ReaderPc, pc': ReaderPc, c: Shared, f: seq<Frame>, n: nat)
    requires r < |s.readers| && n > 0 && Moves(s, r, hasFrame, pc, pc', c, f)
    ensures Run(Placed(s, r, pc), Reads(r, hasFrame, n)) ==
        Run(Placed(s.(shared := c, frames := f), r, pc'), Reads(r, hasFrame, n - 1))
  {
    assert Reads(r, hasFrame, n)[1..] == Reads(r, hasFrame, n - 1);
  }

  /**
   * A reader that nobody disturbs takes one turn of its loop: it asks for one frame into the buffer there is, hands it
   * over with the present generation if the camera has one, and is back at the top; or it ends without a call.
   */
  lemma ReadRunsAlone(s: State, r: nat, hasFrame: bool)
    requires s.lock == Free && !s.pending && r < |s.readers| && s.readers[r] == Reader(false, Top)
    ensures var c := s.shared;
            if c.driver && c.buffer.Sized? && c.capturing then
              Run(s, Reads(r, hasFrame, if hasFrame then 7 else 6)) ==
                s.(shared := Do(c, Fetch(c.buffer.config)),
                   frames := s.frames + if hasFrame then [Frame(c.generation, c.device)] else [])
            else Run(s, Reads(r, hasFrame, 5)) == s.(readers := s.readers[r := Reader(false, Done)])
  {
    var c := s.shared;
    var n: nat := if c.driver && c.buffer.Sized? && c.capturing then (if hasFrame then 7 else 6) else 5;
    assert s == Placed(s, r, Top);
    RunNone(s);
    RunNone(Placed(s, r, Done));
    hide Run, Moves, Placed, Do;
    Approaches(s, r, hasFrame);
    GivesUp(s, r, hasFrame);
    MovesRun(s, r, hasFrame, Top, Yielding, c, s.frames, n);
    MovesRun(s, r, hasFrame, Yielding, AtLock, c, s.frames, n - 1);
    MovesRun(s, r, hasFrame, AtLock, Holding, c, s.frames, n - 2);
    if n == 5 {
      MovesRun(s, r, hasFrame, Holding, Returning, c, s.frames, 2);
      MovesRun(s, r, hasFrame, Returning, Done, c, s.frames, 1);
      assert Reads(r, hasFrame, 0) == [];
    } else {
      FetchRuns(s, r, hasFrame);
    }
  }

  lemma FetchRuns(s: State, r: nat, hasFrame: bool)
    requires r < |s.readers| && s.shared.driver && s.shared.buffer.Sized? && s.shared.capturing
    ensures Run(Placed(s, r, Holding), Reads(r, hasFrame, if hasFrame then 4 else 3)) ==
        Placed(s.(shared := Do(s.shared, Fetch(s.shared.buffer.config)),
                  frames := s.frames + if hasFrame then [Frame(s.shared.generation, s.shared.device)] else []), r, Top)
  {
    var c, b := s.shared, s.shared.buffer.config;
    var n: nat := if hasFrame then 4 else 3;
    var t := s.(shared := Do(c, Fetch(b)));
    var u := if hasFrame then t.(frames := s.frames + [Frame(c.generation, c.device)]) else t;
    FetchesFrame(s, r, hasFrame, b, c.device);
    FetchesFrame(t, r, hasFrame, b, c.device);
    GivesUp(u, r, hasFrame);
    RunNone(Placed(u, r, Top));
    assert t.shared.generation == c.generation;
    hide Run, Moves, Placed, Do;
    MovesRun(s, r, hasFrame, Holding, Fetching(b), c, s.frames, n);
    MovesRun(s, r, hasFrame, Fetching(b), if hasFrame then Stamping(c.device) else Again, t.shared, s.frames, n - 1);
    if hasFrame { MovesRun(t, r, hasFrame, Stamping(c.device), Again, t.shared, u.frames, 2); }
    MovesRun(u, r, hasFrame, Again, Top, u.shared, u.frames, 1);
    assert Reads(r, hasFrame, 0) == [] && s.frames + [] == s.frames;
  }

  lemma RunNone(s: State)
    ensures Run(s, []) == s
  {}

  // ---- Which workers raise ----

  /**
   * A worker leaves with an exception exactly if it starts live mode and finds _driver dropped, stops it and finds
   * _driver dropped after it was there, or applies settings and an SDK call has raised.
   */
  lemma RaisesIff(c: Shared, job: Job, pc: WorkerPc, writes: nat)
    requires HoldsLockW(pc) && !pc.Leaving? && WorkerOk(c, job, pc, writes)
    ensures var to := Inside(c, job, pc, writes).1;
            && (to.Leaving? ==>
                  (to.raised <==> match job
                    case Start => !c.driver && (pc.Entered? || pc.HasDriver?)
                    case Stop => !c.driver && pc.EndingLive?
                    case Apply => pc.Restarting? && pc.raised
                    case Close => false))
            && (to.Restarting? ==> !to.raised)
  {}

  /** Closing switches live mode off. */
  lemma ClosedIsOff(writes: nat, actions: seq<Action>)
    ensures var d := Run(Opened(writes), actions).shared.device; !d.open ==> !d.live
  {
    OpenedInv(writes);
    RunKeepsInv(Opened(writes), actions);
    var c := Run(Opened(writes), actions).shared;
    hide Run, Opened;
    if c.log != [] {
      var e := c.log[|c.log| - 1];
      assert e in c.log && InOrder(e) && c.device == Perform(e.on, e.call);
    }
  }
}
