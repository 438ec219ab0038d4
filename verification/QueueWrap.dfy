/**
 * What the 32-bit counters do to the queue: uninterrupted calls as functions,
 * and the exact ring lengths for which the queue stays first-in first-out.
 */
module QueueWrap {
  import opened Arith
  import opened QueueModel
  import opened QueueFifo

  /** A whole push_circ_queue call that nothing interrupts. */
  function PushCall(s: State, msg: Msg): (r: (State, Event))
    requires |s.cells| > 0
    ensures |r.0.cells| == |s.cells|
  {
    var len := |s.cells|;
    if TestsFull(s.writeIndex, s.readIndex, len) then (s, PushFull)
    else (s.(writeIndex := (s.writeIndex + 1) % TWO32,
             cells := s.cells[Slot(s.writeIndex, len) := msg],
             pushed := s.pushed + [msg]), PushOk)
  }

  /** A whole pop_circ_queue call that nothing interrupts. */
  function PopCall(s: State): (r: (State, Event))
    requires |s.cells| > 0
    ensures |r.0.cells| == |s.cells|
  {
    var len := |s.cells|;
    if TestsEmpty(s.readIndex, s.writeIndex, len) then (s, PopEmpty)
    else (s.(readIndex := (s.readIndex + 1) % TWO32,
             popped := s.popped + [s.cells[Slot(s.readIndex, len)]]), PopOk)
  }

  /** The first k of a run of equal actions. */
  function Repeat(a: Action, k: nat): seq<Action> { seq(k, _ => a) }

  function PushSchedule(s: State, msg: Msg): seq<Action>
    requires |s.cells| > 0
  {
    Repeat(Produce(msg), if TestsFull(s.writeIndex, s.readIndex, |s.cells|) then 2 else 5)
  }

  function PopSchedule(s: State, tid: nat): seq<Action>
    requires |s.cells| > 0
  {
    Repeat(Consume(tid), if TestsEmpty(s.readIndex, s.writeIndex, |s.cells|) then 2 else 5)
  }

  lemma RunRepeat(s: State, a: Action, k: nat)
    requires |s.cells| > 0
    ensures Run(s, Repeat(a, k)) == if k == 0 then s else Run(Step(s, a).0, Repeat(a, k - 1))
  {
    if k > 0 { assert Repeat(a, k)[1..] == Repeat(a, k - 1); }
  }

  /** What the last of k equal actions reports. */
  function LastEvent(s: State, a: Action, k: nat): Event
    requires |s.cells| > 0 && k > 0
  {
    Step(Run(s, Repeat(a, k - 1)), a).1
  }

  lemma RunFive(s: State, s1: State, s2: State, s3: State, s4: State, s5: State, a: Action)
    requires |s.cells| > 0 && Step(s, a).0 == s1 && |s1.cells| > 0 && Step(s1, a).0 == s2 && |s2.cells| > 0
    requires Step(s2, a).0 == s3 && |s3.cells| > 0 && Step(s3, a).0 == s4 && |s4.cells| > 0 && Step(s4, a).0 == s5
    requires |s5.cells| > 0
    ensures Run(s, Repeat(a, 5)) == s5 && LastEvent(s, a, 5) == Step(s4, a).1
  {
    hide Run, Step;
    RunRepeat(s, a, 5); RunRepeat(s1, a, 4); RunRepeat(s2, a, 3); RunRepeat(s3, a, 2); RunRepeat(s4, a, 1);
    RunRepeat(s5, a, 0);
    RunRepeat(s, a, 4); RunRepeat(s1, a, 3); RunRepeat(s2, a, 2); RunRepeat(s3, a, 1); RunRepeat(s4, a, 0);
  }

  /** The five steps of a push that finds room. */
  lemma FivePushSteps(s: State, msg: Msg, s1: State, s2: State, s3: State, s4: State)
    requires |s.cells| > 0 && s.producer == Resting && !TestsFull(s.writeIndex, s.readIndex, |s.cells|)
    requires var w, i := s.writeIndex, Slot(s.writeIndex, |s.cells|);
             && s1 == s.(producer := HasWrite(msg, w)) && s2 == s.(producer := Storing0(msg, w))
             && s3 == s.(producer := Storing1(msg, w), cells := s.cells[i := s.cells[i].(kind := msg.kind)])
             && s4 == s.(producer := Publishing(msg), cells := s.cells[i := msg])
    ensures Step(s1, Produce(msg)).0 == s2 && Step(s2, Produce(msg)).0 == s3 && Step(s3, Produce(msg)).0 == s4
    ensures Step(s4, Produce(msg)) == PushCall(s, msg)
  {
    hide TestsFull;
    var i := Slot(s.writeIndex, |s.cells|);
    assert s3.cells[i := s3.cells[i].(arg := msg.arg)] == s4.cells;
  }

  lemma PushRunsAtomicSteps(s: State, msg: Msg)
    requires |s.cells| > 0 && s.producer == Resting
    ensures Run(s, PushSchedule(s, msg)) == PushCall(s, msg).0
    ensures LastEvent(s, Produce(msg), |PushSchedule(s, msg)|) == PushCall(s, msg).1
  {
    hide Run, TestsFull;
    var a, w := Produce(msg), s.writeIndex;
    var i := Slot(w, |s.cells|);
    var s1 := s.(producer := HasWrite(msg, w));
    assert Step(s, a).0 == s1;
    if TestsFull(w, s.readIndex, |s.cells|) {
      assert Step(s1, a).0 == s;
      RunRepeat(s, a, 2); RunRepeat(s1, a, 1); RunRepeat(s, a, 0);
      RunRepeat(s, a, 1); RunRepeat(s1, a, 0);
    } else {
      var s2 := s.(producer := Storing0(msg, w));
      var s3 := s.(producer := Storing1(msg, w), cells := s.cells[i := s.cells[i].(kind := msg.kind)]);
      var s4 := s.(producer := Publishing(msg), cells := s.cells[i := msg]);
      FivePushSteps(s, msg, s1, s2, s3, s4);
      hide Step;
      RunFive(s, s1, s2, s3, s4, PushCall(s, msg).0, a);
    }
  }

  /** The five steps of a pop that finds a message. */
  lemma FivePopSteps(s: State, tid: nat, s1: State, s2: State, s3: State, s4: State)
    requires |s.cells| > 0 && tid < |s.consumers| && s.consumers[tid] == Idle
    requires !TestsEmpty(s.readIndex, s.writeIndex, |s.cells|)
    requires var m := s.cells[Slot(s.readIndex, |s.cells|)]; var r, n, cs := s.readIndex, |s.popped|, s.consumers;
             && s1 == s.(consumers := cs[tid := HasRead(r, n)]) && s2 == s.(consumers := cs[tid := Loading0(r, n)])
             && s3 == s.(consumers := cs[tid := Loading1(r, n, m.kind)])
             && s4 == s.(consumers := cs[tid := Swapping(r, n, m.kind, m.arg)])
    ensures Step(s1, Consume(tid)).0 == s2 && Step(s2, Consume(tid)).0 == s3 && Step(s3, Consume(tid)).0 == s4
    ensures Step(s4, Consume(tid)) == PopCall(s)
  {
    hide TestsEmpty;
    var cs := s.consumers;
    assert s1.consumers[tid := s2.consumers[tid]] == s2.consumers;
    assert s2.consumers[tid := s3.consumers[tid]] == s3.consumers;
    assert s3.consumers[tid := s4.consumers[tid]] == s4.consumers;
    assert s4.consumers[tid := Idle] == cs;
  }

  lemma PopRunsAtomicSteps(s: State, tid: nat)
    requires |s.cells| > 0 && tid < |s.consumers| && s.consumers[tid] == Idle
    ensures Run(s, PopSchedule(s, tid)) == PopCall(s).0
    ensures LastEvent(s, Consume(tid), |PopSchedule(s, tid)|) == PopCall(s).1
  {
    hide Run, TestsEmpty;
    var a, cs, r, n := Consume(tid), s.consumers, s.readIndex, |s.popped|;
    var m := s.cells[Slot(r, |s.cells|)];
    var s1 := s.(consumers := cs[tid := HasRead(r, n)]);
    assert Step(s, a).0 == s1;
    if TestsEmpty(r, s.writeIndex, |s.cells|) {
      assert Step(s1, a).0 == s by { assert s1.consumers[tid := Idle] == cs; }
      RunRepeat(s, a, 2); RunRepeat(s1, a, 1); RunRepeat(s, a, 0);
      RunRepeat(s, a, 1); RunRepeat(s1, a, 0);
    } else {
      var s2 := s.(consumers := cs[tid := Loading0(r, n)]);
      var s3 := s.(consumers := cs[tid := Loading1(r, n, m.kind)]);
      var s4 := s.(consumers := cs[tid := Swapping(r, n, m.kind, m.arg)]);
      FivePopSteps(s, tid, s1, s2, s3, s4);
      hide Step;
      RunFive(s, s1, s2, s3, s4, PopCall(s).0, a);
    }
  }

  /** A push that nothing interrupts takes the message exactly while fewer than len - 1 wait, and says which. */
  lemma PushOutcome(s: State, msg: Msg)
    requires RingInv(s) && InRange(|s.pushed| + 1, |s.cells|)
    ensures var (n, e) := PushCall(s, msg);
            && (e == PushOk <==> s.Outstanding() < |s.cells| - 1)
            && (e == PushFull <==> s.Outstanding() == |s.cells| - 1)
            && (e == PushOk ==> RingInv(n) && n.pushed == s.pushed + [msg] && n.popped == s.popped)
            && (e == PushFull ==> n == s)
  {
    FullTestExact(s);
    FreeSlot(s);
    if s.Outstanding() < |s.cells| - 1 {
      SlotInRange(s, |s.pushed|);
      StoreKeepsRing(s, s.(cells := s.cells[|s.pushed| % |s.cells| := msg]), msg);
      PublishKeepsRing(s.(cells := s.cells[|s.pushed| % |s.cells| := msg]),
        PushCall(s, msg).0.(producer := Resting), msg);
    }
  }

  /** A pop that nothing interrupts takes the oldest message exactly while one waits, and says which. */
  lemma PopOutcome(s: State)
    requires RingInv(s) && InRange(|s.pushed|, |s.cells|)
    ensures var (n, e) := PopCall(s);
            && (e == PopOk <==> s.Outstanding() > 0) && (e == PopEmpty <==> s.Outstanding() == 0)
            && (e == PopOk ==> RingInv(n) && n.popped == s.popped + [s.pushed[|s.popped|]] && n.pushed == s.pushed)
            && (e == PopEmpty ==> n == s)
  {
    var len, w, r := |s.cells|, |s.pushed|, |s.popped|;
    SlotInRange(s, r);
    SlotInRange(s, w);
    if r < w && r % len == w % len { SameSlot(r, w, len); }
    if r < w { WrapOfSuccessor(r); }
  }

  // A run of whole calls with one consumer: w messages pushed, r popped, all of them `ZERO`.

  const ZERO := Msg(0, 0)
  const ONE := Msg(1, 1)

  ghost predicate Level(s: State, len: nat, w: nat, r: nat) {
    && |s.cells| == len > 0
    && s.producer == Resting && s.consumers == [Idle]
    && |s.pushed| == w && |s.popped| == r
    && s.writeIndex == w % TWO32 && s.readIndex == r % TWO32
    && (forall k | 0 <= k < w :: s.pushed[k] == ZERO)
  }

  ghost predicate Reached(len: nat, s: State) {
    len > 0 && exists acts :: Run(Init(len, 1), acts) == s
  }

  lemma ReachedRun(len: nat, s: State, more: seq<Action>)
    requires Reached(len, s)
    ensures |s.cells| == len && Reached(len, Run(s, more))
  {
    var acts :| Run(Init(len, 1), acts) == s;
    RunConcat(Init(len, 1), acts, more);
  }

  lemma Pushed(len: nat, s: State, w: nat, r: nat) returns (s': State)
    requires Reached(len, s) && Level(s, len, w, r)
    requires !TestsFull(w % TWO32, r % TWO32, len)
    ensures Reached(len, s') && Level(s', len, w + 1, r) && s' == PushCall(s, ZERO).0
  {
    s' := PushCall(s, ZERO).0;
    PushRunsAtomicSteps(s, ZERO);
    ReachedRun(len, s, PushSchedule(s, ZERO));
    WrapOfSuccessor(w);
  }

  lemma Popped(len: nat, s: State, w: nat, r: nat) returns (s': State)
    requires Reached(len, s) && Level(s, len, w, r)
    requires !TestsEmpty(r % TWO32, w % TWO32, len)
    ensures Reached(len, s') && Level(s', len, w, r + 1) && s' == PopCall(s).0
  {
    s' := PopCall(s).0;
    PopRunsAtomicSteps(s, 0);
    ReachedRun(len, s, PopSchedule(s, 0));
    WrapOfSuccessor(r);
  }

  lemma NeighboursDiffer(n: nat, len: nat)
    requires len > 1
    ensures (n + 1) % len != n % len
  {
    if (n + 1) % len == n % len { SameSlot(n, n + 1, len); }
  }

  /** Short of the wrap, an empty queue takes a message and then gives one back. */
  lemma TestsBetween(n: nat, len: nat)
    requires len > 1 && n + 1 < TWO32
    ensures !TestsFull(n, n, len) && !TestsEmpty(n, n + 1, len)
    ensures n % TWO32 == n && (n + 1) % TWO32 == n + 1
  {
    DivModUnique(n, TWO32, 0, n);
    DivModUnique(n + 1, TWO32, 0, n + 1);
    NeighboursDiffer(n, len);
  }

  /** Any number of messages below 2^32 can pass through an empty queue one at a time. */
  lemma {:induction false} PassThrough(len: nat, n: nat) returns (s: State)
    requires len > 1 && n < TWO32
    ensures Reached(len, s) && Level(s, len, n, n)
  {
    if n == 0 {
      s := Init(len, 1);
      assert Run(Init(len, 1), []) == s;
    } else {
      s := PassThrough(len, n - 1);
      TestsBetween(n - 1, len);
      s := Pushed(len, s, n - 1, n - 1);
      s := Popped(len, s, n, n - 1);
    }
  }

  /** k pushes into the queue emptied at 2^32 - len; the last may push the counter to 2^32. */
  lemma {:induction false} FillAcross(len: nat, k: nat) returns (s: State)
    requires len > 1 && TWO32 % len != 0 && k <= len < TWO32
    ensures Reached(len, s) && Level(s, len, TWO32 - len + k, TWO32 - len)
  {
    if k == 0 {
      s := PassThrough(len, TWO32 - len);
    } else {
      s := FillAcross(len, k - 1);
      var w, r := TWO32 - len + k - 1, TWO32 - len;
      assert r % len == TWO32 % len by { AddMultiple(r, len, 1); }
      assert !TestsFull(w % TWO32, r % TWO32, len) by {
        DivModUnique(w, TWO32, 0, w);
        DivModUnique(r, TWO32, 0, r);
        if k == len {
          DivModUnique(w + 1, TWO32, 1, 0);
          DivModUnique(0, len, 0, 0);
        } else {
          DivModUnique(w + 1, TWO32, 0, w + 1);
          if (w + 1) % len == r % len { SameSlot(r, w + 1, len); }
        }
      }
      s := Pushed(len, s, w, r);
    }
  }

  lemma {:induction false} DrainToSlotZero(len: nat, k: nat) returns (s: State)
    requires 1 < len < TWO32 && TWO32 % len != 0 && k <= len - TWO32 % len
    ensures Reached(len, s) && Level(s, len, TWO32, TWO32 - len + k)
  {
    if k == 0 {
      s := FillAcross(len, len);
    } else {
      s := DrainToSlotZero(len, k - 1);
      var m, r := TWO32 % len, TWO32 - len + k - 1;
      DivModUnique(r, len, TWO32 / len - 1, m + k - 1) by {
        assert (TWO32 / len - 1) * len == (TWO32 / len) * len - len;
      }
      s := Popped(len, s, TWO32, r);
    }
  }

  /**
   * When len does not divide 2^32 some run overwrites a waiting message: after 2^32 pushes the
   * counters disagree about which slot comes next, and a later push lands on the oldest message.
   */
  lemma LosesAMessage(len: nat) returns (s: State)
    requires 1 < len < TWO32 && TWO32 % len != 0
    ensures Reached(len, s) && !(s.popped <= s.pushed)
  {
    var m := TWO32 % len;
    var s0 := DrainToSlotZero(len, len - m);
    var r := TWO32 - m;
    DivModUnique(r, len, TWO32 / len, 0);
    DivModUnique(1, len, 0, 1);
    DivModUnique(0, len, 0, 0);
    var s1 := PushCall(s0, ONE).0;
    PushRunsAtomicSteps(s0, ONE);
    ReachedRun(len, s0, PushSchedule(s0, ONE));
    s := PopCall(s1).0;
    PopRunsAtomicSteps(s1, 0);
    ReachedRun(len, s1, PopSchedule(s1, 0));
    assert s1.pushed[r] == ZERO && s.popped[r] == ONE;
  }

  /**
   * Main theorem: with one consumer the queue is first-in first-out in every run exactly when its length divides
   * 2^32.
   */
  lemma FifoForeverIffLengthDivides(len: nat)
    requires 0 < len < TWO32
    ensures TWO32 % len == 0 <==>
            forall acts: seq<Action> :: Run(Init(len, 1), acts).popped <= Run(Init(len, 1), acts).pushed
  {
    if TWO32 % len == 0 {
      forall acts: seq<Action> ensures Run(Init(len, 1), acts).popped <= Run(Init(len, 1), acts).pushed {
        SoleConsumerIsFresh(Init(len, 1), acts);
        FirstInFirstOut(len, 1, acts);
      }
    } else {
      var s := LosesAMessage(len);
      var acts :| Run(Init(len, 1), acts) == s;
      assert !(Run(Init(len, 1), acts).popped <= Run(Init(len, 1), acts).pushed);
    }
  }

  /** The send queue (4 slots) is safe for ever, the receive queue (5 slots) is not. */
  lemma DriverQueues()
    ensures forall acts: seq<Action> :: Run(Init(4, 1), acts).popped <= Run(Init(4, 1), acts).pushed
    ensures exists acts: seq<Action> :: !(Run(Init(5, 1), acts).popped <= Run(Init(5, 1), acts).pushed)
  {
    FifoForeverIffLengthDivides(4);
    FifoForeverIffLengthDivides(5);
  }

  /**
   * Emptied after 2^32 - 1 messages, the receive queue is stuck: a push says "full" and a pop says "empty", and
   * neither changes it.
   */
  lemma ReceiveQueueGetsStuck() returns (s: State)
    ensures Reached(5, s) && s.Outstanding() == 0
    ensures forall msg :: PushCall(s, msg) == (s, PushFull)
    ensures PopCall(s) == (s, PopEmpty)
  {
    s := PassThrough(5, TWO32 - 1);
  }

  /** An empty queue, between two calls of the producer and of consumer 1, after n messages. */
  ghost predicate Drained(s: State, n: nat) {
    && 1 < |s.cells| && |s.consumers| == 2 && s.producer == Resting && s.consumers[1] == Idle
    && |s.pushed| == |s.popped| == n && s.writeIndex == s.readIndex == n % TWO32
  }

  lemma TestsInRange(n: nat, len: nat)
    requires len > 1 && InRange(n + 1, len)
    ensures !TestsFull(n % TWO32, n % TWO32, len) && !TestsEmpty(n % TWO32, (n + 1) % TWO32, len)
  {
    WrapOfSuccessor(n);
    NestedMod(n, TWO32, len);
    NestedMod(n + 1, TWO32, len);
    NeighboursDiffer(n, len);
  }

  /** One message through the hands of consumer 1, while consumer 0 stays where it is. */
  lemma OtherTakesOne(s: State, n: nat) returns (acts: seq<Action>)
    requires Drained(s, n) && InRange(n + 1, |s.cells|)
    ensures var t := Run(s, acts); Drained(t, n + 1) && t.consumers == s.consumers && |t.cells| == |s.cells|
  {
    TestsInRange(n, |s.cells|);
    WrapOfSuccessor(n);
    var s1 := PushCall(s, ZERO).0;
    PushRunsAtomicSteps(s, ZERO);
    PopRunsAtomicSteps(s1, 1);
    RunConcat(s, PushSchedule(s, ZERO), PopSchedule(s1, 1));
    acts := PushSchedule(s, ZERO) + PopSchedule(s1, 1);
  }

  lemma {:induction false} OthersPassThrough(s: State, n: nat, k: nat) returns (acts: seq<Action>)
    requires Drained(s, n) && InRange(n + k, |s.cells|)
    ensures var t := Run(s, acts); Drained(t, n + k) && t.consumers == s.consumers && |t.cells| == |s.cells|
    decreases k
  {
    acts := [];
    if k > 0 {
      var one := OtherTakesOne(s, n);
      hide Drained;
      var rest := OthersPassThrough(Run(s, one), n + 1, k - 1);
      RunConcat(s, one, rest);
      acts := one + rest;
    }
  }

  /**
   * With a second consumer an "empty" report can be false: a consumer that stalls between its two reads while
   * the other takes len - 1 messages sees the counters meet modulo len although a message is waiting.
   */
  lemma SecondConsumerFalseEmpty(len: nat) returns (acts: seq<Action>)
    requires 1 < len < TWO32
    ensures var s := Run(Init(len, 2), acts);
            && s.consumers[0].HasRead? && s.Outstanding() == 1
            && Step(s, Consume(0)).1 == PopEmpty
  {
    var s := Init(len, 2);
    var s1 := Step(s, Consume(0)).0;
    assert Run(s, [Consume(0)]) == s1 by { assert Run(s1, []) == s1; }
    DivModUnique(0, TWO32, 0, 0);
    hide Run, TestsFull, TestsEmpty, PushSchedule;
    var pass := OthersPassThrough(s1, 0, len - 1);
    var s2 := Run(s1, pass);
    PushAtLast(s2, len);
    PushRunsAtomicSteps(s2, ZERO);
    var last := PushSchedule(s2, ZERO);
    RunConcat(s, [Consume(0)], pass + last);
    RunConcat(s1, pass, last);
    acts := [Consume(0)] + (pass + last);
  }

  /** After len - 1 messages, the next one makes the counters look as they did at the start. */
  lemma PushAtLast(s: State, len: nat)
    requires 1 < len < TWO32 && |s.cells| == len && Drained(s, len - 1) && s.consumers[0].HasRead?
        && s.consumers[0].r == 0
    ensures var t := PushCall(s, ZERO).0;
            t.consumers == s.consumers && t.Outstanding() == 1 && Step(t, Consume(0)).1 == PopEmpty
  {
    NeighboursDiffer(len - 1, len);
    DivModUnique(len - 1, TWO32, 0, len - 1);
    DivModUnique(len, TWO32, 0, len);
    DivModUnique(len, len, 1, 0);
    DivModUnique(0, len, 0, 0);
  }

  /** A consumer holding message ONE, read at count 0, while consumer 1 has taken it. */
  lemma HoldsTaken(len: nat) returns (acts: seq<Action>)
    requires 1 < len < TWO32
    ensures var s := Run(Init(len, 2), acts);
            Drained(s, 1) && |s.cells| == len && s.consumers[0] == Swapping(0, 0, ONE.kind, ONE.arg)
  {
    var s := Init(len, 2);
    var c := Consume(0);
    TestsBetween(0, len);
    DivModUnique(0, len, 0, 0);
    PushRunsAtomicSteps(s, ONE);
    var s1 := PushCall(s, ONE).0;
    assert s1.cells[0] == ONE && s1.writeIndex == 1;
    var s2 := s1.(consumers := [Swapping(0, 0, ONE.kind, ONE.arg), Idle]);
    SleeperReads(s1, s2);
    PopRunsAtomicSteps(s2, 1);
    RunConcat(s, PushSchedule(s, ONE), Repeat(c, 4) + PopSchedule(s2, 1));
    RunConcat(s1, Repeat(c, 4), PopSchedule(s2, 1));
    acts := PushSchedule(s, ONE) + (Repeat(c, 4) + PopSchedule(s2, 1));
  }

  lemma SleeperReads(s1: State, s2: State)
    requires 1 < |s1.cells| && s1.consumers == [Idle, Idle] && s1.readIndex == 0 && s1.popped == []
        && s1.cells[0] == ONE
    requires !TestsEmpty(0, s1.writeIndex, |s1.cells|)
        && s2 == s1.(consumers := [Swapping(0, 0, ONE.kind, ONE.arg), Idle])
    ensures Run(s1, Repeat(Consume(0), 4)) == s2
  {
    hide Run, TestsEmpty;
    var c := Consume(0);
    DivModUnique(0, |s1.cells|, 0, 0);
    var a1 := s1.(consumers := [HasRead(0, 0), Idle]);
    var a2 := s1.(consumers := [Loading0(0, 0), Idle]);
    var a3 := s1.(consumers := [Loading1(0, 0, ONE.kind), Idle]);
    assert Step(s1, c).0 == a1 && Step(a1, c).0 == a2 && Step(a2, c).0 == a3 && Step(a3, c).0 == s2;
    RunRepeat(s1, c, 4); RunRepeat(a1, c, 3); RunRepeat(a2, c, 2); RunRepeat(a3, c, 1); RunRepeat(s2, c, 0);
  }

  /**
   * The freshness that FirstInFirstOut asks of several consumers is needed: one that sleeps before its swap while the
   * other takes 2^32 messages wakes up to a readIndex that looks unchanged, and returns a message for the second time.
   */
  lemma SleepingConsumerRepeatsMessage(len: nat) returns (acts: seq<Action>)
    requires 1 < len < TWO32 && TWO32 % len == 0
    ensures !(Run(Init(len, 2), acts).popped <= Run(Init(len, 2), acts).pushed)
  {
    var first := HoldsTaken(len);
    var s := Init(len, 2);
    var s1 := Run(s, first);
    var pass := OthersPassThrough(s1, 1, TWO32 - 1);
    var s2 := Run(s1, pass);
    TestsInRange(TWO32, len);
    DivModUnique(TWO32, TWO32, 1, 0);
    PushRunsAtomicSteps(s2, ZERO);
    var s3 := PushCall(s2, ZERO).0;
    var s4 := Step(s3, Consume(0)).0;
    assert s4.popped[TWO32] == ONE && s4.pushed[TWO32] == ZERO;
    assert Run(s3, [Consume(0)]) == s4 by { assert Run(s4, []) == s4; }
    var last := PushSchedule(s2, ZERO);
    RunConcat(s, first, pass + (last + [Consume(0)]));
    RunConcat(s1, pass, last + [Consume(0)]);
    RunConcat(s2, last, [Consume(0)]);
    acts := first + (pass + (last + [Consume(0)]));
  }
}
