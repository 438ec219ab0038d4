/**
 * Safety of the message queue over every interleaving: pops return, in the
 * order of their successful swaps, exactly the messages pushed.
 */
module QueueFifo {
  import opened Arith
  import opened QueueModel

  /** Whether a count of n pushes is still represented faithfully: slots never see the wrap, or it has not happened. */
  predicate InRange(n: nat, len: nat)
    requires len > 0
  {
    TWO32 % len == 0 || n < TWO32
  }

  /** The producer's slot is free. Past the exact range the full test no longer tells. */
  ghost predicate Room(s: State)
    requires |s.cells| > 0
  {
    InRange(|s.pushed| + 1, |s.cells|) ==> s.Outstanding() <= |s.cells| - 2
  }

  ghost predicate ProducerInv(s: State)
    requires |s.cells| > 0
  {
    var free := s.cells[|s.pushed| % |s.cells|];
    match s.producer
    case Resting => true
    case HasWrite(_, w) => w == s.writeIndex
    case Storing0(_, w) => w == s.writeIndex && Room(s)
    case Storing1(m, w) => w == s.writeIndex && Room(s) && free.kind == m.kind
    case Publishing(m) => Room(s) && free == m
  }

  /** What a consumer holds is right as long as nobody has popped since it read readIndex. */
  ghost predicate ConsumerInv(s: State, c: Consumer) {
    c.Idle? ||
    (&& c.seen <= |s.popped|
     && c.r == c.seen % TWO32
     && (c.seen == |s.popped| ==>
           match c
           case HasRead(_, _) => true
           case Loading0(_, _) => c.seen < |s.pushed|
           case Loading1(_, _, v0) => c.seen < |s.pushed| && v0 == s.pushed[c.seen].kind
           case Swapping(_, _, v0, v1) => c.seen < |s.pushed| && Msg(v0, v1) == s.pushed[c.seen]))
  }

  ghost predicate RingInv(s: State) {
    var len := |s.cells|;
    && len > 0
    && 0 <= s.Outstanding() <= len - 1
    && s.writeIndex == |s.pushed| % TWO32
    && s.readIndex == |s.popped| % TWO32
    && s.popped <= s.pushed
    && (forall k | |s.popped| <= k < |s.pushed| :: s.cells[k % len] == s.pushed[k])
  }

  ghost predicate Inv(s: State) {
    && RingInv(s)
    && ProducerInv(s)
    && (forall c | 0 <= c < |s.consumers| :: ConsumerInv(s, s.consumers[c]))
  }

  lemma WrapOfSuccessor(n: nat)
    ensures (n % TWO32 + 1) % TWO32 == (n + 1) % TWO32
  {
    assert n + 1 == n % TWO32 + 1 + (n / TWO32) * TWO32;
    AddMultiple(n % TWO32 + 1, TWO32, n / TWO32);
  }

  /** While the counts are in range, "full" is reported exactly when len - 1 messages are outstanding. */
  lemma FullTestExact(s: State)
    requires RingInv(s) && InRange(|s.pushed| + 1, |s.cells|)
    ensures TestsFull(s.writeIndex, s.readIndex, |s.cells|) <==> s.Outstanding() == |s.cells| - 1
  {
    var len, w, r := |s.cells|, |s.pushed|, |s.popped|;
    WrapOfSuccessor(w);
    NestedMod(w + 1, TWO32, len);
    NestedMod(r, TWO32, len);
    if (w + 1) % len == r % len {
      if w + 1 - r < len { SameSlot(r, w + 1, len); }
    } else if w + 1 - r == len {
      AddMultiple(r, len, 1);
    }
  }

  /** Cells of outstanding messages are addressed by the wrapped counters. */
  lemma SlotInRange(s: State, n: nat)
    requires RingInv(s) && n <= |s.pushed| && InRange(|s.pushed|, |s.cells|)
    ensures Slot(n % TWO32, |s.cells|) == n % |s.cells|
  {
    NestedMod(n, TWO32, |s.cells|);
  }

  lemma FreeSlot(s: State)
    requires RingInv(s)
    ensures forall k | |s.popped| <= k < |s.pushed| :: k % |s.cells| != |s.pushed| % |s.cells|
  {
    forall k | |s.popped| <= k < |s.pushed| ensures k % |s.cells| != |s.pushed| % |s.cells| {
      if k % |s.cells| == |s.pushed| % |s.cells| { SameSlot(k, |s.pushed|, |s.cells|); }
    }
  }

  /** Storing a word in the free slot leaves the waiting messages alone. */
  lemma StoreKeepsRing(s: State, n: State, m: Msg)
    requires RingInv(s) && n == s.(cells := s.cells[|s.pushed| % |s.cells| := m], producer := n.producer)
    ensures RingInv(n) && n.cells[|n.pushed| % |n.cells|] == m
  {
    FreeSlot(s);
  }

  /** Publishing the message in the free slot makes it the last waiting one. */
  lemma PublishKeepsRing(s: State, n: State, m: Msg)
    requires RingInv(s) && s.Outstanding() <= |s.cells| - 2 && s.cells[|s.pushed| % |s.cells|] == m
    requires n == s.(writeIndex := (s.writeIndex + 1) % TWO32, producer := Resting, pushed := s.pushed + [m])
    ensures RingInv(n)
  {
    WrapOfSuccessor(|s.pushed|);
    assert forall k | |s.popped| <= k < |s.pushed| :: n.pushed[k] == s.pushed[k];
  }

  lemma ProducerStepKeepsInv(s: State, msg: Msg)
    requires Inv(s)
    requires InRange(|ProducerStep(s, msg).0.pushed|, |s.cells|)
    ensures Inv(ProducerStep(s, msg).0)
  {
    var n := ProducerStep(s, msg).0;
    SlotInRange(s, |s.pushed|);
    match s.producer {
      case Resting =>
      case HasWrite(_, _) => if InRange(|s.pushed| + 1, |s.cells|) { FullTestExact(s); }
      case Storing0(m, w) => StoreKeepsRing(s, n, s.cells[Slot(w, |s.cells|)].(kind := m.kind));
      case Storing1(m, w) => StoreKeepsRing(s, n, s.cells[Slot(w, |s.cells|)].(arg := m.arg));
      case Publishing(m) => PublishKeepsRing(s, n, m);
    }
    hide RingInv, ConsumerInv, TestsFull;
  }

  /** The swap of a consumer whose snapshot is stale fails, so only a correct message is ever returned. */
  lemma SwapSucceedsOnlyIfCurrent(s: State, tid: nat)
    requires Inv(s) && tid < |s.consumers| && s.consumers[tid].Swapping?
    requires FreshSwap(s, Consume(tid))
    ensures s.readIndex == s.consumers[tid].r <==> s.consumers[tid].seen == |s.popped|
  {
    var c := s.consumers[tid];
    assert ConsumerInv(s, c);
    if s.readIndex == c.r { SameSlot(c.seen, |s.popped|, TWO32); }
  }

  /** A successful pop takes the oldest waiting message. */
  lemma PopKeepsRing(s: State, n: State, m: Msg)
    requires RingInv(s) && s.Outstanding() > 0 && m == s.pushed[|s.popped|]
    requires n == s.(readIndex := (s.readIndex + 1) % TWO32, consumers := n.consumers, popped := s.popped + [m])
    ensures RingInv(n)
  {
    WrapOfSuccessor(|s.popped|);
  }

  lemma ConsumerStepKeepsInv(s: State, tid: nat)
    requires Inv(s) && tid < |s.consumers|
    requires InRange(|s.pushed|, |s.cells|)
    requires FreshSwap(s, Consume(tid))
    ensures Inv(ConsumerStep(s, tid).0)
  {
    var s' := ConsumerStep(s, tid).0;
    var me := s.consumers[tid];
    assert ConsumerInv(s, me);
    SlotInRange(s, |s.popped|);
    SlotInRange(s, |s.pushed|);
    if me.Swapping? {
      SwapSucceedsOnlyIfCurrent(s, tid);
      if s.readIndex == me.r { PopKeepsRing(s, s', Msg(me.v0, me.v1)); }
    }
    assert RingInv(s');
    forall c | 0 <= c < |s'.consumers| ensures ConsumerInv(s', s'.consumers[c]) {
      assert ConsumerInv(s, s.consumers[c]);
    }
  }

  lemma StepKeepsInv(s: State, a: Action)
    requires Inv(s) && FreshSwap(s, a)
    requires InRange(|Step(s, a).0.pushed|, |s.cells|)
    ensures Inv(Step(s, a).0)
  {
    match a
    case Produce(msg) => ProducerStepKeepsInv(s, msg);
    case Consume(tid) => if tid < |s.consumers| { ConsumerStepKeepsInv(s, tid); }
  }

  /**
   * What a step reports is what it does: the message of the push under way is queued, or one is taken, or neither; a
   * report ends the call, and nothing else does.
   */
  lemma EventsTell(s: State, a: Action)
    requires |s.cells| > 0
    ensures var (n, e) := Step(s, a);
            && (e == PushOk <==> |n.pushed| == |s.pushed| + 1) && (e == PopOk <==> |n.popped| == |s.popped| + 1)
            && (e == PushOk ==> s.producer.Publishing? && n.pushed == s.pushed + [s.producer.msg])
            && (e != PushOk ==> n.pushed == s.pushed) && (e != PopOk ==> n.popped == s.popped)
            && (a.Produce? ==> (e.Silent? <==> !n.producer.Resting?) && (e.Silent? || e.PushOk? || e.PushFull?))
            && (a.Consume? && a.tid < |s.consumers| ==>
                  (e.Silent? <==> !n.consumers[a.tid].Idle?) && !e.PushOk? && !e.PushFull?)
  {}

  lemma {:induction false} PushedOnlyGrows(s: State, acts: seq<Action>)
    requires |s.cells| > 0
    ensures s.pushed <= Run(s, acts).pushed
    decreases |acts|
  {
    if acts != [] { PushedOnlyGrows(Step(s, acts[0]).0, acts[1..]); }
  }

  lemma {:induction false} RunKeepsInv(s: State, acts: seq<Action>)
    requires Inv(s) && Fresh(s, acts)
    requires InRange(|Run(s, acts).pushed|, |s.cells|)
    ensures Inv(Run(s, acts))
    decreases |acts|
  {
    if acts != [] {
      var s' := Step(s, acts[0]).0;
      PushedOnlyGrows(s', acts[1..]);
      StepKeepsInv(s, acts[0]);
      RunKeepsInv(s', acts[1..]);
    }
  }

  /**
   * Main theorem: in every interleaving nothing is lost, duplicated, reordered or torn, and at most len - 1 messages
   * wait.
   */
  lemma FirstInFirstOut(len: nat, consumers: nat, acts: seq<Action>)
    requires len > 0 && Fresh(Init(len, consumers), acts)
    requires InRange(|Run(Init(len, consumers), acts).pushed|, len)
    ensures var s := Run(Init(len, consumers), acts);
            && s.popped <= s.pushed
            && s.Outstanding() <= len - 1
            && (forall k | |s.popped| <= k < |s.pushed| :: s.cells[k % len] == s.pushed[k])
  {
    RunKeepsInv(Init(len, consumers), acts);
  }

  /** A push reports "full" exactly when len - 1 messages are outstanding at its read of readIndex. */
  lemma FullReportIsTrue(len: nat, consumers: nat, acts: seq<Action>, msg: Msg)
    requires len > 0 && Fresh(Init(len, consumers), acts)
    requires InRange(|Run(Init(len, consumers), acts).pushed| + 1, len)
    requires Run(Init(len, consumers), acts).producer.HasWrite?
    ensures var s := Run(Init(len, consumers), acts);
            Step(s, Produce(msg)).1 == PushFull <==> s.Outstanding() == len - 1
  {
    RunKeepsInv(Init(len, consumers), acts);
    FullTestExact(Run(Init(len, consumers), acts));
  }

  /**
   * A pop reports "empty" exactly when a multiple of len messages were pushed since the pop this consumer
   * started from; that is the empty queue exactly when no other consumer got in between.
   */
  lemma EmptyReport(len: nat, consumers: nat, acts: seq<Action>, tid: nat)
    requires len > 0 && tid < consumers && Fresh(Init(len, consumers), acts)
    requires InRange(|Run(Init(len, consumers), acts).pushed|, len)
    requires Run(Init(len, consumers), acts).consumers[tid].HasRead?
    ensures var s := Run(Init(len, consumers), acts); var seen := s.consumers[tid].seen;
            && seen <= |s.popped|
            && (Step(s, Consume(tid)).1 == PopEmpty <==> (|s.pushed| - seen) % len == 0)
            && (seen == |s.popped| ==> (Step(s, Consume(tid)).1 == PopEmpty <==> s.Outstanding() == 0))
  {
    var s := Run(Init(len, consumers), acts);
    RunKeepsInv(Init(len, consumers), acts);
    var seen := s.consumers[tid].seen;
    assert ConsumerInv(s, s.consumers[tid]);
    SlotInRange(s, seen);
    SlotInRange(s, |s.pushed|);
    SameResidue(seen, |s.pushed|, len);
    if seen == |s.popped| && s.Outstanding() > 0 { DivModUnique(s.Outstanding(), len, 0, s.Outstanding()); }
  }

  lemma SameResidue(a: nat, b: nat, n: nat)
    requires n > 0 && a <= b
    ensures a % n == b % n <==> (b - a) % n == 0
  {
    assert b - a == (b / n - a / n) * n + (b % n - a % n) by {
      assert a == (a / n) * n + a % n && b == (b / n) * n + b % n;
      assert (b / n - a / n) * n == (b / n) * n - (a / n) * n;
    }
    if a % n == b % n {
      DivModUnique(b - a, n, b / n - a / n, 0);
    } else if (b - a) % n == 0 {
      var q := (b - a) / n;
      assert b - a == q * n;
      AddMultiple(a, n, q);
    }
  }

  /** With a single consumer nobody else pops, so its snapshot never goes stale. */
  ghost predicate Current(s: State) {
    |s.cells| > 0 && |s.consumers| == 1 && (s.consumers[0].Idle? || s.consumers[0].seen == |s.popped|)
  }

  lemma {:induction false} SoleConsumerIsFresh(s: State, acts: seq<Action>)
    requires Current(s)
    ensures Current(Run(s, acts)) && Fresh(s, acts)
    decreases |acts|
  {
    if acts != [] { SoleConsumerIsFresh(Step(s, acts[0]).0, acts[1..]); }
  }

  lemma SoleConsumerEmptyIsTrue(len: nat, acts: seq<Action>)
    requires len > 0
    requires InRange(|Run(Init(len, 1), acts).pushed|, len)
    requires Run(Init(len, 1), acts).consumers[0].HasRead?
    ensures var s := Run(Init(len, 1), acts);
            Step(s, Consume(0)).1 == PopEmpty <==> s.Outstanding() == 0
  {
    SoleConsumerIsFresh(Init(len, 1), acts);
    EmptyReport(len, 1, acts, 0);
  }
}
