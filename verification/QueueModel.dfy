/**
 * The message queue of circ_queue.c, one atomic action per step.
 *
 * One producer and any number of consumers share two 32-bit counters and a
 * ring of two-word cells. `pushed` and `popped` record, in order, the messages
 * whose push and pop succeeded; no step reads them.
 */
module QueueModel {
  import opened Arith

  datatype Msg = Msg(kind: nat, arg: nat)

  /** How far the producer is in push_circ_queue. */
  datatype Producer =
    | Resting
    | HasWrite(msg: Msg, w: nat)
    | Storing0(msg: Msg, w: nat)
    | Storing1(msg: Msg, w: nat)
    | Publishing(msg: Msg)

  /**
   * How far a consumer is in pop_circ_queue. `seen` is the number of pops that had succeeded when it read readIndex.
   */
  datatype Consumer =
    | Idle
    | HasRead(r: nat, seen: nat)
    | Loading0(r: nat, seen: nat)
    | Loading1(r: nat, seen: nat, v0: nat)
    | Swapping(r: nat, seen: nat, v0: nat, v1: nat)

  datatype State = State(
    writeIndex: nat, readIndex: nat, cells: seq<Msg>,
    producer: Producer, consumers: seq<Consumer>,
    pushed: seq<Msg>, popped: seq<Msg>)
  {
    function Outstanding(): int { |pushed| - |popped| }
  }

  datatype Event = Silent | PushOk | PushFull | PopOk | PopEmpty | PopRetry

  datatype Action = Produce(msg: Msg) | Consume(tid: nat)

  /** init_circ_queue: zeroed counters and cells. */
  function Init(len: nat, consumers: nat): State {
    State(0, 0, seq(len, _ => Msg(0, 0)), Resting, seq(consumers, _ => Idle), [], [])
  }

  /** queue_count_to_index. */
  function Slot(count: nat, len: nat): nat
    requires len > 0
  {
    count % len
  }

  predicate TestsFull(w: nat, r: nat, len: nat)
    requires len > 0
  {
    Slot((w + 1) % TWO32, len) == Slot(r, len)
  }

  predicate TestsEmpty(r: nat, w: nat, len: nat)
    requires len > 0
  {
    Slot(r, len) == Slot(w, len)
  }

  /** The next atomic action of push_circ_queue; `msg` is the argument of a call that starts now. */
  function ProducerStep(s: State, msg: Msg): (State, Event)
    requires |s.cells| > 0
  {
    var len := |s.cells|;
    match s.producer
    case Resting => (s.(producer := HasWrite(msg, s.writeIndex)), Silent)
    case HasWrite(m, w) =>
      if TestsFull(w, s.readIndex, len) then (s.(producer := Resting), PushFull)
      else (s.(producer := Storing0(m, w)), Silent)
    case Storing0(m, w) =>
      var i := Slot(w, len);
      (s.(cells := s.cells[i := s.cells[i].(kind := m.kind)], producer := Storing1(m, w)), Silent)
    case Storing1(m, w) =>
      var i := Slot(w, len);
      (s.(cells := s.cells[i := s.cells[i].(arg := m.arg)], producer := Publishing(m)), Silent)
    case Publishing(m) =>
      (s.(writeIndex := (s.writeIndex + 1) % TWO32, producer := Resting, pushed := s.pushed + [m]), PushOk)
  }

  /** The next atomic action of pop_circ_queue in consumer `tid`; a failed swap goes round the loop. */
  function ConsumerStep(s: State, tid: nat): (State, Event)
    requires |s.cells| > 0 && tid < |s.consumers|
  {
    var len := |s.cells|;
    match s.consumers[tid]
    case Idle => (s.(consumers := s.consumers[tid := HasRead(s.readIndex, |s.popped|)]), Silent)
    case HasRead(r, seen) =>
      if TestsEmpty(r, s.writeIndex, len) then (s.(consumers := s.consumers[tid := Idle]), PopEmpty)
      else (s.(consumers := s.consumers[tid := Loading0(r, seen)]), Silent)
    case Loading0(r, seen) =>
      (s.(consumers := s.consumers[tid := Loading1(r, seen, s.cells[Slot(r, len)].kind)]), Silent)
    case Loading1(r, seen, v0) =>
      (s.(consumers := s.consumers[tid := Swapping(r, seen, v0, s.cells[Slot(r, len)].arg)]), Silent)
    case Swapping(r, seen, v0, v1) =>
      if s.readIndex == r then
        (s.(readIndex := (r + 1) % TWO32, consumers := s.consumers[tid := Idle],
          popped := s.popped + [Msg(v0, v1)]), PopOk)
      else (s.(consumers := s.consumers[tid := Idle]), PopRetry)
  }

  function Step(s: State, a: Action): (State, Event)
    requires |s.cells| > 0
  {
    match a
    case Produce(msg) => ProducerStep(s, msg)
    case Consume(tid) => if tid < |s.consumers| then ConsumerStep(s, tid) else (s, Silent)
  }

  /** The state after a schedule. Quantifying over `acts` quantifies over every interleaving. */
  function Run(s: State, acts: seq<Action>): (r: State)
    requires |s.cells| > 0
    ensures |r.cells| == |s.cells| && |r.consumers| == |s.consumers|
    decreases |acts|
  {
    if acts == [] then s else Run(Step(s, acts[0]).0, acts[1..])
  }

  /** A swap is fresh while fewer than 2^32 pops succeeded since its consumer read readIndex. */
  predicate FreshSwap(s: State, a: Action) {
    a.Consume? && a.tid < |s.consumers| && s.consumers[a.tid].Swapping? ==>
      |s.popped| - s.consumers[a.tid].seen < TWO32
  }

  predicate Fresh(s: State, acts: seq<Action>)
    requires |s.cells| > 0
    decreases |acts|
  {
    acts != [] ==> FreshSwap(s, acts[0]) && Fresh(Step(s, acts[0]).0, acts[1..])
  }

  lemma {:induction false} RunConcat(s: State, a: seq<Action>, b: seq<Action>)
    requires |s.cells| > 0
    ensures Run(s, a + b) == Run(Run(s, a), b)
    ensures Fresh(s, a + b) <==> Fresh(s, a) && Fresh(Run(s, a), b)
    decreases |a|
  {
    if a == [] {
      assert a + b == b;
    } else {
      assert (a + b)[0] == a[0] && (a + b)[1..] == a[1..] + b;
      RunConcat(Step(s, a[0]).0, a[1..], b);
    }
  }
}
