/**
 * From the interrupt handler to chnl_recv: the handler pushes messages while the transfer pops them, one atomic
 * action at a time, and each message popped is one turn of the transfer's loop.
 */
module RecvPath {
  import opened Arith
  import opened Wrappers
  import Q = QueueModel
  import QueueFifo
  import Transfers
  import R = RecvTransfer

  /**
   * The queue, the transfer, and as history: the messages whose push has ended, successfully or not, how many of them
   * were lost, what the transfer has been woken up by, how many messages it has popped and not looked at, and the
   * actions on the queue.
   */
  datatype State = State(
    queue: Q.State, recv: R.Recv, raised: seq<Q.Msg>, lost: nat, heard: seq<Transfers.Input>, unread: nat,
    schedule: seq<Q.Action>)

  /**
   * An action of the handler, of the transfer's pop (with the pages pinned should it lead to a fill), or a wait that
   * ends otherwise. `signalled`: should this action end a pop, it is that of the last look before going to sleep (line
   * 606), and a signal is pending; the signal is served and the message is not.
   */
  datatype Action = Push(msg: Q.Msg) | Pop(grant: int, signalled: bool) | Wake(timedOut: bool)

  function Start(c: R.Call): State {
    State(Q.Init(5, 1), R.Start(c), [], 0, [], 0, [])
  }

  /** The message of the push that is under way. */
  function Pushing(p: Q.Producer): seq<Q.Msg> {
    match p
    case Resting => []
    case HasWrite(m, _) => [m]
    case Storing0(m, _) => [m]
    case Storing1(m, _) => [m]
    case Publishing(m) => [m]
  }

  function Hear(d: Transfers.Device, c: R.Call, s: State, i: Transfers.Input): State {
    s.(recv := R.Step(d, c, s.recv, i), heard := s.heard + [i])
  }

  function Step(d: Transfers.Device, c: R.Call, s: State, a: Action): (n: State)
    requires |s.queue.cells| > 0 && |s.queue.consumers| == 1
    ensures |n.queue.cells| == |s.queue.cells| && |n.queue.consumers| == 1
  {
    match a
    case Push(msg) =>
      var (q, e) := Q.ProducerStep(s.queue, msg);
      s.(queue := q, schedule := s.schedule + [Q.Produce(msg)],
         raised := s.raised + (if e.PushOk? || e.PushFull? then Pushing(s.queue.producer) else []),
         lost := s.lost + if e.PushFull? then 1 else 0)
    case Pop(grant, signalled) =>
      if s.recv.returned.Some? then s
      else
        var (q, e) := Q.ConsumerStep(s.queue, 0);
        var n := s.(queue := q, schedule := s.schedule + [Q.Consume(0)]);
        if e.PopOk? && q.popped != [] then
          if signalled then Hear(d, c, n, Transfers.Input(Transfers.Signalled, 0)).(unread := 1)
          else
            var m := q.popped[|q.popped| - 1];
            Hear(d, c, n, Transfers.Input(Transfers.Message(m.kind, m.arg), grant))
        else n
    case Wake(timedOut) =>
      if s.recv.returned.Some? || !s.queue.consumers[0].Idle? then s
      else Hear(d, c, s, Transfers.Input(if timedOut then Transfers.TimedOut else Transfers.Signalled, 0))
  }

  function Run(d: Transfers.Device, c: R.Call, s: State, actions: seq<Action>): (n: State)
    requires |s.queue.cells| > 0 && |s.queue.consumers| == 1
    ensures |n.queue.cells| == |s.queue.cells| && |n.queue.consumers| == 1
    decreases |actions|
  {
    if actions == [] then s else Run(d, c, Step(d, c, s, actions[0]), actions[1..])
  }

  /** The messages among the wake-ups. */
  function Messages(heard: seq<Transfers.Input>): seq<Q.Msg> {
    if heard == [] then []
    else
      var last := heard[|heard| - 1].wake;
      Messages(heard[..|heard| - 1]) + if last.Message? then [Q.Msg(last.kind, last.arg)] else []
  }

  ghost predicate Inv(d: Transfers.Device, c: R.Call, s: State) {
    && s.queue == Q.Run(Q.Init(5, 1), s.schedule)
    && s.recv == R.Run(d, c, R.Start(c), s.heard)
    && s.unread <= |s.queue.popped| && Messages(s.heard) == s.queue.popped[..|s.queue.popped| - s.unread]
    && (s.unread > 0 ==> s.unread == 1 && s.recv.returned == Some(Transfers.Restart))
    && (s.lost == 0 ==> s.raised == s.queue.pushed) && |s.raised| == |s.queue.pushed| + s.lost
  }

  lemma HearKeeps(d: Transfers.Device, c: R.Call, s: State, i: Transfers.Input)
    requires s.recv == R.Run(d, c, R.Start(c), s.heard)
    ensures var n := Hear(d, c, s, i);
            && n.recv == R.Run(d, c, R.Start(c), n.heard)
            && Messages(n.heard) == Messages(s.heard) + if i.wake.Message? then [Q.Msg(i.wake.kind, i.wake.arg)] else []
  {
    hide R.Step;
    R.RunConcat(d, c, R.Start(c), s.heard, [i]);
    assert [i][1..] == [];
    assert R.Run(d, c, s.recv, [i]) == R.Run(d, c, R.Step(d, c, s.recv, i), []) == R.Step(d, c, s.recv, i);
    assert (s.heard + [i])[..|s.heard|] == s.heard;
  }

  lemma QueueStep(s: Q.State, schedule: seq<Q.Action>, a: Q.Action)
    requires s == Q.Run(Q.Init(5, 1), schedule)
    ensures Q.Step(s, a).0 == Q.Run(Q.Init(5, 1), schedule + [a])
  {
    hide Q.Step;
    Q.RunConcat(Q.Init(5, 1), schedule, [a]);
    assert [a][1..] == [];
    assert Q.Run(s, [a]) == Q.Run(Q.Step(s, a).0, []) == Q.Step(s, a).0;
  }

  lemma PushKeepsInv(d: Transfers.Device, c: R.Call, s: State, msg: Q.Msg)
    requires Inv(d, c, s)
    ensures Inv(d, c, Step(d, c, s, Push(msg)))
  {
    QueueStep(s.queue, s.schedule, Q.Produce(msg));
    hide R.Run, Q.Run, Messages;
    assert s.raised + [] == s.raised;
  }

  /** A message has been popped, and the call has heard it or a signal. */
  lemma PoppedKeeps(d: Transfers.Device, c: R.Call, s: State, n: State, m: Q.Msg, i: Transfers.Input)
    requires Inv(d, c, s) && s.recv.returned.None?
    requires n == s.(queue := n.queue, schedule := n.schedule) && n.queue == Q.Run(Q.Init(5, 1), n.schedule)
    requires n.queue.pushed == s.queue.pushed && n.queue.popped == s.queue.popped + [m]
    requires i.wake == Transfers.Signalled || i.wake == Transfers.Message(m.kind, m.arg)
    ensures Inv(d, c, Hear(d, c, n, i).(unread := if i.wake.Signalled? then 1 else s.unread))
  {
    HearKeeps(d, c, n, i);
    if i.wake.Signalled? { SignalEnds(d, c, n, i); }
    hide R.Run, Q.Run, Messages, R.Step, R.Start;
    assert n.queue.popped[..|n.queue.popped| - 1] == s.queue.popped == s.queue.popped[..|s.queue.popped|];
  }

  lemma PopKeepsInv(d: Transfers.Device, c: R.Call, s: State, grant: int, signalled: bool)
    requires Inv(d, c, s)
    ensures Inv(d, c, Step(d, c, s, Pop(grant, signalled)))
  {
    if s.recv.returned.None? {
      QueueStep(s.queue, s.schedule, Q.Consume(0));
      PopEffect(s.queue);
      var (q, e) := Q.ConsumerStep(s.queue, 0);
      var n := s.(queue := q, schedule := s.schedule + [Q.Consume(0)]);
      hide R.Run, Q.Run, Messages, Q.ConsumerStep, R.Step, R.Start, Hear;
      if e.PopOk? {
        var m := q.popped[|q.popped| - 1];
        PoppedKeeps(d, c, s, n, m, if signalled then Transfers.Input(Transfers.Signalled, 0)
          else Transfers.Input(Transfers.Message(m.kind, m.arg), grant));
        HearKeepsUnread(d, c, n, Transfers.Input(Transfers.Message(m.kind, m.arg), grant));
      }
    }
  }

  lemma HearKeepsUnread(d: Transfers.Device, c: R.Call, s: State, i: Transfers.Input)
    ensures Hear(d, c, s, i) == Hear(d, c, s, i).(unread := s.unread)
  {}

  lemma SignalEnds(d: Transfers.Device, c: R.Call, s: State, i: Transfers.Input)
    requires s.recv.returned.None? && i.wake.Signalled?
    ensures Hear(d, c, s, i).recv.returned == Some(Transfers.Restart)
  {}

  /** Only a successful pop changes what has been popped, and it adds one message. */
  lemma PopEffect(s: Q.State)
    requires |s.cells| > 0 && |s.consumers| == 1
    ensures var (q, e) := Q.ConsumerStep(s, 0);
            && q.pushed == s.pushed
            && (e.PopOk? ==> q.popped != [] && q.popped == s.popped + [q.popped[|q.popped| - 1]])
            && (!e.PopOk? ==> q.popped == s.popped)
  {}

  lemma StepKeepsInv(d: Transfers.Device, c: R.Call, s: State, a: Action)
    requires Inv(d, c, s)
    ensures Inv(d, c, Step(d, c, s, a))
  {
    match a
    case Push(msg) => PushKeepsInv(d, c, s, msg);
    case Pop(grant, signalled) => PopKeepsInv(d, c, s, grant, signalled);
    case Wake(timedOut) =>
      hide Messages, R.Run, Q.Run;
      HearKeeps(d, c, s, Transfers.Input(if timedOut then Transfers.TimedOut else Transfers.Signalled, 0));
  }

  lemma {:induction false} RunKeepsInv(d: Transfers.Device, c: R.Call, s: State, actions: seq<Action>)
    requires Inv(d, c, s)
    ensures Inv(d, c, Run(d, c, s, actions))
    decreases |actions|
  {
    if actions != [] {
      hide Step;
      StepKeepsInv(d, c, s, actions[0]);
      RunKeepsInv(d, c, Step(d, c, s, actions[0]), actions[1..]);
    }
  }

  /** Whenever a push looks at readIndex, fewer than four messages wait. */
  predicate NeverFull(d: Transfers.Device, c: R.Call, s: State, actions: seq<Action>)
    requires |s.queue.cells| > 0 && |s.queue.consumers| == 1
    decreases |actions|
  {
    actions != [] ==>
      && (actions[0].Push? && s.queue.producer.HasWrite? ==> s.queue.Outstanding() < 4)
      && NeverFull(d, c, Step(d, c, s, actions[0]), actions[1..])
  }

  lemma StepGrows(d: Transfers.Device, c: R.Call, s: State, a: Action)
    requires |s.queue.cells| > 0 && |s.queue.consumers| == 1
    ensures |s.queue.pushed| <= |Step(d, c, s, a).queue.pushed| && s.lost <= Step(d, c, s, a).lost
  {}

  lemma {:induction false} PushedOnlyGrows(d: Transfers.Device, c: R.Call, s: State, actions: seq<Action>)
    requires |s.queue.cells| > 0 && |s.queue.consumers| == 1
    ensures |s.queue.pushed| <= |Run(d, c, s, actions).queue.pushed| && s.lost <= Run(d, c, s, actions).lost
    decreases |actions|
  {
    if actions != [] {
      StepGrows(d, c, s, actions[0]);
      hide Step;
      PushedOnlyGrows(d, c, Step(d, c, s, actions[0]), actions[1..]);
    }
  }

  /** A push is lost exactly when four messages wait at that moment. */
  lemma LostIff(d: Transfers.Device, c: R.Call, s: State, a: Action)
    requires Inv(d, c, s) && |s.queue.pushed| + 1 < TWO32
    ensures Step(d, c, s, a).lost == s.lost <==> (a.Push? && s.queue.producer.HasWrite? ==> s.queue.Outstanding() < 4)
  {
    if a.Push? && s.queue.producer.HasWrite? {
      FreshAlways(s.schedule);
      QueueFifo.FirstInFirstOut(5, 1, s.schedule);
      QueueFifo.FullReportIsTrue(5, 1, s.schedule, a.msg);
    }
    hide Inv, Q.Run, R.Run;
  }

  lemma FreshAlways(schedule: seq<Q.Action>)
    ensures Q.Fresh(Q.Init(5, 1), schedule)
  {
    QueueFifo.SoleConsumerIsFresh(Q.Init(5, 1), schedule);
  }

  lemma {:induction false} NothingLostIff(d: Transfers.Device, c: R.Call, s: State, actions: seq<Action>)
    requires Inv(d, c, s) && |Run(d, c, s, actions).queue.pushed| + 1 < TWO32
    ensures Run(d, c, s, actions).lost == s.lost <==> NeverFull(d, c, s, actions)
    decreases |actions|
  {
    if actions != [] {
      hide Step, Inv;
      var n := Step(d, c, s, actions[0]);
      StepKeepsInv(d, c, s, actions[0]);
      PushedOnlyGrows(d, c, s, [actions[0]]);
      assert [actions[0]][1..] == [] && Run(d, c, s, [actions[0]]) == Run(d, c, n, []) == n;
      PushedOnlyGrows(d, c, n, actions[1..]);
      LostIff(d, c, s, actions[0]);
      NothingLostIff(d, c, n, actions[1..]);
    }
  }

  /**
   * Main theorem: in every interleaving of handler and transfer within the first 2^32 - 1 messages, the transfer has
   * processed a prefix of the messages queued, in order and nothing else, and has left behind the at most four that
   * wait, and one more if a signal ended the call right after a pop; and none of the messages raised is missing
   * exactly when no push found four of them waiting.
   */
  lemma ProcessesWhatWasRaised(d: Transfers.Device, c: R.Call, actions: seq<Action>)
    requires |Run(d, c, Start(c), actions).queue.pushed| + 1 < TWO32
    ensures var s := Run(d, c, Start(c), actions);
            && s.recv == R.Run(d, c, R.Start(c), s.heard)
            && Messages(s.heard) <= s.queue.pushed
            && |s.queue.pushed| - |Messages(s.heard)| == s.queue.Outstanding() + s.unread
            && 0 <= s.queue.Outstanding() <= 4 && s.unread <= 1
            && (s.unread == 1 ==> s.recv.returned == Some(Transfers.Restart))
            && (s.lost == 0 <==> NeverFull(d, c, Start(c), actions))
            && (s.lost == 0 ==> Messages(s.heard) <= s.raised) && |s.raised| == |s.queue.pushed| + s.lost
  {
    RunKeepsInv(d, c, Start(c), actions);
    var s := Run(d, c, Start(c), actions);
    FreshAlways(s.schedule);
    QueueFifo.FirstInFirstOut(5, 1, s.schedule);
    NothingLostIff(d, c, Start(c), actions);
  }

  /**
   * A time-out or a signal ends a running call that is waiting, with the count so far or -ERESTARTSYS, and leaves the
   * queue alone; it does nothing to a call that is popping a message, or over.
   */
  lemma WakeEnds(d: Transfers.Device, c: R.Call, s: State, timedOut: bool)
    requires |s.queue.cells| > 0 && |s.queue.consumers| == 1
    ensures var n := Step(d, c, s, Wake(timedOut));
            && n.queue == s.queue && n.raised == s.raised
            && (if s.recv.returned.None? && s.queue.consumers[0].Idle?
                then n.recv.returned ==
                       Some(if timedOut then Transfers.Words(s.recv.recvd / 4) else Transfers.Restart)
                else n == s)
  {}

  lemma {:induction false} RunRepeated(d: Transfers.Device, c: R.Call, s: State, a: Action, k: nat)
    requires |s.queue.cells| > 0 && |s.queue.consumers| == 1 && k > 0
    ensures Run(d, c, s, seq(k, _ => a)) == Run(d, c, Step(d, c, s, a), seq(k - 1, _ => a))
  {
    assert seq(k, _ => a)[1..] == seq(k - 1, _ => a);
  }

  /** A push that nothing disturbs, into the empty queue of a new call. */
  lemma FirstPush(d: Transfers.Device, c: R.Call, msg: Q.Msg) returns (n: State)
    ensures n == Run(d, c, Start(c), seq(5, _ => Push(msg)))
    ensures n.queue == Q.State(1, 0, n.queue.cells, Q.Resting, [Q.Idle], [msg], []) && |n.queue.cells| == 5
    ensures n.recv == R.Start(c) && n.heard == [] && n.unread == 0 && n.lost == 0 && n.raised == [msg]
    ensures n.queue.cells[0] == msg
  {
    hide Run, R.Start;
    var a, s := Push(msg), Start(c);
    var s1 := Step(d, c, s, a);
    var s2 := Step(d, c, s1, a);
    var s3 := Step(d, c, s2, a);
    var s4 := Step(d, c, s3, a);
    n := Step(d, c, s4, a);
    RunRepeated(d, c, s, a, 5);
    RunRepeated(d, c, s1, a, 4);
    RunRepeated(d, c, s2, a, 3);
    RunRepeated(d, c, s3, a, 2);
    RunRepeated(d, c, s4, a, 1);
    RunNone(d, c, n);
    assert seq(0, _ => a) == [];
  }

  lemma RunNone(d: Transfers.Device, c: R.Call, s: State)
    requires |s.queue.cells| > 0 && |s.queue.consumers| == 1
    ensures Run(d, c, s, []) == s
  {}

  /** A signal that is pending when the last look before sleeping finds a message: the message is popped and lost. */
  lemma SignalLosesMessage(d: Transfers.Device, c: R.Call, msg: Q.Msg)
    ensures var s := Run(d, c, Run(d, c, Start(c), seq(5, _ => Push(msg))), seq(5, _ => Pop(0, true)));
            && s.queue.pushed == s.queue.popped == [msg] && Messages(s.heard) == []
            && s.recv.returned == Some(Transfers.Restart)
  {
    var n := FirstPush(d, c, msg);
    var a := Pop(0, true);
    hide Run, Messages;
    var s1 := Step(d, c, n, a);
    var s2 := Step(d, c, s1, a);
    var s3 := Step(d, c, s2, a);
    assert s3.queue == n.queue.(consumers := [Q.Loading1(0, 0, msg.kind)]) && s3.recv == n.recv && s3.heard == [];
    var s4 := Step(d, c, s3, a);
    var s5 := Step(d, c, s4, a);
    assert s5.queue.pushed == s5.queue.popped == [msg] && s5.recv.returned == Some(Transfers.Restart);
    NoMessage();
    assert s5.heard == [Transfers.Input(Transfers.Signalled, 0)];
    hide Step;
    RunRepeated(d, c, n, a, 5);
    RunRepeated(d, c, s1, a, 4);
    RunRepeated(d, c, s2, a, 3);
    RunRepeated(d, c, s3, a, 2);
    RunRepeated(d, c, s4, a, 1);
    RunNone(d, c, s5);
    assert seq(0, _ => a) == [];
  }

  lemma NoMessage()
    ensures Messages([Transfers.Input(Transfers.Signalled, 0)]) == []
  {
    assert [Transfers.Input(Transfers.Signalled, 0)][..0] == [];
  }
}
