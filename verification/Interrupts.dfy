/** process_intr_vector and intrpt_handler of riffa_driver.c: from interrupt bits to queued messages. */
module Interrupts {
  import opened Arith
  import opened QueueModel
  import opened QueueFifo
  import opened QueueWrap
  import Transfers

  /** The four registers of a channel that an interrupt may read. */
  datatype ChnlRegs = ChnlRegs(txTransferred: nat, txOffLast: nat, txLen: nat, rxTransferred: nat)

  predicate Meets(vect: bv32, mask: bv32) { vect & mask != 0 }

  predicate Bit(vect: bv32, k: nat)
    requires k < 32
  {
    Meets(vect, (1 as bv32) << k)
  }

  function When(b: bool, msgs: seq<Msg>): seq<Msg> { if b then msgs else [] }

  /** The messages for the receive side of the i-th channel of a vector, in the order they are pushed. */
  function RecvEvents(vect: bv32, i: nat, regs: ChnlRegs): seq<Msg>
    requires i < 6
  {
    When(Bit(vect, 5 * i + 1), [Msg(Transfers.SG_BUF_READ, 0)])
    + When(Bit(vect, 5 * i + 2), [Msg(Transfers.TXN_DONE, regs.txTransferred)])
    + When(Bit(vect, 5 * i), [Msg(Transfers.TXN_OFFLAST, regs.txOffLast), Msg(Transfers.TXN_LEN, regs.txLen)])
  }

  function SendEvents(vect: bv32, i: nat, regs: ChnlRegs): seq<Msg>
    requires i < 6
  {
    When(Bit(vect, 5 * i + 3), [Msg(Transfers.SG_BUF_READ, 0)])
    + When(Bit(vect, 5 * i + 4), [Msg(Transfers.TXN_DONE, regs.rxTransferred)])
  }

  /** Pushes in order; a full queue drops the message. */
  function PushAll(q: State, msgs: seq<Msg>): (r: State)
    requires |q.cells| > 0
    ensures |r.cells| == |q.cells|
    decreases |msgs|
  {
    if msgs == [] then q else PushAll(PushCall(q, msgs[0]).0, msgs[1..])
  }

  /** Positions 30 and 31 of a vector must be zero. */
  predicate Well(vect: bv32) { vect & 0xC000_0000 == 0 }

  predicate Handles(vect: bv32, off: nat, chnl: nat) {
    Well(vect) && off <= chnl < off + 6
  }

  /** One channel: the queues its two directions are fed through, and how often their threads were woken. */
  datatype Chnl = Chnl(recv: State, send: State, recvWakes: nat, sendWakes: nat) {
    predicate Valid() { |recv.cells| > 0 && |send.cells| > 0 }
  }

  /** What the five bits of the i-th channel of a vector do. */
  function Served(ch: Chnl, vect: bv32, i: nat, regs: ChnlRegs): (r: Chnl)
    requires ch.Valid() && i < 6
    ensures r.Valid()
  {
    var r, t := RecvEvents(vect, i, regs), SendEvents(vect, i, regs);
    Chnl(PushAll(ch.recv, r), PushAll(ch.send, t),
         ch.recvWakes + if r != [] then 1 else 0, ch.sendWakes + if t != [] then 1 else 0)
  }

  /** What one vector does to channel c. */
  function AfterVector(ch: Chnl, vect: bv32, off: nat, c: nat, regs: ChnlRegs): Chnl
    requires ch.Valid()
  {
    if Handles(vect, off, c) then Served(ch, vect, c - off, regs) else ch
  }

  // ---- Bits ----

  lemma MaskDistributes(a: bv32, b: bv32, mask: bv32)
    ensures (a | b) & mask == (a & mask) | (b & mask)
  {}

  lemma UnionIsZero(a: bv32, b: bv32)
    ensures a | b == 0 <==> a == 0 && b == 0
  {}

  lemma MeetsUnion(a: bv32, b: bv32, mask: bv32)
    ensures !Meets(0, mask) && (Meets(a | b, mask) <==> Meets(a, mask) || Meets(b, mask))
  {
    MaskDistributes(a, b, mask);
    UnionIsZero(a & mask, b & mask);
  }

  /** A vector has exactly the bits it is made of: one alone, or those of two vectors together. */
  lemma BitsOfVector(a: bv32, b: bv32, j: nat, k: nat)
    requires j < 32 && k < 32
    ensures !Bit(0, k) && (Bit((1 as bv32) << j, k) <==> j == k)
    ensures Bit(a | b, k) <==> Bit(a, k) || Bit(b, k)
  {
    OneBit(j, k);
    hide Meets;
    MeetsUnion(a, b, (1 as bv32) << k);
  }

  lemma OneBitWide(j: bv32, k: bv32)
    requires j < 32 && k < 32
    ensures ((1 as bv32) << j) & ((1 as bv32) << k) != 0 <==> j == k
  {}

  lemma OneBit(j: nat, k: nat)
    requires j < 32 && k < 32
    ensures Bit((1 as bv32) << j, k) <==> j == k
  {
    OneBitWide(j as bv32, k as bv32);
  }

  /** A vector is served exactly if bits 30 and 31 are clear. */
  lemma WellIff(vect: bv32)
    ensures Well(vect) <==> !Bit(vect, 30) && !Bit(vect, 31)
  {}

  // ---- Properties ----

  lemma {:induction false} PushOneInRange(q: State, m: Msg)
    requires RingInv(q) && InRange(|q.pushed| + 1, |q.cells|)
    ensures var r := PushCall(q, m).0;
            && RingInv(r) && r.popped == q.popped
            && r.pushed == (if q.Outstanding() < |q.cells| - 1 then q.pushed + [m] else q.pushed)
  {
    FullTestExact(q);
    SlotInRange(q, |q.pushed|);
    FreeSlot(q);
    WrapOfSuccessor(|q.pushed|);
  }

  /** While the counters are in range, exactly the messages that fit are queued, behind those already waiting. */
  lemma {:induction false} PushAllInRange(q: State, msgs: seq<Msg>)
    requires RingInv(q) && InRange(|q.pushed| + |msgs|, |q.cells|)
    ensures var room := |q.cells| - 1 - q.Outstanding(); var r := PushAll(q, msgs);
            && RingInv(r) && r.popped == q.popped
            && r.pushed == q.pushed + msgs[..Min(room, |msgs|)]
    decreases |msgs|
  {
    hide PushCall;
    if msgs != [] {
      PushOneInRange(q, msgs[0]);
      var next := PushCall(q, msgs[0]).0;
      PushAllInRange(next, msgs[1..]);
      var room := |q.cells| - 1 - q.Outstanding();
      if room > 0 { TakeOneMore(q.pushed, msgs, Min(room, |msgs|)); }
    }
  }

  lemma TakeOneMore<T>(a: seq<T>, b: seq<T>, k: nat)
    requires 0 < k <= |b|
    ensures a + b[..k] == (a + [b[0]]) + b[1..][..k - 1]
  {
    assert b[..k] == [b[0]] + b[1..][..k - 1];
  }

  function Count(vect: bv32, k: nat): nat
    requires k < 32
  {
    if Bit(vect, k) then 1 else 0
  }

  /**
   * Every bit of a channel raises exactly its own message, in the order SG_BUF_READ, DONE, OFFLAST, LEN: a finished
   * transaction comes before the next.
   */
  lemma RecvEventsOfBits(vect: bv32, i: nat, regs: ChnlRegs)
    requires i < 6
    ensures var r := RecvEvents(vect, i, regs);
            && |r| == Count(vect, 5 * i) * 2 + Count(vect, 5 * i + 1) + Count(vect, 5 * i + 2) <= 4
            && (forall a, b | 0 <= a < b < |r| :: r[a].kind > r[b].kind)
            && (Msg(Transfers.SG_BUF_READ, 0) in r <==> Bit(vect, 5 * i + 1))
            && (Msg(Transfers.TXN_DONE, regs.txTransferred) in r <==> Bit(vect, 5 * i + 2))
            && (Msg(Transfers.TXN_OFFLAST, regs.txOffLast) in r <==> Bit(vect, 5 * i))
            && (Msg(Transfers.TXN_LEN, regs.txLen) in r <==> Bit(vect, 5 * i))
  {
    hide Bit;
  }

  lemma SendEventsOfBits(vect: bv32, i: nat, regs: ChnlRegs)
    requires i < 6
    ensures var t := SendEvents(vect, i, regs);
            && |t| == Count(vect, 5 * i + 3) + Count(vect, 5 * i + 4) <= 2
            && (forall a, b | 0 <= a < b < |t| :: t[a].kind > t[b].kind)
            && (Msg(Transfers.SG_BUF_READ, 0) in t <==> Bit(vect, 5 * i + 3))
            && (Msg(Transfers.TXN_DONE, regs.rxTransferred) in t <==> Bit(vect, 5 * i + 4))
  {
    hide Bit;
  }

  /** The queue has taken as many messages as there was room for, behind those already waiting. */
  ghost predicate TookWhatFits(q: State, n: State, msgs: seq<Msg>) {
    var room := |q.cells| - 1 - q.Outstanding();
    room >= 0 && n.popped == q.popped && n.pushed == q.pushed + msgs[..Min(room, |msgs|)]
  }

  /**
   * What one vector does to a channel while the counters of its queues are in range: if the vector is served and the
   * channel is one of its six, the receive queue takes as many of the receive events as fit, behind those waiting, the
   * send queue of the send events, and a side's thread is woken once if one of its bits is set; else nothing changes.
   */
  lemma VectorServes(ch: Chnl, vect: bv32, off: nat, c: nat, regs: ChnlRegs)
    requires RingInv(ch.recv) && InRange(|ch.recv.pushed| + 4, |ch.recv.cells|)
    requires RingInv(ch.send) && InRange(|ch.send.pushed| + 4, |ch.send.cells|)
    requires ch.Valid()
    ensures var n := AfterVector(ch, vect, off, c, regs);
            if !Bit(vect, 30) && !Bit(vect, 31) && off <= c < off + 6 then
              var i := c - off;
              var r, t := RecvEvents(vect, i, regs), SendEvents(vect, i, regs);
              && TookWhatFits(ch.recv, n.recv, r) && TookWhatFits(ch.send, n.send, t)
              && n.recvWakes == ch.recvWakes +
                (if Bit(vect, 5 * i) || Bit(vect, 5 * i + 1) || Bit(vect, 5 * i + 2) then 1 else 0)
              && n.sendWakes == ch.sendWakes + (if Bit(vect, 5 * i + 3) || Bit(vect, 5 * i + 4) then 1 else 0)
            else n == ch
  {
    WellIff(vect);
    hide Bit, Well, RingInv, InRange, PushAll, RecvEvents, SendEvents;
    if Handles(vect, off, c) {
      RecvEventsOfBits(vect, c - off, regs);
      SendEventsOfBits(vect, c - off, regs);
      QueueTakes(ch.recv, RecvEvents(vect, c - off, regs));
      QueueTakes(ch.send, SendEvents(vect, c - off, regs));
    }
  }

  lemma QueueTakes(q: State, msgs: seq<Msg>)
    requires RingInv(q) && InRange(|q.pushed| + 4, |q.cells|) && |msgs| <= 4
    ensures TookWhatFits(q, PushAll(q, msgs), msgs)
  {
    PushAllInRange(q, msgs);
  }

  /** Up to four pushes into a queue of 5 slots that was drained at count n, i of them made already. */
  lemma {:induction false} DrainedTakesFour(q: State, n: nat, i: nat, msgs: seq<Msg>)
    requires |q.cells| == 5 && n < TWO32 - 1 && i + |msgs| <= 4
    requires q.readIndex == n && q.writeIndex == (n + i) % TWO32
    ensures PushAll(q, msgs).pushed == q.pushed + msgs
    decreases |msgs|
  {
    if msgs != [] {
      FifthSlotIsFree(n, i);
      WrapOfSuccessor(n + i);
      DrainedTakesFour(PushCall(q, msgs[0]).0, n, i + 1, msgs[1..]);
      assert (q.pushed + [msgs[0]]) + msgs[1..] == q.pushed + msgs;
    }
  }

  lemma FifthSlotIsFree(n: nat, i: nat)
    requires n < TWO32 - 1 && i < 4
    ensures !TestsFull((n + i) % TWO32, n, 5)
  {
    WrapOfSuccessor(n + i);
    if n + i + 1 < TWO32 {
      DivModUnique(n + i + 1, TWO32, 0, n + i + 1);
    } else {
      DivModUnique(n + i + 1, TWO32, 1, n + i + 1 - TWO32);
    }
  }

  lemma {:induction false} StuckQueueDropsAll(q: State, msgs: seq<Msg>)
    requires |q.cells| > 0 && forall msg :: PushCall(q, msg) == (q, PushFull)
    ensures PushAll(q, msgs) == q
    decreases |msgs|
  {
    if msgs != [] { StuckQueueDropsAll(q, msgs[1..]); }
  }

  /** The counters of a drained queue are equal, however often they have wrapped. */
  predicate Level(q: State) { q.readIndex == q.writeIndex < TWO32 }

  /**
   * Main theorem: one interrupt on drained queues of any age. A send queue (4 slots) takes all its messages; a receive
   * queue (5 slots) takes all of them exactly when it was not drained at the last count before a wrap.
   */
  lemma NothingDropped(recv: State, send: State, vect: bv32, i: nat, regs: ChnlRegs)
    requires i < 6 && |recv.cells| == 5 && Level(recv)
    requires RingInv(send) && |send.cells| == 4 && send.Outstanding() == 0
    ensures PushAll(recv, RecvEvents(vect, i, regs)).pushed == recv.pushed + RecvEvents(vect, i, regs) <==>
            RecvEvents(vect, i, regs) == [] || recv.writeIndex != TWO32 - 1
    ensures PushAll(send, SendEvents(vect, i, regs)).pushed == send.pushed + SendEvents(vect, i, regs)
  {
    RecvEventsOfBits(vect, i, regs);
    SendEventsOfBits(vect, i, regs);
    var r, t := RecvEvents(vect, i, regs), SendEvents(vect, i, regs);
    hide RecvEvents, SendEvents, PushAll, PushCall, Bit;
    DrainedTakesIff(recv, r);
    PushAllInRange(send, t);
    assert t[..|t|] == t;
  }

  lemma DrainedTakesIff(q: State, msgs: seq<Msg>)
    requires |q.cells| == 5 && Level(q) && |msgs| <= 4
    ensures PushAll(q, msgs).pushed == q.pushed + msgs <==> msgs == [] || q.writeIndex != TWO32 - 1
  {
    DivModUnique(q.writeIndex, TWO32, 0, q.writeIndex);
    if q.writeIndex == TWO32 - 1 {
      assert forall msg :: PushCall(q, msg) == (q, PushFull);
      hide PushAll, PushCall;
      StuckQueueDropsAll(q, msgs);
    } else {
      hide PushAll, PushCall;
      DrainedTakesFour(q, q.writeIndex, 0, msgs);
    }
  }

  /** A receive queue that was drained after 2^32 - 1 messages loses every message of every later interrupt. */
  lemma DeafReceiveQueue() returns (q: State)
    ensures Reached(5, q) && q.Outstanding() == 0 && |q.cells| == 5
    ensures forall msgs :: PushAll(q, msgs) == q
  {
    q := ReceiveQueueGetsStuck();
    ReachedRun(5, q, []);
    forall msgs ensures PushAll(q, msgs) == q { StuckQueueDropsAll(q, msgs); }
  }

  // ---- The methods ----

  class Fpga {
    const numChnls: nat
    var chnls: seq<Chnl>
    var intrDisabled: bool

    ghost predicate Valid()
      reads this
    {
      |chnls| == numChnls <= 12 && forall c | 0 <= c < numChnls :: chnls[c].Valid()
    }

    /** Lines 293-329: the three bits of a channel's receive side. */
    static method ServeRecv(q: State, i: nat, vect: bv32, regs: ChnlRegs) returns (q': State, wake: bool)
      requires i < 6 && |q.cells| > 0
      ensures q' == PushAll(q, RecvEvents(vect, i, regs))
      ensures wake <==> RecvEvents(vect, i, regs) != []
    {
      hide PushCall, Bit;
      q', wake := q, false;
      if Bit(vect, 5 * i + 1) {
        wake, q' := true, PushCall(q', Msg(Transfers.SG_BUF_READ, 0)).0;
      }
      if Bit(vect, 5 * i + 2) {
        wake, q' := true, PushCall(q', Msg(Transfers.TXN_DONE, regs.txTransferred)).0;
      }
      if Bit(vect, 5 * i) {
        wake, q' := true, PushCall(q', Msg(Transfers.TXN_OFFLAST, regs.txOffLast)).0;
        q' := PushCall(q', Msg(Transfers.TXN_LEN, regs.txLen)).0;
      }
      PushesOfRecvEvents(q, vect, i, regs);
    }

    /** Lines 331-351: the two bits of a channel's send side. */
    static method ServeSend(q: State, i: nat, vect: bv32, regs: ChnlRegs) returns (q': State, wake: bool)
      requires i < 6 && |q.cells| > 0
      ensures q' == PushAll(q, SendEvents(vect, i, regs))
      ensures wake <==> SendEvents(vect, i, regs) != []
    {
      hide PushCall, Bit;
      q', wake := q, false;
      if Bit(vect, 5 * i + 3) {
        wake, q' := true, PushCall(q', Msg(Transfers.SG_BUF_READ, 0)).0;
      }
      if Bit(vect, 5 * i + 4) {
        wake, q' := true, PushCall(q', Msg(Transfers.TXN_DONE, regs.rxTransferred)).0;
      }
      PushesOfSendEvents(q, vect, i, regs);
    }

    /** What process_intr_vector does for the i-th channel of the vector. */
    method ServeChannel(chnl: nat, i: nat, vect: bv32, regs: ChnlRegs)
      requires Valid() && chnl < numChnls && i < 6
      modifies this`chnls
      ensures Valid() && chnls == old(chnls)[chnl := Served(old(chnls)[chnl], vect, i, regs)]
    {
      hide RecvEvents, SendEvents, PushAll;
      var ch := chnls[chnl];
      var rq, r := ServeRecv(ch.recv, i, vect, regs);
      var sq, s := ServeSend(ch.send, i, vect, regs);
      chnls := chnls[chnl := Chnl(rq, sq, ch.recvWakes + if r then 1 else 0, ch.sendWakes + if s then 1 else 0)];
    }

    /** process_intr_vector. */
    method ProcessIntrVector(off: nat, vect: bv32, regs: seq<ChnlRegs>)
      requires Valid() && |regs| == numChnls
      modifies this`chnls
      ensures Valid()
      ensures forall c | 0 <= c < numChnls :: chnls[c] == AfterVector(old(chnls)[c], vect, off, c, regs[c])
    {
      hide PushAll, RecvEvents, SendEvents, Well, Served;
      if !Well(vect) { return; }
      var i := 0;
      while i < 6 && i + off < numChnls
        invariant 0 <= i <= 6 && Valid() && (i > 0 ==> i + off <= numChnls)
        invariant forall c | 0 <= c < numChnls ::
          chnls[c] == if off <= c < off + i then AfterVector(old(chnls)[c], vect, off, c, regs[c]) else old(chnls)[c]
        decreases 6 - i
      {
        ServeChannel(i + off, i, vect, regs[i + off]);
        i := i + 1;
      }
    }

    /** intrpt_handler: the second vector exists only on devices with more than six channels. */
    method Interrupt(vect0: bv32, vect1: bv32, regs: seq<ChnlRegs>)
      requires Valid() && |regs| == numChnls
      modifies this`chnls
      ensures Valid()
      ensures forall c | 0 <= c < numChnls ::
                chnls[c] == if intrDisabled then old(chnls)[c]
                            else if c < 6 then AfterVector(old(chnls)[c], vect0, 0, c, regs[c])
                            else AfterVector(old(chnls)[c], vect1, 6, c, regs[c])
    {
      hide Served;
      if !intrDisabled {
        ProcessIntrVector(0, vect0, regs);
        if numChnls > 6 {
          ProcessIntrVector(6, vect1, regs);
        }
      }
    }
  }

  lemma PushOne(q: State, m: Msg)
    requires |q.cells| > 0
    ensures PushAll(q, [m]) == PushCall(q, m).0
  {
    assert [m][1..] == [];
  }

  /** The handler's tests, one bit after the other, push exactly the listed events. */
  lemma PushesOfRecvEvents(q: State, vect: bv32, i: nat, regs: ChnlRegs)
    requires i < 6 && |q.cells| > 0
    ensures var q1 := if Bit(vect, 5 * i + 1) then PushCall(q, Msg(Transfers.SG_BUF_READ, 0)).0 else q;
            var q2 := if Bit(vect, 5 * i + 2) then PushCall(q1, Msg(Transfers.TXN_DONE, regs.txTransferred)).0 else q1;
            var q3 := if Bit(vect, 5 * i)
              then PushCall(PushCall(q2, Msg(Transfers.TXN_OFFLAST, regs.txOffLast)).0,
                Msg(Transfers.TXN_LEN, regs.txLen)).0
              else q2;
            PushAll(q, RecvEvents(vect, i, regs)) == q3
  {
    hide PushCall, Bit;
    var m1, m2 := Msg(Transfers.SG_BUF_READ, 0), Msg(Transfers.TXN_DONE, regs.txTransferred);
    var m3, m4 := Msg(Transfers.TXN_OFFLAST, regs.txOffLast), Msg(Transfers.TXN_LEN, regs.txLen);
    var a, b, c := When(Bit(vect, 5 * i + 1), [m1]), When(Bit(vect, 5 * i + 2), [m2]), When(Bit(vect, 5 * i), [m3, m4]);
    PushAllConcat(q, a + b, c);
    PushAllConcat(q, a, b);
    PushOne(q, m1);
    var q1 := PushAll(q, a);
    PushOne(q1, m2);
    var q2 := PushAll(q1, b);
    PushOne(PushCall(q2, m3).0, m4);
    assert [m3, m4][1..] == [m4];
  }

  lemma PushesOfSendEvents(q: State, vect: bv32, i: nat, regs: ChnlRegs)
    requires i < 6 && |q.cells| > 0
    ensures var q1 := if Bit(vect, 5 * i + 3) then PushCall(q, Msg(Transfers.SG_BUF_READ, 0)).0 else q;
            var q2 := if Bit(vect, 5 * i + 4) then PushCall(q1, Msg(Transfers.TXN_DONE, regs.rxTransferred)).0 else q1;
            PushAll(q, SendEvents(vect, i, regs)) == q2
  {
    hide PushCall, Bit;
    var m1, m2 := Msg(Transfers.SG_BUF_READ, 0), Msg(Transfers.TXN_DONE, regs.rxTransferred);
    var a, b := When(Bit(vect, 5 * i + 3), [m1]), When(Bit(vect, 5 * i + 4), [m2]);
    PushAllConcat(q, a, b);
    PushOne(q, m1);
    PushOne(PushAll(q, a), m2);
  }

  lemma {:induction false} PushAllConcat(q: State, a: seq<Msg>, b: seq<Msg>)
    requires |q.cells| > 0
    ensures PushAll(q, a + b) == PushAll(PushAll(q, a), b)
    decreases |a|
  {
    if a == [] { assert a + b == b; } else {
      assert (a + b)[1..] == a[1..] + b;
      PushAllConcat(PushCall(q, a[0]).0, a[1..], b);
    }
  }
}
