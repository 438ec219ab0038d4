/** What chnl_recv returns, and what it tells the device. */
module RecvOutcome {
  import opened Wrappers
  import opened ScatterGather
  import opened Transfers
  import opened RecvTransfer

  // ---- What has been received ----

  /**
   * Bytes received after these wake-ups: none since a TXN_LEN; the count of a TXN_DONE once the offset is known; and
   * each SG_BUF_READ adds the older mapping, which the device has then filled.
   */
  function Received(d: Device, c: Call, inputs: seq<Input>): nat
    decreases |inputs|
  {
    if inputs == [] then 0
    else
      var before, i := inputs[..|inputs| - 1], inputs[|inputs| - 1];
      if i.wake.Message? && i.wake.kind == TXN_LEN then 0
      else if !i.wake.Message? || Announcement(before).None? then Received(d, c, before)
      else if i.wake.kind == TXN_DONE then 4 * i.wake.arg
      else if i.wake.kind == SG_BUF_READ
        then Received(d, c, before) + HeldLength(Run(d, c, Start(c), before).slots.map0)
      else Received(d, c, before)
  }

  lemma ReceivedLast(d: Device, c: Call, inputs: seq<Input>, i: Input)
    ensures Received(d, c, inputs + [i]) ==
        if i.wake.Message? && i.wake.kind == TXN_LEN then 0
        else if !i.wake.Message? || Announcement(inputs).None? then Received(d, c, inputs)
        else if i.wake.kind == TXN_DONE then 4 * i.wake.arg
        else if i.wake.kind == SG_BUF_READ
          then Received(d, c, inputs) + HeldLength(Run(d, c, Start(c), inputs).slots.map0)
        else Received(d, c, inputs)
  {
    hide Announcement, Run;
    assert (inputs + [i])[..|inputs + [i]| - 1] == inputs;
  }

  lemma StepReceives(d: Device, c: Call, s: Recv, i: Input)
    ensures Step(d, c, s, i).recvd ==
        if s.returned.Some? || !i.wake.Message? then s.recvd
        else if i.wake.kind == TXN_LEN then 0
        else if s.last == -1 then s.recvd
        else if i.wake.kind == TXN_DONE then 4 * i.wake.arg
        else if i.wake.kind == SG_BUF_READ then s.recvd + HeldLength(s.slots.map0)
        else s.recvd
  {
    hide FillAt, Begin;
  }

  lemma {:induction false} RunReceives(d: Device, c: Call, inputs: seq<Input>)
    requires Run(d, c, Start(c), inputs).returned.None?
    ensures Run(d, c, Start(c), inputs).recvd == Received(d, c, inputs)
    decreases |inputs|
  {
    if inputs != [] {
      var before, i := inputs[..|inputs| - 1], inputs[|inputs| - 1];
      var s := Run(d, c, Start(c), before);
      assert inputs == before + [i];
      hide Run, Step, Start, Announcement, Received;
      RunLast(d, c, Start(c), before, i);
      StepAnnouncement(d, c, s, i);
      RunReceives(d, c, before);
      RunAnnouncement(d, c, before);
      StepReceives(d, c, s, i);
      ReceivedLast(d, c, before, i);
    }
  }

  // ---- How a call ends ----

  /** What the call has returned once wake-up i comes after these: nothing yet, or this. */
  ghost predicate Ends(d: Device, c: Call, inputs: seq<Input>, i: Input, r: Option<Result>) {
    var s := Run(d, c, Start(c), inputs);
    match i.wake
    case Signalled => r == Some(Restart)
    case TimedOut => r == Some(Words(Received(d, c, inputs) / 4))
    case Message(kind, arg) =>
      if kind == TXN_DONE && LastAnnounced(inputs) then r == Some(Words(arg))
      else if kind == TXN_LEN && i.grant <= 0 && Split(c, s.pos.udata, 4 * WordOffset(inputs), 4 * arg).0 > 0
        then r == Some(Words(0))
      else if kind == SG_BUF_READ && Announcement(inputs).Some? && i.grant <= 0 && s.pos.length > 0
        then r == Some(Words((Received(d, c, inputs) + HeldLength(s.slots.map0)) / 4))
      else r == None
  }

  lemma LengthReturns(d: Device, c: Call, s: Recv, words: nat, grant: int)
    requires GoodCall(d, c) && Inv(s) && s.returned.None? && words < 0x1_0000_0000
    ensures OnLength(d, c, s, 4 * words, grant).returned ==
        if grant <= 0 && Split(c, s.pos.udata, s.offset, 4 * words).0 > 0 then Some(Words(0)) else None
  {
    hide FillAt, Split;
    BeginAfterInv(c, s, 4 * words);
    var p := Begin(c, s.pos, s.offset, 4 * words);
    if p.length > 0 || p.overflow > 0 { FillFails(d, p, grant); }
  }

  lemma BufferReadReturns(d: Device, s: Recv, grant: int)
    requires DeviceWidth(d.numSg) && Inv(s) && s.returned.None?
    ensures OnBufferRead(d, s, grant).returned ==
        if s.last != -1 && grant <= 0 && s.pos.length > 0 then Some(Words((s.recvd + HeldLength(s.slots.map0)) / 4))
        else None
  {
    hide FillAt;
    if s.pos.length > 0 || s.pos.overflow > 0 { FillFails(d, s.pos, grant); }
  }

  lemma StepReturns(d: Device, c: Call, s: Recv, i: Input)
    requires GoodCall(d, c) && GoodInput(i) && Inv(s) && s.returned.None?
    ensures var r := Step(d, c, s, i).returned;
            match i.wake
            case Signalled => r == Some(Restart)
            case TimedOut => r == Some(Words(s.recvd / 4))
            case Message(kind, arg) =>
              r == if kind == TXN_DONE && s.last != -1 && s.last != 0 then Some(Words(arg))
                   else if kind == TXN_LEN then OnLength(d, c, s, 4 * arg, i.grant).returned
                   else if kind == SG_BUF_READ then OnBufferRead(d, s, i.grant).returned
                   else None
  {
    hide OnLength, OnBufferRead, Inv;
  }

  /**
   * When and with what a call returns, for every list of wake-ups: TXN_DONE ends it if the transaction was announced
   * as the last one, with the count in the message; a time-out with what has been received; a TXN_LEN or an
   * SG_BUF_READ with user bytes to map of which no page can be pinned, with 0 and with what has been received; a signal
   * with -ERESTARTSYS; and nothing else ends it.
   */
  lemma CallEnds(d: Device, c: Call, inputs: seq<Input>, i: Input)
    requires GoodCall(d, c) && GoodInputs(inputs) && GoodInput(i)
    requires Run(d, c, Start(c), inputs).returned.None?
    ensures Ends(d, c, inputs, i, Run(d, c, Start(c), inputs + [i]).returned)
  {
    var s := Run(d, c, Start(c), inputs);
    hide Run, Start, Step, Inv, OnLength, OnBufferRead, Received, Announcement, Split, GoodCall, GoodInputs, GoodInput;
    EveryPosition(d, c, inputs);
    RunLast(d, c, Start(c), inputs, i);
    RunAnnouncement(d, c, inputs);
    RunReceives(d, c, inputs);
    StepReturns(d, c, s, i);
    if i.wake.Message? && i.wake.kind == TXN_LEN { ArgumentFits(i); LengthReturns(d, c, s, i.wake.arg, i.grant); }
    if i.wake.Message? && i.wake.kind == SG_BUF_READ { WidthOf(d, c); BufferReadReturns(d, s, i.grant); }
  }

  lemma ArgumentFits(i: Input)
    requires GoodInput(i) && i.wake.Message?
    ensures i.wake.arg < 0x1_0000_0000
  {}

  lemma WidthOf(d: Device, c: Call)
    requires GoodCall(d, c)
    ensures DeviceWidth(d.numSg)
  {}

  lemma {:induction false} RunReturnsCount(d: Device, c: Call, s: Recv, inputs: seq<Input>)
    requires s.returned.Some? && s.returned.value.Words? ==> s.returned.value.n == s.recvd / 4
    ensures var n := Run(d, c, s, inputs);
            n.returned.Some? && n.returned.value.Words? ==> n.returned.value.n == n.recvd / 4
    decreases |inputs|
  {
    if inputs != [] {
      StepReturnsCount(d, c, s, inputs[0]);
      hide Step;
      RunReturnsCount(d, c, Step(d, c, s, inputs[0]), inputs[1..]);
    }
  }

  lemma StepReturnsCount(d: Device, c: Call, s: Recv, i: Input)
    requires s.returned.Some? && s.returned.value.Words? ==> s.returned.value.n == s.recvd / 4
    ensures var n := Step(d, c, s, i);
            n.returned.Some? && n.returned.value.Words? ==> n.returned.value.n == n.recvd / 4
  {
    hide FillAt, Begin;
  }

  /** A count that has been returned is that of the bytes received. */
  lemma CountReturned(d: Device, c: Call, inputs: seq<Input>)
    ensures var n := Run(d, c, Start(c), inputs);
            n.returned.Some? && n.returned.value.Words? ==> n.returned.value.n == n.recvd / 4
  {
    RunReturnsCount(d, c, Start(c), inputs);
  }

  // ---- What the count means ----

  predicate NoDone(inputs: seq<Input>) {
    forall i | i in inputs :: !(i.wake.Message? && i.wake.kind == TXN_DONE)
  }

  lemma {:induction false} CleanStays(d: Device, c: Call, s: Recv, inputs: seq<Input>)
    requires NoLength(inputs) && NoDone(inputs) && s.clean
    ensures Run(d, c, s, inputs).clean
    decreases |inputs|
  {
    if inputs != [] {
      assert inputs[0] in inputs;
      StepKeepsClean(d, c, s, inputs[0]);
      hide Step;
      CleanStays(d, c, Step(d, c, s, inputs[0]), inputs[1..]);
    }
  }

  lemma StepKeepsClean(d: Device, c: Call, s: Recv, i: Input)
    requires NoLength([i]) && NoDone([i])
    ensures Step(d, c, s, i).clean == s.clean
  {
    assert i in [i];
    hide FillAt;
  }

  lemma LengthIsClean(d: Device, c: Call, s: Recv, words: nat, grant: int)
    requires s.returned.None? && s.slots.map0.None? && s.slots.map1.None?
    ensures Step(d, c, s, Input(Message(TXN_LEN, words), grant)).clean
  {
    hide FillAt, Begin;
  }

  /**
   * In the course of a transaction that found nothing mapped, what has been received is the part for the user buffer
   * less what is held in the two mappings and what is still to map.
   */
  lemma ReceivedOf(d: Device, c: Call, before: seq<Input>, words: nat, grant: int, after: seq<Input>)
    requires GoodCall(d, c) && GoodInputs(before) && GoodInputs(after) && NoLength(after) && NoDone(after)
    requires words < 0x1_0000_0000
    requires var s := Run(d, c, Start(c), before); s.returned.None? && s.slots.map0.None? && s.slots.map1.None?
    ensures var inputs := before + [Input(Message(TXN_LEN, words), grant)] + after;
            var t := Run(d, c, Start(c), inputs);
            t.returned.None? ==>
              && t.pos.toUser == Split(c, Run(d, c, Start(c), before).pos.udata, 4 * WordOffset(before), 4 * words).0
              && Received(d, c, inputs) == t.pos.toUser - t.slots.Bytes() - t.pos.length
  {
    var len := Input(Message(TXN_LEN, words), grant);
    var inputs := before + [len] + after;
    var s := Run(d, c, Start(c), before);
    var t := Step(d, c, s, len);
    assert GoodInputs(inputs);
    LengthIsClean(d, c, s, words, grant);
    LengthKeepsPlan(d, c, s, words, grant);
    hide Run, Start, Step, Announcement, Received, Split, NoLength, NoDone, GoodInputs;
    RunAnnouncement(d, c, before);
    RunLast(d, c, Start(c), before, len);
    RunConcat(d, c, Start(c), before + [len], after);
    CleanStays(d, c, t, after);
    PlanStays(d, c, t, after);
    EveryPosition(d, c, inputs);
    if Run(d, c, Start(c), inputs).returned.None? { RunReceives(d, c, inputs); }
  }

  /** With an aligned buffer nothing is lost in the division by four. */
  ghost predicate WordAligned(s: Recv) {
    && s.pos.udata % 4 == 0 && s.pos.length % 4 == 0 && s.recvd % 4 == 0 && s.offset % 4 == 0
    && HeldLength(s.slots.map0) % 4 == 0 && HeldLength(s.slots.map1) % 4 == 0
  }

  lemma Mod64Aligned(x: nat)
    requires x % 4 == 0
    ensures x % 0x1_0000_0000_0000_0000 % 4 == 0
  {
    var q := x / 0x1_0000_0000_0000_0000;
    assert x == 4 * (0x4000_0000_0000_0000 * q) + x % 0x1_0000_0000_0000_0000;
  }

  lemma BeginAligned(c: Call, p: Position, offset: nat, txn: nat)
    requires c.capacity % 4 == 0 && p.udata % 4 == 0 && offset % 4 == 0 && txn % 4 == 0
    ensures var b := Begin(c, p, offset, txn); b.udata % 4 == 0 && b.length % 4 == 0
  {
    Mod64Aligned(p.udata + offset);
  }

  lemma MappingAligned(d: Device, p: Position, grant: int)
    requires DeviceWidth(d.numSg) && p.udata % 4 == 0 && p.length % 4 == 0 && FillAt(d, p, grant).Some?
    ensures FillAt(d, p, grant).value.length % 4 == 0 && FillAt(d, p, grant).value.length <= p.length
  {
    FillUserPart(d.numSg, p.udata, p.length, p.overflow, grant);
    SegmentsAligned(p.udata, p.length, PagesMapped(d.numSg, p.udata, p.length, grant));
  }

  lemma FillAligned(d: Device, p: Position, grant: int)
    requires DeviceWidth(d.numSg) && p.udata % 4 == 0 && p.length % 4 == 0 && FillAt(d, p, grant).Some?
    ensures var m := FillAt(d, p, grant).value;
            m.length % 4 == 0 && m.length <= p.length && Advance(p, m).udata % 4 == 0 && Advance(p, m).length % 4 == 0
  {
    hide FillAt;
    MappingAligned(d, p, grant);
    Mod64Aligned(p.udata + FillAt(d, p, grant).value.length);
  }

  lemma LengthKeepsAligned(d: Device, c: Call, s: Recv, words: nat, grant: int)
    requires DeviceWidth(d.numSg) && c.capacity % 4 == 0 && WordAligned(s)
    ensures WordAligned(OnLength(d, c, s, 4 * words, grant))
  {
    BeginAligned(c, s.pos, s.offset, 4 * words);
    var p := Begin(c, s.pos, s.offset, 4 * words);
    hide FillAt, Begin, Advance;
    if FillAt(d, p, grant).Some? { FillAligned(d, p, grant); }
  }

  lemma BufferReadKeepsAligned(d: Device, s: Recv, grant: int)
    requires DeviceWidth(d.numSg) && WordAligned(s)
    ensures WordAligned(OnBufferRead(d, s, grant))
  {
    hide FillAt, Advance;
    if FillAt(d, s.pos, grant).Some? { FillAligned(d, s.pos, grant); }
  }

  lemma StepKeepsAligned(d: Device, c: Call, s: Recv, i: Input)
    requires DeviceWidth(d.numSg) && c.capacity % 4 == 0 && WordAligned(s)
    ensures WordAligned(Step(d, c, s, i))
  {
    if s.returned.None? && i.wake.Message? && i.wake.kind == TXN_LEN {
      hide OnLength, WordAligned;
      LengthKeepsAligned(d, c, s, i.wake.arg, i.grant);
    } else if s.returned.None? && i.wake.Message? && i.wake.kind == SG_BUF_READ {
      hide OnBufferRead, WordAligned;
      BufferReadKeepsAligned(d, s, i.grant);
    } else {
      hide OnLength, OnBufferRead;
    }
  }

  lemma {:induction false} RunKeepsAligned(d: Device, c: Call, s: Recv, inputs: seq<Input>)
    requires DeviceWidth(d.numSg) && c.capacity % 4 == 0 && WordAligned(s)
    ensures WordAligned(Run(d, c, s, inputs))
    decreases |inputs|
  {
    hide Step, WordAligned;
    if inputs != [] {
      StepKeepsAligned(d, c, s, inputs[0]);
      RunKeepsAligned(d, c, Step(d, c, s, inputs[0]), inputs[1..]);
    }
  }

  /** With an aligned buffer of whole words, what has been received is a whole number of words. */
  lemma ReceivedInWords(d: Device, c: Call, inputs: seq<Input>)
    requires GoodCall(d, c) && c.bufp % 4 == 0 && c.capacity % 4 == 0
    requires Run(d, c, Start(c), inputs).returned.None?
    ensures Received(d, c, inputs) % 4 == 0
  {
    RunKeepsAligned(d, c, Start(c), inputs);
    hide Run, Received;
    RunReceives(d, c, inputs);
  }

  // ---- What the device is told ----

  /** Every mapping made so far has been announced in registers 6, 7 and 5, in order. */
  ghost predicate AllTold(d: Device, s: Recv) {
    Announced(d, 5, s.regs, s.slots)
  }

  lemma StepKeepsTold(d: Device, c: Call, s: Recv, i: Input)
    requires AllTold(d, s)
    ensures AllTold(d, Step(d, c, s, i))
  {
    if s.returned.None? && i.wake.Message? {
      LengthKeepsTold(d, c, s, 4 * i.wake.arg, i.grant);
      BufferReadKeepsTold(d, s, i.grant);
    }
    hide OnLength, OnBufferRead;
  }

  lemma LengthKeepsTold(d: Device, c: Call, s: Recv, txn: nat, grant: int)
    requires AllTold(d, s)
    ensures AllTold(d, OnLength(d, c, s, txn, grant))
  {
    hide FillAt, Begin;
    var m := FillAt(d, Begin(c, s.pos, s.offset, txn), grant);
    if m.Some? { AnnounceKeeps(d, 5, s.regs, s.slots, m.value); }
  }

  lemma BufferReadKeepsTold(d: Device, s: Recv, grant: int)
    requires AllTold(d, s)
    ensures AllTold(d, OnBufferRead(d, s, grant))
  {
    hide FillAt;
    var m := FillAt(d, s.pos, grant);
    if m.Some? { AnnounceKeeps(d, 5, s.regs, s.slots.FreeFirst(), m.value); }
  }

  lemma {:induction false} RunKeepsTold(d: Device, c: Call, s: Recv, inputs: seq<Input>)
    requires AllTold(d, s)
    ensures AllTold(d, Run(d, c, s, inputs))
    decreases |inputs|
  {
    hide Step, AllTold;
    if inputs != [] {
      StepKeepsTold(d, c, s, inputs[0]);
      RunKeepsTold(d, c, Step(d, c, s, inputs[0]), inputs[1..]);
    }
  }

  /** At every moment the device has been told of every mapping made. */
  lemma EveryMappingTold(d: Device, c: Call, inputs: seq<Input>)
    ensures AllTold(d, Run(d, c, Start(c), inputs))
  {
    RunKeepsTold(d, c, Start(c), inputs);
  }
}
