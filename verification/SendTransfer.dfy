/** chnl_send and chnl_send_wrapcheck of riffa_driver.c. */
module SendTransfer {
  import opened Wrappers
  import opened Arith
  import opened ScatterGather
  import opened Transfers

  const RX_SG_LEN_REG := 0
  const RX_LEN_REG := 3
  const RX_OFFLAST_REG := 4

  /** The arguments of chnl_send, after chnl_send_wrapcheck has accepted them. `len` and `offset` count words. */
  datatype Call = Call(bufp: nat, len: nat, offset: nat, last: nat)

  /** The locals of chnl_send and its channel; `user` and `fills` are history: what was mapped, by how many fills. */
  datatype Sending = Sending(
    sent: nat, length: nat, udata: nat, slots: Slots,
    regs: seq<(nat, nat)>, returned: Option<Result>, user: seq<Segment>, fills: nat)

  ghost predicate GoodCall(d: Device, c: Call) {
    && DeviceWidth(d.numSg)
    && c.len < 0x1_0000_0000 && c.offset < 0x1_0000_0000 && c.last < 0x1_0000_0000
    && c.bufp + 4 * c.len <= 0x1_0000_0000_0000_0000
  }

  /** (offset << 1) | last in 32 bits. */
  function OffLast(offset: nat, last: nat): nat {
    BitOr(2 * offset % 0x1_0000_0000, last)
  }

  /** The user bytes not mapped yet are filled from udata on; the device is told unless nothing could be mapped. */
  function FillAt(d: Device, s: Sending, grant: int): Option<Mapping> {
    var m := Fill(d.numSg, s.udata, s.length, 0, grant);
    if m.None? || m.value.NumSg() == 0 then None else m
  }

  function Advance(d: Device, s: Sending, m: Mapping): Sending {
    s.(udata := s.udata + m.length, length := if m.length <= s.length then s.length - m.length else 0,
       regs := Program(s.regs, d, RX_SG_LEN_REG, m), user := s.user + m.segments, fills := s.fills + 1)
  }

  /** Up to the message loop: announce the transfer, map the first part of the buffer. */
  function Start(d: Device, c: Call, grant: int): Sending
  {
    var s := Sending(0, 4 * c.len, c.bufp, NO_SLOTS,
                  [(RX_OFFLAST_REG, OffLast(c.offset, c.last)), (RX_LEN_REG, c.len)], None, [], 0);
    if c.len == 0 then s.(returned := Some(Words(0)))
    else match FillAt(d, s, grant)
      case None => s.(returned := Some(Words(0)))
      case Some(m) => Advance(d, s, m).(slots := s.slots.Overwrite(m))
  }

  function OnBufferRead(d: Device, s: Sending, grant: int): Sending {
    var released := s.(sent := s.sent + HeldLength(s.slots.map0), slots := s.slots.FreeFirst());
    if s.length == 0 then released
    else match FillAt(d, released, grant)
      case None => released.(slots := released.slots.FreeBoth(), returned := Some(Words(released.sent / 4)))
      case Some(m) => Advance(d, released, m).(slots := released.slots.Shift(m))
  }

  function Step(d: Device, s: Sending, i: Input): Sending {
    if s.returned.Some? then s
    else match i.wake
      case Message(kind, arg) =>
        if kind == SG_BUF_READ then OnBufferRead(d, s, i.grant)
        else if kind == TXN_DONE then s.(sent := 4 * arg, slots := s.slots.FreeBoth(), returned := Some(Words(arg)))
        else s
      case TimedOut => s.(slots := s.slots.FreeBoth(), returned := Some(Words(s.sent / 4)))
      case Signalled => s.(slots := s.slots.FreeBoth(), returned := Some(Restart))
  }

  function Run(d: Device, s: Sending, inputs: seq<Input>): Sending
    decreases |inputs|
  {
    if inputs == [] then s else Run(d, Step(d, s, inputs[0]), inputs[1..])
  }

  // ---- Invariant of every run ----

  function PagesLeft(udata: nat, length: nat): nat {
    if length == 0 then 0 else PagesSpanned(udata, length)
  }

  /** What has been mapped: the buffer from its start up to udata, page by page, in no more fills than pages. */
  ghost predicate Mapped(c: Call, s: Sending) {
    && s.udata + s.length == c.bufp + 4 * c.len
    && Tiles(s.user, c.bufp, s.udata)
    && (forall g | g in s.user :: InOnePage(g))
    && s.fills + PagesLeft(s.udata, s.length) <= PagesLeft(c.bufp, 4 * c.len)
  }

  ghost predicate Inv(c: Call, s: Sending) {
    && Mapped(c, s) && s.fills == s.slots.made
    && (s.returned.None? ==> s.slots.Accounted() && s.sent + s.slots.Bytes() + s.length == 4 * c.len)
    && s.slots.lost == []
    && (s.returned.Some? ==> s.slots.AllFreedOnce() && CountReturned(s))
  }

  /** A count that has been returned is that of the bytes sent. */
  ghost predicate CountReturned(s: Sending) {
    s.returned.Some? && s.returned.value.Words? ==> s.returned.value.n == s.sent / 4
  }

  lemma FillFails(d: Device, s: Sending, grant: int)
    requires DeviceWidth(d.numSg) && s.length > 0
    ensures FillAt(d, s, grant).None? <==> grant <= 0
  {
    if Fill(d.numSg, s.udata, s.length, 0, grant).Some? { FillSpillPart(d.numSg, s.udata, s.length, 0, grant); }
  }

  lemma AdvanceMapped(d: Device, c: Call, s: Sending, grant: int)
    requires DeviceWidth(d.numSg) && Mapped(c, s) && s.length > 0 && FillAt(d, s, grant).Some?
    ensures var m := FillAt(d, s, grant).value;
            Mapped(c, Advance(d, s, m)) && m.length <= s.length && m.NumSg() == |m.segments|
  {
    var m := FillAt(d, s, grant).value;
    FillUserPart(d.numSg, s.udata, s.length, 0, grant);
    TilesConcat(s.user, m.segments, c.bufp, s.udata, s.udata + m.length);
  }

  lemma BufferReadKeepsInv(d: Device, c: Call, s: Sending, grant: int)
    requires DeviceWidth(d.numSg) && Inv(c, s) && s.returned.None?
    ensures Inv(c, OnBufferRead(d, s, grant))
  {
    hide Fill, Tiles;
    FreeFirstKeeps(s.slots);
    if s.length > 0 {
      var r := s.(sent := s.sent + HeldLength(s.slots.map0), slots := s.slots.FreeFirst());
      if FillAt(d, r, grant).Some? {
        AdvanceMapped(d, c, r, grant);
        ShiftKeeps(r.slots, FillAt(d, r, grant).value);
      } else {
        FreeBothKeeps(r.slots);
      }
    }
  }

  lemma StepKeepsInv(d: Device, c: Call, s: Sending, i: Input)
    requires DeviceWidth(d.numSg) && Inv(c, s)
    ensures Inv(c, Step(d, s, i))
  {
    if s.returned.None? {
      FreeBothKeeps(s.slots);
      if i.wake.Message? && i.wake.kind == SG_BUF_READ { BufferReadKeepsInv(d, c, s, i.grant); }
    }
  }

  lemma {:induction false} RunKeepsInv(d: Device, c: Call, s: Sending, inputs: seq<Input>)
    requires DeviceWidth(d.numSg) && Inv(c, s)
    ensures Inv(c, Run(d, s, inputs))
    decreases |inputs|
  {
    if inputs != [] {
      StepKeepsInv(d, c, s, inputs[0]);
      RunKeepsInv(d, c, Step(d, s, inputs[0]), inputs[1..]);
    }
  }

  lemma StartInv(d: Device, c: Call, grant: int)
    requires GoodCall(d, c)
    ensures Inv(c, Start(d, c, grant))
  {
    var s := Sending(0, 4 * c.len, c.bufp, NO_SLOTS,
                  [(RX_OFFLAST_REG, OffLast(c.offset, c.last)), (RX_LEN_REG, c.len)], None, [], 0);
    assert Mapped(c, s);
    if c.len > 0 && FillAt(d, s, grant).Some? {
      AdvanceMapped(d, c, s, grant);
      OverwriteKeeps(NO_SLOTS, FillAt(d, s, grant).value);
    }
  }

  /**
   * Main theorem, for every call and every list of wake-ups: the mapped ranges tile the buffer from its start;
   * until the call returns, bytes sent, held in the two mappings and still to map add up to the buffer; there are
   * at most as many fills, each with one mapping, as pages; and when it returns, for whatever reason, each mapping was
   * freed exactly once.
   */
  lemma EveryRun(d: Device, c: Call, grant: int, inputs: seq<Input>)
    requires GoodCall(d, c)
    ensures var s := Run(d, Start(d, c, grant), inputs);
            && Tiles(s.user, c.bufp, s.udata) && s.udata + s.length == c.bufp + 4 * c.len
            && (forall g | g in s.user :: InOnePage(g))
            && (s.returned.None? ==> s.sent + s.slots.Bytes() + s.length == 4 * c.len)
            && s.fills == s.slots.made <= PagesLeft(c.bufp, 4 * c.len)
            && (s.returned.Some? ==> s.slots.AllFreedOnce() && CountReturned(s))
  {
    StartInv(d, c, grant);
    RunKeepsInv(d, c, Start(d, c, grant), inputs);
  }

  // ---- How a call ends ----

  ghost predicate WordAligned(s: Sending) {
    && s.udata % 4 == 0 && s.length % 4 == 0 && s.sent % 4 == 0
    && HeldLength(s.slots.map0) % 4 == 0 && HeldLength(s.slots.map1) % 4 == 0
  }

  lemma FillAligned(d: Device, s: Sending, grant: int)
    requires DeviceWidth(d.numSg) && s.udata % 4 == 0 && s.length % 4 == 0 && s.length > 0
    requires FillAt(d, s, grant).Some?
    ensures FillAt(d, s, grant).value.length % 4 == 0 && FillAt(d, s, grant).value.length <= s.length
  {
    FillUserPart(d.numSg, s.udata, s.length, 0, grant);
    SegmentsAligned(s.udata, s.length, PagesMapped(d.numSg, s.udata, s.length, grant));
  }

  lemma MappingAligned(d: Device, s: Sending, n: Sending, m: Mapping)
    requires WordAligned(s) && m.length % 4 == 0 && m.length <= s.length
    requires n == Advance(d, s, m).(slots := s.slots.Shift(m)) || n == Advance(d, s, m).(slots := s.slots.Overwrite(m))
    ensures WordAligned(n)
  {}

  lemma BufferReadKeepsAligned(d: Device, s: Sending, grant: int)
    requires DeviceWidth(d.numSg) && WordAligned(s)
    ensures WordAligned(OnBufferRead(d, s, grant))
  {
    hide FillAt, Advance;
    var released := s.(sent := s.sent + HeldLength(s.slots.map0), slots := s.slots.FreeFirst());
    var m := FillAt(d, released, grant);
    if s.length > 0 && m.Some? {
      FillAligned(d, released, grant);
      MappingAligned(d, released, OnBufferRead(d, s, grant), m.value);
    }
  }

  lemma StepKeepsAligned(d: Device, s: Sending, i: Input)
    requires DeviceWidth(d.numSg) && WordAligned(s)
    ensures WordAligned(Step(d, s, i))
  {
    if i.wake.Message? && i.wake.kind == SG_BUF_READ {
      hide OnBufferRead, WordAligned;
      BufferReadKeepsAligned(d, s, i.grant);
    }
  }

  lemma {:induction false} RunKeepsAligned(d: Device, s: Sending, inputs: seq<Input>)
    requires DeviceWidth(d.numSg) && WordAligned(s)
    ensures WordAligned(Run(d, s, inputs))
    decreases |inputs|
  {
    hide Step, WordAligned;
    if inputs != [] {
      StepKeepsAligned(d, s, inputs[0]);
      RunKeepsAligned(d, Step(d, s, inputs[0]), inputs[1..]);
    }
  }

  lemma StartAligned(d: Device, c: Call, grant: int)
    requires GoodCall(d, c) && c.bufp % 4 == 0
    ensures WordAligned(Start(d, c, grant))
  {
    hide FillAt, Advance;
    var s := Sending(0, 4 * c.len, c.bufp, NO_SLOTS,
                  [(RX_OFFLAST_REG, OffLast(c.offset, c.last)), (RX_LEN_REG, c.len)], None, [], 0);
    if c.len > 0 && FillAt(d, s, grant).Some? {
      FillAligned(d, s, grant);
      MappingAligned(d, s, Start(d, c, grant), FillAt(d, s, grant).value);
    }
  }

  lemma {:induction false} RunLast(d: Device, s: Sending, inputs: seq<Input>, i: Input)
    ensures Run(d, s, inputs + [i]) == Step(d, Run(d, s, inputs), i)
    decreases |inputs|
  {
    if inputs == [] {
      assert [i][1..] == [];
    } else {
      assert (inputs + [i])[0] == inputs[0] && (inputs + [i])[1..] == inputs[1..] + [i];
      hide Step;
      RunLast(d, Step(d, s, inputs[0]), inputs[1..], i);
    }
  }

  /** The call has returned the number of words that make up so many bytes. */
  ghost predicate ReturnsBytes(r: Option<Result>, bytes: int) {
    r.Some? && r.value.Words? && 4 * r.value.n == bytes
  }

  /** What the call returns when wake-up i finds it in s: nothing yet, or this. */
  ghost predicate Ends(c: Call, s: Sending, i: Input, r: Option<Result>) {
    match i.wake
    case Signalled => r == Some(Restart)
    case TimedOut => ReturnsBytes(r, 4 * c.len - HeldLength(s.slots.map0) - HeldLength(s.slots.map1) - s.length)
    case Message(kind, arg) =>
      if kind == TXN_DONE then r == Some(Words(arg))
      else if kind == SG_BUF_READ && s.length > 0 && i.grant <= 0
        then ReturnsBytes(r, 4 * c.len - HeldLength(s.slots.map1) - s.length)
      else r == None
  }

  lemma StepEnds(d: Device, c: Call, s: Sending, i: Input)
    requires DeviceWidth(d.numSg) && s.returned.None? && Inv(c, s) && WordAligned(s)
    ensures Ends(c, s, i, Step(d, s, i).returned)
  {
    hide FillAt, Mapped;
    var released := s.(sent := s.sent + HeldLength(s.slots.map0), slots := s.slots.FreeFirst());
    if s.length > 0 { FillFails(d, released, i.grant); }
  }

  /**
   * When and with what a call returns. At once, with 0, if there is nothing to send or no page of it can be pinned.
   * Later TXN_DONE ends it with the count in the message; a time-out with the words that are neither held
   * in a mapping nor still to map; an SG_BUF_READ for which no page can be pinned likewise, the older
   * mapping counting as sent; a signal with -ERESTARTSYS; and nothing else ends it.
   */
  lemma CallEnds(d: Device, c: Call, grant: int, inputs: seq<Input>, i: Input)
    requires GoodCall(d, c) && c.bufp % 4 == 0
    ensures Start(d, c, grant).returned == if c.len == 0 || grant <= 0 then Some(Words(0)) else None
    ensures var s := Run(d, Start(d, c, grant), inputs);
            s.returned.None? ==> Ends(c, s, i, Run(d, Start(d, c, grant), inputs + [i]).returned)
  {
    StartReturns(d, c, grant);
    hide *;
    StartInv(d, c, grant);
    StartAligned(d, c, grant);
    RunKeepsInv(d, c, Start(d, c, grant), inputs);
    RunKeepsAligned(d, Start(d, c, grant), inputs);
    RunLast(d, Start(d, c, grant), inputs, i);
    var s := Run(d, Start(d, c, grant), inputs);
    if s.returned.None? { StepEnds(d, c, s, i); }
  }

  lemma StartReturns(d: Device, c: Call, grant: int)
    requires GoodCall(d, c)
    ensures Start(d, c, grant).returned == if c.len == 0 || grant <= 0 then Some(Words(0)) else None
  {
    hide FillAt;
    var s := Sending(0, 4 * c.len, c.bufp, NO_SLOTS,
                  [(RX_OFFLAST_REG, OffLast(c.offset, c.last)), (RX_LEN_REG, c.len)], None, [], 0);
    if c.len > 0 { FillFails(d, s, grant); }
  }

  // ---- What the device is told ----

  lemma {:induction false} BitOrFlag(a: nat, b: nat)
    requires a % 2 == 0
    ensures BitOr(a, b) % 2 == b % 2
    ensures b < 2 ==> BitOr(a, b) == a + b
  {
    if a > 0 && b > 0 {
      var rest := BitOr(a / 2, b / 2);
      assert BitOr(a, b) == 2 * rest + b % 2;
      assert b == 1 ==> rest == a / 2;
    }
  }

  /** The word that announces a transfer gives offset and flag back exactly when they fit 31 bits and one. */
  lemma OffLastReadsBack(offset: nat, last: nat)
    ensures OffLast(offset, last) / 2 == offset && OffLast(offset, last) % 2 == last <==>
            offset < 0x8000_0000 && last < 2
  {
    BitOrFlag(2 * offset % 0x1_0000_0000, last);
  }

  /** First the transfer, in registers 4 and 3; then each mapping, in registers 1, 2 and 0. */
  ghost predicate AllTold(d: Device, c: Call, s: Sending) {
    && |s.regs| >= 2 && s.regs[..2] == [(4, OffLast(c.offset, c.last)), (3, c.len)]
    && Announced(d, 0, s.regs[2..], s.slots)
  }

  lemma MappingTold(d: Device, c: Call, s: Sending, n: Sending, m: Mapping)
    requires AllTold(d, c, s) && n.regs == Program(s.regs, d, 0, m) && n.slots == s.slots.FreeFirst().Shift(m)
    ensures AllTold(d, c, n)
  {
    hide OffLast;
    AnnounceKeeps(d, 0, s.regs[2..], s.slots.FreeFirst(), m);
    assert n.regs[2..] == Program(s.regs[2..], d, 0, m);
    assert n.regs[..2] == s.regs[..2];
  }

  lemma SlotsFreedTold(d: Device, c: Call, s: Sending, n: Sending)
    requires AllTold(d, c, s) && n.regs == s.regs
    requires n.slots == s.slots || n.slots == s.slots.FreeFirst() || n.slots == s.slots.FreeBoth()
        || n.slots == s.slots.FreeFirst().FreeBoth()
    ensures AllTold(d, c, n)
  {
    hide OffLast;
  }

  lemma StepKeepsTold(d: Device, c: Call, s: Sending, i: Input)
    requires AllTold(d, c, s)
    ensures AllTold(d, c, Step(d, s, i))
  {
    hide FillAt, OffLast, AllTold;
    var n := Step(d, s, i);
    var released := s.(sent := s.sent + HeldLength(s.slots.map0), slots := s.slots.FreeFirst());
    var m := FillAt(d, released, i.grant);
    if s.returned.None? && i.wake.Message? && i.wake.kind == SG_BUF_READ && s.length > 0 && m.Some? {
      MappingTold(d, c, s, n, m.value);
    } else {
      SlotsFreedTold(d, c, s, n);
    }
  }

  lemma {:induction false} RunKeepsTold(d: Device, c: Call, s: Sending, inputs: seq<Input>)
    requires AllTold(d, c, s)
    ensures AllTold(d, c, Run(d, s, inputs))
    decreases |inputs|
  {
    hide Step, AllTold;
    if inputs != [] {
      StepKeepsTold(d, c, s, inputs[0]);
      RunKeepsTold(d, c, Step(d, s, inputs[0]), inputs[1..]);
    }
  }

  /** At every moment the device has been told of the transfer and of every mapping made for it. */
  lemma EveryMappingTold(d: Device, c: Call, grant: int, inputs: seq<Input>)
    ensures AllTold(d, c, Run(d, Start(d, c, grant), inputs))
  {
    hide FillAt, OffLast, Run;
    var regs := [(RX_OFFLAST_REG, OffLast(c.offset, c.last)), (RX_LEN_REG, c.len)];
    var s := Sending(0, 4 * c.len, c.bufp, NO_SLOTS, regs, None, [], 0);
    assert s.regs[2..] == [];
    var m := FillAt(d, s, grant);
    if c.len > 0 && m.Some? {
      AnnounceKeeps(d, 0, [], NO_SLOTS, m.value);
      assert Program(regs, d, 0, m.value)[2..] == Program([], d, 0, m.value);
      assert Program(regs, d, 0, m.value)[..2] == regs;
    }
    RunKeepsTold(d, c, Start(d, c, grant), inputs);
  }

  // ---- The entry check ----

  datatype IoResult = Accepted | NoChannel | Invalid

  /** Lines 901-914. */
  function Check(numChnls: nat, chnl: int, bufp: nat, len: nat): IoResult {
    if chnl >= numChnls || chnl < 0 then NoChannel
    else if (bufp + 4 * len - 1) % 0x1_0000_0000_0000_0000 < bufp then Invalid
    else if bufp % 4 != 0 then Invalid
    else Accepted
  }

  /**
   * The check finds the channel missing exactly if its number is none of the device's; for one of them it accepts, if
   * the buffer is not empty, exactly the aligned buffers that end within the address space, and else reports -EINVAL.
   */
  lemma CheckAccepts(numChnls: nat, chnl: int, bufp: nat, len: nat)
    requires bufp < 0x1_0000_0000_0000_0000 && len < 0x1_0000_0000
    ensures var verdict := Check(numChnls, chnl, bufp, len);
            && (verdict == NoChannel <==> !(0 <= chnl < numChnls))
            && (0 <= chnl < numChnls && len > 0 ==>
                  (verdict == Accepted <==> bufp % 4 == 0 && bufp + 4 * len <= 0x1_0000_0000_0000_0000))
  {}

  /** An empty transfer, which chnl_send would announce and answer with 0, is rejected unless its pointer is NULL. */
  lemma EmptyTransferRejected(numChnls: nat, chnl: int, bufp: nat)
    requires 0 <= chnl < numChnls && bufp < 0x1_0000_0000_0000_0000
    ensures Check(numChnls, chnl, bufp, 0) == Accepted <==> bufp == 0
  {
    if bufp > 0 {
      DivModUnique(bufp - 1, 0x1_0000_0000_0000_0000, 0, bufp - 1);
    } else {
      DivModUnique(-1, 0x1_0000_0000_0000_0000, -1, 0xFFFF_FFFF_FFFF_FFFF);
    }
  }

  // ---- The method ----

  ghost predicate Matches(s: Sending, sent: nat, length: nat, udata: nat, map0: Option<Held>, map1: Option<Held>,
      r: Option<Result>)
  {
    && s.sent == sent && s.length == length && s.udata == udata && s.returned == r
    && s.slots.map0 == map0 && s.slots.map1 == map1
  }

  lemma {:induction false} ReturnedStays(d: Device, s: Sending, inputs: seq<Input>)
    requires s.returned.Some?
    ensures Run(d, s, inputs) == s
    decreases |inputs|
  {
    if inputs != [] { ReturnedStays(d, s, inputs[1..]); }
  }

  /** What a checked call came to: refused, still waiting when the wake-ups ran out, or returned. */
  datatype Outcome = Refused(why: IoResult) | Busy | Waiting | Returned(result: Result)

  /** One send channel. */
  class SendChannel {
    const device: Device
    var busy: bool               // CHNL_FLAG_BUSY
    var sgMap0: Option<Held>
    var sgMap1: Option<Held>
    var buf: array<nat>
    var regs: seq<(nat, nat)>
    var made: nat                // allocation number of the next mapping
    ghost var slots: Slots

    ghost predicate Valid()
      reads this
    {
      DeviceWidth(device.numSg) && buf.Length * 4 == 4096 * (device.numSg / 200)
    }

    /** free_sg_buf(sgMap0); free_sg_buf(sgMap1). */
    method FreeBoth()
      requires slots.map0 == sgMap0 && slots.map1 == sgMap1
      modifies this`sgMap0, this`sgMap1, this`slots
      ensures slots == old(slots).FreeBoth() && sgMap0 == None && sgMap1 == None
    {
      slots := slots.FreeBoth();
      sgMap0, sgMap1 := None, None;
    }

    /** fill_sg_buf at the current position; the position moves past what was mapped and the device is told. */
    method MapMore(ghost c: Call, ghost s: Sending, udata: nat, length: nat, grant: int)
      returns (m: Option<Mapping>, udata': nat, length': nat)
      requires Valid() && GoodCall(device, c) && Mapped(c, s) && s.udata == udata && s.length == length > 0
          && regs == s.regs
      modifies this`regs, buf
      ensures m == FillAt(device, s, grant)
      ensures m.None? ==> regs == old(regs) && udata' == udata && length' == length
      ensures m.Some? ==> var n := Advance(device, s, m.value);
              regs == n.regs && udata' == n.udata && length' == n.length
      ensures m.Some? ==> Programmed(buf[..], m.value, device.spillAddr)
    {
      udata', length' := udata, length;
      m := FillSgBuf(device.numSg, buf, device.spillAddr, udata, length, 0, grant);
      if m.None? || m.value.NumSg() == 0 { return None, udata, length; }
      FillUserPart(device.numSg, udata, length, 0, grant);
      udata' := udata + m.value.length;
      length' := length - m.value.length;
      regs := regs + [(RX_SG_LEN_REG + 1, device.bufHwAddr % 0x1_0000_0000)];
      regs := regs + [(RX_SG_LEN_REG + 2, device.bufHwAddr / 0x1_0000_0000)];
      regs := regs + [(RX_SG_LEN_REG, 4 * m.value.NumSg())];
    }

    /** Lines 794-818: the call up to its message loop. */
    method Begin(c: Call, grant: int) returns (length: nat, udata: nat, r: Option<Result>)
      requires Valid() && GoodCall(device, c) && regs == []
      modifies this`sgMap0, this`sgMap1, this`made, this`slots, this`regs, buf
      ensures var s := Start(device, c, grant);
              Matches(s, 0, length, udata, sgMap0, sgMap1, r) && regs == s.regs && slots == s.slots
                && made == slots.made
    {
      hide Fill;
      sgMap0, sgMap1, made, slots := None, None, 0, NO_SLOTS;
      length, udata, r := c.len * 4, c.bufp, None;
      regs := [(RX_OFFLAST_REG, OffLast(c.offset, c.last)), (RX_LEN_REG, c.len)];
      if c.len == 0 {
        r := Some(Words(0));
        return;
      }
      ghost var s := Sending(0, 4 * c.len, c.bufp, NO_SLOTS, regs, None, [], 0);
      var m;
      m, udata, length := MapMore(c, s, udata, length, grant);
      if m.None? {
        r := Some(Words(0));
      } else {
        slots := slots.Overwrite(m.value);
        sgMap1, made := Some(Held(made, m.value)), made + 1;
      }
    }

    /** EVENT_SG_BUF_READ, lines 847-871. */
    method SgBufRead(ghost c: Call, ghost st: Sending, grant: int, sent: nat, length: nat, udata: nat)
      returns (sent': nat, length': nat, udata': nat, r: Option<Result>)
      requires Valid() && GoodCall(device, c) && Mapped(c, st)
      requires Matches(st, sent, length, udata, sgMap0, sgMap1, None)
      requires st.slots == slots && made == slots.made && regs == st.regs
      modifies this`sgMap0, this`sgMap1, this`made, this`slots, this`regs, buf
      ensures var n := OnBufferRead(device, st, grant);
              && Matches(n, sent', length', udata', sgMap0, sgMap1, r)
              && regs == n.regs && slots == n.slots && made == slots.made
    {
      hide Fill;
      length', udata', r := length, udata, None;
      sent' := sent + HeldLength(sgMap0);
      slots := slots.FreeFirst();
      sgMap0 := None;
      if length > 0 {
        ghost var released := st.(sent := sent', slots := slots);
        var m;
        m, udata', length' := MapMore(c, released, udata, length, grant);
        if m.None? {
          FreeBoth();
          r := Some(Words(sent' / 4));
        } else {
          slots := slots.Shift(m.value);
          sgMap0, sgMap1, made := sgMap1, Some(Held(made, m.value)), made + 1;
        }
      }
    }

    /** chnl_send, with the message queue already cleared; None when the wake-ups run out before it returns. */
    method Send(c: Call, grant: int, inputs: seq<Input>) returns (r: Option<Result>)
      requires Valid() && GoodCall(device, c) && regs == []
      modifies this`sgMap0, this`sgMap1, this`made, this`slots, this`regs, buf
      ensures var s := Run(device, Start(device, c, grant), inputs);
              && r == s.returned && regs == s.regs && slots == s.slots
              && sgMap0 == s.slots.map0 && sgMap1 == s.slots.map1
    {
      hide Mapped, OnBufferRead, FillAt, Start;
      var sent: nat, length: nat, udata: nat := 0, 0, 0;
      length, udata, r := Begin(c, grant);
      ghost var st := Start(device, c, grant);
      StartInv(device, c, grant);
      var i := 0;
      while i < |inputs| && r.None?
        invariant i <= |inputs| && Valid() && Inv(c, st)
        invariant Matches(st, sent, length, udata, sgMap0, sgMap1, r)
        invariant regs == st.regs && slots == st.slots && made == slots.made
        invariant Run(device, Start(device, c, grant), inputs) == Run(device, st, inputs[i..])
      {
        StepKeepsInv(device, c, st, inputs[i]);
        assert inputs[i..][1..] == inputs[i + 1..];
        match inputs[i].wake {
          case Signalled =>
            FreeBoth();
            r := Some(Restart);
          case TimedOut =>
            FreeBoth();
            r := Some(Words(sent / 4));
          case Message(kind, arg) =>
            if kind == SG_BUF_READ {
              sent, length, udata, r := SgBufRead(c, st, inputs[i].grant, sent, length, udata);
            } else if kind == TXN_DONE {
              sent := arg * 4;
              FreeBoth();
              r := Some(Words(sent / 4));
            }
        }
        st := Step(device, st, inputs[i]);
        i := i + 1;
      }
      if r.Some? { ReturnedStays(device, st, inputs[i..]); }
    }

    /** chnl_send_wrapcheck: the parameters are checked, then the busy flag is taken for the time of the call. */
    method SendChecked(numChnls: nat, chnl: int, c: Call, grant: int, inputs: seq<Input>) returns (o: Outcome)
      requires Valid() && regs == []
      requires c.bufp < 0x1_0000_0000_0000_0000 && c.len < 0x1_0000_0000 && c.offset < 0x1_0000_0000
          && c.last < 0x1_0000_0000
      modifies this, buf
      ensures var verdict := Check(numChnls, chnl, c.bufp, c.len);
              if verdict != Accepted then o == Refused(verdict)
              else if old(busy) then o == Busy
              else var r := Run(device, Start(device, c, grant), inputs).returned;
                   o == if r.Some? then Returned(r.value) else Waiting
      ensures !(o.Returned? || o.Waiting?) ==> unchanged(this) && unchanged(buf)
      ensures o.Returned? ==> !busy
      ensures o.Waiting? ==> busy
    {
      if chnl >= numChnls || chnl < 0 { return Refused(NoChannel); }
      var maxPtr := (c.bufp + c.len * 4 - 1) % 0x1_0000_0000_0000_0000;
      if maxPtr < c.bufp { return Refused(Invalid); }
      if c.bufp % 4 != 0 { return Refused(Invalid); }
      if busy { return Busy; }
      busy := true;
      if c.len > 0 {
        CheckAccepts(numChnls, chnl, c.bufp, c.len);
      } else {
        EmptyTransferRejected(numChnls, chnl, c.bufp);
      }
      var r := Send(c, grant, inputs);
      if r.None? { return Waiting; }
      busy := false;
      o := Returned(r.value);
    }
  }
}
