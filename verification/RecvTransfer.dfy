/** chnl_recv of riffa_driver.c: one call, driven by the messages of the interrupt handler. */
module RecvTransfer {
  import opened Wrappers
  import opened Arith
  import opened ScatterGather
  import opened Transfers

  const TX_SG_LEN_REG := 5

  /**
   * The position in the current transaction. All but the first three fields are history that no step reads: since the
   * last TXN_LEN, where the user range starts, how the transaction was split, what has been mapped of it, and how many
   * fills have reported more spill bytes than there were; `before` is how far udata had moved since the call began when
   * that TXN_LEN came, `shift` how far the user range starts from bufp.
   */
  datatype Position = Position(
    udata: nat, length: nat, overflow: nat,
    base: nat, toUser: nat, toSpill: nat, user: seq<Segment>, spilled: nat, wraps: nat, before: nat, shift: nat)
  {
    /** Offsets added and bytes mapped since the call began, up to now. */
    function Moved(): (n: nat)
    {
      shift + if length <= toUser then toUser - length else 0
    }
  }

  /**
   * The locals of chnl_recv and its channel. `clean`: the last TXN_LEN found both slots empty and no TXN_DONE
   * followed.
   */
  datatype Recv = Recv(
    last: int, offset: nat, recvd: nat, pos: Position, slots: Slots,
    regs: seq<(nat, nat)>, returned: Option<Result>, clean: bool)

  datatype Call = Call(bufp: nat, capacity: nat)

  function Start(c: Call): Recv {
    Recv(-1, 0, 0, Position(c.bufp, 0, 0, c.bufp, 0, 0, [], 0, 0, 0, 0), NO_SLOTS, [], None, false)
  }

  predicate AddressWraps(udata: nat, offset: nat, txn: nat) {
    (udata + offset + txn - 1) % 0x1_0000_0000_0000_0000 < udata
  }

  /** Lines 635-655: the transaction's bytes for the user buffer and for the spill buffer. */
  function Split(c: Call, udata: nat, offset: nat, txn: nat): (nat, nat) {
    var wraps := AddressWraps(udata, offset, txn);
    var length := if wraps then 0 else txn;
    if offset + length > c.capacity then
      if offset > c.capacity then (0, length)
      else (c.capacity - offset, length + offset - c.capacity)
    else (length, if wraps then txn else 0)
  }

  /** A new transaction; the user pointer moves by the offset only when there is something to map. */
  function Begin(c: Call, p: Position, offset: nat, txn: nat): Position {
    var (u, o) := Split(c, p.udata, offset, txn);
    var at := if u > 0 || o > 0 then (p.udata + offset) % 0x1_0000_0000_0000_0000 else p.udata;
    Position(at, u, o, at, u, o, [], 0, 0, p.Moved(), p.Moved() + if u > 0 || o > 0 then offset else 0)
  }

  function FillAt(d: Device, p: Position, grant: int): Option<Mapping> {
    var m := Fill(d.numSg, p.udata, p.length, p.overflow, grant);
    if m.None? || m.value.NumSg() == 0 then None else m
  }

  /** The position after mapping m from it. */
  function Advance(p: Position, m: Mapping): Position {
    p.(udata := (p.udata + m.length) % 0x1_0000_0000_0000_0000,
       length := if m.length <= p.length then p.length - m.length else 0,
       overflow := (p.overflow - m.overflow) % 0x1_0000_0000_0000_0000,
       user := p.user + m.segments,
       spilled := p.spilled + m.overflow,
       wraps := p.wraps + if m.overflow > p.overflow then 1 else 0)
  }

  function OnLength(d: Device, c: Call, s: Recv, txn: nat, grant: int): Recv {
    var p := Begin(c, s.pos, s.offset, txn);
    var begun := s.(pos := p, recvd := 0, clean := s.slots.map0.None? && s.slots.map1.None?);
    if p.length == 0 && p.overflow == 0 then begun
    else match FillAt(d, p, grant)
      case None => begun.(slots := s.slots.Abandon(), returned := Some(Words(0)))
      case Some(m) =>
        begun.(pos := Advance(p, m), slots := s.slots.Overwrite(m), regs := Program(s.regs, d, TX_SG_LEN_REG, m))
  }

  function OnBufferRead(d: Device, s: Recv, grant: int): Recv {
    if s.last == -1 then s
    else
      var released := s.(recvd := s.recvd + HeldLength(s.slots.map0), slots := s.slots.FreeFirst());
      if s.pos.length == 0 && s.pos.overflow == 0 then released
      else match FillAt(d, s.pos, grant)
        case None => released.(slots := released.slots.FreeBoth(), returned := Some(Words(released.recvd / 4)))
        case Some(m) =>
          released.(pos := Advance(s.pos, m), slots := released.slots.Shift(m),
            regs := Program(s.regs, d, TX_SG_LEN_REG, m))
  }

  function OnDone(s: Recv, words: nat): Recv {
    if s.last == -1 then s
    else s.(recvd := 4 * words, slots := s.slots.FreeBoth(), clean := false,
            returned := if s.last != 0 then Some(Words(words)) else None)
  }

  function Step(d: Device, c: Call, s: Recv, i: Input): Recv {
    if s.returned.Some? then s
    else match i.wake
      case Message(kind, arg) =>
        if kind == TXN_OFFLAST then s.(offset := 4 * (arg / 2), last := arg % 2)
        else if kind == TXN_LEN then OnLength(d, c, s, 4 * arg, i.grant)
        else if kind == SG_BUF_READ then OnBufferRead(d, s, i.grant)
        else if kind == TXN_DONE then OnDone(s, arg)
        else s
      case TimedOut => s.(slots := s.slots.FreeBoth(), returned := Some(Words(s.recvd / 4)))
      case Signalled => s.(slots := s.slots.FreeBoth(), returned := Some(Restart))
  }

  function Run(d: Device, c: Call, s: Recv, inputs: seq<Input>): Recv
    decreases |inputs|
  {
    if inputs == [] then s else Run(d, c, Step(d, c, s, inputs[0]), inputs[1..])
  }

  // ---- What one call may assume ----

  /** Parameters as chnl_recv_wrapcheck passes them, and message arguments as 32-bit register values. */
  ghost predicate GoodCall(d: Device, c: Call) {
    DeviceWidth(d.numSg) && c.bufp < 0x1_0000_0000_0000_0000 && c.capacity < 0x4_0000_0000
  }

  predicate GoodInput(i: Input) {
    i.wake.Message? ==> i.wake.arg < 0x1_0000_0000
  }

  predicate GoodInputs(inputs: seq<Input>) {
    forall i | i in inputs :: GoodInput(i)
  }

  // ---- Splitting a transaction ----

  lemma WrapTest(udata: nat, offset: nat, txn: nat)
    requires udata < 0x1_0000_0000_0000_0000 && 0 < offset + txn < 0x10_0000_0000
    ensures AddressWraps(udata, offset, txn) <==> udata + offset + txn > 0x1_0000_0000_0000_0000
  {}

  /** The user part is what falls inside the caller's buffer, and never runs past the end of the address space. */
  lemma SplitUserPart(c: Call, udata: nat, offset: nat, txn: nat)
    requires udata < 0x1_0000_0000_0000_0000 && offset + txn < 0x10_0000_0000
    ensures var (u, o) := Split(c, udata, offset, txn);
            && (!AddressWraps(udata, offset, txn) ==>
              u == if offset >= c.capacity then 0 else Min(txn, c.capacity - offset))
            && (AddressWraps(udata, offset, txn) ==> u == 0)
            && o <= txn
            && (u > 0 ==> offset + u <= c.capacity && udata + offset + u <= 0x1_0000_0000_0000_0000)
  {
    if offset + txn > 0 { WrapTest(udata, offset, txn); }
  }

  /** No byte of the transaction is forgotten, unless the address wraps and the offset lies past the buffer as well. */
  lemma SplitConserves(c: Call, udata: nat, offset: nat, txn: nat)
    ensures var (u, o) := Split(c, udata, offset, txn);
            u + o == txn <==> !(AddressWraps(udata, offset, txn) && offset > c.capacity && txn > 0)
  {}

  // ---- Invariant of every run ----

  ghost predicate Bounded(p: Position) {
    && p.udata < 0x1_0000_0000_0000_0000
    && p.overflow < 0x1_0000_0000_0000_0000
    && p.length <= p.toUser && p.base + p.toUser <= 0x1_0000_0000_0000_0000
    && p.udata == (p.base + p.toUser - p.length) % 0x1_0000_0000_0000_0000
  }

  /** The user ranges mapped since the last TXN_LEN lie end to end from where that transaction starts. */
  ghost predicate UserTiled(p: Position) {
    && p.length <= p.toUser
    && Tiles(p.user, p.base, p.base + p.toUser - p.length)
    && (forall g | g in p.user :: InOnePage(g))
  }

  /**
   * Spill bytes mapped and still to map are those of the transaction, plus 2^64 for every fill that reported too
   * many.
   */
  ghost predicate SpillCounted(p: Position) {
    p.spilled + p.overflow == p.toSpill + 0x1_0000_0000_0000_0000 * p.wraps
  }

  /** Amounts of overflow for which the spill loop's subtraction is exact however many elements are free. */
  predicate SpillSafe(overflow: nat) {
    overflow < 4096 || overflow % 4096 == 0
  }

  ghost predicate SpillExactly(p: Position) {
    SpillSafe(p.toSpill) ==> SpillSafe(p.overflow) && p.wraps == 0
  }

  ghost predicate Progress(p: Position) {
    Bounded(p) && UserTiled(p) && SpillCounted(p) && SpillExactly(p)
  }

  /**
   * Between a TXN_LEN that found nothing mapped and the TXN_DONE, every user byte is received, held or still to map.
   */
  ghost predicate UserBalanced(s: Recv) {
    s.clean ==> s.recvd + s.slots.Bytes() + s.pos.length == s.pos.toUser
  }

  ghost predicate Inv(s: Recv) {
    && Progress(s.pos)
    && s.offset < 0x2_0000_0000
    && (s.returned.None? ==> s.slots.Accounted() && UserBalanced(s) && (s.slots.map0.Some? ==> s.slots.map1.Some?))
    && (s.returned.Some? && s.slots.lost == [] ==> s.slots.AllFreedOnce())
  }

  lemma Wrap64Add(a: int, b: int)
    ensures (a % 0x1_0000_0000_0000_0000 + b) % 0x1_0000_0000_0000_0000 == (a + b) % 0x1_0000_0000_0000_0000
  {
    AddMultiple(a % 0x1_0000_0000_0000_0000 + b, 0x1_0000_0000_0000_0000, a / 0x1_0000_0000_0000_0000);
  }

  lemma BeginProgress(c: Call, p: Position, offset: nat, txn: nat)
    requires p.udata < 0x1_0000_0000_0000_0000 && offset < 0x2_0000_0000 && txn < 0x4_0000_0000
    ensures Progress(Begin(c, p, offset, txn))
  {
    SplitUserPart(c, p.udata, offset, txn);
    var b := Begin(c, p, offset, txn);
    if b.toUser > 0 { DivModUnique(p.udata + offset, 0x1_0000_0000_0000_0000, 0, p.udata + offset); }
    DivModUnique(b.base, 0x1_0000_0000_0000_0000, 0, b.base);
  }

  lemma BeginAfterInv(c: Call, s: Recv, txn: nat)
    requires Inv(s) && txn < 0x4_0000_0000
    ensures Progress(Begin(c, s.pos, s.offset, txn))
  {
    BeginProgress(c, s.pos, s.offset, txn);
  }

  lemma FillFails(d: Device, p: Position, grant: int)
    requires DeviceWidth(d.numSg) && p.overflow < 0x1_0000_0000_0000_0000 && (p.length > 0 || p.overflow > 0)
    ensures FillAt(d, p, grant).None? <==> p.length > 0 && grant <= 0
  {
    if Fill(d.numSg, p.udata, p.length, p.overflow, grant).Some? {
      FillSpillPart(d.numSg, p.udata, p.length, p.overflow, grant);
    }
  }

  lemma PositionIsExact(p: Position)
    requires Bounded(p) && p.length > 0
    ensures p.udata == p.base + p.toUser - p.length
  {
    DivModUnique(p.udata, 0x1_0000_0000_0000_0000, 0, p.base + p.toUser - p.length);
  }

  lemma AdvanceBounds(p: Position, m: Mapping)
    requires Bounded(p) && m.length <= p.length
    ensures Bounded(Advance(p, m))
  {
    Wrap64Add(p.base + p.toUser - p.length, m.length);
  }

  lemma AdvanceTiling(d: Device, p: Position, grant: int)
    requires DeviceWidth(d.numSg) && UserTiled(p) && FillAt(d, p, grant).Some?
    requires p.length > 0 ==> p.udata == p.base + p.toUser - p.length
    ensures UserTiled(Advance(p, FillAt(d, p, grant).value))
  {
    var m := FillAt(d, p, grant).value;
    FillUserPart(d.numSg, p.udata, p.length, p.overflow, grant);
    if p.length > 0 {
      TilesConcat(p.user, m.segments, p.base, p.udata, p.udata + m.length);
    } else {
      assert m.segments == Segments(p.udata, 0, 0);
      assert p.user + m.segments == p.user;
    }
  }

  lemma AdvanceSpill(p: Position, m: Mapping)
    requires SpillCounted(p) && p.overflow < 0x1_0000_0000_0000_0000 && m.overflow < 0x1_0000_0000_0000_0000
    ensures SpillCounted(Advance(p, m))
  {
    var left := p.overflow - m.overflow;
    if left < 0 {
      DivModUnique(left, 0x1_0000_0000_0000_0000, -1, left + 0x1_0000_0000_0000_0000);
    } else {
      DivModUnique(left, 0x1_0000_0000_0000_0000, 0, left);
    }
  }

  /**
   * A fill reports too much exactly when it reaches the spill loop with an overflow for which that loop is not exact.
   */
  lemma FillWrapsIff(d: Device, p: Position, grant: int)
    requires DeviceWidth(d.numSg) && p.overflow < 0x1_0000_0000_0000_0000 && FillAt(d, p, grant).Some?
    ensures var m := FillAt(d, p, grant).value;
            && |m.segments| <= d.numSg
            && (Advance(p, m).wraps == p.wraps + 1 || Advance(p, m).wraps == p.wraps)
            && (Advance(p, m).wraps == p.wraps + 1 <==>
              m.length == p.length && !SpillExact(p.overflow, d.numSg - |m.segments|))
  {
    FillUserPart(d.numSg, p.udata, p.length, p.overflow, grant);
    FillSpillPart(d.numSg, p.udata, p.length, p.overflow, grant);
    SpillReport(p.overflow, d.numSg - |FillAt(d, p, grant).value.segments|);
  }

  lemma SafeReport(overflow: nat, free: nat)
    requires overflow < 0x1_0000_0000_0000_0000 && SpillSafe(overflow)
    ensures SpillRecorded(overflow, free) <= overflow && SpillSafe(overflow - SpillRecorded(overflow, free))
  {
    SpillReportExact(overflow, free);
  }

  lemma AdvanceSpillExactly(d: Device, p: Position, grant: int)
    requires DeviceWidth(d.numSg) && Bounded(p) && SpillExactly(p) && FillAt(d, p, grant).Some?
    ensures SpillExactly(Advance(p, FillAt(d, p, grant).value))
  {
    var m := FillAt(d, p, grant).value;
    FillUserPart(d.numSg, p.udata, p.length, p.overflow, grant);
    FillSpillPart(d.numSg, p.udata, p.length, p.overflow, grant);
    if SpillSafe(p.toSpill) {
      if m.length == p.length { SafeReport(p.overflow, d.numSg - |m.segments|); }
      assert m.overflow <= p.overflow;
      DivModUnique(p.overflow - m.overflow, 0x1_0000_0000_0000_0000, 0, p.overflow - m.overflow);
    }
  }

  /** A successful fill keeps the position's invariant and shortens the user part by exactly what it mapped. */
  lemma AdvanceProgress(d: Device, p: Position, grant: int)
    requires DeviceWidth(d.numSg) && Progress(p) && FillAt(d, p, grant).Some?
    ensures var m := FillAt(d, p, grant).value;
            Progress(Advance(p, m)) && m.length <= p.length && Advance(p, m).length == p.length - m.length
  {
    FillUserPart(d.numSg, p.udata, p.length, p.overflow, grant);
    if p.length > 0 { PositionIsExact(p); }
    AdvanceBounds(p, FillAt(d, p, grant).value);
    AdvanceTiling(d, p, grant);
    FillSpillPart(d.numSg, p.udata, p.length, p.overflow, grant);
    AdvanceSpill(p, FillAt(d, p, grant).value);
    AdvanceSpillExactly(d, p, grant);
  }

  lemma LengthKeepsInv(d: Device, c: Call, s: Recv, txn: nat, grant: int)
    requires GoodCall(d, c) && Inv(s) && s.returned.None? && txn < 0x4_0000_0000
    ensures Inv(OnLength(d, c, s, txn, grant))
  {
    BeginProgress(c, s.pos, s.offset, txn);
    var p := Begin(c, s.pos, s.offset, txn);
    if p.length > 0 || p.overflow > 0 {
      if FillAt(d, p, grant).Some? {
        AdvanceProgress(d, p, grant);
        OverwriteKeeps(s.slots, FillAt(d, p, grant).value);
      } else {
        AbandonKeeps(s.slots);
      }
    }
  }

  lemma BufferReadKeepsInv(d: Device, s: Recv, grant: int)
    requires DeviceWidth(d.numSg) && Inv(s) && s.returned.None?
    ensures Inv(OnBufferRead(d, s, grant))
  {
    if s.last != -1 {
      FreeFirstKeeps(s.slots);
      if s.pos.length > 0 || s.pos.overflow > 0 {
        if FillAt(d, s.pos, grant).Some? {
          AdvanceProgress(d, s.pos, grant);
          ShiftKeeps(s.slots.FreeFirst(), FillAt(d, s.pos, grant).value);
        } else {
          FreeBothKeeps(s.slots.FreeFirst());
        }
      }
    }
  }

  lemma StepKeepsInv(d: Device, c: Call, s: Recv, i: Input)
    requires GoodCall(d, c) && GoodInput(i) && Inv(s)
    ensures Inv(Step(d, c, s, i))
  {
    if s.returned.None? {
      FreeBothKeeps(s.slots);
      if i.wake.Message? {
        if i.wake.kind == TXN_LEN { LengthKeepsInv(d, c, s, 4 * i.wake.arg, i.grant); }
        else if i.wake.kind == SG_BUF_READ { BufferReadKeepsInv(d, s, i.grant); }
      }
    }
  }

  /** Main theorem, for every list of messages: tiling, page bounds, both balances and the fate of every mapping. */
  lemma {:induction false} RunKeepsInv(d: Device, c: Call, s: Recv, inputs: seq<Input>)
    requires GoodCall(d, c) && GoodInputs(inputs) && Inv(s)
    ensures Inv(Run(d, c, s, inputs))
    decreases |inputs|
  {
    if inputs != [] {
      StepKeepsInv(d, c, s, inputs[0]);
      RunKeepsInv(d, c, Step(d, c, s, inputs[0]), inputs[1..]);
    }
  }

  lemma StartInv(d: Device, c: Call)
    requires GoodCall(d, c)
    ensures Inv(Start(c))
  {
    DivModUnique(c.bufp, 0x1_0000_0000_0000_0000, 0, c.bufp);
  }

  // ---- What the messages say ----

  /** The word of the last TXN_OFFLAST message. */
  function Announcement(inputs: seq<Input>): Option<nat>
    decreases |inputs|
  {
    if inputs == [] then None
    else
      var i := inputs[|inputs| - 1];
      if i.wake.Message? && i.wake.kind == TXN_OFFLAST then Some(i.wake.arg) else Announcement(inputs[..|inputs| - 1])
  }

  /** The offset announced last, in words; 0 if none has been. */
  function WordOffset(inputs: seq<Input>): nat {
    match Announcement(inputs) case None => 0 case Some(w) => w / 2
  }

  /** The transaction announced last is the last one of the call. */
  predicate LastAnnounced(inputs: seq<Input>) {
    Announcement(inputs).Some? && Announcement(inputs).value % 2 == 1
  }

  /** The message with word 2 * off + last announces a transaction off words into the buffer, with that flag. */
  lemma OffsetMessage(d: Device, c: Call, inputs: seq<Input>, off: nat, last: nat, grant: int)
    requires off < 0x8000_0000 && last < 2
    ensures var i := Input(Message(TXN_OFFLAST, 2 * off + last), grant);
            && GoodInput(i) && WordOffset(inputs + [i]) == off && (LastAnnounced(inputs + [i]) <==> last == 1)
            && (Run(d, c, Start(c), inputs).returned.None? ==>
                  var s, n := Run(d, c, Start(c), inputs), Run(d, c, Start(c), inputs + [i]);
                  n == s.(offset := 4 * off, last := last))
  {
    RunLast(d, c, Start(c), inputs, Input(Message(TXN_OFFLAST, 2 * off + last), grant));
    hide Run;
    assert (2 * off + last) / 2 == off && (2 * off + last) % 2 == last;
  }

  lemma {:induction false} RunLast(d: Device, c: Call, s: Recv, inputs: seq<Input>, i: Input)
    ensures Run(d, c, s, inputs + [i]) == Step(d, c, Run(d, c, s, inputs), i)
    decreases |inputs|
  {
    if inputs == [] {
      assert [i][1..] == [];
    } else {
      assert (inputs + [i])[0] == inputs[0] && (inputs + [i])[1..] == inputs[1..] + [i];
      hide Step;
      RunLast(d, c, Step(d, c, s, inputs[0]), inputs[1..], i);
    }
  }

  /** Offset and flag of a step: those of a TXN_OFFLAST, else as they were; and a call that has returned stays so. */
  lemma StepAnnouncement(d: Device, c: Call, s: Recv, i: Input)
    ensures var n := Step(d, c, s, i);
            && (s.returned.Some? ==> n == s)
            && (if s.returned.None? && i.wake.Message? && i.wake.kind == TXN_OFFLAST
                then n.offset == 4 * (i.wake.arg / 2) && n.last == i.wake.arg % 2
                else n.offset == s.offset && n.last == s.last)
  {
    hide OnLength, FillAt;
    if i.wake.Message? { LengthKeepsAnnouncement(d, c, s, 4 * i.wake.arg, i.grant); }
  }

  lemma LengthKeepsAnnouncement(d: Device, c: Call, s: Recv, txn: nat, grant: int)
    ensures OnLength(d, c, s, txn, grant).offset == s.offset && OnLength(d, c, s, txn, grant).last == s.last
  {
    hide FillAt, Begin;
  }

  /** While a call runs, its offset and flag are those of the last TXN_OFFLAST. */
  lemma {:induction false} RunAnnouncement(d: Device, c: Call, inputs: seq<Input>)
    requires Run(d, c, Start(c), inputs).returned.None?
    ensures var s := Run(d, c, Start(c), inputs);
            && s.offset == 4 * WordOffset(inputs)
            && s.last == match Announcement(inputs) case None => -1 case Some(w) => w % 2
    decreases |inputs|
  {
    if inputs != [] {
      var before, i := inputs[..|inputs| - 1], inputs[|inputs| - 1];
      assert inputs == before + [i];
      RunLast(d, c, Start(c), before, i);
      StepAnnouncement(d, c, Run(d, c, Start(c), before), i);
      hide Run, Step, Start;
      RunAnnouncement(d, c, before);
    }
  }

  // ---- One transaction ----

  predicate NoLength(inputs: seq<Input>) {
    forall i | i in inputs :: !(i.wake.Message? && i.wake.kind == TXN_LEN)
  }

  lemma {:induction false} RunConcat(d: Device, c: Call, s: Recv, a: seq<Input>, b: seq<Input>)
    ensures Run(d, c, s, a + b) == Run(d, c, Run(d, c, s, a), b)
    decreases |a|
  {
    if a == [] {
      assert a + b == b;
    } else {
      assert (a + b)[0] == a[0] && (a + b)[1..] == a[1..] + b;
      RunConcat(d, c, Step(d, c, s, a[0]), a[1..], b);
    }
  }

  /** Without a TXN_LEN nothing is ever mapped. */
  lemma {:induction false} IdleUntilLength(d: Device, c: Call, s: Recv, inputs: seq<Input>)
    requires NoLength(inputs) && s.pos.length == 0 && s.pos.overflow == 0 && s.slots.map0.None? && s.slots.map1.None?
    ensures Run(d, c, s, inputs).pos == s.pos && Run(d, c, s, inputs).slots == s.slots
    decreases |inputs|
  {
    if inputs != [] { IdleUntilLength(d, c, Step(d, c, s, inputs[0]), inputs[1..]); }
  }

  /** Only a TXN_LEN changes what the transaction is meant to map. */
  lemma {:induction false} PlanStays(d: Device, c: Call, s: Recv, inputs: seq<Input>)
    requires NoLength(inputs)
    ensures var n := Run(d, c, s, inputs).pos;
            n.base == s.pos.base && n.toUser == s.pos.toUser && n.toSpill == s.pos.toSpill
    decreases |inputs|
  {
    if inputs != [] { PlanStays(d, c, Step(d, c, s, inputs[0]), inputs[1..]); }
  }

  lemma {:induction false} TilesInside(segs: seq<Segment>, from: nat, to: nat)
    requires Tiles(segs, from, to)
    ensures from <= to && to == from + Bytes(segs)
    ensures forall g | g in segs :: from <= g.addr && g.addr + g.len <= to
  {
    if segs != [] { TilesInside(segs[1..], from + segs[0].len, to); }
  }

  /** In a call with one TXN_LEN, at every later moment, where the user and spill bytes of the transaction are. */
  ghost predicate OneTransactionHolds(c: Call, offset: nat, txn: nat, p: Position) {
    var (u, o) := Split(c, c.bufp, offset, txn);
    && p.toUser == u && p.toSpill == o && p.length <= u
    && (u > 0 ==> p.base == c.bufp + offset)
    && Tiles(p.user, p.base, p.base + u - p.length)
    && (forall g | g in p.user :: InOnePage(g) && c.bufp <= g.addr && g.addr + g.len <= c.bufp + c.capacity)
    && Bytes(p.user) + p.spilled + p.length + p.overflow == u + o + 0x1_0000_0000_0000_0000 * p.wraps
    && (Bytes(p.user) + p.spilled + p.length + p.overflow == txn <==>
          p.wraps == 0 && !(AddressWraps(c.bufp, offset, txn) && offset > c.capacity && txn > 0))
    && (SpillSafe(o) ==> p.wraps == 0)
  }

  /**
   * Main theorem for a call with a single TXN_LEN: with the word offset of the last TXN_OFFLAST before it, four bytes
   * to a word, the mapped user ranges tile the part of [bufp + offset, bufp + offset + txn) that lies in the caller's
   * buffer, in order and nowhere else; and bytes mapped to user memory, mapped to spill space and still to be mapped
   * add up to the transaction exactly when no fill has reported too much spill space and the transaction was not
   * dropped by both checks.
   */
  lemma OneTransaction(d: Device, c: Call, before: seq<Input>, words: nat, grant: int, after: seq<Input>)
    requires GoodCall(d, c) && GoodInputs(before) && GoodInputs(after) && NoLength(before) && NoLength(after)
    requires words < 0x1_0000_0000
    requires Run(d, c, Start(c), before).returned.None?
    ensures OneTransactionHolds(c, 4 * WordOffset(before), 4 * words,
                                Run(d, c, Start(c), before + [Input(Message(TXN_LEN, words), grant)] + after).pos)
  {
    var len := Input(Message(TXN_LEN, words), grant);
    StartInv(d, c);
    RunKeepsInv(d, c, Start(c), before);
    RunAnnouncement(d, c, before);
    IdleUntilLength(d, c, Start(c), before);
    var s := Run(d, c, Start(c), before);
    var t := Step(d, c, s, len);
    assert Run(d, c, s, [len]) == t;
    RunConcat(d, c, Start(c), before, [len]);
    RunConcat(d, c, Start(c), before + [len], after);
    StepKeepsInv(d, c, s, len);
    RunKeepsInv(d, c, t, after);
    PlanStays(d, c, t, after);
    PlanHolds(c, s.pos, s.offset, 4 * words, Run(d, c, t, after).pos);
  }

  lemma PlanHolds(c: Call, start: Position, offset: nat, txn: nat, p: Position)
    requires start.udata == c.bufp < 0x1_0000_0000_0000_0000 && offset < 0x2_0000_0000 && txn < 0x4_0000_0000
    requires Progress(p)
    requires var b := Begin(c, start, offset, txn); p.base == b.base && p.toUser == b.toUser && p.toSpill == b.toSpill
    ensures OneTransactionHolds(c, offset, txn, p)
  {
    SplitUserPart(c, c.bufp, offset, txn);
    SplitConserves(c, c.bufp, offset, txn);
    if p.toUser > 0 { DivModUnique(c.bufp + offset, 0x1_0000_0000_0000_0000, 0, c.bufp + offset); }
    TilesInside(p.user, p.base, p.base + p.toUser - p.length);
    forall g | g in p.user ensures c.bufp <= g.addr && g.addr + g.len <= c.bufp + c.capacity {
      assert InOnePage(g);
      assert p.toUser > 0;
    }
  }

  // ---- Where the accounting stops being exact ----

  /**
   * A transaction entirely for the spill buffer, on a call without user space: the first fill accounts for it
   * exactly when SpillExact holds; otherwise it claims 4096 bytes for each of the device's elements, more than
   * the transaction has, and the remaining overflow wraps to a huge number.
   */
  lemma SpillOnlyFirstFill(d: Device, c: Call, words: nat, grant: int)
    requires GoodCall(d, c) && c.capacity == 0 && 0 < words < 0x1_0000_0000
        && c.bufp + 4 * words <= 0x1_0000_0000_0000_0000
    ensures var p := Run(d, c, Start(c),
        [Input(Message(TXN_OFFLAST, 1), 0), Input(Message(TXN_LEN, words), grant)]).pos;
            && (p.spilled + p.overflow == 4 * words <==> SpillExact(4 * words, d.numSg))
            && (!SpillExact(4 * words, d.numSg) ==>
                  p.spilled == 4096 * d.numSg > 4 * words
                    && p.overflow == 0x1_0000_0000_0000_0000 + 4 * words - p.spilled)
  {
    var i0, i1 := Input(Message(TXN_OFFLAST, 1), 0), Input(Message(TXN_LEN, words), grant);
    var s := Step(d, c, Start(c), i0);
    var t := Step(d, c, s, i1);
    assert [i0, i1][1..] == [i1];
    assert Run(d, c, s, [i1]) == t;
    assert Run(d, c, Start(c), [i0, i1]) == t;
    WrapTest(c.bufp, 0, 4 * words);
    var b := Begin(c, s.pos, 0, 4 * words);
    assert b.length == 0 && b.overflow == 4 * words;
    FillFails(d, b, grant);
    var m := FillAt(d, b, grant).value;
    FillUserPart(d.numSg, b.udata, 0, 4 * words, grant);
    FillSpillPart(d.numSg, b.udata, 0, 4 * words, grant);
    assert |m.segments| == 0;
    SpillReport(4 * words, d.numSg);
    if SpillExact(4 * words, d.numSg) {
      DivModUnique(4 * words - m.overflow, 0x1_0000_0000_0000_0000, 0, 4 * words - m.overflow);
    } else {
      DivModUnique(4 * words - m.overflow, 0x1_0000_0000_0000_0000, -1,
        0x1_0000_0000_0000_0000 + 4 * words - m.overflow);
    }
  }

  // ---- Several transactions in one call ----

  /** The user range starts `shift` bytes behind bufp, in 64-bit arithmetic. */
  ghost predicate Located(c: Call, p: Position) {
    p.base == Mod64(c.bufp + p.shift)
  }

  lemma MovedTo(c: Call, p: Position)
    requires Bounded(p) && Located(c, p)
    ensures p.udata == Mod64(c.bufp + p.Moved())
  {
    Mod64Add(c.bufp + p.shift, p.toUser - p.length);
    assert p.udata == Mod64(p.base + p.toUser - p.length);
  }

  lemma BeginBase(c: Call, p: Position, offset: nat, txn: nat)
    ensures var b := Begin(c, p, offset, txn);
            && b.before == p.Moved()
            && b.shift == p.Moved() + (if b.toUser > 0 || b.toSpill > 0 then offset else 0)
            && b.base == if b.toUser > 0 || b.toSpill > 0 then Mod64(p.udata + offset) else p.udata
  {
    hide Split;
  }

  lemma BeginLocated(c: Call, p: Position, offset: nat, txn: nat)
    requires Bounded(p) && Located(c, p)
    ensures Located(c, Begin(c, p, offset, txn))
  {
    BeginBase(c, p, offset, txn);
    MovedTo(c, p);
    hide Mod64, Begin, Bounded;
    Mod64Add(c.bufp + p.Moved(), offset);
  }

  /** Only a TXN_LEN changes where the user range is to start. */
  lemma StepKeepsPlace(d: Device, c: Call, s: Recv, i: Input)
    ensures var p := Step(d, c, s, i).pos;
            var q := if s.returned.None? && i.wake.Message? && i.wake.kind == TXN_LEN
                then Begin(c, s.pos, s.offset, 4 * i.wake.arg) else s.pos;
            p.base == q.base && p.shift == q.shift
  {
    hide Begin, FillAt;
  }

  lemma StepKeepsLocated(d: Device, c: Call, s: Recv, i: Input)
    requires Progress(s.pos) && Located(c, s.pos)
    ensures Located(c, Step(d, c, s, i).pos)
  {
    StepKeepsPlace(d, c, s, i);
    hide Step, Begin, Mod64;
    if s.returned.None? && i.wake.Message? && i.wake.kind == TXN_LEN {
      BeginLocated(c, s.pos, s.offset, 4 * i.wake.arg);
    }
  }

  lemma {:induction false} RunKeepsLocated(d: Device, c: Call, s: Recv, inputs: seq<Input>)
    requires GoodCall(d, c) && GoodInputs(inputs) && Inv(s) && Located(c, s.pos)
    ensures Located(c, Run(d, c, s, inputs).pos)
    decreases |inputs|
  {
    hide Step, Located;
    if inputs != [] {
      StepKeepsInv(d, c, s, inputs[0]);
      StepKeepsLocated(d, c, s, inputs[0]);
      RunKeepsLocated(d, c, Step(d, c, s, inputs[0]), inputs[1..]);
    }
  }

  /** Both invariants, for every list of wake-ups from the start of the call. */
  lemma EveryPosition(d: Device, c: Call, inputs: seq<Input>)
    requires GoodCall(d, c) && GoodInputs(inputs)
    ensures Inv(Run(d, c, Start(c), inputs)) && Located(c, Run(d, c, Start(c), inputs).pos)
  {
    StartInv(d, c);
    Mod64Small(c.bufp);
    assert Located(c, Start(c).pos);
    hide Mod64, Located, Inv;
    RunKeepsInv(d, c, Start(c), inputs);
    RunKeepsLocated(d, c, Start(c), inputs);
  }

  ghost predicate InsideBuffer(c: Call, segs: seq<Segment>) {
    forall g | g in segs :: c.bufp <= g.addr && g.addr + g.len <= c.bufp + c.capacity
  }

  lemma {:induction false} TilesEnds(segs: seq<Segment>, from: nat, to: nat)
    requires Tiles(segs, from, to) && segs != []
    ensures segs[0].addr == from && segs[|segs| - 1].addr + segs[|segs| - 1].len == to
  {
    if |segs| > 1 {
      TilesEnds(segs[1..], from + segs[0].len, to);
    } else {
      assert Tiles(segs[1..], from + segs[0].len, to) && segs[1..] == [];
    }
  }

  /** Ranges that tile [from, to) lie in the buffer exactly when from and to do. */
  lemma InsideByEnds(c: Call, segs: seq<Segment>, from: nat, to: nat)
    requires Tiles(segs, from, to) && from < to
    ensures InsideBuffer(c, segs) <==> c.bufp <= from && to <= c.bufp + c.capacity
  {
    TilesInside(segs, from, to);
    TilesEnds(segs, from, to);
    assert segs[0] in segs && segs[|segs| - 1] in segs;
  }

  lemma InsideIff(c: Call, p: Position)
    requires UserTiled(p) && Located(c, p) && c.bufp < 0x1_0000_0000_0000_0000 && p.length < p.toUser
    requires p.base + p.toUser <= 0x1_0000_0000_0000_0000
    ensures var at, mapped := Mod64(p.shift), p.toUser - p.length;
            InsideBuffer(c, p.user) <==> c.bufp + at < 0x1_0000_0000_0000_0000 && at + mapped <= c.capacity
  {
    var at, mapped := Mod64(p.shift), p.toUser - p.length;
    InsideByEnds(c, p.user, p.base, p.base + mapped);
    hide Mod64, Tiles, InsideBuffer;
    Mod64Add(p.shift, c.bufp);
    if c.bufp + at < 0x1_0000_0000_0000_0000 {
      Mod64Small(c.bufp + at);
    } else {
      Mod64Once(c.bufp + at - 0x1_0000_0000_0000_0000);
    }
  }

  lemma PlaceInBuffer(d: Device, c: Call, s: Recv)
    requires GoodCall(d, c) && Inv(s) && Located(c, s.pos)
    ensures var p := s.pos;
            var at, mapped := Mod64(p.shift), p.toUser - p.length;
            && mapped >= 0 && p.base == Mod64(c.bufp + at) && Tiles(p.user, p.base, p.base + mapped)
            && (mapped > 0 ==>
                  (InsideBuffer(c, p.user) <==> c.bufp + at < 0x1_0000_0000_0000_0000 && at + mapped <= c.capacity))
  {
    hide Mod64, Tiles, InsideBuffer;
    Mod64Add(s.pos.shift, c.bufp);
    if s.pos.length < s.pos.toUser { InsideIff(c, s.pos); }
  }

  /**
   * Main theorem for calls with any number of transactions: at every moment, what has been mapped for the current one
   * lies inside the caller's buffer exactly when its distance from bufp (offsets added and bytes mapped by all earlier
   * ones, plus its own offset) and its own length fit the capacity, without a wrap of the address.
   */
  lemma EveryTransaction(d: Device, c: Call, inputs: seq<Input>)
    requires GoodCall(d, c) && GoodInputs(inputs)
    ensures var p := Run(d, c, Start(c), inputs).pos;
            var at, mapped := Mod64(p.shift), p.toUser - p.length;
            && mapped >= 0 && p.base == Mod64(c.bufp + at) && Tiles(p.user, p.base, p.base + mapped)
            && (mapped > 0 ==>
                  (InsideBuffer(c, p.user) <==> c.bufp + at < 0x1_0000_0000_0000_0000 && at + mapped <= c.capacity))
  {
    EveryPosition(d, c, inputs);
    hide *;
    PlaceInBuffer(d, c, Run(d, c, Start(c), inputs));
  }

  /**
   * A transaction with something to map starts at bufp plus the offset announced for it, four bytes to a word, exactly
   * when earlier ones have moved udata by a multiple of 2^64.
   */
  lemma TransactionStart(d: Device, c: Call, inputs: seq<Input>, words: nat, grant: int)
    requires GoodCall(d, c) && GoodInputs(inputs) && words < 0x1_0000_0000
    requires Run(d, c, Start(c), inputs).returned.None?
    ensures var s := Run(d, c, Start(c), inputs); var p := Step(d, c, s, Input(Message(TXN_LEN, words), grant)).pos;
            p.toUser > 0 || p.toSpill > 0 ==>
              && p.before == s.pos.Moved() && p.shift == p.before + 4 * WordOffset(inputs)
              && (p.base == Mod64(c.bufp + 4 * WordOffset(inputs)) <==> Mod64(p.before) == 0)
  {
    hide *;
    RunAnnouncement(d, c, inputs);
    EveryPosition(d, c, inputs);
    StartOf(d, c, Run(d, c, Start(c), inputs), words, grant);
  }

  lemma StartOf(d: Device, c: Call, s: Recv, words: nat, grant: int)
    requires s.returned.None? && Inv(s) && Located(c, s.pos)
    ensures var p := Step(d, c, s, Input(Message(TXN_LEN, words), grant)).pos;
            p.toUser > 0 || p.toSpill > 0 ==>
              && p.before == s.pos.Moved() && p.shift == p.before + s.offset
              && (p.base == Mod64(c.bufp + s.offset) <==> Mod64(p.before) == 0)
  {
    hide Run, Start, Step, Begin, Mod64, Tiles;
    MovedTo(c, s.pos);
    BeginBase(c, s.pos, s.offset, 4 * words);
    LengthKeepsPlan(d, c, s, words, grant);
    hide *;
    MovedStart(c.bufp, s.pos.Moved(), s.offset);
  }

  lemma MovedStart(bufp: nat, moved: nat, offset: nat)
    ensures Mod64(Mod64(bufp + moved) + offset) == Mod64(bufp + offset) <==> Mod64(moved) == 0
  {
    hide Mod64;
    Mod64Add(bufp + moved, offset);
    Mod64SameIff(bufp + offset, moved);
  }

  lemma LengthKeepsPlan(d: Device, c: Call, s: Recv, words: nat, grant: int)
    requires s.returned.None?
    ensures var p := Step(d, c, s, Input(Message(TXN_LEN, words), grant)).pos;
            var b := Begin(c, s.pos, s.offset, 4 * words);
            p.toUser == b.toUser && p.toSpill == b.toSpill && p.base == b.base && p.before == b.before
              && p.shift == b.shift
  {
    hide Begin, FillAt;
  }

  lemma BeginWholeBuffer(c: Call, p: Position, words: nat)
    requires 0 < words < 0x1_0000_0000 && c.capacity == 4 * words && p.udata + 4 * words < 0x1_0000_0000_0000_0000
    ensures Begin(c, p, 0, 4 * words) ==
        Position(p.udata, 4 * words, 0, p.udata, 4 * words, 0, [], 0, 0, p.Moved(), p.Moved())
  {
    WrapTest(p.udata, 0, 4 * words);
    DivModUnique(p.udata, 0x1_0000_0000_0000_0000, 0, p.udata);
  }

  lemma WholeBufferMapped(d: Device, at: nat, length: nat, grant: int)
    requires DeviceWidth(d.numSg) && length > 0 && grant > 0
    requires PagesSpanned(at, length) <= d.numSg && PagesSpanned(at, length) <= grant
    ensures Fill(d.numSg, at, length, 0, grant).Some? && Fill(d.numSg, at, length, 0, grant).value.length == length
  {
    SegmentsTile(at, length, PagesMapped(d.numSg, at, length, grant));
  }

  /** From any position, a transaction that fits before the end of the address space and fills the caller's buffer. */
  lemma WholeBufferTransaction(d: Device, c: Call, s: Recv, words: nat, grant: int)
    requires GoodCall(d, c) && 0 < words < 0x1_0000_0000 && c.capacity == 4 * words && grant > 0
    requires s.returned.None? && s.offset == 0 && s.pos.udata + 4 * words < 0x1_0000_0000_0000_0000
    ensures var t := Step(d, c, s, Input(Message(TXN_LEN, words), grant)); var at := s.pos.udata;
            && t.returned.None? && t.last == s.last
            && Tiles(t.pos.user, at, t.pos.udata) && at < t.pos.udata
            && (PagesSpanned(at, 4 * words) <= d.numSg && PagesSpanned(at, 4 * words) <= grant ==>
              t.pos.udata == at + 4 * words)
  {
    var at := s.pos.udata;
    hide Split, AddressWraps, Fill;
    BeginWholeBuffer(c, s.pos, words);
    var b := Begin(c, s.pos, 0, 4 * words);
    FillFails(d, b, grant);
    var m := FillAt(d, b, grant).value;
    FillUserPart(d.numSg, at, 4 * words, 0, grant);
    if PagesSpanned(at, 4 * words) <= d.numSg && PagesSpanned(at, 4 * words) <= grant {
      WholeBufferMapped(d, at, 4 * words, grant);
    }
    DivModUnique(at + m.length, 0x1_0000_0000_0000_0000, 0, at + m.length);
    var t := OnLength(d, c, s, 4 * words, grant);
    assert Step(d, c, s, Input(Message(TXN_LEN, words), grant)) == t;
    assert t.pos == Advance(b, m) && t.returned.None? && t.last == s.last;
    assert t.pos.user == m.segments && t.pos.udata == at + m.length;
  }

  /**
   * The user pointer is not rewound between transactions. After a first transaction that fills the buffer and is
   * not the last, a second one for the same offset is mapped entirely behind the caller's buffer.
   */
  lemma SecondTransactionLeavesBuffer(d: Device, c: Call, words: nat) returns (inputs: seq<Input>)
    requires GoodCall(d, c) && 0 < words < 0x1_0000_0000 && c.capacity == 4 * words
    requires c.bufp + 8 * words < 0x1_0000_0000_0000_0000
    requires PagesSpanned(c.bufp, 4 * words) <= d.numSg
    ensures GoodInputs(inputs)
    ensures var p := Run(d, c, Start(c), inputs).pos;
            && p.user != []
            && (forall s | s in p.user :: s.addr >= c.bufp + c.capacity)
  {
    var g := PagesSpanned(c.bufp, 4 * words);
    var i0, i1, i2 := Input(Message(TXN_OFFLAST, 0), 0), Input(Message(TXN_LEN, words), g),
        Input(Message(TXN_DONE, words), 0);
    var i3, i4 := Input(Message(TXN_OFFLAST, 1), 0), Input(Message(TXN_LEN, words), 1);
    var s1 := Step(d, c, Start(c), i0);
    WholeBufferTransaction(d, c, s1, words, g);
    var s2 := Step(d, c, s1, i1);
    var s3 := Step(d, c, s2, i2);
    var s4 := Step(d, c, s3, i3);
    DoneKeepsPosition(d, c, s2, words);
    hide Step;
    WholeBufferTransaction(d, c, s4, words, 1);
    var s5 := Step(d, c, s4, i4);
    TilesInside(s5.pos.user, s4.pos.udata, s5.pos.udata);
    inputs := [i4];
    assert Run(d, c, s4, inputs) == s5 by { assert Run(d, c, s5, []) == s5; }
    inputs := [i3] + inputs;
    assert Run(d, c, s3, inputs) == s5 by { assert inputs[1..] == [i4]; }
    RunPrepend(d, c, s2, i2, inputs);
    inputs := [i2] + inputs;
    RunPrepend(d, c, s1, i1, inputs);
    inputs := [i1] + inputs;
    RunPrepend(d, c, Start(c), i0, inputs);
    inputs := [i0] + inputs;
  }

  /**
   * The end of a transaction that is not the last, and the offset and flag of the next one, leave the position as it
   * is.
   */
  lemma DoneKeepsPosition(d: Device, c: Call, s: Recv, words: nat)
    requires s.returned.None? && s.last == 0
    ensures var n := Step(d, c, Step(d, c, s, Input(Message(TXN_DONE, words), 0)), Input(Message(TXN_OFFLAST, 1), 0));
            n.pos == s.pos && n.offset == 0 && n.returned.None?
  {}

  lemma RunPrepend(d: Device, c: Call, s: Recv, i: Input, rest: seq<Input>)
    ensures Run(d, c, s, [i] + rest) == Run(d, c, Step(d, c, s, i), rest)
  {
    assert ([i] + rest)[1..] == rest;
  }

  // ---- Leaks ----

  /** If this wake-up is a TXN_LEN with something to map, nothing is mapped. */
  predicate FindsNothingMapped(c: Call, s: Recv, i: Input) {
    s.returned.None? && i.wake.Message? && i.wake.kind == TXN_LEN ==>
      var p := Begin(c, s.pos, s.offset, 4 * i.wake.arg);
      p.length > 0 || p.overflow > 0 ==> s.slots.map1.None?
  }

  /** Whenever a TXN_LEN has something to map, nothing is mapped. */
  predicate LengthsFindNothingMapped(d: Device, c: Call, s: Recv, inputs: seq<Input>)
    decreases |inputs|
  {
    inputs != [] ==>
      FindsNothingMapped(c, s, inputs[0]) && LengthsFindNothingMapped(d, c, Step(d, c, s, inputs[0]), inputs[1..])
  }

  lemma {:induction false} LostOnlyGrows(d: Device, c: Call, s: Recv, inputs: seq<Input>)
    ensures s.slots.lost <= Run(d, c, s, inputs).slots.lost
    decreases |inputs|
  {
    if inputs != [] { LostOnlyGrows(d, c, Step(d, c, s, inputs[0]), inputs[1..]); }
  }

  /** One wake-up: a mapping is lost exactly by a TXN_LEN with something to map that finds the newer slot occupied. */
  lemma StepLeaksIff(d: Device, c: Call, s: Recv, i: Input)
    requires s.slots.lost == [] && (s.returned.None? && s.slots.map0.Some? ==> s.slots.map1.Some?)
    ensures Step(d, c, s, i).slots.lost == [] <==> FindsNothingMapped(c, s, i)
  {
    hide Begin, FillAt;
  }

  lemma {:induction false} LeaksIff(d: Device, c: Call, s: Recv, inputs: seq<Input>)
    requires GoodCall(d, c) && GoodInputs(inputs) && Inv(s) && s.slots.lost == []
    ensures Run(d, c, s, inputs).slots.lost == [] <==> LengthsFindNothingMapped(d, c, s, inputs)
    decreases |inputs|
  {
    if inputs != [] {
      var t := Step(d, c, s, inputs[0]);
      StepKeepsInv(d, c, s, inputs[0]);
      StepLeaksIff(d, c, s, inputs[0]);
      hide Step, Inv;
      LostOnlyGrows(d, c, t, inputs[1..]);
      if t.slots.lost == [] { LeaksIff(d, c, t, inputs[1..]); }
    }
  }

  /**
   * Every mapping of a finished call has been freed exactly once, exactly when no TXN_LEN with something to map found
   * one live.
   */
  lemma FreedExactlyOnceIff(d: Device, c: Call, inputs: seq<Input>)
    requires GoodCall(d, c) && GoodInputs(inputs)
    requires Run(d, c, Start(c), inputs).returned.Some?
    ensures Run(d, c, Start(c), inputs).slots.AllFreedOnce() <==> LengthsFindNothingMapped(d, c, Start(c), inputs)
  {
    StartInv(d, c);
    RunKeepsInv(d, c, Start(c), inputs);
    LeaksIff(d, c, Start(c), inputs);
    LostAreNotFreed(d, c, Start(c), inputs);
    var s := Run(d, c, Start(c), inputs).slots;
    if s.lost != [] { assert s.lost[0] in s.lost; }
  }

  /**
   * That no TXN_LEN comes between another one and its TXN_DONE is not enough: a TXN_DONE that ends a transaction early
   * leaves a rest to map, a late SG_BUF_READ maps it, and the next TXN_LEN loses that mapping.
   */
  lemma LateBufferReadLeaks(d: Device, c: Call, words: nat)
    requires GoodCall(d, c) && 0 < words < 0x1_0000_0000 && c.capacity == 4 * words
    requires c.bufp + 8 * words < 0x1_0000_0000_0000_0000 && PagesSpanned(c.bufp, 4 * words) > 1
    ensures var len := Input(Message(TXN_LEN, words), 1);
            var inputs := [Input(Message(TXN_OFFLAST, 0), 0), len, Input(Message(TXN_DONE, 0), 0),
                Input(Message(SG_BUF_READ, 0), 1), len];
            Run(d, c, Start(c), inputs).slots.lost != []
  {
    var len := Input(Message(TXN_LEN, words), 1);
    var i0, i2, i3 := Input(Message(TXN_OFFLAST, 0), 0), Input(Message(TXN_DONE, 0), 0),
        Input(Message(SG_BUF_READ, 0), 1);
    var s1 := Step(d, c, Start(c), i0);
    var s2 := Step(d, c, s1, len);
    BeginWholeBuffer(c, s1.pos, words);
    var b := Begin(c, s1.pos, 0, 4 * words);
    FirstPageMapped(d, c, s1, words, b);
    var s3 := Step(d, c, s2, i2);
    var s4 := Step(d, c, s3, i3);
    RestMapped(d, s3);
    LengthOverwrites(d, c, s4, words);
    hide Step, Run, Start, GoodCall, PagesSpanned;
    RunFive(d, c, Start(c), i0, len, i2, i3, len);
  }

  lemma RunFive(d: Device, c: Call, s: Recv, i0: Input, i1: Input, i2: Input, i3: Input, i4: Input)
    ensures Run(d, c, s, [i0, i1, i2, i3, i4]) ==
        Step(d, c, Step(d, c, Step(d, c, Step(d, c, Step(d, c, s, i0), i1), i2), i3), i4)
  {
    hide Step, Run;
    var s1 := Step(d, c, s, i0);
    var s2 := Step(d, c, s1, i1);
    var s3 := Step(d, c, s2, i2);
    var s4 := Step(d, c, s3, i3);
    RunPrepend(d, c, s, i0, [i1, i2, i3, i4]);
    RunPrepend(d, c, s1, i1, [i2, i3, i4]);
    RunPrepend(d, c, s2, i2, [i3, i4]);
    RunPrepend(d, c, s3, i3, [i4]);
    RunPrepend(d, c, s4, i4, []);
    RunNone(d, c, Step(d, c, s4, i4));
    assert [i0] + [i1, i2, i3, i4] == [i0, i1, i2, i3, i4] && [i1] + [i2, i3, i4] == [i1, i2, i3, i4];
    assert [i2] + [i3, i4] == [i2, i3, i4] && [i3] + [i4] == [i3, i4] && [i4] + [] == [i4];
  }

  lemma RunNone(d: Device, c: Call, s: Recv)
    ensures Run(d, c, s, []) == s
  {}

  lemma FirstPageMapped(d: Device, c: Call, s: Recv, words: nat, b: Position)
    requires s.returned.None? && s.last == 0 && s.offset == 0 && s.slots == NO_SLOTS
    requires b == Begin(c, s.pos, 0, 4 * words) && b.length > 0 && b.udata + b.length < 0x1_0000_0000_0000_0000
    requires FillAt(d, b, 1).Some? && FillAt(d, b, 1).value.length < b.length
    ensures var t := Step(d, c, s, Input(Message(TXN_LEN, words), 1));
            && t.returned.None? && t.last == 0 && t.offset == 0 && t.slots.lost == []
            && t.pos.length > 0 && t.pos.udata + t.pos.length == b.udata + b.length
            && t.pos.overflow < 0x1_0000_0000_0000_0000
  {
    hide Begin, Fill;
    Mod64Small(b.udata + FillAt(d, b, 1).value.length);
  }

  lemma OnePageMapped(d: Device, p: Position)
    requires DeviceWidth(d.numSg) && p.length > 0 && p.overflow < 0x1_0000_0000_0000_0000
    ensures FillAt(d, p, 1).Some? && FillAt(d, p, 1).value.length <= p.length
  {
    FillFails(d, p, 1);
    FillUserPart(d.numSg, p.udata, p.length, p.overflow, 1);
  }

  lemma RestMapped(d: Device, s: Recv)
    requires DeviceWidth(d.numSg) && s.returned.None? && s.last == 0 && s.pos.length > 0
        && s.pos.overflow < 0x1_0000_0000_0000_0000
    ensures var t := OnBufferRead(d, s, 1);
            t.returned.None? && t.offset == s.offset && t.slots.map1.Some? && t.slots.lost == s.slots.lost
    ensures s.pos.udata + s.pos.length < 0x1_0000_0000_0000_0000 ==>
        OnBufferRead(d, s, 1).pos.udata <= s.pos.udata + s.pos.length
  {
    OnePageMapped(d, s.pos);
    hide FillAt;
    if s.pos.udata + s.pos.length < 0x1_0000_0000_0000_0000 {
      Mod64Small(s.pos.udata + FillAt(d, s.pos, 1).value.length);
    }
  }

  lemma LengthOverwrites(d: Device, c: Call, s: Recv, words: nat)
    requires GoodCall(d, c) && 0 < words < 0x1_0000_0000 && c.capacity == 4 * words && s.offset == 0
    requires s.returned.None? && s.slots.map1.Some? && s.pos.udata + 4 * words < 0x1_0000_0000_0000_0000
    ensures Step(d, c, s, Input(Message(TXN_LEN, words), 1)).slots.lost != []
  {
    BeginWholeBuffer(c, s.pos, words);
    var b := Begin(c, s.pos, 0, 4 * words);
    hide Begin, Fill;
    FillFails(d, b, 1);
  }

  ghost predicate LostUnfreed(s: Slots) {
    s.Accounted() && s.map0.None? && s.map1.None?
  }

  lemma LostUnfreedMeans(s: Slots)
    requires LostUnfreed(s)
    ensures forall id | id in s.lost :: id < s.made && id !in s.freed
  {
    forall id | id in s.lost ensures id < s.made && id !in s.freed {
      var ids := s.freed + s.lost;
      assert id in ids;
      var j :| 0 <= j < |s.lost| && s.lost[j] == id;
      forall i | 0 <= i < |s.freed| ensures s.freed[i] != id {
        assert ids[i] == s.freed[i] && ids[|s.freed| + j] == id;
      }
    }
  }

  lemma ReturnsUnfreed(d: Device, c: Call, s: Recv, i: Input)
    requires s.returned.Some? ==> LostUnfreed(s.slots)
    requires s.returned.None? ==> s.slots.Accounted()
    ensures Step(d, c, s, i).returned.Some? ==> LostUnfreed(Step(d, c, s, i).slots)
  {
    hide FillAt, Begin;
    if s.returned.None? {
      FreeBothKeeps(s.slots);
      FreeFirstKeeps(s.slots);
      FreeBothKeeps(s.slots.FreeFirst());
      AbandonKeeps(s.slots);
    }
  }

  /** A finished call has emptied both slots; what it lost it never freed. */
  lemma {:induction false} LostAreNotFreed(d: Device, c: Call, s: Recv, inputs: seq<Input>)
    requires GoodCall(d, c) && GoodInputs(inputs) && Inv(s)
    requires s.returned.Some? ==> LostUnfreed(s.slots)
    requires Run(d, c, s, inputs).returned.Some?
    ensures var t := Run(d, c, s, inputs).slots; forall id | id in t.lost :: id < t.made && id !in t.freed
    decreases |inputs|
  {
    hide Step, LostUnfreed;
    if inputs == [] {
      LostUnfreedMeans(s.slots);
    } else {
      StepKeepsInv(d, c, s, inputs[0]);
      ReturnsUnfreed(d, c, s, inputs[0]);
      LostAreNotFreed(d, c, Step(d, c, s, inputs[0]), inputs[1..]);
    }
  }

  // ---- The method ----

  /** What the locals and the channel hold between two messages, as a Recv value. */
  ghost predicate Matches(s: Recv, last: int, offset: nat, length: nat, overflow: nat, recvd: nat, udata: nat,
                          map0: Option<Held>, map1: Option<Held>, r: Option<Result>)
  {
    && s.last == last && s.offset == offset && s.recvd == recvd && s.returned == r
    && s.pos.length == length && s.pos.overflow == overflow && s.pos.udata == udata
    && s.slots.map0 == map0 && s.slots.map1 == map1
  }

  lemma {:induction false} ReturnedStays(d: Device, c: Call, s: Recv, inputs: seq<Input>)
    requires s.returned.Some?
    ensures Run(d, c, s, inputs) == s
    decreases |inputs|
  {
    if inputs != [] { ReturnedStays(d, c, s, inputs[1..]); }
  }

  lemma FillStaysInAddressSpace(p: Position)
    requires Bounded(p)
    ensures p.udata + p.length <= 0x1_0000_0000_0000_0000
  {
    if p.length > 0 { PositionIsExact(p); }
  }

  lemma AdvanceFields(p: Position, m: Mapping)
    requires m.length <= p.length
    ensures var q := Advance(p, m);
            && q.udata == (p.udata + m.length) % 0x1_0000_0000_0000_0000 && q.length == p.length - m.length
            && q.overflow == (p.overflow - m.overflow) % 0x1_0000_0000_0000_0000
  {}

  /** One receive channel: its mapping slots, its common buffer, and the register writes made on its behalf. */
  class RecvChannel {
    const device: Device
    var sgMap0: Option<Held>
    var sgMap1: Option<Held>
    var buf: array<nat>
    var regs: seq<(nat, nat)>
    var made: nat                // allocation number of the next mapping
    ghost var slots: Slots

    ghost predicate Valid()
      reads this
    {
      DeviceWidth(device.numSg) && buf.Length * 4 == 4096 * (device.numSg / 200)
    }

    /** free_sg_buf(sgMap0); free_sg_buf(sgMap1). */
    method FreeBoth()
      requires slots.map0 == sgMap0 && slots.map1 == sgMap1
      modifies this`sgMap0, this`sgMap1, this`slots
      ensures slots == old(slots).FreeBoth() && sgMap0 == None && sgMap1 == None
    {
      slots := slots.FreeBoth();
      sgMap0, sgMap1 := None, None;
    }

    /** Write the registers that announce the filled common buffer. */
    method Announce(m: Mapping)
      modifies this`regs
      ensures regs == Program(old(regs), device, TX_SG_LEN_REG, m)
    {
      regs := regs + [(TX_SG_LEN_REG + 1, device.bufHwAddr % 0x1_0000_0000)];
      regs := regs + [(TX_SG_LEN_REG + 2, device.bufHwAddr / 0x1_0000_0000)];
      regs := regs + [(TX_SG_LEN_REG, 4 * m.NumSg())];
    }

    /** fill_sg_buf at the current position; the position moves past what was mapped and the device is told. */
    method MapMore(ghost p: Position, udata: nat, length: nat, overflow: nat, grant: int)
      returns (m: Option<Mapping>, udata': nat, length': nat, overflow': nat)
      requires Valid() && Progress(p) && p.udata == udata && p.length == length && p.overflow == overflow
      modifies this`regs, buf
      ensures m == FillAt(device, p, grant)
      ensures m.None? ==> regs == old(regs) && udata' == udata && length' == length && overflow' == overflow
      ensures m.Some? ==> regs == Program(old(regs), device, TX_SG_LEN_REG, m.value)
      ensures m.Some? ==> var q := Advance(p, m.value);
              udata' == q.udata && length' == q.length && overflow' == q.overflow
      ensures m.Some? ==> Programmed(buf[..], m.value, device.spillAddr)
    {
      FillStaysInAddressSpace(p);
      udata', length', overflow' := udata, length, overflow;
      m := FillSgBuf(device.numSg, buf, device.spillAddr, udata, length, overflow, grant);
      if m.None? || m.value.NumSg() == 0 { return None, udata, length, overflow; }
      FillUserPart(device.numSg, udata, length, overflow, grant);
      hide Fill, FillAt, Progress, Programmed, Advance;
      AdvanceFields(p, m.value);
      udata' := (udata + m.value.length) % 0x1_0000_0000_0000_0000;
      length' := length - m.value.length;
      overflow' := (overflow - m.value.overflow) % 0x1_0000_0000_0000_0000;
      Announce(m.value);
    }

    /** Lines 635-655: how the transaction is divided. */
    method Divide(c: Call, offset: nat, txn: nat, udata: nat) returns (length: nat, overflow: nat)
      ensures (length, overflow) == Split(c, udata, offset, txn)
    {
      length, overflow := txn, 0;
      var maxPtr := (udata + offset + length - 1) % 0x1_0000_0000_0000_0000;
      if maxPtr < udata {
        overflow, length := length, 0;
      }
      if offset + length > c.capacity {
        if offset > c.capacity {
          overflow, length := length, 0;
        } else {
          overflow, length := length + offset - c.capacity, c.capacity - offset;
        }
      }
    }

    /** EVENT_TXN_LEN, lines 633-673. */
    method TxnLen(c: Call, ghost st: Recv, arg: nat, grant: int, last: int, offset: nat, udata: nat)
      returns (length: nat, overflow: nat, udata': nat, r: Option<Result>)
      requires Valid() && GoodCall(device, c) && Inv(st) && st.returned.None? && arg < 0x1_0000_0000
      requires st.last == last && st.offset == offset && st.pos.udata == udata
      requires st.slots == slots && made == slots.made && slots.map0 == sgMap0 && slots.map1 == sgMap1
          && regs == st.regs
      modifies this`sgMap0, this`sgMap1, this`made, this`slots, this`regs, buf
      ensures var n := OnLength(device, c, st, 4 * arg, grant);
              && Matches(n, last, offset, length, overflow, 0, udata', sgMap0, sgMap1, r)
              && regs == n.regs && slots == n.slots && made == slots.made
    {
      hide Fill, Split, Inv, Progress;
      BeginAfterInv(c, st, 4 * arg);
      ghost var p := Begin(c, st.pos, offset, 4 * arg);
      length, overflow := Divide(c, offset, arg * 4, udata);
      udata', r := udata, None;
      if length > 0 || overflow > 0 {
        udata' := (udata + offset) % 0x1_0000_0000_0000_0000;
        var m;
        m, udata', length, overflow := MapMore(p, udata', length, overflow, grant);
        if m.None? {
          slots := slots.Abandon();
          sgMap0, sgMap1 := None, None;
          r := Some(Words(0));
        } else {
          slots := slots.Overwrite(m.value);
          sgMap1, made := Some(Held(made, m.value)), made + 1;
        }
      }
    }

    /** EVENT_SG_BUF_READ once offset and length are known, lines 679-702. */
    method SgBufRead(ghost st: Recv, grant: int, last: int, offset: nat, length: nat, overflow: nat,
        recvd: nat, udata: nat)
      returns (length': nat, overflow': nat, recvd': nat, udata': nat, r: Option<Result>)
      requires Valid() && Inv(st) && last != -1
      requires Matches(st, last, offset, length, overflow, recvd, udata, sgMap0, sgMap1, None)
      requires st.slots == slots && made == slots.made && regs == st.regs
      modifies this`sgMap0, this`sgMap1, this`made, this`slots, this`regs, buf
      ensures var n := OnBufferRead(device, st, grant);
              && Matches(n, last, offset, length', overflow', recvd', udata', sgMap0, sgMap1, r)
              && regs == n.regs && slots == n.slots && made == slots.made
    {
      length', overflow', udata', r := length, overflow, udata, None;
      recvd' := recvd + HeldLength(sgMap0);
      slots := slots.FreeFirst();
      sgMap0 := None;
      if length > 0 || overflow > 0 {
        var m;
        m, udata', length', overflow' := MapMore(st.pos, udata, length, overflow, grant);
        if m.None? {
          FreeBoth();
          r := Some(Words(recvd' / 4));
        } else {
          slots := slots.Shift(m.value);
          sgMap0, sgMap1, made := sgMap1, Some(Held(made, m.value)), made + 1;
        }
      }
    }

    /** One message: the branches of lines 625-722. */
    method OnMessage(c: Call, ghost st: Recv, kind: nat, arg: nat, grant: int, last: int, offset: nat,
        length: nat, overflow: nat, recvd: nat, udata: nat)
      returns (last': int, offset': nat, length': nat, overflow': nat, recvd': nat, udata': nat, r: Option<Result>)
      requires Valid() && GoodCall(device, c) && Inv(st) && arg < 0x1_0000_0000
      requires Matches(st, last, offset, length, overflow, recvd, udata, sgMap0, sgMap1, None)
      requires regs == st.regs && slots == st.slots && made == slots.made
      modifies this`sgMap0, this`sgMap1, this`made, this`slots, this`regs, buf
      ensures var n := Step(device, c, st, Input(Message(kind, arg), grant));
              && Matches(n, last', offset', length', overflow', recvd', udata', sgMap0, sgMap1, r)
              && regs == n.regs && slots == n.slots && made == slots.made
      ensures kind == TXN_OFFLAST ==> offset' % 4 == 0 && 0 <= last' < 2 && 2 * (offset' / 4) + last' == arg
      ensures kind == TXN_DONE && last == 1 ==> r == Some(Words(arg))
    {
      hide Inv, OnLength, Split, FillAt;
      last', offset', length', overflow', recvd', udata', r := last, offset, length, overflow, recvd, udata, None;
      if kind == TXN_OFFLAST {
        offset', last' := (arg / 2) * 4, arg % 2;
        assert offset' % 4 == 0 && offset' / 4 == arg / 2;
      } else if kind == TXN_LEN {
        recvd' := 0;
        length', overflow', udata', r := TxnLen(c, st, arg, grant, last, offset, udata);
      } else if kind == SG_BUF_READ {
        if last != -1 {
          length', overflow', recvd', udata', r := SgBufRead(st, grant, last, offset, length, overflow, recvd, udata);
        }
      } else if kind == TXN_DONE {
        if last != -1 {
          recvd' := arg * 4;
          FreeBoth();
          if last != 0 {
            r := Some(Words(recvd' / 4));
          }
        }
      }
    }

    /**
     * chnl_recv for a buffer of `len` words at `bufp`. Each element of `inputs` is one wake-up of the loop; the
     * result is None when they run out before the call returns.
     */
    method Recv(bufp: nat, len: nat, inputs: seq<Input>) returns (r: Option<Result>)
      requires Valid() && GoodCall(device, Call(bufp, 4 * len)) && GoodInputs(inputs)
      requires regs == []
      modifies this, buf
      ensures buf == old(buf)
      ensures var s := Run(device, Call(bufp, 4 * len), Start(Call(bufp, 4 * len)), inputs);
              && r == s.returned && regs == s.regs && slots == s.slots
              && sgMap0 == s.slots.map0 && sgMap1 == s.slots.map1
    {
      hide Inv, OnLength, OnBufferRead, OnDone, Split;
      var c := Call(bufp, 4 * len);
      ghost var st := Start(c);
      var last: int, offset: nat, length: nat, overflow: nat, recvd: nat, udata: nat := -1, 0, 0, 0, 0, bufp;
      sgMap0, sgMap1, made, slots, r := None, None, 0, NO_SLOTS, None;
      StartInv(device, c);
      var i := 0;
      while i < |inputs| && r.None?
        invariant i <= |inputs| && buf == old(buf) && Valid() && Inv(st)
        invariant Matches(st, last, offset, length, overflow, recvd, udata, sgMap0, sgMap1, r)
        invariant regs == st.regs && slots == st.slots && made == slots.made
        invariant Run(device, c, Start(c), inputs) == Run(device, c, st, inputs[i..])
      {
        var wake, grant := inputs[i].wake, inputs[i].grant;
        assert GoodInput(inputs[i]);
        StepKeepsInv(device, c, st, inputs[i]);
        assert inputs[i..][1..] == inputs[i + 1..];
        match wake {
          case Signalled =>
            FreeBoth();
            r := Some(Restart);
          case TimedOut =>
            FreeBoth();
            r := Some(Words(recvd / 4));
          case Message(kind, arg) =>
            last, offset, length, overflow, recvd, udata, r :=
              OnMessage(c, st, kind, arg, grant, last, offset, length, overflow, recvd, udata);
        }
        st := Step(device, c, st, inputs[i]);
        i := i + 1;
      }
      if r.Some? { ReturnedStays(device, c, st, inputs[i..]); }
    }
  }
}
