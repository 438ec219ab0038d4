/**
 * When the accounting of chnl_recv is exact: the closed form for a device whose user pages are always pinned in full.
 */
module SpillRounds {
  import opened Wrappers
  import opened Arith
  import opened ScatterGather
  import opened Transfers
  import opened RecvTransfer

  /** User pages still to map. */
  function Pages(p: Position): nat {
    if p.length == 0 then 0 else PagesSpanned(p.udata, p.length)
  }

  /** Elements left for spill space in the fill that maps the last user page. */
  function FirstFree(numSg: nat, pages: nat): nat
    requires numSg > 0
  {
    if pages == 0 then numSg else numSg - ((pages - 1) % numSg + 1)
  }

  /**
   * Less than one spill buffer, whole spill buffers, or as many whole ones as the fill with the last user page has room
   * for and a number of completely filled common buffers behind it.
   */
  predicate SpillFits(numSg: nat, pages: nat, overflow: nat)
    requires numSg > 0
  {
    var f, q := FirstFree(numSg, pages), overflow / 4096;
    overflow < 4096 || overflow % 4096 == 0 || (f <= q && (q - f) % numSg == 0)
  }

  lemma SameFirstFree(numSg: nat, pages: nat)
    requires numSg > 0
    ensures pages > numSg ==> FirstFree(numSg, pages) == FirstFree(numSg, pages - numSg)
    ensures pages <= numSg ==> FirstFree(numSg, pages) == numSg - pages
  {
    if pages > numSg {
      AddMultiple(pages - 1, numSg, -1);
    } else if pages > 0 {
      DivModUnique(pages - 1, numSg, 0, pages - 1);
    }
  }

  /** The fill that maps the last user page keeps the closed form, or wraps because it does not hold. */
  lemma LastPageFits(numSg: nat, pages: nat, overflow: nat)
    requires numSg > 0 && pages <= numSg
    ensures var free := numSg - pages;
            if SpillExact(overflow, free)
            then SpillFits(numSg, pages, overflow) <==> SpillFits(numSg, 0, overflow - Min(overflow, 4096 * free))
            else !SpillFits(numSg, pages, overflow)
  {
    SameFirstFree(numSg, pages);
    var free, q, r := numSg - pages, overflow / 4096, overflow % 4096;
    if overflow >= 4096 && r != 0 && free <= q {
      var rest := overflow - 4096 * free;
      DivModUnique(rest, 4096, q - free, r);
      ModOfMultiple(q - free, numSg);
    }
  }

  lemma ModOfMultiple(k: nat, n: nat)
    requires n > 0
    ensures k % n == 0 <==> k < 1 || (n <= k && (k - n) % n == 0)
  {
    if n <= k {
      AddMultiple(k, n, -1);
    } else {
      DivModUnique(k, n, 0, k);
    }
  }

  /** One fill with all pages pinned. */
  lemma PinnedFill(d: Device, p: Position)
    requires DeviceWidth(d.numSg) && Bounded(p) && (p.length > 0 || p.overflow > 0)
    ensures FillAt(d, p, d.numSg).Some?
    ensures var q := Advance(p, FillAt(d, p, d.numSg).value); var free := d.numSg - Pages(p);
            if Pages(p) > d.numSg then Pages(q) == Pages(p) - d.numSg && q.overflow == p.overflow && q.wraps == p.wraps
            else
              && Pages(q) == 0
              && (SpillExact(p.overflow, free) ==>
                q.overflow == p.overflow - Min(p.overflow, 4096 * free) && q.wraps == p.wraps)
              && (!SpillExact(p.overflow, free) ==> q.wraps == p.wraps + 1)
  {
    FillFails(d, p, d.numSg);
    var m := FillAt(d, p, d.numSg).value;
    FillUserPart(d.numSg, p.udata, p.length, p.overflow, d.numSg);
    FillSpillPart(d.numSg, p.udata, p.length, p.overflow, d.numSg);
    PinnedSegments(d, p);
    FillStaysInAddressSpace(p);
    FillWrapsIff(d, p, d.numSg);
    hide Fill, FillAt, PagesSpanned, Segments, SpillExact;
    if m.length < p.length {
      Mod64Small(p.udata + m.length);
      Mod64Small(p.overflow);
    } else if SpillExact(p.overflow, d.numSg - |m.segments|) {
      SpillReport(p.overflow, d.numSg - |m.segments|);
      Mod64Small(p.overflow - Min(p.overflow, 4096 * (d.numSg - |m.segments|)));
    }
  }

  lemma PinnedSegments(d: Device, p: Position)
    requires DeviceWidth(d.numSg) && FillAt(d, p, d.numSg).Some?
    ensures |FillAt(d, p, d.numSg).value.segments| == Min(Pages(p), d.numSg)
  {
    SegmentsTile(p.udata, p.length, PagesMapped(d.numSg, p.udata, p.length, d.numSg));
  }

  // ---- Rounds of fills ----

  /** The position after at most n fills; nothing happens once everything has been mapped. */
  function Fills(d: Device, p: Position, n: nat): Position
    decreases n
  {
    if n == 0 || (p.length == 0 && p.overflow == 0) then p
    else match FillAt(d, p, d.numSg)
      case None => p
      case Some(m) => Fills(d, Advance(p, m), n - 1)
  }

  lemma {:induction false} FitsNeverWraps(d: Device, p: Position, n: nat)
    requires DeviceWidth(d.numSg) && Progress(p) && SpillFits(d.numSg, Pages(p), p.overflow)
    ensures Fills(d, p, n).wraps == p.wraps
    decreases n
  {
    hide FillAt, SpillFits, SpillExact, Pages, Progress, Bounded;
    if n > 0 && (p.length > 0 || p.overflow > 0) {
      ProgressIsBounded(p);
      PinnedFill(d, p);
      AdvanceProgress(d, p, d.numSg);
      FitsAfterFill(d, p);
      FitsNeverWraps(d, Advance(p, FillAt(d, p, d.numSg).value), n - 1);
    }
  }

  lemma ProgressIsBounded(p: Position)
    requires Progress(p)
    ensures Bounded(p)
  {}

  lemma FitsAfterFill(d: Device, p: Position)
    requires DeviceWidth(d.numSg) && Bounded(p) && (p.length > 0 || p.overflow > 0)
    ensures FillAt(d, p, d.numSg).Some?
    ensures var q := Advance(p, FillAt(d, p, d.numSg).value);
            SpillFits(d.numSg, Pages(p), p.overflow) <==> q.wraps == p.wraps && SpillFits(d.numSg, Pages(q), q.overflow)
  {
    hide FillAt, SpillExact, Pages, Bounded, FirstFree;
    PinnedFill(d, p);
    if Pages(p) > d.numSg {
      SameFirstFree(d.numSg, Pages(p));
    } else {
      hide SpillFits;
      LastPageFits(d.numSg, Pages(p), p.overflow);
    }
  }

  /** Where the closed form fails, enough fills wrap. */
  lemma {:induction false} MisfitWraps(d: Device, p: Position) returns (n: nat)
    requires DeviceWidth(d.numSg) && Progress(p) && !SpillFits(d.numSg, Pages(p), p.overflow)
    ensures n > 0 && Fills(d, p, n).wraps > p.wraps
    decreases Pages(p), p.overflow
  {
    MisfitHasRest(d, p);
    hide FillAt, SpillFits, SpillExact, Pages, Progress, Bounded;
    ProgressIsBounded(p);
    PinnedFill(d, p);
    AdvanceProgress(d, p, d.numSg);
    FitsAfterFill(d, p);
    var q := Advance(p, FillAt(d, p, d.numSg).value);
    if q.wraps > p.wraps {
      n := 1;
      assert Fills(d, q, 0) == q;
    } else {
      var k := MisfitWraps(d, q);
      n := k + 1;
    }
  }

  lemma MisfitHasRest(d: Device, p: Position)
    requires DeviceWidth(d.numSg) && !SpillFits(d.numSg, Pages(p), p.overflow)
    ensures p.overflow >= 4096
  {}

  // ---- Runs ----

  predicate FullyPinned(d: Device, inputs: seq<Input>) {
    forall i | i in inputs :: i.grant >= d.numSg
  }

  lemma SameGrant(d: Device, p: Position, grant: int)
    requires grant >= d.numSg
    ensures FillAt(d, p, grant) == FillAt(d, p, d.numSg)
  {}

  lemma {:induction false} RunIsFills(d: Device, c: Call, s: Recv, inputs: seq<Input>) returns (k: nat)
    requires NoLength(inputs) && FullyPinned(d, inputs)
    ensures Run(d, c, s, inputs).pos == Fills(d, s.pos, k)
    decreases |inputs|
  {
    if inputs == [] {
      k := 0;
    } else {
      var i := inputs[0];
      assert i in inputs && forall x | x in inputs[1..] :: x in inputs;
      StepIsFill(d, c, s, i);
      hide Step, FillAt, Advance;
      var t := Step(d, c, s, i);
      k := RunIsFills(d, c, t, inputs[1..]);
      if t.pos != s.pos { k := k + 1; }
    }
  }

  /** A message other than TXN_LEN maps one more fill, or nothing. */
  lemma StepIsFill(d: Device, c: Call, s: Recv, i: Input)
    requires NoLength([i]) && i.grant >= d.numSg
    ensures var p, q := s.pos, Step(d, c, s, i).pos;
            q == p || ((p.length > 0 || p.overflow > 0) && FillAt(d, p, d.numSg).Some?
              && q == Advance(p, FillAt(d, p, d.numSg).value))
  {
    SameGrant(d, s.pos, i.grant);
    assert i in [i];
    hide FillAt, Advance;
  }

  function Reads(d: Device, n: nat): (r: seq<Input>)
    ensures |r| == n && NoLength(r) && FullyPinned(d, r) && GoodInputs(r)
  {
    seq(n, _ => Input(Message(SG_BUF_READ, 0), d.numSg))
  }

  lemma {:induction false} ReadsFill(d: Device, c: Call, s: Recv, n: nat)
    requires DeviceWidth(d.numSg) && Progress(s.pos) && s.returned.None? && s.last != -1
    ensures Run(d, c, s, Reads(d, n)).pos == Fills(d, s.pos, n)
    decreases n
  {
    hide FillAt, Progress, Bounded;
    if n > 0 {
      var i := Input(Message(SG_BUF_READ, 0), d.numSg);
      assert Reads(d, n)[0] == i && Reads(d, n)[1..] == Reads(d, n - 1);
      var t := Step(d, c, s, i);
      if s.pos.length > 0 || s.pos.overflow > 0 {
        ProgressIsBounded(s.pos);
        PinnedFill(d, s.pos);
        AdvanceProgress(d, s.pos, d.numSg);
      } else {
        assert Fills(d, s.pos, n) == s.pos == Fills(d, s.pos, n - 1);
      }
      ReadsFill(d, c, t, n - 1);
    }
  }

  /** The first fill of a transaction. */
  lemma LengthFills(d: Device, c: Call, s: Recv, words: nat, grant: int)
    requires GoodCall(d, c) && Inv(s) && s.returned.None? && words < 0x1_0000_0000 && grant >= d.numSg
    ensures var b := Begin(c, s.pos, s.offset, 4 * words);
            var t := Step(d, c, s, Input(Message(TXN_LEN, words), grant));
            Progress(b) && b.wraps == 0 && t.returned.None? && t.last == s.last && t.pos == Fills(d, b, 1)
              && Progress(t.pos)
  {
    BeginAfterInv(c, s, 4 * words);
    var b := Begin(c, s.pos, s.offset, 4 * words);
    SameGrant(d, b, grant);
    hide Begin, FillAt, Progress, Inv;
    if b.length > 0 || b.overflow > 0 {
      ProgressIsBounded(b);
      PinnedFill(d, b);
      AdvanceProgress(d, b, d.numSg);
      var q := Advance(b, FillAt(d, b, d.numSg).value);
      assert Fills(d, q, 0) == q;
    }
  }

  lemma FillsAdd(d: Device, p: Position, m: nat, n: nat)
    ensures Fills(d, Fills(d, p, m), n) == Fills(d, p, m + n)
    decreases m
  {
    hide FillAt;
    if m > 0 && (p.length > 0 || p.overflow > 0) && FillAt(d, p, d.numSg).Some? {
      FillsAdd(d, Advance(p, FillAt(d, p, d.numSg).value), m - 1, n);
    }
  }

  lemma ExactFrom(d: Device, c: Call, t: Recv, b: Position)
    requires DeviceWidth(d.numSg) && Progress(b) && b.wraps == 0
    requires t.returned.None? && t.pos == Fills(d, b, 1) && Progress(t.pos)
    ensures SpillFits(d.numSg, Pages(b), b.overflow) <==>
            forall after | NoLength(after) && FullyPinned(d, after) :: Run(d, c, t, after).pos.wraps == 0
  {
    assert d.numSg > 0;
    hide *;
    if SpillFits(d.numSg, Pages(b), b.overflow) {
      forall after | NoLength(after) && FullyPinned(d, after) ensures Run(d, c, t, after).pos.wraps == 0 {
        FitsRun(d, c, t, b, after);
      }
    } else {
      var after := MisfitRun(d, c, t, b);
    }
  }

  lemma FitsRun(d: Device, c: Call, t: Recv, b: Position, after: seq<Input>)
    requires DeviceWidth(d.numSg) && Progress(b) && b.wraps == 0 && t.pos == Fills(d, b, 1)
    requires SpillFits(d.numSg, Pages(b), b.overflow) && NoLength(after) && FullyPinned(d, after)
    ensures Run(d, c, t, after).pos.wraps == 0
  {
    hide *;
    var k := RunIsFills(d, c, t, after);
    FillsAdd(d, b, 1, k);
    FitsNeverWraps(d, b, 1 + k);
  }

  /** SG_BUF_READ is heeded from the first TXN_OFFLAST on. */
  lemma OffsetFirst(d: Device, c: Call, t: Recv, i: Input)
    requires t.returned.None? && i.wake == Message(TXN_OFFLAST, 1)
    ensures var s := Step(d, c, t, i); s.pos == t.pos && s.returned.None? && s.last != -1
  {}

  lemma OffsetThenReads(d: Device, n: nat)
    ensures var r := [Input(Message(TXN_OFFLAST, 1), d.numSg)] + Reads(d, n); NoLength(r) && FullyPinned(d, r)
  {}

  lemma MisfitRun(d: Device, c: Call, t: Recv, b: Position) returns (after: seq<Input>)
    requires DeviceWidth(d.numSg) && Progress(b) && b.wraps == 0 && t.pos == Fills(d, b, 1)
    requires !SpillFits(d.numSg, Pages(b), b.overflow) && t.returned.None? && Progress(t.pos)
    ensures NoLength(after) && FullyPinned(d, after) && Run(d, c, t, after).pos.wraps > 0
  {
    var i := Input(Message(TXN_OFFLAST, 1), d.numSg);
    hide *;
    var n := MisfitWraps(d, b);
    FillsAdd(d, b, 1, n - 1);
    OffsetFirst(d, c, t, i);
    ReadsFill(d, c, Step(d, c, t, i), n - 1);
    OffsetThenReads(d, n - 1);
    after := [i] + Reads(d, n - 1);
    RunPrepend(d, c, t, i, Reads(d, n - 1));
  }

  /**
   * Main theorem, for any transaction of any call while all user pages are pinned: no fill ever reports too much spill
   * space, whatever messages follow, exactly when the closed form holds of its user pages and its spill bytes.
   */
  lemma ExactIffSpillFits(d: Device, c: Call, before: seq<Input>, words: nat, grant: int)
    requires GoodCall(d, c) && GoodInputs(before) && words < 0x1_0000_0000 && grant >= d.numSg
    requires Run(d, c, Start(c), before).returned.None?
    ensures var s := Run(d, c, Start(c), before); var b := Begin(c, s.pos, s.offset, 4 * words);
            var t := Step(d, c, s, Input(Message(TXN_LEN, words), grant));
            SpillFits(d.numSg, Pages(b), b.overflow) <==>
            forall after | NoLength(after) && FullyPinned(d, after) :: Run(d, c, t, after).pos.wraps == 0
  {
    EveryPosition(d, c, before);
    var s := Run(d, c, Start(c), before);
    LengthFills(d, c, s, words, grant);
    assert d.numSg > 0;
    hide *;
    ExactFrom(d, c, Step(d, c, s, Input(Message(TXN_LEN, words), grant)), Begin(c, s.pos, s.offset, 4 * words));
  }
}
