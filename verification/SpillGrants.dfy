/** When the accounting of chnl_recv is exact however few user pages each fill gets pinned. */
module SpillGrants {
  import opened Wrappers
  import opened Arith
  import opened ScatterGather
  import opened Transfers
  import opened RecvTransfer
  import opened SpillRounds

  /** The position after a fill for each of the grants, up to the first that fails. */
  function FillsBy(d: Device, p: Position, grants: seq<int>): Position
    decreases |grants|
  {
    if grants == [] || (p.length == 0 && p.overflow == 0) then p
    else match FillAt(d, p, grants[0])
      case None => p
      case Some(m) => FillsBy(d, Advance(p, m), grants[1..])
  }

  /**
   * Less than one spill buffer, or whole ones; or at most one user page, so that the number of elements it leaves
   * free is certain, and the closed form for that.
   */
  predicate SpillFitsAlways(numSg: nat, pages: nat, overflow: nat)
    requires numSg > 0
  {
    SpillSafe(overflow) || (pages <= 1 && SpillFits(numSg, pages, overflow))
  }

  // ---- Where the form holds ----

  /** A fill of at most one page is pinned in full if it is pinned at all. */
  lemma OnePageIsPinned(d: Device, p: Position, grant: int)
    requires DeviceWidth(d.numSg) && Pages(p) <= 1 && FillAt(d, p, grant).Some?
    ensures FillAt(d, p, grant) == FillAt(d, p, d.numSg)
  {
    if p.length > 0 { assert PagesMapped(d.numSg, p.udata, p.length, grant) == 1; }
  }

  lemma {:induction false} SafeNeverWraps(d: Device, p: Position, grants: seq<int>)
    requires DeviceWidth(d.numSg) && Progress(p) && SpillSafe(p.toSpill)
    ensures FillsBy(d, p, grants).wraps == 0
    decreases |grants|
  {
    if grants != [] && (p.length > 0 || p.overflow > 0) && FillAt(d, p, grants[0]).Some? {
      AdvanceProgress(d, p, grants[0]);
      hide FillAt, Progress, SpillSafe;
      SafeNeverWraps(d, Advance(p, FillAt(d, p, grants[0]).value), grants[1..]);
    }
  }

  lemma {:induction false} OnePageNeverWraps(d: Device, p: Position, grants: seq<int>)
    requires DeviceWidth(d.numSg) && Progress(p) && Pages(p) <= 1 && SpillFits(d.numSg, Pages(p), p.overflow)
    ensures FillsBy(d, p, grants).wraps == p.wraps
    decreases |grants|
  {
    if grants != [] && (p.length > 0 || p.overflow > 0) && FillAt(d, p, grants[0]).Some? {
      OnePageIsPinned(d, p, grants[0]);
      ProgressIsBounded(p);
      hide FillAt, Progress, Bounded, SpillFits, Pages;
      PinnedFill(d, p);
      AdvanceProgress(d, p, d.numSg);
      FitsAfterFill(d, p);
      OnePageNeverWraps(d, Advance(p, FillAt(d, p, d.numSg).value), grants[1..]);
    }
  }

  // ---- Where it fails ----

  lemma FillsByOne(d: Device, p: Position, grant: int, grants: seq<int>)
    requires (p.length > 0 || p.overflow > 0) && FillAt(d, p, grant).Some?
    ensures FillsBy(d, p, [grant] + grants) == FillsBy(d, Advance(p, FillAt(d, p, grant).value), grants)
  {
    assert ([grant] + grants)[1..] == grants;
  }

  lemma FillsAreBy(d: Device, p: Position, n: nat)
    ensures Fills(d, p, n) == FillsBy(d, p, seq(n, _ => d.numSg))
    decreases n
  {
    hide FillAt, Advance;
    if n > 0 && (p.length > 0 || p.overflow > 0) && FillAt(d, p, d.numSg).Some? {
      assert seq(n, _ => d.numSg) == [d.numSg] + seq(n - 1, _ => d.numSg);
      FillsByOne(d, p, d.numSg, seq(n - 1, _ => d.numSg));
      FillsAreBy(d, Advance(p, FillAt(d, p, d.numSg).value), n - 1);
    }
  }

  /** A single page pinned, with more to come. */
  lemma FirstPageOnly(d: Device, p: Position)
    requires DeviceWidth(d.numSg) && Progress(p) && Pages(p) > 1
    ensures FillAt(d, p, 1).Some?
    ensures var q := Advance(p, FillAt(d, p, 1).value);
            Progress(q) && Pages(q) == Pages(p) - 1 && q.overflow == p.overflow && q.wraps == p.wraps
  {
    FillFails(d, p, 1);
    AdvanceProgress(d, p, 1);
    FillUserPart(d.numSg, p.udata, p.length, p.overflow, 1);
    FillSpillPart(d.numSg, p.udata, p.length, p.overflow, 1);
    SegmentsTile(p.udata, p.length, 1);
    FillStaysInAddressSpace(p);
    hide Fill, PagesSpanned, Segments, Progress;
    Mod64Small(p.udata + FillAt(d, p, 1).value.length);
    Mod64Small(p.overflow);
  }

  /** The last fill with user pages has one page or two, as the grants decide; only one of these can fit. */
  lemma OneOrTwo(numSg: nat, overflow: nat) returns (pages: nat)
    requires numSg >= 2 && !SpillSafe(overflow)
    ensures 1 <= pages <= 2 && !SpillFits(numSg, pages, overflow)
  {
    var q := overflow / 4096;
    DivModUnique(0, numSg, 0, 0);
    DivModUnique(1, numSg, 0, 1);
    if numSg - 2 <= q && (q - (numSg - 2)) % numSg == 0 && numSg - 1 <= q && (q - (numSg - 1)) % numSg == 0 {
      SameSlot(q - (numSg - 1), q - (numSg - 2), numSg);
    }
    pages := if SpillFits(numSg, 1, overflow) then 2 else 1;
  }

  lemma {:induction false} MisfitFrom(d: Device, p: Position, pages: nat) returns (grants: seq<int>)
    requires DeviceWidth(d.numSg) && Progress(p) && 1 <= pages <= Pages(p) && !SpillFits(d.numSg, pages, p.overflow)
    ensures grants != [] && FillsBy(d, p, grants).wraps > p.wraps
    decreases Pages(p)
  {
    hide FillAt, Progress, SpillFits, Advance;
    if Pages(p) == pages {
      var n := MisfitWraps(d, p);
      FillsAreBy(d, p, n);
      grants := seq(n, _ => d.numSg);
    } else {
      FirstPageOnly(d, p);
      var rest := MisfitFrom(d, Advance(p, FillAt(d, p, 1).value), pages);
      grants := [1] + rest;
      FillsByOne(d, p, 1, rest);
    }
  }

  lemma AlwaysMisfit(d: Device, p: Position) returns (grants: seq<int>)
    requires DeviceWidth(d.numSg) && Progress(p) && !SpillFitsAlways(d.numSg, Pages(p), p.overflow)
    ensures grants != [] && FillsBy(d, p, grants).wraps > p.wraps
  {
    hide FillAt, Progress, Pages;
    if Pages(p) <= 1 {
      var n := MisfitWraps(d, p);
      FillsAreBy(d, p, n);
      grants := seq(n, _ => d.numSg);
    } else {
      var pages := OneOrTwo(d.numSg, p.overflow);
      grants := MisfitFrom(d, p, pages);
    }
  }

  // ---- Runs ----

  /** SG_BUF_READ messages, each with its grant. */
  function ReadsBy(grants: seq<int>): (r: seq<Input>)
    ensures |r| == |grants| && NoLength(r)
  {
    seq(|grants|, i requires 0 <= i < |grants| => Input(Message(SG_BUF_READ, 0), grants[i]))
  }

  lemma {:induction false} ReadsFillBy(d: Device, c: Call, s: Recv, grants: seq<int>)
    requires s.returned.Some? || s.last != -1
    ensures s.returned.None? ==> Run(d, c, s, ReadsBy(grants)).pos == FillsBy(d, s.pos, grants)
    decreases |grants|
  {
    if s.returned.None? && grants != [] {
      var i := Input(Message(SG_BUF_READ, 0), grants[0]);
      assert ReadsBy(grants) == [i] + ReadsBy(grants[1..]);
      RunPrepend(d, c, s, i, ReadsBy(grants[1..]));
      var t := Step(d, c, s, i);
      hide FillAt, Advance;
      if t.returned.Some? {
        ReturnedStays(d, c, t, ReadsBy(grants[1..]));
      } else {
        ReadsFillBy(d, c, t, grants[1..]);
        NothingLeft(d, s.pos, grants);
      }
    }
  }

  lemma NothingLeft(d: Device, p: Position, grants: seq<int>)
    ensures p.length == 0 && p.overflow == 0 ==> FillsBy(d, p, grants) == p
  {}

  lemma {:induction false} RunIsFillsBy(d: Device, c: Call, s: Recv, inputs: seq<Input>) returns (grants: seq<int>)
    requires NoLength(inputs)
    ensures Run(d, c, s, inputs).pos == FillsBy(d, s.pos, grants)
    decreases |inputs|
  {
    if inputs == [] {
      grants := [];
    } else {
      var i, t := inputs[0], Step(d, c, s, inputs[0]);
      assert i in inputs && forall x | x in inputs[1..] :: x in inputs;
      StepIsFillBy(d, c, s, i);
      hide Step, FillAt, Advance;
      grants := RunIsFillsBy(d, c, t, inputs[1..]);
      if t.pos != s.pos {
        FillsByOne(d, s.pos, i.grant, grants);
        grants := [i.grant] + grants;
      }
    }
  }

  lemma StepIsFillBy(d: Device, c: Call, s: Recv, i: Input)
    requires !(i.wake.Message? && i.wake.kind == TXN_LEN)
    ensures var p, q := s.pos, Step(d, c, s, i).pos;
            q == p || ((p.length > 0 || p.overflow > 0) && FillAt(d, p, i.grant).Some?
              && q == Advance(p, FillAt(d, p, i.grant).value))
  {
    hide FillAt, Advance;
  }

  /** The first fill of a transaction; if it fails the call returns. */
  lemma LengthFillsBy(d: Device, c: Call, s: Recv, words: nat, grant: int)
    requires s.returned.None?
    ensures var b := Begin(c, s.pos, s.offset, 4 * words);
            var t := Step(d, c, s, Input(Message(TXN_LEN, words), grant));
            && t.pos == FillsBy(d, b, [grant]) && t.last == s.last
            && (t.returned.Some? <==> (b.length > 0 || b.overflow > 0) && FillAt(d, b, grant).None?)
  {
    hide Begin, FillAt, Advance;
    var b := Begin(c, s.pos, s.offset, 4 * words);
    if (b.length > 0 || b.overflow > 0) && FillAt(d, b, grant).Some? {
      FillsByOne(d, b, grant, []);
      assert [grant] + [] == [grant];
    }
  }

  lemma FillsByConcat(d: Device, p: Position, a: seq<int>, b: seq<int>)
    requires |a| == 1 && ((p.length > 0 || p.overflow > 0) ==> FillAt(d, p, a[0]).Some?)
    ensures FillsBy(d, p, a + b) == FillsBy(d, FillsBy(d, p, a), b)
  {
    hide FillAt, Advance;
    if p.length > 0 || p.overflow > 0 {
      FillsByOne(d, p, a[0], b);
      FillsByOne(d, p, a[0], []);
      assert a + b == [a[0]] + b && a == [a[0]] + [];
    } else {
      NothingLeft(d, p, a + b);
      NothingLeft(d, p, b);
    }
  }

  /** Whatever grant the first fill gets and whatever follows, the position is one of those. */
  lemma AfterIsFillsBy(d: Device, c: Call, s: Recv, words: nat, grant: int, after: seq<Input>)
    returns (grants: seq<int>)
    requires s.returned.None? && NoLength(after)
    ensures Run(d, c, Step(d, c, s, Input(Message(TXN_LEN, words), grant)), after).pos ==
        FillsBy(d, Begin(c, s.pos, s.offset, 4 * words), grants)
  {
    LengthFillsBy(d, c, s, words, grant);
    var b, t := Begin(c, s.pos, s.offset, 4 * words), Step(d, c, s, Input(Message(TXN_LEN, words), grant));
    hide Step, Begin, FillAt, Advance;
    if t.returned.Some? {
      ReturnedStays(d, c, t, after);
      grants := [grant];
    } else {
      var rest := RunIsFillsBy(d, c, t, after);
      FillsByConcat(d, b, [grant], rest);
      grants := [grant] + rest;
    }
  }

  /** And each of those is reached. */
  lemma FillsByAreReached(d: Device, c: Call, s: Recv, words: nat, grants: seq<int>) returns (after: seq<Input>)
    requires s.returned.None? && grants != []
    requires var b := Begin(c, s.pos, s.offset, 4 * words); FillsBy(d, b, grants) != b
    ensures NoLength(after)
    ensures Run(d, c, Step(d, c, s, Input(Message(TXN_LEN, words), grants[0])), after).pos ==
        FillsBy(d, Begin(c, s.pos, s.offset, 4 * words), grants)
  {
    var b, rest := Begin(c, s.pos, s.offset, 4 * words), grants[1..];
    LengthFillsBy(d, c, s, words, grants[0]);
    FillsByConcat(d, b, [grants[0]], rest);
    assert [grants[0]] + rest == grants;
    var t := Step(d, c, s, Input(Message(TXN_LEN, words), grants[0]));
    var i := Input(Message(TXN_OFFLAST, 1), 0);
    OffsetFirst(d, c, t, i);
    ReadsFillBy(d, c, Step(d, c, t, i), rest);
    RunPrepend(d, c, t, i, ReadsBy(rest));
    after := [i] + ReadsBy(rest);
  }

  lemma AlwaysFits(d: Device, b: Position, grants: seq<int>)
    requires DeviceWidth(d.numSg) && Progress(b) && b.wraps == 0 && b.toSpill == b.overflow
    requires SpillFitsAlways(d.numSg, Pages(b), b.overflow)
    ensures FillsBy(d, b, grants).wraps == 0
  {
    hide Progress, Pages, FillsBy;
    if SpillSafe(b.overflow) { SafeNeverWraps(d, b, grants); } else { OnePageNeverWraps(d, b, grants); }
  }

  /**
   * Main theorem, for any transaction of any call: no fill ever reports too much spill space, however few pages each
   * one gets pinned and whatever messages follow, exactly when the overflow is less than one spill buffer or whole
   * ones, or there is at most one user page and the closed form holds.
   */
  lemma ExactForAllGrantsIff(d: Device, c: Call, before: seq<Input>, words: nat)
    requires GoodCall(d, c) && GoodInputs(before) && words < 0x1_0000_0000
    requires Run(d, c, Start(c), before).returned.None?
    ensures var s := Run(d, c, Start(c), before); var b := Begin(c, s.pos, s.offset, 4 * words);
            SpillFitsAlways(d.numSg, Pages(b), b.overflow) <==>
            forall grant: int, after | NoLength(after) ::
              Run(d, c, Step(d, c, s, Input(Message(TXN_LEN, words), grant)), after).pos.wraps == 0
  {
    EveryPosition(d, c, before);
    var s := Run(d, c, Start(c), before);
    BeginAfterInv(c, s, 4 * words);
    var b := Begin(c, s.pos, s.offset, 4 * words);
    assert b.wraps == 0 && b.toSpill == b.overflow && DeviceWidth(d.numSg) && d.numSg > 0;
    hide Run, Step, Start, Begin, Inv, Progress, Pages, SpillFitsAlways, NoLength, FillsBy;
    if SpillFitsAlways(d.numSg, Pages(b), b.overflow) {
      forall grant: int, after | NoLength(after)
        ensures Run(d, c, Step(d, c, s, Input(Message(TXN_LEN, words), grant)), after).pos.wraps == 0
      {
        var grants := AfterIsFillsBy(d, c, s, words, grant, after);
        AlwaysFits(d, b, grants);
      }
    } else {
      var grants := AlwaysMisfit(d, b);
      var after := FillsByAreReached(d, c, s, words, grants);
    }
  }
}
