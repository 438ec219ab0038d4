/** fill_sg_buf and free_sg_buf of riffa_driver.c: how user pages and spill space become scatter-gather elements. */
module ScatterGather {
  import opened Wrappers
  import opened Arith

  // Literals below: 4096 is PAGE_SIZE or SPILL_BUF_SIZE, 2^64 the range of unsigned long long,
  // and a device of bus width w has SG_ELEMS * w = 200 * w elements in SG_BUF_SIZE * w = 4096 * w bytes.

  /** One element over user memory, as a user address and a byte count. */
  datatype Segment = Segment(addr: nat, len: nat)

  /** struct sg_mapping. `length` and `overflow` are the byte counts it reports to its caller. */
  datatype Mapping = Mapping(segments: seq<Segment>, spills: nat, length: nat, overflow: nat) {
    function NumSg(): nat { |segments| + spills }
  }

  // ---- Specification ----

  /** Pages touched by [udata, udata + length). */
  function PagesSpanned(udata: nat, length: nat): (n: nat)
    requires length > 0
    ensures n >= 1
  {
    MulMonotone(udata / 4096, (udata + length - 1) / 4096, 1);
    (udata + length - 1) / 4096 - udata / 4096 + 1
  }

  /** How much of [udata, udata + length) lies in the page of udata. */
  function PieceLen(udata: nat, length: nat): (len: nat)
    ensures len <= length && (length > 0 ==> len > 0)
  {
    Min(4096 - udata % 4096, length)
  }

  /** The first n page-bounded pieces of [udata, udata + length). */
  function Segments(udata: nat, length: nat, n: nat): seq<Segment>
    decreases n
  {
    if n == 0 || length == 0 then []
    else
      var len := PieceLen(udata, length);
      [Segment(udata, len)] + Segments(udata + len, length - len, n - 1)
  }

  function Bytes(segs: seq<Segment>): (n: nat)
    ensures segs == [] ==> n == 0
  {
    if segs == [] then 0 else segs[0].len + Bytes(segs[1..])
  }

  /** Each spill element takes min(4096, overflow) off the 64-bit remainder, whatever the remainder is. */
  function SpillRun(overflow: nat, rem: nat, free: nat): (r: (nat, nat))
    ensures r.0 <= free
    decreases free
  {
    if rem == 0 || free == 0 then (0, rem)
    else
      var (used, left) := SpillRun(overflow, (rem - Min(4096, overflow)) % 0x1_0000_0000_0000_0000, free - 1);
      (used + 1, left)
  }

  /** Pages actually mapped when the kernel is willing to pin `grant` of them. */
  function PagesMapped(numSg: nat, udata: nat, length: nat, grant: int): int {
    if length == 0 then 0 else Min(grant, Min(PagesSpanned(udata, length), numSg))
  }

  /** What fill_sg_buf returns; a grant below 1 stands for any of its failures. */
  function Fill(numSg: nat, udata: nat, length: nat, overflow: nat, grant: int): Option<Mapping> {
    if length > 0 && grant <= 0 then None
    else if length > 0 && numSg == 0 then None
    else
      var segs := Segments(udata, length, PagesMapped(numSg, udata, length, grant));
      var (used, left) := if Bytes(segs) == length && |segs| <= numSg
        then SpillRun(overflow, overflow, numSg - |segs|)
        else (0, overflow);
      Some(Mapping(segs, used, Bytes(segs), (overflow - left) % 0x1_0000_0000_0000_0000))
  }

  // ---- User segments ----

  /** The segments are non-empty and lie end to end from `from` to `to`. */
  ghost predicate Tiles(segs: seq<Segment>, from: nat, to: nat)
  {
    if segs == [] then from == to
    else segs[0].addr == from && segs[0].len > 0 && Tiles(segs[1..], from + segs[0].len, to)
  }

  ghost predicate InOnePage(s: Segment) {
    s.len > 0 && s.addr / 4096 == (s.addr + s.len - 1) / 4096
  }

  lemma {:induction false} TilesConcat(a: seq<Segment>, b: seq<Segment>, from: nat, mid: nat, to: nat)
    requires Tiles(a, from, mid) && Tiles(b, mid, to)
    ensures Tiles(a + b, from, to)
  {
    if a == [] {
      assert a + b == b;
    } else {
      assert (a + b)[1..] == a[1..] + b;
      TilesConcat(a[1..], b, from + a[0].len, mid, to);
    }
  }

  /** The first piece: it lies in one page, and what follows spans one page less. */
  lemma PieceFacts(udata: nat, length: nat)
    requires length > 0
    ensures var len := PieceLen(udata, length);
            && InOnePage(Segment(udata, len))
            && (len < length ==>
                  && PagesSpanned(udata + len, length - len) == PagesSpanned(udata, length) - 1
                  && (udata + len) / 4096 == udata / 4096 + 1 && (udata + len) % 4096 == 0)
            && (len == length ==> PagesSpanned(udata, length) == 1)
  {
    var len := PieceLen(udata, length);
    assert (udata + len - 1) / 4096 == udata / 4096;
  }

  lemma SegmentsStep(udata: nat, length: nat, n: nat)
    requires n > 0 && length > 0
    ensures var segs := Segments(udata, length, n);
            var len := PieceLen(udata, length);
            var rest := Segments(udata + len, length - len, n - 1);
            segs == [Segment(udata, len)] + rest && segs[1..] == rest && Bytes(segs) == len + Bytes(rest)
  {
    hide PieceLen;
  }

  lemma SegmentsNone(udata: nat, length: nat, n: nat)
    requires n == 0 || length == 0
    ensures Segments(udata, length, n) == [] && Bytes(Segments(udata, length, n)) == 0
  {}

  /**
   * The pieces tile an initial part of the buffer, one page each; all of it exactly when every spanned page was
   * mapped.
   */
  lemma {:induction false} SegmentsTile(udata: nat, length: nat, n: nat)
    requires length > 0 ==> n <= PagesSpanned(udata, length)
    ensures var segs := Segments(udata, length, n);
            && Tiles(segs, udata, udata + Bytes(segs))
            && (forall s | s in segs :: InOnePage(s))
            && Bytes(segs) <= length
            && |segs| == (if length == 0 then 0 else n)
            && (length > 0 ==> (Bytes(segs) == length <==> n == PagesSpanned(udata, length)))
            && (0 < n && length > 0 ==> Bytes(segs) > 0)
    decreases n
  {
    hide Segments, PieceLen, InOnePage, PagesSpanned, Bytes;
    if n > 0 && length > 0 {
      var len := PieceLen(udata, length);
      PieceFacts(udata, length);
      SegmentsStep(udata, length, n);
      if len < length {
        SegmentsTile(udata + len, length - len, n - 1);
      } else {
        SegmentsNone(udata + len, 0, n - 1);
      }
    } else {
      SegmentsNone(udata, length, n);
    }
  }

  lemma MultipleOfFour(a: int, b: int)
    requires a % 4 == 0 && b % 4 == 0
    ensures (a - b) % 4 == 0
  {
    AddMultiple(a, 4, -(b / 4));
  }

  lemma AlignedPiece(udata: nat, length: nat)
    requires udata % 4 == 0 && length % 4 == 0
    ensures var len := PieceLen(udata, length);
            len % 4 == 0 && (udata + len) % 4 == 0 && (length - len) % 4 == 0
  {
    var len, rest := PieceLen(udata, length), 4096 - udata % 4096;
    assert len == rest || len == length;
    hide PieceLen;
    NestedMod(udata, 4096, 4);
    assert len % 4 == 0 by { if len == rest { MultipleOfFour(4096, udata % 4096); } }
    MultipleOfFour(length, len);
    MultipleOfFour(udata, -(len as int));
  }

  /** Word-aligned buffers give word-aligned pieces, so the `>>2` of each length loses nothing. */
  lemma {:induction false} SegmentsAligned(udata: nat, length: nat, n: nat)
    requires udata % 4 == 0 && length % 4 == 0
    ensures forall s | s in Segments(udata, length, n) :: s.addr % 4 == 0 && s.len % 4 == 0
    ensures Bytes(Segments(udata, length, n)) % 4 == 0
    decreases n
  {
    hide Segments, PieceLen, Bytes;
    if n > 0 && length > 0 {
      var len := PieceLen(udata, length);
      AlignedPiece(udata, length);
      SegmentsStep(udata, length, n);
      SegmentsAligned(udata + len, length - len, n - 1);
    } else {
      SegmentsNone(udata, length, n);
    }
  }

  /** How many pages are left to map after a fill: every fill advances by whole pages. */
  lemma {:induction false} PagesLeft(udata: nat, length: nat, n: nat)
    requires length > 0 && n <= PagesSpanned(udata, length)
    ensures var done := Bytes(Segments(udata, length, n));
            done < length ==> PagesSpanned(udata + done, length - done) == PagesSpanned(udata, length) - n
    decreases n
  {
    hide Segments, PieceLen, InOnePage, PagesSpanned, Bytes;
    if n > 0 {
      var len := PieceLen(udata, length);
      PieceFacts(udata, length);
      SegmentsStep(udata, length, n);
      if len < length {
        PagesLeft(udata + len, length - len, n - 1);
      }
    } else {
      SegmentsNone(udata, length, n);
    }
  }

  // ---- Spill elements ----

  /** When the subtraction in the spill loop never goes below zero. */
  predicate SpillExact(overflow: nat, free: nat) {
    overflow < 4096 || overflow % 4096 == 0 || free <= overflow / 4096
  }

  lemma {:induction false} SpillRunExact(overflow: nat, rem: nat, free: nat)
    requires overflow >= 4096 && rem <= overflow < 0x1_0000_0000_0000_0000
    requires rem % 4096 == 0 || free <= rem / 4096
    ensures SpillRun(overflow, rem, free).1 == rem - Min(rem, 4096 * free)
    ensures SpillRun(overflow, rem, free).0 == Min(rem / 4096, free)
    decreases free
  {
    if rem > 0 && free > 0 {
      assert rem >= 4096;
      SpillRunExact(overflow, rem - 4096, free - 1);
    }
  }

  /** What is left after one more spill buffer, and after k bytes more. */
  lemma NextRemainder(rem: nat, k: nat) returns (next: nat)
    requires rem < 0x1_0000_0000_0000_0000
    ensures next == (rem - 4096) % 0x1_0000_0000_0000_0000 < 0x1_0000_0000_0000_0000
    ensures next % 4096 == rem % 4096
    ensures (next - k) % 0x1_0000_0000_0000_0000 == (rem - 4096 - k) % 0x1_0000_0000_0000_0000
  {
    if rem >= 4096 {
      next := rem - 4096;
      DivModUnique(rem - 4096, 0x1_0000_0000_0000_0000, 0, next);
      AddMultiple(next, 4096, 1);
    } else {
      next := rem - 4096 + 0x1_0000_0000_0000_0000;
      DivModUnique(rem - 4096, 0x1_0000_0000_0000_0000, -1, next);
      AddMultiple(rem, 4096, 0x1_0000_0000_0000_0000 / 4096 - 1);
      AddMultiple(rem - 4096 - k, 0x1_0000_0000_0000_0000, 1);
    }
  }

  lemma SpillRunNext(overflow: nat, rem: nat, free: nat, next: nat)
    requires overflow >= 4096 && rem > 0 && free > 0 && next == (rem - 4096) % 0x1_0000_0000_0000_0000
    ensures var (used, left) := SpillRun(overflow, next, free - 1); SpillRun(overflow, rem, free) == (used + 1, left)
  {}

  /** Once the remainder has wrapped it stays far from zero, so every free element is used up. */
  lemma {:induction false} SpillRunWraps(overflow: nat, rem: nat, free: nat)
    requires overflow >= 4096 && rem < 0x1_0000_0000_0000_0000 && rem % 4096 != 0
    ensures SpillRun(overflow, rem, free) == (free, (rem - 4096 * free) % 0x1_0000_0000_0000_0000)
    decreases free
  {
    if free > 0 {
      var next := NextRemainder(rem, 4096 * (free - 1));
      SpillRunNext(overflow, rem, free, next);
      hide SpillRun;
      SpillRunWraps(overflow, next, free - 1);
    } else {
      DivModUnique(rem, 0x1_0000_0000_0000_0000, 0, rem);
    }
  }

  function SpillRecorded(overflow: nat, free: nat): nat {
    (overflow - SpillRun(overflow, overflow, free).1) % 0x1_0000_0000_0000_0000
  }

  lemma SpillReportExact(overflow: nat, free: nat)
    requires overflow < 0x1_0000_0000_0000_0000 && SpillExact(overflow, free)
    ensures SpillRecorded(overflow, free) == Min(overflow, 4096 * free)
  {
    var left := SpillRun(overflow, overflow, free).1;
    if overflow < 4096 {
      if free > 0 && overflow > 0 {
        assert (overflow - Min(4096, overflow)) % 0x1_0000_0000_0000_0000 == 0;
        assert left == 0;
      }
    } else {
      SpillRunExact(overflow, overflow, free);
    }
    assert left == overflow - Min(overflow, 4096 * free);
    DivModUnique(overflow - left, 0x1_0000_0000_0000_0000, 0, overflow - left);
  }

  lemma SpillReportWraps(overflow: nat, free: nat)
    requires overflow < 0x1_0000_0000_0000_0000 && 4096 * free < 0x1_0000_0000_0000_0000 && !SpillExact(overflow, free)
    ensures SpillRecorded(overflow, free) == 4096 * free > overflow
    ensures SpillRun(overflow, overflow, free).0 == free
  {
    SpillRunWraps(overflow, overflow, free);
    assert free >= overflow / 4096 + 1;
    DivModUnique(overflow - 4096 * free, 0x1_0000_0000_0000_0000, -1, overflow - 4096 * free + 0x1_0000_0000_0000_0000);
    DivModUnique(4096 * free - 0x1_0000_0000_0000_0000, 0x1_0000_0000_0000_0000, -1, 4096 * free);
  }

  /**
   * The overflow a fill reports is min(overflow, 4096 * free) exactly when SpillExact holds; otherwise the
   * comparison with `overflow` instead of the remainder lets the subtraction wrap, every free element is
   * used, and 4096 * free is reported although that is more than the overflow.
   */
  lemma SpillReport(overflow: nat, free: nat)
    requires overflow < 0x1_0000_0000_0000_0000 && 4096 * free < 0x1_0000_0000_0000_0000
    ensures SpillRecorded(overflow, free) == Min(overflow, 4096 * free) <==> SpillExact(overflow, free)
    ensures !SpillExact(overflow, free) ==>
              SpillRecorded(overflow, free) == 4096 * free > overflow && SpillRun(overflow, overflow, free).0 == free
  {
    if SpillExact(overflow, free) { SpillReportExact(overflow, free); } else { SpillReportWraps(overflow, free); }
  }

  // ---- One fill ----

  predicate DeviceWidth(numSg: nat) {
    exists w | 1 <= w <= 4 :: numSg == 200 * w
  }

  /** The user part of a successful fill. */
  lemma FillUserPart(numSg: nat, udata: nat, length: nat, overflow: nat, grant: int)
    requires DeviceWidth(numSg)
    requires Fill(numSg, udata, length, overflow, grant).Some?
    ensures var m := Fill(numSg, udata, length, overflow, grant).value;
            && Tiles(m.segments, udata, udata + m.length)
            && (forall s | s in m.segments :: InOnePage(s))
            && m.length == Bytes(m.segments) <= length
            && |m.segments| <= numSg
            && (length > 0 ==>
              0 < m.length && 0 < |m.segments| == Min(grant, Min(PagesSpanned(udata, length), numSg)))
            && (length > 0 ==> (m.length == length <==> |m.segments| == PagesSpanned(udata, length)))
            && (m.length < length ==>
                  PagesSpanned(udata + m.length, length - m.length) == PagesSpanned(udata, length) - |m.segments|)
  {
    var n := PagesMapped(numSg, udata, length, grant);
    SegmentsTile(udata, length, n);
    if length > 0 { PagesLeft(udata, length, n); }
  }

  /** The spill part: elements are added only after the last user byte, and never more than fit. */
  lemma FillSpillPart(numSg: nat, udata: nat, length: nat, overflow: nat, grant: int)
    requires DeviceWidth(numSg) && overflow < 0x1_0000_0000_0000_0000
    requires Fill(numSg, udata, length, overflow, grant).Some?
    ensures var m := Fill(numSg, udata, length, overflow, grant).value;
            && m.NumSg() <= numSg
            && (length > 0 || overflow > 0 ==> m.NumSg() > 0)
            && (m.spills > 0 ==> m.length == length)
            && m.overflow < 0x1_0000_0000_0000_0000
            && m.overflow == (if m.length == length then SpillRecorded(overflow, numSg - |m.segments|) else 0)
  {
    FillUserPart(numSg, udata, length, overflow, grant);
    var m := Fill(numSg, udata, length, overflow, grant).value;
    var free := numSg - |m.segments|;
    if m.length == length {
      assert m.overflow == SpillRecorded(overflow, free);
      assert m.spills == SpillRun(overflow, overflow, free).0;
    } else {
      assert m.overflow == (overflow - overflow) % 0x1_0000_0000_0000_0000;
      DivModUnique(overflow - overflow, 0x1_0000_0000_0000_0000, 0, 0);
    }
  }

  /** 16 bytes are reserved per element and 4096 per 200 elements, so the common buffer is never overrun. */
  lemma ElementsFitBuffer(w: nat, udata: nat, length: nat, overflow: nat, grant: int)
    requires 1 <= w <= 4 && overflow < 0x1_0000_0000_0000_0000
    requires Fill(200 * w, udata, length, overflow, grant).Some?
    ensures 16 * Fill(200 * w, udata, length, overflow, grant).value.NumSg() <= 4096 * w
  {
    FillSpillPart(200 * w, udata, length, overflow, grant);
  }

  // ---- The method ----

  ghost predicate UserElement(words: seq<nat>, i: nat, s: Segment)
  {
    4 * i + 2 < |words| && words[4 * i] == s.addr % 0x1_0000_0000 && words[4 * i + 1] == s.addr / 0x1_0000_0000
      && words[4 * i + 2] == s.len / 4
  }

  ghost predicate SpillElement(words: seq<nat>, i: nat, spillAddr: nat)
  {
    4 * i + 2 < |words| && words[4 * i] == spillAddr % 0x1_0000_0000 && words[4 * i + 1] == spillAddr / 0x1_0000_0000
      && words[4 * i + 2] == 4096 / 4
  }

  /** What the common buffer holds after a fill, element by element. */
  ghost predicate Programmed(words: seq<nat>, m: Mapping, spillAddr: nat)
  {
    && (forall i | 0 <= i < |m.segments| :: UserElement(words, i, m.segments[i]))
    && (forall i | |m.segments| <= i < m.NumSg() :: SpillElement(words, i, spillAddr))
  }

  /** Element i as the device reads it: two words of address, and a length in words. */
  function ReadElement(words: seq<nat>, i: nat): Segment
    requires 4 * i + 2 < |words|
  {
    Segment(words[4 * i] + 0x1_0000_0000 * words[4 * i + 1], 4 * words[4 * i + 2])
  }

  /**
   * After a fill for a word-aligned buffer the device reads back the mapped user ranges, in order, and then as many
   * whole spill buffers as the mapping counts; no word but a high half exceeds 32 bits.
   */
  lemma DeviceReadsBack(numSg: nat, udata: nat, length: nat, overflow: nat, grant: int, words: seq<nat>, spill: nat)
    requires DeviceWidth(numSg) && udata % 4 == 0 && length % 4 == 0
    requires Fill(numSg, udata, length, overflow, grant).Some?
    requires Programmed(words, Fill(numSg, udata, length, overflow, grant).value, spill)
    ensures var m := Fill(numSg, udata, length, overflow, grant).value;
            && (forall i | 0 <= i < m.NumSg() :: 4 * i + 2 < |words| && words[4 * i] < 0x1_0000_0000)
            && (forall i | 0 <= i < |m.segments| :: ReadElement(words, i) == m.segments[i])
            && (forall i | |m.segments| <= i < m.NumSg() :: ReadElement(words, i) == Segment(spill, 4096))
  {
    var m := Fill(numSg, udata, length, overflow, grant).value;
    SegmentsAligned(udata, length, PagesMapped(numSg, udata, length, grant));
    assert forall i | 0 <= i < |m.segments| :: m.segments[i] in m.segments;
    hide Fill, Segments, PagesMapped;
    forall i | 0 <= i < m.NumSg()
      ensures 4 * i + 2 < |words| && words[4 * i] < 0x1_0000_0000
      ensures ReadElement(words, i) == if i < |m.segments| then m.segments[i] else Segment(spill, 4096)
    {
      if i < |m.segments| {
        assert UserElement(words, i, m.segments[i]);
        ReadsBack(words, i, m.segments[i]);
      } else {
        assert SpillElement(words, i, spill);
      }
    }
  }

  lemma ReadsBack(words: seq<nat>, i: nat, s: Segment)
    requires UserElement(words, i, s) && s.len % 4 == 0
    ensures words[4 * i] < 0x1_0000_0000 && ReadElement(words, i) == s
  {}

  /** One turn of the scatterlist loop; `at` is where the page's part of the buffer starts. */
  lemma NextPage(at: nat, rem: nat, n: nat)
    requires 0 < rem && 0 < n <= PagesSpanned(at, rem)
    ensures var len := if at % 4096 + rem > 4096 then 4096 - at % 4096 else rem;
            && len == PieceLen(at, rem)
            && Segments(at, rem, n) == [Segment(at, len)] + Segments(at + len, rem - len, n - 1)
            && Bytes(Segments(at, rem, n)) == len + Bytes(Segments(at + len, rem - len, n - 1))
            && (n > 1 ==> len < rem && n - 1 <= PagesSpanned(at + len, rem - len)
                          && (at + len) / 4096 == at / 4096 + 1 && (at + len) % 4096 == 0)
  {
    assert PieceLen(at, rem) == if at % 4096 + rem > 4096 then 4096 - at % 4096 else rem;
    hide PieceLen, PagesSpanned, InOnePage;
    PieceFacts(at, rem);
    SegmentsStep(at, rem, n);
  }

  /** sg_set_page in a loop: page i of the pinned pages, with the offset only in the first. */
  method BuildScatterlist(udata: nat, length: nat, numPages: nat) returns (sgl: seq<Segment>, lenRem: nat)
    requires length > 0 && 0 < numPages <= PagesSpanned(udata, length)
    ensures sgl == Segments(udata, length, numPages)
    ensures lenRem == length - Bytes(sgl)
  {
    hide Segments, Bytes, PagesSpanned;
    sgl := [];
    lenRem := length;
    var fpOffset := udata % 4096;
    ghost var at: nat, i: nat := udata, 0;
    ghost var todo := Segments(udata, length, numPages);
    while |sgl| < numPages
      invariant i == |sgl| <= numPages && lenRem <= length
      invariant i < numPages ==> lenRem > 0 && numPages - i <= PagesSpanned(at, lenRem)
      invariant i < numPages ==> at / 4096 == udata / 4096 + i && at % 4096 == fpOffset
      invariant todo == Segments(at, lenRem, numPages - i)
      invariant Segments(udata, length, numPages) == sgl + todo
      invariant Bytes(Segments(udata, length, numPages)) == length - lenRem + Bytes(todo)
    {
      NextPage(at, lenRem, numPages - i);
      var len := if fpOffset + lenRem > 4096 then 4096 - fpOffset else lenRem;
      var page := Segment((udata / 4096 + |sgl|) * 4096 + fpOffset, len);
      assert page == Segment(at, len);
      ghost var rest := Segments(at + len, lenRem - len, numPages - i - 1);
      sgl := sgl + [page];
      lenRem := lenRem - len;
      fpOffset := 0;
      at, i := at + len, i + 1;
      todo := rest;
    }
    SegmentsNone(at, lenRem, 0);
    assert sgl + [] == sgl;
  }

  method WriteUserElements(sgBuf: array<nat>, sgl: seq<Segment>)
    requires 4 * |sgl| <= sgBuf.Length
    modifies sgBuf
    ensures forall j | 0 <= j < |sgl| :: UserElement(sgBuf[..], j, sgl[j])
    ensures forall k | 4 * |sgl| <= k < sgBuf.Length :: sgBuf[k] == old(sgBuf[k])
  {
    for i := 0 to |sgl|
      invariant forall j | 0 <= j < i :: UserElement(sgBuf[..], j, sgl[j])
      invariant forall k | 4 * i <= k < sgBuf.Length :: sgBuf[k] == old(sgBuf[k])
    {
      sgBuf[i * 4] := sgl[i].addr % 0x1_0000_0000;
      sgBuf[i * 4 + 1] := sgl[i].addr / 0x1_0000_0000;
      sgBuf[i * 4 + 2] := sgl[i].len / 4;
    }
  }

  /** The spill loop: elements from index `first` on, until the 64-bit remainder is zero or numSg are in use. */
  method WriteSpillElements(numSg: nat, sgBuf: array<nat>, spillAddr: nat, first: nat, overflow: nat)
    returns (used: nat, left: nat)
    requires first <= numSg && 4 * numSg <= sgBuf.Length && overflow < 0x1_0000_0000_0000_0000
    modifies sgBuf
    ensures (used, left) == SpillRun(overflow, overflow, numSg - first)
    ensures forall j | first <= j < first + used :: SpillElement(sgBuf[..], j, spillAddr)
    ensures forall k | 0 <= k < sgBuf.Length && !(4 * first <= k < 4 * (first + used)) :: sgBuf[k] == old(sgBuf[k])
  {
    hide SpillRun, SpillElement;
    used, left := 0, overflow;
    while left > 0 && first + used < numSg
      invariant first + used <= numSg && left < 0x1_0000_0000_0000_0000
      invariant SpillRun(overflow, overflow, numSg - first).0 == used + SpillRun(overflow, left, numSg - first - used).0
      invariant SpillRun(overflow, overflow, numSg - first).1 == SpillRun(overflow, left, numSg - first - used).1
      invariant forall j | first <= j < first + used :: SpillElement(sgBuf[..], j, spillAddr)
      invariant forall k | 0 <= k < sgBuf.Length && !(4 * first <= k < 4 * (first + used)) :: sgBuf[k] == old(sgBuf[k])
      decreases numSg - first - used
    {
      SpillRunStep(overflow, left, numSg - first - used);
      WriteSpillElement(sgBuf, spillAddr, first + used);
      used := used + 1;
      left := (left - (if 4096 > overflow then overflow else 4096)) % 0x1_0000_0000_0000_0000;
    }
    SpillRunEnds(overflow, left, numSg - first - used);
  }

  lemma SpillRunStep(overflow: nat, rem: nat, free: nat)
    requires rem > 0 && free > 0
    ensures var next := SpillRun(overflow,
        (rem - if 4096 > overflow then overflow else 4096) % 0x1_0000_0000_0000_0000, free - 1);
            SpillRun(overflow, rem, free) == (next.0 + 1, next.1)
  {}

  lemma SpillRunEnds(overflow: nat, rem: nat, free: nat)
    requires rem == 0 || free == 0
    ensures SpillRun(overflow, rem, free) == (0, rem)
  {}

  /** The three words of element i; all other elements keep theirs. */
  method WriteSpillElement(sgBuf: array<nat>, spillAddr: nat, i: nat)
    requires 4 * i + 3 < sgBuf.Length
    modifies sgBuf
    ensures SpillElement(sgBuf[..], i, spillAddr)
    ensures forall j | j != i && SpillElement(old(sgBuf[..]), j, spillAddr) :: SpillElement(sgBuf[..], j, spillAddr)
    ensures forall k | 0 <= k < sgBuf.Length && !(4 * i <= k < 4 * (i + 1)) :: sgBuf[k] == old(sgBuf[k])
  {
    sgBuf[i * 4] := spillAddr % 0x1_0000_0000;
    sgBuf[i * 4 + 1] := spillAddr / 0x1_0000_0000;
    sgBuf[i * 4 + 2] := 4096 / 4;
  }

  /** Page in the user buffer, build the scatterlist and write its elements; false when nothing could be mapped. */
  method MapUserPages(numSg: nat, sgBuf: array<nat>, udata: nat, length: nat, grant: int)
    returns (ok: bool, sgl: seq<Segment>, lenRem: nat)
    requires 4 * numSg <= sgBuf.Length && numSg > 0 && length > 0
    modifies sgBuf
    ensures ok <==> grant > 0
    ensures ok ==> sgl == Segments(udata, length, PagesMapped(numSg, udata, length, grant))
    ensures ok ==> lenRem == length - Bytes(sgl) && |sgl| <= numSg
    ensures ok ==> forall j | 0 <= j < |sgl| :: UserElement(sgBuf[..], j, sgl[j])
    ensures forall k | (if ok then 4 * |sgl| else 0) <= k < sgBuf.Length :: sgBuf[k] == old(sgBuf[k])
  {
    var reqd := (udata + length - 1) / 4096 - udata / 4096 + 1;
    assert reqd == PagesSpanned(udata, length);
    reqd := if reqd > numSg then numSg else reqd;
    var numPages := if grant < reqd then grant else reqd;
    if numPages <= 0 { return false, [], length; }
    sgl, lenRem := BuildScatterlist(udata, length, numPages);
    SegmentsTile(udata, length, numPages);
    WriteUserElements(sgBuf, sgl);
    ok := true;
  }

  lemma BufferHoldsElements(numSg: nat, words: nat)
    requires DeviceWidth(numSg) && words * 4 == 4096 * (numSg / 200)
    ensures 0 < numSg && 4 * numSg <= words
  {}

  method FillSgBuf(numSg: nat, sgBuf: array<nat>, spillAddr: nat, udata: nat, length: nat, overflow: nat, grant: int)
    returns (m: Option<Mapping>)
    requires DeviceWidth(numSg) && sgBuf.Length * 4 == 4096 * (numSg / 200)
    requires udata + length <= 0x1_0000_0000_0000_0000 && overflow < 0x1_0000_0000_0000_0000
    modifies sgBuf
    ensures m == Fill(numSg, udata, length, overflow, grant)
    ensures m.Some? ==> Programmed(sgBuf[..], m.value, spillAddr)
    ensures forall k | (if m.Some? then 4 * m.value.NumSg() else 0) <= k < sgBuf.Length :: sgBuf[k] == old(sgBuf[k])
  {
    BufferHoldsElements(numSg, sgBuf.Length);
    var ok, sgl: seq<Segment>, lenRem := true, [], length;
    if length > 0 {
      ok, sgl, lenRem := MapUserPages(numSg, sgBuf, udata, length, grant);
      if !ok { return None; }
    }
    var used, left := 0, overflow;
    if lenRem == 0 {
      used, left := WriteSpillElements(numSg, sgBuf, spillAddr, |sgl|, overflow);
      assert forall j | 0 <= j < |sgl| :: UserElement(sgBuf[..], j, sgl[j]);
    }
    m := Some(Mapping(sgl, used, length - lenRem, (overflow - left) % 0x1_0000_0000_0000_0000));
  }
}
