/** ezusb_load_ram of ezusb.c: one pass with the chip's own loader, or two passes with a second-stage loader. */
module RamLoad {
  import opened Wrappers
  import opened HexRecords
  import opened HexText
  import opened Chips
  import opened Loader

  // ---- Memory ----

  function ApplyWrites(mem: Memory, w: seq<(nat, Byte)>): Memory {
    if w == [] then mem
    else ApplyWrites(mem, w[..|w| - 1])[w[|w| - 1].0 := w[|w| - 1].1]
  }

  function ApplyChunks(mem: Memory, chunks: seq<Chunk>): Memory {
    if chunks == [] then mem
    else Store(ApplyChunks(mem, chunks[..|chunks| - 1]), chunks[|chunks| - 1].addr, chunks[|chunks| - 1].data)
  }

  lemma {:induction false} ApplyConcat(mem: Memory, a: seq<(nat, Byte)>, b: seq<(nat, Byte)>)
    ensures ApplyWrites(mem, a + b) == ApplyWrites(ApplyWrites(mem, a), b)
    decreases |b|
  {
    if b == [] {
      assert a + b == a;
    } else {
      assert (a + b)[..|a + b| - 1] == a + b[..|b| - 1];
      ApplyConcat(mem, a, b[..|b| - 1]);
    }
  }

  /** Storing a block is writing its bytes one by one. */
  lemma {:induction false} StoreAppliesWrites(mem: Memory, addr: nat, data: seq<Byte>)
    ensures Store(mem, addr, data) == ApplyWrites(mem, Writes(addr, data))
    decreases |data|
  {
    if data != [] {
      StoreAppliesWrites(mem, addr, data[..|data| - 1]);
      assert Writes(addr, data)[..|data| - 1] == Writes(addr, data[..|data| - 1]);
    }
  }

  lemma {:induction false} ChunksApplyWrites(mem: Memory, chunks: seq<Chunk>)
    ensures ApplyChunks(mem, chunks) == ApplyWrites(mem, ChunkWrites(chunks))
    decreases |chunks|
  {
    if chunks != [] {
      var front, c := chunks[..|chunks| - 1], chunks[|chunks| - 1];
      ChunksApplyWrites(mem, front);
      StoreAppliesWrites(ApplyChunks(mem, front), c.addr, c.data);
      ApplyConcat(mem, ChunkWrites(front), Writes(c.addr, c.data));
    }
  }

  // ---- One pass ----

  predicate IsExternal(chip: Chip, c: Chunk) { External(chip, c.addr, |c.data|) }

  /** The chunks a pass does not skip. */
  function Kept(mode: Mode, chip: Chip, chunks: seq<Chunk>): seq<Chunk> {
    if chunks == [] then []
    else
      var c := chunks[|chunks| - 1];
      var skip := (mode == SkipInternal && !IsExternal(chip, c)) || (mode == SkipExternal && IsExternal(chip, c));
      Kept(mode, chip, chunks[..|chunks| - 1]) + if skip then [] else [c]
  }

  lemma StoreTwice(mem: Memory, addr: nat, data: seq<Byte>, n: nat)
    requires n <= |data|
    ensures Store(Store(mem, addr, data[..n]), addr, data) == Store(mem, addr, data)
  {}

  /** A write that is reported as successful has stored the whole block, however often it was retried. */
  lemma {:induction false} RetryStores(io: nat -> Io, r: Ram, c: Chunk, retry: nat)
    requires retry <= RETRY_LIMIT && NoShort(io) && RamRetry(io, r, c, retry).1 >= 0
    ensures var n := RamRetry(io, r, c, retry).0;
            && n.mem == Store(r.mem, c.addr, c.data) && n.mode == r.mode && n.running == r.running
            && n.done == r.done + [c] && n.whileRunning == r.whileRunning + [r.running]
    decreases RETRY_LIMIT - retry
  {
    assert Honest(io, r.requests);
    assert c.data[..|c.data|] == c.data;
    if io(r.requests).Failed? {
      StoreTwice(r.mem, c.addr, c.data, io(r.requests).Stored(|c.data|));
      RetryStores(io, RamRequest(io, r, c), c, retry + 1);
    }
  }

  /** At most six requests per block, whatever happens. */
  lemma {:induction false} RetryIsBounded(io: nat -> Io, r: Ram, c: Chunk, retry: nat)
    requires retry <= RETRY_LIMIT
    ensures r.requests < RamRetry(io, r, c, retry).0.requests <= r.requests + RETRY_LIMIT + 1 - retry
    decreases RETRY_LIMIT - retry
  {
    if io(r.requests).Failed? && io(r.requests).timedOut && retry < RETRY_LIMIT {
      RetryIsBounded(io, RamRequest(io, r, c), c, retry + 1);
    }
  }

  predicate TimesOut(io: nat -> Io, k: nat) { io(k).Failed? && io(k).timedOut }

  /** The k-th request from `from` on is the first that does not time out, and it is good. */
  ghost predicate GoodAfter(io: nat -> Io, from: nat, k: nat) {
    !io(from + k).Failed? && forall j: nat | from <= j < from + k :: TimesOut(io, j)
  }

  /** The requests for one block: up to RETRY_LIMIT time-outs and then a good one are a success, and nothing else is. */
  lemma {:induction false} RetrySucceedsIff(io: nat -> Io, r: Ram, c: Chunk, retry: nat)
    requires retry <= 5
    ensures var (n, rc) := RamRetry(io, r, c, retry);
            && (rc == 0 <==> exists k: nat :: k <= 5 - retry && GoodAfter(io, r.requests, k))
            && (forall k: nat | k <= 5 - retry && GoodAfter(io, r.requests, k) :: n.requests == r.requests + k + 1)
            && (rc == 0 || rc == -5)
    decreases 5 - retry
  {
    var next := RamRequest(io, r, c);
    if !io(r.requests).Failed? {
      assert GoodAfter(io, r.requests, 0);
      assert forall k: nat | k > 0 :: GoodAfter(io, r.requests, k) ==> TimesOut(io, r.requests);
    } else if io(r.requests).timedOut && retry < 5 {
      RetrySucceedsIff(io, next, c, retry + 1);
      forall k: nat ensures GoodAfter(io, r.requests, k) <==> k > 0 && GoodAfter(io, next.requests, k - 1) {
        GoodAfterOne(io, r.requests, k);
      }
      if k: nat :| k <= 4 - retry && GoodAfter(io, next.requests, k) { assert GoodAfter(io, r.requests, k + 1); }
    } else {
      forall k: nat | k <= 5 - retry ensures !GoodAfter(io, r.requests, k) {
        assert k > 0 && GoodAfter(io, r.requests, k) ==> TimesOut(io, r.requests);
      }
    }
  }

  /**
   * A block is refused with -EINVAL exactly if it is external and only the chip's own loader is at hand; the pass that
   * leaves it to the other one makes no request for it and reports 0; and otherwise the requests decide.
   */
  lemma PokeByMode(io: nat -> Io, r: Ram, external: bool, c: Chunk)
    ensures var (n, rc) := RamPoke(io, r, external, c);
            && (rc == -22 <==> r.mode.InternalOnly? && external)
            && (n == r <==> n.requests == r.requests)
            && (n == r <==> if external then !r.mode.SkipInternal? else r.mode.SkipInternal?)
            && (n == r && rc != -22 ==> rc == 0)
            && (n != r ==> (n, rc) == RamRetry(io, r, c, 0))
  {
    RetryIsBounded(io, r, c, 0);
    RetrySucceedsIff(io, r, c, 0);
  }

  lemma GoodAfterOne(io: nat -> Io, from: nat, k: nat)
    requires TimesOut(io, from)
    ensures GoodAfter(io, from, k) <==> k > 0 && GoodAfter(io, from + 1, k - 1)
  {}

  /** What a completed pass has done: exactly the kept chunks, in order, each whole. */
  ghost predicate PassDone(chip: Chip, r: Ram, n: Ram, chunks: seq<Chunk>) {
    var kept := Kept(r.mode, chip, chunks);
    && n.mode == r.mode && n.running == r.running
    && n.mem == ApplyChunks(r.mem, kept)
    && n.done == r.done + kept
    && n.whileRunning == r.whileRunning + seq(|kept|, _ => r.running)
    && (r.mode == InternalOnly ==> forall c | c in chunks :: !IsExternal(chip, c))
  }

  lemma {:induction false} DeliverPass(io: nat -> Io, chip: Chip, r: Ram, chunks: seq<Chunk>)
    requires NoShort(io) && Deliver(io, chip, ToRam(r), chunks).1
    ensures Deliver(io, chip, ToRam(r), chunks).0.ToRam?
    ensures PassDone(chip, r, Deliver(io, chip, ToRam(r), chunks).0.ram, chunks)
    decreases |chunks|
  {
    if chunks == [] {
      assert r.done + [] == r.done && r.whileRunning + [] == r.whileRunning;
    } else {
      var front, c := chunks[..|chunks| - 1], chunks[|chunks| - 1];
      assert front + [c] == chunks;
      DeliverConcat(io, chip, ToRam(r), front, [c]);
      DeliverPass(io, chip, r, front);
      var m := Deliver(io, chip, ToRam(r), front).0.ram;
      DeliverOne(io, chip, m, c);
      PassExtends(chip, r, m, Deliver(io, chip, ToRam(m), [c]).0.ram, front, c);
    }
  }

  lemma KeptOne(mode: Mode, chip: Chip, c: Chunk)
    ensures Kept(mode, chip, [c]) ==
      if (mode == SkipInternal && !IsExternal(chip, c))
        || (mode == SkipExternal && IsExternal(chip, c))
      then [] else [c]
  {
    assert [c][..0] == [];
    assert Kept(mode, chip, []) == [];
  }

  lemma KeptSnoc(mode: Mode, chip: Chip, front: seq<Chunk>, c: Chunk)
    ensures Kept(mode, chip, front + [c]) == Kept(mode, chip, front) + Kept(mode, chip, [c])
  {
    assert (front + [c])[..|front + [c]| - 1] == front;
    KeptOne(mode, chip, c);
  }

  lemma ChunksSnoc(mem: Memory, front: seq<Chunk>, c: Chunk)
    ensures ApplyChunks(mem, front + [c]) == Store(ApplyChunks(mem, front), c.addr, c.data)
  {
    assert (front + [c])[..|front + [c]| - 1] == front;
  }

  lemma DeliverOnePoke(io: nat -> Io, chip: Chip, r: Ram, c: Chunk)
    ensures var (n, rc) := RamPoke(io, r, IsExternal(chip, c), c);
            Deliver(io, chip, ToRam(r), [c]) == (ToRam(n), rc >= 0)
  {
    assert [c][1..] == [];
    var (n, rc) := RamPoke(io, r, IsExternal(chip, c), c);
    assert Poke(io, ToRam(r), External(chip, c.addr, |c.data|), c) == (ToRam(n), rc);
    assert Deliver(io, chip, ToRam(n), []) == (ToRam(n), true);
  }

  lemma DeliverOne(io: nat -> Io, chip: Chip, r: Ram, c: Chunk)
    requires NoShort(io) && Deliver(io, chip, ToRam(r), [c]).1
    ensures Deliver(io, chip, ToRam(r), [c]).0.ToRam?
    ensures PassDone(chip, r, Deliver(io, chip, ToRam(r), [c]).0.ram, [c])
  {
    hide Deliver, Kept, External, ApplyChunks;
    DeliverOnePoke(io, chip, r, c);
    KeptOne(r.mode, chip, c);
    ApplyNone(r.mem);
    assert r.done + [] == r.done && r.whileRunning + seq(0, _ => r.running) == r.whileRunning;
    if Kept(r.mode, chip, [c]) == [c] {
      RetryStores(io, r, c, 0);
      ChunksSnoc(r.mem, [], c);
      assert [] + [c] == [c];
      assert seq(1, _ => r.running) == [r.running];
    }
  }

  lemma ApplyNone(mem: Memory)
    ensures ApplyChunks(mem, []) == mem
  {}

  lemma PassExtends(chip: Chip, r: Ram, m: Ram, n: Ram, front: seq<Chunk>, c: Chunk)
    requires PassDone(chip, r, m, front) && PassDone(chip, m, n, [c])
    ensures PassDone(chip, r, n, front + [c])
  {
    hide Kept, External, ApplyChunks;
    KeptSnoc(r.mode, chip, front, c);
    KeptOne(r.mode, chip, c);
    ApplyNone(m.mem);
    var k, l := Kept(r.mode, chip, front), Kept(r.mode, chip, [c]);
    assert (r.done + k) + l == r.done + (k + l);
    assert r.whileRunning + seq(|k|, _ => r.running) + seq(|l|, _ => r.running) ==
        r.whileRunning + seq(|k + l|, _ => r.running);
    if l == [] {
      assert k + l == k;
    } else {
      ChunksSnoc(m.mem, [], c);
      assert [] + [c] == [c];
      ChunksSnoc(r.mem, k, c);
    }
    forall x | x in front + [c] && r.mode == InternalOnly ensures !IsExternal(chip, x) {
      if x !in front { assert x == c && x in [c]; }
    }
  }

  // ---- Two passes ----

  predicate Disjoint(a: Chunk, b: Chunk) {
    a.addr + |a.data| <= b.addr || b.addr + |b.data| <= a.addr
  }

  predicate Covers(c: Chunk, x: nat) { c.addr <= x < c.addr + |c.data| }

  /** The byte the last chunk that covers x has for it. */
  function ByteAt(chunks: seq<Chunk>, x: nat): Option<Byte> {
    if chunks == [] then None
    else
      var c := chunks[|chunks| - 1];
      if Covers(c, x) then Some(c.data[x - c.addr]) else ByteAt(chunks[..|chunks| - 1], x)
  }

  lemma {:induction false} AppliedAt(mem: Memory, chunks: seq<Chunk>, x: nat)
    ensures var r := ApplyChunks(mem, chunks);
            match ByteAt(chunks, x)
            case Some(b) => x in r && r[x] == b
            case None => (x in r <==> x in mem) && (x in r ==> r[x] == mem[x])
    decreases |chunks|
  {
    if chunks != [] { AppliedAt(mem, chunks[..|chunks| - 1], x); }
  }

  /** Some on-chip chunk covers x. */
  predicate OnChipCover(chip: Chip, chunks: seq<Chunk>, x: nat) {
    chunks != [] &&
      ((Covers(chunks[|chunks| - 1], x) && !IsExternal(chip, chunks[|chunks| - 1]))
        || OnChipCover(chip, chunks[..|chunks| - 1], x))
  }

  /** The last chunk that covers x is on-chip. */
  predicate LastOnChip(chip: Chip, chunks: seq<Chunk>, x: nat) {
    chunks != [] &&
      if Covers(chunks[|chunks| - 1], x) then !IsExternal(chip, chunks[|chunks| - 1])
      else LastOnChip(chip, chunks[..|chunks| - 1], x)
  }

  /** Wherever an on-chip chunk lies, an on-chip chunk has the last word. */
  ghost predicate OnChipLast(chip: Chip, chunks: seq<Chunk>) {
    forall x: nat | OnChipCover(chip, chunks, x) :: LastOnChip(chip, chunks, x)
  }

  function TwoPasses(chip: Chip, mem: Memory, chunks: seq<Chunk>): Memory {
    ApplyChunks(ApplyChunks(mem, Kept(SkipInternal, chip, chunks)), Kept(SkipExternal, chip, chunks))
  }

  lemma ByteSnoc(front: seq<Chunk>, c: Chunk, x: nat)
    ensures ByteAt(front + [c], x) == if Covers(c, x) then Some(c.data[x - c.addr]) else ByteAt(front, x)
  {
    assert (front + [c])[..|front + [c]| - 1] == front;
  }

  /** What the two passes leave at x, against what one pass leaves there. */
  lemma {:induction false} ByteKept(chip: Chip, chunks: seq<Chunk>, x: nat)
    ensures var i, e := ByteAt(Kept(SkipExternal, chip, chunks), x), ByteAt(Kept(SkipInternal, chip, chunks), x);
            && (i.Some? <==> OnChipCover(chip, chunks, x))
            && (LastOnChip(chip, chunks, x) ==> OnChipCover(chip, chunks, x) && i == ByteAt(chunks, x))
            && (!LastOnChip(chip, chunks, x) ==> e == ByteAt(chunks, x))
    decreases |chunks|
  {
    if chunks == [] {
      KeptNone(SkipExternal, chip);
      KeptNone(SkipInternal, chip);
    } else {
      hide Kept, External, IsExternal, Covers;
      var front, c := chunks[..|chunks| - 1], chunks[|chunks| - 1];
      assert chunks == front + [c];
      ByteKept(chip, front, x);
      KeptByteSnoc(chip, front, c, x);
      ByteSnoc(front, c, x);
      hide ByteAt, OnChipCover, LastOnChip;
    }
  }

  /** A chunk adds its byte to the pass that keeps it. */
  lemma KeptByteSnoc(chip: Chip, front: seq<Chunk>, c: Chunk, x: nat)
    ensures ByteAt(Kept(SkipExternal, chip, front + [c]), x) ==
      if Covers(c, x) && !IsExternal(chip, c) then Some(c.data[x - c.addr])
        else ByteAt(Kept(SkipExternal, chip, front), x)
    ensures ByteAt(Kept(SkipInternal, chip, front + [c]), x) ==
      if Covers(c, x) && IsExternal(chip, c) then Some(c.data[x - c.addr])
        else ByteAt(Kept(SkipInternal, chip, front), x)
  {
    hide Kept, IsExternal, ByteAt;
    KeptSnoc(SkipExternal, chip, front, c);
    KeptSnoc(SkipInternal, chip, front, c);
    KeptOne(SkipExternal, chip, c);
    KeptOne(SkipInternal, chip, c);
    ByteSnoc(Kept(SkipExternal, chip, front), c, x);
    ByteSnoc(Kept(SkipInternal, chip, front), c, x);
    assert Kept(SkipExternal, chip, front) + [] == Kept(SkipExternal, chip, front);
    assert Kept(SkipInternal, chip, front) + [] == Kept(SkipInternal, chip, front);
  }

  /** The byte two passes leave: that of the last on-chip chunk if there is one, else that of the last external one. */
  lemma TwoPassesAt(chip: Chip, mem: Memory, chunks: seq<Chunk>, x: nat)
    ensures var r := TwoPasses(chip, mem, chunks);
            var b := ByteAt(if OnChipCover(chip, chunks, x) then Kept(SkipExternal, chip, chunks) else chunks, x);
            match b
            case Some(v) => x in r && r[x] == v
            case None => (x in r <==> x in mem) && (x in r ==> r[x] == mem[x])
  {
    hide ApplyChunks, Kept, ByteAt, OnChipCover, LastOnChip;
    ByteKept(chip, chunks, x);
    AppliedAt(mem, Kept(SkipInternal, chip, chunks), x);
    AppliedAt(ApplyChunks(mem, Kept(SkipInternal, chip, chunks)), Kept(SkipExternal, chip, chunks), x);
  }

  /**
   * External chunks first, on-chip chunks second: the same memory as one pass, if on-chip chunks have the last word.
   */
  lemma TwoPassesEqualOne(chip: Chip, mem: Memory, chunks: seq<Chunk>)
    requires OnChipLast(chip, chunks)
    ensures TwoPasses(chip, mem, chunks) == ApplyChunks(mem, chunks)
  {
    hide TwoPasses, ApplyChunks, Kept, ByteAt, OnChipCover, LastOnChip;
    var two, one := TwoPasses(chip, mem, chunks), ApplyChunks(mem, chunks);
    forall x: nat ensures (x in two <==> x in one) && (x in two ==> two[x] == one[x]) {
      TwoPassesAt(chip, mem, chunks, x);
      AppliedAt(mem, chunks, x);
      ByteKept(chip, chunks, x);
    }
    assert two.Keys == one.Keys;
  }

  /** The same addresses and lengths, whatever the bytes. */
  ghost predicate SameShape(a: seq<Chunk>, b: seq<Chunk>) {
    |a| == |b| && forall i | 0 <= i < |a| :: a[i].addr == b[i].addr && |a[i].data| == |b[i].data|
  }

  lemma {:induction false} ShapeDecides(chip: Chip, a: seq<Chunk>, b: seq<Chunk>, x: nat)
    requires SameShape(a, b)
    ensures OnChipCover(chip, a, x) == OnChipCover(chip, b, x) && LastOnChip(chip, a, x) == LastOnChip(chip, b, x)
    ensures ByteAt(a, x).Some? == ByteAt(b, x).Some?
    decreases |a|
  {
    hide External;
    if a != [] { ShapeDecides(chip, a[..|a| - 1], b[..|b| - 1], x); }
  }

  /** 0 in on-chip chunks, 1 in external ones. */
  function Paint(chip: Chip, c: Chunk): (p: Chunk)
    ensures p.addr == c.addr && |p.data| == |c.data|
  {
    Chunk(c.addr, seq(|c.data|, _ => if IsExternal(chip, c) then 1 else 0))
  }

  function Painted(chip: Chip, chunks: seq<Chunk>): (r: seq<Chunk>)
    ensures |r| == |chunks| && forall i | 0 <= i < |r| :: r[i] == Paint(chip, chunks[i])
  {
    seq(|chunks|, i requires 0 <= i < |chunks| => Paint(chip, chunks[i]))
  }

  /** Painted bytes tell which pass wrote them. */
  lemma {:induction false} PaintedAt(chip: Chip, chunks: seq<Chunk>, x: nat)
    ensures var p := Painted(chip, chunks);
            && (LastOnChip(chip, chunks, x) ==> ByteAt(p, x) == Some(0))
            && (OnChipCover(chip, chunks, x) && !LastOnChip(chip, chunks, x) ==> ByteAt(p, x) == Some(1))
    decreases |chunks|
  {
    if chunks != [] {
      var front, c := chunks[..|chunks| - 1], chunks[|chunks| - 1];
      hide External, Kept;
      PaintedAt(chip, front, x);
      assert Painted(chip, chunks) == Painted(chip, front) + [Paint(chip, c)];
      ByteSnoc(Painted(chip, front), Paint(chip, c), x);
    }
  }

  lemma {:induction false} PaintedKept(chip: Chip, chunks: seq<Chunk>, x: nat)
    requires OnChipCover(chip, chunks, x)
    ensures ByteAt(Kept(SkipExternal, chip, Painted(chip, chunks)), x) == Some(0)
    decreases |chunks|
  {
    hide Kept, External;
    var front, c := chunks[..|chunks| - 1], chunks[|chunks| - 1];
    var p := Paint(chip, c);
    assert Painted(chip, chunks) == Painted(chip, front) + [p];
    KeptSnoc(SkipExternal, chip, Painted(chip, front), p);
    KeptOne(SkipExternal, chip, p);
    ByteSnoc(Kept(SkipExternal, chip, Painted(chip, front)), p, x);
    assert Kept(SkipExternal, chip, Painted(chip, front)) + [] == Kept(SkipExternal, chip, Painted(chip, front));
    if !(Covers(c, x) && !IsExternal(chip, c)) { PaintedKept(chip, front, x); }
  }

  /**
   * Main theorem: for given addresses and lengths, two passes leave the memory of one pass for all contents exactly
   * when every address that some on-chip chunk covers has an on-chip chunk as its last cover.
   */
  lemma TwoPassesAgreeIff(chip: Chip, chunks: seq<Chunk>)
    ensures OnChipLast(chip, chunks) <==>
            forall mem: Memory, other: seq<Chunk> | SameShape(other, chunks) ::
              TwoPasses(chip, mem, other) == ApplyChunks(mem, other)
  {
    hide TwoPasses, ApplyChunks, Kept, ByteAt, OnChipCover, LastOnChip;
    if OnChipLast(chip, chunks) {
      forall mem: Memory, other: seq<Chunk> | SameShape(other, chunks)
        ensures TwoPasses(chip, mem, other) == ApplyChunks(mem, other)
      {
        forall x: nat | OnChipCover(chip, other, x)
          ensures LastOnChip(chip, other, x)
        {
          ShapeDecides(chip, other, chunks, x);
        }
        TwoPassesEqualOne(chip, mem, other);
      }
    } else {
      var x: nat :| OnChipCover(chip, chunks, x) && !LastOnChip(chip, chunks, x);
      var p := Painted(chip, chunks);
      assert SameShape(p, chunks);
      ShapeDecides(chip, p, chunks, x);
      PaintedAt(chip, chunks, x);
      PaintedKept(chip, chunks, x);
      TwoPassesAt(chip, map[], p, x);
      AppliedAt(map[], p, x);
      assert TwoPasses(chip, map[], p) != ApplyChunks(map[], p);
    }
  }

  lemma {:induction false} KeptFromChunks(mode: Mode, chip: Chip, chunks: seq<Chunk>)
    ensures forall c | c in Kept(mode, chip, chunks) ::
      c in chunks && (mode == SkipInternal ==> IsExternal(chip, c)) && (mode == SkipExternal ==> !IsExternal(chip, c))
    decreases |chunks|
  {
    if chunks != [] { KeptFromChunks(mode, chip, chunks[..|chunks| - 1]); }
  }

  /** The two passes share the chunks out between them: each is kept by exactly one. */
  lemma {:induction false} PassesPartition(chip: Chip, chunks: seq<Chunk>)
    ensures multiset(Kept(SkipInternal, chip, chunks)) + multiset(Kept(SkipExternal, chip, chunks)) == multiset(chunks)
    ensures forall c | c in Kept(SkipInternal, chip, chunks) :: c !in Kept(SkipExternal, chip, chunks)
    decreases |chunks|
  {
    hide Kept, External;
    KeptFromChunks(SkipInternal, chip, chunks);
    KeptFromChunks(SkipExternal, chip, chunks);
    if chunks != [] {
      var front, c := chunks[..|chunks| - 1], chunks[|chunks| - 1];
      assert chunks == front + [c];
      PassesPartition(chip, front);
      KeptSnoc(SkipInternal, chip, front, c);
      KeptSnoc(SkipExternal, chip, front, c);
      KeptOne(SkipInternal, chip, c);
      KeptOne(SkipExternal, chip, c);
    } else {
      KeptNone(SkipInternal, chip);
      KeptNone(SkipExternal, chip);
    }
  }

  lemma KeptNone(mode: Mode, chip: Chip)
    ensures Kept(mode, chip, []) == []
  {}

  /** No address is written twice. */
  ghost predicate WritesOnce(w: seq<(nat, Byte)>) {
    forall i, j | 0 <= i < j < |w| :: w[i].0 != w[j].0
  }

  lemma {:induction false} ChunkInWrites(chunks: seq<Chunk>, k: nat, a: nat) returns (p: nat)
    requires k < |chunks| && chunks[k].addr <= a < chunks[k].addr + |chunks[k].data|
    ensures p < |ChunkWrites(chunks)| && ChunkWrites(chunks)[p].0 == a
    ensures k < |chunks| - 1 ==> p < |ChunkWrites(chunks[..|chunks| - 1])|
    decreases |chunks|
  {
    var front := chunks[..|chunks| - 1];
    if k < |front| {
      p := ChunkInWrites(front, k, a);
    } else {
      p := |ChunkWrites(front)| + a - chunks[k].addr;
    }
  }

  lemma LastChunkInWrites(chunks: seq<Chunk>, a: nat)
    requires chunks != [] && chunks[|chunks| - 1].addr <= a < chunks[|chunks| - 1].addr + |chunks[|chunks| - 1].data|
    ensures exists q ::
        |ChunkWrites(chunks[..|chunks| - 1])| <= q < |ChunkWrites(chunks)| && ChunkWrites(chunks)[q].0 == a
  {
    var q := |ChunkWrites(chunks[..|chunks| - 1])| + a - chunks[|chunks| - 1].addr;
    assert ChunkWrites(chunks)[q].0 == a;
  }

  lemma {:induction false} WrittenOnceDisjoint(chunks: seq<Chunk>, i: nat, j: nat)
    requires WritesOnce(ChunkWrites(chunks)) && i < j < |chunks|
    requires forall c | c in chunks :: c.data != []
    ensures Disjoint(chunks[i], chunks[j])
    decreases |chunks|
  {
    var front := chunks[..|chunks| - 1];
    assert ChunkWrites(front) == ChunkWrites(chunks)[..|ChunkWrites(front)|];
    if j < |front| {
      assert forall c | c in front :: c in chunks;
      WrittenOnceDisjoint(front, i, j);
    } else if !Disjoint(chunks[i], chunks[j]) {
      assert chunks[i] in chunks && chunks[j] in chunks;
      var a := if chunks[i].addr > chunks[j].addr then chunks[i].addr else chunks[j].addr;
      var p := ChunkInWrites(chunks, i, a);
      LastChunkInWrites(chunks, a);
    }
  }

  // ---- The whole load ----

  /** ezusb_cpucs: one byte to the CPU control register; only a full write counts as success. */
  function Cpucs(io: nat -> Io, r: Ram, run: bool): (Ram, bool) {
    var all := io(r.requests).Stored(1) == 1;
    (r.(requests := r.requests + 1, running := if all then run else r.running), all && !io(r.requests).Failed?)
  }

  /** One request, which says that it succeeded only if the CPU is now as asked; the CPU obeys a byte that arrives. */
  lemma CpucsObeys(io: nat -> Io, r: Ram, run: bool)
    ensures var (n, ok) := Cpucs(io, r, run);
            && n.requests == r.requests + 1 && n.mem == r.mem && n.done == r.done && n.sent == r.sent
            && (ok ==> n.running == run && io(r.requests).Stored(1) > 0)
            && (io(r.requests).Full? ==> ok)
            && (io(r.requests).Failed? || io(r.requests).Stored(1) == 0 ==> !ok)
            && (n.running == if io(r.requests).Stored(1) > 0 then run else r.running)
  {}

  /** Lines 718-771. */
  function LoadRam(io: nat -> Io, chip: Chip, stage: bool, lines: seq<Line>, r: Ram): (Ram, Status) {
    var (r0, stopped) := if stage then (r, true) else Cpucs(io, r, false);
    if !stopped then (r0, Code(-1))
    else
      var (s1, st1) := ParseInto(io, chip, ToRam(r0.(mode := if stage then SkipInternal else InternalOnly)), lines);
      if !s1.ToRam? || st1.Open? || st1.rc < 0 then (if s1.ToRam? then s1.ram else r0, st1)
      else if !stage then Finish(io, s1.ram)
      else
        var (r2, stopped2) := Cpucs(io, s1.ram, false);
        if !stopped2 then (r2, Code(-1))
        else
          var (s3, st3) := ParseInto(io, chip, ToRam(r2.(mode := SkipExternal)), lines);
          if !s3.ToRam? || st3.Open? || st3.rc < 0 then (if s3.ToRam? then s3.ram else r2, st3)
          else Finish(io, s3.ram)
  }

  /** Let the CPU run what has been loaded. */
  function Finish(io: nat -> Io, r: Ram): (Ram, Status) {
    var (n, ok) := Cpucs(io, r, true);
    (n, if ok then Code(0) else Code(-1))
  }

  lemma ParsePass(io: nat -> Io, chip: Chip, r: Ram, lines: seq<Line>)
    requires NoShort(io) && ParseInto(io, chip, ToRam(r), lines).1 == Code(0)
    ensures ParseInto(io, chip, ToRam(r), lines).0.ToRam?
    ensures PassDone(chip, r, ParseInto(io, chip, ToRam(r), lines).0.ram, Parse(lines).out)
    ensures Parse(lines).status == Code(0)
  {
    DeliverPass(io, chip, r, Parse(lines).out);
  }

  lemma {:induction false} KeepAll(chip: Chip, chunks: seq<Chunk>)
    ensures Kept(InternalOnly, chip, chunks) == chunks
    decreases |chunks|
  {
    if chunks != [] { KeepAll(chip, chunks[..|chunks| - 1]); }
  }

  /**
   * Main theorem for a first-stage load that returns 0: memory holds the image, every byte of it lies in on-chip
   * memory, everything was written while the CPU was stopped, and the CPU runs afterwards.
   */
  lemma FirstStageLoad(io: nat -> Io, chip: Chip, lines: seq<Line>, r: Ram)
    requires NoShort(io) && WellSized(lines) && Anchored(lines, true, 0, true)
    requires LoadRam(io, chip, false, lines, r).1 == Code(0)
    ensures var n := LoadRam(io, chip, false, lines, r).0;
            && n.mem == ApplyWrites(r.mem, RecordWrites(lines))
            && (forall c, a | c in Parse(lines).out && c.addr <= a < c.addr + |c.data| :: OnChip(chip, a))
            && n.whileRunning == r.whileRunning + seq(|Parse(lines).out|, _ => false)
            && n.running
  {
    var r0 := Cpucs(io, r, false).0.(mode := InternalOnly);
    assert Honest(io, r.requests);
    var st1 := ParseInto(io, chip, ToRam(r0), lines).1;
    ReturnCodes(lines);
    assert st1 == Code(0);
    ParsePass(io, chip, r0, lines);
    MergingPreservesMeaning(lines);
    var out := Parse(lines).out;
    KeepAll(chip, out);
    ChunksApplyWrites(r.mem, out);
    forall c, a | c in out && c.addr <= a < c.addr + |c.data| ensures OnChip(chip, a) {
      ExternalIff(chip, c.addr, |c.data|);
      assert !IsExternal(chip, c);
    }
  }

  lemma {:induction false} RetryKeepsCpu(io: nat -> Io, r: Ram, c: Chunk, retry: nat)
    requires retry <= RETRY_LIMIT
    ensures RamRetry(io, r, c, retry).0.running == r.running
    decreases RETRY_LIMIT - retry
  {
    if io(r.requests).Failed? && io(r.requests).timedOut && retry < RETRY_LIMIT {
      RetryKeepsCpu(io, RamRequest(io, r, c), c, retry + 1);
    }
  }

  lemma {:induction false} DeliverKeepsCpu(io: nat -> Io, chip: Chip, r: Ram, chunks: seq<Chunk>)
    ensures var s := Deliver(io, chip, ToRam(r), chunks).0; s.ToRam? && s.ram.running == r.running
    decreases |chunks|
  {
    if chunks != [] {
      RetryKeepsCpu(io, r, chunks[0], 0);
      var external := External(chip, chunks[0].addr, |chunks[0].data|);
      hide External, RamRetry;
      DeliverKeepsCpu(io, chip, RamPoke(io, r, external, chunks[0]).0, chunks[1..]);
    }
  }

  /**
   * A one-stage load that does not return 0 leaves the CPU as it was if it could not be stopped, and else stopped,
   * unless the last request of all let it run and was reported as failed.
   */
  lemma FailedLoadStaysStopped(io: nat -> Io, chip: Chip, lines: seq<Line>, r: Ram)
    requires LoadRam(io, chip, false, lines, r).1 != Code(0)
    ensures var (n, status) := LoadRam(io, chip, false, lines, r);
            && (io(r.requests).Stored(1) == 0 ==>
                  status == Code(-1) && n.requests == r.requests + 1 && n.mem == r.mem && n.running == r.running)
            && (io(r.requests).Full? && n.running ==>
                  status == Code(-1) && n.requests > r.requests + 1 && io(n.requests - 1).Failed?
                  && io(n.requests - 1).Stored(1) > 0)
  {
    CpucsObeys(io, r, false);
    var r0 := Cpucs(io, r, false).0.(mode := InternalOnly);
    DeliverKeepsCpu(io, chip, r0, Parse(lines).out);
    DeliverCounts(io, chip, r0, Parse(lines).out);
    var r1 := ParseInto(io, chip, ToRam(r0), lines).0.ram;
    CpucsObeys(io, r1, true);
    hide Deliver, Parse;
  }

  /** The last request made was reported as failed. */
  ghost predicate EndsFailed(io: nat -> Io, from: nat, r: Ram) {
    r.requests > from && io(r.requests - 1).Failed?
  }

  lemma {:induction false} RetryEndsFailed(io: nat -> Io, r: Ram, c: Chunk, retry: nat)
    requires retry <= RETRY_LIMIT
    ensures var (n, rc) := RamRetry(io, r, c, retry); rc < 0 ==> EndsFailed(io, r.requests, n)
    decreases RETRY_LIMIT - retry
  {
    if io(r.requests).Failed? && io(r.requests).timedOut && retry < RETRY_LIMIT {
      RetryEndsFailed(io, RamRequest(io, r, c), c, retry + 1);
    }
  }

  lemma PokeEndsFailed(io: nat -> Io, r: Ram, external: bool, c: Chunk)
    requires r.mode.InternalOnly? ==> !external
    ensures var (n, rc) := RamPoke(io, r, external, c);
            n.mode == r.mode && n.requests >= r.requests && (rc < 0 ==> EndsFailed(io, r.requests, n))
  {
    RetryEndsFailed(io, r, c, 0);
    RetryIsBounded(io, r, c, 0);
    RetryKeepsMode(io, r, c, 0);
    hide RamRetry;
  }

  lemma {:induction false} DeliverEndsFailed(io: nat -> Io, chip: Chip, r: Ram, chunks: seq<Chunk>)
    requires r.mode.InternalOnly? ==> forall c | c in chunks :: !IsExternal(chip, c)
    ensures var (s, ok) := Deliver(io, chip, ToRam(r), chunks);
            s.ToRam? && s.ram.requests >= r.requests && (!ok ==> EndsFailed(io, r.requests, s.ram))
    decreases |chunks|
  {
    if chunks != [] {
      assert chunks[0] in chunks && forall c | c in chunks[1..] :: c in chunks;
      var external := External(chip, chunks[0].addr, |chunks[0].data|);
      assert external == IsExternal(chip, chunks[0]);
      hide External, IsExternal, RamPoke;
      PokeEndsFailed(io, r, external, chunks[0]);
      DeliverEndsFailed(io, chip, RamPoke(io, r, external, chunks[0]).0, chunks[1..]);
    }
  }

  lemma {:induction false} RetryKeepsMode(io: nat -> Io, r: Ram, c: Chunk, retry: nat)
    requires retry <= RETRY_LIMIT
    ensures RamRetry(io, r, c, retry).0.mode == r.mode
    decreases RETRY_LIMIT - retry
  {
    if io(r.requests).Failed? && io(r.requests).timedOut && retry < RETRY_LIMIT {
      RetryKeepsMode(io, RamRequest(io, r, c), c, retry + 1);
    }
  }

  lemma CpucsEndsFailed(io: nat -> Io, r: Ram, run: bool)
    requires Honest(io, r.requests)
    ensures var (n, ok) := Cpucs(io, r, run);
            n.requests == r.requests + 1 && (!ok ==> EndsFailed(io, r.requests, n))
  {}

  lemma PassEndsFailed(io: nat -> Io, chip: Chip, r: Ram, lines: seq<Line>)
    requires Parse(lines).status == Code(0)
    requires r.mode.InternalOnly? ==> forall c | c in Parse(lines).out :: !IsExternal(chip, c)
    ensures var (s, status) := ParseInto(io, chip, ToRam(r), lines);
            && s.ToRam? && s.ram.requests >= r.requests
            && (status == Code(0) || (status == Code(-1) && EndsFailed(io, r.requests, s.ram)))
  {
    DeliverEndsFailed(io, chip, r, Parse(lines).out);
  }

  /** Finish, with a request that is reported as failed if it fails. */
  lemma FinishEndsFailed(io: nat -> Io, r: Ram)
    requires Honest(io, r.requests)
    ensures var (n, status) := Finish(io, r);
            status == Code(0) || (status == Code(-1) && EndsFailed(io, r.requests, n))
  {
    CpucsEndsFailed(io, r, true);
    hide Cpucs;
  }

  lemma SecondPassEndsFailed(io: nat -> Io, chip: Chip, lines: seq<Line>, r: Ram)
    requires NoShort(io) && Parse(lines).status == Code(0)
    ensures var (r2, stopped) := Cpucs(io, r, false);
            var (s, status) := ParseInto(io, chip, ToRam(r2.(mode := SkipExternal)), lines);
            && (!stopped ==> EndsFailed(io, r.requests, r2))
            && s.ToRam? && (status == Code(0) || (status == Code(-1) && EndsFailed(io, r.requests, s.ram)))
            && (status == Code(0) ==>
                  var (n, st) := Finish(io, s.ram);
                  st == Code(0) || (st == Code(-1) && EndsFailed(io, r.requests, n)))
  {
    assert Honest(io, r.requests);
    CpucsEndsFailed(io, r, false);
    hide Cpucs, Parse, ParseInto, Finish;
    var r2 := Cpucs(io, r, false).0.(mode := SkipExternal);
    PassEndsFailed(io, chip, r2, lines);
    var s := ParseInto(io, chip, ToRam(r2), lines).0;
    assert Honest(io, s.ram.requests);
    FinishEndsFailed(io, s.ram);
  }

  /**
   * A load of a file that parses, with no external chunk in one stage, ends at the first request that fails for good:
   * if it does not return 0 it returns -1, and the last request it has made is the one that failed.
   */
  lemma FailureEndsLoad(io: nat -> Io, chip: Chip, stage: bool, lines: seq<Line>, r: Ram)
    requires NoShort(io) && Parse(lines).status == Code(0)
    requires !stage ==> forall c | c in Parse(lines).out :: !IsExternal(chip, c)
    ensures var (n, status) := LoadRam(io, chip, stage, lines, r);
            status == Code(0) || (status == Code(-1) && EndsFailed(io, r.requests, n))
  {
    assert Honest(io, r.requests);
    if stage {
      PassEndsFailed(io, chip, r.(mode := SkipInternal), lines);
      hide Cpucs, Parse, ParseInto, Finish;
      SecondPassEndsFailed(io, chip, lines, ParseInto(io, chip, ToRam(r.(mode := SkipInternal)), lines).0.ram);
    } else {
      CpucsEndsFailed(io, r, false);
      hide Cpucs, Parse, ParseInto, Finish;
      var r0 := Cpucs(io, r, false).0.(mode := InternalOnly);
      PassEndsFailed(io, chip, r0, lines);
      var s := ParseInto(io, chip, ToRam(r0), lines).0;
      assert Honest(io, s.ram.requests);
      FinishEndsFailed(io, s.ram);
    }
  }

  lemma {:induction false} DeliverCounts(io: nat -> Io, chip: Chip, r: Ram, chunks: seq<Chunk>)
    ensures var s := Deliver(io, chip, ToRam(r), chunks).0; s.ToRam? && s.ram.requests >= r.requests
    decreases |chunks|
  {
    if chunks != [] {
      RetryIsBounded(io, r, chunks[0], 0);
      var external := External(chip, chunks[0].addr, |chunks[0].data|);
      hide External, RamRetry;
      DeliverCounts(io, chip, RamPoke(io, r, external, chunks[0]).0, chunks[1..]);
    }
  }

  /** The parser returns 0 or a negative code. */
  lemma {:induction false} RunCodes(g: Gather, lines: seq<Line>)
    requires g.status.Open? || g.status.rc <= 0
    ensures Run(g, lines).status.Open? || Run(g, lines).status.rc <= 0
    decreases |lines|
  {
    if lines != [] { RunCodes(Step(g, lines[0]), lines[1..]); }
  }

  lemma ReturnCodes(lines: seq<Line>)
    ensures Parse(lines).status.Open? || Parse(lines).status.rc <= 0
  {
    RunCodes(Start(), lines);
  }

  /**
   * Main theorem for a two-stage load that returns 0: the external chunks were written first, while the CPU was as
   * the caller left it, then the on-chip chunks with the CPU stopped, every chunk exactly once; and memory holds the
   * image whenever on-chip chunks have the last word, which for given addresses and lengths is exactly what it takes
   * (TwoPassesAgreeIff).
   */
  lemma TwoStageLoad(io: nat -> Io, chip: Chip, lines: seq<Line>, r: Ram)
    requires NoShort(io) && WellSized(lines) && Anchored(lines, true, 0, true)
    requires LoadRam(io, chip, true, lines, r).1 == Code(0)
    ensures var n := LoadRam(io, chip, true, lines, r).0; var out := Parse(lines).out;
            var e, i := Kept(SkipInternal, chip, out), Kept(SkipExternal, chip, out);
            && n.done == r.done + e + i
            && n.whileRunning == r.whileRunning + seq(|e|, _ => r.running) + seq(|i|, _ => false)
            && multiset(e) + multiset(i) == multiset(out)
            && n.mem == TwoPasses(chip, r.mem, out)
            && (OnChipLast(chip, out) ==> n.mem == ApplyWrites(r.mem, RecordWrites(lines)))
            && n.running
  {
    var out := Parse(lines).out;
    var r0 := r.(mode := SkipInternal);
    ReturnCodes(lines);
    ParsePass(io, chip, r0, lines);
    var r1 := ParseInto(io, chip, ToRam(r0), lines).0.ram;
    assert Honest(io, r1.requests);
    var r2 := Cpucs(io, r1, false).0.(mode := SkipExternal);
    ParsePass(io, chip, r2, lines);
    PassesPartition(chip, out);
    MergingPreservesMeaning(lines);
    if OnChipLast(chip, out) {
      TwoPassesEqualOne(chip, r.mem, out);
      ChunksApplyWrites(r.mem, out);
    }
  }

  /** Two records at the end of on-chip memory: the second straddles it, so the chunk it makes is external. */
  function StraddlingFile(a: Byte, b: Byte, c: Byte): seq<Line> {
    [Data(0x1fff, [a]), Data(0x1fff, [b, c]), EndOfFile(0)]
  }

  lemma StraddlingParses(a: Byte, b: Byte, c: Byte)
    ensures Parse(StraddlingFile(a, b, c)).out == [Chunk(0x1fff, [a])] + [Chunk(0x1fff, [b, c])]
    ensures WellSized(StraddlingFile(a, b, c)) && Anchored(StraddlingFile(a, b, c), true, 0, true)
    ensures RecordWrites(StraddlingFile(a, b, c)) == [(0x1fff, a), (0x1fff, b), (0x2000, c)]
  {
    var l0, l1, l2 := Data(0x1fff, [a]), Data(0x1fff, [b, c]), EndOfFile(0);
    var lines := [l0, l1, l2];
    assert lines[1..] == [l1, l2] && [l1, l2][1..] == [l2] && [l2][1..] == [];
    var g1 := HexRecords.Step(HexRecords.Start(), l0);
    var g2 := HexRecords.Step(g1, l1);
    var g3 := HexRecords.Step(g2, l2);
    assert g1 == Gather(0x1fff, [a], false, [], Code(0), false) by { assert [] + [a] == [a]; }
    assert g2 == Gather(0x1fff, [b, c], false, [Chunk(0x1fff, [a])], Code(0), false) by {
      assert [] + [Chunk(0x1fff, [a])] == [Chunk(0x1fff, [a])];
    }
    assert HexRecords.Run(g2, [l2]) == HexRecords.Run(g3, []) == g3;
    assert HexRecords.Run(HexRecords.Start(), lines) == HexRecords.Run(g1, [l1, l2]) == HexRecords.Run(g2, [l2]);
    NonEmptyIsAnchored(lines, true, 0, true);
    assert RecordWrites([l2]) == [];
    RecordWritesData(0x1fff, [b, c], [l2]);
    RecordWritesData(0x1fff, [a], [l1, l2]);
    assert [l1] + [l2] == [l1, l2] && [l0] + [l1, l2] == lines;
  }

  /** A two-stage load of that file returns 0 and leaves the first record's byte where the second one has another. */
  lemma OlderByteStays(io: nat -> Io, a: Byte, b: Byte, c: Byte, r: Ram)
    requires NoShort(io) && LoadRam(io, Fx2, true, StraddlingFile(a, b, c), r).1 == Code(0)
    ensures var n := LoadRam(io, Fx2, true, StraddlingFile(a, b, c), r).0; 0x1fff in n.mem && n.mem[0x1fff] == a
    ensures var once := ApplyWrites(r.mem, RecordWrites(StraddlingFile(a, b, c))); 0x1fff in once && once[0x1fff] == b
  {
    var first, second := Chunk(0x1fff, [a]), Chunk(0x1fff, [b, c]);
    var lines := StraddlingFile(a, b, c);
    StraddlingParses(a, b, c);
    assert !IsExternal(Fx2, first) && IsExternal(Fx2, second);
    hide LoadRam, Parse, External, IsExternal, Kept, ApplyChunks, ApplyWrites, RecordWrites, StraddlingFile, ByteAt,
      TwoPasses, Writes;
    TwoStageLoad(io, Fx2, lines, r);
    SecondParses(io, lines, r);
    MergingPreservesMeaning(lines);
    ChunksApplyWrites(r.mem, Parse(lines).out);
    KeptTwo(Fx2, first, second);
  }

  lemma SecondParses(io: nat -> Io, lines: seq<Line>, r: Ram)
    requires NoShort(io) && LoadRam(io, Fx2, true, lines, r).1 == Code(0)
    ensures Parse(lines).status == Code(0)
  {
    ReturnCodes(lines);
    ParsePass(io, Fx2, r.(mode := SkipInternal), lines);
  }

  lemma KeptTwo(chip: Chip, c: Chunk, d: Chunk)
    requires !IsExternal(chip, c) && IsExternal(chip, d)
    ensures Kept(SkipInternal, chip, [c] + [d]) == [d] && Kept(SkipExternal, chip, [c] + [d]) == [c]
  {
    hide External, Kept;
    KeptSnoc(SkipInternal, chip, [c], d);
    KeptSnoc(SkipExternal, chip, [c], d);
    KeptOne(SkipInternal, chip, c);
    KeptOne(SkipInternal, chip, d);
    KeptOne(SkipExternal, chip, c);
    KeptOne(SkipExternal, chip, d);
    assert [] + [d] == [d] && [c] + [] == [c];
  }

  // ---- When a load succeeds ----

  /** Every request stores everything. */
  ghost predicate AllFull(io: nat -> Io) {
    forall k: nat :: Whole(io, k)
  }

  predicate Whole(io: nat -> Io, k: nat) { io(k).Full? }

  lemma PokeWhole(io: nat -> Io, r: Ram, external: bool, c: Chunk)
    requires AllFull(io)
    ensures var (n, rc) := RamPoke(io, r, external, c);
            n.mode == r.mode && (rc >= 0 <==> !(r.mode == InternalOnly && external))
  {
    assert Whole(io, r.requests);
  }

  lemma {:induction false} DeliverWhole(io: nat -> Io, chip: Chip, r: Ram, chunks: seq<Chunk>)
    requires AllFull(io)
    ensures Deliver(io, chip, ToRam(r), chunks).0.ToRam?
    ensures Deliver(io, chip, ToRam(r), chunks).1 <==>
        (r.mode == InternalOnly ==> forall c | c in chunks :: !IsExternal(chip, c))
    decreases |chunks|
  {
    if chunks != [] {
      hide RamPoke;
      var c, rest := chunks[0], chunks[1..];
      var (n, rc) := RamPoke(io, r, IsExternal(chip, c), c);
      PokeWhole(io, r, IsExternal(chip, c), c);
      assert Poke(io, ToRam(r), External(chip, c.addr, |c.data|), c) == (ToRam(n), rc);
      assert forall x :: x in chunks <==> x == c || x in rest;
      if rc >= 0 { DeliverWhole(io, chip, n, rest); }
    }
  }

  lemma CpucsWhole(io: nat -> Io, r: Ram, run: bool)
    requires AllFull(io)
    ensures Cpucs(io, r, run).1
  {
    assert Whole(io, r.requests);
  }

  /**
   * On a device that stores everything, a load returns 0 exactly when the file parses and, with the chip's own loader
   * only, no chunk needs external memory.
   */
  lemma LoadsIff(io: nat -> Io, chip: Chip, stage: bool, lines: seq<Line>, r: Ram)
    requires AllFull(io)
    ensures LoadRam(io, chip, stage, lines, r).1 == Code(0) <==>
            Parse(lines).status == Code(0) && (!stage ==> forall c | c in Parse(lines).out :: !IsExternal(chip, c))
  {
    hide Deliver, Cpucs, Parse;
    ReturnCodes(lines);
    var r0 := (if stage then r else Cpucs(io, r, false).0).(mode := if stage then SkipInternal else InternalOnly);
    CpucsWhole(io, r, false);
    DeliverWhole(io, chip, r0, Parse(lines).out);
    var r1 := Deliver(io, chip, ToRam(r0), Parse(lines).out).0.ram;
    CpucsWhole(io, r1, false);
    CpucsWhole(io, r1, true);
    var r2 := Cpucs(io, r1, false).0.(mode := SkipExternal);
    DeliverWhole(io, chip, r2, Parse(lines).out);
    CpucsWhole(io, Deliver(io, chip, ToRam(r2), Parse(lines).out).0.ram, true);
  }

  /** Where an external chunk has the last word over an on-chip one, two chunks overlap. */
  lemma {:induction false} MixedCover(chip: Chip, chunks: seq<Chunk>, x: nat) returns (i: nat, j: nat)
    requires OnChipCover(chip, chunks, x) && !LastOnChip(chip, chunks, x)
    ensures i < j < |chunks| && Covers(chunks[i], x) && Covers(chunks[j], x)
    decreases |chunks|
  {
    var front, c := chunks[..|chunks| - 1], chunks[|chunks| - 1];
    if Covers(c, x) {
      i := CoverIndex(chip, front, x);
      j := |front|;
    } else {
      i, j := MixedCover(chip, front, x);
    }
  }

  lemma {:induction false} CoverIndex(chip: Chip, chunks: seq<Chunk>, x: nat) returns (i: nat)
    requires OnChipCover(chip, chunks, x)
    ensures i < |chunks| && Covers(chunks[i], x)
    decreases |chunks|
  {
    if Covers(chunks[|chunks| - 1], x) { i := |chunks| - 1; } else { i := CoverIndex(chip, chunks[..|chunks| - 1], x); }
  }

  /** An image that writes no address twice can be loaded in two stages. */
  lemma WrittenOnceAgrees(chip: Chip, lines: seq<Line>)
    requires WellSized(lines) && Parse(lines).status == Code(0) && Anchored(lines, true, 0, true)
    requires WritesOnce(RecordWrites(lines))
    ensures OnChipLast(chip, Parse(lines).out)
  {
    MergingPreservesMeaning(lines);
    ChunkSizes(lines);
    var out := Parse(lines).out;
    forall x: nat | OnChipCover(chip, out, x) ensures LastOnChip(chip, out, x) {
      if !LastOnChip(chip, out, x) {
        var i, j := MixedCover(chip, out, x);
        WrittenOnceDisjoint(out, i, j);
      }
    }
  }

  /**
   * From text to memory: a file of non-empty records that writes no address twice ends up in memory as written, by
   * either load.
   */
  lemma TextToMemory(io: nat -> Io, chip: Chip, stage: bool, items: seq<Item>, r: Ram)
    requires NoShort(io)
    requires forall i | i in items :: Printable(i) && FitsLine(i) && (i.Record? ==> i.bytes != [])
    ensures var (n, status) := LoadRam(io, chip, stage, ParseLines(Lines(FileText(items))), r);
            WritesOnce(ItemWrites(items)) && status == Code(0) ==> n.mem == ApplyWrites(r.mem, ItemWrites(items))
  {
    hide LoadRam, ApplyWrites, WritesOnce;
    var lines := LinesOf(items);
    ReadsBackFile(items);
    LinesOfFacts(items, HexRecords.Start());
    TextRoundTrip(items);
    NonEmptyIsAnchored(lines, true, 0, true);
    if WritesOnce(ItemWrites(items)) && LoadRam(io, chip, stage, lines, r).1 == Code(0) {
      if stage {
        TwoStageLoad(io, chip, lines, r);
        WrittenOnceAgrees(chip, lines);
      } else {
        FirstStageLoad(io, chip, lines, r);
      }
    }
  }

  // ---- The method ----

  /** ezusb_cpucs. */
  method CpucsCall(p: Programmer, io: nat -> Io, run: bool) returns (ok: bool)
    requires p.sink.ToRam?
    modifies p
    ensures p.sink.ToRam? && (p.sink.ram, ok) == Cpucs(io, old(p.sink.ram), run)
  {
    var r := p.sink.ram;
    var outcome := io(r.requests);
    var status := outcome.Stored(1);
    p.sink := ToRam(r.(requests := r.requests + 1, running := if status == 1 then run else r.running));
    ok := status == 1 && !outcome.Failed?;
  }

  /** ezusb_load_ram for the EZ-USB chips; the file is read again for the second pass. */
  method LoadRamCall(p: Programmer, io: nat -> Io, chip: Chip, stage: bool, lines: seq<Line>) returns (status: Status)
    requires p.sink.ToRam? && WellSized(lines)
    modifies p
    ensures p.sink.ToRam? && (p.sink.ram, status) == LoadRam(io, chip, stage, lines, old(p.sink.ram))
  {
    hide Deliver, Cpucs;
    if !stage {
      var ok := CpucsCall(p, io, false);
      if !ok { return Code(-1); }
      p.sink := ToRam(p.sink.ram.(mode := InternalOnly));
    } else {
      p.sink := ToRam(p.sink.ram.(mode := SkipInternal));
    }
    StaysRam(io, chip, p.sink.ram, Parse(lines).out);
    status := p.ParseIhex(io, chip, lines);
    if status.Open? || status.rc < 0 { return; }
    if stage {
      var ok := CpucsCall(p, io, false);
      if !ok { return Code(-1); }
      p.sink := ToRam(p.sink.ram.(mode := SkipExternal));
      StaysRam(io, chip, p.sink.ram, Parse(lines).out);
      status := p.ParseIhex(io, chip, lines);
      if status.Open? || status.rc < 0 { return; }
    }
    var running := CpucsCall(p, io, true);
    status := if running then Code(0) else Code(-1);
  }

  lemma {:induction false} StaysRam(io: nat -> Io, chip: Chip, r: Ram, chunks: seq<Chunk>)
    ensures Deliver(io, chip, ToRam(r), chunks).0.ToRam?
    decreases |chunks|
  {
    if chunks != [] {
      var (n, rc) := RamPoke(io, r, IsExternal(chip, chunks[0]), chunks[0]);
      if rc >= 0 { StaysRam(io, chip, n, chunks[1..]); }
    }
  }
}
