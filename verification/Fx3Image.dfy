/** parse_img and fx3_load_ram of ezusb.c: an FX3 image is cut into chunks of at most 4096 bytes and written to RAM. */
module Fx3Image {
  import opened HexRecords
  import opened Loader
  import opened RamLoad

  const BUFFER := 4096

  /** Addresses and lengths are 32 bits wide. */
  function Mod32(n: nat): (m: nat)
    ensures m < 0x1_0000_0000
    ensures n < 0x1_0000_0000 ==> m == n
  {
    n % 0x1_0000_0000
  }

  /** A little-endian word of the image. */
  function Word(b: seq<Byte>, at: nat): (w: nat)
    requires at + 4 <= |b|
    ensures w < 0x1_0000_0000
  {
    (b[at] as int) + (b[at + 1] as int) * 0x100 + (b[at + 2] as int) * 0x1_0000 + (b[at + 3] as int) * 0x100_0000
  }

  /** The blocks handed to poke(), and the return code if every poke succeeds. */
  datatype Image = Image(chunks: seq<Chunk>, rc: int)

  /** One segment: a segment without bytes is poked as well. False if the file ends inside it. */
  function SegmentChunks(b: seq<Byte>, pos: nat, addr: nat, remaining: nat): (seq<Chunk>, bool)
    requires pos <= |b|
    decreases remaining
  {
    var n := if remaining > BUFFER then BUFFER else remaining;
    if pos + n > |b| then ([], false)
    else
      var c := Chunk(addr, b[pos..pos + n]);
      if remaining == n then ([c], true)
      else
        var (rest, ok) := SegmentChunks(b, pos + n, Mod32(addr + n), remaining - n);
        ([c] + rest, ok)
  }

  function SegmentLen(b: seq<Byte>, pos: nat): nat
    requires pos + 4 <= |b|
  {
    Mod32(Word(b, pos) * 4)
  }

  function Segments(b: seq<Byte>, pos: nat): Image
    requires pos <= |b|
    decreases |b| - pos
  {
    if pos + 8 > |b| then Image([], -1)
    else
      var len := SegmentLen(b, pos);
      var (chunks, ok) := SegmentChunks(b, pos + 8, Word(b, pos + 4), len);
      if !ok || pos + 8 + len > |b| then Image(chunks, -1)
      else if len == 0 then Image(chunks, 0)
      else var rest := Segments(b, pos + 8 + len); Image(chunks + rest.chunks, rest.rc)
  }

  predicate Signed(b: seq<Byte>) {
    |b| >= 4 && b[0] == 'C' as int && b[1] == 'Y' as int && b[3] == 0xB0
  }

  function ParseImage(b: seq<Byte>): Image {
    if Signed(b) then Segments(b, 4) else Image([], -1)
  }

  // ---- Meaning ----

  lemma {:induction false} ChunkWritesConcat(a: seq<Chunk>, b: seq<Chunk>)
    ensures ChunkWrites(a + b) == ChunkWrites(a) + ChunkWrites(b)
    decreases |b|
  {
    hide Writes;
    if b == [] {
      assert a + b == a;
    } else {
      var c := b[|b| - 1];
      assert (a + b)[..|a + b| - 1] == a + b[..|b| - 1];
      ChunkWritesConcat(a, b[..|b| - 1]);
      assert ChunkWrites(a) + (ChunkWrites(b[..|b| - 1]) + Writes(c.addr, c.data))
          == (ChunkWrites(a) + ChunkWrites(b[..|b| - 1])) + Writes(c.addr, c.data);
    }
  }

  lemma ChunkWritesOne(c: Chunk)
    ensures ChunkWrites([c]) == Writes(c.addr, c.data)
  {
    assert [c][..0] == [];
    assert ChunkWrites([]) == [];
  }

  /** The same writes, with addresses as the 32-bit counters have them. */
  function Wrapped(w: seq<(nat, Byte)>): (r: seq<(nat, Byte)>)
    ensures |r| == |w|
  {
    seq(|w|, i requires 0 <= i < |w| => (Mod32(w[i].0), w[i].1))
  }

  lemma WrappedConcat(a: seq<(nat, Byte)>, b: seq<(nat, Byte)>)
    ensures Wrapped(a + b) == Wrapped(a) + Wrapped(b)
  {}

  lemma WrappedFrom(addr: nat, data: seq<Byte>)
    ensures Wrapped(Writes(Mod32(addr), data)) == Wrapped(Writes(addr, data))
  {}

  /** How many bytes of a segment are poked: all of it, or as many whole buffers as the file still has. */
  function Available(b: seq<Byte>, pos: nat, len: nat): (n: nat)
    requires pos <= |b|
    ensures pos + n <= |b| && n <= len
  {
    if pos + len <= |b| then len else (|b| - pos) / 4096 * 4096
  }

  /** Image bytes and the addresses they belong at, read off the file without any cutting into chunks. */
  function Contents(b: seq<Byte>, pos: nat): seq<(nat, Byte)>
    requires pos <= |b|
    decreases |b| - pos
  {
    if pos + 8 > |b| then []
    else
      var len := SegmentLen(b, pos);
      var n := Available(b, pos + 8, len);
      var w := Wrapped(Writes(Word(b, pos + 4), b[pos + 8..pos + 8 + n]));
      if n < len || len == 0 then w else w + Contents(b, pos + 8 + len)
  }

  /** The next buffer of a segment that is longer than one. */
  lemma SegmentNext(b: seq<Byte>, pos: nat, addr: nat, remaining: nat)
    requires remaining > BUFFER && pos + BUFFER <= |b|
    ensures var (rest, ok) := SegmentChunks(b, pos + BUFFER, Mod32(addr + BUFFER), remaining - BUFFER);
            SegmentChunks(b, pos, addr, remaining) == ([Chunk(addr, b[pos..pos + BUFFER])] + rest, ok)
    ensures Available(b, pos, remaining) == BUFFER + Available(b, pos + BUFFER, remaining - BUFFER)
  {}

  lemma SegmentLast(b: seq<Byte>, pos: nat, addr: nat, remaining: nat)
    requires pos <= |b| && (remaining <= BUFFER || pos + BUFFER > |b|)
    ensures SegmentChunks(b, pos, addr, remaining) ==
      if pos + remaining <= |b| then ([Chunk(addr, b[pos..pos + remaining])], true) else ([], false)
    ensures Available(b, pos, remaining) == if pos + remaining <= |b| then remaining else 0
  {}

  /** The chunks of a segment carry its bytes to consecutive addresses, modulo 2^32. */
  lemma {:induction false} SegmentMeaning(b: seq<Byte>, pos: nat, addr: nat, remaining: nat)
    requires pos <= |b|
    ensures var (chunks, ok) := SegmentChunks(b, pos, addr, remaining); var n := Available(b, pos, remaining);
            && (ok <==> pos + remaining <= |b|)
            && Wrapped(ChunkWrites(chunks)) == Wrapped(Writes(addr, b[pos..pos + n]))
    decreases remaining
  {
    hide SegmentChunks, Available, Wrapped, ChunkWrites, Writes;
    if remaining > BUFFER && pos + BUFFER <= |b| {
      var first, m := b[pos..pos + BUFFER], Available(b, pos + BUFFER, remaining - BUFFER);
      var others := b[pos + BUFFER..pos + BUFFER + m];
      var rest := SegmentChunks(b, pos + BUFFER, Mod32(addr + BUFFER), remaining - BUFFER).0;
      SegmentNext(b, pos, addr, remaining);
      SegmentMeaning(b, pos + BUFFER, Mod32(addr + BUFFER), remaining - BUFFER);
      WrappedFrom(addr + BUFFER, others);
      assert first + others == b[pos..pos + BUFFER + m];
      HexRecords.WritesConcat(addr, first, others);
      WrappedConcat(Writes(addr, first), Writes(addr + BUFFER, others));
      ChunkWritesConcat([Chunk(addr, first)], rest);
      ChunkWritesOne(Chunk(addr, first));
      WrappedConcat(Writes(addr, first), ChunkWrites(rest));
    } else {
      SegmentLast(b, pos, addr, remaining);
      NoWrites(addr);
      if pos + remaining <= |b| { ChunkWritesOne(Chunk(addr, b[pos..pos + remaining])); }
    }
  }

  lemma NoWrites(addr: nat)
    ensures ChunkWrites([]) == Writes(addr, []) == []
  {}

  /** Only a segment without bytes yields an empty chunk, and it yields nothing else. */
  lemma {:induction false} SegmentShape(b: seq<Byte>, pos: nat, addr: nat, remaining: nat)
    requires pos <= |b|
    ensures var (chunks, ok) := SegmentChunks(b, pos, addr, remaining);
            && (remaining == 0 ==> chunks == [Chunk(addr, [])] && ok)
            && (remaining > 0 ==> forall c | c in chunks :: 0 < |c.data| <= BUFFER)
    decreases remaining
  {
    hide SegmentChunks;
    if remaining > BUFFER && pos + BUFFER <= |b| {
      SegmentNext(b, pos, addr, remaining);
      SegmentShape(b, pos + BUFFER, Mod32(addr + BUFFER), remaining - BUFFER);
    } else {
      SegmentLast(b, pos, addr, remaining);
      assert b[pos..pos] == [];
    }
  }

  /** Without wrap-around the addresses are exactly those of the segment. */
  lemma {:induction false} SegmentPlain(b: seq<Byte>, pos: nat, addr: nat, remaining: nat)
    requires pos + remaining <= |b| && addr + remaining <= 0x1_0000_0000
    ensures var (chunks, ok) := SegmentChunks(b, pos, addr, remaining);
            ok && ChunkWrites(chunks) == Writes(addr, b[pos..pos + remaining])
    decreases remaining
  {
    hide SegmentChunks, Available, ChunkWrites, Writes;
    if remaining > BUFFER {
      var first, others := b[pos..pos + BUFFER], b[pos + BUFFER..pos + remaining];
      var rest := SegmentChunks(b, pos + BUFFER, Mod32(addr + BUFFER), remaining - BUFFER).0;
      SegmentNext(b, pos, addr, remaining);
      SegmentPlain(b, pos + BUFFER, addr + BUFFER, remaining - BUFFER);
      assert first + others == b[pos..pos + remaining];
      HexRecords.WritesConcat(addr, first, others);
      ChunkWritesConcat([Chunk(addr, first)], rest);
      ChunkWritesOne(Chunk(addr, first));
    } else {
      SegmentLast(b, pos, addr, remaining);
      ChunkWritesOne(Chunk(addr, b[pos..pos + remaining]));
    }
  }

  lemma {:induction false} SegmentsMeaning(b: seq<Byte>, pos: nat)
    requires pos <= |b|
    ensures Wrapped(ChunkWrites(Segments(b, pos).chunks)) == Contents(b, pos)
    decreases |b| - pos
  {
    hide SegmentChunks, ChunkWrites, Writes, Wrapped, Available, Word, SegmentLen;
    if pos + 8 <= |b| {
      var len := SegmentLen(b, pos);
      var chunks := SegmentChunks(b, pos + 8, Word(b, pos + 4), len).0;
      SegmentMeaning(b, pos + 8, Word(b, pos + 4), len);
      AvailableAll(b, pos + 8, len);
      if pos + 8 + len <= |b| && len != 0 {
        SegmentsMeaning(b, pos + 8 + len);
        ChunkWritesConcat(chunks, Segments(b, pos + 8 + len).chunks);
        WrappedConcat(ChunkWrites(chunks), ChunkWrites(Segments(b, pos + 8 + len).chunks));
      }
    } else {
      NoWrites(0);
    }
  }

  lemma AvailableAll(b: seq<Byte>, pos: nat, len: nat)
    requires pos <= |b|
    ensures Available(b, pos, len) == len <==> pos + len <= |b|
  {}

  /** An image that has been read to its end has been poked with its empty segment last, and only then. */
  ghost predicate EntryLast(im: Image) {
    && (im.rc == 0 || im.rc == -1)
    && (forall i | 0 <= i < |im.chunks| :: |im.chunks[i].data| <= BUFFER)
    && (im.rc == 0 ==> im.chunks != [])
    && (forall i | 0 <= i < |im.chunks| :: im.chunks[i].data == [] <==> im.rc == 0 && i == |im.chunks| - 1)
  }

  lemma {:induction false} SegmentsShape(b: seq<Byte>, pos: nat)
    requires pos <= |b|
    ensures EntryLast(Segments(b, pos))
    decreases |b| - pos
  {
    hide SegmentChunks;
    if pos + 8 <= |b| {
      var len := SegmentLen(b, pos);
      var (chunks, ok) := SegmentChunks(b, pos + 8, Word(b, pos + 4), len);
      SegmentShape(b, pos + 8, Word(b, pos + 4), len);
      forall i | 0 <= i < |chunks| && len > 0 ensures 0 < |chunks[i].data| <= BUFFER { assert chunks[i] in chunks; }
      if ok && pos + 8 + len <= |b| && len != 0 {
        SegmentsShape(b, pos + 8 + len);
      }
    }
  }

  /**
   * Main theorem: whatever the file, the pokes carry the image's bytes to the addresses its segment headers give,
   * modulo 2^32, in file order; no poke is longer than 4096 bytes; and an empty poke is made exactly when the file
   * has been read without error, once, after everything else.
   */
  lemma PokesAreTheImage(b: seq<Byte>)
    requires Signed(b)
    ensures Wrapped(ChunkWrites(ParseImage(b).chunks)) == Contents(b, 4)
    ensures EntryLast(ParseImage(b))
  {
    SegmentsMeaning(b, 4);
    SegmentsShape(b, 4);
  }

  /** A word count that is a multiple of 2^30 wraps to no bytes at all, which means "run from this address". */
  lemma RunCommandIff(b: seq<Byte>, pos: nat)
    requires pos + 4 <= |b|
    ensures SegmentLen(b, pos) == 0 <==> Word(b, pos) % 0x4000_0000 == 0
  {}

  /** So a first segment of 4 GiB, or any multiple, ends the image: nothing of it is read, and the result is success. */
  lemma HugeSegmentIsLost(b: seq<Byte>)
    requires Signed(b) && |b| >= 12 && Word(b, 4) % 0x4000_0000 == 0
    ensures ParseImage(b) == Image([Chunk(Word(b, 8), [])], 0)
  {
    RunCommandIff(b, 4);
    SegmentLast(b, 12, Word(b, 8), 0);
    assert b[12..12] == [];
  }

  // ---- Round trip ----

  function LeWord(w: nat): (s: seq<Byte>)
    requires w < 0x1_0000_0000
    ensures |s| == 4
  {
    [w % 0x100, w / 0x100 % 0x100, w / 0x1_0000 % 0x100, w / 0x100_0000]
  }

  /** Whole words, at addresses that do not wrap. */
  predicate Storable(c: Chunk) {
    0 < |c.data| < 0x1_0000_0000 && |c.data| % 4 == 0 && c.addr + |c.data| <= 0x1_0000_0000
  }

  function Render(segments: seq<Chunk>, entry: nat): (s: seq<Byte>)
    requires entry < 0x1_0000_0000 && forall c | c in segments :: Storable(c)
  {
    if segments == [] then LeWord(0) + LeWord(entry)
    else
      var c := segments[0];
      assert c in segments && Storable(c);
      LeWord(|c.data| / 4) + LeWord(c.addr) + c.data + Render(segments[1..], entry)
  }

  /** The header, the segments, the run command, and whatever follows (a checksum). */
  function ImageFile(control: Byte, segments: seq<Chunk>, entry: nat, tail: seq<Byte>): seq<Byte>
    requires entry < 0x1_0000_0000 && forall c | c in segments :: Storable(c)
  {
    ['C' as int, 'Y' as int, control, 0xB0] + Render(segments, entry) + tail
  }

  lemma Digits(w: nat)
    ensures w % 0x100 + w / 0x100 % 0x100 * 0x100 + w / 0x1_0000 % 0x100 * 0x1_0000 + w / 0x100_0000 * 0x100_0000 == w
  {
    assert w / 0x1_0000 == w / 0x100 / 0x100 && w / 0x100_0000 == w / 0x1_0000 / 0x100;
  }

  lemma WordRoundTrip(b: seq<Byte>, at: nat, w: nat)
    requires w < 0x1_0000_0000 && at + 4 <= |b| && b[at..at + 4] == LeWord(w)
    ensures Word(b, at) == w
  {
    Digits(w);
    assert b[at] == b[at..at + 4][0] && b[at + 1] == b[at..at + 4][1] && b[at + 2] == b[at..at + 4][2]
        && b[at + 3] == b[at..at + 4][3];
  }

  lemma HeaderRoundTrip(b: seq<Byte>, pos: nat, w: nat, addr: nat, rest: seq<Byte>)
    requires w < 0x1_0000_0000 && addr < 0x1_0000_0000
    requires pos <= |b| && b[pos..] == LeWord(w) + LeWord(addr) + rest
    ensures pos + 8 <= |b| && Word(b, pos) == w && Word(b, pos + 4) == addr && b[pos + 8..] == rest
  {
    var s := b[pos..];
    assert s[..4] == LeWord(w) && s[4..8] == LeWord(addr) && s[8..] == rest;
    assert b[pos..pos + 4] == s[..4] && b[pos + 4..pos + 8] == s[4..8] && b[pos + 8..] == s[8..];
    WordRoundTrip(b, pos, w);
    WordRoundTrip(b, pos + 4, addr);
  }

  lemma {:induction false} SegmentsOfRender(b: seq<Byte>, pos: nat, segments: seq<Chunk>, entry: nat, tail: seq<Byte>)
    requires entry < 0x1_0000_0000 && forall c | c in segments :: Storable(c)
    requires pos <= |b| && b[pos..] == Render(segments, entry) + tail
    ensures var im := Segments(b, pos);
            && im.rc == 0 && im.chunks != [] && im.chunks[|im.chunks| - 1] == Chunk(entry, [])
            && ChunkWrites(im.chunks) == ChunkWrites(segments)
    decreases |segments|
  {
    hide Segments, ChunkWrites, Writes, Render;
    if segments == [] {
      RunCommandRead(b, pos, entry, tail);
      NoWrites(entry);
    } else {
      var c, others := segments[0], segments[1..];
      assert c in segments && forall x | x in others :: x in segments;
      var next := pos + 8 + |c.data|;
      SegmentRead(b, pos, segments, entry, tail);
      var chunks := SegmentChunks(b, pos + 8, c.addr, |c.data|).0;
      SegmentsOfRender(b, next, others, entry, tail);
      ChunkWritesConcat(chunks, Segments(b, next).chunks);
      ChunkWritesConcat([c], others);
      ChunkWritesOne(c);
      assert [c] + others == segments;
    }
  }

  lemma RunCommandRead(b: seq<Byte>, pos: nat, entry: nat, tail: seq<Byte>)
    requires entry < 0x1_0000_0000 && pos <= |b| && b[pos..] == Render([], entry) + tail
    ensures Segments(b, pos) == Image([Chunk(entry, [])], 0)
    ensures ChunkWrites([Chunk(entry, [])]) == []
  {
    hide SegmentChunks, LeWord;
    HeaderRoundTrip(b, pos, 0, entry, tail);
    SegmentLast(b, pos + 8, entry, 0);
    assert b[pos + 8..pos + 8] == [];
    ChunkWritesOne(Chunk(entry, []));
    NoWrites(entry);
  }

  lemma SegmentRead(b: seq<Byte>, pos: nat, segments: seq<Chunk>, entry: nat, tail: seq<Byte>)
    requires entry < 0x1_0000_0000 && segments != [] && forall c | c in segments :: Storable(c)
    requires pos <= |b| && b[pos..] == Render(segments, entry) + tail
    ensures var c := segments[0];
            var next := pos + 8 + |c.data|;
            c in segments && var (chunks, ok) := SegmentChunks(b, pos + 8, c.addr, |c.data|);
            && next <= |b| && b[next..] == Render(segments[1..], entry) + tail
            && Segments(b, pos) == Image(chunks + Segments(b, next).chunks, Segments(b, next).rc)
            && ChunkWrites(chunks) == Writes(c.addr, c.data)
  {
    hide SegmentChunks, Segments, ChunkWrites, Writes, LeWord, Word, Render;
    var c, others := segments[0], segments[1..];
    assert c in segments && forall x | x in others :: x in segments;
    RenderFirst(segments, entry, tail);
    HeaderRoundTrip(b, pos, |c.data| / 4, c.addr, c.data + (Render(others, entry) + tail));
    BehindHeader(b, pos + 8, c.data, Render(others, entry) + tail);
    SegmentPlain(b, pos + 8, c.addr, |c.data|);
    SegmentsNext(b, pos);
  }

  lemma RenderFirst(segments: seq<Chunk>, entry: nat, tail: seq<Byte>)
    requires entry < 0x1_0000_0000 && segments != [] && forall c | c in segments :: Storable(c)
    ensures segments[0] in segments && Storable(segments[0])
    ensures var c := segments[0];
            Render(segments, entry) + tail == LeWord(|c.data| / 4) + LeWord(c.addr)
              + (c.data + (Render(segments[1..], entry) + tail))
  {
    hide LeWord;
    var c := segments[0];
    assert c in segments;
  }

  lemma SegmentsNext(b: seq<Byte>, pos: nat)
    requires pos + 8 <= |b| && pos + 8 + SegmentLen(b, pos) <= |b| && SegmentLen(b, pos) != 0
    ensures var next := pos + 8 + SegmentLen(b, pos);
            var chunks := SegmentChunks(b, pos + 8, Word(b, pos + 4), SegmentLen(b, pos)).0;
            Segments(b, pos) == Image(chunks + Segments(b, next).chunks, Segments(b, next).rc)
  {
    hide SegmentChunks, SegmentLen, Word;
    SegmentMeaning(b, pos + 8, Word(b, pos + 4), SegmentLen(b, pos));
  }

  lemma BehindHeader(b: seq<Byte>, pos: nat, data: seq<Byte>, rest: seq<Byte>)
    requires pos <= |b| && b[pos..] == data + rest
    ensures pos + |data| <= |b| && b[pos..pos + |data|] == data && b[pos + |data|..] == rest
  {
    var s := b[pos..];
    assert s[..|data|] == data && s[|data|..] == rest;
    assert b[pos..pos + |data|] == s[..|data|] && b[pos + |data|..] == s[|data|..];
  }

  /** Round trip: an image file is read back as the bytes of its segments, in order, and ends with the run command. */
  lemma ImageRoundTrip(control: Byte, segments: seq<Chunk>, entry: nat, tail: seq<Byte>)
    requires entry < 0x1_0000_0000 && forall c | c in segments :: Storable(c)
    ensures var im := ParseImage(ImageFile(control, segments, entry, tail));
            && im.rc == 0 && im.chunks != [] && im.chunks[|im.chunks| - 1] == Chunk(entry, [])
            && ChunkWrites(im.chunks) == ChunkWrites(segments)
  {
    var b := ImageFile(control, segments, entry, tail);
    assert b[4..] == Render(segments, entry) + tail;
    SegmentsOfRender(b, 4, segments, entry, tail);
  }

  // ---- Loading ----

  /** Blocks are poked in order while poke() returns 0. */
  function DeliverRam(io: nat -> Io, r: Ram, chunks: seq<Chunk>): (Ram, int)
    decreases |chunks|
  {
    if chunks == [] then (r, 0)
    else
      var (n, rc) := RamPoke(io, r, false, chunks[0]);
      if rc != 0 then (n, rc) else DeliverRam(io, n, chunks[1..])
  }

  function RunImage(io: nat -> Io, r: Ram, im: Image): (Ram, int) {
    var (n, rc) := DeliverRam(io, r, im.chunks);
    (n, if rc != 0 then rc else im.rc)
  }

  /** fx3_load_ram, with the file read: one stage only. */
  function LoadImage(io: nat -> Io, r: Ram, stage: bool, b: seq<Byte>): (Ram, int) {
    if stage then (r, -1) else RunImage(io, r.(mode := InternalOnly), ParseImage(b))
  }

  /** A two-stage load, and a file without signature and format byte, are refused with -1 before any request. */
  lemma RefusedUntouched(io: nat -> Io, r: Ram, stage: bool, b: seq<Byte>)
    requires stage || |b| < 4 || b[0] != 0x43 || b[1] != 0x59 || b[3] != 0xB0
    ensures var (n, rc) := LoadImage(io, r, stage, b); rc == -1 && n.(mode := r.mode) == r
  {}

  lemma {:induction false} ChunksCons(mem: Memory, c: Chunk, rest: seq<Chunk>)
    ensures ApplyChunks(mem, [c] + rest) == ApplyChunks(Store(mem, c.addr, c.data), rest)
    decreases |rest|
  {
    hide ApplyChunks, Store;
    if rest == [] {
      assert [c] + rest == [] + [c];
      ChunksSnoc(mem, [], c);
      ApplyNone(mem);
      ApplyNone(Store(mem, c.addr, c.data));
    } else {
      var front, last := rest[..|rest| - 1], rest[|rest| - 1];
      assert [c] + rest == ([c] + front) + [last] && rest == front + [last];
      ChunksCons(mem, c, front);
      ChunksSnoc(mem, [c] + front, last);
      ChunksSnoc(Store(mem, c.addr, c.data), front, last);
    }
  }

  lemma {:induction false} RetryFails(io: nat -> Io, r: Ram, c: Chunk, retry: nat)
    requires retry <= RETRY_LIMIT && RamRetry(io, r, c, retry).1 != 0
    ensures var (n, rc) := RamRetry(io, r, c, retry); n.done == r.done && rc < 0
    decreases RETRY_LIMIT - retry
  {
    if io(r.requests).Failed? && io(r.requests).timedOut && retry < RETRY_LIMIT {
      RetryFails(io, RamRequest(io, r, c), c, retry + 1);
    }
  }

  /** A prefix of the chunks is written; all of them exactly when 0 is returned, and then whole. */
  lemma {:induction false} DeliverPrefix(io: nat -> Io, r: Ram, chunks: seq<Chunk>) returns (k: nat)
    requires NoShort(io) && r.mode == InternalOnly
    ensures k <= |chunks|
    ensures var (n, rc) := DeliverRam(io, r, chunks);
            && n.done == r.done + chunks[..k] && (rc == 0 <==> k == |chunks|) && rc <= 0
            && (rc == 0 ==> n.mem == ApplyChunks(r.mem, chunks))
    decreases |chunks|
  {
    hide ApplyChunks, Store, RamRetry;
    if chunks == [] {
      k := 0;
      ApplyNone(r.mem);
      assert r.done + chunks[..0] == r.done;
    } else {
      var c, rest := chunks[0], chunks[1..];
      var (m, rc) := RamPoke(io, r, false, c);
      if rc != 0 {
        k := 0;
        RetryFails(io, r, c, 0);
        assert r.done + chunks[..0] == r.done;
      } else {
        RetryStores(io, r, c, 0);
        var l := DeliverPrefix(io, m, rest);
        k := l + 1;
        assert chunks[..k] == [c] + rest[..l];
        assert (r.done + [c]) + rest[..l] == r.done + ([c] + rest[..l]);
        ChunksCons(r.mem, c, rest);
        assert [c] + rest == chunks;
      }
    }
  }

  /** The blocks a load has written successfully. */
  function NewlyDone(r: Ram, n: Ram): seq<Chunk> {
    if r.done <= n.done then n.done[|r.done|..] else []
  }

  /** The blocks a load has sent, whatever came of the requests. */
  function NewlySent(r: Ram, n: Ram): seq<Chunk> {
    if r.sent <= n.sent then n.sent[|r.sent|..] else []
  }

  ghost predicate RunSent(r: Ram, n: Ram) {
    exists i :: 0 <= i < |NewlySent(r, n)| && NewlySent(r, n)[i].data == []
  }

  function Copies(c: Chunk, k: nat): (s: seq<Chunk>)
    ensures |s| == k && forall i | 0 <= i < k :: s[i] == c
  {
    seq(k, _ => c)
  }

  /** All requests of one poke carry its block, and there are at most six; an empty block changes nothing. */
  lemma {:induction false} RetrySends(io: nat -> Io, r: Ram, c: Chunk, retry: nat) returns (k: nat)
    requires retry <= RETRY_LIMIT
    ensures 1 <= k <= RETRY_LIMIT + 1 - retry
    ensures var n := RamRetry(io, r, c, retry).0; n.sent == r.sent + Copies(c, k) && (c.data == [] ==> n.mem == r.mem)
    decreases RETRY_LIMIT - retry
  {
    var n := RamRequest(io, r, c);
    assert c.data == [] ==> c.data[..io(r.requests).Stored(|c.data|)] == [];
    if io(r.requests).Failed? && io(r.requests).timedOut && retry < RETRY_LIMIT {
      k := RetrySends(io, n, c, retry + 1);
      assert (r.sent + [c]) + Copies(c, k) == r.sent + Copies(c, k + 1);
      k := k + 1;
    } else {
      k := 1;
      assert r.sent + [c] == r.sent + Copies(c, 1);
    }
  }

  /** Only the last block may be empty. */
  ghost predicate EmptyLast(chunks: seq<Chunk>) {
    forall i | 0 <= i < |chunks| - 1 :: chunks[i].data != []
  }

  ghost predicate HasEmpty(s: seq<Chunk>) { exists i :: 0 <= i < |s| && s[i].data == [] }

  /** Nothing but empty blocks after an empty one. */
  ghost predicate EmptyStays(s: seq<Chunk>) {
    forall i, j | 0 <= i < j < |s| && s[i].data == [] :: s[j].data == []
  }

  /**
   * What has been sent and done by a delivery of k blocks' worth: an empty block only if all others have been
   * written.
   */
  ghost predicate SentRight(r: Ram, n: Ram, chunks: seq<Chunk>, sent: seq<Chunk>, k: nat) {
    && k <= |chunks| && n.sent == r.sent + sent && n.done == r.done + chunks[..k] && EmptyStays(sent)
    && (HasEmpty(sent) <==> chunks != [] && chunks[|chunks| - 1].data == [] && k >= |chunks| - 1)
    && (HasEmpty(sent) ==> n.mem == ApplyChunks(r.mem, chunks))
  }

  lemma {:induction false} DeliverSends(io: nat -> Io, r: Ram, chunks: seq<Chunk>) returns (sent: seq<Chunk>, k: nat)
    requires NoShort(io) && r.mode == InternalOnly && EmptyLast(chunks)
    ensures SentRight(r, DeliverRam(io, r, chunks).0, chunks, sent, k)
    decreases |chunks|
  {
    hide ApplyChunks, Store, RamRetry;
    if chunks == [] {
      sent, k := [], 0;
      assert r.sent + [] == r.sent && r.done + chunks[..0] == r.done;
    } else {
      var c, rest := chunks[0], chunks[1..];
      var (m, rc) := RamPoke(io, r, false, c);
      var l := RetrySends(io, r, c, 0);
      if rc != 0 {
        sent, k := Copies(c, l), 0;
        FailedSends(io, r, c, chunks, l);
      } else {
        RetryStores(io, r, c, 0);
        if rest == [] {
          sent, k := Copies(c, l), 1;
          assert chunks == [c];
          LastSends(io, r, m, c, l);
        } else {
          var others, j := DeliverSends(io, m, rest);
          sent, k := Copies(c, l) + others, j + 1;
          assert [c] + rest == chunks;
          MoreSent(r, m, DeliverRam(io, m, rest).0, c, rest, others, j, l);
        }
      }
    }
  }

  lemma FailedSends(io: nat -> Io, r: Ram, c: Chunk, chunks: seq<Chunk>, l: nat)
    requires chunks != [] && chunks[0] == c && EmptyLast(chunks) && l >= 1 && RamRetry(io, r, c, 0).1 != 0
    requires var m := RamRetry(io, r, c, 0).0; m.sent == r.sent + Copies(c, l) && (c.data == [] ==> m.mem == r.mem)
    ensures SentRight(r, RamRetry(io, r, c, 0).0, chunks, Copies(c, l), 0)
  {
    RetryFails(io, r, c, 0);
    assert r.done + chunks[..0] == r.done;
    assert Copies(c, l)[0] == c;
    if c.data == [] {
      assert chunks == [c];
    }
  }

  lemma LastSends(io: nat -> Io, r: Ram, m: Ram, c: Chunk, l: nat)
    requires l >= 1 && m.sent == r.sent + Copies(c, l) && m.done == r.done + [c]
        && m.mem == Store(r.mem, c.addr, c.data)
    ensures SentRight(r, m, [c], Copies(c, l), 1)
    ensures DeliverRam(io, m, [c][1..]) == (m, 0)
  {
    assert [c][..1] == [c];
    assert Copies(c, l)[0] == c;
  }

  lemma MoreSent(r: Ram, m: Ram, n: Ram, c: Chunk, rest: seq<Chunk>, others: seq<Chunk>, j: nat, l: nat)
    requires rest != [] && c.data != [] && SentRight(m, n, rest, others, j)
    requires m.sent == r.sent + Copies(c, l) && m.done == r.done + [c] && m.mem == Store(r.mem, c.addr, c.data)
    ensures SentRight(r, n, [c] + rest, Copies(c, l) + others, j + 1)
  {
    var chunks, sent := [c] + rest, Copies(c, l) + others;
    assert (r.sent + Copies(c, l)) + others == r.sent + sent;
    assert chunks[..j + 1] == [c] + rest[..j];
    assert (r.done + [c]) + rest[..j] == r.done + ([c] + rest[..j]);
    assert chunks[|chunks| - 1] == rest[|rest| - 1];
    ChunksCons(r.mem, c, rest);
    NonEmptyFirst(Copies(c, l), others);
  }

  lemma NonEmptyFirst(a: seq<Chunk>, b: seq<Chunk>)
    requires forall i | 0 <= i < |a| :: a[i].data != []
    ensures HasEmpty(a + b) <==> HasEmpty(b)
    ensures EmptyStays(b) ==> EmptyStays(a + b)
  {
    if HasEmpty(b) {
      var i :| 0 <= i < |b| && b[i].data == [];
      assert (a + b)[|a| + i] == b[i];
    }
    if HasEmpty(a + b) {
      var i :| 0 <= i < |a + b| && (a + b)[i].data == [];
      assert b[i - |a|].data == [];
    }
    if EmptyStays(b) {
      forall i, j | 0 <= i < j < |a + b| && (a + b)[i].data == [] ensures (a + b)[j].data == [] {
        assert b[i - |a|].data == [] && b[j - |a|] == (a + b)[j];
      }
    }
  }

  /**
   * Main theorem: the run command is sent exactly by the loads whose file is read to its end and all of whose blocks
   * before it are written, and only with the whole image in memory and nothing but its repetitions after it; and a load
   * returns 0 exactly when the run command has also been reported as successful.
   */
  lemma RunsOnlyWhatIsComplete(io: nat -> Io, r: Ram, b: seq<Byte>)
    requires NoShort(io)
    ensures var (n, rc) := LoadImage(io, r, false, b); var im := ParseImage(b);
            && r.done <= n.done && NewlyDone(r, n) <= im.chunks && r.sent <= n.sent && EmptyStays(NewlySent(r, n))
            && (RunSent(r, n) <==> im.rc == 0 && |NewlyDone(r, n)| >= |im.chunks| - 1)
            && (RunSent(r, n) ==> n.mem == ApplyChunks(r.mem, im.chunks))
            && (rc == 0 <==> RunSent(r, n) && NewlyDone(r, n) == im.chunks)
  {
    hide DeliverRam, ApplyChunks, Segments, Copies;
    var im := ParseImage(b);
    if Signed(b) { SegmentsShape(b, 4); }
    var r0 := r.(mode := InternalOnly);
    var k := DeliverPrefix(io, r0, im.chunks);
    var sent, j := DeliverSends(io, r0, im.chunks);
    var (n, rc) := LoadImage(io, r, false, b);
    assert NewlyDone(r, n) == im.chunks[..k] == im.chunks[..j];
    assert NewlySent(r, n) == sent;
    assert RunSent(r, n) <==> HasEmpty(sent);
    if k == |im.chunks| { assert im.chunks[..k] == im.chunks; }
  }

  /** A load that fails may have sent it: the failure can be that of the run command itself. */
  lemma FailedLoadMayRun(io: nat -> Io, r: Ram, b: seq<Byte>, stored: nat)
    requires Signed(b) && |b| >= 12 && Word(b, 4) % 0x4000_0000 == 0 && io(r.requests) == Failed(stored, false)
    ensures var (n, rc) := LoadImage(io, r, false, b);
            rc < 0 && n.requests == r.requests + 1 && n.sent == r.sent + [Chunk(Word(b, 8), [])]
  {
    HugeSegmentIsLost(b);
    hide ParseImage;
  }

  /**
   * From file to memory: an image file that loads with result 0 is in memory, and its entry point was the last
   * request.
   */
  lemma ImageReachesMemory(io: nat -> Io, r: Ram, control: Byte, segments: seq<Chunk>, entry: nat, tail: seq<Byte>)
    requires NoShort(io)
    requires entry < 0x1_0000_0000 && forall c | c in segments :: Storable(c)
    requires LoadImage(io, r, false, ImageFile(control, segments, entry, tail)).1 == 0
    ensures var n := LoadImage(io, r, false, ImageFile(control, segments, entry, tail)).0;
            && n.mem == ApplyWrites(r.mem, ChunkWrites(segments))
            && NewlyDone(r, n) != [] && NewlyDone(r, n)[|NewlyDone(r, n)| - 1] == Chunk(entry, [])
  {
    hide LoadImage, ApplyChunks, ApplyWrites, ParseImage, ChunkWrites;
    ImageRoundTrip(control, segments, entry, tail);
    RunsOnlyWhatIsComplete(io, r, ImageFile(control, segments, entry, tail));
    ChunksApplyWrites(r.mem, ParseImage(ImageFile(control, segments, entry, tail)).chunks);
  }

  // ---- The method ----

  /** What is left to do inside a segment of len bytes. */
  function SegmentThen(b: seq<Byte>, pos: nat, addr: nat, remaining: nat, len: nat): Image
    requires pos <= |b|
  {
    var (chunks, ok) := SegmentChunks(b, pos, addr, remaining);
    if !ok || pos + remaining > |b| then Image(chunks, -1)
    else if len == 0 then Image(chunks, 0)
    else var rest := Segments(b, pos + remaining); Image(chunks + rest.chunks, rest.rc)
  }

  lemma RunNext(io: nat -> Io, r: Ram, c: Chunk, rest: seq<Chunk>, rc: int)
    ensures var (n, code) := RamPoke(io, r, false, c);
            RunImage(io, r, Image([c] + rest, rc)) == if code != 0 then (n, code) else RunImage(io, n, Image(rest, rc))
  {
    assert ([c] + rest)[1..] == rest;
  }

  /** One turn of the inner loop. */
  lemma BufferNext(io: nat -> Io, r: Ram, b: seq<Byte>, pos: nat, addr: nat, remaining: nat, len: nat)
    requires pos <= |b| && (len == 0 ==> remaining == 0)
    ensures var k := if remaining > BUFFER then BUFFER else remaining;
            RunImage(io, r, SegmentThen(b, pos, addr, remaining, len)) ==
              if pos + k > |b| then (r, -1)
              else
                var (n, code) := RamPoke(io, r, false, Chunk(addr, b[pos..pos + k]));
                if code != 0 then (n, code)
                else if remaining > k then RunImage(io, n, SegmentThen(b, pos + k, Mod32(addr + k), remaining - k, len))
                else RunImage(io, n, if len == 0 then Image([], 0) else Segments(b, pos + k))
  {
    hide SegmentChunks, Segments, RamPoke, RunImage;
    if remaining > BUFFER && pos + BUFFER <= |b| {
      SegmentNext(b, pos, addr, remaining);
      SegmentMeaning(b, pos + BUFFER, Mod32(addr + BUFFER), remaining - BUFFER);
      var c := Chunk(addr, b[pos..pos + BUFFER]);
      var then' := SegmentThen(b, pos + BUFFER, Mod32(addr + BUFFER), remaining - BUFFER, len);
      assert SegmentThen(b, pos, addr, remaining, len) == Image([c] + then'.chunks, then'.rc) by {
        var rest := SegmentChunks(b, pos + BUFFER, Mod32(addr + BUFFER), remaining - BUFFER).0;
        if pos + remaining <= |b| {
          assert ([c] + rest) + Segments(b, pos + remaining).chunks ==
              [c] + (rest + Segments(b, pos + remaining).chunks);
        }
      }
      RunNext(io, r, c, then'.chunks, then'.rc);
    } else {
      SegmentLast(b, pos, addr, remaining);
      RunNothing(io, r);
      if pos + remaining <= |b| {
        var c := Chunk(addr, b[pos..pos + remaining]);
        assert [c] + [] == [c];
        if len == 0 {
          RunNext(io, r, c, [], 0);
        } else {
          RunNext(io, r, c, Segments(b, pos + remaining).chunks, Segments(b, pos + remaining).rc);
        }
      }
    }
  }

  lemma RunNothing(io: nat -> Io, r: Ram)
    ensures RunImage(io, r, Image([], -1)) == (r, -1)
    ensures RunImage(io, r, Image([], 0)) == (r, 0)
  {}

  lemma SegmentStarts(b: seq<Byte>, pos: nat)
    requires pos + 8 <= |b|
    ensures Segments(b, pos) == SegmentThen(b, pos + 8, Word(b, pos + 4), SegmentLen(b, pos), SegmentLen(b, pos))
  {}

  /** parse_img with ram_poke; the file descriptor's offset is `pos`. */
  method ParseImg(p: Programmer, io: nat -> Io, b: seq<Byte>) returns (rc: int)
    requires p.sink.ToRam?
    modifies p
    ensures p.sink.ToRam? && (p.sink.ram, rc) == RunImage(io, old(p.sink.ram), ParseImage(b))
  {
    hide Segments, SegmentThen, RunImage, RamPoke;
    ghost var all := RunImage(io, p.sink.ram, ParseImage(b));
    RunNothing(io, p.sink.ram);
    if |b| < 4 { return -1; }
    if b[0] != 'C' as int || b[1] != 'Y' as int { return -1; }
    if b[3] != 0xB0 { return -1; }
    var pos: nat := 4;
    rc := 0;
    while rc == 0
      invariant pos <= |b| && p.sink.ToRam?
      invariant all == if rc == 0 then RunImage(io, p.sink.ram, Segments(b, pos)) else (p.sink.ram, rc)
      decreases |b| - pos
    {
      rc := -1;
      ghost var before := pos;
      RunNothing(io, p.sink.ram);
      if pos + 8 > |b| { TooShortForHeader(b, pos); }
      if pos + 4 > |b| { break; }
      if pos + 8 > |b| { break; }
      var segmentLen := Mod32(Word(b, pos) * 4);
      var segmentAddr := Word(b, pos + 4);
      SegmentStarts(b, pos);
      pos := pos + 8;
      var cur: nat, remaining: nat, again := segmentAddr, segmentLen, true;
      while again
        invariant before < pos <= |b| && p.sink.ToRam? && (segmentLen == 0 ==> remaining == 0)
        invariant again ==> all == RunImage(io, p.sink.ram, SegmentThen(b, pos, cur, remaining, segmentLen))
        invariant !again && rc != 0 ==> all == (p.sink.ram, rc)
        invariant !again && rc == 0 ==>
            all == RunImage(io, p.sink.ram, if segmentLen == 0 then Image([], 0) else Segments(b, pos))
        decreases remaining, again
      {
        BufferNext(io, p.sink.ram, b, pos, cur, remaining, segmentLen);
        var chunk := if remaining > BUFFER then BUFFER else remaining;
        if chunk != 0 && pos + chunk > |b| {
          rc := -1;
          break;
        }
        rc := p.RamPokeCall(io, false, Chunk(cur, b[pos..pos + chunk]));
        pos := pos + chunk;
        cur := Mod32(cur + chunk);
        remaining := remaining - chunk;
        again := rc == 0 && remaining > 0;
      }
      if segmentLen == 0 {
        RunNothing(io, p.sink.ram);
        break;
      }
    }
  }

  lemma TooShortForHeader(b: seq<Byte>, pos: nat)
    requires pos <= |b| < pos + 8
    ensures Segments(b, pos) == Image([], -1)
  {}
}
