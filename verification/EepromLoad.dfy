/**
 * ezusb_load_eeprom of ezusb.c: a boot EEPROM is marked as unbootable, filled with a chain of segments, and
 * marked as bootable last.
 */
module EepromLoad {
  import opened Arith
  import opened HexRecords
  import opened HexText
  import opened Chips
  import opened Loader
  import opened RamLoad

  // ---- The layout ----

  function FirstByte(chip: Chip): Byte {
    match chip
    case An21 => 0xB2
    case Fx => 0xB6
    case Fx2 => 0xC2
    case Fx2lp => 0xC2
  }

  /** Where the chain starts: behind the type byte, the USB ids, and the configuration bytes the chip has. */
  function ChainStart(chip: Chip): nat {
    match chip
    case An21 => 7
    case Fx => 9
    case Fx2 => 8
    case Fx2lp => 8
  }

  /** config & 0x4f, config & 0x07, or nothing; the masks reach no further than the low byte of an int. */
  function ConfigByte(chip: Chip, config: int): Byte {
    match chip
    case An21 => 0
    case Fx => BitAnd(config % 256, 0x07)
    case Fx2 => BitAnd(config % 256, 0x4f)
    case Fx2lp => BitAnd(config % 256, 0x4f)
  }

  function Reset(chip: Chip): Chunk { Chunk(CpuControl(chip), [0]) }

  function Segment(last: bool, c: Chunk): (s: seq<Byte>)
    ensures |s| == 4 + |c.data|
  {
    Header(last, c) + c.data
  }

  function Layout(chunks: seq<Chunk>): seq<Byte> {
    if chunks == [] then [] else Segment(false, chunks[0]) + Layout(chunks[1..])
  }

  /** The chain, the reset record included, ends before the 64 KiB a 16-bit address can reach. */
  predicate Fits(chip: Chip, chunks: seq<Chunk>) {
    ChainStart(chip) + |Layout(chunks)| + 5 <= 0x1_0000
  }

  lemma {:induction false} LayoutConcat(a: seq<Chunk>, b: seq<Chunk>)
    ensures Layout(a + b) == Layout(a) + Layout(b)
    decreases |a|
  {
    if a == [] {
      assert a + b == b;
    } else {
      assert (a + b)[0] == a[0] && (a + b)[1..] == a[1..] + b;
      LayoutConcat(a[1..], b);
    }
  }

  lemma LayoutOne(c: Chunk)
    ensures Layout([c]) == Segment(false, c)
  {
    assert [c][1..] == [];
    assert Layout([]) == [];
  }

  // ---- The boot loader's view ----

  /** What a chip that boots from the EEPROM does: initialise memory from the segments, then obey the flagged record. */
  datatype Boot = Boot(segments: seq<Chunk>, final: Chunk) | Garbled

  predicate Present(mem: Memory, at: nat, len: nat) {
    forall a: nat | at <= a < at + len :: a in mem
  }

  function Read(mem: Memory, at: nat, len: nat): (s: seq<Byte>)
    requires Present(mem, at, len)
    ensures |s| == len
  {
    seq(len, i requires 0 <= i < len => mem[at + i])
  }

  function Decode(mem: Memory, at: nat): Boot
    decreases 0x1_0000 - at
  {
    if at + 4 > 0x1_0000 || !Present(mem, at, 4) then Garbled
    else
      var h := Read(mem, at, 4);
      var len := (h[0] as int) % 128 * 256 + h[1] as int;
      if at + 4 + len > 0x1_0000 || !Present(mem, at + 4, len) then Garbled
      else
        var c := Chunk((h[2] as int) * 256 + h[3] as int, Read(mem, at + 4, len));
        if h[0] >= 128 then Boot([], c)
        else
          match Decode(mem, at + 4 + len)
          case Garbled => Garbled
          case Boot(segments, final) => Boot([c] + segments, final)
  }

  ghost predicate Holds(mem: Memory, at: nat, bytes: seq<Byte>) {
    forall a: nat | at <= a < at + |bytes| :: a in mem && mem[a] == bytes[a - at]
  }

  /** A header has room for 15 bits of length and 16 bits of address. */
  predicate Encodable(c: Chunk) { c.addr < 0x1_0000 && |c.data| < 0x8000 }

  lemma HoldsParts(mem: Memory, at: nat, a: seq<Byte>, b: seq<Byte>)
    ensures Holds(mem, at, a + b) <==> Holds(mem, at, a) && Holds(mem, at + |a|, b)
  {
    if Holds(mem, at, a + b) {
      forall x: nat | at <= x < at + |a|
        ensures x in mem && mem[x] == a[x - at]
      {
        assert (a + b)[x - at] == a[x - at];
      }
      forall x: nat | at + |a| <= x < at + |a| + |b| ensures x in mem && mem[x] == b[x - (at + |a|)] {
        assert (a + b)[x - at] == b[x - at - |a|];
      }
    }
  }

  lemma ReadHeld(mem: Memory, at: nat, bytes: seq<Byte>)
    requires Holds(mem, at, bytes)
    ensures Present(mem, at, |bytes|) && Read(mem, at, |bytes|) == bytes
  {}

  /** Length, address and flag come back from a header. */
  lemma HeaderFields(last: bool, c: Chunk)
    requires Encodable(c)
    ensures var h := Header(last, c);
            && (h[0] as int) % 128 * 256 + h[1] as int == |c.data| && (h[2] as int) * 256 + h[3] as int == c.addr
              && (h[0] >= 128 <==> last)
  {}

  lemma DecodeRecord(mem: Memory, at: nat, h: seq<Byte>, data: seq<Byte>)
    requires |h| == 4 && Holds(mem, at, h) && Holds(mem, at + 4, data)
    requires |data| == (h[0] as int) % 128 * 256 + h[1] as int && at + 4 + |data| <= 0x1_0000
    ensures var c := Chunk((h[2] as int) * 256 + h[3] as int, data);
            Decode(mem, at) ==
              if h[0] >= 128 then Boot([], c)
              else match Decode(mem, at + 4 + |data|)
                case Garbled => Garbled
                case Boot(segments, final) => Boot([c] + segments, final)
  {
    hide Holds, Read, Present;
    ReadHeld(mem, at, h);
    ReadHeld(mem, at + 4, data);
  }

  lemma DecodeSegment(mem: Memory, at: nat, last: bool, c: Chunk)
    requires Encodable(c) && Holds(mem, at, Segment(last, c)) && at + |Segment(last, c)| <= 0x1_0000
    ensures Decode(mem, at) ==
      if last then Boot([], c)
      else match Decode(mem, at + |Segment(last, c)|)
        case Garbled => Garbled
        case Boot(segments, final) => Boot([c] + segments, final)
  {
    hide Header, Decode, Holds;
    HoldsParts(mem, at, Header(last, c), c.data);
    HeaderFields(last, c);
    DecodeRecord(mem, at, Header(last, c), c.data);
  }

  /** Round trip: decoding what the layout put there gives back the segments, in order, and the flagged record. */
  lemma {:induction false} DecodeLayout(mem: Memory, at: nat, chunks: seq<Chunk>, final: Chunk)
    requires forall c | c in chunks :: Encodable(c)
    requires Encodable(final)
    requires Holds(mem, at, Layout(chunks) + Segment(true, final))
    requires at + |Layout(chunks) + Segment(true, final)| <= 0x1_0000
    ensures Decode(mem, at) == Boot(chunks, final)
    decreases |chunks|
  {
    hide Decode, Segment;
    var tail := Segment(true, final);
    if chunks == [] {
      assert Layout(chunks) + tail == tail;
      DecodeSegment(mem, at, true, final);
    } else {
      var head := Segment(false, chunks[0]);
      assert Layout(chunks) + tail == head + (Layout(chunks[1..]) + tail);
      HoldsParts(mem, at, head, Layout(chunks[1..]) + tail);
      assert chunks[0] in chunks;
      assert forall c | c in chunks[1..] :: c in chunks;
      DecodeLayout(mem, at + |head|, chunks[1..], final);
      DecodeSegment(mem, at, false, chunks[0]);
      assert [chunks[0]] + chunks[1..] == chunks;
    }
  }

  // ---- Writing ----

  ghost predicate Unbootable(mem: Memory) { 0 in mem && mem[0] == 0 }

  /** Nothing outside [lo, hi) differs. */
  ghost predicate AgreeOutside(a: Memory, b: Memory, lo: nat, hi: nat) {
    forall x: nat | x < lo || hi <= x :: (x in a <==> x in b) && (x in a ==> a[x] == b[x])
  }

  lemma HoldsElsewhere(a: Memory, b: Memory, lo: nat, hi: nat, at: nat, bytes: seq<Byte>)
    requires AgreeOutside(a, b, lo, hi) && Holds(b, at, bytes) && (hi <= at || at + |bytes| <= lo)
    ensures Holds(a, at, bytes)
  {}

  lemma RequestWrites(io: nat -> Io, e: Eeprom, addr: nat, data: seq<Byte>)
    requires addr + |data| <= 0x1_0000 && addr < 0x1_0000
    ensures var (n, ok) := EeRequest(io, e, addr, data);
            && n == e.(mem := n.mem, requests := e.requests + 1, trace := e.trace + [n.mem], cut := n.cut)
            && AgreeOutside(n.mem, e.mem, addr, addr + |data|)
            && (ok && Honest(io, e.requests) ==> Holds(n.mem, addr, data))
  {
    assert data[..|data|] == data;
  }

  /** Since `from`, every state the EEPROM went through was marked as unbootable. */
  ghost predicate Quiet(from: seq<Memory>, trace: seq<Memory>) {
    from <= trace && forall k | |from| <= k < |trace| :: Unbootable(trace[k])
  }

  lemma QuietStep(from: seq<Memory>, trace: seq<Memory>, mem: Memory)
    requires Quiet(from, trace) && Unbootable(mem)
    ensures Quiet(from, trace + [mem])
  {}

  /** One poke writes a segment at the next free address and nothing else; a failed one writes nothing else either. */
  lemma PokeWritesSegment(io: nat -> Io, e: Eeprom, external: bool, c: Chunk)
    requires Unbootable(e.mem)
    requires 0 < e.eeAddr && c.data != [] && e.eeAddr + 4 + |c.data| <= 0x1_0000
    ensures var (n, rc) := EepromPoke(io, e, external, c);
            && n.last == e.last && Quiet(e.trace, n.trace) && Unbootable(n.mem)
            && AgreeOutside(n.mem, e.mem, e.eeAddr, e.eeAddr + 4 + |c.data|)
            && (rc >= 0 ==>
                  && !external && n.eeAddr == (e.eeAddr + 4 + |c.data|) % 0x1_0000
                  && (NoShort(io) ==> Holds(n.mem, e.eeAddr, Segment(e.last, c))))
  {
    hide EeRequest, Header, Holds;
    if !external && |c.data| <= 1023 {
      var h := Header(e.last, c);
      assert NoShort(io) ==> Honest(io, e.requests) && Honest(io, e.requests + 1);
      RequestWrites(io, e, e.eeAddr, h);
      var (e1, ok1) := EeRequest(io, e, e.eeAddr, h);
      QuietStep(e.trace, e.trace, e1.mem);
      if ok1 {
        RequestWrites(io, e1, e.eeAddr + 4, c.data);
        var (e2, ok2) := EeRequest(io, e1, e.eeAddr + 4, c.data);
        QuietStep(e.trace, e1.trace, e2.mem);
        if ok2 && NoShort(io) {
          HoldsElsewhere(e2.mem, e1.mem, e.eeAddr + 4, e.eeAddr + 4 + |c.data|, e.eeAddr, h);
        }
        HoldsParts(e2.mem, e.eeAddr, h, c.data);
      }
    }
  }

  /** The chain so far, and the next free address behind it. */
  ghost predicate Written(chip: Chip, e: Eeprom, chunks: seq<Chunk>) {
    && Unbootable(e.mem)
    && e.eeAddr == ChainStart(chip) + |Layout(chunks)| < 0x1_0000
    && Holds(e.mem, ChainStart(chip), Layout(chunks))
  }

  lemma PokeExtendsChain(io: nat -> Io, chip: Chip, e: Eeprom, done: seq<Chunk>, external: bool, c: Chunk)
    requires NoShort(io) && !e.last && Written(chip, e, done) && c.data != [] && Fits(chip, done + [c])
    ensures var (n, rc) := EepromPoke(io, e, external, c);
            && !n.last && Quiet(e.trace, n.trace) && Unbootable(n.mem)
            && (rc >= 0 ==> !external && Written(chip, n, done + [c]))
  {
    hide EepromPoke, Layout;
    LayoutConcat(done, [c]);
    LayoutOne(c);
    PokeWritesSegment(io, e, external, c);
    var (n, rc) := EepromPoke(io, e, external, c);
    HoldsElsewhere(n.mem, e.mem, e.eeAddr, e.eeAddr + 4 + |c.data|, ChainStart(chip), Layout(done));
    HoldsParts(n.mem, ChainStart(chip), Layout(done), Segment(false, c));
  }

  ghost predicate NonEmpty(chunks: seq<Chunk>) {
    forall c | c in chunks :: c.data != []
  }

  lemma FitsPrefix(chip: Chip, a: seq<Chunk>, b: seq<Chunk>)
    requires Fits(chip, a + b)
    ensures Fits(chip, a)
  {
    LayoutConcat(a, b);
  }

  /** Whatever happens while the image is written, the EEPROM stays unbootable; if all went well, the chain is there. */
  lemma {:induction false} DeliverWrites(io: nat -> Io, chip: Chip, e: Eeprom, done: seq<Chunk>, chunks: seq<Chunk>)
    requires NoShort(io) && !e.last && Written(chip, e, done) && NonEmpty(chunks) && Fits(chip, done + chunks)
    ensures Deliver(io, chip, ToEeprom(e), chunks).0.ToEeprom?
    ensures var (s, ok) := Deliver(io, chip, ToEeprom(e), chunks);
            && Quiet(e.trace, s.eeprom.trace) && Unbootable(s.eeprom.mem)
            && (ok ==> Written(chip, s.eeprom, done + chunks) && forall c | c in chunks :: !IsExternal(chip, c))
    decreases |chunks|
  {
    hide EepromPoke, External, Layout, Holds;
    if chunks == [] {
      assert done + chunks == done;
    } else {
      var c, rest := chunks[0], chunks[1..];
      var (n, rc) := EepromPoke(io, e, External(chip, c.addr, |c.data|), c);
      assert c in chunks && forall x | x in rest :: x in chunks;
      assert (done + [c]) + rest == done + chunks;
      FitsPrefix(chip, done + [c], rest);
      PokeExtendsChain(io, chip, e, done, External(chip, c.addr, |c.data|), c);
      assert Poke(io, ToEeprom(e), External(chip, c.addr, |c.data|), c) == (ToEeprom(n), rc);
      if rc >= 0 {
        DeliverWrites(io, chip, n, done + [c], rest);
      }
    }
  }

  // ---- The whole load ----

  /** The bytes behind the image: the flagged reset record, the configuration bytes, and last the type byte. */
  function Complete(io: nat -> Io, chip: Chip, config: int, e: Eeprom): (Eeprom, Status) {
    var (e1, rc) := EepromPoke(io, e.(last := true), false, Reset(chip));
    if rc < 0 then (e1, Code(rc))
    else
      var (e2, ok2) := if chip.An21? then (e1, true) else EeRequest(io, e1, 7, [ConfigByte(chip, config)]);
      if !ok2 then (e2, Code(-1))
      else
        var (e3, ok3) := if chip.Fx? then EeRequest(io, e2, 8, [0]) else (e2, true);
        if !ok3 then (e3, Code(-1))
        else
          var (e4, ok4) := EeRequest(io, e3, 0, [FirstByte(chip)]);
          (e4, Code(if ok4 then 0 else -1))
  }

  /** `large` is whether the second-stage loader reported a large EEPROM. */
  function LoadEeprom(io: nat -> Io, chip: Chip, large: bool, config: int, lines: seq<Line>,
      e: Eeprom): (Eeprom, Status)
  {
    if !large then (e, Code(-1))
    else
      var (e1, marked) := EeRequest(io, e.(eeAddr := ChainStart(chip)), 0, [0]);
      if !marked then (e1, Code(-1))
      else
        var (s, status) := ParseInto(io, chip, ToEeprom(e1.(last := false)), lines);
        if s.ToRam? then (e1, Open)
        else if status.Open? || status.rc < 0 then (s.eeprom, status)
        else Complete(io, chip, config, s.eeprom)
  }

  /** Ready to boot: type byte, configuration, and a chain that decodes to the image and the reset record. */
  ghost predicate Bootable(chip: Chip, config: int, chunks: seq<Chunk>, mem: Memory) {
    && Holds(mem, 0, [FirstByte(chip)])
    && (!chip.An21? ==> Holds(mem, 7, [ConfigByte(chip, config)]))
    && (chip.Fx? ==> Holds(mem, 8, [0]))
    && Decode(mem, ChainStart(chip)) == Boot(chunks, Reset(chip))
  }

  /** What a chip that finds the EEPROM ready to boot reads there, cell by cell. */
  lemma BootableCells(chip: Chip, config: int, chunks: seq<Chunk>, mem: Memory)
    requires Bootable(chip, config, chunks, mem)
    ensures 0 in mem && mem[0] == (match chip case An21 => 0xB2 case Fx => 0xB6 case Fx2 => 0xC2 case Fx2lp => 0xC2)
    ensures !chip.An21? ==> 7 in mem && forall k: nat ::
        HasBit(mem[7], k) <==> HasBit(config % 256, k) && HasBit(if chip.Fx? then 0x07 else 0x4f, k)
    ensures chip.Fx? ==> 8 in mem && mem[8] == 0
    ensures Decode(mem, match chip case An21 => 7 case Fx => 9 case Fx2 => 8 case Fx2lp => 8)
        == Boot(chunks, Chunk(if chip.An21? || chip.Fx? then 0x7f92 else 0xe600, [0]))
  {
    hide Decode, HasBit, BitAnd;
    if !chip.An21? {
      forall k: nat ensures
        HasBit(mem[7], k) <==> HasBit(config % 256, k) && HasBit(if chip.Fx? then 0x07 else 0x4f, k)
      {
        BitAndIsBitwise(config % 256, if chip.Fx? then 0x07 else 0x4f, k);
      }
    }
  }

  /** As Bootable, but with the chain laid out and the type byte still zero. */
  ghost predicate Configured(chip: Chip, config: int, chunks: seq<Chunk>, mem: Memory) {
    && Unbootable(mem)
    && (!chip.An21? ==> Holds(mem, 7, [ConfigByte(chip, config)]))
    && (chip.Fx? ==> Holds(mem, 8, [0]))
    && Holds(mem, ChainStart(chip), Layout(chunks) + Segment(true, Reset(chip)))
  }

  /** A change of the type byte, complete or not, leaves the EEPROM either unbootable or ready to boot. */
  lemma TypeByteDecides(chip: Chip, config: int, chunks: seq<Chunk>, before: Memory, after: Memory)
    requires Configured(chip, config, chunks, before) && AgreeOutside(after, before, 0, 1)
    requires Holds(after, 0, [FirstByte(chip)]) || after == before
    requires Fits(chip, chunks) && forall c | c in chunks :: Encodable(c)
    ensures Unbootable(after) || Bootable(chip, config, chunks, after)
    ensures Holds(after, 0, [FirstByte(chip)]) ==> Bootable(chip, config, chunks, after)
  {
    hide Decode, Layout, Segment;
    if Holds(after, 0, [FirstByte(chip)]) {
      var chain := Layout(chunks) + Segment(true, Reset(chip));
      HoldsElsewhere(after, before, 0, 1, ChainStart(chip), chain);
      DecodeLayout(after, ChainStart(chip), chunks, Reset(chip));
      if !chip.An21? { HoldsElsewhere(after, before, 0, 1, 7, [ConfigByte(chip, config)]); }
      if chip.Fx? { HoldsElsewhere(after, before, 0, 1, 8, [0]); }
    }
  }

  /** The last record and the configuration bytes, each written or the load is over and the EEPROM unbootable. */
  lemma ResetCompletesChain(io: nat -> Io, chip: Chip, e: Eeprom, chunks: seq<Chunk>)
    requires NoShort(io) && Written(chip, e, chunks) && Fits(chip, chunks)
    ensures var (n, rc) := EepromPoke(io, e.(last := true), false, Reset(chip));
            && Quiet(e.trace, n.trace) && Unbootable(n.mem)
            && (rc >= 0 ==> Holds(n.mem, ChainStart(chip), Layout(chunks) + Segment(true, Reset(chip))))
  {
    hide EepromPoke, Layout, Segment;
    var f := e.(last := true);
    PokeWritesSegment(io, f, false, Reset(chip));
    var (n, rc) := EepromPoke(io, f, false, Reset(chip));
    if rc >= 0 {
      HoldsElsewhere(n.mem, e.mem, e.eeAddr, e.eeAddr + 5, ChainStart(chip), Layout(chunks));
      HoldsParts(n.mem, ChainStart(chip), Layout(chunks), Segment(true, Reset(chip)));
    }
  }

  /** One configuration byte between the type byte and the chain. */
  lemma ConfigStep(io: nat -> Io, chip: Chip, e: Eeprom, addr: nat, b: Byte, chain: seq<Byte>)
    requires NoShort(io) && Unbootable(e.mem) && 0 < addr < ChainStart(chip) && Holds(e.mem, ChainStart(chip), chain)
    ensures var (n, ok) := EeRequest(io, e, addr, [b]);
            && Quiet(e.trace, n.trace) && Unbootable(n.mem) && Holds(n.mem, ChainStart(chip), chain)
            && AgreeOutside(n.mem, e.mem, addr, addr + 1)
            && (ok ==> Holds(n.mem, addr, [b]))
  {
    hide EeRequest;
    assert Honest(io, e.requests);
    RequestWrites(io, e, addr, [b]);
    var (n, ok) := EeRequest(io, e, addr, [b]);
    QuietStep(e.trace, e.trace, n.mem);
    HoldsElsewhere(n.mem, e.mem, addr, addr + 1, ChainStart(chip), chain);
  }

  /** States of the EEPROM that are safe to lose power in. */
  ghost predicate Safe(chip: Chip, config: int, chunks: seq<Chunk>, mem: Memory) {
    Unbootable(mem) || Bootable(chip, config, chunks, mem)
  }

  ghost predicate SafeSince(chip: Chip, config: int, chunks: seq<Chunk>, from: seq<Memory>, trace: seq<Memory>) {
    from <= trace && forall k | |from| <= k < |trace| :: Safe(chip, config, chunks, trace[k])
  }

  lemma TypeByteWritten(io: nat -> Io, chip: Chip, config: int, e: Eeprom, chunks: seq<Chunk>, from: seq<Memory>)
    requires NoShort(io) && Configured(chip, config, chunks, e.mem) && Quiet(from, e.trace)
    requires Fits(chip, chunks) && forall c | c in chunks :: Encodable(c)
    ensures var (n, ok) := EeRequest(io, e, 0, [FirstByte(chip)]);
            && SafeSince(chip, config, chunks, from, n.trace)
            && (ok ==> Bootable(chip, config, chunks, n.mem))
  {
    hide Bootable, Configured, Fits;
    var b := FirstByte(chip);
    var (n, ok) := EeRequest(io, e, 0, [b]);
    assert Honest(io, e.requests);
    RequestWrites(io, e, 0, [b]);
    assert n.mem == e.mem || Holds(n.mem, 0, [b]) by {
      var k := io(e.requests).Stored(1);
      assert k == 0 || k == 1;
      assert [b][..0] == [] && [b][..1] == [b];
    }
    TypeByteDecides(chip, config, chunks, e.mem, n.mem);
    assert n.trace == e.trace + [n.mem];
  }

  lemma CompleteIsSafe(io: nat -> Io, chip: Chip, config: int, e: Eeprom, chunks: seq<Chunk>)
    requires NoShort(io) && Written(chip, e, chunks) && Fits(chip, chunks) && forall c | c in chunks :: Encodable(c)
    ensures var (n, status) := Complete(io, chip, config, e);
            && SafeSince(chip, config, chunks, e.trace, n.trace)
            && (status == Code(0) ==> Bootable(chip, config, chunks, n.mem))
            && status.Code? && status.rc <= 0
  {
    hide EepromPoke, EeRequest, Layout, Segment, Bootable, Holds, ConfigByte;
    var (e1, rc) := EepromPoke(io, e.(last := true), false, Reset(chip));
    ResetCompletesChain(io, chip, e, chunks);
    if rc >= 0 {
      ConfigIsSafe(io, chip, config, e1, chunks, e.trace);
    }
  }

  /** What follows the reset record. */
  lemma ConfigIsSafe(io: nat -> Io, chip: Chip, config: int, e1: Eeprom, chunks: seq<Chunk>, from: seq<Memory>)
    requires NoShort(io) && Unbootable(e1.mem) && Quiet(from, e1.trace)
    requires Holds(e1.mem, ChainStart(chip), Layout(chunks) + Segment(true, Reset(chip)))
    requires Fits(chip, chunks) && forall c | c in chunks :: Encodable(c)
    ensures var (e2, ok2) := if chip.An21? then (e1, true) else EeRequest(io, e1, 7, [ConfigByte(chip, config)]);
            var (e3, ok3) := if chip.Fx? then EeRequest(io, e2, 8, [0]) else (e2, true);
            var (e4, ok4) := EeRequest(io, e3, 0, [FirstByte(chip)]);
            && (!ok2 ==> SafeSince(chip, config, chunks, from, e2.trace))
            && (ok2 && !ok3 ==> SafeSince(chip, config, chunks, from, e3.trace))
            && (ok2 && ok3 ==>
              SafeSince(chip, config, chunks, from, e4.trace) && (ok4 ==> Bootable(chip, config, chunks, e4.mem)))
  {
    hide EeRequest, Layout, Segment, Bootable, Fits, ConfigByte;
    var chain := Layout(chunks) + Segment(true, Reset(chip));
    var b := ConfigByte(chip, config);
    var (e2, ok2) := if chip.An21? then (e1, true) else EeRequest(io, e1, 7, [b]);
    if !chip.An21? {
      ConfigStep(io, chip, e1, 7, b, chain);
    }
    var (e3, ok3) := if chip.Fx? then EeRequest(io, e2, 8, [0]) else (e2, true);
    if chip.Fx? {
      ConfigStep(io, chip, e2, 8, 0, chain);
      if ok2 { HoldsElsewhere(e3.mem, e2.mem, 8, 9, 7, [b]); }
    }
    if ok2 && ok3 { TypeByteWritten(io, chip, config, e3, chunks, from); }
  }

  lemma OnChipEncodable(chip: Chip, c: Chunk)
    requires 0 < |c.data| <= LIMIT && !IsExternal(chip, c)
    ensures Encodable(c)
  {}

  lemma {:induction false} StaysEeprom(io: nat -> Io, chip: Chip, e: Eeprom, chunks: seq<Chunk>)
    ensures Deliver(io, chip, ToEeprom(e), chunks).0.ToEeprom?
    decreases |chunks|
  {
    if chunks != [] {
      var (n, rc) := EepromPoke(io, e, IsExternal(chip, chunks[0]), chunks[0]);
      if rc >= 0 { StaysEeprom(io, chip, n, chunks[1..]); }
    }
  }

  /** The first write marks the EEPROM, or the load ends with it. */
  lemma MarkFirst(io: nat -> Io, chip: Chip, e: Eeprom)
    requires NoShort(io)
    ensures var (n, ok) := EeRequest(io, e.(eeAddr := ChainStart(chip)), 0, [0]);
            && n.trace == e.trace + [n.mem] && ((!ok && n.mem == e.mem) || Unbootable(n.mem))
            && (ok ==> Written(chip, n.(last := false), []))
  {
    assert Honest(io, e.requests);
    var f := e.(eeAddr := ChainStart(chip));
    RequestWrites(io, f, 0, [0]);
    var k := io(e.requests).Stored(1);
    assert k == 0 || k == 1;
    assert [0][..0] == [] && [0][..1] == [0];
  }

  /**
   * Main theorem: whichever request fails, and whatever a failed request stored, every state the EEPROM passes
   * through has type byte 0, or boots the complete image; the one exception is a first request that fails, changes
   * nothing and ends the load. A load that returns 0 leaves the complete image.
   */
  lemma CrashSafe(io: nat -> Io, chip: Chip, config: int, lines: seq<Line>, e: Eeprom)
    requires NoShort(io) && WellSized(lines) && Fits(chip, Parse(lines).out)
    ensures var (n, status) := LoadEeprom(io, chip, true, config, lines, e); var out := Parse(lines).out;
            && ((io(e.requests).Failed? && n.trace == e.trace + [e.mem])
              || SafeSince(chip, config, out, e.trace, n.trace))
            && (status == Code(0) ==> Bootable(chip, config, out, n.mem) && forall c | c in out :: !IsExternal(chip, c))
  {
    hide Deliver, EeRequest, Complete, Bootable, Fits, Written, Parse;
    var out := Parse(lines).out;
    MarkFirst(io, chip, e);
    var (e1, marked) := EeRequest(io, e.(eeAddr := ChainStart(chip)), 0, [0]);
    if marked {
      var f := e1.(last := false);
      ChunkSizes(lines);
      assert [] + out == out;
      QuietStep(e.trace, e.trace, e1.mem);
      DeliverWrites(io, chip, f, [], out);
      var (s, ok) := Deliver(io, chip, ToEeprom(f), out);
      if ok {
        forall c | c in out ensures Encodable(c) { OnChipEncodable(chip, c); }
        CompleteIsSafe(io, chip, config, s.eeprom, out);
      }
    } else {
      FirstFailed(io, chip, e);
    }
  }

  lemma FirstFailed(io: nat -> Io, chip: Chip, e: Eeprom)
    ensures EeRequest(io, e.(eeAddr := ChainStart(chip)), 0, [0]).1 <==> !io(e.requests).Failed?
  {}

  /**
   * Main theorem: after a load that returns 0, a chip that boots from the EEPROM ends up with the records' bytes at
   * the records' addresses, and its CPU control register at 0.
   */
  lemma BootLoadsImage(io: nat -> Io, chip: Chip, config: int, lines: seq<Line>, e: Eeprom, ram: Memory)
    requires NoShort(io) && WellSized(lines) && Anchored(lines, true, 0, true)
    ensures var (n, status) := LoadEeprom(io, chip, true, config, lines, e);
            var boot := Decode(n.mem, ChainStart(chip));
            Fits(chip, Parse(lines).out) && status == Code(0) ==>
              && boot.Boot?
              && ApplyChunks(ram, boot.segments + [boot.final]) ==
                ApplyWrites(ram, RecordWrites(lines) + [(CpuControl(chip), 0)])
  {
    hide Decode, LoadEeprom, ApplyChunks, ApplyWrites, Store, Fits, Parse;
    var out := Parse(lines).out;
    if Fits(chip, out) && LoadEeprom(io, chip, true, config, lines, e).1 == Code(0) {
      CrashSafe(io, chip, config, lines, e);
      SuccessParses(io, chip, config, lines, e);
      MergingPreservesMeaning(lines);
      ChunksSnoc(ram, out, Reset(chip));
      ChunksApplyWrites(ram, out);
      StoreAppliesWrites(ApplyChunks(ram, out), CpuControl(chip), [0]);
      ApplyConcat(ram, RecordWrites(lines), Writes(CpuControl(chip), [0]));
      assert Writes(CpuControl(chip), [0]) == [(CpuControl(chip), 0)];
    }
  }

  lemma SuccessParses(io: nat -> Io, chip: Chip, config: int, lines: seq<Line>, e: Eeprom)
    requires LoadEeprom(io, chip, true, config, lines, e).1 == Code(0)
    ensures Parse(lines).status == Code(0)
  {
    hide Deliver, EeRequest, Complete, Parse;
    ReturnCodes(lines);
    var (e1, marked) := EeRequest(io, e.(eeAddr := ChainStart(chip)), 0, [0]);
    StaysEeprom(io, chip, e1.(last := false), Parse(lines).out);
  }

  // ---- When the load succeeds ----

  /** No request is reported as failed; a request may still be cut short without the loader noticing. */
  ghost predicate NoFailure(io: nat -> Io) {
    forall k: nat :: Accepted(io, k)
  }

  predicate Accepted(io: nat -> Io, k: nat) { !io(k).Failed? }

  lemma {:induction false} DeliverAccepted(io: nat -> Io, chip: Chip, e: Eeprom, chunks: seq<Chunk>)
    requires NoFailure(io) && forall c | c in chunks :: 0 < |c.data| <= LIMIT
    ensures Deliver(io, chip, ToEeprom(e), chunks).1 <==> forall c | c in chunks :: !IsExternal(chip, c)
    decreases |chunks|
  {
    if chunks != [] {
      var c, rest := chunks[0], chunks[1..];
      assert c in chunks && forall x | x in rest :: x in chunks;
      PokeAccepted(io, e, IsExternal(chip, c), c);
      var (n, rc) := EepromPoke(io, e, IsExternal(chip, c), c);
      assert Poke(io, ToEeprom(e), External(chip, c.addr, |c.data|), c) == (ToEeprom(n), rc);
      if rc >= 0 {
        DeliverAccepted(io, chip, n, rest);
        assert forall x | x in chunks :: x == c || x in rest;
      }
    }
  }

  lemma PokeAccepted(io: nat -> Io, e: Eeprom, external: bool, c: Chunk)
    requires NoFailure(io)
    ensures EepromPoke(io, e, external, c).1 == if external then -EINVAL else if |c.data| > 1023 then -EDOM else 0
  {
    assert Accepted(io, e.requests) && Accepted(io, e.requests + 1);
  }

  lemma CompleteAccepted(io: nat -> Io, chip: Chip, config: int, e: Eeprom)
    requires NoFailure(io)
    ensures Complete(io, chip, config, e).1 == Code(0)
  {
    PokeAccepted(io, e.(last := true), false, Reset(chip));
    forall f: Eeprom, a: nat, b: seq<Byte> ensures EeRequest(io, f, a, b).1 { assert Accepted(io, f.requests); }
  }

  /**
   * With no request reported as failed, the load returns 0 exactly when the EEPROM is large, the file parses and no
   * chunk needs external memory. The 64 KiB the EEPROM offers are not among the conditions.
   */
  lemma SucceedsIff(io: nat -> Io, chip: Chip, large: bool, config: int, lines: seq<Line>, e: Eeprom)
    requires NoFailure(io) && WellSized(lines)
    ensures LoadEeprom(io, chip, large, config, lines, e).1 == Code(0) <==>
            large && Parse(lines).status == Code(0) && forall c | c in Parse(lines).out :: !IsExternal(chip, c)
  {
    hide Deliver, EeRequest, Complete, Parse;
    if large {
      assert Accepted(io, e.requests);
      MarkAccepted(io, chip, e);
      var e1 := EeRequest(io, e.(eeAddr := ChainStart(chip)), 0, [0]).0;
      var f := e1.(last := false);
      ReturnCodes(lines);
      ChunkSizes(lines);
      StaysEeprom(io, chip, f, Parse(lines).out);
      DeliverAccepted(io, chip, f, Parse(lines).out);
      CompleteAccepted(io, chip, config, Deliver(io, chip, ToEeprom(f), Parse(lines).out).0.eeprom);
    }
  }

  lemma MarkAccepted(io: nat -> Io, chip: Chip, e: Eeprom)
    requires Accepted(io, e.requests)
    ensures EeRequest(io, e.(eeAddr := ChainStart(chip)), 0, [0]).1
  {}

  /** A device that stores nothing but returns no error: every poke succeeds, and the memory is as before. */
  lemma {:induction false} DeliverToNowhere(io: nat -> Io, chip: Chip, e: Eeprom, chunks: seq<Chunk>)
    requires forall k: nat :: io(k) == Short(0)
    ensures Deliver(io, chip, ToEeprom(e), chunks).0.ToEeprom?
        && Deliver(io, chip, ToEeprom(e), chunks).0.eeprom.mem == e.mem
    decreases |chunks|
  {
    if chunks != [] {
      var c := chunks[0];
      var (n, rc) := EepromPoke(io, e, IsExternal(chip, c), c);
      assert c.data[..0] == [] && Header(e.last, c)[..0] == [];
      assert Poke(io, ToEeprom(e), External(chip, c.addr, |c.data|), c) == (ToEeprom(n), rc);
      if rc >= 0 { DeliverToNowhere(io, chip, n, chunks[1..]); }
    }
  }

  /** Short writes go unnoticed: the load returns 0 although the EEPROM has not changed. */
  lemma ShortWritesGoUnnoticed(io: nat -> Io, chip: Chip, config: int, lines: seq<Line>, e: Eeprom)
    requires forall k: nat :: io(k) == Short(0)
    requires WellSized(lines) && Parse(lines).status == Code(0)
        && forall c | c in Parse(lines).out :: !IsExternal(chip, c)
    ensures var (n, status) := LoadEeprom(io, chip, true, config, lines, e); status == Code(0) && n.mem == e.mem
  {
    hide Deliver, Parse, External;
    assert forall k: nat :: Accepted(io, k);
    SucceedsIff(io, chip, true, config, lines, e);
    var e1 := EeRequest(io, e.(eeAddr := ChainStart(chip)), 0, [0]).0;
    assert [0][..0] == [];
    DeliverToNowhere(io, chip, e1.(last := false), Parse(lines).out);
  }

  /** From text to a booted chip: a file of non-empty records, loaded with result 0, is what the chip boots into. */
  lemma TextToBoot(io: nat -> Io, chip: Chip, config: int, items: seq<Item>, e: Eeprom, ram: Memory)
    requires NoShort(io)
    requires forall i | i in items :: Printable(i) && FitsLine(i) && (i.Record? ==> i.bytes != [])
    ensures var lines := ParseLines(Lines(FileText(items)));
            var (n, status) := LoadEeprom(io, chip, true, config, lines, e);
            var boot := Decode(n.mem, ChainStart(chip));
            Fits(chip, Parse(lines).out) && status == Code(0) ==>
              && boot.Boot?
              && ApplyChunks(ram, boot.segments + [boot.final]) ==
                ApplyWrites(ram, ItemWrites(items) + [(CpuControl(chip), 0)])
  {
    hide Decode, LoadEeprom, ApplyChunks, ApplyWrites, Fits, Parse;
    var lines := LinesOf(items);
    ReadsBackFile(items);
    LinesOfFacts(items, HexRecords.Start());
    TextRoundTrip(items);
    NonEmptyIsAnchored(lines, true, 0, true);
    BootLoadsImage(io, chip, config, lines, e, ram);
  }

  // ---- The method ----

  /** One EEPROM write request of ezusb_load_eeprom itself. */
  method RequestCall(p: Programmer, io: nat -> Io, addr: nat, data: seq<Byte>) returns (ok: bool)
    requires p.sink.ToEeprom?
    modifies p
    ensures p.sink.ToEeprom? && (p.sink.eeprom, ok) == EeRequest(io, old(p.sink.eeprom), addr, data)
  {
    var (e, accepted) := EeRequest(io, p.sink.eeprom, addr, data);
    p.sink := ToEeprom(e);
    ok := accepted;
  }

  /** ezusb_load_eeprom. */
  method LoadEepromCall(p: Programmer, io: nat -> Io, chip: Chip, large: bool, config: int, lines: seq<Line>)
      returns (status: Status)
    requires p.sink.ToEeprom? && WellSized(lines)
    modifies p
    ensures p.sink.ToEeprom?
        && (p.sink.eeprom, status) == LoadEeprom(io, chip, large, config, lines, old(p.sink.eeprom))
  {
    hide Deliver, EeRequest, EepromPoke, Parse;
    if !large { return Code(-1); }
    p.sink := ToEeprom(p.sink.eeprom.(eeAddr := ChainStart(chip)));
    var ok := RequestCall(p, io, 0, [0]);
    if !ok { return Code(-1); }
    p.sink := ToEeprom(p.sink.eeprom.(last := false));
    StaysEeprom(io, chip, p.sink.eeprom, Parse(lines).out);
    status := p.ParseIhex(io, chip, lines);
    if status.Open? || status.rc < 0 { return; }
    p.sink := ToEeprom(p.sink.eeprom.(last := true));
    var rc := p.EepromPokeCall(io, false, Reset(chip));
    if rc < 0 { return Code(rc); }
    if !chip.An21? {
      ok := RequestCall(p, io, 7, [ConfigByte(chip, config)]);
      if !ok { return Code(-1); }
    }
    if chip.Fx? {
      ok := RequestCall(p, io, 8, [0]);
      if !ok { return Code(-1); }
    }
    ok := RequestCall(p, io, 0, [FirstByte(chip)]);
    status := Code(if ok then 0 else -1);
  }
}
