/** The exact conditions of ezusb_load_eeprom: 64 KiB for crash safety, and whole writes for a complete image. */
module EepromExact {
  import opened HexRecords
  import opened Chips
  import opened Loader
  import opened RamLoad
  import opened EepromLoad

  // ---- Room ----

  function HeaderLength(h: seq<Byte>): nat
    requires |h| == 4
  {
    (h[0] as int) % 128 * 256 + h[1] as int
  }

  function HeaderAddr(h: seq<Byte>): nat
    requires |h| == 4
  {
    (h[2] as int) * 256 + h[3] as int
  }

  /** The first record of a chain, as it is read. */
  lemma FirstRecord(mem: Memory, at: nat)
    requires Decode(mem, at).Boot?
    ensures at + 4 <= 0x1_0000 && Present(mem, at, 4)
    ensures var h := Read(mem, at, 4); var len := HeaderLength(h);
            && at + 4 + len <= 0x1_0000 && Present(mem, at + 4, len)
            && var c, rest := Chunk(HeaderAddr(h), Read(mem, at + 4, len)), Decode(mem, at + 4 + len);
            && (h[0] < 128 <==> Decode(mem, at).segments != [])
            && (h[0] >= 128 ==> Decode(mem, at) == Boot([], c))
            && (h[0] < 128 ==>
                  && rest.Boot? && Decode(mem, at) == Boot([c] + rest.segments, rest.final)
                  && Decode(mem, at).segments[0] == c && Decode(mem, at).segments[1..] == rest.segments)
  {
    var h := Read(mem, at, 4);
    if h[0] < 128 {
      var c, rest := Chunk(HeaderAddr(h), Read(mem, at + 4, HeaderLength(h))), Decode(mem, at + 4 + HeaderLength(h));
      assert ([c] + rest.segments)[1..] == rest.segments;
    }
  }

  lemma PresentJoins(mem: Memory, at: nat, a: nat, b: nat)
    requires Present(mem, at, a) && Present(mem, at + a, b)
    ensures Present(mem, at, a + b)
  {}

  lemma LayoutLength(chunks: seq<Chunk>)
    ensures |Layout(chunks)| == if chunks == [] then 0 else 4 + |chunks[0].data| + |Layout(chunks[1..])|
  {}

  /** A chain that can be decoded ends within 64 KiB, and all its cells are known. */
  lemma {:induction false} DecodeEnds(mem: Memory, at: nat)
    requires Decode(mem, at).Boot?
    ensures var boot := Decode(mem, at); var len := |Layout(boot.segments)| + 4 + |boot.final.data|;
            at + len <= 0x1_0000 && Present(mem, at, len)
    decreases 0x1_0000 - at
  {
    hide *;
    FirstRecord(mem, at);
    var len, boot := HeaderLength(Read(mem, at, 4)), Decode(mem, at);
    PresentJoins(mem, at, 4, len);
    LayoutLength(boot.segments);
    if Read(mem, at, 4)[0] < 128 {
      DecodeEnds(mem, at + 4 + len);
      PresentJoins(mem, at, 4 + len, |Layout(boot.segments[1..])| + 4 + |boot.final.data|);
    }
  }

  lemma BootableFits(chip: Chip, config: int, chunks: seq<Chunk>, mem: Memory)
    requires Bootable(chip, config, chunks, mem)
    ensures Fits(chip, chunks) && Present(mem, ChainStart(chip), |Layout(chunks)| + 5)
  {
    DecodeEnds(mem, ChainStart(chip));
  }

  // ---- The last request ----

  /** Everything behind the image but the type byte, and whether the load gets to writing that. */
  function Prepare(io: nat -> Io, chip: Chip, config: int, e: Eeprom): (Eeprom, bool) {
    var (e1, rc) := EepromPoke(io, e.(last := true), false, Reset(chip));
    if rc < 0 then (e1, false)
    else
      var (e2, ok2) := if chip.An21? then (e1, true) else EeRequest(io, e1, 7, [ConfigByte(chip, config)]);
      if !ok2 then (e2, false)
      else if chip.Fx? then EeRequest(io, e2, 8, [0]) else (e2, true)
  }

  lemma CompletePrepares(io: nat -> Io, chip: Chip, config: int, e: Eeprom)
    ensures var (f, ready) := Prepare(io, chip, config, e); var (n, status) := Complete(io, chip, config, e);
            && n == (if ready then EeRequest(io, f, 0, [FirstByte(chip)]).0 else f)
            && (status == Code(0) <==> ready && EeRequest(io, f, 0, [FirstByte(chip)]).1)
  {
    hide EepromPoke, EeRequest;
  }

  // ---- The last state ----

  lemma RequestTraces(io: nat -> Io, e: Eeprom, addr: nat, data: seq<Byte>)
    ensures var n := EeRequest(io, e, addr, data).0; n.trace == e.trace + [n.mem]
  {}

  lemma PokeTraces(io: nat -> Io, e: Eeprom, external: bool, c: Chunk)
    ensures e.trace <= EepromPoke(io, e, external, c).0.trace
  {}

  lemma {:induction false} DeliverTraces(io: nat -> Io, chip: Chip, e: Eeprom, chunks: seq<Chunk>)
    ensures Deliver(io, chip, ToEeprom(e), chunks).0.ToEeprom?
    ensures e.trace <= Deliver(io, chip, ToEeprom(e), chunks).0.eeprom.trace
    decreases |chunks|
  {
    if chunks != [] {
      hide EepromPoke;
      var c := chunks[0];
      var (n, rc) := EepromPoke(io, e, IsExternal(chip, c), c);
      PokeTraces(io, e, IsExternal(chip, c), c);
      assert Poke(io, ToEeprom(e), External(chip, c.addr, |c.data|), c) == (ToEeprom(n), rc);
      if rc >= 0 { DeliverTraces(io, chip, n, chunks[1..]); }
    }
  }

  lemma PrepareTraces(io: nat -> Io, chip: Chip, config: int, e: Eeprom)
    ensures e.trace <= Prepare(io, chip, config, e).0.trace
  {
    hide EepromPoke, EeRequest;
    var e1 := EepromPoke(io, e.(last := true), false, Reset(chip)).0;
    PokeTraces(io, e.(last := true), false, Reset(chip));
    RequestTraces(io, e1, 7, [ConfigByte(chip, config)]);
    var e2 := if chip.An21? then e1 else EeRequest(io, e1, 7, [ConfigByte(chip, config)]).0;
    RequestTraces(io, e2, 8, [0]);
  }

  /** After its last request, an accepted load is in the state it ends in, with the type byte in place. */
  lemma CompleteEnds(io: nat -> Io, chip: Chip, config: int, e: Eeprom)
    requires NoShort(io) && Complete(io, chip, config, e).1 == Code(0)
    ensures var n := Complete(io, chip, config, e).0;
            |n.trace| > |e.trace| && n.trace[|n.trace| - 1] == n.mem && 0 in n.mem && n.mem[0] == FirstByte(chip)
  {
    hide Complete, Prepare, EeRequest;
    var f := Prepare(io, chip, config, e).0;
    CompletePrepares(io, chip, config, e);
    PrepareTraces(io, chip, config, e);
    RequestTraces(io, f, 0, [FirstByte(chip)]);
    assert Honest(io, f.requests);
    RequestWrites(io, f, 0, [FirstByte(chip)]);
  }

  lemma LoadEnds(io: nat -> Io, chip: Chip, config: int, lines: seq<Line>, e: Eeprom)
    requires NoShort(io) && LoadEeprom(io, chip, true, config, lines, e).1 == Code(0)
    ensures var n := LoadEeprom(io, chip, true, config, lines, e).0;
            |n.trace| > |e.trace| + 1 && n.trace[|n.trace| - 1] == n.mem && 0 in n.mem && n.mem[0] == FirstByte(chip)
  {
    hide Deliver, EeRequest, Complete, Parse;
    var (e1, marked) := EeRequest(io, e.(eeAddr := ChainStart(chip)), 0, [0]);
    RequestTraces(io, e.(eeAddr := ChainStart(chip)), 0, [0]);
    var f := e1.(last := false);
    DeliverTraces(io, chip, f, Parse(lines).out);
    ReturnCodes(lines);
    var s := Deliver(io, chip, ToEeprom(f), Parse(lines).out).0;
    CompleteEnds(io, chip, config, s.eeprom);
  }

  /**
   * Main theorem: a load that returns 0 has left the complete image, and has gone through safe states only, exactly
   * when the chain ends within 64 KiB.
   */
  lemma SafeIffFits(io: nat -> Io, chip: Chip, config: int, lines: seq<Line>, e: Eeprom)
    requires NoShort(io) && WellSized(lines)
    requires LoadEeprom(io, chip, true, config, lines, e).1 == Code(0)
    ensures var n := LoadEeprom(io, chip, true, config, lines, e).0; var out := Parse(lines).out;
            && (Bootable(chip, config, out, n.mem) <==> Fits(chip, out))
            && (SafeSince(chip, config, out, e.trace, n.trace) <==> Fits(chip, out))
  {
    hide LoadEeprom, Parse, Fits, Bootable;
    var n := LoadEeprom(io, chip, true, config, lines, e).0;
    var out := Parse(lines).out;
    LoadEnds(io, chip, config, lines, e);
    if Fits(chip, out) {
      CrashSafe(io, chip, config, lines, e);
    } else {
      if Bootable(chip, config, out, n.mem) { BootableFits(chip, config, out, n.mem); }
      assert !Safe(chip, config, out, n.trace[|n.trace| - 1]);
    }
  }

  /** Every state is safe, or the first request has failed without changing anything. */
  ghost predicate SafeLoad(io: nat -> Io, chip: Chip, config: int, lines: seq<Line>, e: Eeprom) {
    var n := LoadEeprom(io, chip, true, config, lines, e).0;
    (io(e.requests).Failed? && n.trace == e.trace + [e.mem])
      || SafeSince(chip, config, Parse(lines).out, e.trace, n.trace)
  }

  /** A file the loader accepts can be loaded safely on every device that reports short writes exactly when it fits. */
  lemma SafeOnEveryDeviceIff(chip: Chip, config: int, lines: seq<Line>, e: Eeprom)
    requires WellSized(lines) && Parse(lines).status == Code(0)
        && forall c | c in Parse(lines).out :: !IsExternal(chip, c)
    ensures Fits(chip, Parse(lines).out) <==> forall io: nat -> Io | NoShort(io) :: SafeLoad(io, chip, config, lines, e)
  {
    hide LoadEeprom, Parse, Fits, Bootable, SafeSince, IsExternal;
    if Fits(chip, Parse(lines).out) {
      forall io: nat -> Io | NoShort(io) ensures SafeLoad(io, chip, config, lines, e) {
        CrashSafe(io, chip, config, lines, e);
      }
    } else {
      var io: nat -> Io := _ => Full;
      assert NoShort(io) && NoFailure(io);
      SucceedsIff(io, chip, true, config, lines, e);
      SafeIffFits(io, chip, config, lines, e);
      assert !SafeLoad(io, chip, config, lines, e);
    }
  }

  // ---- Short writes: what a whole device would have done ----

  /** The same device, with every short write made whole. */
  function MadeWhole(io: nat -> Io): (w: nat -> Io)
    ensures forall k: nat :: Honest(w, k)
  {
    (k: nat) => if io(k).Short? then Full else io(k)
  }

  /** The two loads are at the same point, and their EEPROMs differ in cell 0 at most. */
  ghost predicate Alike(a: Eeprom, b: Eeprom) {
    a.eeAddr == b.eeAddr && a.last == b.last && a.requests == b.requests && AgreeOutside(a.mem, b.mem, 0, 1)
  }

  lemma CutGrows(io: nat -> Io, e: Eeprom, addr: nat, data: seq<Byte>)
    ensures EeRequest(io, e, addr, data).0.cut == e.cut + if CutsShort(io, e.requests, |data|) then 1 else 0
  {}

  lemma AlikeRequest(io: nat -> Io, a: Eeprom, b: Eeprom, addr: nat, data: seq<Byte>)
    requires Alike(a, b) && EeRequest(io, a, addr, data).0.cut == a.cut
    ensures var (n, ok) := EeRequest(io, a, addr, data); var (m, ok') := EeRequest(MadeWhole(io), b, addr, data);
            Alike(n, m) && ok == ok' && (ok && addr % 0x1_0000 == 0 && data != [] ==> n.mem == m.mem)
  {
    var k, l := io(a.requests).Stored(|data|), MadeWhole(io)(a.requests).Stored(|data|);
    assert k == l;
    SameStores(a.mem, b.mem, addr % 0x1_0000, data[..k], addr % 0x1_0000 == 0 && data != [] && !io(a.requests).Failed?);
  }

  /** Storing the same bytes keeps two memories alike, and makes them equal if cell 0 is among those stored. */
  lemma SameStores(a: Memory, b: Memory, addr: nat, data: seq<Byte>, first: bool)
    requires AgreeOutside(a, b, 0, 1) && (first ==> addr == 0 && data != [])
    ensures AgreeOutside(Store(a, addr, data), Store(b, addr, data), 0, 1)
    ensures first ==> Store(a, addr, data) == Store(b, addr, data)
  {
    hide Store;
    var x, y := Store(a, addr, data), Store(b, addr, data);
    if first {
      assert x.Keys == y.Keys;
    }
  }

  lemma AlikePoke(io: nat -> Io, a: Eeprom, b: Eeprom, external: bool, c: Chunk)
    requires Alike(a, b)
    ensures EepromPoke(io, a, external, c).0.cut >= a.cut
    ensures EepromPoke(io, a, external, c).0.cut == a.cut ==>
              Alike(EepromPoke(io, a, external, c).0, EepromPoke(MadeWhole(io), b, external, c).0)
              && EepromPoke(io, a, external, c).1 == EepromPoke(MadeWhole(io), b, external, c).1
  {
    hide EeRequest, Header, AgreeOutside, MadeWhole;
    if !external && |c.data| <= 1023 {
      var (a1, ok1) := EeRequest(io, a, a.eeAddr, Header(a.last, c));
      CutGrows(io, a, a.eeAddr, Header(a.last, c));
      CutGrows(io, a1, a.eeAddr + 4, c.data);
      var (b1, ok2) := EeRequest(MadeWhole(io), b, b.eeAddr, Header(b.last, c));
      if EepromPoke(io, a, external, c).0.cut == a.cut {
        AlikeRequest(io, a, b, a.eeAddr, Header(a.last, c));
        if ok1 { AlikeRequest(io, a1, b1, a.eeAddr + 4, c.data); }
      }
    }
  }

  lemma {:induction false} AlikeDeliver(io: nat -> Io, chip: Chip, a: Eeprom, b: Eeprom, chunks: seq<Chunk>)
    requires Alike(a, b)
    ensures var (s, ok) := Deliver(io, chip, ToEeprom(a), chunks);
            var (t, ok') := Deliver(MadeWhole(io), chip, ToEeprom(b), chunks);
            && s.ToEeprom? && t.ToEeprom? && s.eeprom.cut >= a.cut
            && (s.eeprom.cut == a.cut ==> Alike(s.eeprom, t.eeprom) && ok == ok')
    decreases |chunks|
  {
    StaysEeprom(io, chip, a, chunks);
    StaysEeprom(MadeWhole(io), chip, b, chunks);
    hide EepromPoke, Alike, MadeWhole, External;
    if chunks != [] {
      var c := chunks[0];
      AlikePoke(io, a, b, IsExternal(chip, c), c);
      var (n, rc) := EepromPoke(io, a, IsExternal(chip, c), c);
      var (m, rc') := EepromPoke(MadeWhole(io), b, IsExternal(chip, c), c);
      assert Poke(io, ToEeprom(a), External(chip, c.addr, |c.data|), c) == (ToEeprom(n), rc);
      assert Poke(MadeWhole(io), ToEeprom(b), External(chip, c.addr, |c.data|), c) == (ToEeprom(m), rc');
      if rc >= 0 {
        if n.cut == a.cut { AlikeDeliver(io, chip, n, m, chunks[1..]); } else { DeliverCuts(io, chip, n, chunks[1..]); }
      }
    }
  }

  lemma {:induction false} DeliverCuts(io: nat -> Io, chip: Chip, e: Eeprom, chunks: seq<Chunk>)
    ensures Deliver(io, chip, ToEeprom(e), chunks).0.ToEeprom?
    ensures Deliver(io, chip, ToEeprom(e), chunks).0.eeprom.cut >= e.cut
    decreases |chunks|
  {
    StaysEeprom(io, chip, e, chunks);
    hide EepromPoke, External;
    if chunks != [] {
      var c := chunks[0];
      AlikePoke(io, e, e, IsExternal(chip, c), c) by { assert Alike(e, e); }
      var (n, rc) := EepromPoke(io, e, IsExternal(chip, c), c);
      assert Poke(io, ToEeprom(e), External(chip, c.addr, |c.data|), c) == (ToEeprom(n), rc);
      if rc >= 0 { DeliverCuts(io, chip, n, chunks[1..]); }
    }
  }

  lemma AlikePrepare(io: nat -> Io, chip: Chip, config: int, a: Eeprom, b: Eeprom)
    requires Alike(a, b)
    ensures var (f, ready) := Prepare(io, chip, config, a); var (g, ready') := Prepare(MadeWhole(io), chip, config, b);
            f.cut >= a.cut && (f.cut == a.cut ==> Alike(f, g) && ready == ready')
  {
    hide EepromPoke, EeRequest, MadeWhole, AgreeOutside;
    var w, config' := MadeWhole(io), [ConfigByte(chip, config)];
    var (a1, rc) := EepromPoke(io, a.(last := true), false, Reset(chip));
    var b1 := EepromPoke(w, b.(last := true), false, Reset(chip)).0;
    AlikePoke(io, a.(last := true), b.(last := true), false, Reset(chip));
    CutGrows(io, a1, 7, config');
    var (a2, ok2) := if chip.An21? then (a1, true) else EeRequest(io, a1, 7, config');
    CutGrows(io, a2, 8, [0]);
    if Prepare(io, chip, config, a).0.cut == a.cut && rc >= 0 {
      if !chip.An21? { AlikeRequest(io, a1, b1, 7, config'); }
      var b2 := if chip.An21? then b1 else EeRequest(w, b1, 7, config').0;
      if ok2 && chip.Fx? { AlikeRequest(io, a2, b2, 8, [0]); }
    }
  }

  lemma AlikeComplete(io: nat -> Io, chip: Chip, config: int, a: Eeprom, b: Eeprom)
    requires Alike(a, b)
    ensures var (n, status) := Complete(io, chip, config, a);
            && n.cut >= a.cut
            && (n.cut == a.cut && status == Code(0) ==>
                  Complete(MadeWhole(io), chip, config, b).1 == Code(0)
                    && n.mem == Complete(MadeWhole(io), chip, config, b).0.mem)
  {
    hide Complete, Prepare, EeRequest, MadeWhole, AgreeOutside;
    var w, t := MadeWhole(io), [FirstByte(chip)];
    CompletePrepares(io, chip, config, a);
    CompletePrepares(w, chip, config, b);
    AlikePrepare(io, chip, config, a, b);
    var f, g := Prepare(io, chip, config, a).0, Prepare(w, chip, config, b).0;
    CutGrows(io, f, 0, t);
    if Complete(io, chip, config, a).0.cut == a.cut && Complete(io, chip, config, a).1 == Code(0) {
      AlikeRequest(io, f, g, 0, t);
    }
  }

  /** The state in which the image begins. */
  function Marked(io: nat -> Io, chip: Chip, e: Eeprom): Eeprom {
    EeRequest(io, e.(eeAddr := ChainStart(chip)), 0, [0]).0.(last := false)
  }

  /** Requests cut short since. */
  function ImageCuts(io: nat -> Io, chip: Chip, config: int, lines: seq<Line>, e: Eeprom): int {
    LoadEeprom(io, chip, true, config, lines, e).0.cut - Marked(io, chip, e).cut
  }

  lemma LoadSplits(io: nat -> Io, chip: Chip, config: int, lines: seq<Line>, e: Eeprom)
    requires LoadEeprom(io, chip, true, config, lines, e).1 == Code(0)
    ensures !io(e.requests).Failed? && Parse(lines).status == Code(0)
    ensures var (s, ok) := Deliver(io, chip, ToEeprom(Marked(io, chip, e)), Parse(lines).out);
            ok && s.ToEeprom? && LoadEeprom(io, chip, true, config, lines, e) == Complete(io, chip, config, s.eeprom)
  {
    hide Deliver, Complete, Parse;
    ReturnCodes(lines);
    StaysEeprom(io, chip, Marked(io, chip, e), Parse(lines).out);
  }

  lemma LoadJoins(io: nat -> Io, chip: Chip, config: int, lines: seq<Line>, e: Eeprom)
    requires !io(e.requests).Failed? && Parse(lines).status == Code(0)
    ensures var (s, ok) := Deliver(io, chip, ToEeprom(Marked(io, chip, e)), Parse(lines).out);
            s.ToEeprom? && (ok ==> LoadEeprom(io, chip, true, config, lines, e) == Complete(io, chip, config, s.eeprom))
  {
    hide Deliver, Complete, Parse;
    StaysEeprom(io, chip, Marked(io, chip, e), Parse(lines).out);
  }

  lemma MarksAlike(io: nat -> Io, chip: Chip, e: Eeprom)
    ensures Alike(Marked(io, chip, e), Marked(MadeWhole(io), chip, e))
  {}

  /** No request after the mark was cut short: the image is there, even if the mark itself was cut. */
  lemma WholeImage(io: nat -> Io, chip: Chip, config: int, lines: seq<Line>, e: Eeprom)
    requires WellSized(lines) && Fits(chip, Parse(lines).out)
    requires LoadEeprom(io, chip, true, config, lines, e).1 == Code(0)
    ensures ImageCuts(io, chip, config, lines, e) >= 0
    ensures ImageCuts(io, chip, config, lines, e) == 0 ==>
              Bootable(chip, config, Parse(lines).out, LoadEeprom(io, chip, true, config, lines, e).0.mem)
  {
    var w := MadeWhole(io);
    assert NoShort(w);
    var out := Parse(lines).out;
    var a, b := Marked(io, chip, e), Marked(w, chip, e);
    MarksAlike(io, chip, e);
    assert w(e.requests).Failed? == io(e.requests).Failed?;
    hide LoadEeprom, Deliver, Complete, Parse, Fits, Bootable, MadeWhole, Marked, Alike;
    LoadSplits(io, chip, config, lines, e);
    AlikeDeliver(io, chip, a, b, out);
    var s, t := Deliver(io, chip, ToEeprom(a), out).0.eeprom, Deliver(w, chip, ToEeprom(b), out).0;
    DeliverCuts(io, chip, a, out);
    AlikeCompleteCut(io, chip, config, s);
    if ImageCuts(io, chip, config, lines, e) == 0 {
      AlikeComplete(io, chip, config, s, t.eeprom);
      LoadJoins(w, chip, config, lines, e);
      CrashSafe(w, chip, config, lines, e);
    }
  }

  lemma AlikeCompleteCut(io: nat -> Io, chip: Chip, config: int, a: Eeprom)
    ensures Complete(io, chip, config, a).0.cut >= a.cut
  {
    hide Complete;
    AlikeComplete(io, chip, config, a, a) by { assert Alike(a, a); }
  }

  // ---- Short writes: what they leave out ----

  /** No cell from lo on is known. */
  ghost predicate BlankFrom(mem: Memory, lo: nat) { forall x: nat | x >= lo :: x !in mem }

  /** Some cell in [lo, hi) is not known. */
  ghost predicate Hole(mem: Memory, lo: nat, hi: nat) { exists x: nat :: lo <= x < hi && x !in mem }

  lemma RequestKeys(io: nat -> Io, e: Eeprom, addr: nat, data: seq<Byte>)
    requires addr < 0x1_0000
    ensures var (n, ok) := EeRequest(io, e, addr, data); var k := io(e.requests).Stored(|data|);
            && (forall x: nat :: x in n.mem <==> x in e.mem || addr <= x < addr + k)
            && (ok ==> (n.cut == e.cut <==> k == |data|)) && n.cut >= e.cut
            && n.eeAddr == e.eeAddr && n.last == e.last
  {}

  /** A poke into blank cells that is cut short leaves one of its cells unknown. */
  lemma PokeHole(io: nat -> Io, e: Eeprom, c: Chunk)
    requires BlankFrom(e.mem, e.eeAddr) && c.data != [] && e.eeAddr + 4 + |c.data| <= 0x1_0000
    requires EepromPoke(io, e, false, c).1 >= 0
    ensures var n := EepromPoke(io, e, false, c).0; var end := e.eeAddr + 4 + |c.data|;
            && n.cut >= e.cut && BlankFrom(n.mem, end) && n.eeAddr == end % 0x1_0000 && n.last == e.last
            && (forall x: nat | x < e.eeAddr :: x in n.mem <==> x in e.mem)
            && (n.cut > e.cut ==> Hole(n.mem, e.eeAddr, end))
  {
    hide EeRequest;
    var h := Header(e.last, c);
    var (e1, ok1) := EeRequest(io, e, e.eeAddr, h);
    RequestKeys(io, e, e.eeAddr, h);
    var (e2, ok2) := EeRequest(io, e1, e.eeAddr + 4, c.data);
    RequestKeys(io, e1, e.eeAddr + 4, c.data);
    var k, l := io(e.requests).Stored(4), io(e1.requests).Stored(|c.data|);
    if k < 4 { assert e.eeAddr + k !in e2.mem; }
    if l < |c.data| { assert e.eeAddr + 4 + l !in e2.mem; }
  }

  /** The chain so far begins behind blank cells, and every cut has left a hole in it. */
  ghost predicate Holed(chip: Chip, e: Eeprom, cuts: nat, chunks: seq<Chunk>) {
    && e.eeAddr == ChainStart(chip) + |Layout(chunks)| < 0x1_0000
    && BlankFrom(e.mem, e.eeAddr) && e.cut >= cuts
    && (forall x: nat | 0 < x < ChainStart(chip) :: x !in e.mem) && (0 in e.mem ==> e.mem[0] == 0)
    && (e.cut > cuts ==> Hole(e.mem, ChainStart(chip), e.eeAddr))
  }

  lemma PokeHoled(io: nat -> Io, chip: Chip, e: Eeprom, cuts: nat, done: seq<Chunk>, c: Chunk)
    requires Holed(chip, e, cuts, done) && c.data != [] && Fits(chip, done + [c]) && EepromPoke(io, e, false, c).1 >= 0
    ensures Holed(chip, EepromPoke(io, e, false, c).0, cuts, done + [c])
  {
    hide EepromPoke, Layout;
    LayoutConcat(done, [c]);
    LayoutOne(c);
    PokeHole(io, e, c);
    PokeElsewhere(io, e, c);
    var n := EepromPoke(io, e, false, c).0;
    if e.cut > cuts {
      var x: nat :| ChainStart(chip) <= x < e.eeAddr && x !in e.mem;
      assert x !in n.mem;
    }
  }

  lemma {:induction false} DeliverHoled(io: nat -> Io, chip: Chip, e: Eeprom, cuts: nat, done: seq<Chunk>,
      chunks: seq<Chunk>)
    requires Holed(chip, e, cuts, done) && NonEmpty(chunks) && Fits(chip, done + chunks)
    requires Deliver(io, chip, ToEeprom(e), chunks).1
    ensures Deliver(io, chip, ToEeprom(e), chunks).0.ToEeprom?
    ensures Holed(chip, Deliver(io, chip, ToEeprom(e), chunks).0.eeprom, cuts, done + chunks)
    decreases |chunks|
  {
    hide EepromPoke, External, Holed, Layout;
    StaysEeprom(io, chip, e, chunks);
    if chunks == [] {
      assert done + chunks == done;
    } else {
      var c, rest := chunks[0], chunks[1..];
      var (n, rc) := EepromPoke(io, e, IsExternal(chip, c), c);
      assert c in chunks && forall x | x in rest :: x in chunks;
      assert (done + [c]) + rest == done + chunks;
      FitsPrefix(chip, done + [c], rest);
      assert Poke(io, ToEeprom(e), External(chip, c.addr, |c.data|), c) == (ToEeprom(n), rc);
      PokedIsInternal(io, e, IsExternal(chip, c), c);
      PokeHoled(io, chip, e, cuts, done, c);
      DeliverHoled(io, chip, n, cuts, done + [c], rest);
    }
  }

  lemma PokedIsInternal(io: nat -> Io, e: Eeprom, external: bool, c: Chunk)
    requires EepromPoke(io, e, external, c).1 >= 0
    ensures !external
  {}

  /** A configuration byte or a cell of the chain is not known. */
  ghost predicate Missing(chip: Chip, chunks: seq<Chunk>, mem: Memory) {
    || (!chip.An21? && 7 !in mem) || (chip.Fx? && 8 !in mem)
    || Hole(mem, ChainStart(chip), ChainStart(chip) + |Layout(chunks)| + 5)
  }

  lemma PrepareHoled(io: nat -> Io, chip: Chip, config: int, e: Eeprom, cuts: nat, chunks: seq<Chunk>)
    requires Holed(chip, e, cuts, chunks) && Fits(chip, chunks) && Prepare(io, chip, config, e).1
    ensures var f := Prepare(io, chip, config, e).0; f.cut >= cuts && (f.cut > cuts ==> Missing(chip, chunks, f.mem))
  {
    hide EepromPoke, EeRequest, Layout;
    var e1 := EepromPoke(io, e.(last := true), false, Reset(chip)).0;
    PokeHole(io, e.(last := true), Reset(chip));
    var config' := [ConfigByte(chip, config)];
    RequestKeys(io, e1, 7, config');
    var e2 := if chip.An21? then e1 else EeRequest(io, e1, 7, config').0;
    RequestKeys(io, e2, 8, [0]);
    var f := Prepare(io, chip, config, e).0;
    if e1.cut > cuts {
      var x: nat :| ChainStart(chip) <= x < e.eeAddr + 5 && x !in e1.mem;
      assert x !in f.mem;
    }
  }

  lemma MissingRefutes(chip: Chip, config: int, chunks: seq<Chunk>, mem: Memory)
    requires Missing(chip, chunks, mem)
    ensures !Bootable(chip, config, chunks, mem)
  {
    hide Layout, Decode;
    if Bootable(chip, config, chunks, mem) { BootableParts(chip, config, chunks, mem); }
  }

  lemma BootableParts(chip: Chip, config: int, chunks: seq<Chunk>, mem: Memory)
    requires Bootable(chip, config, chunks, mem)
    ensures 0 in mem && mem[0] == FirstByte(chip) && (!chip.An21? ==> 7 in mem) && (chip.Fx? ==> 8 in mem)
    ensures Present(mem, ChainStart(chip), |Layout(chunks)| + 5)
  {
    BootableFits(chip, config, chunks, mem);
  }

  /** What is missing when the type byte is written stays missing. */
  lemma TypeKeepsMissing(io: nat -> Io, chip: Chip, config: int, out: seq<Chunk>, g: Eeprom)
    requires Missing(chip, out, g.mem)
    ensures !Bootable(chip, config, out, EeRequest(io, g, 0, [FirstByte(chip)]).0.mem)
  {
    RequestKeys(io, g, 0, [FirstByte(chip)]);
    var n := EeRequest(io, g, 0, [FirstByte(chip)]).0.mem;
    hide EeRequest, Bootable, Layout;
    if Hole(g.mem, ChainStart(chip), ChainStart(chip) + |Layout(out)| + 5) {
      var x: nat :| ChainStart(chip) <= x < ChainStart(chip) + |Layout(out)| + 5 && x !in g.mem;
      assert x !in n;
    }
    MissingRefutes(chip, config, out, n);
  }

  /** Nothing between the mark and the type byte touches cell 0. */
  lemma ZeroKept(io: nat -> Io, chip: Chip, config: int, e: Eeprom)
    requires 0 < e.eeAddr && e.eeAddr + 5 <= 0x1_0000
    ensures var f := Prepare(io, chip, config, e).0;
            (0 in f.mem <==> 0 in e.mem) && (0 in f.mem ==> f.mem[0] == e.mem[0])
  {
    var e1 := EepromPoke(io, e.(last := true), false, Reset(chip)).0;
    PokeElsewhere(io, e.(last := true), Reset(chip));
    hide EepromPoke, EeRequest;
    RequestElsewhere(io, e1, 7, [ConfigByte(chip, config)]);
    var e2 := if chip.An21? then e1 else EeRequest(io, e1, 7, [ConfigByte(chip, config)]).0;
    RequestElsewhere(io, e2, 8, [0]);
  }

  lemma RequestElsewhere(io: nat -> Io, e: Eeprom, addr: nat, data: seq<Byte>)
    requires 0 < addr < 0x1_0000
    ensures var n := EeRequest(io, e, addr, data).0;
            (0 in n.mem <==> 0 in e.mem) && (0 in n.mem ==> n.mem[0] == e.mem[0])
  {}

  lemma PokeElsewhere(io: nat -> Io, e: Eeprom, c: Chunk)
    requires 0 < e.eeAddr && e.eeAddr + 4 < 0x1_0000
    ensures var n := EepromPoke(io, e, false, c).0;
            (0 in n.mem <==> 0 in e.mem) && (0 in n.mem ==> n.mem[0] == e.mem[0])
  {
    hide EeRequest;
    RequestElsewhere(io, e, e.eeAddr, Header(e.last, c));
    RequestElsewhere(io, EeRequest(io, e, e.eeAddr, Header(e.last, c)).0, e.eeAddr + 4, c.data);
  }

  lemma TypeByteCut(io: nat -> Io, e: Eeprom, b: Byte)
    requires b != 0 && (0 in e.mem ==> e.mem[0] == 0)
    ensures var n := EeRequest(io, e, 0, [b]).0; n.cut > e.cut ==> !(0 in n.mem && n.mem[0] == b)
  {
    assert [b][..0] == [];
  }

  /** What has been cut short after the mark cannot be made up for: an EEPROM of unknown contents is not bootable. */
  lemma CompleteHoled(io: nat -> Io, chip: Chip, config: int, e: Eeprom, cuts: nat, chunks: seq<Chunk>)
    requires Holed(chip, e, cuts, chunks) && Fits(chip, chunks)
    requires Complete(io, chip, config, e).1 == Code(0)
    ensures var n := Complete(io, chip, config, e).0;
            n.cut >= cuts && (n.cut > cuts ==> !Bootable(chip, config, chunks, n.mem))
  {
    hide Complete, Prepare, EeRequest, Missing, Bootable, Layout;
    var f := Prepare(io, chip, config, e).0;
    CompletePrepares(io, chip, config, e);
    PrepareHoled(io, chip, config, e, cuts, chunks);
    CutGrows(io, f, 0, [FirstByte(chip)]);
    if f.cut > cuts {
      TypeKeepsMissing(io, chip, config, chunks, f);
    } else {
      ZeroKept(io, chip, config, e);
      TypeByteCut(io, f, FirstByte(chip));
      MissingType(chip, config, chunks, Complete(io, chip, config, e).0.mem);
    }
  }

  lemma MissingType(chip: Chip, config: int, chunks: seq<Chunk>, mem: Memory)
    ensures !(0 in mem && mem[0] == FirstByte(chip)) ==> !Bootable(chip, config, chunks, mem)
  {
    hide Layout, Decode;
    if Bootable(chip, config, chunks, mem) { BootableParts(chip, config, chunks, mem); }
  }

  // ---- What a load does not depend on ----

  /** The same point of two loads, one into an EEPROM with contents `mem` and one into an EEPROM with none. */
  ghost predicate SamePoint(mem: Memory, a: Eeprom, b: Eeprom) {
    a.eeAddr == b.eeAddr && a.last == b.last && a.requests == b.requests && a.cut == b.cut && a.mem == mem + b.mem
  }

  lemma SameRequest(io: nat -> Io, mem: Memory, a: Eeprom, b: Eeprom, addr: nat, data: seq<Byte>)
    requires SamePoint(mem, a, b)
    ensures SamePoint(mem, EeRequest(io, a, addr, data).0, EeRequest(io, b, addr, data).0)
    ensures EeRequest(io, a, addr, data).1 == EeRequest(io, b, addr, data).1
  {
    StoreOver(mem, b.mem, addr % 0x1_0000, data[..io(a.requests).Stored(|data|)]);
  }

  lemma StoreOver(mem: Memory, more: Memory, addr: nat, data: seq<Byte>)
    ensures Store(mem + more, addr, data) == mem + Store(more, addr, data)
  {
    hide Store;
    var x, y := Store(mem + more, addr, data), mem + Store(more, addr, data);
    assert forall k: nat :: k in x <==> k in y;
    assert x.Keys == y.Keys;
  }

  lemma SamePoke(io: nat -> Io, mem: Memory, a: Eeprom, b: Eeprom, external: bool, c: Chunk)
    requires SamePoint(mem, a, b)
    ensures SamePoint(mem, EepromPoke(io, a, external, c).0, EepromPoke(io, b, external, c).0)
    ensures EepromPoke(io, a, external, c).1 == EepromPoke(io, b, external, c).1
  {
    hide EeRequest, Header;
    var h := Header(a.last, c);
    SameRequest(io, mem, a, b, a.eeAddr, h);
    SameRequest(io, mem, EeRequest(io, a, a.eeAddr, h).0, EeRequest(io, b, b.eeAddr, h).0, a.eeAddr + 4, c.data);
  }

  lemma {:induction false} SameDeliver(io: nat -> Io, mem: Memory, chip: Chip, a: Eeprom, b: Eeprom,
      chunks: seq<Chunk>)
    requires SamePoint(mem, a, b)
    ensures var (s, ok) := Deliver(io, chip, ToEeprom(a), chunks);
            var (t, ok') := Deliver(io, chip, ToEeprom(b), chunks);
            s.ToEeprom? && t.ToEeprom? && SamePoint(mem, s.eeprom, t.eeprom) && ok == ok'
    decreases |chunks|
  {
    hide EepromPoke, External, SamePoint;
    if chunks != [] {
      var c := chunks[0];
      SamePoke(io, mem, a, b, IsExternal(chip, c), c);
      var (n, rc) := EepromPoke(io, a, IsExternal(chip, c), c);
      var (m, rc') := EepromPoke(io, b, IsExternal(chip, c), c);
      assert Poke(io, ToEeprom(a), External(chip, c.addr, |c.data|), c) == (ToEeprom(n), rc);
      assert Poke(io, ToEeprom(b), External(chip, c.addr, |c.data|), c) == (ToEeprom(m), rc');
      if rc >= 0 { SameDeliver(io, mem, chip, n, m, chunks[1..]); }
    }
  }

  lemma SamePrepare(io: nat -> Io, mem: Memory, chip: Chip, config: int, a: Eeprom, b: Eeprom)
    requires SamePoint(mem, a, b)
    ensures SamePoint(mem, Prepare(io, chip, config, a).0, Prepare(io, chip, config, b).0)
    ensures Prepare(io, chip, config, a).1 == Prepare(io, chip, config, b).1
  {
    hide EepromPoke, EeRequest, ConfigByte, SamePoint;
    var config' := [ConfigByte(chip, config)];
    assert SamePoint(mem, a.(last := true), b.(last := true)) by { LastToo(mem, a, b); }
    SamePoke(io, mem, a.(last := true), b.(last := true), false, Reset(chip));
    var a1, b1 := EepromPoke(io, a.(last := true), false, Reset(chip)).0,
        EepromPoke(io, b.(last := true), false, Reset(chip)).0;
    SameRequest(io, mem, a1, b1, 7, config');
    var a2 := if chip.An21? then a1 else EeRequest(io, a1, 7, config').0;
    var b2 := if chip.An21? then b1 else EeRequest(io, b1, 7, config').0;
    SameRequest(io, mem, a2, b2, 8, [0]);
  }

  lemma LastToo(mem: Memory, a: Eeprom, b: Eeprom)
    requires SamePoint(mem, a, b)
    ensures SamePoint(mem, a.(last := true), b.(last := true))
  {}

  lemma SameComplete(io: nat -> Io, mem: Memory, chip: Chip, config: int, a: Eeprom, b: Eeprom)
    requires SamePoint(mem, a, b)
    ensures SamePoint(mem, Complete(io, chip, config, a).0, Complete(io, chip, config, b).0)
    ensures Complete(io, chip, config, a).1 == Code(0) <==> Complete(io, chip, config, b).1 == Code(0)
  {
    hide Complete, Prepare, EeRequest, SamePoint;
    CompletePrepares(io, chip, config, a);
    CompletePrepares(io, chip, config, b);
    SamePrepare(io, mem, chip, config, a, b);
    SameRequest(io, mem, Prepare(io, chip, config, a).0, Prepare(io, chip, config, b).0, 0, [FirstByte(chip)]);
  }

  lemma SameMark(io: nat -> Io, chip: Chip, e: Eeprom)
    ensures SamePoint(e.mem, Marked(io, chip, e), Marked(io, chip, e.(mem := map[])))
  {
    var f := e.(eeAddr := ChainStart(chip));
    assert e.mem == e.mem + map[];
    SameRequest(io, e.mem, f, f.(mem := map[]), 0, [0]);
  }

  lemma SameLoad(io: nat -> Io, chip: Chip, config: int, lines: seq<Line>, e: Eeprom)
    requires LoadEeprom(io, chip, true, config, lines, e).1 == Code(0)
    ensures var f := e.(mem := map[]);
            && LoadEeprom(io, chip, true, config, lines, f).1 == Code(0)
            && ImageCuts(io, chip, config, lines, f) == ImageCuts(io, chip, config, lines, e)
  {
    var f := e.(mem := map[]);
    SameMark(io, chip, e);
    hide LoadEeprom, Deliver, Complete, Parse, Marked;
    LoadSplits(io, chip, config, lines, e);
    LoadJoins(io, chip, config, lines, f);
    var out := Parse(lines).out;
    SameDeliver(io, e.mem, chip, Marked(io, chip, e), Marked(io, chip, f), out);
    SameComplete(io, e.mem, chip, config,
      Deliver(io, chip, ToEeprom(Marked(io, chip, e)), out).0.eeprom,
      Deliver(io, chip, ToEeprom(Marked(io, chip, f)), out).0.eeprom);
  }

  /**
   * The result of a load and the cuts it suffers do not depend on what the EEPROM held before, and where it stores
   * nothing the old contents stay.
   */
  lemma LoadedOver(io: nat -> Io, chip: Chip, config: int, lines: seq<Line>, e: Eeprom, mem: Memory)
    requires LoadEeprom(io, chip, true, config, lines, e).1 == Code(0)
    ensures var f := e.(mem := mem);
            && LoadEeprom(io, chip, true, config, lines, f).1 == Code(0)
            && ImageCuts(io, chip, config, lines, f) == ImageCuts(io, chip, config, lines, e)
            && LoadEeprom(io, chip, true, config, lines, f).0.mem ==
                 mem + LoadEeprom(io, chip, true, config, lines, e.(mem := map[])).0.mem
  {
    var f, g := e.(mem := mem), e.(mem := map[]);
    SameLoad(io, chip, config, lines, e);
    SameMark(io, chip, f);
    hide LoadEeprom, Deliver, Complete, Parse, Marked;
    LoadSplits(io, chip, config, lines, g);
    LoadJoins(io, chip, config, lines, f);
    var out := Parse(lines).out;
    SameDeliver(io, mem, chip, Marked(io, chip, f), Marked(io, chip, g), out);
    SameComplete(io, mem, chip, config,
      Deliver(io, chip, ToEeprom(Marked(io, chip, f)), out).0.eeprom,
      Deliver(io, chip, ToEeprom(Marked(io, chip, g)), out).0.eeprom);
  }

  /** With nothing known of the EEPROM beforehand, a cut after the mark leaves it without a complete image. */
  lemma BlankLoad(io: nat -> Io, chip: Chip, config: int, lines: seq<Line>, e: Eeprom)
    requires WellSized(lines) && Fits(chip, Parse(lines).out) && e.mem == map[]
    requires LoadEeprom(io, chip, true, config, lines, e).1 == Code(0)
    ensures ImageCuts(io, chip, config, lines, e) > 0 ==>
              !Bootable(chip, config, Parse(lines).out, LoadEeprom(io, chip, true, config, lines, e).0.mem)
  {
    var f, out := Marked(io, chip, e), Parse(lines).out;
    MarkedHoled(io, chip, e);
    ChunkSizes(lines);
    assert [] + out == out;
    hide LoadEeprom, Deliver, Complete, Parse, Fits, Marked, Holed;
    LoadSplits(io, chip, config, lines, e);
    DeliverHoled(io, chip, f, f.cut, [], out);
    CompleteHoled(io, chip, config, Deliver(io, chip, ToEeprom(f), out).0.eeprom, f.cut, out);
  }

  lemma MarkedHoled(io: nat -> Io, chip: Chip, e: Eeprom)
    requires e.mem == map[]
    ensures Holed(chip, Marked(io, chip, e), Marked(io, chip, e).cut, [])
  {
    var f := e.(eeAddr := ChainStart(chip));
    RequestKeys(io, f, 0, [0]);
    assert [0][..0] == [];
    var k := io(e.requests).Stored(1);
    assert k == 0 || k == 1;
    assert [0][..1] == [0];
  }

  // ---- Old contents cannot stand in for what is missing ----

  /** All cells of a 64 KiB EEPROM. */
  ghost predicate Total(mem: Memory) { forall a: nat | a < 0x1_0000 :: a in mem }

  /** An EEPROM with the same byte in every cell. */
  function Filled(b: Byte): (r: Memory)
    ensures forall a: nat :: a in r <==> a < 0x1_0000
    ensures forall a: nat | a in r :: r[a] == b
  {
    Store(map[], 0, seq(0x1_0000, _ => b))
  }

  /** What is read alike over two different backgrounds does not come from them. */
  lemma ReadOver(mem: Memory, at: nat, len: nat)
    requires at + len <= 0x1_0000 && Present(Filled(0) + mem, at, len) && Present(Filled(1) + mem, at, len)
    requires Read(Filled(0) + mem, at, len) == Read(Filled(1) + mem, at, len)
    ensures Present(mem, at, len) && Read(mem, at, len) == Read(Filled(0) + mem, at, len)
  {
    var x, y := Read(Filled(0) + mem, at, len), Read(Filled(1) + mem, at, len);
    forall a: nat | at <= a < at + len ensures a in mem && mem[a] == x[a - at] {
      assert x[a - at] == y[a - at];
    }
  }

  lemma SameBytes(g: seq<Byte>, h: seq<Byte>)
    requires |g| == |h| == 4 && (g[0] >= 128 <==> h[0] >= 128)
    requires HeaderLength(g) == HeaderLength(h) && HeaderAddr(g) == HeaderAddr(h)
    ensures g == h
  {
    var x, y := (g[0] as int) % 128, (h[0] as int) % 128;
    assert g[0] as int == x + (if g[0] >= 128 then 128 else 0) && h[0] as int == y + (if h[0] >= 128 then 128 else 0);
    assert x == y && g[0] == h[0] && g[1] == h[1] && g[2] == h[2] && g[3] == h[3];
  }

  /** Two memories that decode alike are read alike. */
  lemma SameRecord(a: Memory, b: Memory, at: nat)
    requires Decode(a, at).Boot? && Decode(b, at) == Decode(a, at)
    ensures at + 4 <= 0x1_0000 && Present(a, at, 4) && Present(b, at, 4) && Read(a, at, 4) == Read(b, at, 4)
    ensures var h := Read(a, at, 4); var len := HeaderLength(h);
            && at + 4 + len <= 0x1_0000 && Present(a, at + 4, len) && Present(b, at + 4, len)
            && Read(a, at + 4, len) == Read(b, at + 4, len)
            && (h[0] < 128 ==> Decode(a, at + 4 + len).Boot? && Decode(b, at + 4 + len) == Decode(a, at + 4 + len))
  {
    hide Decode, Read, Present, HeaderLength, HeaderAddr;
    FirstRecord(a, at);
    FirstRecord(b, at);
    var g, h := Read(a, at, 4), Read(b, at, 4);
    var c := Chunk(HeaderAddr(g), Read(a, at + 4, HeaderLength(g)));
    var d := Chunk(HeaderAddr(h), Read(b, at + 4, HeaderLength(h)));
    assert c == d && |c.data| == |d.data|;
    SameBytes(g, h);
  }

  lemma SameStep(a: Memory, b: Memory, at: nat)
    requires at + 4 <= 0x1_0000 && Present(a, at, 4) && Present(b, at, 4) && Read(a, at, 4) == Read(b, at, 4)
    requires var len := HeaderLength(Read(a, at, 4));
            && at + 4 + len <= 0x1_0000 && Present(a, at + 4, len) && Present(b, at + 4, len)
            && Read(a, at + 4, len) == Read(b, at + 4, len)
            && (Read(a, at, 4)[0] < 128 ==> Decode(a, at + 4 + len) == Decode(b, at + 4 + len))
    ensures Decode(a, at) == Decode(b, at)
  {
    hide Read, Present;
  }

  lemma {:induction false} DecodeOver(mem: Memory, at: nat)
    requires Decode(Filled(0) + mem, at).Boot? && Decode(Filled(1) + mem, at) == Decode(Filled(0) + mem, at)
    ensures Decode(mem, at) == Decode(Filled(0) + mem, at)
    decreases 0x1_0000 - at
  {
    hide Filled, Read, Present, Decode;
    var a, b := Filled(0) + mem, Filled(1) + mem;
    SameRecord(a, b, at);
    ReadOver(mem, at, 4);
    var len := HeaderLength(Read(a, at, 4));
    ReadOver(mem, at + 4, len);
    if Read(a, at, 4)[0] < 128 { DecodeOver(mem, at + 4 + len); }
    SameStep(a, mem, at);
  }

  lemma HoldsOver(mem: Memory, at: nat, b: Byte)
    requires at < 0x1_0000 && Holds(Filled(0) + mem, at, [b]) && Holds(Filled(1) + mem, at, [b])
    ensures Holds(mem, at, [b])
  {
    assert (Filled(0) + mem)[at] == b && (Filled(1) + mem)[at] == b;
  }

  /** What boots the image over two different backgrounds boots it on its own. */
  lemma BootableOver(chip: Chip, config: int, chunks: seq<Chunk>, mem: Memory)
    requires Bootable(chip, config, chunks, Filled(0) + mem) && Bootable(chip, config, chunks, Filled(1) + mem)
    ensures Bootable(chip, config, chunks, mem)
  {
    hide Decode, Filled, Holds, ConfigByte;
    DecodeOver(mem, ChainStart(chip));
    HoldsOver(mem, 0, FirstByte(chip));
    if !chip.An21? { HoldsOver(mem, 7, ConfigByte(chip, config)); }
    if chip.Fx? { HoldsOver(mem, 8, 0); }
  }

  /**
   * A cut after the mark leaves at least one of two EEPROMs, one filled with zeros and one filled with ones, without
   * the complete image.
   */
  lemma FilledLoad(io: nat -> Io, chip: Chip, config: int, lines: seq<Line>, e: Eeprom)
    requires WellSized(lines) && Fits(chip, Parse(lines).out)
    requires LoadEeprom(io, chip, true, config, lines, e).1 == Code(0)
    ensures ImageCuts(io, chip, config, lines, e) > 0 ==>
              !(Bootable(chip, config, Parse(lines).out,
                    LoadEeprom(io, chip, true, config, lines, e.(mem := Filled(0))).0.mem)
                && Bootable(chip, config, Parse(lines).out,
                    LoadEeprom(io, chip, true, config, lines, e.(mem := Filled(1))).0.mem))
  {
    hide LoadEeprom, ImageCuts, Bootable, Fits, Parse, Filled;
    var zeros, ones, blank := e.(mem := Filled(0)), e.(mem := Filled(1)), e.(mem := map[]);
    SameLoad(io, chip, config, lines, e);
    LoadedOver(io, chip, config, lines, blank, Filled(0));
    LoadedOver(io, chip, config, lines, blank, Filled(1));
    BlankLoad(io, chip, config, lines, blank);
    var out, n := Parse(lines).out, LoadEeprom(io, chip, true, config, lines, blank).0.mem;
    if Bootable(chip, config, out, Filled(0) + n) && Bootable(chip, config, out, Filled(1) + n) {
      BootableOver(chip, config, out, n);
    }
  }

  /**
   * Main theorem: a load that returns 0 leaves the complete image whatever the 64 KiB held before exactly when none of
   * its requests after the first one, the mark, was cut short without being reported. (A mark cut short costs crash
   * safety, not the image.)
   */
  lemma ImageIffUncut(io: nat -> Io, chip: Chip, config: int, lines: seq<Line>, e: Eeprom)
    requires WellSized(lines) && Fits(chip, Parse(lines).out)
    requires LoadEeprom(io, chip, true, config, lines, e).1 == Code(0)
    ensures ImageCuts(io, chip, config, lines, e) == 0 <==>
            forall mem: Memory | Total(mem) ::
              Bootable(chip, config, Parse(lines).out, LoadEeprom(io, chip, true, config, lines, e.(mem := mem)).0.mem)
  {
    hide LoadEeprom, ImageCuts, Bootable, Fits, Parse;
    forall mem: Memory ensures ImageCuts(io, chip, config, lines, e) == 0 ==>
        Bootable(chip, config, Parse(lines).out, LoadEeprom(io, chip, true, config, lines, e.(mem := mem)).0.mem)
    {
      LoadedOver(io, chip, config, lines, e, mem);
      WholeImage(io, chip, config, lines, e.(mem := mem));
    }
    WholeImage(io, chip, config, lines, e);
    FilledLoad(io, chip, config, lines, e);
    assert Total(Filled(0)) && Total(Filled(1));
  }
}
