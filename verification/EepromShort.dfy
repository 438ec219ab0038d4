/** Exactly when an EEPROM load is crash-safe on a device that may store less than asked without saying so. */
module EepromShort {
  import opened HexRecords
  import opened Chips
  import opened Loader
  import opened RamLoad
  import opened EepromLoad
  import opened EepromExact

  // ---- The request that makes the EEPROM bootable ----

  /** The state before the type byte is written, or else the last state of the load. */
  function ToType(io: nat -> Io, chip: Chip, config: int, lines: seq<Line>, e: Eeprom): (Eeprom, bool) {
    var (s, ok) := Deliver(io, chip, ToEeprom(Marked(io, chip, e)), Parse(lines).out);
    if io(e.requests).Failed? || s.ToRam? then (Marked(io, chip, e), false)
    else if !ok || Parse(lines).status != Code(0) then (s.eeprom, false)
    else Prepare(io, chip, config, s.eeprom)
  }

  lemma LoadIsToType(io: nat -> Io, chip: Chip, config: int, lines: seq<Line>, e: Eeprom)
    ensures var (f, ready) := ToType(io, chip, config, lines, e);
            var n := LoadEeprom(io, chip, true, config, lines, e).0;
            && n.mem == (if ready then EeRequest(io, f, 0, [FirstByte(chip)]).0 else f).mem
            && n.trace == (if ready then EeRequest(io, f, 0, [FirstByte(chip)]).0 else f).trace
  {
    hide Deliver, Complete, Prepare, Parse;
    var m := Marked(io, chip, e);
    StaysEeprom(io, chip, m, Parse(lines).out);
    ReturnCodes(lines);
    var s := Deliver(io, chip, ToEeprom(m), Parse(lines).out).0;
    CompletePrepares(io, chip, config, s.eeprom);
  }

  // ---- Until then the EEPROM is unbootable, whatever is cut short ----

  lemma {:induction false} DeliverQuiet(io: nat -> Io, chip: Chip, e: Eeprom, done: seq<Chunk>, chunks: seq<Chunk>)
    requires Unbootable(e.mem) && e.eeAddr == ChainStart(chip) + |Layout(done)| && NonEmpty(chunks)
    requires Fits(chip, done + chunks)
    ensures Deliver(io, chip, ToEeprom(e), chunks).0.ToEeprom?
    ensures var (s, ok) := Deliver(io, chip, ToEeprom(e), chunks);
            && Quiet(e.trace, s.eeprom.trace) && Unbootable(s.eeprom.mem)
            && (ok ==> s.eeprom.eeAddr == ChainStart(chip) + |Layout(done + chunks)|)
    decreases |chunks|
  {
    hide EepromPoke, External, Layout, Unbootable;
    if chunks == [] {
      assert done + chunks == done;
    } else {
      var c, rest := chunks[0], chunks[1..];
      var (n, rc) := EepromPoke(io, e, IsExternal(chip, c), c);
      assert c in chunks && forall x | x in rest :: x in chunks;
      assert (done + [c]) + rest == done + chunks;
      FitsPrefix(chip, done + [c], rest);
      LayoutConcat(done, [c]);
      LayoutOne(c);
      PokeWritesSegment(io, e, IsExternal(chip, c), c);
      assert Poke(io, ToEeprom(e), External(chip, c.addr, |c.data|), c) == (ToEeprom(n), rc);
      if rc >= 0 { DeliverQuiet(io, chip, n, done + [c], rest); }
    }
  }

  lemma ConfigQuiet(io: nat -> Io, e: Eeprom, addr: nat, b: Byte)
    requires Unbootable(e.mem) && 0 < addr < 0x1_0000
    ensures var n := EeRequest(io, e, addr, [b]).0; Quiet(e.trace, n.trace) && Unbootable(n.mem)
  {
    hide EeRequest;
    RequestWrites(io, e, addr, [b]);
    QuietStep(e.trace, e.trace, EeRequest(io, e, addr, [b]).0.mem);
  }

  lemma PrepareQuiet(io: nat -> Io, chip: Chip, config: int, e: Eeprom)
    requires Unbootable(e.mem) && 0 < e.eeAddr && e.eeAddr + 5 <= 0x1_0000
    ensures var f := Prepare(io, chip, config, e).0; Quiet(e.trace, f.trace) && Unbootable(f.mem)
  {
    hide EepromPoke, EeRequest, Unbootable, ConfigByte;
    PokeWritesSegment(io, e.(last := true), false, Reset(chip));
    var e1 := EepromPoke(io, e.(last := true), false, Reset(chip)).0;
    ConfigQuiet(io, e1, 7, ConfigByte(chip, config));
    var e2 := if chip.An21? then e1 else EeRequest(io, e1, 7, [ConfigByte(chip, config)]).0;
    ConfigQuiet(io, e2, 8, 0);
  }

  /** The first request has stored the mark. */
  predicate MarkStored(io: nat -> Io, e: Eeprom) { io(e.requests).Stored(1) == 1 }

  lemma MarkedQuiet(io: nat -> Io, chip: Chip, e: Eeprom)
    requires MarkStored(io, e)
    ensures var m := Marked(io, chip, e); Unbootable(m.mem) && Quiet(e.trace, m.trace) && m.eeAddr == ChainStart(chip)
  {
    assert [0][..1] == [0];
    var n := Marked(io, chip, e).mem;
    assert 0 in n && n[0] == 0;
    QuietStep(e.trace, e.trace, n);
  }

  lemma QuietJoins(a: seq<Memory>, b: seq<Memory>, c: seq<Memory>)
    requires Quiet(a, b) && Quiet(b, c)
    ensures Quiet(a, c)
  {
    hide Unbootable;
    forall k | |a| <= k < |c| ensures Unbootable(c[k]) {
      if k < |b| { assert c[k] == b[k]; }
    }
  }

  lemma ImageQuiet(io: nat -> Io, chip: Chip, e: Eeprom, out: seq<Chunk>)
    requires NonEmpty(out) && Fits(chip, out) && MarkStored(io, e)
    ensures var (s, ok) := Deliver(io, chip, ToEeprom(Marked(io, chip, e)), out);
            && s.ToEeprom? && Quiet(e.trace, s.eeprom.trace) && Unbootable(s.eeprom.mem)
            && (ok ==> 0 < s.eeprom.eeAddr && s.eeprom.eeAddr + 5 <= 0x1_0000)
  {
    hide Deliver, Marked, Quiet, Unbootable;
    var m := Marked(io, chip, e);
    MarkedQuiet(io, chip, e);
    assert [] + out == out;
    LayoutLength([]);
    hide Layout;
    DeliverQuiet(io, chip, m, [], out);
    QuietJoins(e.trace, m.trace, Deliver(io, chip, ToEeprom(m), out).0.eeprom.trace);
  }

  lemma ToTypeQuiet(io: nat -> Io, chip: Chip, config: int, lines: seq<Line>, e: Eeprom)
    requires WellSized(lines) && Fits(chip, Parse(lines).out) && MarkStored(io, e)
    ensures var f := ToType(io, chip, config, lines, e).0; Quiet(e.trace, f.trace) && Unbootable(f.mem)
  {
    hide Deliver, Prepare, Marked, Parse, Unbootable, Quiet, Fits, WellSized, MarkStored;
    var m, out := Marked(io, chip, e), Parse(lines).out;
    ChunkSizes(lines);
    assert NonEmpty(out);
    hide NonEmpty;
    MarkedQuiet(io, chip, e);
    ImageQuiet(io, chip, e, out);
    var (s, ok) := Deliver(io, chip, ToEeprom(m), out);
    if ok {
      PrepareQuiet(io, chip, config, s.eeprom);
      QuietJoins(e.trace, s.eeprom.trace, Prepare(io, chip, config, s.eeprom).0.trace);
    }
  }

  // ---- If nothing before it was cut short, the type byte makes a complete image bootable ----

  /** Up to the type byte, a load without cuts is that of the device with whole writes. */
  lemma AlikeToType(io: nat -> Io, chip: Chip, config: int, lines: seq<Line>, e: Eeprom)
    requires ToType(io, chip, config, lines, e).1
    ensures var (f, _) := ToType(io, chip, config, lines, e);
            var (g, ready) := ToType(MadeWhole(io), chip, config, lines, e);
            && f.cut >= Marked(io, chip, e).cut
            && (f.cut == Marked(io, chip, e).cut ==> ready && Alike(f, g))
  {
    var w, out := MadeWhole(io), Parse(lines).out;
    var a, b := Marked(io, chip, e), Marked(w, chip, e);
    MarksAlike(io, chip, e);
    assert w(e.requests).Failed? == io(e.requests).Failed?;
    hide Deliver, Prepare, Marked, Parse, MadeWhole, Alike;
    AlikeDeliver(io, chip, a, b, out);
    DeliverCuts(io, chip, a, out);
    var s := Deliver(io, chip, ToEeprom(a), out).0.eeprom;
    PrepareCuts(io, chip, config, s);
    if ToType(io, chip, config, lines, e).0.cut == a.cut {
      AlikePrepare(io, chip, config, s, Deliver(w, chip, ToEeprom(b), out).0.eeprom);
    }
  }

  lemma PrepareCuts(io: nat -> Io, chip: Chip, config: int, e: Eeprom)
    ensures Prepare(io, chip, config, e).0.cut >= e.cut
  {
    hide Prepare;
    AlikePrepare(io, chip, config, e, e) by { assert Alike(e, e); }
  }

  predicate TypeStored(io: nat -> Io, f: Eeprom) { io(f.requests).Stored(1) == 1 }

  lemma SameTypeWrite(io: nat -> Io, chip: Chip, f: Eeprom, g: Eeprom)
    requires Alike(f, g) && Unbootable(f.mem) && Unbootable(g.mem) && TypeStored(io, f)
    ensures EeRequest(io, f, 0, [FirstByte(chip)]).0.mem == EeRequest(MadeWhole(io), g, 0, [FirstByte(chip)]).0.mem
  {
    assert f.mem.Keys == g.mem.Keys;
    assert f.mem == g.mem;
  }

  lemma UncutIsSafe(io: nat -> Io, chip: Chip, config: int, lines: seq<Line>, e: Eeprom)
    requires WellSized(lines) && Fits(chip, Parse(lines).out) && MarkStored(io, e)
    requires var (f, ready) := ToType(io, chip, config, lines, e);
            ready && TypeStored(io, f) && f.cut == Marked(io, chip, e).cut
    ensures Safe(chip, config, Parse(lines).out, LoadEeprom(io, chip, true, config, lines, e).0.mem)
  {
    var w := MadeWhole(io);
    assert NoShort(w) && MarkStored(w, e) && w(e.requests).Failed? == io(e.requests).Failed?;
    var f, g := ToType(io, chip, config, lines, e).0, ToType(w, chip, config, lines, e).0;
    assert !io(e.requests).Failed?;
    hide LoadEeprom, ToType, Parse, Fits, Safe, MadeWhole, Marked;
    AlikeToType(io, chip, config, lines, e);
    ToTypeQuiet(io, chip, config, lines, e);
    ToTypeQuiet(w, chip, config, lines, e);
    SameTypeWrite(io, chip, f, g);
    LoadIsToType(io, chip, config, lines, e);
    LoadIsToType(w, chip, config, lines, e);
    CrashSafe(w, chip, config, lines, e);
    RequestTraces(w, g, 0, [FirstByte(chip)]);
    hide EeRequest;
    var trace := LoadEeprom(w, chip, true, config, lines, e).0.trace;
    assert Safe(chip, config, Parse(lines).out, trace[|trace| - 1]);
  }

  lemma QuietIsSafe(chip: Chip, config: int, out: seq<Chunk>, from: seq<Memory>, trace: seq<Memory>)
    requires Quiet(from, trace)
    ensures SafeSince(chip, config, out, from, trace)
  {
    hide Bootable;
  }

  /** The whole load is safe if the mark is stored, and the type byte is not or nothing before it was cut short. */
  lemma SafeLoads(io: nat -> Io, chip: Chip, config: int, lines: seq<Line>, e: Eeprom)
    requires WellSized(lines) && Fits(chip, Parse(lines).out) && MarkStored(io, e)
    requires var (f, ready) := ToType(io, chip, config, lines, e);
            ready && TypeStored(io, f) ==> f.cut == Marked(io, chip, e).cut
    ensures SafeSince(chip, config, Parse(lines).out, e.trace, LoadEeprom(io, chip, true, config, lines, e).0.trace)
  {
    var (f, ready) := ToType(io, chip, config, lines, e);
    var out := Parse(lines).out;
    hide LoadEeprom, ToType, Parse, Fits, Marked, Bootable;
    ToTypeQuiet(io, chip, config, lines, e);
    LoadIsToType(io, chip, config, lines, e);
    QuietIsSafe(chip, config, out, e.trace, f.trace);
    if ready {
      RequestTraces(io, f, 0, [FirstByte(chip)]);
      if TypeStored(io, f) {
        UncutIsSafe(io, chip, config, lines, e);
      } else {
        assert [FirstByte(chip)][..0] == [];
      }
      hide EeRequest;
    }
  }

  // ---- Otherwise some contents make it unsafe ----

  lemma LoadTraces(io: nat -> Io, chip: Chip, config: int, lines: seq<Line>, e: Eeprom)
    ensures Marked(io, chip, e).trace <= LoadEeprom(io, chip, true, config, lines, e).0.trace
  {
    hide Deliver, Prepare, Parse, LoadEeprom, Marked;
    LoadIsToType(io, chip, config, lines, e);
    var m, f := Marked(io, chip, e), ToType(io, chip, config, lines, e).0;
    DeliverTraces(io, chip, m, Parse(lines).out);
    PrepareTraces(io, chip, config, Deliver(io, chip, ToEeprom(m), Parse(lines).out).0.eeprom);
    RequestTraces(io, f, 0, [FirstByte(chip)]);
  }

  /** An EEPROM full of type bytes has no chain. */
  lemma TypeBytesAreNoImage(chip: Chip, config: int, out: seq<Chunk>)
    ensures !Safe(chip, config, out, Filled(FirstByte(chip)))
  {
    var mem := Filled(FirstByte(chip));
    if Decode(mem, ChainStart(chip)).Boot? {
      FirstRecord(mem, ChainStart(chip));
      var h := Read(mem, ChainStart(chip), 4);
      assert h[0] == FirstByte(chip) && h[1] == FirstByte(chip);
    }
  }

  lemma UnmarkedIsUnsafe(io: nat -> Io, chip: Chip, config: int, lines: seq<Line>, e: Eeprom)
    requires !MarkStored(io, e)
    ensures var f := e.(mem := Filled(FirstByte(chip)));
            !SafeSince(chip, config, Parse(lines).out, e.trace, LoadEeprom(io, chip, true, config, lines, f).0.trace)
  {
    var f := e.(mem := Filled(FirstByte(chip)));
    assert [0][..0] == [];
    assert Marked(io, chip, f).trace == e.trace + [f.mem];
    hide LoadEeprom, Marked, Parse, Safe;
    LoadTraces(io, chip, config, lines, f);
    TypeBytesAreNoImage(chip, config, Parse(lines).out);
    var trace := LoadEeprom(io, chip, true, config, lines, f).0.trace;
    assert trace[|e.trace|] == (e.trace + [f.mem])[|e.trace|];
  }

  lemma ToTypeHoled(io: nat -> Io, chip: Chip, config: int, lines: seq<Line>, e: Eeprom)
    requires WellSized(lines) && Fits(chip, Parse(lines).out) && e.mem == map[]
    requires ToType(io, chip, config, lines, e).1
    ensures var f := ToType(io, chip, config, lines, e).0;
            f.cut > Marked(io, chip, e).cut ==> Missing(chip, Parse(lines).out, f.mem)
  {
    var m, out := Marked(io, chip, e), Parse(lines).out;
    MarkedHoled(io, chip, e);
    ChunkSizes(lines);
    assert [] + out == out;
    hide Deliver, Prepare, Parse, Fits, Marked, Holed, Missing;
    DeliverHoled(io, chip, m, m.cut, [], out);
    PrepareHoled(io, chip, config, Deliver(io, chip, ToEeprom(m), out).0.eeprom, m.cut, out);
  }

  lemma SameToType(io: nat -> Io, chip: Chip, config: int, lines: seq<Line>, e: Eeprom)
    ensures var (f, ready) := ToType(io, chip, config, lines, e);
            var (g, ready') := ToType(io, chip, config, lines, e.(mem := map[]));
            SamePoint(e.mem, f, g) && ready == ready'
  {
    var b := e.(mem := map[]);
    SameMark(io, chip, e);
    hide Deliver, Prepare, Marked, Parse, SamePoint;
    var m, n, out := Marked(io, chip, e), Marked(io, chip, b), Parse(lines).out;
    SameDeliver(io, e.mem, chip, m, n, out);
    SamePrepare(io, e.mem, chip, config, Deliver(io, chip, ToEeprom(m), out).0.eeprom,
      Deliver(io, chip, ToEeprom(n), out).0.eeprom);
  }

  /** The last state of a load that stores the type byte, over other contents. */
  lemma TypedOver(io: nat -> Io, chip: Chip, config: int, lines: seq<Line>, e: Eeprom, mem: Memory)
    requires var (g, ready) := ToType(io, chip, config, lines, e.(mem := map[])); ready && TypeStored(io, g)
    ensures var f := e.(mem := mem); var g := ToType(io, chip, config, lines, e.(mem := map[])).0;
            var n := LoadEeprom(io, chip, true, config, lines, f).0;
            && n.mem == mem + EeRequest(io, g, 0, [FirstByte(chip)]).0.mem && !Unbootable(n.mem)
            && n.trace != [] && n.trace[|n.trace| - 1] == n.mem && |n.trace| > |e.trace|
  {
    var f, t := e.(mem := mem), [FirstByte(chip)];
    SameToType(io, chip, config, lines, f);
    LoadTraces(io, chip, config, lines, f);
    LoadIsToType(io, chip, config, lines, f);
    assert |Marked(io, chip, f).trace| == |e.trace| + 1;
    var a, b := ToType(io, chip, config, lines, f).0, ToType(io, chip, config, lines, e.(mem := map[])).0;
    SameRequest(io, mem, a, b, 0, t);
    RequestTraces(io, a, 0, t);
    assert t[..1] == t;
    assert 0 in EeRequest(io, a, 0, t).0.mem && EeRequest(io, a, 0, t).0.mem[0] == t[0];
    hide LoadEeprom, ToType, EeRequest, Marked, Parse;
  }

  /** If something before the stored type byte was cut short, one of two EEPROMs ends up unsafe. */
  lemma CutIsUnsafe(io: nat -> Io, chip: Chip, config: int, lines: seq<Line>, e: Eeprom)
    requires WellSized(lines) && Fits(chip, Parse(lines).out)
    requires var (f, ready) := ToType(io, chip, config, lines, e);
            ready && TypeStored(io, f) && f.cut > Marked(io, chip, e).cut
    ensures var out := Parse(lines).out;
            !(SafeSince(chip, config, out, e.trace,
                LoadEeprom(io, chip, true, config, lines, e.(mem := Filled(0))).0.trace)
              && SafeSince(chip, config, out, e.trace,
                LoadEeprom(io, chip, true, config, lines, e.(mem := Filled(1))).0.trace))
  {
    var blank, out := e.(mem := map[]), Parse(lines).out;
    SameToType(io, chip, config, lines, e);
    SameMark(io, chip, e);
    var g := ToType(io, chip, config, lines, blank).0;
    ToTypeHoled(io, chip, config, lines, blank);
    TypeKeepsMissing(io, chip, config, out, g);
    TypedOver(io, chip, config, lines, e, Filled(0));
    TypedOver(io, chip, config, lines, e, Filled(1));
    hide LoadEeprom, ToType, Marked, Parse, Filled, EeRequest, Bootable, Unbootable;
    var n := EeRequest(io, g, 0, [FirstByte(chip)]).0.mem;
    if Bootable(chip, config, out, Filled(0) + n) && Bootable(chip, config, out, Filled(1) + n) {
      BootableOver(chip, config, out, n);
    }
  }

  /**
   * Main theorem, for every device, short writes included, and every outcome of the load: whatever the 64 KiB held
   * before, every state on the way is unbootable or boots the complete image, exactly when the mark is stored and, if
   * the type byte is stored at the end, none of the requests between them was cut short.
   */
  lemma SafeIffUncut(io: nat -> Io, chip: Chip, config: int, lines: seq<Line>, e: Eeprom)
    requires WellSized(lines) && Fits(chip, Parse(lines).out)
    ensures var (f, ready) := ToType(io, chip, config, lines, e);
            MarkStored(io, e) && (ready && TypeStored(io, f) ==> f.cut == Marked(io, chip, e).cut)
            <==>
            forall mem: Memory | Total(mem) ::
              SafeSince(chip, config, Parse(lines).out, e.trace,
                LoadEeprom(io, chip, true, config, lines, e.(mem := mem)).0.trace)
  {
    var (f, ready) := ToType(io, chip, config, lines, e);
    var out := Parse(lines).out;
    SameToType(io, chip, config, lines, e);
    SameMark(io, chip, e);
    if ready { AlikeToType(io, chip, config, lines, e); }
    assert Total(Filled(0)) && Total(Filled(1)) && Total(Filled(FirstByte(chip)));
    hide LoadEeprom, ToType, Marked, Parse, SafeSince, Fits, Total, Filled;
    if !MarkStored(io, e) {
      UnmarkedIsUnsafe(io, chip, config, lines, e);
    } else if ready && TypeStored(io, f) && f.cut > Marked(io, chip, e).cut {
      CutIsUnsafe(io, chip, config, lines, e);
    } else {
      forall mem: Memory
        ensures SafeSince(chip, config, out, e.trace,
          LoadEeprom(io, chip, true, config, lines, e.(mem := mem)).0.trace)
      {
        SameToType(io, chip, config, lines, e.(mem := mem));
        SameMark(io, chip, e.(mem := mem));
        SafeLoads(io, chip, config, lines, e.(mem := mem));
      }
    }
  }
}
