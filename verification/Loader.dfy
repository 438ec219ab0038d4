/**
 * Writing to a device: ezusb_write, ram_poke and eeprom_poke of ezusb.c, and parse_ihex feeding one of the two.
 */
module Loader {
  import opened HexRecords
  import opened Chips

  type Memory = map<nat, Byte>

  /**
   * What a control request does: stores everything, or stores only some bytes and returns their number, or fails
   * after storing some bytes. Callers take any non-negative return value of ezusb_write for success.
   */
  datatype Io = Full | Short(stored: nat) | Failed(stored: nat, timedOut: bool) {
    function Stored(len: nat): (n: nat)
      ensures n <= len && (if Full? then n == len else stored <= len ==> n == stored)
    {
      match this
      case Full => len
      case Short(n) => if n < len then n else len
      case Failed(n, _) => if n < len then n else len
    }
  }

  /** A request that is cut short is reported as failed. */
  predicate Honest(io: nat -> Io, k: nat) { !io(k).Short? }

  ghost predicate NoShort(io: nat -> Io) {
    forall k: nat :: Honest(io, k)
  }

  /** Memory after the bytes have been stored from addr on. */
  function Store(mem: Memory, addr: nat, data: seq<Byte>): (r: Memory)
    ensures forall a: nat :: a in r <==> a in mem || addr <= a < addr + |data|
    ensures forall a: nat | a in r :: r[a] == if addr <= a < addr + |data| then data[a - addr] else mem[a]
  {
    if data == [] then mem
    else Store(mem, addr, data[..|data| - 1])[addr + |data| - 1 := data[|data| - 1]]
  }

  datatype Mode = InternalOnly | SkipInternal | SkipExternal

  /**
   * struct ram_poke_context, and the device: its memory, the number of requests so far, whether its CPU runs.
   * `sent` records the block of every write request made, `done` the blocks whose write was reported as successful and
   * `whileRunning` whether the CPU ran then.
   */
  datatype Ram = Ram(
    mode: Mode, mem: Memory, requests: nat, running: bool, sent: seq<Chunk>, done: seq<Chunk>, whileRunning: seq<bool>)

  /**
   * struct eeprom_poke_context, and the device. `trace` records the EEPROM contents after every write request, `cut`
   * counts the requests that stored too little without being reported as failed.
   */
  datatype Eeprom = Eeprom(eeAddr: nat, last: bool, mem: Memory, requests: nat, trace: seq<Memory>, cut: nat)

  const RETRY_LIMIT := 5
  const EINVAL := 22
  const EDOM := 33
  const EIO := 5

  /** One RAM write request. */
  function RamRequest(io: nat -> Io, r: Ram, c: Chunk): Ram {
    r.(mem := Store(r.mem, c.addr, c.data[..io(r.requests).Stored(|c.data|)]), requests := r.requests + 1,
      sent := r.sent + [c])
  }

  /** Requests are repeated while they time out, at most RETRY_LIMIT times. */
  function RamRetry(io: nat -> Io, r: Ram, c: Chunk, retry: nat): (Ram, int)
    requires retry <= RETRY_LIMIT
    decreases RETRY_LIMIT - retry
  {
    var n := RamRequest(io, r, c);
    match io(r.requests)
    case Failed(_, timedOut) => if timedOut && retry < RETRY_LIMIT then RamRetry(io, n, c, retry + 1) else (n, -EIO)
    case _ => (n.(done := n.done + [c], whileRunning := n.whileRunning + [n.running]), 0)
  }

  function RamPoke(io: nat -> Io, r: Ram, external: bool, c: Chunk): (Ram, int) {
    if r.mode == InternalOnly && external then (r, -EINVAL)
    else if r.mode == SkipInternal && !external then (r, 0)
    else if r.mode == SkipExternal && external then (r, 0)
    else RamRetry(io, r, c, 0)
  }

  /** Fewer bytes stored than asked for, and no error. */
  predicate CutsShort(io: nat -> Io, k: nat, len: nat) { !io(k).Failed? && io(k).Stored(len) < len }

  /** One EEPROM write request; only the low 16 bits of the address select the cell. */
  function EeRequest(io: nat -> Io, e: Eeprom, addr: nat, data: seq<Byte>): (Eeprom, bool) {
    var mem := Store(e.mem, addr % 0x1_0000, data[..io(e.requests).Stored(|data|)]);
    (e.(mem := mem, requests := e.requests + 1, trace := e.trace + [mem],
        cut := e.cut + if CutsShort(io, e.requests, |data|) then 1 else 0),
     !io(e.requests).Failed?)
  }

  function Header(last: bool, c: Chunk): (h: seq<Byte>)
    ensures |h| == 4
  {
    [(|c.data| / 256) % 128 + (if last then 128 else 0), |c.data| % 256, (c.addr / 256) % 256, c.addr % 256]
  }

  function EepromPoke(io: nat -> Io, e: Eeprom, external: bool, c: Chunk): (Eeprom, int) {
    if external then (e, -EINVAL)
    else if |c.data| > 1023 then (e, -EDOM)
    else
      var (e1, ok1) := EeRequest(io, e, e.eeAddr, Header(e.last, c));
      if !ok1 then (e1, -1)
      else
        var (e2, ok2) := EeRequest(io, e1, e.eeAddr + 4, c.data);
        if !ok2 then (e2, -1)
        else (e2.(eeAddr := (e.eeAddr + 4 + |c.data|) % 0x1_0000), 0)
  }

  /** The poke() and context that parse_ihex is called with. */
  datatype Sink = ToRam(ram: Ram) | ToEeprom(eeprom: Eeprom)

  function Poke(io: nat -> Io, s: Sink, external: bool, c: Chunk): (Sink, int) {
    match s
    case ToRam(r) => var (r', rc) := RamPoke(io, r, external, c); (ToRam(r'), rc)
    case ToEeprom(e) => var (e', rc) := EepromPoke(io, e, external, c); (ToEeprom(e'), rc)
  }

  /** Chunks are poked in order up to the first failure. */
  function Deliver(io: nat -> Io, chip: Chip, s: Sink, chunks: seq<Chunk>): (Sink, bool)
    decreases |chunks|
  {
    if chunks == [] then (s, true)
    else
      var (s', rc) := Poke(io, s, External(chip, chunks[0].addr, |chunks[0].data|), chunks[0]);
      if rc < 0 then (s', false) else Deliver(io, chip, s', chunks[1..])
  }

  /** parse_ihex: a poke that fails ends it with -1. */
  function ParseInto(io: nat -> Io, chip: Chip, s: Sink, lines: seq<Line>): (Sink, Status) {
    var g := Parse(lines);
    var (s', ok) := Deliver(io, chip, s, g.out);
    (s', if ok then g.status else Code(-1))
  }

  lemma {:induction false} DeliverConcat(io: nat -> Io, chip: Chip, s: Sink, a: seq<Chunk>, b: seq<Chunk>)
    ensures var (m, ok) := Deliver(io, chip, s, a);
            Deliver(io, chip, s, a + b) == if ok then Deliver(io, chip, m, b) else (m, false)
    decreases |a|
  {
    if a == [] {
      assert a + b == b;
    } else {
      assert (a + b)[0] == a[0] && (a + b)[1..] == a[1..] + b;
      var (s', rc) := Poke(io, s, External(chip, a[0].addr, |a[0].data|), a[0]);
      if rc >= 0 { DeliverConcat(io, chip, s', a[1..], b); }
    }
  }

  /** A run only appends to its chunks, so a failed poke decides the result whatever follows. */
  lemma {:induction false} RunExtends(g: Gather, lines: seq<Line>)
    ensures g.out <= Run(g, lines).out
    decreases |lines|
  {
    if lines != [] { RunExtends(Step(g, lines[0]), lines[1..]); }
  }

  lemma FailureDecides(io: nat -> Io, chip: Chip, s: Sink, g: Gather, lines: seq<Line>)
    requires !Deliver(io, chip, s, g.out).1
    ensures var n := Run(g, lines); var all := if n.ended then n else Stop(Flush(n), Code(0));
            Deliver(io, chip, s, all.out) == Deliver(io, chip, s, g.out)
  {
    RunExtends(g, lines);
    var n := Run(g, lines);
    var all := if n.ended then n else Stop(Flush(n), Code(0));
    assert g.out <= all.out;
    var more := all.out[|g.out|..];
    assert all.out == g.out + more;
    DeliverConcat(io, chip, s, g.out, more);
  }

  /** The loader's end of the wire. */
  class Programmer {
    var sink: Sink

    /** ram_poke. */
    method RamPokeCall(io: nat -> Io, external: bool, c: Chunk) returns (rc: int)
      requires sink.ToRam?
      modifies this
      ensures sink.ToRam? && (sink.ram, rc) == RamPoke(io, old(sink.ram), external, c)
    {
      var r := sink.ram;
      match r.mode {
        case InternalOnly => if external { return -EINVAL; }
        case SkipInternal => if !external { return 0; }
        case SkipExternal => if external { return 0; }
      }
      var retry := 0;
      var failed := io(r.requests).Failed?;
      var timedOut := failed && io(r.requests).timedOut;
      r := RamRequest(io, r, c);
      while failed && timedOut && retry < RETRY_LIMIT
        invariant 0 <= retry <= RETRY_LIMIT
        invariant timedOut ==> failed
        invariant RamRetry(io, old(sink.ram), c, 0) ==
          if failed then (if timedOut && retry < RETRY_LIMIT then RamRetry(io, r, c, retry + 1) else (r, -EIO))
          else (r.(done := r.done + [c], whileRunning := r.whileRunning + [r.running]), 0)
        decreases RETRY_LIMIT - retry
      {
        retry := retry + 1;
        failed := io(r.requests).Failed?;
        timedOut := failed && io(r.requests).timedOut;
        r := RamRequest(io, r, c);
      }
      if !failed { r := r.(done := r.done + [c], whileRunning := r.whileRunning + [r.running]); }
      sink := ToRam(r);
      rc := if failed then -EIO else 0;
    }

    /** eeprom_poke. */
    method EepromPokeCall(io: nat -> Io, external: bool, c: Chunk) returns (rc: int)
      requires sink.ToEeprom?
      modifies this
      ensures sink.ToEeprom? && (sink.eeprom, rc) == EepromPoke(io, old(sink.eeprom), external, c)
    {
      hide EeRequest, Header;
      if external { return -EINVAL; }
      if |c.data| > 1023 { return -EDOM; }
      var e := sink.eeprom;
      var (e1, headerOk) := EeRequest(io, e, e.eeAddr, Header(e.last, c));
      sink := ToEeprom(e1);
      if !headerOk { return -1; }
      var (e2, dataOk) := EeRequest(io, e1, e.eeAddr + 4, c.data);
      sink := ToEeprom(e2);
      if !dataOk { return -1; }
      sink := ToEeprom(e2.(eeAddr := (e.eeAddr + 4 + |c.data|) % 0x1_0000));
      rc := 0;
    }

    /** The call through the function pointer, with the memory test of the chip at hand. */
    method PokeCall(io: nat -> Io, chip: Chip, c: Chunk) returns (rc: int)
      modifies this
      ensures (sink, rc) == Poke(io, old(sink), External(chip, c.addr, |c.data|), c)
    {
      var external := External(chip, c.addr, |c.data|);
      if sink.ToRam? { rc := RamPokeCall(io, external, c); } else { rc := EepromPokeCall(io, external, c); }
    }

    /** Append a record's bytes to the buffer, line 440-446. */
    method Append(data: array<Byte>, dataLen: nat, bytes: seq<Byte>)
      requires dataLen + |bytes| <= data.Length
      modifies data
      ensures data[..dataLen + |bytes|] == old(data[..dataLen]) + bytes
    {
      for idx := 0 to |bytes|
        invariant data[..dataLen + idx] == old(data[..dataLen]) + bytes[..idx]
      {
        data[dataLen + idx] := bytes[idx];
        assert data[..dataLen + idx + 1] == data[..dataLen + idx] + [bytes[idx]];
      }
    }

    /** Hand the gathered bytes to poke(), lines 430-434 and 452-456. */
    method FlushBuffer(io: nat -> Io, chip: Chip, dataAddr: nat, data: array<Byte>, dataLen: nat, ghost s0: Sink,
        ghost g: Gather)
      returns (rc: int)
      requires 0 < dataLen <= data.Length && g.addr == dataAddr && g.buf == data[..dataLen]
      requires (sink, true) == Deliver(io, chip, s0, g.out)
      modifies this
      ensures (sink, rc >= 0) == Deliver(io, chip, s0, Flush(g).out)
    {
      var c := Chunk(dataAddr, data[..dataLen]);
      DeliverConcat(io, chip, s0, g.out, [c]);
      assert [c][1..] == [];
      rc := PokeCall(io, chip, c);
    }

    /** parse_ihex, with the lines already cut and read. */
    method ParseIhex(io: nat -> Io, chip: Chip, lines: seq<Line>) returns (status: Status)
      requires WellSized(lines)
      modifies this
      ensures (sink, status) == ParseInto(io, chip, old(sink), lines)
    {
      hide Deliver, Run, WellSized;
      var data := new Byte[LIMIT](_ => 0);
      var dataAddr, dataLen: nat, first := 0, 0, true;
      ghost var g := Start();
      ghost var s0 := sink;
      DeliverNothing(io, chip, s0);
      var i := 0;
      while i < |lines|
        invariant i <= |lines| && fresh(data) && data.Length == LIMIT && dataLen <= LIMIT
        invariant !g.ended && Inv(g)
        invariant g.addr == dataAddr && g.buf == data[..dataLen] && g.first == first
        invariant (sink, true) == Deliver(io, chip, s0, g.out)
        invariant Run(Start(), lines) == Run(g, lines[i..])
      {
        var line := lines[i];
        assert line in lines;
        LineIsSized(lines, line);
        StepKeepsInv(g, line);
        RunFrom(g, lines, i);
        ghost var n := Step(g, line);
        if n.ended { EndedStays(n, lines[i + 1..]); }
        if line.NotRecord? { return Code(-2); }
        if line.Unspecified? { return Open; }
        if !line.Comment? {
          if first {
            dataAddr, first := line.off, false;
            g := Seen(g, line.off);
          }
          if line.BadType? { return Code(-3); }
          if line.TooShort? { return Code(-4); }
          if line.EndOfFile? { break; }
          if dataLen != 0 && (line.off != dataAddr + dataLen || dataLen + |line.bytes| > LIMIT) {
            var rc := FlushBuffer(io, chip, dataAddr, data, dataLen, s0, g);
            if rc < 0 {
              FailureDecides(io, chip, s0, n, lines[i + 1..]);
              return Code(-1);
            }
            dataAddr, dataLen := line.off, 0;
          }
          Append(data, dataLen, line.bytes);
          dataLen := dataLen + |line.bytes|;
        }
        g := n;
        i := i + 1;
      }
      if i == |lines| { RunFrom(g, lines, i); }
      if dataLen != 0 {
        var rc := FlushBuffer(io, chip, dataAddr, data, dataLen, s0, g);
        if rc < 0 { return Code(-1); }
      }
      status := Code(0);
    }
  }

  lemma LineIsSized(lines: seq<Line>, line: Line)
    requires WellSized(lines) && line in lines
    ensures line.Data? ==> |line.bytes| <= 255
  {}

  lemma RunFrom(g: Gather, lines: seq<Line>, i: nat)
    requires i <= |lines|
    ensures Run(g, lines[i..]) == if i == |lines| then g else Run(Step(g, lines[i]), lines[i + 1..])
  {
    if i < |lines| { assert lines[i..][1..] == lines[i + 1..]; }
  }

  lemma DeliverNothing(io: nat -> Io, chip: Chip, s: Sink)
    ensures Deliver(io, chip, s, []) == (s, true)
  {}
}
