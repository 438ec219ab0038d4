/**
 * The record loop of parse_ihex in ezusb.c: data records are gathered into chunks of at most 1023 bytes, and
 * each chunk is handed to poke().
 */
module HexRecords {
  type Byte = b: nat | b < 256

  /** What one line of the file amounts to. `Unspecified` is a line whose meaning this model leaves open. */
  datatype Line =
    | Comment
    | Data(off: nat, bytes: seq<Byte>)
    | EndOfFile(off: nat)
    | NotRecord
    | BadType(off: nat)
    | TooShort(off: nat)
    | Unspecified

  /** One call of poke(). */
  datatype Chunk = Chunk(addr: nat, data: seq<Byte>)

  /** How the loop ended: the return code, or a line outside the model. */
  datatype Status = Code(rc: int) | Open

  /** data_addr, data[0..data_len), first_line, the chunks flushed so far, and how the loop ended. */
  datatype Gather = Gather(addr: nat, buf: seq<Byte>, first: bool, out: seq<Chunk>, status: Status, ended: bool)

  const LIMIT := 1023

  function Start(): Gather { Gather(0, [], true, [], Code(0), false) }

  function Flush(g: Gather): Gather {
    if g.buf == [] then g else g.(out := g.out + [Chunk(g.addr, g.buf)], buf := [])
  }

  /** A record that is neither contiguous with the gathered bytes nor fits behind them flushes them. */
  function OnData(g: Gather, off: nat, bytes: seq<Byte>): Gather {
    if g.buf != [] && (off != g.addr + |g.buf| || |g.buf| + |bytes| > LIMIT)
    then Flush(g).(addr := off, buf := bytes)
    else g.(buf := g.buf + bytes)
  }

  function Stop(g: Gather, s: Status): Gather { g.(status := s, ended := true) }

  function Seen(g: Gather, off: nat): Gather {
    if g.first then g.(addr := off, first := false) else g
  }

  function Step(g: Gather, line: Line): Gather {
    if g.ended then g
    else match line
      case Comment => g
      case NotRecord => Stop(g, Code(-2))
      case EndOfFile(off) => Stop(Flush(Seen(g, off)), Code(0))
      case BadType(off) => Stop(Seen(g, off), Code(-3))
      case TooShort(off) => Stop(Seen(g, off), Code(-4))
      case Unspecified => Stop(g, Open)
      case Data(off, bytes) => OnData(Seen(g, off), off, bytes)
  }

  function Run(g: Gather, lines: seq<Line>): Gather
    decreases |lines|
  {
    if lines == [] then g else Run(Step(g, lines[0]), lines[1..])
  }

  /** The whole loop; a file that ends without an end-of-file record is flushed as well. */
  function Parse(lines: seq<Line>): Gather {
    var g := Run(Start(), lines);
    if g.ended then g else Stop(Flush(g), Code(0))
  }

  // ---- How the loop ends ----

  /** A line the loop goes on after. */
  predicate Continues(line: Line) { line.Comment? || line.Data? }

  lemma {:induction false} ContinuesRun(g: Gather, good: seq<Line>)
    requires !g.ended && (g.first ==> g.buf == []) && forall line | line in good :: Continues(line)
    ensures var n := Run(g, good); !n.ended && (n.first ==> n.buf == [])
    decreases |good|
  {
    if good != [] {
      assert good[0] in good;
      ContinuesRun(Step(g, good[0]), good[1..]);
    }
  }

  lemma {:induction false} RunConcat(g: Gather, a: seq<Line>, b: seq<Line>)
    ensures Run(g, a + b) == Run(Run(g, a), b)
    decreases |a|
  {
    if a == [] {
      assert a + b == b;
    } else {
      assert (a + b)[0] == a[0] && (a + b)[1..] == a[1..] + b;
      RunConcat(Step(g, a[0]), a[1..], b);
    }
  }

  lemma {:induction false} EndedStays(g: Gather, lines: seq<Line>)
    requires g.ended
    ensures Run(g, lines) == g
    decreases |lines|
  {
    if lines != [] { EndedStays(g, lines[1..]); }
  }

  /**
   * The first line that is neither a comment nor a data record decides: an end-of-file record, like the end of the
   * file, hands over what is gathered and gives 0; anything else gives its error code, and what is gathered is lost.
   */
  lemma FirstBadLineDecides(good: seq<Line>, bad: Line, rest: seq<Line>)
    requires (forall line | line in good :: Continues(line)) && !Continues(bad)
    ensures var g, p := Run(Start(), good), Parse(good + [bad] + rest);
            && Parse(good).status == Code(0)
            && Parse(good).out == g.out + (if g.buf == [] then [] else [Chunk(g.addr, g.buf)]) && Parse(good).buf == []
            && p.status == (match bad
              case EndOfFile(_) => Code(0)
              case NotRecord => Code(-2)
              case BadType(_) => Code(-3)
              case TooShort(_) => Code(-4)
              case _ => Open)
            && p.out == (if bad.EndOfFile? then Parse(good).out else g.out)
  {
    ContinuesRun(Start(), good);
    RunConcat(Start(), good + [bad], rest);
    RunConcat(Start(), good, [bad]);
    var g := Run(Start(), good);
    assert [bad][1..] == [];
    assert Run(Step(g, bad), []) == Step(g, bad);
    hide Run;
    EndedStays(Step(g, bad), rest);
  }

  // ---- Meaning ----

  /** The single-byte writes a block of bytes stands for, in order. */
  function Writes(addr: nat, data: seq<Byte>): (w: seq<(nat, Byte)>)
    ensures |w| == |data|
  {
    seq(|data|, i requires 0 <= i < |data| => (addr + i, data[i]))
  }

  function ChunkWrites(chunks: seq<Chunk>): seq<(nat, Byte)> {
    if chunks == [] then []
    else ChunkWrites(chunks[..|chunks| - 1]) + Writes(chunks[|chunks| - 1].addr, chunks[|chunks| - 1].data)
  }

  /** The writes the data records of a file stand for, one record after the other, up to where the loop stops. */
  function RecordWrites(lines: seq<Line>): seq<(nat, Byte)>
    decreases |lines|
  {
    if lines == [] then []
    else match lines[0]
      case Comment => RecordWrites(lines[1..])
      case Data(off, bytes) => Writes(off, bytes) + RecordWrites(lines[1..])
      case _ => []
  }

  /**
   * No address is lost by empty records: with nothing gathered (at the start, or after an empty record that broke
   * the run of addresses) the next non-empty record continues at the address noted then. `at` is where the next
   * byte would go, `empty` whether nothing is gathered.
   */
  predicate Anchored(lines: seq<Line>, first: bool, at: nat, empty: bool)
    decreases |lines|
  {
    if lines == [] then true
    else match lines[0]
      case Comment => Anchored(lines[1..], first, at, empty)
      case Data(off, bytes) =>
        var at' := if first then off else at;
        if bytes == [] then
          if empty || off == at' then Anchored(lines[1..], false, at', empty)
            else Anchored(lines[1..], false, off, true)
        else (empty ==> off == at') && Anchored(lines[1..], false, off + |bytes|, false)
      case _ => true
  }

  lemma WritesConcat(addr: nat, a: seq<Byte>, b: seq<Byte>)
    ensures Writes(addr, a + b) == Writes(addr, a) + Writes(addr + |a|, b)
  {}

  /** Everything gathered so far, flushed or not. */
  function Gathered(g: Gather): seq<(nat, Byte)> {
    ChunkWrites(g.out) + Writes(g.addr, g.buf)
  }

  lemma FlushGathered(g: Gather)
    ensures ChunkWrites(Flush(g).out) == Gathered(g)
  {
    if g.buf != [] {
      var out := Flush(g).out;
      assert out[..|out| - 1] == g.out;
    }
  }

  lemma DataGathered(g: Gather, off: nat, bytes: seq<Byte>)
    ensures var n := OnData(g, off, bytes);
            var at := if g.buf == [] then g.addr else off;
            Gathered(n) == Gathered(g) + Writes(at, bytes)
  {
    if g.buf != [] && (off != g.addr + |g.buf| || |g.buf| + |bytes| > LIMIT) {
      FlushGathered(g);
    } else {
      WritesConcat(g.addr, g.buf, bytes);
      assert ChunkWrites(g.out) + (Writes(g.addr, g.buf) + Writes(g.addr + |g.buf|, bytes))
          == (ChunkWrites(g.out) + Writes(g.addr, g.buf)) + Writes(g.addr + |g.buf|, bytes);
    }
  }

  lemma SameWrites(a: nat, b: nat, bytes: seq<Byte>)
    ensures Writes(a, bytes) == Writes(b, bytes) <==> a == b || bytes == []
  {
    if bytes != [] && a != b { assert Writes(a, bytes)[0] != Writes(b, bytes)[0]; }
  }

  lemma EqualConcat<T>(a: seq<T>, b: seq<T>, c: seq<T>, d: seq<T>)
    requires |a| == |b|
    ensures a + c == b + d <==> a == b && c == d
  {
    if a + c == b + d {
      assert a == (a + c)[..|a|] && b == (b + d)[..|b|];
      assert c == (a + c)[|a|..] && d == (b + d)[|b|..];
    }
  }

  predicate WellSized(lines: seq<Line>) {
    forall l | l in lines :: l.Data? ==> |l.bytes| <= 255
  }

  /** What the loop keeps: chunks are non-empty and at most 1023 bytes long, and so is what is being gathered. */
  ghost predicate Inv(g: Gather) {
    && |g.buf| <= LIMIT && (g.first ==> g.buf == []) && (!g.ended ==> g.status == Code(0))
    && (forall c | c in g.out :: 0 < |c.data| <= LIMIT)
  }

  lemma StepKeepsInv(g: Gather, line: Line)
    requires Inv(g) && (line.Data? ==> |line.bytes| <= 255)
    ensures Inv(Step(g, line))
  {}

  lemma {:induction false} RunKeepsInv(g: Gather, lines: seq<Line>)
    requires Inv(g) && WellSized(lines)
    ensures Inv(Run(g, lines))
    decreases |lines|
  {
    if lines != [] {
      StepKeepsInv(g, lines[0]);
      RunKeepsInv(Step(g, lines[0]), lines[1..]);
    }
  }

  /** Everything collected by a run: the flushed chunks, and what is still gathered if the run has not ended. */
  function Collected(g: Gather): seq<(nat, Byte)> {
    if g.ended then ChunkWrites(g.out) else Gathered(g)
  }

  /** One data record: right exactly when everything before it was and it lands where it says. */
  lemma DataMeaning(g: Gather, seen: seq<(nat, Byte)>, off: nat, bytes: seq<Byte>)
    requires Inv(g) && !g.ended && |seen| == |Gathered(g)|
    ensures var n := Step(g, Data(off, bytes));
            var at := if g.first then off else g.addr + |g.buf|;
            && !n.ended && |seen + Writes(off, bytes)| == |Gathered(n)|
            && (Gathered(n) == seen + Writes(off, bytes) <==>
                  Gathered(g) == seen && (bytes == [] || g.buf != [] || off == at))
  {
    var h := Seen(g, off);
    assert Gathered(h) == Gathered(g) by { assert g.first ==> Writes(g.addr, g.buf) == Writes(off, g.buf); }
    DataGathered(h, off, bytes);
    var at := if h.buf == [] then h.addr else off;
    EqualConcat(Gathered(h), seen, Writes(at, bytes), Writes(off, bytes));
    SameWrites(at, off, bytes);
  }

  /** Where the next byte goes and whether anything is gathered, after one data record that was not misplaced. */
  lemma DataPosition(g: Gather, off: nat, bytes: seq<Byte>, rest: seq<Line>)
    requires Inv(g) && !g.ended && |bytes| <= 255
    requires bytes == [] || g.buf != [] || off == if g.first then off else g.addr + |g.buf|
    ensures var n := Step(g, Data(off, bytes));
            Anchored([Data(off, bytes)] + rest, g.first, g.addr + |g.buf|, g.buf == []) <==>
            Anchored(rest, n.first, n.addr + |n.buf|, n.buf == [])
  {
    assert ([Data(off, bytes)] + rest)[1..] == rest;
  }

  /** One data record at the head of a run. */
  lemma DataCase(g: Gather, seen: seq<(nat, Byte)>, off: nat, bytes: seq<Byte>, rest: seq<Line>,
      total: seq<(nat, Byte)>)
    requires Inv(g) && !g.ended && |bytes| <= 255 && |seen| == |Gathered(g)|
    requires var n := Step(g, Data(off, bytes));
             total == (seen + Writes(off, bytes)) + RecordWrites(rest) <==>
             Gathered(n) == seen + Writes(off, bytes) && Anchored(rest, n.first, n.addr + |n.buf|, n.buf == [])
    ensures total == seen + RecordWrites([Data(off, bytes)] + rest) <==>
            Gathered(g) == seen && Anchored([Data(off, bytes)] + rest, g.first, g.addr + |g.buf|, g.buf == [])
  {
    hide Gathered, Step, RecordWrites, Writes, Inv;
    RecordWritesData(off, bytes, rest);
    assert (seen + Writes(off, bytes)) + RecordWrites(rest) == seen + (Writes(off, bytes) + RecordWrites(rest));
    DataMeaning(g, seen, off, bytes);
    if bytes == [] || g.buf != [] || g.first || off == g.addr + |g.buf| {
      DataPosition(g, off, bytes, rest);
    } else {
      Misplaced(g, off, bytes, rest);
    }
  }

  lemma RecordWritesData(off: nat, bytes: seq<Byte>, rest: seq<Line>)
    ensures RecordWrites([Data(off, bytes)] + rest) == Writes(off, bytes) + RecordWrites(rest)
  {
    assert ([Data(off, bytes)] + rest)[1..] == rest;
  }

  lemma Misplaced(g: Gather, off: nat, bytes: seq<Byte>, rest: seq<Line>)
    requires bytes != [] && g.buf == [] && !g.first && off != g.addr + |g.buf|
    ensures !Anchored([Data(off, bytes)] + rest, g.first, g.addr + |g.buf|, g.buf == [])
  {}

  lemma EndMeaning(g: Gather, off: nat)
    requires Inv(g) && !g.ended
    ensures Collected(Step(g, EndOfFile(off))) == Gathered(g)
  {
    FlushGathered(Seen(g, off));
    assert g.first ==> Writes(g.addr, g.buf) == Writes(off, g.buf);
  }

  /** After a run that no error has stopped, what was collected is right exactly when the records were anchored. */
  lemma {:induction false} RunMeaning(g: Gather, seen: seq<(nat, Byte)>, lines: seq<Line>)
    requires Inv(g) && WellSized(lines) && !g.ended && |seen| == |Gathered(g)|
    requires Run(g, lines).status == Code(0)
    ensures Collected(Run(g, lines)) == seen + RecordWrites(lines) <==>
            Gathered(g) == seen && Anchored(lines, g.first, g.addr + |g.buf|, g.buf == [])
    decreases |lines|
  {
    if lines == [] {
      assert seen + [] == seen;
    } else {
      hide Gathered, OnData, Seen, Flush, Inv, Writes;
      var n, rest := Step(g, lines[0]), lines[1..];
      StepKeepsInv(g, lines[0]);
      match lines[0]
      case Comment => RunMeaning(g, seen, rest);
      case Data(off, bytes) =>
        DataMeaning(g, seen, off, bytes);
        assert Run(g, lines) == Run(n, rest);
        hide Step, Run;
        RunMeaning(n, seen + Writes(off, bytes), rest);
        assert [Data(off, bytes)] + rest == lines;
        DataCase(g, seen, off, bytes, rest, Collected(Run(n, rest)));
      case EndOfFile(off) =>
        EndedStays(n, rest);
        EndMeaning(g, off);
        assert seen + [] == seen;
      case _ =>
        EndedStays(n, rest);
    }
  }

  /** Every chunk poked is non-empty and at most 1023 bytes long, however the file ends. */
  lemma ChunkSizes(lines: seq<Line>)
    requires WellSized(lines)
    ensures forall c | c in Parse(lines).out :: 0 < |c.data| <= LIMIT
  {
    RunKeepsInv(Start(), lines);
  }

  /**
   * Main theorem: for a file that parses without error, the chunks poked are the records' bytes at the records'
   * addresses, in the records' order, exactly when no empty record misplaces its successor.
   */
  lemma MergingPreservesMeaning(lines: seq<Line>)
    requires WellSized(lines) && Parse(lines).status == Code(0)
    ensures ChunkWrites(Parse(lines).out) == RecordWrites(lines) <==> Anchored(lines, true, 0, true)
  {
    var g := Run(Start(), lines);
    RunKeepsInv(Start(), lines);
    RunMeaning(Start(), [], lines);
    FlushGathered(g);
    assert [] + RecordWrites(lines) == RecordWrites(lines);
  }

  /** Files without empty records are always anchored. */
  lemma {:induction false} NonEmptyIsAnchored(lines: seq<Line>, first: bool, at: nat, empty: bool)
    requires forall l | l in lines :: l.Data? ==> l.bytes != []
    requires empty ==> first
    ensures Anchored(lines, first, at, empty)
    decreases |lines|
  {
    if lines != [] {
      match lines[0]
      case Data(off, bytes) =>
        assert lines[0] in lines;
        NonEmptyIsAnchored(lines[1..], false, off + |bytes|, false);
      case Comment => NonEmptyIsAnchored(lines[1..], first, at, empty);
      case _ =>
    }
  }

  /** An empty first record at one address makes the next record land there instead of at its own address. */
  lemma EmptyRecordMisplaces(x: nat, y: nat, b: Byte)
    ensures var lines := [Data(x, []), Data(y, [b])];
            && RecordWrites(lines) == [(y, b)]
            && Parse(lines).status == Code(0) && ChunkWrites(Parse(lines).out) == [(x, b)]
  {
    var lines := [Data(x, []), Data(y, [b])];
    assert lines[1..] == [Data(y, [b])];
    assert RecordWrites(lines[1..]) == Writes(y, [b]) + [];
    assert RecordWrites(lines) == Writes(x, []) + RecordWrites(lines[1..]);
    var g1 := Step(Start(), lines[0]);
    var g2 := Step(g1, lines[1]);
    assert g2 == Gather(x, [b], false, [], Code(0), false);
    assert Run(g1, [Data(y, [b])]) == g2 by { assert Run(g2, []) == g2; }
    assert Run(Start(), lines) == g2;
    assert Flush(g2).out == [Chunk(x, [b])];
    FlushGathered(g2);
  }
}
