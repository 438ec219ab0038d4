/**
 * The text side of parse_ihex: how fgets cuts a file into lines, how a line is read as a record, and that reading
 * back a file written in the Intel hexadecimal object format (data and end-of-file records) recovers its records.
 */
module HexText {
  import opened HexRecords

  // ---- Reading ----

  predicate IsHex(c: char) { '0' <= c <= '9' || 'a' <= c <= 'f' || 'A' <= c <= 'F' }

  function HexVal(c: char): (v: nat)
    requires IsHex(c)
    ensures v < 16
  {
    if '0' <= c <= '9' then c as nat - '0' as nat
    else if 'a' <= c <= 'f' then c as nat - 'a' as nat + 10
    else c as nat - 'A' as nat + 10
  }

  predicate HexAt(s: string, from: nat, n: nat) {
    from + n <= |s| && forall i | from <= i < from + n :: IsHex(s[i])
  }

  /** The number written in the two digits at position i. */
  function Hex2(s: string, i: nat): (v: Byte)
    requires HexAt(s, i, 2)
  {
    16 * HexVal(s[i]) + HexVal(s[i + 1])
  }

  function Hex4(s: string, i: nat): nat
    requires HexAt(s, i, 4)
  {
    256 * Hex2(s, i) + Hex2(s, i + 2)
  }

  /** The line up to its newline. */
  function Body(line: string): string {
    if line != [] && line[|line| - 1] == '\n' then line[..|line| - 1] else line
  }

  /**
   * Lines 361-418 and 440-445. The checksum is not looked at; records with a NUL, which ends a C string, are left
   * open.
   */
  function ParseLine(line: string): Line {
    if line == [] then Unspecified
    else if line[0] == '#' then Comment
    else if line[0] != ':' then NotRecord
    else if '\0' in line then Unspecified
    else
      var b := Body(line);
      if !HexAt(b, 1, 8) then Unspecified
      else
        var len, off, kind := Hex2(b, 1), Hex4(b, 3), Hex2(b, 7);
        if kind == 1 then EndOfFile(off)
        else if kind != 0 then BadType(off)
        else if 2 * len + 11 > |b| then TooShort(off)
        else if !HexAt(b, 9, 2 * len) then Unspecified
        else Data(off, seq(len, i requires 0 <= i < len => Hex2(b, 9 + 2 * i)))
  }

  const ROOM := 511   // fgets keeps one of the 512 characters of its buffer for the terminator

  /** How many characters fgets takes when it may take at most `room`: through the first newline, or all it can. */
  function Taken(text: string, room: nat): (n: nat)
    requires text != [] && room > 0
    ensures 0 < n <= |text| && n <= room
    decreases room
  {
    if text[0] == '\n' || |text| == 1 || room == 1 then 1 else 1 + Taken(text[1..], room - 1)
  }

  function Lines(text: string): seq<string>
    decreases |text|
  {
    if text == [] then [] else
      var n := Taken(text, ROOM);
      [text[..n]] + Lines(text[n..])
  }

  function ParseLines(lines: seq<string>): seq<Line> {
    if lines == [] then [] else [ParseLine(lines[0])] + ParseLines(lines[1..])
  }

  /** parse_ihex on the text of a file. */
  function ParseText(text: string): Gather { Parse(ParseLines(Lines(text))) }

  lemma {:induction false} ParseLinesWellSized(lines: seq<string>)
    ensures WellSized(ParseLines(lines))
    decreases |lines|
  {
    if lines != [] { ParseLinesWellSized(lines[1..]); }
  }

  // ---- Writing ----

  function HexChar(d: nat): (c: char)
    requires d < 16
    ensures IsHex(c) && HexVal(c) == d
  {
    if d < 10 then ('0' as nat + d) as char else ('A' as nat + d - 10) as char
  }

  function Text2(n: nat): (s: string)
    requires n < 256
    ensures |s| == 2 && HexAt(s, 0, 2) && Hex2(s, 0) == n
  {
    [HexChar(n / 16), HexChar(n % 16)]
  }

  function Text4(n: nat): (s: string)
    requires n < 0x1_0000
    ensures |s| == 4 && HexAt(s, 0, 4) && Hex4(s, 0) == n
  {
    Text2(n / 256) + Text2(n % 256)
  }

  function TextBytes(bytes: seq<Byte>): (s: string)
    ensures |s| == 2 * |bytes| && HexAt(s, 0, |s|)
  {
    if bytes == [] then [] else Text2(bytes[0]) + TextBytes(bytes[1..])
  }

  function Sum(bytes: seq<Byte>): nat { if bytes == [] then 0 else bytes[0] + Sum(bytes[1..]) }

  /** Two's complement of the low byte of the sum of all bytes of the record. */
  function Checksum(off: nat, bytes: seq<Byte>): Byte
    requires off < 0x1_0000 && |bytes| < 256
  {
    (256 - (|bytes| + off / 256 + off % 256 + Sum(bytes)) % 256) % 256
  }

  /** A data line without its newline. */
  function DataBody(off: nat, bytes: seq<Byte>): string
    requires off < 0x1_0000 && |bytes| < 256
  {
    ":" + Text2(|bytes|) + Text4(off) + "00" + TextBytes(bytes) + Text2(Checksum(off, bytes))
  }

  function DataText(off: nat, bytes: seq<Byte>): string
    requires off < 0x1_0000 && |bytes| < 256
  {
    DataBody(off, bytes) + "\n"
  }

  const EOF_TEXT := ":00000001FF\n"

  /** What a file is made of before its end-of-file record. */
  datatype Item = Note(text: string) | Record(off: nat, bytes: seq<Byte>)

  /**
   * Comments fit the line buffer and have no newline; records have 16-bit addresses and as many bytes as a record
   * can.
   */
  predicate Printable(i: Item) {
    match i
    case Note(text) => |text| <= ROOM - 2 && '\n' !in text
    case Record(off, bytes) => off < 0x1_0000 && |bytes| <= 255
  }

  /** The line of a record, with its newline, fits the buffer. */
  predicate FitsLine(i: Item) { i.Record? ==> |i.bytes| <= 249 }

  function ItemText(i: Item): string
    requires Printable(i)
  {
    match i
    case Note(text) => "#" + text + "\n"
    case Record(off, bytes) => DataText(off, bytes)
  }

  function FileText(items: seq<Item>): string
    requires forall i | i in items :: Printable(i)
  {
    if items == [] then EOF_TEXT else ItemText(items[0]) + FileText(items[1..])
  }

  // ---- Reading back ----

  /** Text with exactly one newline, at its end, that fits the buffer: one line for fgets. */
  predicate OneLine(s: string) {
    0 < |s| <= ROOM && s[|s| - 1] == '\n' && '\n' !in s[..|s| - 1]
  }

  lemma {:induction false} TakesOneLine(s: string, rest: string, room: nat)
    requires 0 < |s| <= room && s[|s| - 1] == '\n' && '\n' !in s[..|s| - 1]
    ensures Taken(s + rest, room) == |s|
    decreases |s|
  {
    if |s| > 1 {
      assert s[0] == s[..|s| - 1][0];
      assert s[1..][..|s| - 2] == s[..|s| - 1][1..];
      TakesOneLine(s[1..], rest, room - 1);
      assert (s + rest)[1..] == s[1..] + rest;
    }
  }

  lemma LineThenRest(s: string, rest: string)
    requires OneLine(s)
    ensures Lines(s + rest) == [s] + Lines(rest)
  {
    TakesOneLine(s, rest, ROOM);
    assert (s + rest)[..|s|] == s && (s + rest)[|s|..] == rest;
  }

  /** Digits keep their value wherever the text that holds them is placed. */
  lemma HexInside(b: string, from: nat, t: string)
    requires from + |t| <= |b| && b[from..from + |t|] == t && HexAt(t, 0, |t|)
    ensures HexAt(b, from, |t|)
    ensures |t| == 2 ==> Hex2(b, from) == Hex2(t, 0)
    ensures |t| == 4 ==> Hex4(b, from) == Hex4(t, 0)
  {
    assert forall i | 0 <= i < |t| :: b[from + i] == t[i];
    forall i | from <= i < from + |t| ensures IsHex(b[i]) { assert b[i] == t[i - from]; }
  }

  lemma SliceParts(b: string, from: nat, t: string, rest: string)
    requires from + |t| + |rest| <= |b| && b[from..from + |t| + |rest|] == t + rest
    ensures b[from..from + |t|] == t && b[from + |t|..from + |t| + |rest|] == rest
  {
    var s := b[from..from + |t| + |rest|];
    assert s[..|t|] == t && s[|t|..] == rest;
    assert b[from..from + |t|] == s[..|t|] && b[from + |t|..from + |t| + |rest|] == s[|t|..];
  }

  lemma FirstByteInside(b: string, from: nat, bytes: seq<Byte>)
    requires bytes != [] && from + 2 * |bytes| <= |b| && b[from..from + 2 * |bytes|] == TextBytes(bytes)
    ensures HexAt(b, from, 2) && Hex2(b, from) == bytes[0]
    ensures b[from + 2..from + 2 + 2 * |bytes[1..]|] == TextBytes(bytes[1..])
  {
    var t, rest := Text2(bytes[0]), TextBytes(bytes[1..]);
    hide Hex2, IsHex, Text2;
    SliceParts(b, from, t, rest);
    HexInside(b, from, t);
  }

  lemma {:induction false} BytesInside(b: string, from: nat, bytes: seq<Byte>)
    requires from + 2 * |bytes| <= |b| && b[from..from + 2 * |bytes|] == TextBytes(bytes)
    ensures HexAt(b, from, 2 * |bytes|)
    ensures forall i | 0 <= i < |bytes| :: Hex2(b, from + 2 * i) == bytes[i]
    decreases |bytes|
  {
    hide Hex2, IsHex, TextBytes, Text2;
    if bytes != [] {
      FirstByteInside(b, from, bytes);
      BytesInside(b, from + 2, bytes[1..]);
      forall i | from <= i < from + 2 * |bytes| ensures IsHex(b[i]) {}
      forall i | 0 <= i < |bytes| ensures Hex2(b, from + 2 * i) == bytes[i] {
        if i > 0 { assert Hex2(b, (from + 2) + 2 * (i - 1)) == bytes[1..][i - 1]; }
      }
    }
  }

  lemma DataBodySlices(t2: string, t4: string, tb: string, tc: string)
    requires |t2| == 2 && |t4| == 4 && |tc| == 2
    ensures var b := ":" + t2 + t4 + "00" + tb + tc;
            && |b| == |tb| + 11 && b[0] == ':'
            && b[1..3] == t2 && b[3..7] == t4 && b[7..9] == "00" && b[9..9 + |tb|] == tb
              && b[9 + |tb|..9 + |tb| + 2] == tc
  {}

  /** The fields of a data line, by position. */
  lemma DataTextFields(off: nat, bytes: seq<Byte>)
    requires off < 0x1_0000 && |bytes| < 256
    ensures var b := DataBody(off, bytes);
            && DataText(off, bytes) == b + "\n" && |b| == 2 * |bytes| + 11 && b[0] == ':'
            && HexAt(b, 1, 8) && HexAt(b, 9, 2 * |bytes|) && HexAt(b, 9 + 2 * |bytes|, 2)
            && Hex2(b, 1) == |bytes| && Hex4(b, 3) == off && Hex2(b, 7) == 0
            && (forall i | 0 <= i < |bytes| :: Hex2(b, 9 + 2 * i) == bytes[i])
  {
    var t2, t4, tb, tc := Text2(|bytes|), Text4(off), TextBytes(bytes), Text2(Checksum(off, bytes));
    var b := DataBody(off, bytes);
    DataBodySlices(t2, t4, tb, tc);
    hide Hex2, Hex4, Text2, Text4, TextBytes, Checksum, IsHex;
    HexInside(b, 1, t2);
    HexInside(b, 3, t4);
    assert Hex2("00", 0) == 0 by { ZeroZero(); }
    HexInside(b, 7, "00");
    BytesInside(b, 9, bytes);
    HexInside(b, 9 + |tb|, tc);
  }

  lemma ZeroZero()
    ensures HexAt("00", 0, 2) && Hex2("00", 0) == 0
  {}

  /** Neither the end of a line nor the end of a C string. */
  predicate Plain(b: string) { forall k | 0 <= k < |b| :: b[k] != '\n' && b[k] != '\0' }

  lemma DataBodyIsPlain(off: nat, bytes: seq<Byte>)
    requires off < 0x1_0000 && |bytes| < 256
    ensures Plain(DataBody(off, bytes))
  {
    DataTextFields(off, bytes);
    var b := DataBody(off, bytes);
    hide DataBody;
    forall k | 0 <= k < |b| ensures b[k] != '\n' && b[k] != '\0' {
      if k >= 1 { assert IsHex(b[k]); }
    }
  }

  lemma ParsesDataLine(b: string, off: nat, bytes: seq<Byte>)
    requires |b| == 2 * |bytes| + 11 && Plain(b) && b[0] == ':' && HexAt(b, 1, 8) && HexAt(b, 9, 2 * |bytes|)
    requires Hex2(b, 1) == |bytes| && Hex4(b, 3) == off && Hex2(b, 7) == 0
    requires forall i | 0 <= i < |bytes| :: Hex2(b, 9 + 2 * i) == bytes[i]
    ensures ParseLine(b + "\n") == Data(off, bytes)
  {
    hide Hex2, Hex4, IsHex;
    assert Body(b + "\n") == b;
    assert (b + "\n")[0] == ':';
    assert seq(|bytes|, i requires 0 <= i < |bytes| => Hex2(b, 9 + 2 * i)) == bytes;
  }

  lemma ReadsBackRecord(off: nat, bytes: seq<Byte>)
    requires off < 0x1_0000 && |bytes| < 256
    ensures ParseLine(DataText(off, bytes)) == Data(off, bytes)
  {
    DataTextFields(off, bytes);
    DataBodyIsPlain(off, bytes);
    ParsesDataLine(DataBody(off, bytes), off, bytes);
  }

  /** Digits count alike in either case. */
  lemma DigitValues(d: nat)
    requires d < 16
    ensures IsHex("0123456789abcdef"[d]) && HexVal("0123456789abcdef"[d]) == d
    ensures IsHex("0123456789ABCDEF"[d]) && HexVal("0123456789ABCDEF"[d]) == d
  {}

  /** Length, address and type are found where the format puts them. */
  lemma RecordFields(len: nat, off: nat, kind: nat, rest: string)
    requires len < 256 && off < 0x1_0000 && kind < 256
    ensures var b := ":" + Text2(len) + Text4(off) + Text2(kind) + rest;
            && |b| == 9 + |rest| && b[0] == ':' && HexAt(b, 1, 8) && b[9..] == rest
            && Hex2(b, 1) == len && Hex4(b, 3) == off && Hex2(b, 7) == kind
  {
    var t2, t4, tk := Text2(len), Text4(off), Text2(kind);
    var b := ":" + t2 + t4 + tk + rest;
    assert b[1..3] == t2 && b[3..7] == t4 && b[7..9] == tk && b[9..] == rest;
    hide Hex2, Hex4, Text2, Text4, IsHex;
    HexInside(b, 1, t2);
    HexInside(b, 3, t4);
    HexInside(b, 7, tk);
  }

  /**
   * What a record line says, with or without its newline, for every length, address and type: type 1 ends the file, any
   * other type but 0 is unsupported, a line with fewer digits than its length asks for is too short, and otherwise the
   * digits are the data.
   */
  lemma RecordSays(len: nat, off: nat, kind: nat, rest: string)
    requires len < 256 && off < 0x1_0000 && kind < 256 && Plain(rest)
    ensures var b := ":" + Text2(len) + Text4(off) + Text2(kind) + rest;
            var line := ParseLine(b);
            && ParseLine(b + "\n") == line
            && (line == EndOfFile(off) <==> kind == 1)
            && (line == BadType(off) <==> kind > 1)
            && (line == TooShort(off) <==> kind == 0 && |rest| < 2 * len + 2)
            && (kind == 0 && |rest| >= 2 * len + 2 && HexAt(rest, 0, 2 * len) ==>
                  line == Data(off, seq(len, i requires 0 <= i < len => Hex2(rest, 2 * i))))
  {
    var b := ":" + Text2(len) + Text4(off) + Text2(kind) + rest;
    hide *;
    RecordFields(len, off, kind, rest);
    SaysRest(b, len, off, kind, rest);
  }

  lemma SaysRest(b: string, len: nat, off: nat, kind: nat, rest: string)
    requires |b| == 9 + |rest| && b[0] == ':' && b[9..] == rest && Plain(rest) && HexAt(b, 1, 8)
    requires Hex2(b, 1) == len && Hex4(b, 3) == off && Hex2(b, 7) == kind
    ensures var line := ParseLine(b);
            && ParseLine(b + "\n") == line
            && (line == EndOfFile(off) <==> kind == 1)
            && (line == BadType(off) <==> kind > 1)
            && (line == TooShort(off) <==> kind == 0 && |rest| < 2 * len + 2)
            && (kind == 0 && |rest| >= 2 * len + 2 && HexAt(rest, 0, 2 * len) ==>
                  line == Data(off, seq(len, i requires 0 <= i < len => Hex2(rest, 2 * i))))
  {
    HeaderIsPlain(b, rest);
    SameWithoutNewline(b);
    hide Hex2, Hex4, IsHex, HexAt, ParseLine;
    LineSays(b, len, off, kind);
    if kind == 0 && |rest| >= 2 * len + 2 && HexAt(rest, 0, 2 * len) { DigitsBehind(b, rest, len); }
  }

  lemma LineSays(b: string, len: nat, off: nat, kind: nat)
    requires b != [] && b[0] == ':' && Plain(b) && HexAt(b, 1, 8)
    requires Hex2(b, 1) == len && Hex4(b, 3) == off && Hex2(b, 7) == kind
    ensures ParseLine(b) ==
        if kind == 1 then EndOfFile(off)
        else if kind > 1 then BadType(off)
        else if |b| < 2 * len + 11 then TooShort(off)
        else if HexAt(b, 9, 2 * len) then Data(off, seq(len, i requires 0 <= i < len => Hex2(b, 9 + 2 * i)))
        else Unspecified
  {
    hide Hex2, Hex4, IsHex;
    assert Body(b) == b;
  }

  lemma HeaderIsPlain(b: string, rest: string)
    requires |b| == 9 + |rest| && b[0] == ':' && HexAt(b, 1, 8) && b[9..] == rest && Plain(rest)
    ensures Plain(b)
  {
    forall k | 0 <= k < |b| ensures b[k] != '\n' && b[k] != '\0' {
      if k >= 9 { assert b[k] == rest[k - 9]; } else if k >= 1 { assert IsHex(b[k]); }
    }
  }

  lemma DigitsBehind(b: string, rest: string, len: nat)
    requires |b| == 9 + |rest| && b[9..] == rest && HexAt(rest, 0, 2 * len)
    ensures HexAt(b, 9, 2 * len)
    ensures seq(len, i requires 0 <= i < len => Hex2(b, 9 + 2 * i))
         == seq(len, i requires 0 <= i < len => Hex2(rest, 2 * i))
  {
    assert forall k | 0 <= k < |rest| :: b[9 + k] == rest[k];
    forall i | 9 <= i < 9 + 2 * len ensures IsHex(b[i]) { assert b[i] == rest[i - 9]; }
    assert forall i | 0 <= i < len :: Hex2(b, 9 + 2 * i) == Hex2(rest, 2 * i);
  }

  /** A record with a NUL in it is left open. */
  lemma NulLeavesOpen(line: string)
    requires line != [] && line[0] == ':' && '\0' in line
    ensures ParseLine(line) == Unspecified
  {}

  function LineOf(i: Item): Line {
    match i
    case Note(_) => Comment
    case Record(off, bytes) => Data(off, bytes)
  }

  lemma ItemIsOneLine(i: Item)
    requires Printable(i) && FitsLine(i)
    ensures OneLine(ItemText(i)) && ParseLine(ItemText(i)) == LineOf(i)
  {
    match i
    case Note(text) =>
      var s := "#" + text + "\n";
      assert s[..|s| - 1] == "#" + text;
    case Record(off, bytes) =>
      DataTextFields(off, bytes);
      ReadsBackRecord(off, bytes);
      DataBodyIsPlain(off, bytes);
      var b := DataBody(off, bytes);
      hide DataBody, DataText;
      assert (b + "\n")[..|b|] == b;
  }

  lemma EofIsOneLine()
    ensures OneLine(EOF_TEXT) && ParseLine(EOF_TEXT) == EndOfFile(0)
  {
    var b := EOF_TEXT[..11];
    assert Body(EOF_TEXT) == b == ":00000001FF";
  }

  function LinesOf(items: seq<Item>): seq<Line> {
    if items == [] then [EndOfFile(0)] else [LineOf(items[0])] + LinesOf(items[1..])
  }

  /** Reading a written file back gives its lines. */
  lemma {:induction false} ReadsBackFile(items: seq<Item>)
    requires forall i | i in items :: Printable(i) && FitsLine(i)
    ensures ParseLines(Lines(FileText(items))) == LinesOf(items)
    decreases |items|
  {
    if items == [] {
      EofIsOneLine();
      LineThenRest(EOF_TEXT, "");
      assert EOF_TEXT + "" == EOF_TEXT;
      assert ParseLines([EOF_TEXT] + Lines("")) == [ParseLine(EOF_TEXT)] + ParseLines([]);
    } else {
      hide Lines, ParseLine, DataText;
      assert items[0] in items && forall i | i in items[1..] :: i in items;
      ItemIsOneLine(items[0]);
      LineThenRest(ItemText(items[0]), FileText(items[1..]));
      ReadsBackFile(items[1..]);
      var rest := Lines(FileText(items[1..]));
      assert ([ItemText(items[0])] + rest)[1..] == rest;
    }
  }

  /** The writes the records of a file stand for. */
  function ItemWrites(items: seq<Item>): seq<(nat, Byte)> {
    if items == [] then []
    else (if items[0].Record? then Writes(items[0].off, items[0].bytes) else []) + ItemWrites(items[1..])
  }

  lemma {:induction false} LinesOfFacts(items: seq<Item>, g: Gather)
    requires forall i | i in items :: Printable(i) && (i.Record? ==> i.bytes != [])
    requires !g.ended && g.status == Code(0)
    ensures RecordWrites(LinesOf(items)) == ItemWrites(items)
    ensures forall l | l in LinesOf(items) :: l.Data? ==> 0 < |l.bytes| <= 255
    ensures Run(g, LinesOf(items)).status == Code(0)
    decreases |items|
  {
    if items == [] {
      assert Run(Step(g, EndOfFile(0)), []) == Step(g, EndOfFile(0));
      assert [EndOfFile(0)][1..] == [];
    } else {
      LinesOfFacts(items[1..], Step(g, LineOf(items[0])));
      assert LinesOf(items)[1..] == LinesOf(items[1..]);
    }
  }

  /**
   * Main theorem: a file of comments and non-empty data records, written as text and read by parse_ihex, is accepted
   * and its chunks write exactly the records' bytes at the records' addresses.
   */
  lemma TextRoundTrip(items: seq<Item>)
    requires forall i | i in items :: Printable(i) && FitsLine(i) && (i.Record? ==> i.bytes != [])
    ensures ParseText(FileText(items)).status == Code(0)
    ensures ChunkWrites(ParseText(FileText(items)).out) == ItemWrites(items)
  {
    ReadsBackFile(items);
    LinesOfFacts(items, Start());
    MergingPreservesMeaning(LinesOf(items));
    NonEmptyIsAnchored(LinesOf(items), true, 0, true);
  }

  /**
   * Any text that parses without error pokes exactly what its lines say, in order, exactly when no empty record
   * misplaces its successor.
   */
  lemma TextMeaning(text: string)
    requires ParseText(text).status == Code(0)
    ensures var lines := ParseLines(Lines(text));
            ChunkWrites(ParseText(text).out) == RecordWrites(lines) <==> Anchored(lines, true, 0, true)
  {
    ParseLinesWellSized(Lines(text));
    MergingPreservesMeaning(ParseLines(Lines(text)));
  }

  // ---- Records that do not fit the line buffer ----

  /**
   * What parse_ihex returns for a written file. A record of 250 bytes loses its newline, which is refused as a line of
   * its own; a longer one loses digits as well and is found too short.
   */
  function Verdict(items: seq<Item>): Status {
    if items == [] then Code(0)
    else if FitsLine(items[0]) then Verdict(items[1..])
    else if |items[0].bytes| == 250 then Code(-2) else Code(-4)
  }

  lemma {:induction false} VerdictIsZeroIff(items: seq<Item>)
    ensures Verdict(items) == Code(0) <==> forall i | i in items :: FitsLine(i)
  {
    if items != [] {
      VerdictIsZeroIff(items[1..]);
      assert items[0] in items && forall i | i in items[1..] :: i in items;
    }
  }

  /** Without a newline among its first 511 characters, a text yields them as its first line. */
  lemma CutLine(b: string, rest: string)
    requires |b| >= ROOM && forall k | 0 <= k < |b| :: b[k] != '\n'
    ensures Lines(b + rest) == [b[..ROOM]] + Lines(b[ROOM..] + rest)
  {
    hide Lines, Taken;
    assert b == b[..ROOM] + b[ROOM..];
    TakesRoom(b[..ROOM], b[ROOM..] + rest, ROOM);
    assert b[..ROOM] + (b[ROOM..] + rest) == b + rest;
    LinesStep(b + rest);
    assert (b + rest)[..ROOM] == b[..ROOM] && (b + rest)[ROOM..] == b[ROOM..] + rest;
  }

  /** 250 bytes: the line is complete but for its newline. */
  lemma CutOfNewline(off: nat, bytes: seq<Byte>, rest: string)
    requires off < 0x1_0000 && |bytes| == 250
    ensures Lines(DataText(off, bytes) + rest) == [DataBody(off, bytes), "\n"] + Lines(rest)
    ensures ParseLine(DataBody(off, bytes)) == Data(off, bytes) && ParseLine("\n") == NotRecord
  {
    DataTextFields(off, bytes);
    DataBodyIsPlain(off, bytes);
    ReadsBackRecord(off, bytes);
    var b := DataBody(off, bytes);
    StrayNewline();
    SameWithoutNewline(b);
    hide DataBody, ParseLine, Lines, HexAt, IsHex;
    CutsOffNewline(b, rest);
  }

  lemma CutsOffNewline(b: string, rest: string)
    requires |b| == ROOM && forall k | 0 <= k < |b| :: b[k] != '\n'
    ensures Lines((b + "\n") + rest) == [b, "\n"] + Lines(rest)
  {
    hide Lines;
    CutLine(b, "\n" + rest);
    assert b[..ROOM] == b && b[ROOM..] + ("\n" + rest) == "\n" + rest;
    LineThenRest("\n", rest);
    assert (b + "\n") + rest == b + ("\n" + rest);
    Prepend(b, "\n", Lines(rest));
  }

  lemma SameWithoutNewline(b: string)
    requires b != [] && forall k | 0 <= k < |b| :: b[k] != '\n'
    ensures ParseLine(b + "\n") == ParseLine(b)
  {
    assert Body(b + "\n") == b == Body(b);
  }

  /** More than 250 bytes: digits are missing. */
  lemma CutOfDigits(off: nat, bytes: seq<Byte>, rest: string)
    requires off < 0x1_0000 && 250 < |bytes| <= 255
    ensures Lines(DataText(off, bytes) + rest) != []
    ensures ParseLine(Lines(DataText(off, bytes) + rest)[0]) == TooShort(off)
  {
    hide DataBody, ParseLine, Lines, HexAt, IsHex, Hex2, Hex4;
    DataTextFields(off, bytes);
    DataBodyIsPlain(off, bytes);
    var b := DataBody(off, bytes);
    assert (b + "\n") + rest == b + ("\n" + rest);
    TooShortLine(b[..ROOM], b, off, |bytes|);
    CutLine(b, "\n" + rest);
  }

  lemma TooShortLine(cut: string, b: string, off: nat, len: nat)
    requires |b| == 2 * len + 11 > ROOM && cut == b[..ROOM] && b[0] == ':' && HexAt(b, 1, 8)
    requires Hex2(b, 1) == len && Hex4(b, 3) == off && Hex2(b, 7) == 0
    requires Plain(b)
    ensures ParseLine(cut) == TooShort(off)
  {
    hide IsHex;
    assert Body(cut) == cut;
    assert forall k | 0 <= k < ROOM :: cut[k] == b[k];
    forall i | 1 <= i < 9 ensures IsHex(cut[i]) { assert cut[i] == b[i]; }
  }

  lemma {:induction false} RunVerdict(g: Gather, items: seq<Item>)
    requires forall i | i in items :: Printable(i)
    requires !g.ended && g.status == Code(0)
    ensures var n := Run(g, ParseLines(Lines(FileText(items)))); n.ended && n.status == Verdict(items)
    decreases |items|
  {
    hide Lines, ParseLine, DataText, OnData;
    if items == [] {
      ReadsBackFile(items);
      assert Run(Step(g, EndOfFile(0)), []) == Step(g, EndOfFile(0));
      assert [EndOfFile(0)][1..] == [];
    } else {
      assert items[0] in items && forall i | i in items[1..] :: i in items;
      var rest := FileText(items[1..]);
      if FitsLine(items[0]) {
        ItemIsOneLine(items[0]);
        LineThenRest(ItemText(items[0]), rest);
        NextLine(g, ItemText(items[0]), Lines(rest));
        StepKeepsGoing(g, LineOf(items[0]));
        RunVerdict(Step(g, LineOf(items[0])), items[1..]);
      } else {
        LongRecordStops(g, items[0].off, items[0].bytes, rest);
      }
    }
  }

  lemma StepKeepsGoing(g: Gather, line: Line)
    requires !g.ended && g.status == Code(0) && (line.Comment? || line.Data?)
    ensures !Step(g, line).ended && Step(g, line).status == Code(0)
  {}

  lemma NextLine(g: Gather, line: string, lines: seq<string>)
    ensures Run(g, ParseLines([line] + lines)) == Run(Step(g, ParseLine(line)), ParseLines(lines))
  {
    assert ([line] + lines)[1..] == lines;
    assert ParseLines([line] + lines) == [ParseLine(line)] + ParseLines(lines);
    assert ([ParseLine(line)] + ParseLines(lines))[1..] == ParseLines(lines);
  }

  lemma LongRecordStops(g: Gather, off: nat, bytes: seq<Byte>, rest: string)
    requires off < 0x1_0000 && 250 <= |bytes| <= 255 && !g.ended && g.status == Code(0)
    ensures var n := Run(g, ParseLines(Lines(DataText(off, bytes) + rest)));
            n.ended && n.status == if |bytes| == 250 then Code(-2) else Code(-4)
  {
    hide Lines, ParseLine, DataText, DataBody, OnData;
    if |bytes| == 250 {
      CutOfNewline(off, bytes, rest);
      Prepend(DataBody(off, bytes), "\n", Lines(rest));
      NextLine(g, DataBody(off, bytes), ["\n"] + Lines(rest));
      StepKeepsGoing(g, Data(off, bytes));
      NextLine(Step(g, Data(off, bytes)), "\n", Lines(rest));
      EndedStays(Step(Step(g, Data(off, bytes)), NotRecord), ParseLines(Lines(rest)));
    } else {
      CutOfDigits(off, bytes, rest);
      var all := Lines(DataText(off, bytes) + rest);
      assert all == [all[0]] + all[1..];
      NextLine(g, all[0], all[1..]);
      EndedStays(Step(g, TooShort(off)), ParseLines(all[1..]));
    }
  }

  /**
   * Main theorem: a written file is accepted exactly when no record is longer than 249 bytes, and otherwise fails as
   * Verdict says.
   */
  lemma LongRecordIsCut(items: seq<Item>)
    requires forall i | i in items :: Printable(i)
    ensures ParseText(FileText(items)).status == Verdict(items)
    ensures ParseText(FileText(items)).status == Code(0) <==> forall i | i in items :: FitsLine(i)
  {
    RunVerdict(Start(), items);
    VerdictIsZeroIff(items);
  }

  lemma LinesStep(text: string)
    requires text != []
    ensures Lines(text) == [text[..Taken(text, ROOM)]] + Lines(text[Taken(text, ROOM)..])
  {}

  lemma Prepend<T>(x: T, y: T, rest: seq<T>)
    ensures [x] + ([y] + rest) == [x, y] + rest
  {}

  lemma StrayNewline()
    ensures ParseLine("\n") == NotRecord
  {}

  lemma {:induction false} TakesRoom(s: string, rest: string, room: nat)
    requires 0 < |s| == room && forall k | 0 <= k < |s| :: s[k] != '\n'
    ensures Taken(s + rest, room) == room
    decreases room
  {
    if room > 1 {
      TakesRoom(s[1..], rest, room - 1);
      assert (s + rest)[1..] == s[1..] + rest;
    }
  }
}
