/** The hex dump of an event's attributes, written line by line into a fixed buffer. */
module HexDump {
  import opened Netlink

  const LINE_SIZE: nat := 81
  const BYTES_PER_LINE: nat := 16
  const HEX_WIDTH: nat := 47
  const DASH_AT: nat := 23
  const NUL: char := '\0'

  /** One digit of %02x. */
  function HexDigit(n: nat): (c: char)
    requires n < 16
    ensures HexValue(c) == n
  {
    "0123456789abcdef"[n]
  }

  /** The value of a hex digit; -1 for any other character. */
  function HexValue(c: char): int {
    if '0' <= c <= '9' then c as int - '0' as int
    else if 'a' <= c <= 'f' then c as int - 'a' as int + 10
    else -1
  }

  function Hex(b: byte): (s: string)
    ensures |s| == 2
  {
    [HexDigit(b / 16), HexDigit(b % 16)]
  }

  predicate IsPrint(b: byte) {
    0x20 <= b < 0x7f
  }

  function Shown(b: byte): char {
    if IsPrint(b) then b as char else '-'
  }

  // ----- what a line should be

  /** Column i of the hex part: two digits for each byte, a blank after each pair, blanks for missing bytes. */
  function HexColumn(chunk: seq<byte>, i: nat): char {
    var j := i / 3;
    if j >= |chunk| || i % 3 == 2 then ' ' else Hex(chunk[j])[i % 3]
  }

  function HexColumns(chunk: seq<byte>): (s: string)
    ensures |s| == HEX_WIDTH
  {
    seq(HEX_WIDTH, i requires 0 <= i < HEX_WIDTH => HexColumn(chunk, i))
  }

  function Text(chunk: seq<byte>): (s: string)
    ensures |s| == |chunk|
  {
    seq(|chunk|, i requires 0 <= i < |chunk| => Shown(chunk[i]))
  }

  /** The separator in the middle is a dash. */
  function Line(chunk: seq<byte>): (s: string)
    ensures |s| == HEX_WIDTH + 2 + |chunk|
  {
    HexColumns(chunk)[DASH_AT := '-'] + "  " + Text(chunk)
  }

  function Lines(data: seq<byte>): seq<string> {
    if |data| <= BYTES_PER_LINE then if data == [] then [] else [Line(data)]
    else [Line(data[..BYTES_PER_LINE])] + Lines(data[BYTES_PER_LINE..])
  }

  // ----- the dump

  /** vsprintf of a text at the offset, with its terminator; the caller sees to it that both fit. */
  method AppendFmt(buf: array<char>, offset: nat, text: string) returns (after: nat)
    requires offset + |text| < buf.Length
    modifies buf
    ensures after == offset + |text| && buf[..after] == old(buf[..offset]) + text && buf[after] == NUL
  {
    ghost var before := buf[..offset];
    for k := 0 to |text|
      invariant buf[..offset + k] == before + text[..k]
    {
      buf[offset + k] := text[k];
      assert buf[..offset + k + 1] == buf[..offset + k] + [text[k]];
      assert text[..k + 1] == text[..k] + [text[k]];
    }
    assert text[..|text|] == text;
    after := offset + |text|;
    buf[after] := NUL;
  }

  /** What %s prints: the characters before the first terminator. */
  function CString(b: string): string
    requires NUL in b
  {
    if b[0] == NUL then "" else [b[0]] + CString(b[1..])
  }

  lemma {:induction false} CStringEnds(b: string, n: nat)
    requires n < |b| && b[n] == NUL && NUL !in b[..n]
    ensures NUL in b && CString(b) == b[..n]
  {
    if n > 0 {
      assert b[1..][..n - 1] == b[..n][1..];
      assert b[0] == b[..n][0];
      assert NUL == b[1..][n - 1];
      CStringEnds(b[1..], n - 1);
      assert b[..n] == [b[0]] + b[1..][..n - 1];
    }
  }

  /** One line: never more than 65 characters and the terminator in the 81 of the buffer. */
  method LogLine(chunk: seq<byte>) returns (printed: string)
    requires 0 < |chunk| <= BYTES_PER_LINE
    ensures printed == Line(chunk) && |printed| <= 65
  {
    var line := new char[LINE_SIZE];
    var offset := HexPart(line, chunk);
    assert line[..HEX_WIDTH] == HexColumns(chunk);
    line[DASH_AT] := '-';
    assert line[..HEX_WIDTH] == HexColumns(chunk)[DASH_AT := '-'];
    offset := AppendFmt(line, offset, "  ");
    ghost var left := line[..offset];
    for j := 0 to |chunk|
      invariant offset == HEX_WIDTH + 2 + j && line[..offset] == left + Text(chunk)[..j] && line[offset] == NUL
    {
      if IsPrint(chunk[j]) {
        offset := AppendFmt(line, offset, [chunk[j] as char]);
      } else {
        offset := AppendFmt(line, offset, "-");
      }
      TextStep(chunk, j);
    }
    assert line[..offset] == Line(chunk);
    NoTerminator(chunk);
    assert line[..][..offset] == line[..offset];
    CStringEnds(line[..], offset);
    printed := CString(line[..]);
  }

  lemma TextStep(chunk: seq<byte>, j: nat)
    requires j < |chunk|
    ensures Text(chunk)[..j + 1] == Text(chunk)[..j] + [Shown(chunk[j])]
  {
  }

  /** The hex columns, blanks included. */
  method HexPart(line: array<char>, chunk: seq<byte>) returns (offset: nat)
    requires line.Length == LINE_SIZE && 0 < |chunk| <= BYTES_PER_LINE
    modifies line
    ensures offset == HEX_WIDTH && line[..offset] == HexColumns(chunk)
  {
    ghost var columns := HexColumns(chunk);
    offset := AppendFmt(line, 0, Hex(chunk[0]));
    assert line[..offset] == columns[..2];
    for j := 1 to |chunk|
      invariant offset == 3 * j - 1 && line[..offset] == columns[..offset]
    {
      HexStep(chunk, j);
      offset := AppendFmt(line, offset, " " + Hex(chunk[j]));
      assert columns[..3 * j + 2] == columns[..3 * j - 1] + columns[3 * j - 1..3 * j + 2];
    }
    for j := |chunk| to BYTES_PER_LINE
      invariant offset == 3 * j - 1 && line[..offset] == columns[..offset]
    {
      HexStep(chunk, j);
      offset := AppendFmt(line, offset, "   ");
      assert columns[..3 * j + 2] == columns[..3 * j - 1] + columns[3 * j - 1..3 * j + 2];
    }
  }

  lemma HexStep(chunk: seq<byte>, j: nat)
    requires 0 < j < BYTES_PER_LINE
    ensures HexColumns(chunk)[3 * j - 1..3 * j + 2] == if j < |chunk| then " " + Hex(chunk[j]) else "   "
  {
    var part := HexColumns(chunk)[3 * j - 1..3 * j + 2];
    assert part == [HexColumn(chunk, 3 * j - 1), HexColumn(chunk, 3 * j), HexColumn(chunk, 3 * j + 1)];
    assert (3 * j - 1) / 3 == j - 1 && (3 * j - 1) % 3 == 2;
    HexColumnsOf(chunk, j);
  }

  lemma HexColumnsOf(chunk: seq<byte>, j: nat)
    requires j < BYTES_PER_LINE
    ensures HexColumn(chunk, 3 * j) == if j < |chunk| then Hex(chunk[j])[0] else ' '
    ensures HexColumn(chunk, 3 * j + 1) == if j < |chunk| then Hex(chunk[j])[1] else ' '
  {
    assert 3 * j / 3 == j && (3 * j + 1) / 3 == j && 3 * j % 3 == 0 && (3 * j + 1) % 3 == 1;
  }

  lemma NoTerminator(chunk: seq<byte>)
    ensures NUL !in Line(chunk)
  {
    forall i | 0 <= i < |Line(chunk)| ensures Line(chunk)[i] != NUL {
      if i < HEX_WIDTH && i != DASH_AT {
        assert Line(chunk)[i] == HexColumn(chunk, i);
      } else if i >= HEX_WIDTH + 2 {
        assert Line(chunk)[i] == Shown(chunk[i - HEX_WIDTH - 2]);
      }
    }
  }

  method Log(data: seq<byte>) returns (lines: seq<string>)
    ensures lines == Lines(data)
  {
    lines := [];
    var i := 0;
    assert data[0..] == data;
    while i < |data|
      invariant i >= 0 && Lines(data) == lines + Lines(data[if i < |data| then i else |data|..])
    {
      var lineLen := if |data| - i < BYTES_PER_LINE then |data| - i else BYTES_PER_LINE;
      ghost var rest := data[i..];
      assert rest[..lineLen] == data[i..i + lineLen] && rest[lineLen..] == data[i + lineLen..];
      assert |rest| <= BYTES_PER_LINE ==> rest[..lineLen] == rest;
      var line := LogLine(data[i..i + lineLen]);
      lines := lines + [line];
      i := i + BYTES_PER_LINE;
    }
  }

  // ----- reading it back

  /** The bytes of a line, from its pair j on: pairs are three columns apart and end at a blank one. */
  function DecodeFrom(line: string, j: nat): seq<int>
    requires |line| >= HEX_WIDTH
    decreases BYTES_PER_LINE - j
  {
    if j >= BYTES_PER_LINE || line[3 * j] == ' ' then []
    else [16 * HexValue(line[3 * j]) + HexValue(line[3 * j + 1])] + DecodeFrom(line, j + 1)
  }

  function Decode(lines: seq<string>): seq<int>
    requires forall l :: l in lines ==> |l| >= HEX_WIDTH
  {
    if lines == [] then [] else DecodeFrom(lines[0], 0) + Decode(lines[1..])
  }

  /** Pair j of a line reads as byte j, and is blank when there is none. */
  lemma PairReads(chunk: seq<byte>, j: nat)
    requires j < BYTES_PER_LINE
    ensures if j < |chunk|
            then Line(chunk)[3 * j] != ' '
                 && 16 * HexValue(Line(chunk)[3 * j]) + HexValue(Line(chunk)[3 * j + 1]) == chunk[j]
            else Line(chunk)[3 * j] == ' '
  {
    assert 3 * j != DASH_AT && 3 * j + 1 != DASH_AT;
    assert Line(chunk)[3 * j] == HexColumn(chunk, 3 * j) && Line(chunk)[3 * j + 1] == HexColumn(chunk, 3 * j + 1);
    HexColumnsOf(chunk, j);
  }

  lemma {:induction false} LineRoundTrip(chunk: seq<byte>, j: nat)
    requires j <= |chunk| <= BYTES_PER_LINE
    ensures DecodeFrom(Line(chunk), j) == chunk[j..]
    decreases |chunk| - j
  {
    hide Line, HexValue;
    if j < BYTES_PER_LINE {
      PairReads(chunk, j);
      if j < |chunk| {
        LineRoundTrip(chunk, j + 1);
      }
    }
  }

  /** The bytes on line i. */
  function Chunk(data: seq<byte>, i: nat): (c: seq<byte>)
    requires BYTES_PER_LINE * i < |data|
    ensures 0 < |c| <= BYTES_PER_LINE
  {
    var rest := data[BYTES_PER_LINE * i..];
    if |rest| <= BYTES_PER_LINE then rest else rest[..BYTES_PER_LINE]
  }

  lemma {:induction false} LineAt(data: seq<byte>, i: nat)
    requires i < |Lines(data)|
    ensures BYTES_PER_LINE * i < |data| && Lines(data)[i] == Line(Chunk(data, i))
  {
    hide Line;
    if |data| <= BYTES_PER_LINE || i == 0 {
      assert data[0..] == data;
    } else {
      var rest := data[BYTES_PER_LINE..];
      LineAt(rest, i - 1);
      assert rest[BYTES_PER_LINE * (i - 1)..] == data[BYTES_PER_LINE * i..];
    }
  }

  /** The characters of one line. */
  lemma LineShape(chunk: seq<byte>)
    requires |chunk| <= 16
    ensures var l := Line(chunk);
            && |l| == 49 + |chunk| && l[23] == '-' && l[47] == l[48] == ' '
            && (forall k :: 0 <= k < 47 && k != 23 && (k % 3 == 2 || k / 3 >= |chunk|) ==> l[k] == ' ')
            && (forall j :: 0 <= j < |chunk| ==> l[49 + j] == if 0x20 <= chunk[j] < 0x7f then chunk[j] as char else '-')
            && forall j :: 0 <= j < |chunk| ==>
                 && l[3 * j] == "0123456789abcdef"[chunk[j] / 16]
                 && l[3 * j + 1] == "0123456789abcdef"[chunk[j] % 16]
  {
    var l := Line(chunk);
    forall k | 0 <= k < 47 && k != 23 ensures l[k] == HexColumn(chunk, k) {
    }
    forall j | 0 <= j < |chunk| ensures l[3 * j] == Hex(chunk[j])[0] && l[3 * j + 1] == Hex(chunk[j])[1] {
      HexColumnsOf(chunk, j);
    }
  }

  lemma {:induction false} LineCount(data: seq<byte>)
    ensures |Lines(data)| == (|data| + 15) / 16
  {
    hide Line;
    if |data| > BYTES_PER_LINE {
      LineCount(data[BYTES_PER_LINE..]);
    }
  }

  /** Every character of every line. Line i shows the sixteen bytes from 16 * i on, or those that are left: two
      hex digits for byte j in columns 3 * j and 3 * j + 1, a dash between the eighth and the ninth, and in column
      49 + j the character, a dash if it cannot be printed; all else is blank. */
  lemma LinesShow(data: seq<byte>, i: nat)
    requires i < |Lines(data)|
    ensures |Lines(data)| == (|data| + 15) / 16
    ensures var l, n := Lines(data)[i], if |data| - 16 * i < 16 then |data| - 16 * i else 16;
            && 0 < n && |l| == 49 + n && l[23] == '-' && l[47] == l[48] == ' '
            && (forall k :: 0 <= k < 47 && k != 23 && (k % 3 == 2 || k / 3 >= n) ==> l[k] == ' ')
            && forall j :: 0 <= j < n ==>
                 var b := data[16 * i + j];
                 && l[3 * j] == "0123456789abcdef"[b / 16] && l[3 * j + 1] == "0123456789abcdef"[b % 16]
                 && l[49 + j] == if 0x20 <= b < 0x7f then b as char else '-'
  {
    LineAt(data, i);
    var c := Chunk(data, i);
    LineShape(c);
    LineCount(data);
    hide Line, Lines;
    forall j | 0 <= j < |c| ensures c[j] == data[16 * i + j] {
    }
  }

  lemma {:induction false} LinesLong(data: seq<byte>)
    ensures forall l :: l in Lines(data) ==> |l| > HEX_WIDTH + 2
  {
    hide Line;
    if |data| > BYTES_PER_LINE {
      LinesLong(data[BYTES_PER_LINE..]);
    }
  }

  /** Reading the hex columns of all lines gives back the payload. */
  lemma {:induction false} DumpIsLossless(data: seq<byte>)
    ensures forall l :: l in Lines(data) ==> |l| > HEX_WIDTH + 2
    ensures Decode(Lines(data)) == data
  {
    hide Line, DecodeFrom;
    LinesLong(data);
    if |data| > BYTES_PER_LINE {
      var first, rest := data[..BYTES_PER_LINE], data[BYTES_PER_LINE..];
      LineRoundTrip(first, 0);
      DumpIsLossless(rest);
      assert Lines(data)[0] == Line(first) && Lines(data)[1..] == Lines(rest);
      assert first[0..] == first;
    } else if data != [] {
      LineRoundTrip(data, 0);
      assert data[0..] == data && Lines(data)[1..] == [];
    }
  }

  /** So two payloads with the same dump are the same. */
  lemma DumpIsInjective(a: seq<byte>, b: seq<byte>)
    requires Lines(a) == Lines(b)
    ensures a == b
  {
    DumpIsLossless(a);
    DumpIsLossless(b);
  }
}
