/** The statistics report of the vendor supplicant library: piece after piece is printed into a buffer of
    limited size, and the first piece that does not fit ends it. */
module StaStats {
  import opened Netlink
  import HexDump

  const NUL: char := '\0'

  /** What is printed of a wpa_driver_sta_statistics_s. The rate is the text %.1f makes of it; the arrays have
      one number for each of four traffic classes. */
  datatype Statistics = Statistics(addr: seq<byte>, linkScore: u32, per: byte, rssi: i32, phyMode: u32, txRate: string,
                                   totalCnt: u32, thresholdCnt: u32, failCnt: u32, timeoutCnt: u32,
                                   avgProcessTime: u32, avgAirTime: u32, bufFullCnt: seq<u32>, queLen: seq<u32>,
                                   avgQueLen: seq<u32>, curQueLen: seq<u32>, flag: u32, reserved: seq<byte>) {
    /** The fixed lengths of the arrays; a printed number holds no line break. */
    predicate Valid() {
      && |addr| == 6 && |reserved| == 32 && '\n' !in txRate
      && |bufFullCnt| == |queLen| == |avgQueLen| == |curQueLen| == 4
    }
  }

  // ----- numbers

  function Digits(n: nat): (s: string)
    ensures s != ""
  {
    (if n < 10 then "" else Digits(n / 10)) + ["0123456789"[n % 10]]
  }

  /** %d */
  function Decimal(x: int): string {
    if x < 0 then "-" + Digits(-x) else Digits(x)
  }

  /** %d of an unsigned number */
  function DecimalOf(x: u32): string {
    Decimal(Signed(x))
  }

  /** %08X */
  function HexWord(x: u32): (s: string)
    ensures |s| == 8
  {
    HexUpper(x / 0x100_0000) + HexUpper(x / 0x1_0000 % 0x100) + HexUpper(x / 0x100 % 0x100) + HexUpper(x % 0x100)
  }

  /** MACSTR */
  function Mac(a: seq<byte>): (s: string)
    requires |a| == 6
    ensures |s| == 17
  {
    HexDump.Hex(a[0]) + ":" + HexDump.Hex(a[1]) + ":" + HexDump.Hex(a[2]) + ":"
    + HexDump.Hex(a[3]) + ":" + HexDump.Hex(a[4]) + ":" + HexDump.Hex(a[5])
  }

  function Four(a: seq<u32>): string
    requires |a| == 4
  {
    DecimalOf(a[0]) + ":" + (DecimalOf(a[1]) + ":" + (DecimalOf(a[2]) + ":" + DecimalOf(a[3])))
  }

  // ----- the report

  function HexUpperDigit(n: nat): (c: char)
    requires n < 16
    ensures HexUpperValue(c) == n
  {
    "0123456789ABCDEF"[n]
  }

  function HexUpperValue(c: char): int {
    if '0' <= c <= '9' then c as int - '0' as int else c as int - 'A' as int + 10
  }

  /** %02X */
  function HexUpper(b: byte): (s: string)
    ensures |s| == 2
  {
    [HexUpperDigit(b / 16), HexUpperDigit(b % 16)]
  }

  /** The reserved bytes, with a blank after every fourth. */
  function ReservedText(data: seq<byte>): string {
    if data == [] then ""
    else
      var n := |data|;
      ReservedText(data[..n - 1]) + HexUpper(data[n - 1]) + if n % 4 == 0 then " " else ""
  }

  function Concat(lines: seq<string>): string {
    if lines == [] then "" else Concat(lines[..|lines| - 1]) + lines[|lines| - 1]
  }

  /** What comes after the lines of formatted numbers: the 32 reserved bytes in two lines, and a rule. */
  function Tail(reserved: seq<byte>): (t: seq<string>)
    requires |reserved| == 32
    ensures |t| == 7
  {
    ["reserved0=", ReservedText(reserved[..16]), "\n", "reserved1=", ReservedText(reserved[16..]), "\n", "====\n"]
  }

  /** A name, a value, the end of the line. */
  function NamedLine(name: string, value: string): string {
    name + (value + "\n")
  }

  function LinkLines(s: Statistics): (l: seq<string>)
    requires s.Valid()
    ensures |l| == 6
  {
    [NamedLine("sta_addr=", Mac(s.addr)),
     NamedLine("link_score=", DecimalOf(s.linkScore)),
     NamedLine("per=", Decimal(s.per)),
     NamedLine("rssi=", Decimal(s.rssi)),
     NamedLine("phy=0x", HexWord(s.phyMode)),
     NamedLine("rate=", s.txRate)]
  }

  function CountLines(s: Statistics): (l: seq<string>)
    requires s.Valid()
    ensures |l| == 6
  {
    [NamedLine("total_cnt=", DecimalOf(s.totalCnt)),
     NamedLine("threshold_cnt=", DecimalOf(s.thresholdCnt)),
     NamedLine("fail_cnt=", DecimalOf(s.failCnt)),
     NamedLine("timeout_cnt=", DecimalOf(s.timeoutCnt)),
     NamedLine("apt=", DecimalOf(s.avgProcessTime)),
     NamedLine("aat=", DecimalOf(s.avgAirTime))]
  }

  function QueueLines(s: Statistics): (l: seq<string>)
    requires s.Valid()
    ensures |l| == 5
  {
    [NamedLine("TC_buf_full_cnt=", Four(s.bufFullCnt)),
     NamedLine("TC_sta_que_len=", Four(s.queLen)),
     NamedLine("TC_avg_que_len=", Four(s.avgQueLen)),
     NamedLine("TC_cur_que_len=", Four(s.curQueLen)),
     NamedLine("flag=0x", HexWord(s.flag))]
  }

  function Lines(s: Statistics): (l: seq<string>)
    requires s.Valid()
    ensures |l| == 17
  {
    LinkLines(s) + CountLines(s) + QueueLines(s)
  }

  function Pieces(s: Statistics): (p: seq<string>)
    requires s.Valid()
    ensures |p| == 24
  {
    Lines(s) + Tail(s.reserved)
  }

  function Report(s: Statistics): string
    requires s.Valid()
  {
    Concat(Pieces(s))
  }

  // ----- printing

  /** From buffer b to buffer a, a text was printed at pos with the buffer ending at end: whole and terminated
      if it and a terminator fit, and otherwise as much of it as does. Nothing past the end is touched. */
  ghost predicate Printed(b: string, a: string, pos: nat, end: nat, text: string, ok: bool, after: nat) {
    && pos <= end <= |b| && |a| == |b|
    && a[end..] == b[end..]
    && (ok <==> pos + |text| < end)
    && (ok ==> after == pos + |text| && a[..after] == b[..pos] + text && (text != "" ==> a[after] == NUL))
    && (!ok && pos < end ==> a[..end - 1] == b[..pos] + text[..end - 1 - pos] && a[end - 1] == NUL)
  }

  lemma PrintedThen(b: string, m: string, a: string, pos: nat, end: nat, first: string, mid: nat,
                    second: string, ok: bool, after: nat)
    requires Printed(b, m, pos, end, first, true, mid) && Printed(m, a, mid, end, second, ok, after) && second != ""
    ensures Printed(b, a, pos, end, first + second, ok, after)
  {
    var text := first + second;
    if ok {
      assert b[..pos] + text == (b[..pos] + first) + second;
    } else {
      assert text[..end - 1 - pos] == first + second[..end - 1 - mid];
      assert b[..pos] + text[..end - 1 - pos] == (b[..pos] + first) + second[..end - 1 - mid];
    }
  }

  lemma PrintedFails(b: string, a: string, pos: nat, end: nat, first: string, second: string, after: nat)
    requires Printed(b, a, pos, end, first, false, after)
    ensures Printed(b, a, pos, end, first + second, false, after)
  {
    assert pos < end ==> (first + second)[..end - 1 - pos] == first[..end - 1 - pos];
  }

  /** os_snprintf and the check after it. */
  method Append(buf: array<char>, pos: nat, end: nat, text: string) returns (ok: bool, after: nat)
    requires pos <= end <= buf.Length
    modifies buf
    ensures Printed(old(buf[..]), buf[..], pos, end, text, ok, after)
  {
    ghost var b := buf[..];
    if pos < end {
      var n := if |text| < end - pos then |text| else end - pos - 1;
      for k := 0 to n
        invariant buf[..pos + k] == b[..pos] + text[..k] && buf[end..] == b[end..]
      {
        buf[pos + k] := text[k];
        assert buf[..pos + k + 1] == buf[..pos + k] + [text[k]];
        assert text[..k + 1] == text[..k] + [text[k]];
      }
      buf[pos + n] := NUL;
      assert text[..|text|] == text;
      assert buf[..][..pos + n] == buf[..pos + n];
    }
    ok := |text| < end - pos;
    after := if ok then pos + |text| else pos;
  }

  method PrintReserved(buf: array<char>, pos: nat, end: nat, data: seq<byte>) returns (ok: bool, after: nat)
    requires pos < end <= buf.Length
    modifies buf
    ensures Printed(old(buf[..]), buf[..], pos, end, ReservedText(data), ok, after)
  {
    hide Printed, HexUpper;
    ghost var b := buf[..];
    ok, after := true, pos;
    PrintedNothing(b, pos, end);
    for i := 0 to |data|
      invariant Printed(b, buf[..], pos, end, ReservedText(data[..i]), true, after)
    {
      ghost var done, m, mid := ReservedText(data[..i]), buf[..], after;
      ghost var byteText, rest := HexUpper(data[i]), data[i + 1..];
      PrintedEnds(b, m, pos, end, done, after);
      assert data[..i + 1][..i] == data[..i];
      ok, after := Append(buf, after, end, HexUpper(data[i]));
      PrintedThen(b, m, buf[..], pos, end, done, mid, HexUpper(data[i]), ok, after);
      done := done + HexUpper(data[i]);
      if !ok {
        ReservedPrefix(data, i, done);
        PrintedFails(b, buf[..], pos, end, done, ReservedText(data)[|done|..], after);
        return;
      }
      if (i + 1) % 4 == 0 {
        m, mid := buf[..], after;
        PrintedEnds(b, m, pos, end, done, after);
        ok, after := Append(buf, after, end, " ");
        PrintedThen(b, m, buf[..], pos, end, done, mid, " ", ok, after);
        done := done + " ";
        if !ok {
          ReservedPrefix(data, i, done);
          PrintedFails(b, buf[..], pos, end, done, ReservedText(data)[|done|..], after);
          return;
        }
      }
      assert done == ReservedText(data[..i + 1]);
    }
    assert data[..|data|] == data;
  }

  lemma PrintedNothing(b: string, pos: nat, end: nat)
    requires pos < end <= |b|
    ensures Printed(b, b, pos, end, "", true, pos)
  {
  }

  lemma PrintedEnds(b: string, a: string, pos: nat, end: nat, text: string, after: nat)
    requires Printed(b, a, pos, end, text, true, after)
    ensures after < end <= |a| == |b|
  {
  }

  /** What has been printed after byte i, with or without the blank, begins the whole text. */
  lemma {:induction false} ReservedPrefix(data: seq<byte>, i: nat, done: string)
    requires i < |data|
    requires done == ReservedText(data[..i]) + HexUpper(data[i])
          || (done == ReservedText(data[..i]) + HexUpper(data[i]) + " " && (i + 1) % 4 == 0)
    ensures done <= ReservedText(data) && done + ReservedText(data)[|done|..] == ReservedText(data)
    decreases |data|
  {
    hide HexUpper;
    var before := data[..|data| - 1];
    if i < |before| {
      assert before[..i] == data[..i];
      ReservedPrefix(before, i, done);
    } else {
      assert before == data[..i];
    }
  }

  /** One more piece, which the text so far is followed by; if it does not fit, neither does the whole. */
  method AppendNext(buf: array<char>, pos: nat, end: nat, text: string, ghost b: string, ghost all: seq<string>,
                    ghost k: nat)
    returns (ok: bool, after: nat)
    requires end <= buf.Length && k < |all| && text == all[k] != ""
    requires Printed(b, buf[..], 0, end, Concat(all[..k]), true, pos)
    modifies buf
    ensures Printed(b, buf[..], 0, end, Concat(if ok then all[..k + 1] else all), ok, after)
  {
    hide Printed, Concat;
    ghost var m := buf[..];
    PrintedEnds(b, m, 0, end, Concat(all[..k]), pos);
    ok, after := Append(buf, pos, end, text);
    PrintedNext(b, m, buf[..], end, all, k, pos, ok, after);
  }

  method ReservedNext(buf: array<char>, pos: nat, end: nat, data: seq<byte>, ghost b: string, ghost all: seq<string>,
                      ghost k: nat)
    returns (ok: bool, after: nat)
    requires end <= buf.Length && k < |all| && ReservedText(data) == all[k] != ""
    requires Printed(b, buf[..], 0, end, Concat(all[..k]), true, pos)
    modifies buf
    ensures Printed(b, buf[..], 0, end, Concat(if ok then all[..k + 1] else all), ok, after)
  {
    hide Printed, Concat;
    ghost var m := buf[..];
    PrintedEnds(b, m, 0, end, Concat(all[..k]), pos);
    ok, after := PrintReserved(buf, pos, end, data);
    PrintedNext(b, m, buf[..], end, all, k, pos, ok, after);
  }

  lemma PrintedNext(b: string, m: string, a: string, end: nat, all: seq<string>, k: nat, mid: nat, ok: bool, after: nat)
    requires k < |all| && all[k] != ""
    requires Printed(b, m, 0, end, Concat(all[..k]), true, mid) && Printed(m, a, mid, end, all[k], ok, after)
    ensures Printed(b, a, 0, end, Concat(if ok then all[..k + 1] else all), ok, after)
  {
    hide Printed;
    PrintedThen(b, m, a, 0, end, Concat(all[..k]), mid, all[k], ok, after);
    assert all[..k + 1][..k] == all[..k];
    if !ok {
      ConcatSplit(all, k + 1);
      PrintedFails(b, a, 0, end, Concat(all[..k + 1]), Concat(all[k + 1..]), after);
    }
  }

  lemma ConcatOne(all: seq<string>)
    requires all != []
    ensures Concat(all[..1]) == all[0] && Concat(all) == all[0] + Concat(all[1..])
  {
    ConcatSplit(all, 1);
    assert all[..1][..0] == [] && all[..1] == [all[0]];
  }

  lemma NamedNotEmpty(name: string, value: string)
    ensures NamedLine(name, value) != ""
  {
  }

  /** One line, a name and a value. */
  method LineNext(buf: array<char>, pos: nat, end: nat, name: string, value: string, ghost b: string,
                  ghost all: seq<string>, ghost k: nat)
    returns (ok: bool, after: nat)
    requires end <= buf.Length && k < |all| && NamedLine(name, value) == all[k]
    requires Printed(b, buf[..], 0, end, Concat(all[..k]), true, pos)
    modifies buf
    ensures Printed(b, buf[..], 0, end, Concat(if ok then all[..k + 1] else all), ok, after)
  {
    hide Printed, Concat;
    NamedNotEmpty(name, value);
    ok, after := AppendNext(buf, pos, end, NamedLine(name, value), b, all, k);
  }

  /** The length of the report if it fits with its terminator, else 0; then the buffer holds as much of it as
      fits. Nothing past buflen is written. */
  method PrintStaStatistics(s: Statistics, buf: array<char>, buflen: nat) returns (ret: nat)
    requires s.Valid() && buflen <= buf.Length
    modifies buf
    ensures var report := Report(s);
            if |report| < buflen then ret == |report| && buf[..ret] == report && buf[ret] == NUL
            else ret == 0 && (buflen > 0 ==> buf[..buflen - 1] == report[..buflen - 1] && buf[buflen - 1] == NUL)
    ensures buf[buflen..] == old(buf[buflen..])
  {
    hide Printed, Concat, Pieces;
    ghost var b, all := buf[..], Pieces(s);
    PiecesParts(s);
    var ok, pos := PrintLink(s, buf, buflen, all);
    if ok {
      ok, pos := PrintCounts(s, buf, pos, buflen, b, all);
    }
    if ok {
      ok, pos := PrintQueues(s, buf, pos, buflen, b, all);
    }
    if ok {
      ok, pos := PrintTail(s.reserved, buf, pos, buflen, b, all);
    }
    ret := if ok then pos else 0;
    assert all[..24] == all;
    PrintedReport(b, buf[..], buflen, Concat(all), ok, pos);
    assert buf[..][buflen..] == buf[buflen..] && b[buflen..] == old(buf[buflen..]);
    assert ok ==> buf[..][..ret] == buf[..ret];
    assert !ok && buflen > 0 ==> buf[..][..buflen - 1] == buf[..buflen - 1];
  }

  lemma PiecesParts(s: Statistics)
    requires s.Valid()
    ensures LinkLines(s) <= Pieces(s) && Pieces(s)[6..12] == CountLines(s) && Pieces(s)[12..17] == QueueLines(s)
    ensures Pieces(s)[17..] == Tail(s.reserved) && Concat(Pieces(s)) != ""
  {
    NamedNotEmpty("sta_addr=", Mac(s.addr));
    assert LinkLines(s)[0] == NamedLine("sta_addr=", Mac(s.addr));
    hide NamedLine, LinkLines, CountLines, QueueLines, Tail, Concat;
    ConcatOne(Pieces(s));
    InParts(LinkLines(s), CountLines(s), QueueLines(s), Tail(s.reserved));
  }

  lemma InParts(a: seq<string>, b: seq<string>, c: seq<string>, d: seq<string>)
    ensures var s := a + b + c + d;
            && s[..|a|] == a && s[|a|..|a| + |b|] == b && s[|a| + |b|..|a| + |b| + |c|] == c
            && s[|a| + |b| + |c|..] == d
  {
  }

  method PrintLink(s: Statistics, buf: array<char>, end: nat, ghost all: seq<string>) returns (ok: bool, pos: nat)
    requires s.Valid() && end <= buf.Length && LinkLines(s) <= all
    modifies buf
    ensures Printed(old(buf[..]), buf[..], 0, end, Concat(if ok then all[..6] else all), ok, pos)
  {
    hide Printed, Concat, NamedLine, Mac, DecimalOf, Decimal, HexWord, Four;
    ghost var b := buf[..];
    ConcatOne(all);
    ok, pos := Append(buf, 0, end, NamedLine("sta_addr=", Mac(s.addr)));
    if !ok {
      PrintedFails(b, buf[..], 0, end, all[0], Concat(all[1..]), pos);
    }
    if ok {
      ok, pos := LineNext(buf, pos, end, "link_score=", DecimalOf(s.linkScore), b, all, 1);
    }
    if ok {
      ok, pos := LineNext(buf, pos, end, "per=", Decimal(s.per), b, all, 2);
    }
    if ok {
      ok, pos := LineNext(buf, pos, end, "rssi=", Decimal(s.rssi), b, all, 3);
    }
    if ok {
      ok, pos := LineNext(buf, pos, end, "phy=0x", HexWord(s.phyMode), b, all, 4);
    }
    if ok {
      ok, pos := LineNext(buf, pos, end, "rate=", s.txRate, b, all, 5);
    }
  }

  method PrintCounts(s: Statistics, buf: array<char>, start: nat, end: nat, ghost b: string, ghost all: seq<string>)
    returns (ok: bool, pos: nat)
    requires s.Valid() && end <= buf.Length && |all| == 24 && all[6..12] == CountLines(s)
    requires Printed(b, buf[..], 0, end, Concat(all[..6]), true, start)
    modifies buf
    ensures Printed(b, buf[..], 0, end, Concat(if ok then all[..12] else all), ok, pos)
  {
    hide Printed, Concat, NamedLine, Mac, DecimalOf, Decimal, HexWord, Four;
    assert forall k :: 0 <= k < 6 ==> all[6 + k] == CountLines(s)[k];
    ok, pos := LineNext(buf, start, end, "total_cnt=", DecimalOf(s.totalCnt), b, all, 6);
    if ok {
      ok, pos := LineNext(buf, pos, end, "threshold_cnt=", DecimalOf(s.thresholdCnt), b, all, 7);
    }
    if ok {
      ok, pos := LineNext(buf, pos, end, "fail_cnt=", DecimalOf(s.failCnt), b, all, 8);
    }
    if ok {
      ok, pos := LineNext(buf, pos, end, "timeout_cnt=", DecimalOf(s.timeoutCnt), b, all, 9);
    }
    if ok {
      ok, pos := LineNext(buf, pos, end, "apt=", DecimalOf(s.avgProcessTime), b, all, 10);
    }
    if ok {
      ok, pos := LineNext(buf, pos, end, "aat=", DecimalOf(s.avgAirTime), b, all, 11);
    }
  }

  method PrintQueues(s: Statistics, buf: array<char>, start: nat, end: nat, ghost b: string, ghost all: seq<string>)
    returns (ok: bool, pos: nat)
    requires s.Valid() && end <= buf.Length && |all| == 24 && all[12..17] == QueueLines(s)
    requires Printed(b, buf[..], 0, end, Concat(all[..12]), true, start)
    modifies buf
    ensures Printed(b, buf[..], 0, end, Concat(if ok then all[..17] else all), ok, pos)
  {
    hide Printed, Concat, NamedLine, Mac, DecimalOf, Decimal, HexWord, Four;
    assert forall k :: 0 <= k < 5 ==> all[12 + k] == QueueLines(s)[k];
    ok, pos := LineNext(buf, start, end, "TC_buf_full_cnt=", Four(s.bufFullCnt), b, all, 12);
    if ok {
      ok, pos := LineNext(buf, pos, end, "TC_sta_que_len=", Four(s.queLen), b, all, 13);
    }
    if ok {
      ok, pos := LineNext(buf, pos, end, "TC_avg_que_len=", Four(s.avgQueLen), b, all, 14);
    }
    if ok {
      ok, pos := LineNext(buf, pos, end, "TC_cur_que_len=", Four(s.curQueLen), b, all, 15);
    }
    if ok {
      ok, pos := LineNext(buf, pos, end, "flag=0x", HexWord(s.flag), b, all, 16);
    }
  }

  method PrintTail(reserved: seq<byte>, buf: array<char>, start: nat, end: nat, ghost b: string, ghost all: seq<string>)
    returns (ok: bool, pos: nat)
    requires |reserved| == 32 && end <= buf.Length && |all| == 24 && all[17..] == Tail(reserved)
    requires Printed(b, buf[..], 0, end, Concat(all[..17]), true, start)
    modifies buf
    ensures Printed(b, buf[..], 0, end, Concat(if ok then all[..24] else all), ok, pos)
  {
    hide Printed, Concat, ReservedText;
    ReservedNotEmpty(reserved[..16]);
    ReservedNotEmpty(reserved[16..]);
    assert forall k :: 0 <= k < 7 ==> all[17 + k] == Tail(reserved)[k];
    ok, pos := AppendNext(buf, start, end, "reserved0=", b, all, 17);
    if ok {
      ok, pos := ReservedNext(buf, pos, end, reserved[..16], b, all, 18);
    }
    if ok {
      ok, pos := AppendNext(buf, pos, end, "\n", b, all, 19);
    }
    if ok {
      ok, pos := AppendNext(buf, pos, end, "reserved1=", b, all, 20);
    }
    if ok {
      ok, pos := ReservedNext(buf, pos, end, reserved[16..], b, all, 21);
    }
    if ok {
      ok, pos := AppendNext(buf, pos, end, "\n", b, all, 22);
    }
    if ok {
      ok, pos := AppendNext(buf, pos, end, "====\n", b, all, 23);
    }
  }

  lemma PrintedReport(b: string, a: string, end: nat, text: string, ok: bool, after: nat)
    requires Printed(b, a, 0, end, text, ok, after) && text != ""
    ensures |a| == |b| && end <= |b| && a[end..] == b[end..]
    ensures ok <==> |text| < end
    ensures ok ==> after == |text| && a[..after] == text && a[after] == NUL
    ensures !ok && end > 0 ==> a[..end - 1] == text[..end - 1] && a[end - 1] == NUL
  {
  }

  lemma ReservedNotEmpty(data: seq<byte>)
    requires data != []
    ensures ReservedText(data) != ""
  {
    assert |HexUpper(data[|data| - 1])| == 2;
  }

  lemma {:induction false} ConcatSplit(lines: seq<string>, i: nat)
    requires i <= |lines|
    ensures Concat(lines) == Concat(lines[..i]) + Concat(lines[i..])
    decreases |lines|
  {
    if i == |lines| {
      assert lines[..i] == lines;
    } else {
      var before := lines[..|lines| - 1];
      ConcatSplit(before, i);
      assert before[..i] == lines[..i] && before[i..] == lines[i..][..|lines| - i - 1];
    }
  }

  // ----- reading the reserved bytes back

  /** The digits of byte i stand at a place that depends on i alone, so the bytes can be read back. */
  lemma {:induction false} ReservedReads(data: seq<byte>, i: nat)
    requires i < |data|
    ensures |ReservedText(data)| == 2 * |data| + |data| / 4
    ensures var at := 2 * i + i / 4;
            at + 2 <= |ReservedText(data)|
            && 16 * HexUpperValue(ReservedText(data)[at]) + HexUpperValue(ReservedText(data)[at + 1]) == data[i]
    decreases |data|
  {
    var n, before := |data| - 1, data[..|data| - 1];
    ReservedLength(before);
    if i < n {
      ReservedReads(before, i);
    }
  }

  lemma {:induction false} ReservedLength(data: seq<byte>)
    ensures |ReservedText(data)| == 2 * |data| + |data| / 4
  {
    if data != [] {
      ReservedLength(data[..|data| - 1]);
    }
  }

  // ----- reading the report back

  /** The value of the digits. */
  function Value(s: string): int {
    if s == "" then 0 else 10 * Value(s[..|s| - 1]) + (s[|s| - 1] as int - '0' as int)
  }

  predicate IsDigit(c: char) {
    '0' <= c <= '9'
  }

  lemma {:induction false} DigitsRead(n: nat)
    ensures Value(Digits(n)) == n && forall c :: c in Digits(n) ==> IsDigit(c)
    ensures n > 0 ==> Digits(n)[0] != '0'
  {
    var front, last := if n < 10 then "" else Digits(n / 10), "0123456789"[n % 10];
    if n >= 10 {
      DigitsRead(n / 10);
    }
    DigitRead(n % 10);
    assert Digits(n) == front + [last] && (front + [last])[..|front|] == front;
  }

  lemma DigitRead(d: nat)
    requires d < 10
    ensures IsDigit("0123456789"[d]) && "0123456789"[d] as int - '0' as int == d
  {
  }

  function DecimalValue(s: string): int {
    if s != "" && s[0] == '-' then -Value(s[1..]) else Value(s)
  }

  /** %d can be read back, and holds neither a colon nor a line break. */
  lemma DecimalReads(x: int)
    ensures DecimalValue(Decimal(x)) == x && ':' !in Decimal(x) && '\n' !in Decimal(x)
  {
    hide Digits, Value;
    if x < 0 {
      DigitsRead(-x);
      assert Decimal(x)[1..] == Digits(-x);
    } else {
      DigitsRead(x);
      assert Digits(x)[0] in Digits(x);
    }
  }

  lemma HexUpperReads(b: byte)
    ensures '\n' !in HexUpper(b)
    ensures 16 * HexUpperValue(HexUpper(b)[0]) + HexUpperValue(HexUpper(b)[1]) == b
  {
    assert HexUpperValue('\n') < 0;
  }

  lemma HexReads(b: byte)
    ensures '\n' !in HexDump.Hex(b)
    ensures 16 * HexDump.HexValue(HexDump.Hex(b)[0]) + HexDump.HexValue(HexDump.Hex(b)[1]) == b
  {
    assert HexDump.HexValue('\n') < 0;
  }

  lemma HexWordHasNoBreak(x: u32)
    ensures '\n' !in HexWord(x)
  {
    hide HexUpper;
    HexUpperReads(x / 0x100_0000);
    HexUpperReads(x / 0x1_0000 % 0x100);
    HexUpperReads(x / 0x100 % 0x100);
    HexUpperReads(x % 0x100);
  }

  lemma BytesOfWord(x: u32)
    ensures x == 0x100_0000 * (x / 0x100_0000) + 0x1_0000 * (x / 0x1_0000 % 0x100)
                 + 0x100 * (x / 0x100 % 0x100) + x % 0x100
  {
    var hi := x / 0x100;
    var top := hi / 0x100;
    assert x / 0x1_0000 == top && x / 0x100_0000 == top / 0x100;
  }

  lemma MacAt(a: seq<byte>, i: nat)
    requires |a| == 6 && i < 6
    ensures [Mac(a)[3 * i], Mac(a)[3 * i + 1]] == HexDump.Hex(a[i])
    ensures i < 5 ==> Mac(a)[3 * i + 2] == ':'
  {
    hide HexDump.Hex;
    if i < 3 {
      assert i == 0 || i == 1 || i == 2;
    } else {
      assert i == 3 || i == 4 || i == 5;
    }
  }

  lemma MacHasNoBreak(a: seq<byte>)
    requires |a| == 6
    ensures '\n' !in Mac(a)
  {
    hide HexDump.Hex, Mac;
    forall k | 0 <= k < 17 ensures Mac(a)[k] != '\n' {
      var i := k / 3;
      MacAt(a, i);
      HexReads(a[i]);
      assert HexDump.Hex(a[i])[0] in HexDump.Hex(a[i]) && HexDump.Hex(a[i])[1] in HexDump.Hex(a[i]);
      assert k == 3 * i || k == 3 * i + 1 || k == 3 * i + 2;
    }
  }

  function FirstAt(s: string, c: char): (i: nat)
    ensures i <= |s|
  {
    if s == "" || s[0] == c then 0 else 1 + FirstAt(s[1..], c)
  }

  lemma {:induction false} FirstIs(a: string, r: string, c: char)
    requires c !in a
    ensures FirstAt(a + [c] + r, c) == |a|
  {
    if a != "" {
      assert (a + [c] + r)[1..] == a[1..] + [c] + r;
      FirstIs(a[1..], r, c);
    }
  }

  lemma FourHasNoBreak(a: seq<u32>)
    requires |a| == 4
    ensures '\n' !in Four(a)
  {
    hide Decimal;
    DecimalReads(Signed(a[0]));
    DecimalReads(Signed(a[1]));
    DecimalReads(Signed(a[2]));
    DecimalReads(Signed(a[3]));
  }

  /** A line and its end. */
  ghost predicate IsLine(l: string) {
    l != "" && l[|l| - 1] == '\n' && '\n' !in l[..|l| - 1]
  }

  lemma NamedIsLine(name: string, v: string)
    requires '\n' !in name && '\n' !in v
    ensures IsLine(NamedLine(name, v))
  {
    var l := NamedLine(name, v);
    assert l[..|l| - 1] == name + v;
  }

  lemma Regrouped(a: string, b: string, c: string)
    ensures (a + b) + c == a + (b + c)
  {
  }

  lemma TailText(reserved: seq<byte>)
    requires |reserved| == 32
    ensures Concat(Tail(reserved))
         == "reserved0=" + (ReservedText(reserved[..16])
                            + ("\nreserved1=" + (ReservedText(reserved[16..]) + "\n====\n")))
  {
    var x, y := ReservedText(reserved[..16]), ReservedText(reserved[16..]);
    hide ReservedText, Concat;
    SevenPieces("reserved0=", x, "\n", "reserved1=", y, "\n", "====\n");
    assert "\n" + "====\n" == "\n====\n" && "\n" + "reserved1=" == "\nreserved1=";
    Regrouped("\n", "reserved1=", y + "\n====\n");
  }

  lemma SevenPieces(a: string, b: string, c: string, d: string, e: string, f: string, g: string)
    ensures Concat([a, b, c, d, e, f, g]) == a + (b + (c + (d + (e + (f + g)))))
  {
    hide Concat;
    var t := [a, b, c, d, e, f, g];
    assert t[0..] == t && t[7..] == [];
    NextPiece(t, 0);
    NextPiece(t, 1);
    NextPiece(t, 2);
    NextPiece(t, 3);
    NextPiece(t, 4);
    NextPiece(t, 5);
    NextPiece(t, 6);
    NoPieces();
    assert g + "" == g;
  }

  lemma NextPiece(t: seq<string>, k: nat)
    requires k < |t|
    ensures Concat(t[k..]) == t[k] + Concat(t[k + 1..])
  {
    ConcatOne(t[k..]);
    assert t[k..][1..] == t[k + 1..];
  }

  lemma NoPieces()
    ensures Concat([]) == ""
  {
  }

  lemma LinkIsLines(s: Statistics)
    requires s.Valid()
    ensures forall k :: 0 <= k < 6 ==> IsLine(LinkLines(s)[k])
  {
    hide NamedLine, Mac, Decimal, HexWord, IsLine;
    MacHasNoBreak(s.addr);
    DecimalReads(Signed(s.linkScore));
    DecimalReads(s.per);
    DecimalReads(s.rssi);
    HexWordHasNoBreak(s.phyMode);
    NamedIsLine("sta_addr=", Mac(s.addr));
    NamedIsLine("link_score=", DecimalOf(s.linkScore));
    NamedIsLine("per=", Decimal(s.per));
    NamedIsLine("rssi=", Decimal(s.rssi));
    NamedIsLine("phy=0x", HexWord(s.phyMode));
    NamedIsLine("rate=", s.txRate);
  }

  lemma CountLine(name: string, x: u32)
    requires '\n' !in name
    ensures IsLine(NamedLine(name, DecimalOf(x)))
  {
    DecimalReads(Signed(x));
    NamedIsLine(name, DecimalOf(x));
  }

  lemma CountsAreLines(s: Statistics)
    requires s.Valid()
    ensures forall k :: 0 <= k < 6 ==> IsLine(CountLines(s)[k])
  {
    hide NamedLine, DecimalOf, IsLine;
    CountLine("total_cnt=", s.totalCnt);
    CountLine("threshold_cnt=", s.thresholdCnt);
    CountLine("fail_cnt=", s.failCnt);
    CountLine("timeout_cnt=", s.timeoutCnt);
    CountLine("apt=", s.avgProcessTime);
    CountLine("aat=", s.avgAirTime);
  }

  lemma QueuesAreLines(s: Statistics)
    requires s.Valid()
    ensures forall k :: 0 <= k < 5 ==> IsLine(QueueLines(s)[k])
  {
    hide NamedLine, HexWord, Four, IsLine;
    FourHasNoBreak(s.bufFullCnt);
    FourHasNoBreak(s.queLen);
    FourHasNoBreak(s.avgQueLen);
    FourHasNoBreak(s.curQueLen);
    HexWordHasNoBreak(s.flag);
    NamedIsLine("TC_buf_full_cnt=", Four(s.bufFullCnt));
    NamedIsLine("TC_sta_que_len=", Four(s.queLen));
    NamedIsLine("TC_avg_que_len=", Four(s.avgQueLen));
    NamedIsLine("TC_cur_que_len=", Four(s.curQueLen));
    NamedIsLine("flag=0x", HexWord(s.flag));
  }

  lemma AllAreLines(s: Statistics)
    requires s.Valid()
    ensures forall l :: l in Lines(s) ==> IsLine(l)
  {
    LinkIsLines(s);
    CountsAreLines(s);
    QueuesAreLines(s);
    hide LinkLines, CountLines, QueueLines, IsLine;
    AllLines(LinkLines(s), CountLines(s), QueueLines(s));
  }

  lemma AllLines(a: seq<string>, b: seq<string>, c: seq<string>)
    requires forall k :: 0 <= k < |a| ==> IsLine(a[k])
    requires forall k :: 0 <= k < |b| ==> IsLine(b[k])
    requires forall k :: 0 <= k < |c| ==> IsLine(c[k])
    ensures forall l :: l in a + b + c ==> IsLine(l)
  {
    hide IsLine;
  }

  // ----- what a reader of the report finds

  /** The stretches between the separators. */
  function Split(s: string, c: char): (l: seq<string>)
    ensures |l| > 0
    decreases |s|
  {
    var i := FirstAt(s, c);
    if i == |s| then [s] else [s[..i]] + Split(s[i + 1..], c)
  }

  lemma SplitFirst(a: string, r: string, c: char)
    requires c !in a
    ensures Split(a + [c] + r, c) == [a] + Split(r, c)
  {
    FirstIs(a, r, c);
    var s := a + [c] + r;
    assert s[..|a|] == a && s[|a| + 1..] == r;
  }

  lemma {:induction false} SplitNone(a: string, c: char)
    requires c !in a
    ensures FirstAt(a, c) == |a| && Split(a, c) == [a]
  {
    if a != "" {
      SplitNone(a[1..], c);
    }
  }

  /** The lines without their ends. */
  function Unended(lines: seq<string>): (l: seq<string>)
    requires forall l :: l in lines ==> IsLine(l)
    ensures |l| == |lines| && forall k :: 0 <= k < |l| ==> l[k] + "\n" == lines[k]
  {
    if lines == [] then []
    else
      assert IsLine(lines[0]) by { assert lines[0] in lines; }
      var first := lines[0][..|lines[0]| - 1];
      assert first + "\n" == lines[0];
      [first] + Unended(lines[1..])
  }

  lemma {:induction false} SplitLines(lines: seq<string>, r: string)
    requires forall l :: l in lines ==> IsLine(l)
    ensures Split(Concat(lines) + r, '\n') == Unended(lines) + Split(r, '\n')
    decreases |lines|
  {
    hide Split;
    if lines == [] {
      assert Concat(lines) + r == r;
    } else {
      var first, rest := lines[0], lines[1..];
      assert first in lines;
      SplitLines(rest, r);
      ConcatOne(lines);
      var x := first[..|first| - 1];
      SplitFirst(x, Concat(rest) + r, '\n');
      hide Concat, Unended;
      assert first == x + ['\n'];
      Regrouped(first, Concat(rest), r);
      UnendedFirst(lines);
      Regrouped3([x], Unended(rest), Split(r, '\n'));
    }
  }

  lemma UnendedFirst(lines: seq<string>)
    requires lines != [] && forall l :: l in lines ==> IsLine(l)
    ensures lines[0] in lines && |lines[0]| > 0
    ensures Unended(lines) == [lines[0][..|lines[0]| - 1]] + Unended(lines[1..])
  {
  }

  lemma Regrouped3(a: seq<string>, b: seq<string>, c: seq<string>)
    ensures (a + b) + c == a + (b + c)
  {
  }

  lemma {:induction false} ReservedNoBreak(data: seq<byte>)
    ensures '\n' !in ReservedText(data)
  {
    if data != [] {
      ReservedNoBreak(data[..|data| - 1]);
      HexUpperReads(data[|data| - 1]);
    }
  }

  lemma TailSplits(reserved: seq<byte>)
    requires |reserved| == 32
    ensures Split(Concat(Tail(reserved)), '\n')
         == ["reserved0=" + ReservedText(reserved[..16]), "reserved1=" + ReservedText(reserved[16..]), "====", ""]
  {
    TailText(reserved);
    ReservedNoBreak(reserved[..16]);
    ReservedNoBreak(reserved[16..]);
    hide Concat, Tail, Split, ReservedText;
    assert "\n" + "reserved1=" == "\nreserved1=";
    TwoLines("reserved0=", ReservedText(reserved[..16]), "reserved1=", ReservedText(reserved[16..]));
  }

  lemma TwoLines(m: string, x: string, n: string, y: string)
    requires '\n' !in m && '\n' !in x && '\n' !in n && '\n' !in y
    ensures Split(m + (x + (("\n" + n) + (y + "\n====\n"))), '\n') == [m + x, n + y, "====", ""]
  {
    hide Split, FirstAt;
    var a, b := m + x, n + y;
    RuleSplits();
    SplitFirst(b, "====\n", '\n');
    SplitFirst(a, b + ['\n'] + "====\n", '\n');
    TwoLinesText(m, x, n, y);
    assert [a] + ([b] + ["====", ""]) == [a, b, "====", ""];
  }

  lemma RuleSplits()
    ensures Split("====\n", '\n') == ["====", ""]
  {
    SplitNone("", '\n');
    SplitFirst("====", "", '\n');
    hide Split, FirstAt;
    assert "====" + ['\n'] + "" == "====\n";
  }

  lemma TwoLinesText(m: string, x: string, n: string, y: string)
    ensures m + (x + (("\n" + n) + (y + "\n====\n"))) == (m + x) + ['\n'] + ((n + y) + ['\n'] + "====\n")
  {
    var end := "\n====\n";
    assert (n + y) + ['\n'] + "====\n" == n + (y + end);
    assert ("\n" + n) + (y + end) == ['\n'] + (n + (y + end));
  }

  lemma LineIs(line: string, whole: string, name: string, value: string)
    requires line + "\n" == whole == NamedLine(name, value)
    ensures line == name + value
  {
    assert whole[..|whole| - 1] == line == name + value;
  }

  ghost predicate Number(line: string, name: string, x: int) {
    name <= line && DecimalValue(line[|name|..]) == x
  }

  /** An unsigned number printed as a signed one. */
  ghost predicate Wrapped(line: string, name: string, x: u32) {
    Number(line, name, if x < 0x8000_0000 then x else x - 0x1_0000_0000)
  }

  ghost predicate FourNumbers(line: string, name: string, a: seq<u32>)
    requires |a| == 4
  {
    && name <= line
    && var parts := Split(line[|name|..], ':');
       |parts| == 4 && forall i :: 0 <= i < 4 ==> Wrapped(parts[i], "", a[i])
  }

  function WordValue(s: string): int {
    if s == "" then 0 else 16 * WordValue(s[..|s| - 1]) + HexUpperValue(s[|s| - 1])
  }

  ghost predicate Word(line: string, name: string, x: u32) {
    name <= line && |line| == |name| + 8 && WordValue(line[|name|..]) == x
  }

  ghost predicate Address(line: string, name: string, a: seq<byte>)
    requires |a| == 6
  {
    && name <= line && |line| == |name| + 17
    && (forall i :: 0 <= i < 5 ==> line[|name| + 3 * i + 2] == ':')
    && forall i :: 0 <= i < 6 ==>
         16 * HexDump.HexValue(line[|name| + 3 * i]) + HexDump.HexValue(line[|name| + 3 * i + 1]) == a[i]
  }

  /** Sixteen bytes in groups of four. */
  ghost predicate Bytes(line: string, name: string, a: seq<byte>)
    requires |a| == 16
  {
    && name <= line && |line| == |name| + 36
    && forall i :: 0 <= i < 16 ==>
         16 * HexUpperValue(line[|name| + 2 * i + i / 4]) + HexUpperValue(line[|name| + 2 * i + i / 4 + 1]) == a[i]
  }

  lemma NumberShown(name: string, x: int)
    ensures Number(name + Decimal(x), name, x)
  {
    DecimalReads(x);
    assert (name + Decimal(x))[|name|..] == Decimal(x);
  }

  lemma WrappedShown(name: string, x: u32)
    ensures Wrapped(name + DecimalOf(x), name, x)
  {
    NumberShown(name, Signed(x));
  }

  lemma SplitFour(w: string, x: string, y: string, z: string)
    requires ':' !in w && ':' !in x && ':' !in y && ':' !in z
    ensures Split(w + ":" + (x + ":" + (y + ":" + z)), ':') == [w, x, y, z]
  {
    SplitNone(z, ':');
    SplitFirst(y, z, ':');
    SplitFirst(x, y + ":" + z, ':');
    SplitFirst(w, x + ":" + (y + ":" + z), ':');
  }

  lemma FourShown(name: string, a: seq<u32>)
    requires |a| == 4
    ensures FourNumbers(name + Four(a), name, a)
  {
    hide DecimalOf, Split, Wrapped, Four;
    FourSplit(a);
    Behind(name, Four(a));
  }

  lemma Behind(name: string, v: string)
    ensures name <= name + v && (name + v)[|name|..] == v
  {
  }

  lemma FourSplit(a: seq<u32>)
    requires |a| == 4
    ensures var parts := Split(Four(a), ':');
            |parts| == 4 && forall i :: 0 <= i < 4 ==> Wrapped(parts[i], "", a[i])
  {
    hide DecimalOf, Split, Wrapped;
    OneOfFour(a[0]);
    OneOfFour(a[1]);
    OneOfFour(a[2]);
    OneOfFour(a[3]);
    FourText(a);
    hide Four;
    SplitFour(DecimalOf(a[0]), DecimalOf(a[1]), DecimalOf(a[2]), DecimalOf(a[3]));
  }

  lemma OneOfFour(x: u32)
    ensures ':' !in DecimalOf(x) && Wrapped(DecimalOf(x), "", x)
  {
    DecimalReads(Signed(x));
    WrappedShown("", x);
    assert "" + DecimalOf(x) == DecimalOf(x);
  }

  lemma FourText(a: seq<u32>)
    requires |a| == 4
    ensures Four(a) == DecimalOf(a[0]) + ":" + (DecimalOf(a[1]) + ":" + (DecimalOf(a[2]) + ":" + DecimalOf(a[3])))
  {
  }

  lemma {:induction false} WordValueThen(s: string, b: byte)
    ensures WordValue(s + HexUpper(b)) == 0x100 * WordValue(s) + b
  {
    var t, h := s + HexUpper(b), HexUpper(b);
    assert t[..|t| - 1] == s + [h[0]] && t[..|t| - 1][..|s|] == s;
  }

  lemma WordShown(name: string, x: u32)
    ensures Word(name + HexWord(x), name, x)
  {
    assert (name + HexWord(x))[|name|..] == HexWord(x);
    hide WordValue, HexUpper;
    var a := HexUpper(x / 0x100_0000);
    var b := a + HexUpper(x / 0x1_0000 % 0x100);
    var c := b + HexUpper(x / 0x100 % 0x100);
    WordValueThen("", x / 0x100_0000);
    assert "" + a == a;
    WordValueThen(a, x / 0x1_0000 % 0x100);
    WordValueThen(b, x / 0x100 % 0x100);
    WordValueThen(c, x % 0x100);
    NoWord();
    BytesOfWord(x);
  }

  lemma NoWord()
    ensures WordValue("") == 0
  {
  }

  lemma AddressShown(name: string, a: seq<byte>)
    requires |a| == 6
    ensures Address(name + Mac(a), name, a)
  {
    hide Mac;
    var l := name + Mac(a);
    forall i | 0 <= i < 6
      ensures 16 * HexDump.HexValue(l[|name| + 3 * i]) + HexDump.HexValue(l[|name| + 3 * i + 1]) == a[i]
      ensures i < 5 ==> l[|name| + 3 * i + 2] == ':'
    {
      MacAt(a, i);
      assert l[|name| + 3 * i] == HexDump.Hex(a[i])[0] && l[|name| + 3 * i + 1] == HexDump.Hex(a[i])[1];
    }
  }

  lemma BytesShown(name: string, a: seq<byte>)
    requires |a| == 16
    ensures Bytes(name + ReservedText(a), name, a)
  {
    var t := ReservedText(a);
    ReservedLength(a);
    hide ReservedText, HexUpperValue;
    var l := name + t;
    forall i | 0 <= i < 16
      ensures 16 * HexUpperValue(l[|name| + 2 * i + i / 4]) + HexUpperValue(l[|name| + 2 * i + i / 4 + 1]) == a[i]
    {
      ReservedReads(a, i);
      var at := 2 * i + i / 4;
      assert l[|name| + at] == t[at] && l[|name| + at + 1] == t[at + 1];
    }
  }

  lemma LinkRead(s: Statistics, l: seq<string>)
    requires s.Valid() && |l| >= 6
    requires forall k :: 0 <= k < 6 ==> l[k] + "\n" == LinkLines(s)[k]
    ensures Address(l[0], "sta_addr=", s.addr) && Wrapped(l[1], "link_score=", s.linkScore)
    ensures Number(l[2], "per=", s.per) && Number(l[3], "rssi=", s.rssi)
    ensures Word(l[4], "phy=0x", s.phyMode) && l[5] == "rate=" + s.txRate
  {
    hide NamedLine, Mac, DecimalOf, Decimal, HexWord, IsLine, Address, Wrapped, Number, Word;
    AddressShown("sta_addr=", s.addr);
    LineIs(l[0], LinkLines(s)[0], "sta_addr=", Mac(s.addr));
    WrappedShown("link_score=", s.linkScore);
    LineIs(l[1], LinkLines(s)[1], "link_score=", DecimalOf(s.linkScore));
    NumberShown("per=", s.per);
    LineIs(l[2], LinkLines(s)[2], "per=", Decimal(s.per));
    NumberShown("rssi=", s.rssi);
    LineIs(l[3], LinkLines(s)[3], "rssi=", Decimal(s.rssi));
    WordShown("phy=0x", s.phyMode);
    LineIs(l[4], LinkLines(s)[4], "phy=0x", HexWord(s.phyMode));
    LineIs(l[5], LinkLines(s)[5], "rate=", s.txRate);
  }

  lemma CountsRead(s: Statistics, l: seq<string>)
    requires s.Valid() && |l| >= 12
    requires forall k :: 0 <= k < 6 ==> l[6 + k] + "\n" == CountLines(s)[k]
    ensures Wrapped(l[6], "total_cnt=", s.totalCnt) && Wrapped(l[7], "threshold_cnt=", s.thresholdCnt)
    ensures Wrapped(l[8], "fail_cnt=", s.failCnt) && Wrapped(l[9], "timeout_cnt=", s.timeoutCnt)
    ensures Wrapped(l[10], "apt=", s.avgProcessTime) && Wrapped(l[11], "aat=", s.avgAirTime)
  {
    hide NamedLine, DecimalOf, IsLine, Wrapped;
    WrappedShown("total_cnt=", s.totalCnt);
    LineIs(l[6], CountLines(s)[0], "total_cnt=", DecimalOf(s.totalCnt));
    WrappedShown("threshold_cnt=", s.thresholdCnt);
    LineIs(l[7], CountLines(s)[1], "threshold_cnt=", DecimalOf(s.thresholdCnt));
    WrappedShown("fail_cnt=", s.failCnt);
    LineIs(l[8], CountLines(s)[2], "fail_cnt=", DecimalOf(s.failCnt));
    WrappedShown("timeout_cnt=", s.timeoutCnt);
    LineIs(l[9], CountLines(s)[3], "timeout_cnt=", DecimalOf(s.timeoutCnt));
    WrappedShown("apt=", s.avgProcessTime);
    LineIs(l[10], CountLines(s)[4], "apt=", DecimalOf(s.avgProcessTime));
    WrappedShown("aat=", s.avgAirTime);
    LineIs(l[11], CountLines(s)[5], "aat=", DecimalOf(s.avgAirTime));
  }

  lemma QueuesRead(s: Statistics, l: seq<string>)
    requires s.Valid() && |l| >= 17
    requires forall k :: 0 <= k < 5 ==> l[12 + k] + "\n" == QueueLines(s)[k]
    ensures FourNumbers(l[12], "TC_buf_full_cnt=", s.bufFullCnt) && FourNumbers(l[13], "TC_sta_que_len=", s.queLen)
    ensures FourNumbers(l[14], "TC_avg_que_len=", s.avgQueLen) && FourNumbers(l[15], "TC_cur_que_len=", s.curQueLen)
    ensures Word(l[16], "flag=0x", s.flag)
  {
    hide NamedLine, Four, HexWord, IsLine, FourNumbers, Word;
    FourShown("TC_buf_full_cnt=", s.bufFullCnt);
    LineIs(l[12], QueueLines(s)[0], "TC_buf_full_cnt=", Four(s.bufFullCnt));
    FourShown("TC_sta_que_len=", s.queLen);
    LineIs(l[13], QueueLines(s)[1], "TC_sta_que_len=", Four(s.queLen));
    FourShown("TC_avg_que_len=", s.avgQueLen);
    LineIs(l[14], QueueLines(s)[2], "TC_avg_que_len=", Four(s.avgQueLen));
    FourShown("TC_cur_que_len=", s.curQueLen);
    LineIs(l[15], QueueLines(s)[3], "TC_cur_que_len=", Four(s.curQueLen));
    WordShown("flag=0x", s.flag);
    LineIs(l[16], QueueLines(s)[4], "flag=0x", HexWord(s.flag));
  }

  lemma ReportSplits(s: Statistics) returns (l: seq<string>)
    requires s.Valid()
    ensures forall n :: n in Lines(s) ==> IsLine(n)
    ensures l == Split(Report(s), '\n')
    ensures l == Unended(Lines(s)) + ["reserved0=" + ReservedText(s.reserved[..16]),
                                      "reserved1=" + ReservedText(s.reserved[16..]), "====", ""]
  {
    hide Concat, Lines, Tail, IsLine, Split, Unended, ReservedText;
    l := Split(Report(s), '\n');
    AllAreLines(s);
    ConcatSplit(Pieces(s), 17);
    assert Pieces(s)[..17] == Lines(s) && Pieces(s)[17..] == Tail(s.reserved);
    SplitLines(Lines(s), Concat(Tail(s.reserved)));
    TailSplits(s.reserved);
  }

  /** Whoever splits the report at the line breaks finds twenty lines and nothing after them, each with its name
      and, read as what it is, the right field. */
  lemma ReportReads(s: Statistics)
    requires s.Valid()
    ensures var l := Split(Report(s), '\n');
            && |l| == 21
            && Address(l[0], "sta_addr=", s.addr) && Wrapped(l[1], "link_score=", s.linkScore)
            && Number(l[2], "per=", s.per) && Number(l[3], "rssi=", s.rssi)
            && Word(l[4], "phy=0x", s.phyMode) && l[5] == "rate=" + s.txRate
            && Wrapped(l[6], "total_cnt=", s.totalCnt) && Wrapped(l[7], "threshold_cnt=", s.thresholdCnt)
            && Wrapped(l[8], "fail_cnt=", s.failCnt) && Wrapped(l[9], "timeout_cnt=", s.timeoutCnt)
            && Wrapped(l[10], "apt=", s.avgProcessTime) && Wrapped(l[11], "aat=", s.avgAirTime)
            && FourNumbers(l[12], "TC_buf_full_cnt=", s.bufFullCnt) && FourNumbers(l[13], "TC_sta_que_len=", s.queLen)
            && FourNumbers(l[14], "TC_avg_que_len=", s.avgQueLen) && FourNumbers(l[15], "TC_cur_que_len=", s.curQueLen)
            && Word(l[16], "flag=0x", s.flag)
            && Bytes(l[17], "reserved0=", s.reserved[..16]) && Bytes(l[18], "reserved1=", s.reserved[16..])
            && l[19] == "====" && l[20] == ""
  {
    var l := ReportSplits(s);
    BytesShown("reserved0=", s.reserved[..16]);
    BytesShown("reserved1=", s.reserved[16..]);
    hide LinkLines, CountLines, QueueLines, ReservedText, IsLine, Split, Report, Address, Wrapped, Number, Word,
         FourNumbers, Bytes;
    AtPlaces(LinkLines(s), CountLines(s), QueueLines(s), Lines(s), l);
    LinkRead(s, l);
    CountsRead(s, l);
    QueuesRead(s, l);
  }

  lemma AtPlaces(a: seq<string>, b: seq<string>, c: seq<string>, lines: seq<string>, l: seq<string>)
    requires |a| == 6 && |b| == 6 && |c| == 5 && lines == a + b + c && forall n :: n in lines ==> IsLine(n)
    requires |l| >= 17 && l[..17] == Unended(lines)
    ensures forall k :: 0 <= k < 6 ==> l[k] + "\n" == a[k]
    ensures forall k :: 0 <= k < 6 ==> l[6 + k] + "\n" == b[k]
    ensures forall k :: 0 <= k < 5 ==> l[12 + k] + "\n" == c[k]
  {
    hide IsLine;
    forall k | 0 <= k < 6 ensures l[k] + "\n" == a[k] {
      Place(lines, l, k);
    }
    forall k | 0 <= k < 6 ensures l[6 + k] + "\n" == b[k] {
      Place(lines, l, 6 + k);
    }
    forall k | 0 <= k < 5 ensures l[12 + k] + "\n" == c[k] {
      Place(lines, l, 12 + k);
    }
  }

  lemma Place(lines: seq<string>, l: seq<string>, k: nat)
    requires |lines| == 17 && k < 17 && (forall n :: n in lines ==> IsLine(n)) && |l| >= 17 && l[..17] == Unended(lines)
    ensures l[k] + "\n" == lines[k]
  {
    assert l[k] == l[..17][k];
  }

  lemma SameWrapped(l: string, name: string, x: u32, y: u32)
    requires Wrapped(l, name, x) && Wrapped(l, name, y)
    ensures x == y
  {
  }

  lemma SameFour(l: string, name: string, a: seq<u32>, b: seq<u32>)
    requires |a| == |b| == 4 && FourNumbers(l, name, a) && FourNumbers(l, name, b)
    ensures a == b
  {
    hide Wrapped;
    forall i | 0 <= i < 4 ensures a[i] == b[i] {
      SameWrapped(Split(l[|name|..], ':')[i], "", a[i], b[i]);
    }
  }

  lemma SameAddress(l: string, name: string, a: seq<byte>, b: seq<byte>)
    requires |a| == |b| == 6 && Address(l, name, a) && Address(l, name, b)
    ensures a == b
  {
    hide HexDump.HexValue;
  }

  lemma SameBytes(l: string, name: string, a: seq<byte>, b: seq<byte>)
    requires |a| == |b| == 16 && Bytes(l, name, a) && Bytes(l, name, b)
    ensures a == b
  {
    hide HexUpperValue;
  }

  /** Nothing printed is lost: statistics have the same report if and only if they are the same. */
  lemma ReportIsLossless(s: Statistics, t: Statistics)
    requires s.Valid() && t.Valid()
    ensures Report(s) == Report(t) <==> s == t
  {
    hide Report, Split, FourNumbers, Address, Bytes, DecimalValue, WordValue;
    if Report(s) == Report(t) {
      var l := Split(Report(s), '\n');
      ReportReads(s);
      ReportReads(t);
      SameAddress(l[0], "sta_addr=", s.addr, t.addr);
      SameFour(l[12], "TC_buf_full_cnt=", s.bufFullCnt, t.bufFullCnt);
      SameFour(l[13], "TC_sta_que_len=", s.queLen, t.queLen);
      SameFour(l[14], "TC_avg_que_len=", s.avgQueLen, t.avgQueLen);
      SameFour(l[15], "TC_cur_que_len=", s.curQueLen, t.curQueLen);
      SameBytes(l[17], "reserved0=", s.reserved[..16], t.reserved[..16]);
      SameBytes(l[18], "reserved1=", s.reserved[16..], t.reserved[16..]);
      assert l[5][|"rate="|..] == s.txRate;
      assert s.reserved == s.reserved[..16] + s.reserved[16..] && t.reserved == t.reserved[..16] + t.reserved[16..];
    }
  }
}
