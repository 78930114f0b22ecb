/** The bytes of a bag file: a version line, a header record of fixed size, and message records. */
module BagFormat {
  import opened Arith
  import opened ByteCodec
  import opened Decimals
  import opened HeaderCodec
  import opened Timeline
  import Sequences

  const FILE_HEADER: nat := 1
  const FILE_HEADER_LEN: nat := 1024
  const NEWLINE: byte := 10
  const SPACE: byte := 32

  function Ascii(s: string): (b: Bytes)
    ensures |b| == |s|
  {
    seq(|s|, i requires 0 <= i < |s| => s[i] as int % 256)
  }

  const VERSION_LINE: Bytes := Ascii("#MSGBAG V1.0") + [NEWLINE]

  /** std::to_string of an integer. */
  function IntText(x: int): string {
    if x < 0 then "-" + Format(-x) else Format(x)
  }

  function HexDigit(d: nat): char
    requires d < 16
  {
    "0123456789abcdef"[d]
  }

  /** 0x followed by at least two hexadecimal digits. */
  function HexToString(b: byte): string {
    "0x" + [HexDigit(b / 16)] + [HexDigit(b % 16)]
  }

  /** The header map in the order of its keys. */
  function HeaderFields(start: int, end: int, count: nat): seq<Field> {
    [ (Ascii("end_time"), Ascii(IntText(end))),
      (Ascii("msg_count"), Ascii(IntText(count))),
      (Ascii("op"), Ascii(HexToString(FILE_HEADER))),
      (Ascii("start_time"), Ascii(IntText(start))) ]
  }

  function Spaces(n: nat): (b: Bytes)
    ensures |b| == n
  {
    seq(n, i => SPACE)
  }

  /** The header record: the encoded header, padded with spaces to its fixed size. */
  function HeaderRecord(start: int, end: int, count: nat): Bytes {
    PaddedHeader(HeaderFields(start, end, count))
  }

  function PaddedHeader(fields: seq<Field>): Bytes {
    var headerLen := |EncodeFields(fields)|;
    EncodeHeader(fields) + if headerLen < FILE_HEADER_LEN then Spaces(FILE_HEADER_LEN - headerLen) else []
  }

  lemma IntTextIsShort(x: int)
    requires FitsSigned(x, 8)
    ensures 1 <= |IntText(x)| <= 20
  {
    Sizes();
    var n := if x < 0 then -x else x;
    FormatLength(n);
    assert Pow10(5) == 100000;
    assert Pow10(10) == 10000000000;
    assert Pow10(15) == 1000000000000000;
    assert Pow10(19) == 10000000000000000000;
    if |Format(n)| > 19 {
      Pow10Monotone(19, |Format(n)| - 1);
    }
  }

  /** Whatever its values are, the header record takes 1028 bytes, so it can be rewritten in place. */
  lemma HeaderRecordSize(start: int, end: int, count: nat)
    requires FitsSigned(start, 8) && FitsSigned(end, 8) && count < TWO32
    ensures |EncodeFields(HeaderFields(start, end, count))| < FILE_HEADER_LEN
    ensures |HeaderRecord(start, end, count)| == FILE_HEADER_LEN + 4
  {
    Sizes();
    IntTextIsShort(start);
    IntTextIsShort(end);
    IntTextIsShort(count);
    var fields := HeaderFields(start, end, count);
    FourFields(fields);
  }

  lemma FourFields(fields: seq<Field>)
    requires |fields| == 4
    ensures |EncodeFields(fields)| == 16
      + |FieldText(fields[0])| + |FieldText(fields[1])| + |FieldText(fields[2])| + |FieldText(fields[3])|
  {
    var f0, f1, f2, f3 := fields[0], fields[1], fields[2], fields[3];
    assert fields[1..] == [f1, f2, f3];
    assert [f1, f2, f3][1..] == [f2, f3];
    assert [f2, f3][1..] == [f3];
    var none: seq<Field> := [];
    assert [f3][1..] == none;
    assert |EncodeFields([f3])| == 4 + |FieldText(f3)|;
    assert |EncodeFields([f2, f3])| == 4 + |FieldText(f2)| + |EncodeFields([f3])|;
    assert |EncodeFields([f1, f2, f3])| == 4 + |FieldText(f1)| + |EncodeFields([f2, f3])|;
  }

  /** Reading a header record gives its four fields back. */
  lemma HeaderRecordRoundTrip(start: int, end: int, count: nat)
    requires FitsSigned(start, 8) && FitsSigned(end, 8) && count < TWO32
    ensures ParseHeader(HeaderRecord(start, end, count), map[]).Parsed?
    ensures ParseHeader(HeaderRecord(start, end, count), map[]).header ==
      map[Ascii("op") := Ascii("0x01"), Ascii("start_time") := Ascii(IntText(start)),
          Ascii("end_time") := Ascii(IntText(end)), Ascii("msg_count") := Ascii(IntText(count))]
  {
    var fields := HeaderFields(start, end, count);
    assert HexToString(FILE_HEADER) == "0x01";
    HeaderRecordSize(start, end, count);
    HeaderKeys(start, end, count);
    HeaderRoundTrip(fields, Spaces(FILE_HEADER_LEN - |EncodeFields(fields)|));
    AddFourFields(fields[0], fields[1], fields[2], fields[3]);
    assert fields == [fields[0], fields[1], fields[2], fields[3]];
  }

  lemma HeaderKeys(start: int, end: int, count: nat)
    ensures NoEquals(HeaderFields(start, end, count))
  {
    AsciiWithoutEquals("end_time");
    AsciiWithoutEquals("msg_count");
    AsciiWithoutEquals("op");
    AsciiWithoutEquals("start_time");
  }

  lemma AsciiWithoutEquals(s: string)
    requires forall i :: 0 <= i < |s| ==> s[i] != '=' && s[i] as int < 256
    ensures EQUALS !in Ascii(s)
  {
    assert forall i :: 0 <= i < |s| ==> Ascii(s)[i] == s[i] as int;
  }

  lemma AddFourFields(f0: Field, f1: Field, f2: Field, f3: Field)
    requires |f0.0| == 8 && |f1.0| == 9 && |f2.0| == 2 && |f3.0| == 10
    ensures AddFields(map[], [f0, f1, f2, f3]) == map[f2.0 := f2.1, f3.0 := f3.1, f0.0 := f0.1, f1.0 := f1.1]
  {
    var none: seq<Field> := [];
    var m0: map<Bytes, Bytes> := map[];
    var m1 := m0[f0.0 := f0.1];
    var m2 := m1[f1.0 := f1.1];
    var m3 := m2[f2.0 := f2.1];
    assert [f0, f1, f2, f3][1..] == [f1, f2, f3];
    assert [f1, f2, f3][1..] == [f2, f3];
    assert [f2, f3][1..] == [f3];
    assert [f3][1..] == none;
    assert AddFields(m3, [f3]) == m3[f3.0 := f3.1];
    assert AddFields(m2, [f2, f3]) == AddFields(m3, [f3]);
    assert AddFields(m1, [f1, f2, f3]) == AddFields(m2, [f2, f3]);
  }

  // ----- message records -----

  predicate Recordable(r: Record) {
    |r.msg| < TWO64 && FitsSigned(r.time, 8)
  }

  function EncodeRecord(r: Record): Bytes
    requires Recordable(r)
  {
    LittleEndian(|r.msg|, 8) + EncodeInt(r.time, 8) + r.topic + [NEWLINE] + r.msg
  }

  predicate AllRecordable(rs: seq<Record>) {
    forall i :: 0 <= i < |rs| ==> Recordable(rs[i])
  }

  function EncodeRecords(rs: seq<Record>): Bytes
    requires AllRecordable(rs)
  {
    if rs == [] then [] else EncodeRecord(rs[0]) + EncodeRecords(rs[1..])
  }

  /**
   What one attempt to read a record does: it finds the end, or a record with more to come, or it
   breaks the stream, with one more record or none.
   */
  datatype Attempt = End | More(record: Record, next: nat) | Broken(records: seq<Record>)

  function Found(a: Attempt): seq<Record> {
    match a
    case End => []
    case More(r, _) => [r]
    case Broken(rs) => rs
  }

  /** One record at a position. Each length check asks for more bytes than are needed. */
  function ReadRecord(file: Bytes, pos: nat): (a: Attempt)
    requires pos <= |file|
    ensures a.More? ==> pos < a.next <= |file|
  {
    if |file| - pos <= 8 || |file| - (pos + 8) <= 8 then End
    else ReadBody(file, pos + 16, FromLittleEndian(file[pos..pos + 8]), DecodeInt(file[pos + 8..pos + 16]))
  }

  /**
   The topic and the message of a record. A topic without a newline breaks the stream: its position
   then reads as -1, the last check compares with the file size plus one, and a record that passes
   it is all zeros.
   */
  function ReadBody(file: Bytes, pos: nat, size: nat, time: int): (a: Attempt)
    requires pos <= |file|
    ensures a.More? ==> pos < a.next <= |file|
  {
    var line := file[pos..];
    var eol := Find(line, NEWLINE);
    if eol == -1 then Broken(if |file| + 1 > size then [Record(time, line, Zeros(size))] else [])
    else
      var at := pos + eol + 1;
      if |file| - at <= size then End
      else More(Record(time, line[..eol], file[at..at + size]), at + size)
  }

  function Zeros(n: nat): Bytes {
    seq(n, i => 0)
  }

  function ReadRecords(file: Bytes, pos: nat): seq<Record>
    requires pos <= |file|
    decreases |file| - pos
  {
    if pos >= |file| then []
    else
      var a := ReadRecord(file, pos);
      Found(a) + if a.More? then ReadRecords(file, a.next) else []
  }

  /** Whether reading the records breaks the stream. */
  predicate Breaks(file: Bytes, pos: nat)
    requires pos <= |file|
    decreases |file| - pos
  {
    pos < |file| &&
      var a := ReadRecord(file, pos);
      a.Broken? || (a.More? && Breaks(file, a.next))
  }

  ghost predicate WellFormed(rs: seq<Record>) {
    forall i :: 0 <= i < |rs| ==> Recordable(rs[i]) && NEWLINE !in rs[i].topic
  }

  /** One record in the middle of a file reads back exactly when at least one byte follows it. */
  lemma ReadEncodedRecord(before: Bytes, r: Record, after: Bytes)
    requires Recordable(r) && NEWLINE !in r.topic
    ensures var pos := |before|;
      ReadRecord(before + EncodeRecord(r) + after, pos) ==
      if after == [] then End else More(r, pos + |EncodeRecord(r)|)
  {
    var file, pos := before + EncodeRecord(r) + after, |before|;
    var size, time := LittleEndian(|r.msg|, 8), EncodeInt(r.time, 8);
    Sizes();
    LittleEndianRoundTrip(|r.msg|, 8);
    IntRoundTrip(r.time, 8);
    TwoLongs(before, size, time, r.topic + [NEWLINE] + r.msg + after);
    Parts(before, size, time, r.topic, [NEWLINE], r.msg, after);
    ReadEncodedBody(before + size + time, r, after);
  }

  lemma Parts(before: Bytes, a: Bytes, b: Bytes, c: Bytes, d: Bytes, e: Bytes, after: Bytes)
    ensures before + (a + b + c + d + e) + after == before + a + b + (c + d + e + after)
  {
  }

  lemma TwoLongs(before: Bytes, size: Bytes, time: Bytes, rest: Bytes)
    requires |size| == |time| == 8
    ensures var file, pos := before + size + time + rest, |before|;
      file[pos..pos + 8] == size && file[pos + 8..pos + 16] == time
  {
  }

  lemma ReadEncodedBody(before: Bytes, r: Record, after: Bytes)
    requires NEWLINE !in r.topic
    ensures var file := before + (r.topic + [NEWLINE] + r.msg + after);
      ReadBody(file, |before|, |r.msg|, r.time) ==
      if after == [] then End else More(r, |before| + |r.topic| + 1 + |r.msg|)
  {
    var file := before + (r.topic + [NEWLINE] + r.msg + after);
    var line := file[|before|..];
    assert line == r.topic + ([NEWLINE] + r.msg + after);
    FindAfter(r.topic, [NEWLINE] + r.msg + after, NEWLINE);
    var at := |before| + |r.topic| + 1;
    assert line[..|r.topic|] == r.topic;
    assert after != [] ==> file[at..at + |r.msg|] == r.msg;
  }

  lemma FindAfter(a: Bytes, b: Bytes, c: byte)
    requires c !in a && b != [] && b[0] == c
    ensures Find(a + b, c) == |a|
  {
    assert (a + b)[|a|] == c;
    assert forall k :: 0 <= k < |a| ==> (a + b)[k] == a[k];
  }

  /**
   A stream of records that something follows is read to its end, and reading goes on with what
   follows. Without anything after it, it reads back without its last record, because the last
   check wants one byte more than the message.
   */
  lemma {:induction false} ReadEncodedRecords(file: Bytes, before: Bytes, rs: seq<Record>, extra: Bytes)
    requires WellFormed(rs) && file == before + EncodeRecords(rs) + extra
    ensures var end := |before + EncodeRecords(rs)|;
      && ReadRecords(file, |before|) == (if extra == [] && rs != [] then rs[..|rs| - 1] else rs + ReadRecords(file, end))
      && (Breaks(file, |before|) <==> Breaks(file, end))
    decreases |rs|
  {
    if rs == [] {
      assert [] + ReadRecords(file, |before|) == ReadRecords(file, |before|);
    } else {
      var before', after := RecordsStep(before, rs, extra);
      ReadEncodedRecord(before, rs[0], after);
      if after != [] {
        ReadOneMore(file, |before|, rs[0], |before'|);
        ReadEncodedRecords(file, before', rs[1..], extra);
        Sequences.Assoc([rs[0]], rs[1..], ReadRecords(file, |before + EncodeRecords(rs)|));
      }
      OneMore(rs);
    }
  }

  /** Up to sixteen bytes are no record. */
  lemma ShortTail(before: Bytes, extra: Bytes)
    requires |extra| <= 16
    ensures ReadRecords(before + extra, |before|) == [] && !Breaks(before + extra, |before|)
  {
  }

  lemma ReadOneMore(file: Bytes, pos: nat, r: Record, next: nat)
    requires pos <= |file| && ReadRecord(file, pos) == More(r, next)
    ensures ReadRecords(file, pos) == [r] + ReadRecords(file, next)
    ensures Breaks(file, pos) <==> Breaks(file, next)
  {
  }

  /** The same file, split after its first record. */
  lemma RecordsStep(before: Bytes, rs: seq<Record>, extra: Bytes) returns (before': Bytes, after: Bytes)
    requires WellFormed(rs) && rs != []
    ensures WellFormed(rs[1..])
    ensures before' == before + EncodeRecord(rs[0]) && after == EncodeRecords(rs[1..]) + extra
    ensures before + EncodeRecords(rs) + extra == before + EncodeRecord(rs[0]) + after
         == before' + EncodeRecords(rs[1..]) + extra
    ensures |before' + EncodeRecords(rs[1..])| == |before + EncodeRecords(rs)|
    ensures after == [] <==> |rs| == 1 && extra == []
  {
    var first, rest := EncodeRecord(rs[0]), EncodeRecords(rs[1..]);
    before', after := before + first, rest + extra;
    Regroup(before, first, rest, extra);
    if |rs| > 1 {
      assert |EncodeRecord(rs[1..][0])| >= 17;
    }
  }

  lemma Regroup(a: Bytes, b: Bytes, c: Bytes, d: Bytes)
    ensures a + (b + c) + d == a + b + (c + d) == a + b + c + d
  {
  }

  lemma OneMore(rs: seq<Record>)
    requires rs != []
    ensures rs == [rs[0]] + rs[1..]
    ensures rs[..|rs| - 1] == if |rs| == 1 then [] else [rs[0]] + rs[1..][..|rs[1..]| - 1]
  {
  }
}
