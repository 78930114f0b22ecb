/** The bytes of a bag, place by place, and the numbers its header record holds. */
module BagLayout {
  import opened Arith
  import opened ByteCodec
  import opened Decimals
  import opened HeaderCodec
  import opened Timeline
  import opened BagFormat
  import opened Wrappers
  import Sequences
  import Bag

  // ----- integers in memory -----

  lemma {:induction false} PlacesOfMultiple(x: int, m: nat, n: nat, k: nat, sum: nat)
    requires k < n && sum == x + m * Pow256(n)
    ensures LittleEndian(sum, n)[k] == (x / Pow256(k)) % 256
    decreases n
  {
    Carry(x, m, n, sum);
    if k > 0 {
      PlacesOfMultiple(x / 256, m, n - 1, k - 1, sum / 256);
      QuotientOfQuotient(x, Pow256(k - 1));
    }
  }

  lemma Carry(x: int, m: nat, n: nat, sum: int)
    requires n > 0 && sum == x + m * Pow256(n)
    ensures sum % 256 == x % 256 && sum / 256 == x / 256 + m * Pow256(n - 1)
  {
    var carry := m * Pow256(n - 1);
    assert m * (256 * Pow256(n - 1)) == 256 * carry;
    assert sum == x + 256 * carry;
  }

  lemma QuotientOfQuotient(x: int, d: nat)
    requires d >= 1
    ensures x / 256 / d == x / (256 * d)
  {
    var q, r := x / 256, x % 256;
    var q', r' := q / d, q % d;
    assert x == 256 * q + r && q == q' * d + r';
    assert 256 * (q' * d) == q' * (256 * d);
    DivModUnique(x, 256 * d, q', 256 * r' + r);
  }

  /** The k-th byte of an integer, negative or not, is the k-th digit to the base 256 from the right. */
  lemma IntPlaces(x: int, n: nat, k: nat)
    requires FitsSigned(x, n) && k < n
    ensures EncodeInt(x, n)[k] == (x / Pow256(k)) % 256
  {
    PlacesOfMultiple(x, if x < 0 then 1 else 0, n, k, Unsigned(x, n));
  }

  lemma LengthPlaces(x: nat, n: nat, k: nat)
    requires k < n
    ensures LittleEndian(x, n)[k] == (x / Pow256(k)) % 256
  {
    PlacesOfMultiple(x, 0, n, k, x);
  }

  /** A message record: eight bytes of length, eight of time, the topic, a newline, the message. */
  lemma RecordLayout(r: Record, b: Bytes)
    requires Recordable(r) && b == EncodeRecord(r)
    ensures |b| == 17 + |r.topic| + |r.msg|
    ensures forall k :: 0 <= k < 8 ==> b[k] == (|r.msg| / Pow256(k)) % 256 && b[8 + k] == (r.time / Pow256(k)) % 256
    ensures b[16..16 + |r.topic|] == r.topic && b[16 + |r.topic|] == 10 && b[17 + |r.topic|..] == r.msg
  {
    var size, time := LittleEndian(|r.msg|, 8), EncodeInt(r.time, 8);
    Sizes();
    forall k | 0 <= k < 8 ensures b[k] == (|r.msg| / Pow256(k)) % 256 && b[8 + k] == (r.time / Pow256(k)) % 256 {
      LengthPlaces(|r.msg|, 8, k);
      IntPlaces(r.time, 8, k);
      assert b[k] == size[k] && b[8 + k] == time[k];
    }
  }

  // ----- the header record -----

  /** Each field has its length in front; the header has its own length first. */
  lemma FieldLayout(f: Field, b: Bytes)
    requires |f.0| + 1 + |f.1| < TWO32 && b == EncodeField(f)
    ensures FromLittleEndian(b[..4]) == |f.0| + 1 + |f.1| == |b| - 4
    ensures b[4..4 + |f.0|] == f.0 && b[4 + |f.0|] == 61 && b[5 + |f.0|..] == f.1
  {
    var text := FieldText(f);
    Sizes();
    LittleEndianRoundTrip(|text|, 4);
    assert b[..4] == LittleEndian(|text|, 4) && b[4..] == text;
  }

  /** A header of one field, byte for byte. */
  lemma HeaderExample()
    ensures EncodeHeader([(Ascii("op"), Ascii("0x01"))]) ==
      [11, 0, 0, 0, 7, 0, 0, 0, 'o' as int, 'p' as int, 61, '0' as int, 'x' as int, '0' as int, '1' as int]
  {
    var f := (Ascii("op"), Ascii("0x01"));
    SmallLength(7);
    SmallLength(11);
    assert Ascii("op") == [111, 112] && Ascii("0x01") == [48, 120, 48, 49];
    assert FieldText(f) == [111, 112, 61, 48, 120, 48, 49];
    assert EncodeFields([f]) == EncodeField(f) + EncodeFields([]);
  }

  lemma SmallLength(x: nat)
    requires x < 256
    ensures LittleEndian(x, 4) == [x, 0, 0, 0]
  {
    var none: Bytes := [];
    assert LittleEndian(0, 0) == none;
    assert LittleEndian(0, 1) == [0];
    assert LittleEndian(0, 2) == [0, 0];
    assert LittleEndian(0, 3) == [0, 0, 0];
  }

  /** The header record is the header, with its length first, and behind it blanks. */
  lemma HeaderRecordLayout(start: int, end: int, count: nat, b: Bytes, header: Bytes)
    requires FitsSigned(start, 8) && FitsSigned(end, 8) && count < TWO32
    requires b == HeaderRecord(start, end, count) && header == EncodeFields(HeaderFields(start, end, count))
    ensures |b| == 1028 && FromLittleEndian(b[..4]) == |header| && 4 + |header| <= 1028 && b[4..4 + |header|] == header
    ensures forall i :: 4 + |header| <= i < 1028 ==> b[i] == 32
  {
    HeaderRecordSize(start, end, count);
    PaddedLayout(HeaderFields(start, end, count), b, header);
  }

  lemma PaddedLayout(fields: seq<Field>, b: Bytes, header: Bytes)
    requires header == EncodeFields(fields) && |header| < FILE_HEADER_LEN && b == PaddedHeader(fields)
    ensures |b| == 1028 && FromLittleEndian(b[..4]) == |header| && b[4..4 + |header|] == header
    ensures forall i :: 4 + |header| <= i < 1028 ==> b[i] == 32
  {
    Sizes();
    LittleEndianRoundTrip(|header|, 4);
    assert b[..4] == LittleEndian(|header|, 4);
  }

  /** A text without '=' where a field should be is skipped, and not counted towards the header's length. */
  lemma SkippedField(text: Bytes, rest: Bytes, readLen: nat, header: map<Bytes, Bytes>)
    requires |text| < TWO32 && 61 !in text
    ensures ParseField(LittleEndian(|text|, 4) + text + rest, readLen, header) == Round(readLen, header, rest)
  {
    CutEncoded(text, rest);
  }

  /** A key has the value of the last field with it; the other keys keep theirs. */
  lemma {:induction false} FieldsAdded(header: map<Bytes, Bytes>, fields: seq<Field>, i: nat)
    requires i < |fields| && forall j :: i < j < |fields| ==> fields[j].0 != fields[i].0
    ensures fields[i].0 in AddFields(header, fields) && AddFields(header, fields)[fields[i].0] == fields[i].1
    decreases |fields|
  {
    var header' := header[fields[0].0 := fields[0].1];
    if i > 0 {
      FieldsAdded(header', fields[1..], i - 1);
    } else {
      OthersKept(header', fields[1..], fields[0].0);
    }
  }

  lemma {:induction false} OthersKept(header: map<Bytes, Bytes>, fields: seq<Field>, key: Bytes)
    requires forall j :: 0 <= j < |fields| ==> fields[j].0 != key
    ensures key in AddFields(header, fields) <==> key in header
    ensures key in header ==> AddFields(header, fields)[key] == header[key]
    decreases |fields|
  {
    if fields != [] {
      OthersKept(header[fields[0].0 := fields[0].1], fields[1..], key);
    }
  }

  // ----- the numbers in the header -----

  /** The integer a text denotes: digits, or a minus sign and digits. */
  ghost function ReadInt(s: string): Option<int> {
    var negative := s != "" && s[0] == '-';
    var digits := if negative then s[1..] else s;
    if digits == "" || !AllDigits(digits) then None
    else
      var x: int := Decimals.Parse(digits);
      Some(if negative then -x else x)
  }

  /** Every integer is written so that it can be read. */
  lemma ReadIntText(x: int)
    ensures ReadInt(IntText(x)) == Some(x)
  {
    var n := if x < 0 then -x else x;
    ParseFormat(n);
    if x < 0 {
      assert ("-" + Format(n))[1..] == Format(n);
    } else {
      assert IsDigit(Format(n)[0]);
    }
  }

  /** The text of some bytes. */
  function Chars(b: Bytes): (s: string)
    ensures |s| == |b|
  {
    seq(|b|, i requires 0 <= i < |b| => b[i] as char)
  }

  lemma CharsOfAscii(s: string)
    requires forall i :: 0 <= i < |s| ==> s[i] as int < 256
    ensures Chars(Ascii(s)) == s
  {
    assert forall i :: 0 <= i < |s| ==> Ascii(s)[i] == s[i] as int;
  }

  lemma CharsOfIntText(x: int)
    ensures Chars(Ascii(IntText(x))) == IntText(x)
  {
    ParseFormat(if x < 0 then -x else x);
    CharsOfAscii(IntText(x));
  }

  /** The integer under a key of a header. */
  ghost function NumberAt(header: map<Bytes, Bytes>, key: string): Option<int> {
    if Ascii(key) in header then ReadInt(Chars(header[Ascii(key)])) else None
  }

  ghost predicate HoldsNumbers(header: map<Bytes, Bytes>, start: int, end: int, count: nat) {
    NumberAt(header, "start_time") == Some(start) && NumberAt(header, "end_time") == Some(end)
    && NumberAt(header, "msg_count") == Some(count)
  }

  lemma NumberIs(header: map<Bytes, Bytes>, key: string, x: int)
    requires Ascii(key) in header && header[Ascii(key)] == Ascii(IntText(x))
    ensures NumberAt(header, key) == Some(x)
  {
    ReadIntText(x);
    CharsOfIntText(x);
  }

  lemma HeaderMapNumbers(start: int, end: int, count: nat, header: map<Bytes, Bytes>)
    requires header == Bag.HeaderMap(start, end, count)
    ensures HoldsNumbers(header, start, end, count)
  {
    KeysDiffer(Ascii("op"), Ascii("start_time"), Ascii("end_time"), Ascii("msg_count"));
    NumberIs(header, "start_time", start);
    NumberIs(header, "end_time", end);
    NumberIs(header, "msg_count", count);
  }

  lemma KeysDiffer(a: Bytes, b: Bytes, c: Bytes, d: Bytes)
    requires |a| == 2 && |b| == 10 && |c| == 8 && |d| == 9
    ensures a != b && a != c && a != d && b != c && b != d && c != d
  {
  }

  /**
   Opening a closed bag, whatever follows it, gives a header that holds the times and the number of
   messages written at close, as long as the bytes behind do not break the stream; as it is closed,
   it opens.
   */
  lemma ClosedBagHoldsNumbers(bag: Bytes, start: int, end: int, count: nat, rs: seq<Record>, extra: Bytes)
    requires WellFormed(rs) && FitsSigned(start, 8) && FitsSigned(end, 8) && count < TWO32
    requires bag == Bag.ClosedBag(start, end, count, rs)
    ensures Bag.OpenBag(bag + extra).Opened? ==> HoldsNumbers(Bag.OpenBag(bag + extra).header, start, end, count)
    ensures Bag.OpenBag(bag).Opened? && HoldsNumbers(Bag.OpenBag(bag).header, start, end, count)
  {
    Bag.ClosedBagReadsBack(bag, start, end, count, rs, extra);
    Bag.ClosedBagLosesItsLast(bag, start, end, count, rs);
    HeaderMapNumbers(start, end, count, Bag.HeaderMap(start, end, count));
  }

  // ----- the version line -----

  lemma {:induction false} DigitsAre(s: string, b: Bytes)
    requires AllDigits(s) && b == Ascii(s)
    ensures (forall i :: 0 <= i < |b| ==> Bag.IsDigitByte(b[i])) && Bag.DigitsValue(b) == Decimals.Parse(s)
  {
    assert forall i :: 0 <= i < |s| ==> IsDigit(s[i]) && b[i] == s[i] as int;
    if s != "" {
      assert b[..|b| - 1] == Ascii(s[..|s| - 1]);
      DigitsAre(s[..|s| - 1], b[..|b| - 1]);
    }
  }

  lemma {:induction false} DigitRunIs(digits: Bytes, rest: Bytes)
    requires forall i :: 0 <= i < |digits| ==> Bag.IsDigitByte(digits[i])
    requires rest == [] || !Bag.IsDigitByte(rest[0])
    ensures Bag.DigitRun(digits + rest) == |digits|
    decreases |digits|
  {
    if digits == [] {
      assert digits + rest == rest;
    } else {
      assert (digits + rest)[1..] == digits[1..] + rest;
      DigitRunIs(digits[1..], rest);
    }
  }

  /** A version line with any two numbers is read as a hundred times the first and the second. */
  lemma VersionLineIs(major: nat, minor: nat, a: Bytes, b: Bytes)
    requires a == Ascii(Format(major)) && b == Ascii(Format(minor))
    ensures Bag.ParseVersion(Ascii("#MSGBAG V") + (a + ([46] + b))) == Some(100 * major + minor)
  {
    ParseFormat(major);
    ParseFormat(minor);
    DigitsAre(Format(major), a);
    DigitsAre(Format(minor), b);
    DigitRunIs(a, [46] + b);
    DigitRunIs(b, []);
    VersionParts(Ascii("#MSGBAG V") + (a + ([46] + b)), a, b);
  }

  lemma VersionParts(line: Bytes, a: Bytes, b: Bytes)
    requires line == Ascii("#MSGBAG V") + (a + ([46] + b))
    ensures Bag.VERSION_PREFIX <= line && line[|Bag.VERSION_PREFIX|..] == a + ([46] + b)
    ensures (a + ([46] + b))[..|a|] == a && (a + ([46] + b))[|a| + 1..] == b && (a + ([46] + b))[|a|] == 46
    ensures b + [] == b && b[..|b|] == b
  {
  }

  /** The first line decides how a file is opened, whatever comes behind it. */
  lemma VersionDecides(file: Bytes, eol: nat, version: Option<nat>)
    requires eol < |file| && file[eol] == 10 && 10 !in file[..eol] && version == Bag.ParseVersion(file[..eol])
    ensures version == None ==> Bag.OpenBag(file) == Bag.BadVersionLine
    ensures version == Some(100) ==> Bag.OpenBag(file) == Bag.OpenHeader(file, eol + 1)
    ensures version != None && version != Some(100) ==> Bag.OpenBag(file) == Bag.UnsupportedVersion
  {
    FirstNewline(file, eol);
  }

  lemma FirstNewline(file: Bytes, eol: nat)
    requires eol < |file| && file[eol] == 10 && 10 !in file[..eol]
    ensures Find(file, NEWLINE) == eol
  {
    FindAfter(file[..eol], file[eol..], NEWLINE);
    Sequences.Cut(file, eol);
  }

  /** The version line, byte for byte. */
  lemma VersionLineBytes()
    ensures Chars(VERSION_LINE) == "#MSGBAG V1.0\n"
  {
    CharsOfAscii("#MSGBAG V1.0");
    var s, n := Ascii("#MSGBAG V1.0"), |"#MSGBAG V1.0"|;
    assert forall i :: 0 <= i < n ==> VERSION_LINE[i] == s[i] && Chars(s)[i] == Chars(VERSION_LINE)[i];
    assert Chars(VERSION_LINE)[..n] == "#MSGBAG V1.0";
    assert Chars(VERSION_LINE) == Chars(VERSION_LINE)[..n] + "\n";
  }

  // ----- broken tails -----

  /** The two integers that a record begins with. */
  function RecordStart(size: nat, time: int): (b: Bytes)
    requires size < TWO64 && FitsSigned(time, 8)
    ensures |b| == 16
  {
    LittleEndian(size, 8) + EncodeInt(time, 8)
  }

  lemma StartIsRead(before: Bytes, size: nat, time: int, rest: Bytes, file: Bytes)
    requires size < TWO64 && FitsSigned(time, 8) && rest != [] && file == before + (RecordStart(size, time) + rest)
    ensures ReadRecord(file, |before|) == ReadBody(file, |before| + 16, size, time)
    ensures file[|before| + 16..] == rest
  {
    var at, a, b := |before|, LittleEndian(size, 8), EncodeInt(time, 8);
    Sizes();
    LittleEndianRoundTrip(size, 8);
    IntRoundTrip(time, 8);
    assert file == before + a + b + rest;
    TwoLongs(before, a, b, rest);
  }

  /** A record whose message is cut off, or is not followed by a byte, ends the reading; nothing breaks. */
  lemma CutMessageEnds(before: Bytes, size: nat, time: int, topic: Bytes, msg: Bytes, file: Bytes)
    requires size < TWO64 && FitsSigned(time, 8) && NEWLINE !in topic && |msg| <= size
    requires file == before + (RecordStart(size, time) + (topic + ([10] + msg)))
    ensures ReadRecords(file, |before|) == [] && !Breaks(file, |before|)
  {
    StartIsRead(before, size, time, topic + ([10] + msg), file);
    FindAfter(topic, [10] + msg, NEWLINE);
  }

  /** A topic without its end breaks the stream. */
  lemma CutTopicBreaks(before: Bytes, size: nat, time: int, topic: Bytes, file: Bytes)
    requires size < TWO64 && FitsSigned(time, 8) && NEWLINE !in topic && topic != []
    requires file == before + (RecordStart(size, time) + topic)
    ensures Breaks(file, |before|)
    ensures ReadRecords(file, |before|) == if size <= |file| then [Record(time, topic, Zeros(size))] else []
  {
    StartIsRead(before, size, time, topic, file);
    assert Find(topic, NEWLINE) == -1;
    assert |file| + 1 > size <==> size <= |file|;
    assert ReadRecord(file, |before|) == Broken(if size <= |file| then [Record(time, topic, Zeros(size))] else []);
    OneBroken(file, |before|, if size <= |file| then [Record(time, topic, Zeros(size))] else []);
  }

  lemma OneBroken(file: Bytes, pos: nat, rs: seq<Record>)
    requires pos < |file| && ReadRecord(file, pos) == Broken(rs)
    ensures Breaks(file, pos) && ReadRecords(file, pos) == rs
  {
  }

  /**
   So a recording that was cut off while a record was being added to a complete bag still gives the
   messages before it, unless it was cut in the topic: then it does not open at all.
   */
  lemma CutOffBag(bag: Bytes, start: int, end: int, count: nat, rs: seq<Record>, r: Record, cut: nat, extra: Bytes)
    requires WellFormed(rs) && FitsSigned(start, 8) && FitsSigned(end, 8) && count < TWO32
    requires Recordable(r) && NEWLINE !in r.topic
    requires bag == Bag.ClosedBag(start, end, count, rs) && 0 < cut <= |EncodeRecord(r)| && extra == EncodeRecord(r)[..cut]
    ensures Bag.OpenBag(bag + extra) ==
      if 16 < cut <= 16 + |r.topic| then Bag.StreamFailed
      else Bag.Opened(Bag.HeaderMap(start, end, count), InsertAll([], rs))
  {
    Bag.ClosedBagReadsBack(bag, start, end, count, rs, extra);
    CutRecord(bag, r, cut, extra);
    assert rs + [] == rs;
  }

  lemma CutRecord(bag: Bytes, r: Record, cut: nat, extra: Bytes)
    requires Recordable(r) && NEWLINE !in r.topic
    requires 0 < cut <= |EncodeRecord(r)| && extra == EncodeRecord(r)[..cut]
    ensures Breaks(bag + extra, |bag|) <==> 16 < cut <= 16 + |r.topic|
    ensures !Breaks(bag + extra, |bag|) ==> ReadRecords(bag + extra, |bag|) == []
  {
    if cut <= 16 {
      ShortTail(bag, extra);
    } else {
      var body := CutBody(r, cut, extra);
      if cut <= 16 + |r.topic| {
        CutTopicBreaks(bag, |r.msg|, r.time, r.topic[..cut - 16], bag + extra);
      } else {
        CutMessageEnds(bag, |r.msg|, r.time, r.topic, r.msg[..cut - 17 - |r.topic|], bag + extra);
      }
    }
  }

  lemma CutBody(r: Record, cut: nat, extra: Bytes) returns (body: Bytes)
    requires Recordable(r) && 16 < cut <= |EncodeRecord(r)| && extra == EncodeRecord(r)[..cut]
    ensures extra == RecordStart(|r.msg|, r.time) + body
    ensures body == if cut <= 16 + |r.topic| then r.topic[..cut - 16] else r.topic + ([10] + r.msg[..cut - 17 - |r.topic|])
  {
    body := (r.topic + ([10] + r.msg))[..cut - 16];
    assert EncodeRecord(r) == RecordStart(|r.msg|, r.time) + (r.topic + ([10] + r.msg));
  }

  /** A file opens only if its first line has an end and a whole header record behind it. */
  lemma OpenNeedsHeader(file: Bytes)
    ensures Bag.OpenBag(file).Opened? ==> Find(file, 10) >= 0 && |file| >= Find(file, 10) + 1 + 1028
  {
  }

  /** So a bag that is cut off before the end of its header record does not open. */
  lemma CutHeaderIsRefused(bag: Bytes, start: int, end: int, count: nat, rs: seq<Record>, cut: nat)
    requires AllRecordable(rs) && bag == Bag.ClosedBag(start, end, count, rs) && cut < 1041 && cut <= |bag|
    ensures !Bag.OpenBag(bag[..cut]).Opened?
  {
    OpenNeedsHeader(bag[..cut]);
    Bag.VersionLine();
    assert forall i :: 0 <= i < 12 ==> VERSION_LINE[i] != NEWLINE;
    assert forall i :: 0 <= i < 12 && i < cut ==> bag[..cut][i] == VERSION_LINE[i];
  }
}
