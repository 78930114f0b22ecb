/** The bag object: one file, written message by message or read as a whole. */
module Bag {
  import opened Arith
  import opened ByteCodec
  import opened ByteBuffer
  import opened HeaderCodec
  import opened Timeline
  import opened BagFormat
  import opened Wrappers
  import Sequences

  // ----- what opening a file for reading gives -----

  datatype OpenResult =
    | Opened(header: map<Bytes, Bytes>, records: seq<Record>)
    | BadVersionLine
    | UnsupportedVersion
    | HeaderTooShort
    | StreamFailed

  predicate IsDigitByte(b: byte) {
    48 <= b <= 57
  }

  /** The number of digits at the front. */
  function DigitRun(b: Bytes): (n: nat)
    ensures n <= |b| && forall i :: 0 <= i < n ==> IsDigitByte(b[i])
  {
    if b == [] || !IsDigitByte(b[0]) then 0 else 1 + DigitRun(b[1..])
  }

  function DigitsValue(b: Bytes): nat
    requires forall i :: 0 <= i < |b| ==> IsDigitByte(b[i])
  {
    if b == [] then 0
    else assert IsDigitByte(b[|b| - 1]); 10 * DigitsValue(b[..|b| - 1]) + (b[|b| - 1] as int - 48)
  }

  const VERSION_PREFIX: Bytes := Ascii("#MSGBAG V")

  /** The version line: a prefix, a major and a minor number. */
  function ParseVersion(line: Bytes): Option<nat> {
    if !(VERSION_PREFIX <= line) then None
    else
      var a := line[|VERSION_PREFIX|..];
      var n := DigitRun(a);
      if n == 0 || |a| <= n || a[n] != 46 then None
      else
        var b := a[n + 1..];
        var m := DigitRun(b);
        if m == 0 then None else Some(100 * DigitsValue(a[..n]) + DigitsValue(b[..m]))
  }

  /** The bytes of the header record; what is missing of it reads as zeros. */
  function HeaderAt(file: Bytes, from: nat): Bytes
    requires from <= |file|
  {
    var size := FILE_HEADER_LEN + 4;
    if |file| - from < size then file[from..] + Zeros(size - (|file| - from)) else file[from..from + size]
  }

  /**
   Opening a bag for reading. A file that ends inside its header record, or inside the topic of a
   message, leaves the stream broken, which is found out when everything else is done.
   */
  function OpenBag(file: Bytes): OpenResult {
    var eol := Find(file, NEWLINE);
    var version := ParseVersion(if eol == -1 then file else file[..eol]);
    if version.None? then BadVersionLine
    else if version.value != 100 then UnsupportedVersion
    else OpenHeader(file, if eol == -1 then |file| else eol + 1)
  }

  function OpenHeader(file: Bytes, from: nat): OpenResult
    requires from <= |file|
  {
    match ParseHeader(HeaderAt(file, from), map[])
    case TooShort => HeaderTooShort
    case Parsed(header, _) => OpenRecords(file, from + FILE_HEADER_LEN + 4, header)
  }

  function OpenRecords(file: Bytes, at: nat, header: map<Bytes, Bytes>): OpenResult {
    if |file| < at || Breaks(file, at) then StreamFailed
    else Opened(header, InsertAll([], ReadRecords(file, at)))
  }

  // ----- closed bags -----

  function ClosedBag(start: int, end: int, count: nat, rs: seq<Record>): Bytes
    requires AllRecordable(rs)
  {
    VERSION_LINE + HeaderRecord(start, end, count) + EncodeRecords(rs)
  }

  lemma VersionLine()
    ensures Find(VERSION_LINE, NEWLINE) == |VERSION_LINE| - 1 == 12
    ensures ParseVersion(VERSION_LINE[..12]) == Some(100)
  {
    var line := Ascii("#MSGBAG V1.0");
    assert forall i :: 0 <= i < |line| ==> line[i] != NEWLINE;
    FindAfter(line, [NEWLINE], NEWLINE);
    assert VERSION_LINE[..12] == line;
    assert line[..9] == VERSION_PREFIX;
    assert line[9..] == [49, 46, 48];
    var a: Bytes := [49, 46, 48];
    assert DigitRun(a) == 1 && a[..1] == [49] && a[2..] == [48];
    var b: Bytes := [48];
    assert DigitRun(b) == 1 && b[..1] == [48];
    assert [49 as byte][..0] == [] && [48 as byte][..0] == [];
    assert DigitsValue([49]) == 1 && DigitsValue([48]) == 0;
  }

  function HeaderMap(start: int, end: int, count: nat): map<Bytes, Bytes> {
    map[Ascii("op") := Ascii("0x01"), Ascii("start_time") := Ascii(IntText(start)),
        Ascii("end_time") := Ascii(IntText(end)), Ascii("msg_count") := Ascii(IntText(count))]
  }

  /**
   What a bag of these messages gives back: the messages in the order of their time stamps. If
   nothing follows the bag, the last message written is missing; otherwise reading goes on with
   what follows, and may break there.
   */
  function ReadBack(bag: Bytes, header: map<Bytes, Bytes>, rs: seq<Record>, extra: Bytes): OpenResult {
    var file := bag + extra;
    if Breaks(file, |bag|) then StreamFailed
    else Opened(header, InsertAll([], if extra == [] && rs != [] then rs[..|rs| - 1] else rs + ReadRecords(file, |bag|)))
  }

  /** Opening a closed bag gives the header written at close, and its messages in that way. */
  lemma ClosedBagReadsBack(bag: Bytes, start: int, end: int, count: nat, rs: seq<Record>, extra: Bytes)
    requires WellFormed(rs) && FitsSigned(start, 8) && FitsSigned(end, 8) && count < TWO32
    requires bag == ClosedBag(start, end, count, rs)
    ensures OpenBag(bag + extra) == ReadBack(bag, HeaderMap(start, end, count), rs, extra)
  {
    HeaderReadsBack(start, end, count);
    OpenClosedBag(bag, HeaderRecord(start, end, count), HeaderMap(start, end, count), rs, extra);
  }

  lemma HeaderReadsBack(start: int, end: int, count: nat)
    requires FitsSigned(start, 8) && FitsSigned(end, 8) && count < TWO32
    ensures var header := HeaderRecord(start, end, count);
      && |header| == FILE_HEADER_LEN + 4 && ParseHeader(header, map[]).Parsed?
      && ParseHeader(header, map[]).header == HeaderMap(start, end, count)
  {
    HeaderRecordSize(start, end, count);
    HeaderRecordRoundTrip(start, end, count);
  }

  lemma OpenClosedBag(bag: Bytes, header: Bytes, fields: map<Bytes, Bytes>, rs: seq<Record>, extra: Bytes)
    requires WellFormed(rs) && |header| == FILE_HEADER_LEN + 4
    requires ParseHeader(header, map[]).Parsed? && ParseHeader(header, map[]).header == fields
    requires bag == VERSION_LINE + header + EncodeRecords(rs)
    ensures OpenBag(bag + extra) == ReadBack(bag, fields, rs, extra)
  {
    var before, body := VERSION_LINE + header, EncodeRecords(rs);
    Sequences.Assoc(before, body, extra);
    OpenByParts(bag + extra, before, header, body + extra, fields);
    RecordsReadBack(bag + extra, bag, before, rs, extra, fields);
  }

  lemma RecordsReadBack(file: Bytes, bag: Bytes, before: Bytes, rs: seq<Record>, extra: Bytes, fields: map<Bytes, Bytes>)
    requires WellFormed(rs) && bag == before + EncodeRecords(rs) && file == bag + extra
    ensures OpenRecords(file, |before|, fields) == ReadBack(bag, fields, rs, extra)
  {
    ReadEncodedRecords(file, before, rs, extra);
  }

  /**
   All messages come back, and nothing else, if and only if there are none or something follows the
   bag, and what follows neither holds a record nor breaks the stream.
   */
  lemma ClosedBagIsComplete(bag: Bytes, start: int, end: int, count: nat, rs: seq<Record>, extra: Bytes)
    requires WellFormed(rs) && FitsSigned(start, 8) && FitsSigned(end, 8) && count < TWO32
    requires bag == ClosedBag(start, end, count, rs)
    ensures var file := bag + extra;
      OpenBag(file) == Opened(HeaderMap(start, end, count), InsertAll([], rs)) <==>
      (rs == [] || extra != []) && ReadRecords(file, |bag|) == [] && !Breaks(file, |bag|)
  {
    ClosedBagReadsBack(bag, start, end, count, rs, extra);
    ReadBackCompletely(bag, HeaderMap(start, end, count), rs, extra);
  }

  lemma ReadBackCompletely(bag: Bytes, header: map<Bytes, Bytes>, rs: seq<Record>, extra: Bytes)
    ensures ReadBack(bag, header, rs, extra) == Opened(header, InsertAll([], rs)) <==>
      (rs == [] || extra != []) && ReadRecords(bag + extra, |bag|) == [] && !Breaks(bag + extra, |bag|)
  {
    var tail := ReadRecords(bag + extra, |bag|);
    var found := if extra == [] && rs != [] then rs[..|rs| - 1] else rs + tail;
    InsertAllIsStableSort([], found, 0);
    InsertAllIsStableSort([], rs, 0);
    assert tail == [] ==> rs + tail == rs;
  }

  /** One to sixteen bytes are enough. */
  lemma FewBytesComplete(bag: Bytes, start: int, end: int, count: nat, rs: seq<Record>, extra: Bytes)
    requires WellFormed(rs) && FitsSigned(start, 8) && FitsSigned(end, 8) && count < TWO32
    requires bag == ClosedBag(start, end, count, rs)
    ensures 1 <= |extra| <= 16 ==> OpenBag(bag + extra) == Opened(HeaderMap(start, end, count), InsertAll([], rs))
  {
    if 1 <= |extra| <= 16 {
      ShortTail(bag, extra);
      ClosedBagIsComplete(bag, start, end, count, rs, extra);
    }
  }

  lemma OpenByParts(file: Bytes, before: Bytes, header: Bytes, body: Bytes, fields: map<Bytes, Bytes>)
    requires |header| == FILE_HEADER_LEN + 4
    requires ParseHeader(header, map[]).Parsed? && ParseHeader(header, map[]).header == fields
    requires before == VERSION_LINE + header && file == before + body
    ensures OpenBag(file) == OpenRecords(file, |before|, fields)
  {
    Sequences.Assoc(VERSION_LINE, header, body);
    OpenByLine(file, header + body);
    HeaderBehind(file, header, body);
  }

  lemma OpenByLine(file: Bytes, rest: Bytes)
    requires file == VERSION_LINE + rest
    ensures |VERSION_LINE| == 13 && OpenBag(file) == OpenHeader(file, 13)
  {
    VersionLine();
    LineEnd(VERSION_LINE, rest);
    assert file[..12] == VERSION_LINE[..12];
  }

  lemma HeaderBehind(file: Bytes, header: Bytes, body: Bytes)
    requires |header| == FILE_HEADER_LEN + 4 && file == VERSION_LINE + (header + body)
    ensures HeaderAt(file, |VERSION_LINE|) == header
  {
    assert file[|VERSION_LINE|..] == header + body;
    assert file[|VERSION_LINE|..|VERSION_LINE| + |header|] == header;
  }

  lemma LineEnd(line: Bytes, rest: Bytes)
    requires |line| >= 1 && Find(line, NEWLINE) == |line| - 1
    ensures Find(line + rest, NEWLINE) == |line| - 1
  {
    FindAfter(line[..|line| - 1], [NEWLINE] + rest, NEWLINE);
    assert line + rest == line[..|line| - 1] + ([NEWLINE] + rest);
  }

  /** A bag as it is closed loses its last message. */
  lemma ClosedBagLosesItsLast(bag: Bytes, start: int, end: int, count: nat, rs: seq<Record>)
    requires WellFormed(rs) && FitsSigned(start, 8) && FitsSigned(end, 8) && count < TWO32
    requires bag == ClosedBag(start, end, count, rs)
    ensures OpenBag(bag) ==
      Opened(HeaderMap(start, end, count), InsertAll([], if rs != [] then rs[..|rs| - 1] else rs))
  {
    ClosedBagReadsBack(bag, start, end, count, rs, []);
    ShortTail(bag, []);
    NothingBehind(bag, rs);
  }

  /** As it is closed, it gives back all its messages exactly if it has none. */
  lemma ClosedBagIsCompleteOnlyIfEmpty(bag: Bytes, start: int, end: int, count: nat, rs: seq<Record>)
    requires WellFormed(rs) && FitsSigned(start, 8) && FitsSigned(end, 8) && count < TWO32
    requires bag == ClosedBag(start, end, count, rs)
    ensures OpenBag(bag).Opened? && (|OpenBag(bag).records| == |rs| <==> rs == [])
  {
    ClosedBagLosesItsLast(bag, start, end, count, rs);
    InsertAllIsStableSort([], if rs != [] then rs[..|rs| - 1] else rs, 0);
  }

  lemma NothingBehind(bag: Bytes, rs: seq<Record>)
    ensures bag + [] == bag && rs + [] == rs
  {
  }

  // ----- the bag object -----

  /** A header, encoded through a buffer and padded. */
  method HeaderBytes(header: seq<Field>) returns (bytes: Bytes)
    requires Fits(header)
    ensures bytes == PaddedHeader(header)
  {
    var buffer := new Buffer(1024);
    var headerLen := WriteHeader(header, buffer);
    assert buffer.Contents() == EncodeHeader(header);
    var dataLen := if headerLen < FILE_HEADER_LEN then FILE_HEADER_LEN - headerLen else 0;
    if dataLen > 0 {
      buffer.Append(Spaces(dataLen));
    }
    bytes := buffer.data[buffer.readerIndex..buffer.writerIndex];
  }

  /** Writing bytes at a position of a file: over what is there, then beyond its end. */
  function WriteAt(file: Bytes, at: nat, bytes: Bytes): Bytes
    requires at <= |file|
  {
    file[..at] + bytes + if at + |bytes| <= |file| then file[at + |bytes|..] else []
  }

  function SizeSoFar(rs: seq<Record>): nat
    requires AllRecordable(rs)
  {
    |VERSION_LINE| + FILE_HEADER_LEN + 4 + |EncodeRecords(rs)|
  }

  /** The header record of a bag that has not been closed: it holds zeros. */
  ghost predicate IsBlank(header: Bytes) {
    forall n: int {:trigger HeaderRecord(n, n, n)} :: n == 0 ==> header == HeaderRecord(n, n, n)
  }

  lemma BlankBag(header: Bytes, rs: seq<Record>, file: Bytes)
    requires IsBlank(header) && AllRecordable(rs) && file == VERSION_LINE + header + EncodeRecords(rs)
    ensures file == ClosedBag(0, 0, 0, rs)
  {
    assert header == HeaderRecord(0, 0, 0);
  }

  class Bag {
    var file: Bytes
    var position: nat
    var offset: nat
    var fileSize: nat
    var fileHeaderPos: nat
    var indexDataPos: nat
    var startTimestamp: int
    var endTimestamp: int
    var msgCount: nat
    ghost var header: Bytes
    ghost var written: seq<Record>

    /** The size is known between the writes of messages. */
    ghost predicate Sized()
      reads this`fileSize, this`written
    {
      AllRecordable(written) && fileSize == SizeSoFar(written)
    }

    /** While a bag is being written, its header record is a place for the one written at close. */
    ghost predicate Writing()
      reads this
    {
      && AllRecordable(written) && file == VERSION_LINE + header + EncodeRecords(written)
      && |header| == FILE_HEADER_LEN + 4
      && position == |file| && offset == |file| && fileHeaderPos == |VERSION_LINE|
      && FitsSigned(startTimestamp, 8) && endTimestamp == 0 && msgCount == U32(|written|)
    }

    /** No file is open. */
    ghost predicate Initial()
      reads this
    {
      fileSize == 0 && startTimestamp == 0 && endTimestamp == 0 && msgCount == 0
    }

    constructor ()
      ensures Initial()
    {
      file, position, header, written := [], 0, [], [];
      offset, fileSize, fileHeaderPos, indexDataPos, startTimestamp, endTimestamp, msgCount := 0, 0, 0, 0, 0, 0, 0;
    }

    method Init()
      modifies this
      ensures Initial() && file == old(file)
    {
      offset, fileSize, fileHeaderPos, indexDataPos, startTimestamp, endTimestamp, msgCount := 0, 0, 0, 0, 0, 0, 0;
    }

    /** Opens a new file, and finds out its size. */
    method Open(now: int)
      requires Initial() && FitsSigned(now, 8)
      modifies this
      ensures Writing() && Sized() && written == [] && startTimestamp == now && IsBlank(header)
    {
      OpenWrite(now);
      UpdateFileInfo();
      EmptySize(header);
    }

    method UpdateFileInfo()
      modifies this`offset, this`fileSize
      ensures offset == position && fileSize == |file|
    {
      offset := position;
      fileSize := |file|;
    }

    /** The version line, then a header record that will be rewritten. */
    method OpenWrite(now: int)
      requires Initial() && FitsSigned(now, 8)
      modifies this
      ensures Writing() && written == [] && startTimestamp == now && header == HeaderRecord(0, 0, 0)
    {
      file, position := [], 0;
      header, written := HeaderRecord(0, 0, 0), [];
      Put(VERSION_LINE);
      assert file == VERSION_LINE;
      fileHeaderPos := offset;
      WriteHeaderRecord();
      WriteAtEnd(VERSION_LINE, header);
      indexDataPos := offset;
      startTimestamp := now;
    }

    method Write(bytes: Bytes)
      requires position <= |file|
      modifies this`file, this`position, this`offset, this`fileSize
      ensures file == WriteAt(old(file), old(position), bytes)
      ensures position == offset == old(position) + |bytes| <= |file| && fileSize == |file|
    {
      file := WriteAt(file, position, bytes);
      position := position + |bytes|;
      UpdateFileInfo();
    }

    /** Writing at the end. */
    method Put(bytes: Bytes)
      requires position == |file|
      modifies this`file, this`position, this`offset, this`fileSize
      ensures file == old(file) + bytes
      ensures position == offset == |file| == fileSize
    {
      Write(bytes);
    }

    method WriteHeaderRecord()
      requires position <= |file|
      requires FitsSigned(startTimestamp, 8) && FitsSigned(endTimestamp, 8) && msgCount < TWO32
      modifies this`file, this`position, this`offset
      ensures file == WriteAt(old(file), old(position), HeaderRecord(startTimestamp, endTimestamp, msgCount))
      ensures position == offset == old(position) + FILE_HEADER_LEN + 4 <= |file|
    {
      HeaderRecordSize(startTimestamp, endTimestamp, msgCount);
      var bytes := HeaderBytes(HeaderFields(startTimestamp, endTimestamp, msgCount));
      file := WriteAt(file, position, bytes);
      position := position + |bytes|;
      offset := position;
    }

    /** The five writes with which the recorder appends a message. */
    method PutRecord(r: Record)
      requires Recordable(r) && position == |file|
      modifies this`file, this`position, this`offset, this`fileSize
      ensures file == old(file) + EncodeRecord(r)
      ensures position == offset == |file| == fileSize
    {
      var size, time := LittleEndian(|r.msg|, 8), EncodeInt(r.time, 8);
      FiveParts(file, size, time, r.topic, [NEWLINE], r.msg);
      Put(size);
      Put(time);
      Put(r.topic);
      Put([NEWLINE]);
      Put(r.msg);
    }

    method WriteMessage(r: Record)
      requires Writing() && Recordable(r)
      modifies this
      ensures Writing() && Sized() && written == old(written) + [r]
      ensures startTimestamp == old(startTimestamp) && header == old(header)
    {
      ghost var before := file;
      PutRecord(r);
      AppendRecord(before, header, written, r, file);
      msgCount := U32(msgCount + 1);
      written := written + [r];
    }

    /** Close: rewrites the header record in place and leaves the messages untouched. */
    method Close(now: int) returns (closed: Bytes)
      requires Writing() && FitsSigned(now, 8)
      modifies this
      ensures Initial() && closed == ClosedBag(old(startTimestamp), now, U32(|old(written)|), old(written))
    {
      HeaderRecordSize(startTimestamp, now, msgCount);
      position := |file|;
      indexDataPos := offset;
      position := fileHeaderPos;
      endTimestamp := now;
      RewriteHeader(header, HeaderRecord(startTimestamp, now, msgCount), EncodeRecords(written));
      WriteHeaderRecord();
      closed := file;
      Init();
    }
  }

  lemma FiveParts(f: Bytes, a: Bytes, b: Bytes, c: Bytes, d: Bytes, e: Bytes)
    ensures f + a + b + c + d + e == f + (a + b + c + d + e)
  {
  }

  lemma EmptySize(header: Bytes)
    requires |header| == FILE_HEADER_LEN + 4
    ensures |VERSION_LINE + header + EncodeRecords([])| == SizeSoFar([])
  {
  }

  lemma WriteAtEnd(file: Bytes, bytes: Bytes)
    ensures WriteAt(file, |file|, bytes) == file + bytes
  {
  }

  lemma RewriteHeader(a: Bytes, b: Bytes, body: Bytes)
    requires |a| == |b|
    ensures |VERSION_LINE| <= |VERSION_LINE + a + body|
    ensures WriteAt(VERSION_LINE + a + body, |VERSION_LINE|, b) == VERSION_LINE + b + body
  {
  }

  lemma AppendRecord(before: Bytes, header: Bytes, rs: seq<Record>, r: Record, after: Bytes)
    requires AllRecordable(rs) && Recordable(r) && |header| == FILE_HEADER_LEN + 4
    requires before == VERSION_LINE + header + EncodeRecords(rs) && after == before + EncodeRecord(r)
    ensures AllRecordable(rs + [r])
    ensures after == VERSION_LINE + header + EncodeRecords(rs + [r]) && |after| == SizeSoFar(rs + [r])
  {
    EncodeRecordsSum(rs, [r]);
    assert EncodeRecords([r]) == EncodeRecord(r) + [];
    Sequences.Assoc(VERSION_LINE + header, EncodeRecords(rs), EncodeRecord(r));
  }

  lemma {:induction false} EncodeRecordsSum(a: seq<Record>, b: seq<Record>)
    requires AllRecordable(a) && AllRecordable(b)
    ensures AllRecordable(a + b) && EncodeRecords(a + b) == EncodeRecords(a) + EncodeRecords(b)
  {
    if a == [] {
      assert a + b == b;
    } else {
      EncodeRecordsSum(a[1..], b);
      Sequences.Front(a, b);
      Sequences.Assoc(EncodeRecord(a[0]), EncodeRecords(a[1..]), EncodeRecords(b));
    }
  }

  /** A whole session: record the messages, close the bag, open the file again. */
  method RecordAndPlayBack(start: int, end: int, rs: seq<Record>) returns (r: OpenResult)
    requires WellFormed(rs) && FitsSigned(start, 8) && FitsSigned(end, 8)
    requires SizeSoFar(rs) < TWO64 - 1
    ensures r == Opened(HeaderMap(start, end, U32(|rs|)), InsertAll([], if rs != [] then rs[..|rs| - 1] else rs))
  {
    var closed := RecordAll(start, end, rs);
    HeaderRecordSize(start, end, U32(|rs|));
    ClosedBagLosesItsLast(closed, start, end, U32(|rs|), rs);
    var reader := new BagReader(closed);
    r := reader.Open();
  }

  method RecordAll(start: int, end: int, rs: seq<Record>) returns (closed: Bytes)
    requires AllRecordable(rs) && FitsSigned(start, 8) && FitsSigned(end, 8)
    ensures closed == ClosedBag(start, end, U32(|rs|), rs)
  {
    var bag := new Bag();
    bag.Open(start);
    for k := 0 to |rs|
      invariant bag.Writing() && bag.written == rs[..k] && bag.startTimestamp == start
    {
      bag.WriteMessage(rs[k]);
      Sequences.Longer(rs, k);
    }
    assert rs[..|rs|] == rs;
    closed := bag.Close(end);
  }

  /** Reading, with the position of the stream, which is -1 once the stream has failed. */
  class BagReader {
    const file: Bytes
    var position: int
    var offset: nat
    var records: seq<Record>

    constructor (file: Bytes)
      ensures this.file == file && position == 0 && offset == 0 && records == []
    {
      this.file, position, offset, records := file, 0, 0, [];
    }

    /** Wants more than size further bytes; otherwise the reader goes to the end of the file. */
    method CheckEnoughDataToRead(size: nat) returns (enough: bool)
      requires -1 <= position <= |file| < TWO64
      modifies this`position, this`offset
      ensures enough <==> U64(|file| - U64(old(position))) > size
      ensures enough ==> position == old(position) && offset == U64(position)
      ensures !enough ==> offset == |file| && position == if old(position) == -1 then -1 else |file|
    {
      offset := U64(position);
      enough := U64(|file| - offset) > size;
      if !enough {
        offset := |file|;
        if position != -1 {
          position := |file|;
        }
      }
    }

    /** Eight bytes, if there are more than eight. */
    method ReadLong() returns (enough: bool, bytes: Bytes)
      requires 0 <= position <= |file| < TWO64
      modifies this`position, this`offset
      ensures enough <==> |file| - old(position) > 8
      ensures enough ==> position == old(position) + 8 && bytes == file[old(position)..old(position) + 8]
      ensures !enough ==> offset == position == |file|
    {
      enough := CheckEnoughDataToRead(8);
      if enough {
        bytes := file[position..position + 8];
        position := position + 8;
      } else {
        bytes := [];
      }
    }

    /** The topic, up to a newline. */
    method ReadTopic() returns (topic: Bytes)
      requires 0 <= position <= |file|
      modifies this`position
      ensures var line := file[old(position)..];
        var eol := Find(line, NEWLINE);
        && topic == (if eol == -1 then line else line[..eol])
        && position == if eol == -1 then -1 else old(position) + eol + 1
    {
      var line := file[position..];
      var eol := Find(line, NEWLINE);
      topic := if eol == -1 then line else line[..eol];
      position := if eol == -1 then -1 else position + eol + 1;
    }

    method ReadMessage(size: nat, time: int, topic: Bytes)
      requires -1 <= position <= |file| < TWO64 - 1
      modifies this`position, this`offset, this`records
      ensures position == -1 <==> old(position) == -1
      ensures var pos, have := old(position), |file| - old(position);
        if have <= size then records == old(records) && offset == |file|
        else
          && records == Insert(old(records), Record(time, topic, if pos == -1 then Zeros(size) else file[pos..pos + size]))
          && if pos == -1 then offset >= |file| else position == offset == pos + size
    {
      var enough := CheckEnoughDataToRead(size);
      if !enough { return; }
      var msg := ReadBytes(size);
      records := Insert(records, Record(time, topic, msg));
    }

    /** Bytes that are there; a broken stream gives zeros. */
    method ReadBytes(size: nat) returns (bytes: Bytes)
      requires position == -1 || 0 <= position <= position + size <= |file| < TWO64 - 1
      modifies this`position, this`offset
      ensures bytes == if old(position) == -1 then Zeros(size) else file[old(position)..old(position) + size]
      ensures position == (if old(position) == -1 then -1 else old(position) + size) && offset == U64(position)
    {
      bytes := if position == -1 then Zeros(size) else file[position..position + size];
      position := if position == -1 then -1 else position + size;
      offset := U64(position);
    }

    /** What one attempt leaves of the reader. */
    ghost predicate After(a: Attempt, before: seq<Record>)
      reads this
    {
      && records == InsertAll(before, Found(a))
      && (position == -1 <==> a.Broken?)
      && if a.More? then position == offset == a.next else offset >= |file|
    }

    method ReadTopicIndexRecord()
      requires 0 <= position == offset < |file| < TWO64 - 1
      modifies this`position, this`offset, this`records
      ensures After(ReadRecord(file, old(position)), old(records))
    {
      var enough, bytes := ReadLong();
      if !enough { return; }
      var size := FromLittleEndian(bytes);
      enough, bytes := ReadLong();
      if !enough { return; }
      var time := DecodeInt(bytes);
      ReadTopicAndMessage(size, time);
    }

    method ReadTopicAndMessage(size: nat, time: int)
      requires 0 <= position <= |file| < TWO64 - 1
      modifies this`position, this`offset, this`records
      ensures After(ReadBody(file, old(position), size, time), old(records))
    {
      var topic := ReadTopic();
      OneInsert(records, Record(time, topic, Zeros(size)));
      ReadMessage(size, time, topic);
    }

    /** The version in the first line, and where that line ends. */
    method ReadVersion() returns (version: Option<nat>, eol: int)
      ensures eol == Find(file, NEWLINE) && version == ParseVersion(if eol == -1 then file else file[..eol])
    {
      eol := Find(file, NEWLINE);
      version := ParseVersion(if eol == -1 then file else file[..eol]);
    }

    /** The header, read through a buffer of zeros. A file that ends before it breaks the stream. */
    method ReadHeaderRecord(from: nat) returns (header: Parse)
      requires from <= |file| < TWO64 - 1
      modifies this`position, this`offset
      ensures header == ParseHeader(HeaderAt(file, from), map[])
      ensures position == (if |file| < from + FILE_HEADER_LEN + 4 then -1 else from + FILE_HEADER_LEN + 4)
      ensures offset == U64(position)
    {
      var size := FILE_HEADER_LEN + 4;
      var buffer := new Buffer(size);
      buffer.AppendInPlace(HeaderAt(file, from));
      assert buffer.Contents() == HeaderAt(file, from);
      position := if |file| < from + size then -1 else from + size;
      offset := U64(position);
      header := ReadHeader(map[], buffer);
    }

    method Open() returns (r: OpenResult)
      requires position == 0 && records == [] && |file| < TWO64 - 1
      modifies this
      ensures r == OpenBag(file)
    {
      var version, eol := ReadVersion();
      if version.None? {
        return BadVersionLine;
      }
      if version.value != 100 {
        return UnsupportedVersion;
      }
      r := OpenBehind(if eol == -1 then |file| else eol + 1);
    }

    /** What follows the version line; a broken stream is found out at the end. */
    method OpenBehind(from: nat) returns (r: OpenResult)
      requires from <= |file| < TWO64 - 1 && records == []
      modifies this
      ensures r == OpenHeader(file, from)
    {
      var header := ReadHeaderRecord(from);
      if header.TooShort? {
        return HeaderTooShort;
      }
      StartReading();
      r := if position == -1 then StreamFailed else Opened(header.header, records);
    }

    /** The loop over the records, which ends on every file; a broken stream has the size -1 and none. */
    method StartReading()
      requires records == [] && -1 <= position <= |file| < TWO64 - 1 && offset == U64(position)
      modifies this
      ensures old(position) == -1 ==> position == -1
      ensures old(position) != -1 ==>
        records == InsertAll([], ReadRecords(file, old(position))) && (position == -1 <==> Breaks(file, old(position)))
    {
      var fileSize := if position == -1 then U64(-1) else |file|;
      ghost var sound := position != -1;
      ghost var all, breaks := [], true;
      if sound {
        all, breaks := InsertAll([], ReadRecords(file, position)), Breaks(file, position);
      }
      while offset < fileSize
        invariant if sound then fileSize == |file| else position == -1 && offset == fileSize
        invariant offset < fileSize ==> position == offset
        invariant sound ==> all == InsertAll(records, if offset < fileSize then ReadRecords(file, offset) else [])
        invariant breaks <==> if offset < fileSize then Breaks(file, offset) else position == -1
        decreases fileSize - offset
      {
        InsertFirst(records, file, offset);
        ReadTopicIndexRecord();
      }
    }
  }

  lemma OneInsert(records: seq<Record>, r: Record)
    ensures InsertAll(records, [r]) == Insert(records, r) && InsertAll(records, []) == records
  {
    assert [r][1..] == [];
  }

  lemma InsertFirst(records: seq<Record>, file: Bytes, pos: nat)
    requires pos < |file|
    ensures var a := ReadRecord(file, pos);
      InsertAll(records, ReadRecords(file, pos)) ==
        InsertAll(InsertAll(records, Found(a)), if a.More? then ReadRecords(file, a.next) else [])
  {
    var a := ReadRecord(file, pos);
    InsertAllSum(records, Found(a), if a.More? then ReadRecords(file, a.next) else []);
  }
}
