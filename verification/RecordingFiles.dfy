/** The names of the files of one recording, and which of them are kept. */
module RecordingFiles {
  import opened Arith
  import opened Decimals
  import opened ByteCodec
  import opened Timeline
  import opened BagFormat
  import opened Bag

  datatype Options = Options(prefix: string, appendDate: bool, split: bool,
                             maxSize: nat, maxSplits: nat, maxDuration: int)

  // ----- names -----

  /** The prefix without a final ".bag". */
  function Stem(prefix: string): string {
    var n := |prefix|;
    if n >= 4 && prefix[n - 4..] == ".bag" then prefix[..n - 4] else prefix
  }

  function NameParts(o: Options, date: string, count: nat): seq<string> {
    (if Stem(o.prefix) != "" then [Stem(o.prefix)] else [])
    + (if o.appendDate then [date] else [])
    + (if o.split then [Format(count)] else [])
  }

  /** Without any part there is no name. */
  predicate HasName(o: Options) {
    Stem(o.prefix) != "" || o.appendDate || o.split
  }

  function Join(parts: seq<string>): string
    requires parts != []
  {
    var last := parts[|parts| - 1];
    if |parts| == 1 then last else Join(parts[..|parts| - 1]) + "_" + last
  }

  function TargetName(o: Options, date: string, count: nat): string
    requires HasName(o)
  {
    Join(NameParts(o, date, count)) + ".bag"
  }

  function WriteName(o: Options, date: string, count: nat): string
    requires HasName(o)
  {
    TargetName(o, date, count) + ".active"
  }

  /** Only a final ".bag" is cut off. */
  lemma StemIs(p: string)
    ensures Stem(p + ".bag") == p
    ensures (!exists q: string :: p == q + ".bag") ==> Stem(p) == p
  {
    assert (p + ".bag")[|p|..] == ".bag" && (p + ".bag")[..|p|] == p;
    if |p| >= 4 && p[|p| - 4..] == ".bag" {
      assert p == p[..|p| - 4] + ".bag";
    }
  }

  /** All the forms a name can have: prefix, date and number, as far as they are wanted, with underscores between. */
  lemma TargetNames(o: Options, p: string, date: string, count: nat)
    requires o.prefix == p + ".bag" && HasName(o)
    ensures TargetName(o, date, count) ==
      if p == "" then
        (if !o.split then date + ".bag"
         else if !o.appendDate then Format(count) + ".bag"
         else date + "_" + Format(count) + ".bag")
      else
        (if !o.split && !o.appendDate then p + ".bag"
         else if !o.split then p + "_" + date + ".bag"
         else if !o.appendDate then p + "_" + Format(count) + ".bag"
         else p + "_" + date + "_" + Format(count) + ".bag")
  {
    StemIs(p);
    JoinAll(p, date, Format(count));
    assert NameParts(o, date, count) ==
      if p == "" then
        (if !o.split then [date] else if !o.appendDate then [Format(count)] else [date, Format(count)])
      else
        (if !o.split && !o.appendDate then [p] else if !o.split then [p, date]
         else if !o.appendDate then [p, Format(count)] else [p, date, Format(count)]);
  }

  lemma JoinAll(a: string, b: string, c: string)
    ensures Join([a]) == a && Join([a, b]) == a + "_" + b && Join([a, b, c]) == a + "_" + b + "_" + c
    ensures Join([b, c]) == b + "_" + c && Join([a, c]) == a + "_" + c && Join([b]) == b && Join([c]) == c
  {
    assert [a, b][..1] == [a] && [a, b, c][..2] == [a, b] && [b, c][..1] == [b] && [a, c][..1] == [a];
  }

  lemma TargetNameOfSplit(o: Options, date: string, count: nat)
    requires o.split
    ensures var before := NameParts(o.(split := false), date, count);
      TargetName(o, date, count) == (if before == [] then "" else Join(before) + "_") + Format(count) + ".bag"
  {
    var before := NameParts(o.(split := false), date, count);
    JoinPush(before, Format(count), NameParts(o, date, count));
  }

  lemma JoinPush(before: seq<string>, last: string, parts: seq<string>)
    requires parts == before + [last]
    ensures Join(parts) == (if before == [] then "" else Join(before) + "_") + last
  {
    assert parts[..|before|] == before;
    assert "" + last == last;
  }

  /** What follows the last underscore is determined by the text. */
  lemma AfterUnderscore(x: string, y: string, a: string, b: string)
    requires '_' !in a && '_' !in b && x + "_" + a == y + "_" + b
    ensures a == b
  {
    var s := x + "_" + a;
    assert s[|x|] == '_' && (y + "_" + b)[|y|] == '_';
    assert forall k :: |x| < k < |s| ==> s[k] == a[k - |x| - 1];
    assert forall k :: |y| < k < |s| ==> s[k] == b[k - |y| - 1];
    assert s[|x| + 1..] == a && (y + "_" + b)[|y| + 1..] == b;
  }

  lemma Unsuffixed(x: string, y: string, suffix: string)
    requires x + suffix == y + suffix
    ensures x == y
  {
    assert |x| == |y|;
    assert (x + suffix)[..|x|] == x && (y + suffix)[..|y|] == y;
  }

  /** Two files of one recording never have the same name, whatever the dates are. */
  lemma TargetNamesDiffer(o: Options, date: string, date': string, count: nat, count': nat)
    requires o.split && TargetName(o, date, count) == TargetName(o, date', count')
    ensures count == count'
  {
    var a, b := NameParts(o.(split := false), date, count), NameParts(o.(split := false), date', count');
    TargetNameOfSplit(o, date, count);
    TargetNameOfSplit(o, date', count');
    var x, y := (if a == [] then "" else Join(a) + "_"), (if b == [] then "" else Join(b) + "_");
    Unsuffixed(x + Format(count), y + Format(count'), ".bag");
    ParseFormat(count);
    ParseFormat(count');
    if a != [] {
      AfterUnderscore(Join(a), Join(b), Format(count), Format(count'));
    } else {
      assert "" + Format(count) == Format(count) && "" + Format(count') == Format(count');
    }
    FormatInjective(count, count');
  }

  /** A file that is being written never has the name of a finished one. */
  lemma WriteNameIsNoTarget(o: Options, date: string, date': string, count: nat, count': nat)
    requires HasName(o)
    ensures WriteName(o, date, count) != TargetName(o, date', count')
  {
    var w, t := WriteName(o, date, count), TargetName(o, date', count');
    assert w[|w| - 1] == 'e' && t[|t| - 1] == 'g';
  }

  // ----- finished files -----

  /** A finished file, with what was recorded in it. */
  datatype Segment = Segment(date: string, start: int, end: int, records: seq<Record>, bytes: Bytes)

  /** Its bytes are those of a closed bag. */
  ghost predicate IsBag(s: Segment) {
    && AllRecordable(s.records) && FitsSigned(s.start, 8) && FitsSigned(s.end, 8)
    && s.bytes == ClosedBag(s.start, s.end, U32(|s.records|), s.records)
  }

  ghost predicate AreBags(closed: seq<Segment>) {
    forall i :: 0 <= i < |closed| ==> IsBag(closed[i])
  }

  ghost function SegmentName(o: Options, closed: seq<Segment>, i: nat): string
    requires HasName(o) && i < |closed|
  {
    TargetName(o, closed[i].date, i)
  }

  ghost function SegmentNames(o: Options, closed: seq<Segment>): (names: seq<string>)
    requires HasName(o)
    ensures |names| == |closed|
  {
    seq(|closed|, i requires 0 <= i < |closed| => SegmentName(o, closed, i))
  }

  /** The number of finished files that have been removed again. */
  function Removed(o: Options, count: nat): (n: nat)
    ensures n <= count
  {
    if o.maxSplits == 0 || count <= o.maxSplits then 0 else count - o.maxSplits
  }

  /** A disk with these files, except that the first ones are gone. */
  ghost predicate Holds(names: seq<string>, closed: seq<Segment>, removed: nat, disk: map<string, Bytes>)
    requires |names| == |closed|
  {
    && (forall i :: removed <= i < |names| ==> names[i] in disk && disk[names[i]] == closed[i].bytes)
    && (forall i :: 0 <= i < |names| && i < removed ==> names[i] !in disk)
  }

  /** The disk holds the newest finished files, and none of the older ones. */
  ghost predicate OnDisk(o: Options, closed: seq<Segment>, disk: map<string, Bytes>) {
    HasName(o) && Holds(SegmentNames(o, closed), closed, Removed(o, |closed|), disk)
  }

  /** With a limit on their number, the list of current files names the kept files in order. */
  ghost predicate Current(o: Options, closed: seq<Segment>, files: seq<string>) {
    && HasName(o)
    && files == if o.maxSplits == 0 then [] else SegmentNames(o, closed)[Removed(o, |closed|)..]
  }

  /**
   Each finished file is on the disk, under its prefix, date and number, if it is one of the newest
   maxSplits, or if there is no such limit; the list of current files names these.
   */
  ghost predicate NewestOnly(o: Options, closed: seq<Segment>, disk: map<string, Bytes>, files: seq<string>) {
    && HasName(o)
    && (forall i :: 0 <= i < |closed| ==>
      var name := TargetName(o, closed[i].date, i);
      && (name in disk <==> o.maxSplits == 0 || i + o.maxSplits >= |closed|)
      && (name in disk ==> disk[name] == closed[i].bytes))
    && |files| == (if |closed| <= o.maxSplits then |closed| else o.maxSplits)
    && (forall j :: 0 <= j < |files| ==>
      files[j] == SegmentName(o, closed, |closed| - |files| + j))
  }

  lemma KeptAreNewest(o: Options, closed: seq<Segment>, disk: map<string, Bytes>, files: seq<string>)
    requires OnDisk(o, closed, disk) && Current(o, closed, files)
    ensures NewestOnly(o, closed, disk, files)
  {
    var names := SegmentNames(o, closed);
    assert forall i :: 0 <= i < |names| ==> names[i] == SegmentName(o, closed, i) == TargetName(o, closed[i].date, i);
  }

  /** Everything recorded in the finished files. */
  function AllRecords(closed: seq<Segment>): seq<Record> {
    if closed == [] then [] else AllRecords(closed[..|closed| - 1]) + closed[|closed| - 1].records
  }

  lemma {:induction false} AllRecordsSum(a: seq<Segment>, b: seq<Segment>)
    ensures AllRecords(a + b) == AllRecords(a) + AllRecords(b)
  {
    if b == [] {
      assert a + b == a;
    } else {
      assert (a + b)[..|a + b| - 1] == a + b[..|b| - 1];
      AllRecordsSum(a, b[..|b| - 1]);
    }
  }

  lemma AllRecordsPush(closed: seq<Segment>, s: Segment)
    ensures AllRecords(closed + [s]) == AllRecords(closed) + s.records
  {
    assert (closed + [s])[..|closed|] == closed;
  }

  /** The names of the older files do not change when a file is added. */
  lemma NamesExtend(o: Options, closed: seq<Segment>, s: Segment)
    requires HasName(o)
    ensures SegmentNames(o, closed + [s]) == SegmentNames(o, closed) + [TargetName(o, s.date, |closed|)]
  {
  }

  // ----- finishing one more file -----

  /** The disk after a file is finished and the oldest one is removed if there are too many. */
  function DiskAfter(o: Options, files: seq<string>, disk: map<string, Bytes>, name: string, bytes: Bytes): map<string, Bytes> {
    var d := disk[name := bytes];
    if o.maxSplits > 0 && |files| + 1 > o.maxSplits then d - {(files + [name])[0]} else d
  }

  function FilesAfter(o: Options, files: seq<string>, name: string): seq<string> {
    if o.maxSplits == 0 then files
    else if |files| + 1 > o.maxSplits then (files + [name])[1..]
    else files + [name]
  }

  lemma CurrentAfter(o: Options, closed: seq<Segment>, files: seq<string>, s: Segment)
    requires Current(o, closed, files)
    ensures Current(o, closed + [s], FilesAfter(o, files, TargetName(o, s.date, |closed|)))
  {
    NamesExtend(o, closed, s);
  }

  lemma OnDiskAfter(o: Options, closed: seq<Segment>, files: seq<string>, disk: map<string, Bytes>, s: Segment)
    requires OnDisk(o, closed, disk) && Current(o, closed, files) && o.split
    ensures OnDisk(o, closed + [s], DiskAfter(o, files, disk, TargetName(o, s.date, |closed|), s.bytes))
  {
    NamesDiffer(o, closed + [s]);
    NamesExtend(o, closed, s);
    HoldsAfter(o, SegmentNames(o, closed), closed, disk, TargetName(o, s.date, |closed|), s);
  }

  lemma HoldsAfter(o: Options, names: seq<string>, closed: seq<Segment>, disk: map<string, Bytes>, name: string, s: Segment)
    requires |names| == |closed| && Holds(names, closed, Removed(o, |closed|), disk)
    requires forall i, j :: 0 <= i < j < |names| + 1 ==> (names + [name])[i] != (names + [name])[j]
    ensures var files := if o.maxSplits == 0 then [] else names[Removed(o, |closed|)..];
      Holds(names + [name], closed + [s], Removed(o, |closed| + 1), DiskAfter(o, files, disk, name, s.bytes))
  {
    var k, bytes := Removed(o, |names|), s.bytes;
    HoldsPush(names, closed, k, disk, name, s);
    if Removed(o, |names| + 1) > k {
      assert (names[k..] + [name])[0] == (names + [name])[k];
      HoldsOneLess(names + [name], closed + [s], k, disk[name := bytes]);
    }
  }

  lemma HoldsPush(names: seq<string>, closed: seq<Segment>, k: nat, disk: map<string, Bytes>, name: string, s: Segment)
    requires |names| == |closed| && k <= |names| && Holds(names, closed, k, disk)
    requires forall i, j :: 0 <= i < j < |names| + 1 ==> (names + [name])[i] != (names + [name])[j]
    ensures Holds(names + [name], closed + [s], k, disk[name := s.bytes])
  {
    var names' := names + [name];
    assert names'[|names|] == name && forall i :: 0 <= i < |names| ==> names'[i] == names[i] && names'[i] != name;
  }

  lemma HoldsOneLess(names: seq<string>, closed: seq<Segment>, k: nat, disk: map<string, Bytes>)
    requires |names| == |closed| && k < |names| && Holds(names, closed, k, disk)
    requires forall i, j :: 0 <= i < j < |names| ==> names[i] != names[j]
    ensures Holds(names, closed, k + 1, disk - {names[k]})
  {
    assert forall i :: 0 <= i < |names| && i != k ==> names[i] != names[k];
  }

  /** Another file does no harm. */
  lemma OnDiskBeside(o: Options, closed: seq<Segment>, disk: map<string, Bytes>, date: string, bytes: Bytes)
    requires OnDisk(o, closed, disk) && (closed == [] || o.split)
    ensures OnDisk(o, closed, disk[TargetName(o, date, |closed|) := bytes])
  {
    forall i | 0 <= i < |closed| ensures SegmentNames(o, closed)[i] != TargetName(o, date, |closed|) {
      if SegmentName(o, closed, i) == TargetName(o, date, |closed|) {
        TargetNamesDiffer(o, closed[i].date, date, i, |closed|);
      }
    }
  }

  lemma NamesDiffer(o: Options, closed: seq<Segment>)
    requires HasName(o) && o.split
    ensures forall i, j :: 0 <= i < j < |closed| ==> SegmentNames(o, closed)[i] != SegmentNames(o, closed)[j]
  {
    forall i, j | 0 <= i < j < |closed| ensures SegmentNames(o, closed)[i] != SegmentNames(o, closed)[j] {
      if SegmentName(o, closed, i) == SegmentName(o, closed, j) {
        TargetNamesDiffer(o, closed[i].date, closed[j].date, i, j);
      }
    }
  }

  /** Opening the next file for writing touches none of the finished ones. */
  lemma OpenNext(o: Options, closed: seq<Segment>, disk: map<string, Bytes>, date: string, count: nat)
    requires OnDisk(o, closed, disk)
    ensures OnDisk(o, closed, disk - {WriteName(o, date, count)})
  {
    forall i | 0 <= i < |closed| ensures SegmentNames(o, closed)[i] != WriteName(o, date, count) {
      WriteNameIsNoTarget(o, date, closed[i].date, count, i);
    }
  }

  /** The file that is still open is beside the finished ones too. */
  lemma OnDiskBesideActive(o: Options, closed: seq<Segment>, disk: map<string, Bytes>, date: string, bytes: Bytes)
    requires OnDisk(o, closed, disk)
    ensures OnDisk(o, closed, disk[WriteName(o, date, |closed|) := bytes])
  {
    forall i | 0 <= i < |closed| ensures SegmentNames(o, closed)[i] != WriteName(o, date, |closed|) {
      WriteNameIsNoTarget(o, date, closed[i].date, |closed|, i);
    }
  }

  // ----- limits -----

  /** The size of a bag is returned as a 32-bit integer and compared as a 64-bit unsigned one. */
  function GetSize(fileSize: nat): int {
    if U32(fileSize) >= TWO32 / 2 then U32(fileSize) - TWO32 else U32(fileSize)
  }

  predicate OverSize(o: Options, fileSize: nat) {
    o.maxSize > 0 && U64(GetSize(fileSize)) > o.maxSize
  }

  /** What the comparison sees: the low 32 bits, from 2 GiB on as a huge number. */
  lemma OverSizeMeans(o: Options, fileSize: nat)
    ensures OverSize(o, fileSize) <==>
      o.maxSize > 0 && (if U32(fileSize) >= TWO32 / 2 then U32(fileSize) + TWO64 - TWO32 else U32(fileSize)) > o.maxSize
  {
    if U32(fileSize) >= TWO32 / 2 {
      WrapsOnce(U32(fileSize));
    }
  }

  lemma WrapsOnce(low: nat)
    requires TWO32 / 2 <= low < TWO32
    ensures U64(low - TWO32) == low + TWO64 - TWO32
  {
  }

  /**
   For a limit below 2 GiB, the test agrees with it exactly as long as the file is within the
   limit or its low 32 bits are not.
   */
  lemma LimitHoldsExactly(o: Options, fileSize: nat)
    requires 0 < o.maxSize < TWO32 / 2
    ensures (OverSize(o, fileSize) <==> fileSize > o.maxSize) <==> fileSize <= o.maxSize || U32(fileSize) > o.maxSize
  {
    OverSizeMeans(o, fileSize);
  }

  /** Any limit is kept for files below 2 GiB. */
  lemma LimitHoldsBelow2GiB(o: Options, fileSize: nat)
    requires fileSize < TWO32 / 2
    ensures OverSize(o, fileSize) <==> o.maxSize > 0 && fileSize > o.maxSize
  {
    OverSizeMeans(o, fileSize);
  }

  /** Shortly after 4 GiB a file is small again. */
  lemma LimitFails(o: Options)
    requires o.maxSize == 100
    ensures !OverSize(o, 0x1_0000_0005)
  {
  }

  /** The start of the last duration, and the number of durations until a message's time is within it. */
  function Advance(start: int, duration: int, time: int): (int, nat)
    requires duration > 0
    decreases time - start
  {
    if start + duration < time then
      var (last, n) := Advance(start + duration, duration, time);
      (last, n + 1)
    else (start, 0)
  }

  /** The start moves by whole durations, and no further than it has to. */
  lemma {:induction false} AdvanceMeans(start: int, duration: int, time: int)
    requires duration > 0
    ensures var (last, n) := Advance(start, duration, time);
      last == start + n * duration && time <= last + duration && (n == 0 || last < time)
    decreases time - start
  {
    if start + duration < time {
      AdvanceMeans(start + duration, duration, time);
      var n := Advance(start + duration, duration, time).1;
      assert (n + 1) * duration == duration + n * duration;
    }
  }

  // ----- all of it together -----

  ghost predicate FilesAre(o: Options, closed: seq<Segment>, disk: map<string, Bytes>, files: seq<string>) {
    && AreBags(closed) && OnDisk(o, closed, disk) && Current(o, closed, files)
    && (closed != [] ==> o.split)
  }

  lemma OneMoreFile(o: Options, closed: seq<Segment>, disk: map<string, Bytes>, files: seq<string>, s: Segment)
    requires FilesAre(o, closed, disk, files) && IsBag(s) && o.split
    ensures var name := TargetName(o, s.date, |closed|);
      FilesAre(o, closed + [s], DiskAfter(o, files, disk, name, s.bytes), FilesAfter(o, files, name))
  {
    OnDiskAfter(o, closed, files, disk, s);
    CurrentAfter(o, closed, files, s);
  }
}
