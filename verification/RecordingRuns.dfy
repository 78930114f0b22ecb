/** What every recording keeps, from its first file to its last. */
module RecordingRuns {
  import opened Arith
  import opened ByteCodec
  import opened Timeline
  import opened BagFormat
  import opened RecordingFiles
  import opened Recorder
  import Sequences
  import Bag

  /** A file becomes too large by its last message only. */
  ghost predicate SmallEnough(e: Setting, rs: seq<Record>)
    requires AllRecordable(rs)
  {
    forall j :: 0 < j < |rs| ==> !TooLarge(e, rs[..j])
  }

  ghost predicate AllSmallEnough(e: Setting, closed: seq<Segment>)
    requires AreBags(closed)
  {
    forall i :: 0 <= i < |closed| ==> IsBag(closed[i]) && SmallEnough(e, closed[i].records)
  }

  ghost predicate Good(e: Setting, r: Recording) {
    && Ready(e, r) && FilesAre(e.options, r.closed, r.disk, r.files)
    && r.target == TargetName(e.options, r.date, |r.closed|)
    && (e.options.split ==> SmallEnough(e, r.written) && AllSmallEnough(e, r.closed))
  }

  /** Every message that has been recorded. */
  ghost function Recorded(r: Recording): seq<Record> {
    AllRecords(r.closed) + r.written
  }

  lemma OpenedIsGood(e: Setting, r: Recording)
    requires SettingOk(e) && FilesAre(e.options, r.closed, r.disk, r.files)
    requires e.options.split ==> AllSmallEnough(e, r.closed)
    ensures Good(e, Opened(e, r))
    ensures Recorded(Opened(e, r)) == AllRecords(r.closed)
  {
    OpenNext(e.options, r.closed, r.disk, Dated(e, r).0, |r.closed|);
  }

  lemma FinishedIsGood(e: Setting, r: Recording)
    requires Good(e, r) && e.options.split
    ensures var f := Finished(e, r);
      && FilesAre(e.options, f.closed, f.disk, f.files) && AllSmallEnough(e, f.closed)
      && AllRecords(f.closed) == Recorded(r)
  {
    var s := CurrentSegment(e, r);
    OneMoreFile(e.options, r.closed, r.disk, r.files, s);
    AllRecordsPush(r.closed, s);
    SmallEnoughPush(e, r.closed, s);
  }

  lemma SmallEnoughPush(e: Setting, closed: seq<Segment>, s: Segment)
    requires AreBags(closed) && AllSmallEnough(e, closed) && IsBag(s) && SmallEnough(e, s.records)
    ensures AreBags(closed + [s]) && AllSmallEnough(e, closed + [s])
  {
    assert forall i :: 0 <= i < |closed| ==> (closed + [s])[i] == closed[i];
  }

  /** Starting another file loses no message, and keeps the newest files. */
  lemma NextFileIsGood(e: Setting, r: Recording)
    requires Good(e, r) && e.options.split
    ensures Good(e, NextFile(e, r)) && Recorded(NextFile(e, r)) == Recorded(r)
  {
    FinishedIsGood(e, r);
    OpenedIsGood(e, Finished(e, r));
  }

  lemma SizeCheckedIsGood(e: Setting, r: Recording)
    requires Good(e, r)
    ensures var c := SizeChecked(e, r);
      && Good(e, c) && Recorded(c) == Recorded(r) && r.closed <= c.closed
      && (e.options.split ==> c.running == r.running && (c.written == [] || !TooLarge(e, c.written)))
  {
    if TooLarge(e, r.written) && e.options.split {
      NextFileIsGood(e, r);
    }
  }

  lemma {:induction false} SplitUntilIsGood(e: Setting, r: Recording, time: int)
    requires Good(e, r) && e.options.split && e.options.maxDuration > 0
    ensures Good(e, SplitUntil(e, r, time)) && Recorded(SplitUntil(e, r, time)) == Recorded(r)
    decreases time - r.startTime
  {
    if r.startTime + e.options.maxDuration < time {
      OneDurationIsGood(e, r);
      SplitUntilIsGood(e, OneDuration(e, r), time);
    }
  }

  lemma OneDurationIsGood(e: Setting, r: Recording)
    requires Good(e, r) && e.options.split
    ensures Good(e, OneDuration(e, r)) && Recorded(OneDuration(e, r)) == Recorded(r)
  {
    NextFileIsGood(e, r);
  }

  lemma {:induction false} SplitUntilAdvances(e: Setting, r: Recording, time: int, start: int, n: nat)
    requires Ready(e, r) && e.options.maxDuration > 0
    requires (start, n) == Advance(r.startTime, e.options.maxDuration, time)
    ensures SplitUntil(e, r, time).startTime == start && |SplitUntil(e, r, time).closed| == |r.closed| + n
    decreases time - r.startTime
  {
    if r.startTime + e.options.maxDuration < time {
      var d := OneDuration(e, r);
      SplitUntilAdvances(e, d, time, start, n - 1);
    }
  }

  lemma DurationCheckedIsGood(e: Setting, r: Recording, time: int)
    requires Good(e, r)
    ensures Good(e, DurationChecked(e, r, time)) && Recorded(DurationChecked(e, r, time)) == Recorded(r)
  {
    if e.options.maxDuration > 0 && time - r.startTime > e.options.maxDuration && e.options.split {
      SplitUntilIsGood(e, r, time);
    }
  }

  /** With splitting by duration, the start moves by as many whole durations as files are finished. */
  lemma DurationCheckedAdvances(e: Setting, r: Recording, time: int)
    requires Ready(e, r) && e.options.split && e.options.maxDuration > 0
    ensures var (start, n) := Advance(r.startTime, e.options.maxDuration, time);
      && DurationChecked(e, r, time).startTime == start && |DurationChecked(e, r, time).closed| == |r.closed| + n
      && start == r.startTime + n * e.options.maxDuration && time <= start + e.options.maxDuration
      && (n == 0 || start < time)
  {
    AdvanceMeans(r.startTime, e.options.maxDuration, time);
    DurationCheckedIsAdvance(e, r, time);
  }

  lemma DurationCheckedIsAdvance(e: Setting, r: Recording, time: int)
    requires Ready(e, r) && e.options.split && e.options.maxDuration > 0
    ensures var (start, n) := Advance(r.startTime, e.options.maxDuration, time);
      DurationChecked(e, r, time).startTime == start && |DurationChecked(e, r, time).closed| == |r.closed| + n
  {
    var (start, n) := Advance(r.startTime, e.options.maxDuration, time);
    SplitUntilAdvances(e, r, time, start, n);
  }

  lemma AppendedIsGood(e: Setting, r: Recording, m: Record)
    requires Good(e, r) && Recordable(m) && (e.options.split ==> r.written == [] || !TooLarge(e, r.written))
    ensures Good(e, r.(written := r.written + [m])) && Recorded(r.(written := r.written + [m])) == Recorded(r) + [m]
  {
    forall j | 0 < j <= |r.written| ensures (r.written + [m])[..j] == r.written[..j] {
    }
    assert r.written[..|r.written|] == r.written;
    Sequences.Assoc(AllRecords(r.closed), r.written, [m]);
  }

  lemma ChecksAreGood(e: Setting, r: Recording, time: int)
    requires Good(e, r)
    ensures var c := DurationChecked(e, SizeChecked(e, r), time);
      && Good(e, c) && Recorded(c) == Recorded(r)
      && (e.options.split ==> c.written == [] || !TooLarge(e, c.written))
  {
    SizeCheckedIsGood(e, r);
    DurationCheckedIsGood(e, SizeChecked(e, r), time);
  }

  /** Recording one message keeps everything that was recorded, and puts the message last. */
  lemma WrittenIsGood(e: Setting, r: Recording, m: Record, logging: bool)
    requires Good(e, r) && Recordable(m)
    ensures Good(e, Written(e, r, m, logging))
    ensures Recorded(Written(e, r, m, logging)) == Recorded(r) + if logging then [m] else []
  {
    ChecksAreGood(e, r, m.time);
    if logging {
      AppendedIsGood(e, DurationChecked(e, SizeChecked(e, r), m.time), m);
    } else {
      assert Recorded(r) + [] == Recorded(r);
    }
  }

  /** With splitting by duration, a message's time is within the duration of the file it goes into. */
  lemma WrittenInTime(e: Setting, r: Recording, m: Record, logging: bool)
    requires Ready(e, r) && Recordable(m) && e.options.split && e.options.maxDuration > 0
    ensures m.time <= Written(e, r, m, logging).startTime + e.options.maxDuration
    ensures var w := Written(e, r, m, logging); w.startTime == r.startTime || r.startTime < w.startTime < m.time
  {
    var c := SizeChecked(e, r);
    DurationCheckedAdvances(e, c, m.time);
    AdvanceMeans(r.startTime, e.options.maxDuration, m.time);
  }

  // ----- whole runs -----

  /** Messages, and whether the disk checks let them through. */
  type Inputs = seq<(Record, bool)>

  ghost predicate AllInputsOk(ms: Inputs) {
    forall i :: 0 <= i < |ms| ==> Recordable(ms[i].0)
  }

  function LetThrough(ms: Inputs): seq<Record> {
    if ms == [] then [] else (if ms[0].1 then [ms[0].0] else []) + LetThrough(ms[1..])
  }

  /** The recording loop stops at the first message after a limit is reached without splitting. */
  ghost function Run(e: Setting, r: Recording, ms: Inputs): (f: Recording)
    requires Ready(e, r) && AllInputsOk(ms)
    ensures Ready(e, f)
    decreases |ms|
  {
    if ms == [] || !r.running then r
    else Run(e, Written(e, r, ms[0].0, ms[0].1), ms[1..])
  }

  /** How many messages a run takes. */
  ghost function Taken(e: Setting, r: Recording, ms: Inputs): (n: nat)
    requires Ready(e, r) && AllInputsOk(ms)
    ensures n <= |ms| && (e.options.split && r.running ==> n == |ms|)
    decreases |ms|
  {
    if ms == [] || !r.running then 0 else 1 + Taken(e, Written(e, r, ms[0].0, ms[0].1), ms[1..])
  }

  lemma OneMessage(e: Setting, r: Recording, ms: Inputs, w: Recording, rest: Inputs)
    requires Ready(e, r) && AllInputsOk(ms) && ms != [] && r.running
    requires w == Written(e, r, ms[0].0, ms[0].1) && rest == ms[1..]
    ensures Run(e, r, ms) == Run(e, w, rest) && Taken(e, r, ms) == 1 + Taken(e, w, rest)
    ensures !w.running ==> Run(e, w, rest) == w && Taken(e, w, rest) == 0
  {
  }

  lemma {:induction false} RunIsGood(e: Setting, r: Recording, ms: Inputs)
    requires Good(e, r) && AllInputsOk(ms)
    ensures Good(e, Run(e, r, ms)) && Recorded(Run(e, r, ms)) == Recorded(r) + LetThrough(ms[..Taken(e, r, ms)])
    decreases |ms|
  {
    if ms == [] || !r.running {
      assert Recorded(r) + LetThrough(ms[..0]) == Recorded(r);
    } else {
      WrittenIsGood(e, r, ms[0].0, ms[0].1);
      RunIsGood(e, Written(e, r, ms[0].0, ms[0].1), ms[1..]);
      LetThroughFirst(ms, Taken(e, r, ms), Recorded(r));
    }
  }

  lemma LetThroughFirst(ms: Inputs, n: nat, before: seq<Record>)
    requires 0 < n <= |ms|
    ensures before + LetThrough(ms[..n]) == before + (if ms[0].1 then [ms[0].0] else []) + LetThrough(ms[1..][..n - 1])
  {
    assert ms[..n][1..] == ms[1..][..n - 1];
    Sequences.Assoc(before, if ms[0].1 then [ms[0].0] else [], LetThrough(ms[1..][..n - 1]));
  }

  ghost function FirstFile(e: Setting, disk: map<string, Bytes>): Recording
    requires SettingOk(e)
  {
    Opened(e, Recording(disk, [], [], "", "", 0, [], e.clock(0), true, 1))
  }

  /**
   The disk in the end. Reaching a limit without splitting ends the recording loop, but closes
   nothing: only a signal stops the recorder, before or after that.
   */
  ghost function FinalDisk(e: Setting, r: Recording, signalled: bool): map<string, Bytes>
    requires Ready(e, r)
  {
    if signalled then StoppedDisk(e, r) else LeftDisk(e, r)
  }

  lemma FirstFileIsGood(e: Setting, disk: map<string, Bytes>)
    requires SettingOk(e)
    ensures Good(e, FirstFile(e, disk)) && Recorded(FirstFile(e, disk)) == []
  {
    OpenedIsGood(e, Recording(disk, [], [], "", "", 0, [], e.clock(0), true, 1));
  }

  /**
   Over every run, the finished files and the last one hold all messages let through, in order, up
   to the one after which the recording stops; with splitting it does not stop.
   */
  lemma NothingIsLost(e: Setting, disk: map<string, Bytes>, ms: Inputs)
    requires SettingOk(e) && AllInputsOk(ms)
    ensures var f, n := Run(e, FirstFile(e, disk), ms), Taken(e, FirstFile(e, disk), ms);
      var k := Removed(e.options, |f.closed|);
      && LetThrough(ms[..n]) == AllRecords(f.closed[..k]) + (AllRecords(f.closed[k..]) + f.written)
      && (e.options.split ==> n == |ms|)
  {
    FirstFileIsGood(e, disk);
    RunIsGood(e, FirstFile(e, disk), ms);
    var f, n := Run(e, FirstFile(e, disk), ms), Taken(e, FirstFile(e, disk), ms);
    var k := Removed(e.options, |f.closed|);
    AllRecordsSplit(f.closed, k);
    assert [] + LetThrough(ms[..n]) == LetThrough(ms[..n]);
    Sequences.Assoc(AllRecords(f.closed[..k]), AllRecords(f.closed[k..]), f.written);
  }

  lemma AllRecordsSplit(closed: seq<Segment>, k: nat)
    requires k <= |closed|
    ensures AllRecords(closed) == AllRecords(closed[..k]) + AllRecords(closed[k..])
  {
    AllRecordsSum(closed[..k], closed[k..]);
    Sequences.Cut(closed, k);
  }

  /**
   Over every run, the newest finished files are on the disk, each a closed bag of its messages,
   the older ones are not, and the list of current files names those that are kept. The last file
   is there too, under its final name if the recorder was stopped, and otherwise as it was left.
   */
  lemma NewestAreKept(e: Setting, disk: map<string, Bytes>, ms: Inputs, signalled: bool)
    requires SettingOk(e) && AllInputsOk(ms)
    ensures var f := Run(e, FirstFile(e, disk), ms);
      && AreBags(f.closed) && Current(e.options, f.closed, f.files)
      && OnDisk(e.options, f.closed, FinalDisk(e, f, signalled))
      && (e.options.split ==> AllSmallEnough(e, f.closed))
  {
    FirstFileIsGood(e, disk);
    RunIsGood(e, FirstFile(e, disk), ms);
    var f := Run(e, FirstFile(e, disk), ms);
    if signalled {
      OnDiskBeside(e.options, f.closed, f.disk, f.date, CurrentSegment(e, f).bytes);
    } else {
      OnDiskBesideActive(e.options, f.closed, f.disk, f.date, Bag.ClosedBag(0, 0, 0, f.written));
    }
  }

  /** The last file holds the last messages: closed exactly if the recorder was stopped. */
  lemma LastFileIsThere(e: Setting, disk: map<string, Bytes>, ms: Inputs, signalled: bool)
    requires SettingOk(e) && AllInputsOk(ms)
    ensures var f := Run(e, FirstFile(e, disk), ms); var final := FinalDisk(e, f, signalled);
      && f.target == TargetName(e.options, f.date, |f.closed|)
      && (signalled ==> f.target in final && final[f.target] == CurrentSegment(e, f).bytes)
      && CurrentSegment(e, f).records == f.written
      && (!signalled ==> f.target + ".active" in final && final[f.target + ".active"] == Bag.ClosedBag(0, 0, 0, f.written))
      && (!signalled ==> (f.target in final <==> f.target in f.disk))
  {
    FirstFileIsGood(e, disk);
    RunIsGood(e, FirstFile(e, disk), ms);
  }

  /**
   Opening a kept file gives back all but the last of its messages, so a recording that is split
   loses one message a file when it is played.
   */
  lemma KeptFilesReadBack(e: Setting, disk: map<string, Bytes>, ms: Inputs, signalled: bool, i: nat)
    requires SettingOk(e) && AllInputsOk(ms)
    requires var f := Run(e, FirstFile(e, disk), ms);
      Removed(e.options, |f.closed|) <= i < |f.closed| && WellFormed(f.closed[i].records)
    ensures var f := Run(e, FirstFile(e, disk), ms); var name, rs := SegmentName(e.options, f.closed, i), f.closed[i].records;
      && name in FinalDisk(e, f, signalled) && Bag.OpenBag(FinalDisk(e, f, signalled)[name]).Opened?
      && Bag.OpenBag(FinalDisk(e, f, signalled)[name]).records == InsertAll([], if rs != [] then rs[..|rs| - 1] else rs)
  {
    NewestAreKept(e, disk, ms, signalled);
    var f := Run(e, FirstFile(e, disk), ms);
    BagReadsBack(f.closed[i], f.closed[i].bytes, f.closed[i].records);
    assert SegmentNames(e.options, f.closed)[i] == SegmentName(e.options, f.closed, i);
  }

  lemma BagReadsBack(s: Segment, bag: Bytes, rs: seq<Record>)
    requires IsBag(s) && bag == s.bytes && rs == s.records && WellFormed(rs)
    ensures Bag.OpenBag(bag).Opened? && Bag.OpenBag(bag).records == InsertAll([], if rs != [] then rs[..|rs| - 1] else rs)
  {
    var start, end, count := s.start, s.end, U32(|rs|);
    Bag.ClosedBagLosesItsLast(bag, start, end, count, rs);
  }

  /** The recording loop over all messages, and the end, with a signal or without. */
  method Record(e: Setting, disk: map<string, Bytes>, ms: Inputs, signalled: bool) returns (final: map<string, Bytes>)
    requires SettingOk(e) && AllInputsOk(ms)
    ensures final == FinalDisk(e, Run(e, FirstFile(e, disk), ms), signalled)
  {
    var recorder := new Recorder(e, disk);
    ghost var all := Run(e, recorder.Value(), ms);
    var k := 0;
    assert ms[0..] == ms;
    while k < |ms| && recorder.running
      invariant 0 <= k <= |ms| && recorder.Valid() && recorder.env == e && Ready(e, recorder.Value())
      invariant fresh(recorder) && fresh(recorder.bag)
      invariant all == Run(e, recorder.Value(), ms[k..])
    {
      assert ms[k..][1..] == ms[k + 1..];
      recorder.DoWrite(ms[k].0, ms[k].1);
      k := k + 1;
    }
    if signalled {
      recorder.Stop();
      final := recorder.disk;
    } else {
      final := recorder.Leave();
    }
  }
}
