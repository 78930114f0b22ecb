/** When a recording goes on to another file, and when it ends. */
module RecordingLimits {
  import opened Arith
  import opened ByteCodec
  import opened Timeline
  import opened BagFormat
  import opened Counting
  import opened RecordingFiles
  import opened Recorder
  import opened RecordingRuns
  import Sequences
  import Bag

  /** A time is over the maximal duration since another one. */
  predicate Late(o: Options, since: int, time: int) {
    o.maxDuration > 0 && time - since > o.maxDuration
  }

  // ----- one message -----

  /** Without splitting, a message ends the recording if and only if a limit is exceeded before it; it is recorded itself. */
  lemma WrittenWithoutSplit(e: Setting, r: Recording, m: Record, logging: bool)
    requires Ready(e, r) && Recordable(m) && !e.options.split
    ensures var w := Written(e, r, m, logging);
      && w.running == (r.running && !OverSize(e.options, Bag.SizeSoFar(r.written)) && !Late(e.options, r.startTime, m.time))
      && w.written == r.written + (if logging then [m] else [])
      && w == r.(running := w.running, written := w.written)
  {
    if !logging {
      assert r.written + [] == r.written;
    }
  }

  /**
   With splitting, a message never ends it. It finishes one file if the size limit is exceeded before
   it, and one for every whole duration that has passed; it goes into the last file.
   */
  lemma WrittenWithSplit(e: Setting, r: Recording, m: Record, logging: bool)
    requires Ready(e, r) && Recordable(m) && e.options.split
    ensures var w := Written(e, r, m, logging);
      var bySize := One(OverSize(e.options, Bag.SizeSoFar(r.written)));
      var byTime := if e.options.maxDuration > 0 then Advance(r.startTime, e.options.maxDuration, m.time).1 else 0;
      && w.running == r.running && r.closed <= w.closed && |w.closed| == |r.closed| + bySize + byTime
      && w.startTime == r.startTime + byTime * e.options.maxDuration
      && w.written == (if bySize + byTime == 0 then r.written else []) + (if logging then [m] else [])
  {
    var c := SizeChecked(e, r);
    TimeSplit(e, c, m.time);
    var d := DurationChecked(e, c, m.time);
    if !logging {
      assert d.written + [] == d.written;
    }
  }

  lemma TimeSplit(e: Setting, r: Recording, time: int)
    requires Ready(e, r) && e.options.split
    ensures var d := DurationChecked(e, r, time);
      var n := if e.options.maxDuration > 0 then Advance(r.startTime, e.options.maxDuration, time).1 else 0;
      && d.running == r.running && r.closed <= d.closed && |d.closed| == |r.closed| + n
      && d.startTime == r.startTime + n * e.options.maxDuration && d.written == if n == 0 then r.written else []
  {
    if e.options.maxDuration > 0 {
      DurationCheckedAdvances(e, r, time);
    }
  }

  // ----- without splitting -----

  lemma {:induction false} LetThroughRecordable(ms: Inputs)
    requires AllInputsOk(ms)
    ensures AllRecordable(LetThrough(ms))
  {
    if ms != [] {
      LetThroughRecordable(ms[1..]);
    }
  }

  /** The size of a bag of the messages let through. */
  ghost function SizeAfter(ms: Inputs): nat
    requires AllInputsOk(ms)
  {
    LetThroughRecordable(ms);
    Bag.SizeSoFar(LetThrough(ms))
  }

  /** The k-th message comes when a limit is exceeded: the size of what is before it, or its own time. */
  ghost predicate EndsAt(e: Setting, ms: Inputs, k: int)
    requires SettingOk(e) && AllInputsOk(ms) && 0 <= k < |ms|
  {
    OverSize(e.options, SizeAfter(ms[..k])) || Late(e.options, e.clock(0), ms[k].0.time)
  }

  lemma {:induction false} LetThroughPush(ms: Inputs, m: (Record, bool))
    ensures LetThrough(ms + [m]) == LetThrough(ms) + (if m.1 then [m.0] else [])
  {
    if ms == [] {
      assert (ms + [m])[1..] == ms && ms + [m] == [m];
    } else {
      assert (ms + [m])[1..] == ms[1..] + [m];
      LetThroughPush(ms[1..], m);
    }
  }

  /** The messages from one on up to n are taken: all there are, or up to the first that comes at an end. */
  ghost predicate UntilEnd(e: Setting, ms: Inputs, from: nat, n: nat, running: bool)
    requires SettingOk(e) && AllInputsOk(ms)
  {
    && n <= |ms|
    && (running ==> n == |ms| && forall k :: from <= k < n ==> !EndsAt(e, ms, k))
    && (!running ==> from < n && EndsAt(e, ms, n - 1) && forall k :: from <= k < n - 1 ==> !EndsAt(e, ms, k))
  }

  /** And they go into its only file. */
  ghost predicate OneFileUntilEnd(e: Setting, ms: Inputs, from: nat, n: nat, f: Recording)
    requires SettingOk(e) && AllInputsOk(ms)
  {
    UntilEnd(e, ms, from, n, f.running) && f.closed == [] && f.written == LetThrough(ms[..n])
  }

  lemma OneEarlier(e: Setting, ms: Inputs, from: nat, n: nat, f: Recording)
    requires SettingOk(e) && AllInputsOk(ms) && from < |ms| && OneFileUntilEnd(e, ms, from + 1, n, f) && !EndsAt(e, ms, from)
    ensures OneFileUntilEnd(e, ms, from, n, f)
  {
  }

  lemma Ends(e: Setting, ms: Inputs, from: nat, n: nat, f: Recording)
    requires SettingOk(e) && AllInputsOk(ms) && from < |ms| && EndsAt(e, ms, from) && n == from + 1
    requires !f.running && f.closed == [] && f.written == LetThrough(ms[..n])
    ensures OneFileUntilEnd(e, ms, from, n, f)
  {
  }

  lemma OneWithoutSplit(e: Setting, r: Recording, before: Inputs, ms: Inputs, all: Inputs, before': Inputs, w: Recording)
    requires Ready(e, r) && AllInputsOk(all) && AllInputsOk(ms) && all == before + ms && !e.options.split
    requires r.running && r.written == LetThrough(before) && r.startTime == e.clock(0) && r.closed == []
    requires ms != [] && before' == before + [ms[0]] && w == Written(e, r, ms[0].0, ms[0].1)
    ensures w.running <==> !EndsAt(e, all, |before|)
    ensures w.written == LetThrough(before') && w.startTime == r.startTime && w.closed == []
    ensures all == before' + ms[1..] && all[..|before'|] == before'
  {
    WrittenWithoutSplit(e, r, ms[0].0, ms[0].1);
    LetThroughPush(before, ms[0]);
    Sequences.Move(before, ms);
    assert all[..|before|] == before && all[|before|] == ms[0];
  }

  lemma {:induction false} RunWithoutSplit(e: Setting, r: Recording, before: Inputs, ms: Inputs, all: Inputs)
      returns (f: Recording, n: nat)
    requires Ready(e, r) && AllInputsOk(all) && AllInputsOk(ms) && all == before + ms && !e.options.split
    requires r.running && r.written == LetThrough(before) && r.startTime == e.clock(0) && r.closed == []
    ensures f == Run(e, r, ms) && n == |before| + Taken(e, r, ms)
    ensures OneFileUntilEnd(e, all, |before|, n, f)
    decreases |ms|
  {
    if ms == [] {
      f, n := r, |before|;
      assert all[..|before|] == before;
    } else {
      var w, before', rest := Written(e, r, ms[0].0, ms[0].1), before + [ms[0]], ms[1..];
      OneWithoutSplit(e, r, before, ms, all, before', w);
      OneMessage(e, r, ms, w, rest);
      if w.running {
        f, n := RunWithoutSplit(e, w, before', rest, all);
        OneEarlier(e, all, |before|, n, f);
      } else {
        f, n := w, |before'|;
        Ends(e, all, |before|, n, f);
      }
    }
  }

  /**
   Without splitting, a recording that starts on any disk takes all messages if none of them comes
   when a limit is exceeded, and otherwise up to the first that does and no further. All it takes
   goes into its only file.
   */
  lemma EndsExactly(e: Setting, disk: map<string, Bytes>, ms: Inputs)
    requires SettingOk(e) && AllInputsOk(ms) && !e.options.split
    ensures var f, n := Run(e, FirstFile(e, disk), ms), Taken(e, FirstFile(e, disk), ms);
      && (f.running ==> n == |ms| && forall k :: 0 <= k < n ==> !EndsAt(e, ms, k))
      && (!f.running ==> 0 < n && EndsAt(e, ms, n - 1) && forall k :: 0 <= k < n - 1 ==> !EndsAt(e, ms, k))
      && f.closed == [] && f.written == LetThrough(ms[..n])
  {
    var r := FirstFile(e, disk);
    var _, _ := RunWithoutSplit(e, r, [], ms, ms);
  }

  /** Without limits, which is the default, everything goes into one file, split or not. */
  lemma NoLimitsOneFile(e: Setting, disk: map<string, Bytes>, ms: Inputs)
    requires SettingOk(e) && AllInputsOk(ms) && e.options.maxSize == 0 && e.options.maxDuration <= 0
    ensures var f := Run(e, FirstFile(e, disk), ms); f.running && f.closed == [] && f.written == LetThrough(ms)
  {
    var r := FirstFile(e, disk);
    RunWithoutLimits(e, r, ms);
    assert [] + LetThrough(ms) == LetThrough(ms);
  }

  lemma {:induction false} RunWithoutLimits(e: Setting, r: Recording, ms: Inputs)
    requires Ready(e, r) && AllInputsOk(ms) && e.options.maxSize == 0 && e.options.maxDuration <= 0 && r.running
    ensures var f := Run(e, r, ms); f.running && f.closed == r.closed && f.written == r.written + LetThrough(ms)
    decreases |ms|
  {
    if ms == [] {
      assert r.written + [] == r.written;
    } else {
      var w, first := Written(e, r, ms[0].0, ms[0].1), if ms[0].1 then [ms[0].0] else [];
      OneWithoutLimits(e, r, ms[0].0, ms[0].1, w);
      OneMessage(e, r, ms, w, ms[1..]);
      RunWithoutLimits(e, w, ms[1..]);
      Sequences.Assoc(r.written, first, LetThrough(ms[1..]));
    }
  }

  lemma OneWithoutLimits(e: Setting, r: Recording, m: Record, logging: bool, w: Recording)
    requires Ready(e, r) && Recordable(m) && e.options.maxSize == 0 && e.options.maxDuration <= 0
    requires w == Written(e, r, m, logging)
    ensures w.running == r.running && w.closed == r.closed && w.written == r.written + (if logging then [m] else [])
  {
    assert r.written + [] == r.written;
  }

  // ----- with splitting -----

  ghost predicate AllTooLarge(e: Setting, closed: seq<Segment>)
    requires AreBags(closed)
  {
    forall i :: 0 <= i < |closed| ==> IsBag(closed[i]) && TooLarge(e, closed[i].records)
  }

  lemma OneBySize(e: Setting, r: Recording, m: Record, logging: bool)
    requires Good(e, r) && Recordable(m) && AllTooLarge(e, r.closed)
    requires e.options.split && e.options.maxDuration <= 0
    ensures Good(e, Written(e, r, m, logging)) && AllTooLarge(e, Written(e, r, m, logging).closed)
  {
    WrittenIsGood(e, r, m, logging);
    var c := SizeChecked(e, r);
    SizeCheckedBySize(e, r);
    assert Written(e, r, m, logging).closed == c.closed;
  }

  lemma SizeCheckedBySize(e: Setting, r: Recording)
    requires Good(e, r) && AllTooLarge(e, r.closed) && e.options.split
    ensures var closed := SizeChecked(e, r).closed; AreBags(closed) && AllTooLarge(e, closed)
  {
    if TooLarge(e, r.written) {
      assert SizeChecked(e, r).closed == r.closed + [CurrentSegment(e, r)];
    }
  }

  lemma {:induction false} RunBySize(e: Setting, r: Recording, ms: Inputs)
    requires Good(e, r) && AllInputsOk(ms) && AllTooLarge(e, r.closed)
    requires e.options.split && e.options.maxDuration <= 0
    ensures Good(e, Run(e, r, ms)) && AllTooLarge(e, Run(e, r, ms).closed)
    decreases |ms|
  {
    if ms != [] && r.running {
      OneBySize(e, r, ms[0].0, ms[0].1);
      RunBySize(e, Written(e, r, ms[0].0, ms[0].1), ms[1..]);
    }
  }

  /**
   Splitting by size only: every finished file is over the limit, but no non-empty front part of it
   is; nor is one of the last file. With the order of the messages this says which of them is in
   which file.
   */
  lemma SplitBySize(e: Setting, disk: map<string, Bytes>, ms: Inputs)
    requires SettingOk(e) && AllInputsOk(ms) && e.options.split && e.options.maxDuration <= 0
    ensures var f := Run(e, FirstFile(e, disk), ms);
      && LetThrough(ms) == Recorded(f) && AreBags(f.closed)
      && (forall i :: 0 <= i < |f.closed| ==>
        && IsBag(f.closed[i]) && OverSize(e.options, Bag.SizeSoFar(f.closed[i].records))
        && SmallEnough(e, f.closed[i].records))
      && SmallEnough(e, f.written)
  {
    FirstFileIsGood(e, disk);
    RunIsGood(e, FirstFile(e, disk), ms);
    RunBySize(e, FirstFile(e, disk), ms);
    assert ms[..|ms|] == ms && [] + LetThrough(ms) == LetThrough(ms);
  }

  /** The last file's time is the latest so far. */
  ghost predicate Reaches(e: Setting, start: int, count: nat, ms: Inputs) {
    && start == e.clock(0) + count * e.options.maxDuration
    && (forall k :: 0 <= k < |ms| ==> ms[k].0.time <= start + e.options.maxDuration)
    && (count == 0 || exists k :: 0 <= k < |ms| && start < ms[k].0.time)
  }

  lemma {:induction false} RunByTime(e: Setting, r: Recording, before: Inputs, ms: Inputs, all: Inputs)
    requires Ready(e, r) && AllInputsOk(all) && AllInputsOk(ms) && all == before + ms && r.running
    requires e.options.split && e.options.maxDuration > 0 && e.options.maxSize == 0
    requires Reaches(e, r.startTime, |r.closed|, before)
    ensures Reaches(e, Run(e, r, ms).startTime, |Run(e, r, ms).closed|, all)
    decreases |ms|
  {
    if ms == [] {
      assert all == before;
    } else {
      var w, before', rest := Written(e, r, ms[0].0, ms[0].1), before + [ms[0]], ms[1..];
      OneByTime(e, r, before, ms[0], before', w);
      OneMessage(e, r, ms, w, rest);
      Sequences.Move(before, ms);
      RunByTime(e, w, before', rest, all);
    }
  }

  lemma OneByTime(e: Setting, r: Recording, before: Inputs, m: (Record, bool), before': Inputs, w: Recording)
    requires Ready(e, r) && Recordable(m.0) && before' == before + [m] && w == Written(e, r, m.0, m.1)
    requires e.options.split && e.options.maxDuration > 0 && e.options.maxSize == 0
    requires Reaches(e, r.startTime, |r.closed|, before)
    ensures w.running == r.running && Reaches(e, w.startTime, |w.closed|, before')
  {
    WrittenWithSplit(e, r, m.0, m.1);
    ReachesOneMore(e, r.startTime, |r.closed|, before, m, before', w.startTime, |w.closed|);
  }

  lemma ReachesOneMore(e: Setting, start: int, count: nat, ms: Inputs, m: (Record, bool),
                       all: Inputs, start': int, count': nat)
    requires e.options.maxDuration > 0 && Reaches(e, start, count, ms) && all == ms + [m]
    requires var n := Advance(start, e.options.maxDuration, m.0.time).1;
      start' == start + n * e.options.maxDuration && count' == count + n
    ensures Reaches(e, start', count', all)
  {
    var d := e.options.maxDuration;
    AdvanceMeans(start, d, m.0.time);
    var n := Advance(start, d, m.0.time).1;
    assert (count + n) * d == count * d + n * d && n * d >= 0;
    assert all[|ms|] == m && forall k :: 0 <= k < |ms| ==> all[k] == ms[k];
  }

  /**
   Splitting by duration only: the number of finished files is the number of whole durations from
   the first reading of the clock until the latest message is within the next one.
   */
  lemma SplitByTime(e: Setting, disk: map<string, Bytes>, ms: Inputs)
    requires SettingOk(e) && AllInputsOk(ms) && e.options.split && e.options.maxDuration > 0 && e.options.maxSize == 0
    ensures var n, d := |Run(e, FirstFile(e, disk), ms).closed|, e.options.maxDuration;
      && (forall k :: 0 <= k < |ms| ==> ms[k].0.time <= e.clock(0) + n * d + d)
      && (n == 0 || exists k :: 0 <= k < |ms| && e.clock(0) + n * d < ms[k].0.time)
  {
    var r := FirstFile(e, disk);
    assert Reaches(e, r.startTime, 0, []);
    RunByTime(e, r, [], ms, ms);
  }

  // ----- times and dates -----

  /** Which reading of the clock is the start of the i-th file. */
  function StartTick(o: Options, i: nat): (k: nat)
    ensures k > 0
  {
    if o.appendDate then 3 * i + 2 else 2 * i + 1
  }

  function DateOf(e: Setting, i: nat): string {
    if e.options.appendDate then e.dateText(e.clock(StartTick(e.options, i) - 1)) else ""
  }

  ghost predicate Timed(e: Setting, closed: seq<Segment>) {
    forall i :: 0 <= i < |closed| ==>
      && closed[i].start == e.clock(StartTick(e.options, i))
      && closed[i].end == e.clock(StartTick(e.options, i) + 1)
      && closed[i].date == DateOf(e, i)
  }

  ghost predicate OnTime(e: Setting, r: Recording) {
    && Timed(e, r.closed) && r.ticks == StartTick(e.options, |r.closed|) + 1
    && r.bagStart == e.clock(r.ticks - 1) && r.date == DateOf(e, |r.closed|)
  }

  lemma NextFileIsOnTime(e: Setting, r: Recording)
    requires Ready(e, r) && OnTime(e, r)
    ensures OnTime(e, NextFile(e, r))
  {
    var s, f := CurrentSegment(e, r), Finished(e, r);
    TimedPush(e, r.closed, s, f.closed);
    OpenedIsOnTime(e, f);
  }

  /** Opening a file takes the next reading as its start, and the one before as its date if it has one. */
  lemma OpenedIsOnTime(e: Setting, f: Recording)
    requires SettingOk(e) && Timed(e, f.closed)
    requires f.ticks + One(e.options.appendDate) == StartTick(e.options, |f.closed|)
    ensures OnTime(e, Opened(e, f))
  {
  }

  lemma TimedPush(e: Setting, closed: seq<Segment>, s: Segment, all: seq<Segment>)
    requires Timed(e, closed) && all == closed + [s] && s.date == DateOf(e, |closed|)
    requires s.start == e.clock(StartTick(e.options, |closed|)) && s.end == e.clock(StartTick(e.options, |closed|) + 1)
    ensures Timed(e, all)
  {
  }

  lemma {:induction false} SplitUntilIsOnTime(e: Setting, r: Recording, time: int)
    requires Ready(e, r) && OnTime(e, r) && e.options.maxDuration > 0
    ensures OnTime(e, SplitUntil(e, r, time))
    decreases time - r.startTime
  {
    if r.startTime + e.options.maxDuration < time {
      NextFileIsOnTime(e, r);
      SplitUntilIsOnTime(e, OneDuration(e, r), time);
    }
  }

  lemma WrittenIsOnTime(e: Setting, r: Recording, m: Record, logging: bool)
    requires Ready(e, r) && OnTime(e, r) && Recordable(m)
    ensures OnTime(e, Written(e, r, m, logging))
  {
    SizeCheckedIsOnTime(e, r);
    DurationCheckedIsOnTime(e, SizeChecked(e, r), m.time);
  }

  lemma DurationCheckedIsOnTime(e: Setting, r: Recording, time: int)
    requires Ready(e, r) && OnTime(e, r)
    ensures OnTime(e, DurationChecked(e, r, time))
  {
    if e.options.maxDuration > 0 {
      SplitUntilIsOnTime(e, r, time);
    }
  }

  lemma SizeCheckedIsOnTime(e: Setting, r: Recording)
    requires Ready(e, r) && OnTime(e, r)
    ensures OnTime(e, SizeChecked(e, r))
  {
    NextFileIsOnTime(e, r);
  }

  lemma {:induction false} RunIsOnTime(e: Setting, r: Recording, ms: Inputs)
    requires Ready(e, r) && OnTime(e, r) && AllInputsOk(ms)
    ensures OnTime(e, Run(e, r, ms))
    decreases |ms|
  {
    if ms != [] && r.running {
      WrittenIsOnTime(e, r, ms[0].0, ms[0].1);
      RunIsOnTime(e, Written(e, r, ms[0].0, ms[0].1), ms[1..]);
    }
  }

  /**
   The times of every file are readings of the clock: one when it is opened and the next when it is
   closed. Its date is the reading before these, if file names have dates.
   */
  lemma FilesAreTimed(e: Setting, disk: map<string, Bytes>, ms: Inputs)
    requires SettingOk(e) && AllInputsOk(ms)
    ensures var f := Run(e, FirstFile(e, disk), ms); var last := CurrentSegment(e, f);
      && Timed(e, f.closed) && last.date == DateOf(e, |f.closed|)
      && last.start == e.clock(StartTick(e.options, |f.closed|))
      && last.end == e.clock(StartTick(e.options, |f.closed|) + 1)
  {
    RunIsOnTime(e, FirstFile(e, disk), ms);
  }

  // ----- which files are there -----

  /** The newest finished files are there, as many as are to be kept, each under its own name; the older ones are not. */
  lemma KeptExactly(e: Setting, disk: map<string, Bytes>, ms: Inputs, signalled: bool)
    requires SettingOk(e) && AllInputsOk(ms)
    ensures var f := Run(e, FirstFile(e, disk), ms); NewestOnly(e.options, f.closed, FinalDisk(e, f, signalled), f.files)
  {
    NewestAreKept(e, disk, ms, signalled);
    var f := Run(e, FirstFile(e, disk), ms);
    KeptAreNewest(e.options, f.closed, FinalDisk(e, f, signalled), f.files);
  }

  // ----- all other files -----

  /** No file of a recording has this name, neither finished nor open. */
  ghost predicate IsForeign(o: Options, name: string) {
    HasName(o) && forall date, i: nat :: name != TargetName(o, date, i) && name != WriteName(o, date, i)
  }

  /** Two disks have the same file of a name, or none. */
  ghost predicate SameFile(a: map<string, Bytes>, b: map<string, Bytes>, name: string) {
    (name in a <==> name in b) && (name in a ==> a[name] == b[name])
  }

  /** The files that a recording has made have names of its own, and the open one is not on the disk. */
  ghost predicate OwnNames(e: Setting, r: Recording) {
    && HasName(e.options) && r.target == TargetName(e.options, r.date, |r.closed|) && r.target + ".active" !in r.disk
    && forall j :: 0 <= j < |r.files| ==> IsOwn(e.options, r.files[j])
  }

  ghost predicate IsOwn(o: Options, name: string) {
    HasName(o) && exists date, i: nat :: name == TargetName(o, date, i)
  }

  lemma NextFileLeavesOthers(e: Setting, r: Recording, name: string)
    requires Ready(e, r) && OwnNames(e, r) && IsForeign(e.options, name)
    ensures OwnNames(e, NextFile(e, r)) && SameFile(r.disk, NextFile(e, r).disk, name)
  {
    var f := Finished(e, r);
    FinishedLeavesOthers(e, r, name, f);
    assert Opened(e, f).target == TargetName(e.options, Dated(e, f).0, |f.closed|);
    assert WriteName(e.options, Dated(e, f).0, |f.closed|) != name;
  }

  lemma FinishedLeavesOthers(e: Setting, r: Recording, name: string, f: Recording)
    requires Ready(e, r) && OwnNames(e, r) && IsForeign(e.options, name) && f == Finished(e, r)
    ensures SameFile(r.disk, f.disk, name) && forall j :: 0 <= j < |f.files| ==> IsOwn(e.options, f.files[j])
  {
    var all := r.files + [r.target];
    assert IsOwn(e.options, r.target);
    assert forall j :: 0 <= j < |all| ==> IsOwn(e.options, all[j]);
    assert forall own :: IsOwn(e.options, own) ==> own != name;
  }

  lemma {:induction false} SplitUntilLeavesOthers(e: Setting, r: Recording, time: int, name: string)
    requires Ready(e, r) && OwnNames(e, r) && IsForeign(e.options, name) && e.options.maxDuration > 0
    ensures OwnNames(e, SplitUntil(e, r, time)) && SameFile(r.disk, SplitUntil(e, r, time).disk, name)
    decreases time - r.startTime
  {
    if r.startTime + e.options.maxDuration < time {
      NextFileLeavesOthers(e, r, name);
      SplitUntilLeavesOthers(e, OneDuration(e, r), time, name);
    }
  }

  lemma WrittenLeavesOthers(e: Setting, r: Recording, m: Record, logging: bool, name: string)
    requires Ready(e, r) && OwnNames(e, r) && IsForeign(e.options, name) && Recordable(m)
    ensures OwnNames(e, Written(e, r, m, logging)) && SameFile(r.disk, Written(e, r, m, logging).disk, name)
  {
    NextFileLeavesOthers(e, r, name);
    var c := SizeChecked(e, r);
    DurationCheckedLeavesOthers(e, c, m.time, name);
    var d := DurationChecked(e, c, m.time);
    assert SameFile(r.disk, c.disk, name) && SameFile(c.disk, d.disk, name);
  }

  lemma DurationCheckedLeavesOthers(e: Setting, r: Recording, time: int, name: string)
    requires Ready(e, r) && OwnNames(e, r) && IsForeign(e.options, name)
    ensures OwnNames(e, DurationChecked(e, r, time)) && SameFile(r.disk, DurationChecked(e, r, time).disk, name)
  {
    if e.options.maxDuration > 0 {
      SplitUntilLeavesOthers(e, r, time, name);
    }
  }

  lemma {:induction false} RunLeavesOthers(e: Setting, r: Recording, ms: Inputs, name: string)
    requires Ready(e, r) && OwnNames(e, r) && IsForeign(e.options, name) && AllInputsOk(ms)
    ensures OwnNames(e, Run(e, r, ms)) && SameFile(r.disk, Run(e, r, ms).disk, name)
    decreases |ms|
  {
    if ms != [] && r.running {
      var w := Written(e, r, ms[0].0, ms[0].1);
      WrittenLeavesOthers(e, r, ms[0].0, ms[0].1, name);
      OneMessage(e, r, ms, w, ms[1..]);
      RunLeavesOthers(e, w, ms[1..], name);
    }
  }

  /**
   Over every run, a recording changes no file but its own, and leaves nothing under the active name
   of its last file if it was stopped.
   */
  lemma OnlyOwnFiles(e: Setting, disk: map<string, Bytes>, ms: Inputs, signalled: bool, name: string)
    requires SettingOk(e) && AllInputsOk(ms) && IsForeign(e.options, name)
    ensures var f := Run(e, FirstFile(e, disk), ms); var final := FinalDisk(e, f, signalled);
      && SameFile(disk, final, name) && f.target == TargetName(e.options, f.date, |f.closed|)
      && (signalled ==> f.target + ".active" !in final)
  {
    var r := FirstFile(e, disk);
    assert WriteName(e.options, r.date, 0) != name;
    RunLeavesOthers(e, r, ms, name);
    var f := Run(e, r, ms);
    assert TargetName(e.options, f.date, |f.closed|) != name && WriteName(e.options, f.date, |f.closed|) != name;
  }
}
