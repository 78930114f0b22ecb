/** Recording into a chain of bag files, split by size or duration, of which the newest are kept. */
module Recorder {
  import opened Arith
  import opened ByteCodec
  import opened Timeline
  import opened BagFormat
  import opened RecordingFiles
  import Bag

  /** The options, the readings of the clock, and how times are written in file names. */
  datatype Setting = Setting(options: Options, clock: nat -> int, dateText: int -> string)

  ghost predicate SettingOk(e: Setting) {
    HasName(e.options) && forall k :: FitsSigned(e.clock(k), 8)
  }

  /**
   A recording. The disk holds the finished files; the file being written leaves the disk when it
   is opened, and comes back under its final name when it is closed.
   */
  datatype Recording = Recording(
    disk: map<string, Bytes>,
    files: seq<string>,
    closed: seq<Segment>,
    target: string,
    date: string,
    bagStart: int,
    written: seq<Record>,
    startTime: int,
    running: bool,
    ticks: nat)

  // ----- the operations as functions -----

  function Dated(e: Setting, r: Recording): (string, nat) {
    if e.options.appendDate then (e.dateText(e.clock(r.ticks)), r.ticks + 1) else ("", r.ticks)
  }

  /** A new file, named by the number of finished ones. */
  ghost function Opened(e: Setting, r: Recording): Recording
    requires SettingOk(e)
  {
    var (date, ticks) := Dated(e, r);
    var name := TargetName(e.options, date, |r.closed|);
    r.(target := name, date := date, disk := r.disk - {name + ".active"},
       bagStart := e.clock(ticks), written := [], ticks := ticks + 1)
  }

  ghost function CurrentSegment(e: Setting, r: Recording): (s: Segment)
    requires SettingOk(e) && AllRecordable(r.written) && FitsSigned(r.bagStart, 8)
    ensures IsBag(s)
  {
    var end := e.clock(r.ticks);
    Segment(r.date, r.bagStart, end, r.written, Bag.ClosedBag(r.bagStart, end, U32(|r.written|), r.written))
  }

  ghost predicate Ready(e: Setting, r: Recording) {
    SettingOk(e) && AllRecordable(r.written) && FitsSigned(r.bagStart, 8)
  }

  /** The file is closed, counted, and the oldest one removed if there are too many. */
  ghost function Finished(e: Setting, r: Recording): Recording
    requires Ready(e, r)
  {
    var s := CurrentSegment(e, r);
    r.(disk := DiskAfter(e.options, r.files, r.disk, r.target, s.bytes), files := FilesAfter(e.options, r.files, r.target),
       closed := r.closed + [s], written := [], ticks := r.ticks + 1)
  }

  ghost function NextFile(e: Setting, r: Recording): (next: Recording)
    requires Ready(e, r)
    ensures Ready(e, next) && next.startTime == r.startTime && next.running == r.running && next.written == []
    ensures |next.closed| == |r.closed| + 1 && r.closed <= next.closed
  {
    Opened(e, Finished(e, r))
  }

  ghost predicate TooLarge(e: Setting, rs: seq<Record>)
    requires AllRecordable(rs)
  {
    OverSize(e.options, Bag.SizeSoFar(rs))
  }

  ghost function SizeChecked(e: Setting, r: Recording): (next: Recording)
    requires Ready(e, r)
    ensures Ready(e, next) && next.startTime == r.startTime
  {
    if !TooLarge(e, r.written) then r
    else if e.options.split then NextFile(e, r)
    else r.(running := false)
  }

  ghost function OneDuration(e: Setting, r: Recording): (next: Recording)
    requires Ready(e, r)
    ensures Ready(e, next) && next.startTime == r.startTime + e.options.maxDuration
    ensures next.running == r.running && next.written == []
    ensures |next.closed| == |r.closed| + 1 && r.closed <= next.closed
  {
    NextFile(e, r).(startTime := r.startTime + e.options.maxDuration)
  }

  /** New files until a time is within the duration of the last one. */
  ghost function SplitUntil(e: Setting, r: Recording, time: int): (next: Recording)
    requires Ready(e, r) && e.options.maxDuration > 0
    ensures Ready(e, next) && next.running == r.running && (next.written == r.written || next.written == [])
    ensures r.closed <= next.closed
    decreases time - r.startTime
  {
    if r.startTime + e.options.maxDuration < time then
      SplitUntil(e, OneDuration(e, r), time)
    else r
  }

  ghost function DurationChecked(e: Setting, r: Recording, time: int): (next: Recording)
    requires Ready(e, r)
    ensures Ready(e, next)
  {
    if !(e.options.maxDuration > 0 && time - r.startTime > e.options.maxDuration) then r
    else if e.options.split then SplitUntil(e, r, time)
    else r.(running := false)
  }

  ghost function Written(e: Setting, r: Recording, m: Record, logging: bool): (next: Recording)
    requires Ready(e, r) && Recordable(m)
    ensures Ready(e, next)
  {
    var checked := DurationChecked(e, SizeChecked(e, r), m.time);
    if logging then checked.(written := checked.written + [m]) else checked
  }

  /** The disk once the last file is closed too. */
  ghost function StoppedDisk(e: Setting, r: Recording): map<string, Bytes>
    requires Ready(e, r)
  {
    r.disk[r.target := CurrentSegment(e, r).bytes]
  }

  /** The disk otherwise: the last file keeps its active name, and zeros in its header record. */
  ghost function LeftDisk(e: Setting, r: Recording): map<string, Bytes>
    requires Ready(e, r)
  {
    r.disk[r.target + ".active" := Bag.ClosedBag(0, 0, 0, r.written)]
  }

  // ----- the recorder object -----

  class Recorder {
    const env: Setting
    const bag: Bag.Bag
    var ticks: nat
    var disk: map<string, Bytes>
    var targetFilename: string
    var writeFilename: string
    var currentFiles: seq<string>
    var splitCount: nat
    var startTime: int
    var running: bool
    ghost var date: string
    ghost var closed: seq<Segment>

    ghost function Value(): Recording
      reads this, bag
    {
      Recording(disk, currentFiles, closed, targetFilename, date, bag.startTimestamp, bag.written, startTime, running, ticks)
    }

    /** A file is open. */
    ghost predicate Valid()
      reads this, bag
    {
      && SettingOk(env) && bag.Writing() && bag.Sized() && Bag.IsBlank(bag.header) && splitCount == |closed|
      && writeFilename == targetFilename + ".active"
    }

    constructor (env: Setting, disk: map<string, Bytes>)
      requires SettingOk(env)
      ensures Valid() && fresh(bag) && this.env == env
      ensures Value() == Opened(env, Recording(disk, [], [], "", "", 0, [], env.clock(0), true, 1))
    {
      this.env, this.disk := env, disk;
      currentFiles, splitCount, running, ticks := [], 0, true, 1;
      startTime := env.clock(0);
      bag := new Bag.Bag();
      targetFilename, writeFilename := "", "";
      date, closed := "", [];
      new;
      StartWriting();
    }

    method Now() returns (now: int)
      modifies this`ticks
      ensures now == env.clock(old(ticks)) && ticks == old(ticks) + 1
    {
      now := env.clock(ticks);
      ticks := ticks + 1;
    }

    method UpdateFilename()
      requires HasName(env.options)
      modifies this`ticks, this`targetFilename, this`writeFilename, this`date
      ensures (date, ticks) ==
        if env.options.appendDate then (env.dateText(env.clock(old(ticks))), old(ticks) + 1) else ("", old(ticks))
      ensures targetFilename == TargetName(env.options, date, splitCount) && writeFilename == targetFilename + ".active"
    {
      var text := "";
      if env.options.appendDate {
        var now := Now();
        text := env.dateText(now);
      }
      date := text;
      targetFilename := TargetName(env.options, text, splitCount);
      writeFilename := targetFilename + ".active";
    }

    method StartWriting()
      requires SettingOk(env) && bag.Initial() && splitCount == |closed|
      modifies this`ticks, this`targetFilename, this`writeFilename, this`date, this`disk, bag
      ensures Valid() && Value() == Opened(env, old(Value()))
    {
      UpdateFilename();
      disk := disk - {writeFilename};
      var now := Now();
      bag.Open(now);
    }

    /** Closes the bag and gives it its final name. */
    method StopWriting()
      requires Valid()
      modifies this`ticks, this`disk, bag
      ensures bag.Initial() && ticks == old(ticks) + 1
      ensures disk == old(disk)[targetFilename := CurrentSegment(env, old(Value())).bytes]
    {
      var end := Now();
      var bytes := bag.Close(end);
      disk := disk[targetFilename := bytes];
    }

    method CheckNumSplits(ghost before: map<string, Bytes>, ghost bytes: Bytes)
      requires disk == before[targetFilename := bytes]
      modifies this`disk, this`currentFiles
      ensures disk == DiskAfter(env.options, old(currentFiles), before, targetFilename, bytes)
      ensures currentFiles == FilesAfter(env.options, old(currentFiles), targetFilename)
    {
      if env.options.maxSplits > 0 {
        currentFiles := currentFiles + [targetFilename];
        if |currentFiles| > env.options.maxSplits {
          disk := disk - {currentFiles[0]};
          currentFiles := currentFiles[1..];
        }
      }
    }

    /** Finishes the file. */
    method FinishFile()
      requires Valid()
      modifies this`ticks, this`disk, this`splitCount, this`currentFiles, this`closed, bag
      ensures bag.Initial() && splitCount == |closed|
      ensures var f := Finished(env, old(Value()));
        disk == f.disk && currentFiles == f.files && closed == f.closed && ticks == f.ticks
    {
      ghost var before, segment := disk, CurrentSegment(env, Value());
      StopWriting();
      splitCount := splitCount + 1;
      CheckNumSplits(before, segment.bytes);
      closed := closed + [segment];
    }

    /** And starts the next one. */
    method StartNextFile()
      requires Valid()
      modifies this`ticks, this`targetFilename, this`writeFilename, this`date, this`disk, this`splitCount,
        this`currentFiles, this`closed, bag
      ensures Valid() && Value() == NextFile(env, old(Value()))
    {
      FinishFile();
      StartWriting();
    }

    method CheckSize() returns (stop: bool)
      requires Valid()
      modifies this, bag
      ensures Valid() && Value() == SizeChecked(env, old(Value()))
      ensures stop == (TooLarge(env, old(bag.written)) && !env.options.split)
    {
      if OverSize(env.options, bag.fileSize) {
        if env.options.split {
          StartNextFile();
        } else {
          running := false;
          return true;
        }
      }
      return false;
    }

    /** Starts new files until the message's time is within the duration of the last one. */
    method CheckDuration(time: int) returns (stop: bool)
      requires Valid()
      modifies this, bag
      ensures Valid() && Value() == DurationChecked(env, old(Value()), time)
      ensures stop ==> !Value().running
    {
      if env.options.maxDuration > 0 && time - startTime > env.options.maxDuration {
        if env.options.split {
          SplitUntilTime(time);
        } else {
          running := false;
          return true;
        }
      }
      return false;
    }

    method SplitUntilTime(time: int)
      requires Valid() && env.options.maxDuration > 0
      modifies this, bag
      ensures Valid() && Value() == SplitUntil(env, old(Value()), time)
    {
      ghost var all := SplitUntil(env, Value(), time);
      while startTime + env.options.maxDuration < time
        invariant Valid() && all == SplitUntil(env, Value(), time)
        decreases time - startTime
      {
        SplitOnce();
      }
    }

    method SplitOnce()
      requires Valid()
      modifies this, bag
      ensures Valid() && Value() == OneDuration(env, old(Value()))
    {
      StartNextFile();
      startTime := startTime + env.options.maxDuration;
    }

    /** One message: the checks, and then its record, unless the disk checks have suspended writing. */
    method DoWrite(m: Record, logging: bool)
      requires Valid() && Recordable(m)
      modifies this, bag
      ensures Valid() && Value() == Written(env, old(Value()), m, logging)
    {
      var stop := CheckSize();
      if stop {
        running := false;
      }
      stop := CheckDuration(m.time);
      if stop {
        running := false;
      }
      if logging {
        bag.WriteMessage(m);
      }
    }

    /** The last file is finished too; it is not counted among the current files. */
    method Stop()
      requires Valid()
      modifies this, bag
      ensures disk == StoppedDisk(env, old(Value()))
      ensures currentFiles == old(currentFiles) && closed == old(closed) && !running
    {
      running := false;
      StopWriting();
    }

    /** What is on the disk, with the file that is still open, if nobody stops the recorder. */
    method Leave() returns (left: map<string, Bytes>)
      requires Valid()
      ensures left == LeftDisk(env, Value())
    {
      Bag.BlankBag(bag.header, bag.written, bag.file);
      left := disk[writeFilename := bag.file];
    }
  }
}
