/**
 spdlog's rotating file sink: log.txt is renamed to log.1.txt, log.1.txt to log.2.txt and so on
 when the next message would make it too large. The file system is a map from names to bytes.
 */
module RotatingFileSink {
  import opened Decimals
  import Sequences

  type Bytes = seq<char>
  type Files = map<string, Bytes>

  // ----- file names -----

  /** The last position of c, or -1. */
  function RFind(s: string, c: char): (r: int)
    ensures -1 <= r < |s|
    ensures r >= 0 ==> s[r] == c
    ensures forall k :: r < k < |s| ==> s[k] != c
  {
    if s == "" then -1
    else if s[|s| - 1] == c then |s| - 1
    else RFind(s[..|s| - 1], c)
  }

  const FOLDER_SEP := '/'

  /** A path and its extension; a leading dot or a dot in a folder does not start an extension. */
  function SplitByExtension(fname: string): (r: (string, string))
    ensures r.0 + r.1 == fname
    ensures r.1 != "" ==> r.1[0] == '.' && '.' !in r.1[1..] && FOLDER_SEP !in r.1 && |r.1| >= 2 && r.0 != ""
  {
    var ext := RFind(fname, '.');
    if ext == -1 || ext == 0 || ext == |fname| - 1 then (fname, "")
    else
      var folder := RFind(fname, FOLDER_SEP);
      if folder != -1 && folder >= ext - 1 then (fname, "")
      else (fname[..ext], fname[ext..])
  }

  /** An extension starts at a position: the last dot, inside the last part of the path, neither first nor last in it. */
  ghost predicate IsExtension(fname: string, i: int) {
    && 0 < i < |fname| - 1 && fname[i] == '.' && fname[i - 1] != '/'
    && forall k :: i < k < |fname| ==> fname[k] != '.' && fname[k] != '/'
  }

  /** The path is split there, and if there is no such position it is left whole. */
  lemma SplitExactly(fname: string)
    ensures SplitByExtension(fname).1 != "" <==> exists i :: IsExtension(fname, i)
    ensures forall i :: IsExtension(fname, i) ==> SplitByExtension(fname) == (fname[..i], fname[i..])
    ensures SplitByExtension(fname).1 == "" ==> SplitByExtension(fname).0 == fname
  {
    var ext, folder := RFind(fname, '.'), RFind(fname, '/');
    assert forall i :: IsExtension(fname, i) ==> i == ext;
    assert SplitByExtension(fname).1 != "" ==> IsExtension(fname, ext);
  }

  /** The name of the file with an index; index 0 is the active file. */
  function CalcFilename(fname: string, index: nat): string {
    if index != 0 then
      var (base, ext) := SplitByExtension(fname);
      base + "." + Format(index) + ext
    else fname
  }

  /** The number goes in front of the extension, or behind a name without one. */
  lemma NumberedName(fname: string, index: nat)
    requires index > 0
    ensures forall i :: IsExtension(fname, i) ==> CalcFilename(fname, index) == fname[..i] + "." + Format(index) + fname[i..]
    ensures (forall i :: !IsExtension(fname, i)) ==> CalcFilename(fname, index) == fname + "." + Format(index)
  {
    SplitExactly(fname);
    if forall i :: !IsExtension(fname, i) {
      assert CalcFilename(fname, index) == fname + "." + Format(index) + "";
    }
  }

  /** As in the source's own example, and beside it a name without an extension. */
  lemma NameExample(name: string, ext: string, fname: string)
    requires name == "logs/mylog" && ext == ".txt" && fname == name + ext
    ensures CalcFilename(fname, 3) == "logs/mylog.3.txt" && CalcFilename(name, 3) == "logs/mylog.3"
  {
    assert IsExtension(fname, |name|);
    assert fname[..|name|] == name && fname[|name|..] == ext;
    assert Format(3) == "3";
    NumberedName(fname, 3);
    assert '.' !in name;
    NumberedName(name, 3);
  }

  lemma CalcFilenameInjective(fname: string, i: nat, j: nat)
    requires CalcFilename(fname, i) == CalcFilename(fname, j)
    ensures i == j
  {
    var (base, ext) := SplitByExtension(fname);
    ParseFormat(i);
    ParseFormat(j);
    if i > 0 && j > 0 {
      var a, b := base + "." + Format(i) + ext, base + "." + Format(j) + ext;
      assert a[|base| + 1..|a| - |ext|] == Format(i);
      assert b[|base| + 1..|b| - |ext|] == Format(j);
      FormatInjective(i, j);
    }
  }

  // ----- the reference: packing messages into files -----

  /** Files, newest first, and the size that is counted for the newest. */
  datatype Packing = Packing(files: seq<Bytes>, size: nat)

  const EMPTY: Packing := Packing([[]], 0)

  /** One more message goes into the newest file, or into a new one if the counted size would pass the limit. */
  function Put(p: Packing, m: Bytes, maxSize: nat): (r: Packing)
    requires p.files != []
    ensures r.files != []
  {
    if p.size + |m| > maxSize then Packing([m] + p.files, |m|)
    else Packing([p.files[0] + m] + p.files[1..], p.size + |m|)
  }

  function Pack(start: Packing, msgs: seq<Bytes>, maxSize: nat): (p: Packing)
    requires start.files != []
    ensures p.files != []
  {
    if msgs == [] then start
    else Put(Pack(start, msgs[..|msgs| - 1], maxSize), msgs[|msgs| - 1], maxSize)
  }

  function OldestFirst(files: seq<Bytes>): Bytes {
    if files == [] then [] else OldestFirst(files[1..]) + files[0]
  }

  function Take(files: seq<Bytes>, n: nat): seq<Bytes> {
    if |files| <= n then files else files[..n]
  }

  lemma PutKeepsBytes(p: Packing, m: Bytes, maxSize: nat)
    requires p.files != []
    ensures OldestFirst(Put(p, m, maxSize).files) == OldestFirst(p.files) + m
  {
    assert ([m] + p.files)[1..] == p.files;
    assert ([p.files[0] + m] + p.files[1..])[1..] == p.files[1..];
    Sequences.Assoc(OldestFirst(p.files[1..]), p.files[0], m);
  }

  /** Packing loses nothing and reorders nothing. */
  lemma {:induction false} PackKeepsBytes(start: Packing, msgs: seq<Bytes>, maxSize: nat)
    requires start.files != []
    ensures OldestFirst(Pack(start, msgs, maxSize).files) == OldestFirst(start.files) + Sequences.Flatten(msgs)
  {
    if msgs == [] {
      assert OldestFirst(start.files) + [] == OldestFirst(start.files);
    } else {
      var init, m := msgs[..|msgs| - 1], msgs[|msgs| - 1];
      PackKeepsBytes(start, init, maxSize);
      PutKeepsBytes(Pack(start, init, maxSize), m, maxSize);
      Sequences.Assoc(OldestFirst(start.files), Sequences.Flatten(init), m);
    }
  }

  /**
   If the counted size is never below the real one, no file is larger than the limit unless it
   holds a single message or was there before.
   */
  lemma {:induction false} PackRespectsLimit(start: Packing, msgs: seq<Bytes>, maxSize: nat)
    requires start.files != [] && |start.files[0]| <= start.size
    ensures var p := Pack(start, msgs, maxSize);
      && |p.files[0]| <= p.size
      && forall f :: f in p.files ==> |f| <= maxSize || f in msgs || f in start.files
  {
    if msgs != [] {
      var init, m := msgs[..|msgs| - 1], msgs[|msgs| - 1];
      PackRespectsLimit(start, init, maxSize);
      assert msgs == init + [m];
    }
  }

  /** A file is only started for a message that would make the last one pass the limit. */
  ghost predicate Greedy(files: seq<Bytes>, started: nat, msgs: seq<Bytes>, maxSize: nat) {
    forall i :: 0 <= i < started && i + 1 < |files| ==>
      NeedsFile(files[i], files[i + 1], msgs, maxSize)
  }

  ghost predicate NeedsFile(file: Bytes, before: Bytes, msgs: seq<Bytes>, maxSize: nat) {
    exists m :: m in msgs && m <= file && |before| + |m| > maxSize
  }

  lemma {:induction false} PackIsGreedy(start: Packing, msgs: seq<Bytes>, maxSize: nat)
    requires start.files != [] && start.size == |start.files[0]|
    ensures var p := Pack(start, msgs, maxSize);
      && p.size == |p.files[0]| && |p.files| >= |start.files|
      && Greedy(p.files, |p.files| - |start.files|, msgs, maxSize)
    decreases |msgs|
  {
    if msgs != [] {
      var init, m := msgs[..|msgs| - 1], msgs[|msgs| - 1];
      PackIsGreedy(start, init, maxSize);
      assert msgs == init + [m];
      PutIsGreedy(Pack(start, init, maxSize), |start.files|, init, m, msgs, maxSize);
    }
  }

  lemma PutIsGreedy(p: Packing, kept: nat, init: seq<Bytes>, m: Bytes, msgs: seq<Bytes>, maxSize: nat)
    requires p.files != [] && p.size == |p.files[0]| && kept <= |p.files| && msgs == init + [m]
    requires Greedy(p.files, |p.files| - kept, init, maxSize)
    ensures var r := Put(p, m, maxSize);
      r.size == |r.files[0]| && |r.files| >= |p.files| && Greedy(r.files, |r.files| - kept, msgs, maxSize)
  {
    var r := Put(p, m, maxSize);
    forall i | 0 <= i < |r.files| - kept && i + 1 < |r.files|
      ensures NeedsFile(r.files[i], r.files[i + 1], msgs, maxSize)
    {
      if |r.files| > |p.files| && i == 0 {
        assert m in msgs && m <= r.files[0];
      } else {
        var j := i - (|r.files| - |p.files|);
        var x :| x in init && x <= p.files[j] && |p.files[j + 1]| + |x| > maxSize;
        assert x in msgs && x <= r.files[i];
      }
    }
  }

  /** A counted size that is off stays off by as much, until a file is started: from then on it is exact. */
  lemma {:induction false} SizeIsRepaired(start: Packing, msgs: seq<Bytes>, maxSize: nat)
    requires start.files != []
    ensures var p := Pack(start, msgs, maxSize);
      && |p.files| >= |start.files|
      && p.size - |p.files[0]| == if |p.files| == |start.files| then start.size - |start.files[0]| else 0
  {
    if msgs != [] {
      SizeIsRepaired(start, msgs[..|msgs| - 1], maxSize);
    }
  }

  lemma {:induction false} TakeIsSuffix(files: seq<Bytes>, n: nat) returns (dropped: Bytes)
    ensures OldestFirst(files) == dropped + OldestFirst(Take(files, n))
  {
    if |files| <= n {
      dropped := [];
    } else if n == 0 {
      dropped := OldestFirst(files);
      assert files[..0] == [];
    } else {
      dropped := TakeIsSuffix(files[1..], n - 1);
      assert files[..n][1..] == files[1..][..n - 1];
      Sequences.Assoc(dropped, OldestFirst(files[1..][..n - 1]), files[0]);
    }
  }

  // ----- the sink -----

  /** The files with indices below |chain| are the chain, and the other indices are free. */
  ghost predicate IsChain(files: Files, base: string, maxFiles: nat, chain: seq<Bytes>) {
    && 1 <= |chain| <= maxFiles + 1
    && (forall i :: 0 <= i < |chain| ==> CalcFilename(base, i) in files && files[CalcFilename(base, i)] == chain[i])
    && (forall i :: |chain| <= i <= maxFiles ==> CalcFilename(base, i) !in files)
  }

  ghost predicate InChain(base: string, maxFiles: nat, name: string) {
    exists i :: 0 <= i <= maxFiles && CalcFilename(base, i) == name
  }

  ghost predicate OthersSame(a: Files, b: Files, base: string, maxFiles: nat) {
    forall name :: !InChain(base, maxFiles, name) ==> (name in a <==> name in b) && (name in a ==> a[name] == b[name])
  }

  /** The renames with targets above i have been made. */
  ghost predicate Rotating(now: Files, base: string, maxFiles: nat, chain: seq<Bytes>, i: nat) {
    forall j :: 0 <= j <= maxFiles ==>
      var source := if j < i || (j == i && i == maxFiles) then j else if j == i then |chain| else j - 1;
      if source < |chain| then CalcFilename(base, j) in now && now[CalcFilename(base, j)] == chain[source]
      else CalcFilename(base, j) !in now
  }

  function Rename(files: Files, src: string, target: string): Files {
    if src in files then (files - {target})[target := files[src]] - {src} else files - {target}
  }

  /** One step of a rotation: the file before i, if there is one, takes the place of file i. */
  function MoveUp(files: Files, base: string, i: nat): Files
    requires i >= 1
  {
    if CalcFilename(base, i - 1) in files then Rename(files, CalcFilename(base, i - 1), CalcFilename(base, i)) else files
  }

  lemma MoveUpRotates(now: Files, base: string, maxFiles: nat, chain: seq<Bytes>, i: nat)
    requires 1 <= i <= maxFiles && 1 <= |chain| <= maxFiles + 1 && Rotating(now, base, maxFiles, chain, i)
    ensures Rotating(MoveUp(now, base, i), base, maxFiles, chain, i - 1)
  {
    var src, target := CalcFilename(base, i - 1), CalcFilename(base, i);
    assert i - 1 < |chain| <==> src in now;
    forall j | 0 <= j <= maxFiles
      ensures j != i && j != i - 1 ==> CalcFilename(base, j) != src && CalcFilename(base, j) != target
    {
      if CalcFilename(base, j) == src { CalcFilenameInjective(base, j, i - 1); }
      if CalcFilename(base, j) == target { CalcFilenameInjective(base, j, i); }
    }
    if src == target { CalcFilenameInjective(base, i - 1, i); }
  }

  lemma MoveUpStaysInChain(files: Files, base: string, maxFiles: nat, i: nat)
    requires 1 <= i <= maxFiles
    ensures OthersSame(files, MoveUp(files, base, i), base, maxFiles)
    ensures OthersSame(files, files - {CalcFilename(base, i)}, base, maxFiles)
  {
  }

  /** A failed rename has deleted the target, which the next attempt would have done too. */
  lemma RenameAgain(files: Files, base: string, i: nat)
    requires i >= 1
    ensures var src, target := CalcFilename(base, i - 1), CalcFilename(base, i);
      && Rename(files - {target}, src, target) == Rename(files, src, target)
      && files - {target} - {target} == files - {target}
  {
    if CalcFilename(base, i - 1) == CalcFilename(base, i) {
      CalcFilenameInjective(base, i - 1, i);
    }
  }

  /** Truncating the active file completes a rotation. */
  lemma Truncated(now: Files, base: string, maxFiles: nat, chain: seq<Bytes>)
    ensures OthersSame(now, now[base := []], base, maxFiles)
    ensures 1 <= |chain| <= maxFiles + 1 && Rotating(now, base, maxFiles, chain, 0) ==>
      IsChain(now[base := []], base, maxFiles, Take([[]] + chain, maxFiles + 1))
  {
    CalcOfZero(base, maxFiles);
  }

  lemma CalcOfZero(base: string, maxFiles: nat)
    ensures CalcFilename(base, 0) == base && InChain(base, maxFiles, base)
    ensures forall i :: 1 <= i <= maxFiles ==> CalcFilename(base, i) != base
  {
    forall i | 1 <= i <= maxFiles
      ensures CalcFilename(base, i) != base
    {
      if CalcFilename(base, i) == base { CalcFilenameInjective(base, i, 0); }
    }
    assert CalcFilename(base, 0) == base;
  }

  lemma AppendToActive(now: Files, base: string, maxFiles: nat, m: Bytes, chain: seq<Bytes>)
    requires base in now
    ensures OthersSame(now, now[base := now[base] + m], base, maxFiles)
    ensures IsChain(now, base, maxFiles, chain) ==>
      chain[0] == now[base] && IsChain(now[base := now[base] + m], base, maxFiles, [chain[0] + m] + chain[1..])
  {
    CalcOfZero(base, maxFiles);
  }

  /** The files to which a message is appended, with or without a rotation before it. */
  ghost function ChainBefore(packed: seq<Bytes>, maxFiles: nat, rotated: bool): seq<Bytes> {
    var chain := Take(packed, maxFiles + 1);
    if rotated then Take([[]] + chain, maxFiles + 1) else chain
  }

  lemma AppendMessage(now: Files, base: string, maxSize: nat, maxFiles: nat, p: Packing, m: Bytes, rotated: bool)
    requires base in now && p.files != []
    requires rotated <==> p.size + |m| > maxSize
    requires IsChain(now, base, maxFiles, ChainBefore(p.files, maxFiles, rotated))
    ensures IsChain(now[base := now[base] + m], base, maxFiles, Take(Put(p, m, maxSize).files, maxFiles + 1))
  {
    var chain := ChainBefore(p.files, maxFiles, rotated);
    AppendToActive(now, base, maxFiles, m, chain);
    PutTakes(p, m, maxSize, maxFiles);
    assert [] + m == m;
  }

  /** The newest files of the packing depend on the newest files of the packing before. */
  lemma PutTakes(p: Packing, m: Bytes, maxSize: nat, maxFiles: nat)
    requires p.files != []
    ensures var fs, p2 := p.files, Put(p, m, maxSize).files;
      if p.size + |m| > maxSize
      then Take(p2, maxFiles + 1) == [m] + Take([[]] + Take(fs, maxFiles + 1), maxFiles + 1)[1..]
      else Take(p2, maxFiles + 1) == [fs[0] + m] + Take(fs, maxFiles + 1)[1..]
    ensures Take(p.files, maxFiles + 1)[0] == p.files[0]
  {
  }

  lemma PackPut(start: Packing, msgs: seq<Bytes>, m: Bytes, maxSize: nat)
    requires start.files != []
    ensures Pack(start, msgs + [m], maxSize) == Put(Pack(start, msgs, maxSize), m, maxSize)
  {
    assert (msgs + [m])[..|msgs|] == msgs;
  }

  /** The counted size and the newest files are those of the packing of the messages. */
  ghost predicate IsPacked(files: Files, base: string, maxSize: nat, maxFiles: nat, start: Packing, msgs: seq<Bytes>, size: nat)
    requires start.files != []
  {
    var p := Pack(start, msgs, maxSize);
    size == p.size && IsChain(files, base, maxFiles, Take(p.files, maxFiles + 1))
  }

  lemma AppendKeepsPacked(now: Files, base: string, maxSize: nat, maxFiles: nat, start: Packing, msgs: seq<Bytes>, m: Bytes,
                          p: Packing, rotated: bool, now': Files, size: nat)
    requires base in now && start.files != [] && p == Pack(start, msgs, maxSize)
    requires rotated <==> p.size + |m| > maxSize
    requires IsChain(now, base, maxFiles, ChainBefore(p.files, maxFiles, rotated))
    requires now' == now[base := now[base] + m] && size == if rotated then |m| else p.size + |m|
    ensures IsPacked(now', base, maxSize, maxFiles, start, msgs + [m], size)
  {
    PackPut(start, msgs, m, maxSize);
    AppendMessage(now, base, maxSize, maxFiles, p, m, rotated);
  }

  // ----- the bytes on disk, whatever files there are -----

  function Slot(files: Files, base: string, i: nat): Bytes {
    if CalcFilename(base, i) in files then files[CalcFilename(base, i)] else []
  }

  /** The bytes of the files with indices below k, oldest first. */
  function Newer(files: Files, base: string, k: nat): Bytes {
    if k == 0 then [] else Slot(files, base, k - 1) + Newer(files, base, k - 1)
  }

  function OnDisk(files: Files, base: string, maxFiles: nat): Bytes {
    Newer(files, base, maxFiles + 1)
  }

  /** For a chain of files, these are the bytes of the chain. */
  lemma OnDiskIsChain(files: Files, base: string, maxFiles: nat, chain: seq<Bytes>)
    requires IsChain(files, base, maxFiles, chain)
    ensures OnDisk(files, base, maxFiles) == OldestFirst(chain)
  {
    NewerIsChain(files, base, maxFiles, chain, maxFiles + 1, chain);
  }

  lemma {:induction false} NewerIsChain(files: Files, base: string, maxFiles: nat, chain: seq<Bytes>, k: nat, part: seq<Bytes>)
    requires IsChain(files, base, maxFiles, chain) && k <= maxFiles + 1
    requires part == if k <= |chain| then chain[..k] else chain
    ensures Newer(files, base, k) == OldestFirst(part)
  {
    if k > |chain| {
      NewerIsChain(files, base, maxFiles, chain, k - 1, chain);
    } else if k > 0 {
      NewerIsChain(files, base, maxFiles, chain, k - 1, chain[..k - 1]);
      Sequences.Longer(chain, k - 1);
      OldestOfMore(chain[..k - 1], chain[k - 1]);
    }
  }

  lemma {:induction false} OldestOfMore(a: seq<Bytes>, x: Bytes)
    ensures OldestFirst(a + [x]) == x + OldestFirst(a)
  {
    if a == [] {
      assert [x][1..] == [] && a + [x] == [x];
    } else {
      Sequences.Front(a, [x]);
      OldestOfMore(a[1..], x);
      Sequences.Assoc(x, OldestFirst(a[1..]), a[0]);
    }
  }

  ghost predicate Suffix(a: Bytes, b: Bytes) {
    |a| <= |b| && b[|b| - |a|..] == a
  }

  lemma SuffixOfSum(a: Bytes, b: Bytes)
    ensures Suffix(b, a + b)
  {
  }

  lemma SuffixOfItself(a: Bytes)
    ensures Suffix(a, a)
  {
  }

  lemma SuffixTrans(a: Bytes, b: Bytes, c: Bytes)
    requires Suffix(a, b) && Suffix(b, c)
    ensures Suffix(a, c)
  {
    assert c[|c| - |a|..] == c[|c| - |b|..][|b| - |a|..];
  }

  lemma SuffixGrows(a: Bytes, b: Bytes, m: Bytes)
    requires Suffix(a, b)
    ensures Suffix(a + m, b + m)
  {
    assert (b + m)[|b| - |a|..] == b[|b| - |a|..] + m;
  }

  lemma {:induction false} NewerSame(a: Files, b: Files, base: string, k: nat)
    requires forall i :: 0 <= i < k ==> Slot(a, base, i) == Slot(b, base, i)
    ensures Newer(a, base, k) == Newer(b, base, k)
  {
    if k > 0 {
      NewerSame(a, b, base, k - 1);
    }
  }

  lemma {:induction false} NewerAbove(a: Files, b: Files, base: string, from: nat, k: nat)
    requires from <= k && Newer(a, base, from) == Newer(b, base, from)
    requires forall i :: from <= i < k ==> Slot(a, base, i) == Slot(b, base, i)
    ensures Newer(a, base, k) == Newer(b, base, k)
  {
    if k > from {
      NewerAbove(a, b, base, from, k - 1);
    }
  }

  lemma MoveUpSlots(files: Files, base: string, i: nat, j: nat)
    requires i >= 1 && CalcFilename(base, i - 1) in files
    ensures Slot(MoveUp(files, base, i), base, j) ==
      if j == i then Slot(files, base, i - 1) else if j == i - 1 then [] else Slot(files, base, j)
  {
    if CalcFilename(base, j) == CalcFilename(base, i) { CalcFilenameInjective(base, j, i); }
    if CalcFilename(base, j) == CalcFilename(base, i - 1) { CalcFilenameInjective(base, j, i - 1); }
    if CalcFilename(base, i) == CalcFilename(base, i - 1) { CalcFilenameInjective(base, i, i - 1); }
  }

  /** A step loses at most the oldest file, as long as the other places that it moves to are free. */
  lemma MoveUpKeepsSuffix(files: Files, base: string, maxFiles: nat, i: nat)
    requires 1 <= i <= maxFiles && (i < maxFiles ==> Slot(files, base, i) == [])
    ensures Suffix(OnDisk(MoveUp(files, base, i), base, maxFiles), OnDisk(files, base, maxFiles))
    ensures Slot(MoveUp(files, base, i), base, i - 1) == []
  {
    var after := MoveUp(files, base, i);
    if CalcFilename(base, i - 1) in files {
      forall j: nat
        ensures Slot(after, base, j) ==
          if j == i then Slot(files, base, i - 1) else if j == i - 1 then [] else Slot(files, base, j)
      {
        MoveUpSlots(files, base, i, j);
      }
      NewerSame(after, files, base, i - 1);
      assert Newer(after, base, i) == Newer(files, base, i - 1);
      assert Newer(after, base, i + 1) == Newer(files, base, i);
      SuffixOfSum(Slot(files, base, i), Newer(files, base, i));
      if i < maxFiles {
        NewerAbove(files, after, base, i + 1, maxFiles + 1);
      }
    }
    SuffixOfItself(OnDisk(after, base, maxFiles));
  }

  /** Truncating the active file, which has been moved away unless it is the only one. */
  lemma TruncatedKeepsSuffix(files: Files, base: string, maxFiles: nat)
    requires maxFiles > 0 ==> Slot(files, base, 0) == []
    ensures Suffix(OnDisk(files[base := []], base, maxFiles), OnDisk(files, base, maxFiles))
  {
    var after := files[base := []];
    CalcOfZero(base, maxFiles);
    assert Newer(after, base, 1) == [];
    if maxFiles > 0 {
      assert Newer(files, base, 1) == [];
      NewerAbove(files, after, base, 1, maxFiles + 1);
    }
    SuffixOfSum(if maxFiles > 0 then [] else Newer(files, base, 1), OnDisk(after, base, maxFiles));
  }

  lemma {:induction false} AppendExtends(files: Files, base: string, m: Bytes, k: nat)
    requires base in files && k >= 1
    ensures Newer(files[base := files[base] + m], base, k) == Newer(files, base, k) + m
  {
    CalcOfZero(base, k);
    if k > 1 {
      AppendExtends(files, base, m, k - 1);
      Sequences.Assoc(Slot(files, base, k - 1), Newer(files, base, k - 1), m);
    }
  }

  datatype Result = Ok | RenameFailed

  /** Whether the rename to index i succeeds at the first (0) and at the second (1) attempt. */
  type RenameOutcome = (nat, nat) -> bool

  predicate Succeeds(ok: RenameOutcome, i: nat) {
    ok(i, 0) || ok(i, 1)
  }

  predicate AllSucceed(ok: RenameOutcome, maxFiles: nat) {
    forall i :: 0 < i <= maxFiles ==> Succeeds(ok, i)
  }

  /** The directory with the active file opened for appending. */
  function OpenedFiles(directory: Files, base: string): Files {
    if base in directory then directory else directory[base := []]
  }

  /**
   Where a sink starts on a chain of files. Rotating the active file away leaves the counted size
   at the size of that file.
   */
  function StartOf(chain: seq<Bytes>, rotateOnOpen: bool, maxFiles: nat): (p: Packing)
    requires chain != []
    ensures p.files != [] && |p.files[0]| <= p.size
  {
    if rotateOnOpen && chain[0] != [] then Packing(Take([[]] + chain, maxFiles + 1), |chain[0]|)
    else Packing(chain, |chain[0]|)
  }

  /** Rotating on opening puts an empty file before the chain, of which one file less is then kept. */
  lemma StartIs(chain: seq<Bytes>, rotateOnOpen: bool, maxFiles: nat)
    requires chain != []
    ensures var p := StartOf(chain, rotateOnOpen, maxFiles);
      && (rotateOnOpen && chain[0] != [] ==>
        p.files[0] == [] && p.files[1..] <= chain && |p.files| == if |chain| <= maxFiles then |chain| + 1 else maxFiles + 1)
      && (!rotateOnOpen || chain[0] == [] ==> p.files == chain && p.size == |chain[0]|)
  {
    assert ([[]] + chain)[1..] == chain;
    if |chain| > maxFiles {
      assert ([[]] + chain)[..maxFiles + 1][1..] == chain[..maxFiles];
    }
  }

  class Sink {
    const base: string
    const maxSize: nat
    const maxFiles: nat
    var currentSize: nat
    var files: Files
    ghost var start: Packing
    ghost var accepted: seq<Bytes>
    ghost var intact: bool

    /**
     current_size_ is never below the active file's size. On a chain of files, and until a rename
     fails, it is the counted size of the packing, and the files are the newest of the packing.
     */
    ghost predicate Valid()
      reads this
    {
      && base in files && |files[base]| <= currentSize && start.files != []
      && (intact ==> IsPacked(files, base, maxSize, maxFiles, start, accepted, currentSize))
    }

    /** Opens the active file for appending, and rotates it away if asked to and if it is not empty. */
    constructor (base: string, maxSize: nat, maxFiles: nat, rotateOnOpen: bool, directory: Files, ok: RenameOutcome,
                 ghost chain: seq<Bytes>)
      ensures this.base == base && this.maxSize == maxSize && this.maxFiles == maxFiles
      ensures Valid() && accepted == []
      ensures !rotateOnOpen ==> files == OpenedFiles(directory, base) && currentSize == |files[base]|
      ensures AllSucceed(ok, maxFiles) ==>
        (currentSize == |files[base]| <==> !rotateOnOpen || base !in directory || directory[base] == [])
      ensures !rotateOnOpen || AllSucceed(ok, maxFiles) ==>
        Suffix(OnDisk(files, base, maxFiles), OnDisk(OpenedFiles(directory, base), base, maxFiles))
      ensures IsChain(OpenedFiles(directory, base), base, maxFiles, chain) && (!rotateOnOpen || AllSucceed(ok, maxFiles)) ==>
        intact && start == StartOf(chain, rotateOnOpen, maxFiles)
      ensures OthersSame(directory, files, base, maxFiles)
    {
      var first := OpenedFiles(directory, base);
      this.base, this.maxSize, this.maxFiles := base, maxSize, maxFiles;
      files := first;
      currentSize := |first[base]|;
      accepted := [];
      intact := IsChain(first, base, maxFiles, chain);
      start := if IsChain(first, base, maxFiles, chain) then StartOf(chain, rotateOnOpen, maxFiles) else EMPTY;
      new;
      OpenedChain(directory, base, maxFiles, chain);
      SuffixOfItself(OnDisk(files, base, maxFiles));
      if rotateOnOpen && currentSize > 0 {
        RotateAway(ok, chain);
        OthersStaySame(directory, first, files, base, maxFiles);
      }
    }

    /** The rotation at the start, which does not touch the counted size unless a rename fails. */
    method RotateAway(ok: RenameOutcome, ghost chain: seq<Bytes>)
      requires base in files && currentSize == |files[base]| > 0 && accepted == [] && start.files != []
      requires intact ==>
        IsChain(files, base, maxFiles, chain) && chain[0] == files[base] && start == StartOf(chain, true, maxFiles)
      modifies this`files, this`currentSize, this`intact
      ensures Valid() && files[base] == [] && OthersSame(old(files), files, base, maxFiles)
      ensures AllSucceed(ok, maxFiles) ==>
        && currentSize == old(currentSize) && intact == old(intact)
        && Suffix(OnDisk(files, base, maxFiles), OnDisk(old(files), base, maxFiles))
    {
      var r := Rotate(ok, chain);
      intact := intact && r.Ok?;
    }

    /** `rotate_`, which truncates the active file in any case, and gives up at the first rename that fails twice. */
    method Rotate(ok: RenameOutcome, ghost chain: seq<Bytes>) returns (r: Result)
      requires base in files
      modifies this`files, this`currentSize
      ensures base in files && files[base] == []
      ensures r.RenameFailed? ==> currentSize == 0
      ensures r.Ok? ==> currentSize == old(currentSize)
      ensures AllSucceed(ok, maxFiles) ==> r.Ok?
      ensures r.Ok? ==> Suffix(OnDisk(files, base, maxFiles), OnDisk(old(files), base, maxFiles))
      ensures r.Ok? && IsChain(old(files), base, maxFiles, chain) ==>
        IsChain(files, base, maxFiles, Take([[]] + chain, maxFiles + 1))
      ensures OthersSame(old(files), files, base, maxFiles)
    {
      r := MoveAllUp(ok, chain);
      Truncated(files, base, maxFiles, chain);
      OthersStaySame(old(files), files, files[base := []], base, maxFiles);
      if r.RenameFailed? {
        currentSize := 0;
      } else {
        TruncatedKeepsSuffix(files, base, maxFiles);
        SuffixTrans(OnDisk(files[base := []], base, maxFiles), OnDisk(files, base, maxFiles), OnDisk(old(files), base, maxFiles));
      }
      files := files[base := []];
    }

    /** The loop of renames, from the oldest file down. */
    method MoveAllUp(ok: RenameOutcome, ghost chain: seq<Bytes>) returns (r: Result)
      modifies this`files
      ensures AllSucceed(ok, maxFiles) ==> r.Ok?
      ensures r.Ok? ==> Suffix(OnDisk(files, base, maxFiles), OnDisk(old(files), base, maxFiles))
      ensures r.Ok? && maxFiles > 0 ==> Slot(files, base, 0) == []
      ensures r.Ok? && IsChain(old(files), base, maxFiles, chain) ==> Rotating(files, base, maxFiles, chain, 0)
      ensures OthersSame(old(files), files, base, maxFiles)
    {
      ghost var isChain := IsChain(files, base, maxFiles, chain);
      var i := maxFiles;
      SuffixOfItself(OnDisk(files, base, maxFiles));
      while i > 0
        invariant 0 <= i <= maxFiles
        invariant MovedSoFar(old(files), files, base, maxFiles, chain, isChain, i)
      {
        ghost var before := files;
        var done := RenameOne(ok, i);
        MovedUp(old(files), before, base, maxFiles, chain, isChain, i, MoveUp(before, base, i));
        if !done {
          return RenameFailed;
        }
        i := i - 1;
      }
      r := Ok;
    }

    /** One round of the loop: renames the file before i, if it exists, trying twice. */
    method RenameOne(ok: RenameOutcome, i: nat) returns (done: bool)
      requires i >= 1
      modifies this`files
      ensures files == if done then MoveUp(old(files), base, i) else old(files) - {CalcFilename(base, i)}
      ensures Succeeds(ok, i) ==> done
    {
      var src := CalcFilename(base, i - 1);
      if src !in files {
        return true;
      }
      var target := CalcFilename(base, i);
      RenameAgain(files, base, i);
      done := RenameFile(src, target, ok(i, 0));
      if !done {
        done := RenameFile(src, target, ok(i, 1));
      }
    }

    /** `sink_it_`: one formatted message. */
    method SinkIt(formatted: Bytes, ok: RenameOutcome) returns (r: Result)
      requires Valid()
      modifies this
      ensures Valid() && start == old(start)
      ensures r.Ok? ==>
        var rotates := old(currentSize) + |formatted| > maxSize;
        && currentSize == (if rotates then |formatted| else old(currentSize) + |formatted|)
        && files[base] == (if rotates then formatted else old(files)[base] + formatted)
      ensures r.Ok? ==> accepted == old(accepted) + [formatted] && intact == old(intact)
      ensures r.Ok? ==> Suffix(OnDisk(files, base, maxFiles), OnDisk(old(files), base, maxFiles) + formatted)
      ensures r.RenameFailed? ==> accepted == old(accepted) && !intact && files[base] == [] && currentSize == 0
      ensures AllSucceed(ok, maxFiles) ==> r.Ok?
      ensures OthersSame(old(files), files, base, maxFiles)
    {
      ghost var packed := Pack(start, accepted, maxSize);
      currentSize := currentSize + |formatted|;
      ghost var rotated := currentSize > maxSize;
      SuffixOfItself(OnDisk(files, base, maxFiles));
      r := Ok;
      if currentSize > maxSize {
        r := Rotate(ok, Take(packed.files, maxFiles + 1));
        if r.RenameFailed? {
          intact := false;
          return;
        }
        currentSize := |formatted|;
      }
      if intact {
        AppendKeepsPacked(files, base, maxSize, maxFiles, start, accepted, formatted, packed, rotated,
                          files[base := files[base] + formatted], currentSize);
      }
      AppendFormatted(old(files), formatted);
      accepted := accepted + [formatted];
    }

    /** The write behind everything in the active file. */
    method AppendFormatted(ghost before: Files, formatted: Bytes)
      requires base in files && Suffix(OnDisk(files, base, maxFiles), OnDisk(before, base, maxFiles))
      requires OthersSame(before, files, base, maxFiles)
      modifies this`files
      ensures files == old(files)[base := old(files)[base] + formatted]
      ensures Suffix(OnDisk(files, base, maxFiles), OnDisk(before, base, maxFiles) + formatted)
      ensures OthersSame(before, files, base, maxFiles)
    {
      AppendToActive(files, base, maxFiles, formatted, []);
      AppendExtends(files, base, formatted, maxFiles + 1);
      SuffixGrows(OnDisk(files, base, maxFiles), OnDisk(before, base, maxFiles), formatted);
      OthersStaySame(before, files, files[base := files[base] + formatted], base, maxFiles);
      files := files[base := files[base] + formatted];
    }

    /** Deletes the target if it exists, then renames. */
    method RenameFile(src: string, target: string, succeeds: bool) returns (renamed: bool)
      modifies this`files
      ensures renamed == succeeds
      ensures files == if succeeds then Rename(old(files), src, target) else old(files) - {target}
    {
      files := files - {target};
      if succeeds && src in files {
        files := files[target := files[src]] - {src};
      }
      renamed := succeeds;
    }
  }

  /** Everything that one round of a rotation keeps, made or given up. */
  /** The files from i on have moved up, and i is free. */
  ghost predicate MovedSoFar(start: Files, now: Files, base: string, maxFiles: nat, chain: seq<Bytes>, isChain: bool, i: nat) {
    && (isChain ==> 1 <= |chain| <= maxFiles + 1 && Rotating(now, base, maxFiles, chain, i))
    && Suffix(OnDisk(now, base, maxFiles), OnDisk(start, base, maxFiles)) && (i < maxFiles ==> Slot(now, base, i) == [])
    && OthersSame(start, now, base, maxFiles)
  }

  lemma MovedUp(start: Files, now: Files, base: string, maxFiles: nat, chain: seq<Bytes>, isChain: bool, i: nat, after: Files)
    requires 1 <= i <= maxFiles && MovedSoFar(start, now, base, maxFiles, chain, isChain, i)
    requires after == MoveUp(now, base, i)
    ensures MovedSoFar(start, after, base, maxFiles, chain, isChain, i - 1)
    ensures OthersSame(start, now - {CalcFilename(base, i)}, base, maxFiles)
  {
    if isChain {
      MoveUpRotates(now, base, maxFiles, chain, i);
    }
    MoveUpKeepsSuffix(now, base, maxFiles, i);
    SuffixTrans(OnDisk(after, base, maxFiles), OnDisk(now, base, maxFiles), OnDisk(start, base, maxFiles));
    MoveUpStaysInChain(now, base, maxFiles, i);
    OthersStaySame(start, now, after, base, maxFiles);
    OthersStaySame(start, now, now - {CalcFilename(base, i)}, base, maxFiles);
  }

  lemma OpenedChain(directory: Files, base: string, maxFiles: nat, chain: seq<Bytes>)
    ensures var first := OpenedFiles(directory, base);
      && OthersSame(directory, first, base, maxFiles)
      && (IsChain(first, base, maxFiles, chain) ==> first[base] == chain[0] && Take(chain, maxFiles + 1) == chain)
  {
    CalcOfZero(base, maxFiles);
  }

  // ----- the log on disk -----

  /**
   While no rename has failed, the files on disk, oldest first, are a suffix of everything there
   was and everything accepted, and each is within the limit, holds a single message, or was there
   before.
   */
  lemma DiskKeepsSuffix(files: Files, base: string, maxSize: nat, maxFiles: nat, start: Packing, accepted: seq<Bytes>,
                        chain: seq<Bytes>) returns (dropped: Bytes)
    requires start.files != [] && |start.files[0]| <= start.size
    requires IsChain(files, base, maxFiles, Take(Pack(start, accepted, maxSize).files, maxFiles + 1))
    requires IsChain(files, base, maxFiles, chain)
    ensures OldestFirst(start.files) + Sequences.Flatten(accepted) == dropped + OldestFirst(chain)
    ensures forall i :: 0 <= i < |chain| ==> |chain[i]| <= maxSize || chain[i] in accepted || chain[i] in start.files
    ensures var n := |Pack(start, accepted, maxSize).files|; |chain| == if n <= maxFiles then n else maxFiles + 1
  {
    var p := Pack(start, accepted, maxSize).files;
    ChainUnique(files, base, maxFiles, chain, Take(p, maxFiles + 1));
    PackKeepsBytes(start, accepted, maxSize);
    dropped := TakeIsSuffix(p, maxFiles + 1);
    PackRespectsLimit(start, accepted, maxSize);
    assert forall i :: 0 <= i < |chain| ==> chain[i] in p;
  }

  /** The directory determines the chain. */
  lemma ChainUnique(files: Files, base: string, maxFiles: nat, a: seq<Bytes>, b: seq<Bytes>)
    requires IsChain(files, base, maxFiles, a) && IsChain(files, base, maxFiles, b)
    ensures a == b
  {
    var na: nat, nb: nat := |a|, |b|;
    var fa, fb := CalcFilename(base, na), CalcFilename(base, nb);
    assert na <= maxFiles ==> fa !in files;
    assert nb <= maxFiles ==> fb !in files;
    assert na < nb ==> fa in files;
    assert nb < na ==> fb in files;
  }

  lemma OthersStaySame(a: Files, b: Files, c: Files, base: string, maxFiles: nat)
    requires OthersSame(a, b, base, maxFiles) && OthersSame(b, c, base, maxFiles)
    ensures OthersSame(a, c, base, maxFiles)
  {
  }

  /**
   A whole run from any directory, with every rename succeeding. Whatever files there are, with
   gaps or without, the bytes on disk are a suffix of those there were and all messages.
   On a chain of files, the files are the newest of the packing.
   */
  method LogAll(base: string, maxSize: nat, maxFiles: nat, rotateOnOpen: bool, directory: Files, msgs: seq<Bytes>,
                ghost chain: seq<Bytes>) returns (files: Files, size: nat)
    ensures var first := OpenedFiles(directory, base);
      && Suffix(OnDisk(files, base, maxFiles), OnDisk(first, base, maxFiles) + Sequences.Flatten(msgs))
      && (IsChain(first, base, maxFiles, chain) ==>
          var p := Pack(StartOf(chain, rotateOnOpen, maxFiles), msgs, maxSize);
          size == p.size && IsChain(files, base, maxFiles, Take(p.files, maxFiles + 1)))
    ensures base in files && |files[base]| <= size
    ensures OthersSame(directory, files, base, maxFiles)
  {
    var ok := (i: nat, attempt: nat) => true;
    var sink := new Sink(base, maxSize, maxFiles, rotateOnOpen, directory, ok, chain);
    ghost var all := OnDisk(OpenedFiles(directory, base), base, maxFiles);
    ghost var isChain := IsChain(OpenedFiles(directory, base), base, maxFiles, chain);
    assert all + [] == all;
    for k := 0 to |msgs|
      invariant sink.Valid() && sink.accepted == msgs[..k]
      invariant isChain ==> sink.intact && sink.start == StartOf(chain, rotateOnOpen, maxFiles)
      invariant sink.base == base && sink.maxSize == maxSize && sink.maxFiles == maxFiles
      invariant Suffix(OnDisk(sink.files, base, maxFiles), all + Sequences.Flatten(msgs[..k]))
      invariant OthersSame(directory, sink.files, base, maxFiles)
    {
      ghost var before := sink.files;
      var r := sink.SinkIt(msgs[k], ok);
      OthersStaySame(directory, before, sink.files, base, maxFiles);
      Sequences.Longer(msgs, k);
      SuffixLonger(sink.files, before, base, maxFiles, all, msgs, k);
    }
    assert msgs[..|msgs|] == msgs;
    files, size := sink.files, sink.currentSize;
  }

  lemma SuffixLonger(files: Files, before: Files, base: string, maxFiles: nat, all: Bytes, msgs: seq<Bytes>, k: nat)
    requires k < |msgs| && Suffix(OnDisk(before, base, maxFiles), all + Sequences.Flatten(msgs[..k]))
    requires Suffix(OnDisk(files, base, maxFiles), OnDisk(before, base, maxFiles) + msgs[k])
    ensures Suffix(OnDisk(files, base, maxFiles), all + Sequences.Flatten(msgs[..k + 1]))
  {
    var flat, disk := Sequences.Flatten(msgs[..k]), OnDisk(before, base, maxFiles);
    assert msgs[..k + 1][..k] == msgs[..k];
    SuffixGrows(disk, all + flat, msgs[k]);
    Sequences.Assoc(all, flat, msgs[k]);
    SuffixTrans(OnDisk(files, base, maxFiles), disk + msgs[k], all + flat + msgs[k]);
  }
}
