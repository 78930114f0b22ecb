/** The timers of a playback, which run the callbacks whose time has passed. */
module Timers {
  import opened Timeline
  import Sequences

  /** A timer, with its address in memory. A positive interval makes it repeat. */
  datatype Timer = Timer(when: int, address: nat, record: Record, interval: int)

  /** Timers are ordered by time, and by address at equal times. */
  predicate Before(a: Timer, b: Timer) {
    a.when < b.when || (a.when == b.when && a.address < b.address)
  }

  ghost predicate Ordered(s: seq<Timer>) {
    forall i, j :: 0 <= i < j < |s| ==> Before(s[i], s[j])
  }

  ghost predicate Distinct(s: seq<Timer>) {
    forall i, j :: 0 <= i < j < |s| ==> s[i].address != s[j].address
  }

  ghost predicate Unused(s: seq<Timer>, address: nat) {
    forall x :: x in s ==> x.address != address
  }

  function InsertTimer(s: seq<Timer>, t: Timer): seq<Timer> {
    if s == [] || Before(s[|s| - 1], t) then s + [t]
    else InsertTimer(s[..|s| - 1], t) + [s[|s| - 1]]
  }

  lemma {:induction false} InsertAdds(s: seq<Timer>, t: Timer)
    ensures multiset(InsertTimer(s, t)) == multiset(s) + multiset{t}
    ensures forall x :: x in InsertTimer(s, t) <==> x == t || x in s
  {
    if s != [] && !Before(s[|s| - 1], t) {
      var init, last := s[..|s| - 1], s[|s| - 1];
      InsertAdds(init, t);
      assert s == init + [last];
    }
  }

  lemma {:induction false} InsertKeepsOrder(s: seq<Timer>, t: Timer)
    requires Ordered(s) && Distinct(s) && Unused(s, t.address)
    ensures Ordered(InsertTimer(s, t)) && Distinct(InsertTimer(s, t))
  {
    InsertAdds(s, t);
    if s != [] {
      var init, last := s[..|s| - 1], s[|s| - 1];
      assert last in s && forall x :: x in init ==> Before(x, last) && x.address != last.address;
      if Before(last, t) {
        assert forall x :: x in s ==> Before(x, t);
      } else {
        InsertKeepsOrder(init, t);
        InsertAdds(init, t);
      }
    }
  }

  // ----- one event -----

  /** The timers before a time; the sentinel of the search has the least address. */
  function LowerBound(s: seq<Timer>, now: int): (n: nat)
    ensures n <= |s|
  {
    if s != [] && s[0].when < now then 1 + LowerBound(s[1..], now) else 0
  }

  lemma {:induction false} LowerBoundSplits(s: seq<Timer>, now: int)
    requires Ordered(s)
    ensures var n := LowerBound(s, now);
      (forall i :: 0 <= i < n ==> s[i].when < now) && (forall i :: n <= i < |s| ==> s[i].when >= now)
  {
    if s != [] && s[0].when < now {
      LowerBoundSplits(s[1..], now);
      assert forall i :: 1 <= i < |s| ==> s[i] == s[1..][i - 1];
    } else if s != [] {
      assert forall i :: 1 <= i < |s| ==> Before(s[0], s[i]);
    }
  }

  datatype Queue = Queue(timers: seq<Timer>, stopped: bool, ran: seq<(Timer, int)>)

  /** The assertion behind the search fails. */
  predicate Aborts(q: Queue, now: int) {
    var n := LowerBound(q.timers, now);
    n < |q.timers| && !(now < q.timers[n].when)
  }

  /** It fails exactly if a timer's time is the present to the nanosecond. */
  lemma AbortsExactly(q: Queue, now: int)
    requires Ordered(q.timers)
    ensures Aborts(q, now) <==> exists i :: 0 <= i < |q.timers| && q.timers[i].when == now
  {
    LowerBoundSplits(q.timers, now);
    var n := LowerBound(q.timers, now);
    assert forall i :: n < i < |q.timers| ==> Before(q.timers[n], q.timers[i]);
  }

  function At(s: seq<Timer>, now: int): (r: seq<(Timer, int)>)
    ensures |r| == |s|
  {
    seq(|s|, i requires 0 <= i < |s| => (s[i], now))
  }

  /** The repeating ones go back, an interval from now. */
  function Restart(s: seq<Timer>, expired: seq<Timer>, now: int): seq<Timer>
    decreases |expired|
  {
    if expired == [] then s
    else Restart(if expired[0].interval > 0 then InsertTimer(s, expired[0].(when := now + expired[0].interval)) else s,
                 expired[1..], now)
  }

  /** An event with nothing to run, and one that leaves nothing to run, stop the timer. */
  function Handle(q: Queue, now: int): Queue {
    var n := LowerBound(q.timers, now);
    var timers := Restart(q.timers[n..], q.timers[..n], now);
    Queue(timers, q.stopped || n == 0 || timers == [], q.ran + At(q.timers[..n], now))
  }

  lemma RestartFirst(s: seq<Timer>, expired: seq<Timer>, k: nat, now: int)
    requires k < |expired|
    ensures var t := expired[k];
      Restart(s, expired[k..], now) ==
      Restart(if t.interval > 0 then InsertTimer(s, t.(when := now + t.interval)) else s, expired[k + 1..], now)
  {
    Sequences.Cut(expired, k);
  }

  lemma {:induction false} RestartKeepsOrder(s: seq<Timer>, expired: seq<Timer>, now: int)
    requires Ordered(s) && Distinct(s + expired)
    ensures Ordered(Restart(s, expired, now)) && Distinct(Restart(s, expired, now))
    decreases |expired|
  {
    if expired == [] {
      assert s + expired == s;
    } else {
      var t, rest := expired[0], expired[1..];
      DistinctParts(s, expired);
      if t.interval > 0 {
        var t' := t.(when := now + t.interval);
        InsertKeepsOrder(s, t');
        InsertAdds(s, t');
        DistinctAgain(InsertTimer(s, t'), s, t', rest);
        RestartKeepsOrder(InsertTimer(s, t'), rest, now);
      } else {
        RestartKeepsOrder(s, rest, now);
      }
    }
  }

  lemma DistinctParts(s: seq<Timer>, expired: seq<Timer>)
    requires Distinct(s + expired) && expired != []
    ensures Distinct(s) && Unused(s, expired[0].address) && Distinct(s + expired[1..])
    ensures Distinct(expired[1..]) && Unused(expired[1..], expired[0].address)
    ensures forall x :: x in s ==> Unused(expired[1..], x.address)
  {
    var all := s + expired;
    assert forall i :: 0 <= i < |s| ==> all[i] == s[i];
    assert forall i :: 0 <= i < |expired| ==> all[|s| + i] == expired[i];
    assert forall i :: 0 <= i < |expired| - 1 ==> expired[1..][i] == expired[i + 1];
  }

  lemma DistinctAgain(s': seq<Timer>, s: seq<Timer>, t: Timer, rest: seq<Timer>)
    requires Distinct(s') && Distinct(rest) && Unused(rest, t.address)
    requires forall x :: x in s ==> Unused(rest, x.address)
    requires forall x :: x in s' ==> x == t || x in s
    ensures Distinct(s' + rest)
  {
    assert forall i :: 0 <= i < |s'| ==> s'[i] in s' && Unused(rest, s'[i].address);
    assert forall i :: 0 <= i < |rest| ==> rest[i] in rest;
  }

  /** The queue stays ordered, with timers that repeat and timers that do not. */
  lemma HandleKeepsOrder(q: Queue, now: int)
    requires Ordered(q.timers) && Distinct(q.timers)
    ensures Ordered(Handle(q, now).timers) && Distinct(Handle(q, now).timers)
  {
    var n := LowerBound(q.timers, now);
    assert Distinct(q.timers[n..] + q.timers[..n]);
    RestartKeepsOrder(q.timers[n..], q.timers[..n], now);
  }

  /** Another timer of the same callback, an interval from now. */
  ghost predicate Again(x: Timer, y: Timer, now: int) {
    y.interval > 0 && x == Timer(now + y.interval, y.address, y.record, y.interval)
  }

  /** Restarting adds, for each expired timer that repeats, one that expires an interval from now, and nothing else. */
  lemma {:induction false} RestartHolds(s: seq<Timer>, expired: seq<Timer>, now: int, x: Timer)
    ensures x in Restart(s, expired, now) <==> x in s || Repeats(x, expired, now)
    decreases |expired|
  {
    if expired != [] {
      var t, rest := expired[0], expired[1..];
      var t' := t.(when := now + t.interval);
      RepeatsFirst(x, t, rest, expired, now);
      if t.interval > 0 {
        InsertAdds(s, t');
        RestartHolds(InsertTimer(s, t'), rest, now, x);
      } else {
        RestartHolds(s, rest, now, x);
      }
    }
  }

  ghost predicate Repeats(x: Timer, expired: seq<Timer>, now: int) {
    exists i :: 0 <= i < |expired| && Again(x, expired[i], now)
  }

  lemma RepeatsFirst(x: Timer, t: Timer, rest: seq<Timer>, expired: seq<Timer>, now: int)
    requires expired == [t] + rest
    ensures Repeats(x, expired, now) <==> Again(x, t, now) || Repeats(x, rest, now)
  {
    if i :| 0 <= i < |rest| && Again(x, rest[i], now) {
      assert expired[i + 1] == rest[i];
    }
    if i :| 0 <= i < |expired| && Again(x, expired[i], now) {
      assert i == 0 || expired[i] == rest[i - 1];
    }
    assert expired[0] == t;
  }

  /**
   An event runs exactly the timers before its time, in order. Left are the others and those that
   repeat, and it stops the queue if it ran nothing or nothing is left.
   */
  lemma HandleExactly(q: Queue, now: int, x: Timer)
    requires Ordered(q.timers)
    ensures var h := Handle(q, now); var n := |h.ran| - |q.ran|;
      && 0 <= n <= |q.timers| && q.ran <= h.ran
      && (forall i :: 0 <= i < n ==> h.ran[|q.ran| + i] == (q.timers[i], now) && q.timers[i].when < now)
      && (forall i :: n <= i < |q.timers| ==> q.timers[i].when >= now)
      && (h.stopped <==> q.stopped || n == 0 || h.timers == [])
      && (x in h.timers <==>
        (x in q.timers && x.when >= now) || Repeats(x, q.timers[..n], now))
  {
    var n := LowerBound(q.timers, now);
    LowerBoundSplits(q.timers, now);
    RestartHolds(q.timers[n..], q.timers[..n], now, x);
    LateOnes(q.timers, n, now, x);
  }

  lemma LateOnes(s: seq<Timer>, n: nat, now: int, x: Timer)
    requires n <= |s| && forall i :: 0 <= i < n ==> s[i].when < now
    requires forall i :: n <= i < |s| ==> s[i].when >= now
    ensures x in s[n..] <==> x in s && x.when >= now
  {
  }

  // ----- every run of one-shot timers -----

  ghost predicate OneShot(s: seq<Timer>) {
    forall x :: x in s ==> x.interval <= 0
  }

  /** The timers that have run, in order. */
  function Played(ran: seq<(Timer, int)>): (s: seq<Timer>)
    ensures |s| == |ran|
  {
    seq(|ran|, i requires 0 <= i < |ran| => ran[i].0)
  }

  lemma {:induction false} NoRestart(s: seq<Timer>, expired: seq<Timer>, now: int)
    requires OneShot(expired)
    ensures Restart(s, expired, now) == s
    decreases |expired|
  {
    if expired != [] {
      assert expired[0] in expired;
      NoRestart(s, expired[1..], now);
    }
  }

  lemma HandleMoves(q: Queue, now: int)
    requires OneShot(q.timers)
    ensures var n := LowerBound(q.timers, now);
      && Handle(q, now).timers == q.timers[n..] && OneShot(Handle(q, now).timers)
      && Played(Handle(q, now).ran) + Handle(q, now).timers == Played(q.ran) + q.timers
  {
    var n := LowerBound(q.timers, now);
    var expired, rest := q.timers[..n], q.timers[n..];
    NoRestart(rest, expired, now);
    PlayedSum(q.ran, expired, now);
    Sequences.Cut(q.timers, n);
    Sequences.Assoc(Played(q.ran), expired, rest);
  }

  lemma PlayedSum(ran: seq<(Timer, int)>, expired: seq<Timer>, now: int)
    ensures Played(ran + At(expired, now)) == Played(ran) + expired
  {
  }

  /** Events, until one stops the timer or aborts. */
  function Run(q: Queue, nows: seq<int>): Queue
    decreases |nows|
  {
    if nows == [] || q.stopped || Aborts(q, nows[0]) then q else Run(Handle(q, nows[0]), nows[1..])
  }

  /** Everything has run after its own time. */
  ghost predicate InTime(ran: seq<(Timer, int)>) {
    forall i :: 0 <= i < |ran| ==> ran[i].0.when < ran[i].1
  }

  /**
   Over every run, the callbacks that have run and the timers that are left are the original
   list, in its order, and none has run before its time.
   */
  lemma {:induction false} EveryRun(q: Queue, nows: seq<int>)
    requires Ordered(q.timers) && OneShot(q.timers) && InTime(q.ran)
    ensures var r := Run(q, nows);
      Played(r.ran) + r.timers == Played(q.ran) + q.timers && InTime(r.ran) && Ordered(r.timers)
    decreases |nows|
  {
    if nows != [] && !q.stopped && !Aborts(q, nows[0]) {
      HandleMoves(q, nows[0]);
      LowerBoundSplits(q.timers, nows[0]);
      EveryRun(Handle(q, nows[0]), nows[1..]);
    }
  }

  /**
   While timers are left, each event finds the queue running, comes after the time that it was set
   to, and not at the time of another timer.
   */
  ghost predicate Timely(q: Queue, nows: seq<int>)
    decreases |nows|
  {
    nows == [] || q.timers == []
    || (!q.stopped && q.timers[0].when < nows[0] && !Aborts(q, nows[0]) && Timely(Handle(q, nows[0]), nows[1..]))
  }

  /** With as many events as there are timers, everything is played if and only if the events are timely. */
  lemma {:induction false} PlayedExactly(q: Queue, nows: seq<int>)
    requires Ordered(q.timers) && OneShot(q.timers) && |nows| >= |q.timers|
    ensures Run(q, nows).timers == [] <==> Timely(q, nows)
    decreases |nows|
  {
    if q.timers == [] {
      NothingLeft(q, nows);
    } else if !q.stopped && !Aborts(q, nows[0]) {
      var h := Handle(q, nows[0]);
      HandleMoves(q, nows[0]);
      if q.timers[0].when < nows[0] {
        PlayedExactly(h, nows[1..]);
      } else {
        assert h.stopped && h.timers == q.timers;
      }
    }
  }

  lemma {:induction false} NothingLeft(q: Queue, nows: seq<int>)
    requires q.timers == []
    ensures Run(q, nows).timers == []
    decreases |nows|
  {
    if nows != [] && !q.stopped {
      NothingLeft(Handle(q, nows[0]), nows[1..]);
    }
  }

  /** The queue stops by itself when the last timer has run. */
  lemma {:induction false} PlaybackStops(q: Queue, nows: seq<int>)
    requires q.timers != []
    ensures Run(q, nows).timers == [] ==> Run(q, nows).stopped
    decreases |nows|
  {
    if nows != [] && !q.stopped && !Aborts(q, nows[0]) {
      var h := Handle(q, nows[0]);
      if h.timers == [] {
        assert h.stopped && Run(h, nows[1..]) == h;
      } else {
        PlaybackStops(h, nows[1..]);
      }
    }
  }

  /** What has been played then is the list, after what had been played before. */
  lemma EverythingIsPlayed(q: Queue, nows: seq<int>)
    requires Ordered(q.timers) && OneShot(q.timers) && InTime(q.ran) && |nows| >= |q.timers|
    ensures Played(Run(q, nows).ran) == Played(q.ran) + q.timers <==> Timely(q, nows)
  {
    PlayedExactly(q, nows);
    EveryRun(q, nows);
    var r := Run(q, nows);
    assert r.timers == [] ==> Played(r.ran) + r.timers == Played(r.ran);
    assert |Played(r.ran)| + |r.timers| == |Played(q.ran)| + |q.timers|;
  }

  /** But an event before that time ends the playback, with everything left unplayed. */
  lemma EarlyEventStops(q: Queue, now: int, nows: seq<int>)
    requires Ordered(q.timers) && q.timers != [] && now < q.timers[0].when && !q.stopped
    ensures Run(q, [now] + nows) == Queue(q.timers, true, q.ran)
  {
    LowerBoundSplits(q.timers, now);
    assert ([now] + nows)[1..] == nows;
    assert q.timers[0..] == q.timers && q.timers[..0] == [];
    assert q.ran + At([], now) == q.ran;
  }

  // ----- loading a view -----

  function TimerFor(r: Record, diff: int, address: nat): Timer {
    Timer(r.time + diff, address, r, 0)
  }

  function InOrder(view: seq<Record>, diff: int, addresses: seq<nat>): (s: seq<Timer>)
    requires |addresses| == |view|
    ensures |s| == |view|
  {
    seq(|view|, i requires 0 <= i < |view| => TimerFor(view[i], diff, addresses[i]))
  }

  function Loaded(view: seq<Record>, diff: int, addresses: seq<nat>): seq<Timer>
    requires |addresses| == |view|
  {
    if view == [] then []
    else
      var n := |view| - 1;
      InsertTimer(Loaded(view[..n], diff, addresses[..n]), TimerFor(view[n], diff, addresses[n]))
  }

  /** A timer that is not earlier than the others takes a place among those of its own time. */
  lemma {:induction false} InsertLatest(s: seq<Timer>, t: Timer)
    requires forall x :: x in s ==> x.when <= t.when
    ensures var r := InsertTimer(s, t);
      |r| == |s| + 1 && r[|s|].when == t.when && forall i :: 0 <= i < |s| ==> r[i].when == s[i].when
  {
    if s != [] && !Before(s[|s| - 1], t) {
      assert s[|s| - 1] in s;
      InsertLatest(s[..|s| - 1], t);
    }
  }

  ghost predicate DistinctAddresses(addresses: seq<nat>) {
    forall i, j :: 0 <= i < j < |addresses| ==> addresses[i] != addresses[j]
  }

  /** Loading loses nothing. */
  lemma {:induction false} LoadedHolds(view: seq<Record>, diff: int, addresses: seq<nat>)
    requires |addresses| == |view|
    ensures multiset(Loaded(view, diff, addresses)) == multiset(InOrder(view, diff, addresses))
    ensures forall x :: x in Loaded(view, diff, addresses) <==> x in InOrder(view, diff, addresses)
  {
    if view != [] {
      var n := |view| - 1;
      LoadedHolds(view[..n], diff, addresses[..n]);
      InOrderPush(view, diff, addresses);
      InsertAdds(Loaded(view[..n], diff, addresses[..n]), TimerFor(view[n], diff, addresses[n]));
    }
  }

  lemma InOrderPush(view: seq<Record>, diff: int, addresses: seq<nat>)
    requires |addresses| == |view| > 0
    ensures var n := |view| - 1;
      InOrder(view, diff, addresses) == InOrder(view[..n], diff, addresses[..n]) + [TimerFor(view[n], diff, addresses[n])]
  {
  }

  /** The messages of the timers. */
  function Records(s: seq<Timer>): (rs: seq<Record>)
    ensures |rs| == |s|
  {
    seq(|s|, i requires 0 <= i < |s| => s[i].record)
  }

  lemma RecordsPush(s: seq<Timer>, t: Timer)
    ensures Records(s + [t]) == Records(s) + [t.record]
  {
  }

  lemma {:induction false} InsertRecords(s: seq<Timer>, t: Timer)
    ensures multiset(Records(InsertTimer(s, t))) == multiset(Records(s)) + multiset{t.record}
  {
    RecordsPush(s, t);
    if s != [] && !Before(s[|s| - 1], t) {
      var init, last := s[..|s| - 1], s[|s| - 1];
      InsertRecords(init, t);
      RecordsPush(InsertTimer(init, t), last);
      RecordsPush(init, last);
      assert s == init + [last];
    }
  }

  /** The messages that are loaded are those of the view, each as often as it is there. */
  lemma {:induction false} LoadedRecords(view: seq<Record>, diff: int, addresses: seq<nat>)
    requires |addresses| == |view|
    ensures multiset(Records(Loaded(view, diff, addresses))) == multiset(view)
  {
    if view != [] {
      var n := |view| - 1;
      LoadedRecords(view[..n], diff, addresses[..n]);
      InsertRecords(Loaded(view[..n], diff, addresses[..n]), TimerFor(view[n], diff, addresses[n]));
      assert view == view[..n] + [view[n]];
    }
  }

  /** Each message of the view has a timer at its shifted time, with the address given to it, that does not repeat. */
  lemma LoadedTimers(view: seq<Record>, diff: int, addresses: seq<nat>, x: Timer)
    requires |addresses| == |view|
    ensures x in Loaded(view, diff, addresses) <==>
      exists i :: 0 <= i < |view| && x == Timer(view[i].time + diff, addresses[i], view[i], 0)
  {
    LoadedHolds(view, diff, addresses);
    var s := InOrder(view, diff, addresses);
    assert forall i :: 0 <= i < |view| ==> s[i] == Timer(view[i].time + diff, addresses[i], view[i], 0);
  }

  /** Loading shifts all times by one constant. */
  lemma {:induction false} LoadedShifts(view: seq<Record>, diff: int, addresses: seq<nat>)
    requires |addresses| == |view| && DistinctAddresses(addresses) && Sorted(view)
    ensures var q := Loaded(view, diff, addresses);
      && |q| == |view| && (forall i :: 0 <= i < |q| ==> q[i].when == view[i].time + diff)
      && Ordered(q) && Distinct(q)
  {
    if view != [] {
      var n := |view| - 1;
      LoadedShifts(view[..n], diff, addresses[..n]);
      var s, t := Loaded(view[..n], diff, addresses[..n]), TimerFor(view[n], diff, addresses[n]);
      LoadedBefore(view, diff, addresses);
      InsertLatest(s, t);
      InsertKeepsOrder(s, t);
    }
  }

  lemma LoadedBefore(view: seq<Record>, diff: int, addresses: seq<nat>)
    requires |addresses| == |view| > 0 && DistinctAddresses(addresses) && Sorted(view)
    ensures var n := |view| - 1;
      forall x :: x in Loaded(view[..n], diff, addresses[..n]) ==> x.when <= view[n].time + diff && x.address != addresses[n]
  {
    var n := |view| - 1;
    LoadedHolds(view[..n], diff, addresses[..n]);
    var s := InOrder(view[..n], diff, addresses[..n]);
    forall x | x in s ensures x.when <= view[n].time + diff && x.address != addresses[n] {
      var i :| 0 <= i < n && s[i] == x;
    }
  }

  /** The order of the view is kept exactly if, at equal times, later messages get higher addresses. */
  lemma LoadedInOrderExactly(view: seq<Record>, diff: int, addresses: seq<nat>)
    requires |addresses| == |view| && DistinctAddresses(addresses) && Sorted(view)
    ensures Loaded(view, diff, addresses) == InOrder(view, diff, addresses)
      <==> forall i, j :: 0 <= i < j < |view| && view[i].time == view[j].time ==> addresses[i] < addresses[j]
  {
    var s := InOrder(view, diff, addresses);
    LoadedShifts(view, diff, addresses);
    assert Ordered(s) ==> forall i, j :: 0 <= i < j < |view| ==> Before(s[i], s[j]);
    if forall i, j :: 0 <= i < j < |view| && view[i].time == view[j].time ==> addresses[i] < addresses[j] {
      LoadedInOrder(view, diff, addresses);
    }
  }

  lemma {:induction false} LoadedInOrder(view: seq<Record>, diff: int, addresses: seq<nat>)
    requires |addresses| == |view| && Sorted(view)
    requires forall i, j :: 0 <= i < j < |view| && view[i].time == view[j].time ==> addresses[i] < addresses[j]
    ensures Loaded(view, diff, addresses) == InOrder(view, diff, addresses)
  {
    if view != [] {
      var n := |view| - 1;
      LoadedInOrder(view[..n], diff, addresses[..n]);
      var init, t := InOrder(view[..n], diff, addresses[..n]), TimerFor(view[n], diff, addresses[n]);
      assert InOrder(view, diff, addresses) == init + [t];
      assert n > 0 ==> Before(init[n - 1], t);
    }
  }

  /**
   So a view is played completely and in its own order if and only if later messages get higher
   addresses at equal times, and the events are timely. Each message is then played after its
   shifted time.
   */
  lemma WholeViewIsPlayed(view: seq<Record>, diff: int, addresses: seq<nat>, nows: seq<int>)
    requires |addresses| == |view| && DistinctAddresses(addresses) && Sorted(view) && |nows| >= |view|
    ensures var q := Queue(Loaded(view, diff, addresses), false, []);
      && InTime(Run(q, nows).ran)
      && (InViewOrder(Run(q, nows).ran, view, diff, addresses) <==>
          Timely(q, nows)
          && forall i, j :: 0 <= i < j < |view| && view[i].time == view[j].time ==> addresses[i] < addresses[j])
  {
    var q := Queue(Loaded(view, diff, addresses), false, []);
    LoadedIsPlayed(view, diff, addresses, nows, q);
    PlayedInViewOrder(Run(q, nows).ran, view, diff, addresses);
  }

  /** The whole view has been played: every message, in its place, from the timer at its shifted time. */
  ghost predicate InViewOrder(ran: seq<(Timer, int)>, view: seq<Record>, diff: int, addresses: seq<nat>)
    requires |addresses| == |view|
  {
    && |ran| == |view|
    && forall i :: 0 <= i < |view| ==>
      && ran[i].0.record == view[i] && ran[i].0.when == view[i].time + diff
      && ran[i].0.address == addresses[i] && ran[i].0.interval == 0
  }

  lemma PlayedInViewOrder(ran: seq<(Timer, int)>, view: seq<Record>, diff: int, addresses: seq<nat>)
    requires |addresses| == |view|
    ensures Played(ran) == InOrder(view, diff, addresses) <==> InViewOrder(ran, view, diff, addresses)
  {
    var played, s := Played(ran), InOrder(view, diff, addresses);
    if played == s {
      forall i | 0 <= i < |view| ensures ran[i].0 == TimerFor(view[i], diff, addresses[i]) {
        assert played[i] == s[i];
      }
    } else if InViewOrder(ran, view, diff, addresses) {
      assert forall i :: 0 <= i < |view| ==> played[i] == s[i];
    }
  }

  lemma LoadedIsPlayed(view: seq<Record>, diff: int, addresses: seq<nat>, nows: seq<int>, q: Queue)
    requires |addresses| == |view| && DistinctAddresses(addresses) && Sorted(view) && |nows| >= |view|
    requires q == Queue(Loaded(view, diff, addresses), false, [])
    ensures InTime(Run(q, nows).ran)
    ensures Played(Run(q, nows).ran) == InOrder(view, diff, addresses) <==>
      Timely(q, nows)
      && forall i, j :: 0 <= i < j < |view| && view[i].time == view[j].time ==> addresses[i] < addresses[j]
  {
    LoadedInOrderExactly(view, diff, addresses);
    LoadedShifts(view, diff, addresses);
    AllOneShot(view, diff, addresses);
    EverythingIsPlayed(q, nows);
    EveryRun(q, nows);
    NothingPlayed(q.timers);
    AllOrNothing(Played(Run(q, nows).ran), Run(q, nows).timers, q.timers, InOrder(view, diff, addresses));
  }

  lemma AllOrNothing(played: seq<Timer>, left: seq<Timer>, all: seq<Timer>, view: seq<Timer>)
    requires played + left == all && |all| == |view|
    ensures played == view <==> played == all && all == view
  {
    if |played| == |view| {
      assert left == [] && played + [] == played;
    }
  }

  // ----- the queue object -----

  class TimerQueue {
    var timers: seq<Timer>
    var stopped: bool
    /** The callbacks that have been run, and when. */
    var ran: seq<(Timer, int)>

    function Value(): Queue
      reads this
    {
      Queue(timers, stopped, ran)
    }

    constructor ()
      ensures Value() == Queue([], false, [])
    {
      timers, stopped, ran := [], false, [];
    }

    method AddTimer(record: Record, when: int, interval: int, address: nat)
      modifies this`timers
      ensures timers == InsertTimer(old(timers), Timer(when, address, record, interval))
    {
      Insert(Timer(when, address, record, interval));
    }

    /** An ordered set; its assertion that the timer is new holds as long as the address is. */
    method Insert(timer: Timer)
      modifies this`timers
      ensures timers == InsertTimer(old(timers), timer)
    {
      timers := InsertTimer(timers, timer);
    }

    /** Loads a view, all times shifted alike; each timer gets an address. */
    method Load(view: seq<Record>, diff: int, addresses: seq<nat>)
      requires timers == [] && |addresses| == |view|
      modifies this`timers
      ensures timers == Loaded(view, diff, addresses)
    {
      for k := 0 to |view|
        invariant timers == Loaded(view[..k], diff, addresses[..k])
      {
        assert view[..k + 1][..k] == view[..k] && addresses[..k + 1][..k] == addresses[..k];
        AddTimer(view[k], view[k].time + diff, 0, addresses[k]);
      }
      assert view[..|view|] == view && addresses[..|view|] == addresses;
    }

    /** Takes the timers whose time has passed, unless the assertion about the next one fails. */
    method GetExpired(now: int) returns (ok: bool, expired: seq<Timer>)
      modifies this`timers
      ensures ok == !Aborts(old(Value()), now)
      ensures expired == if ok then old(timers)[..LowerBound(old(timers), now)] else []
      ensures timers == if ok then old(timers)[LowerBound(old(timers), now)..] else old(timers)
    {
      ok, expired := true, [];
      if timers == [] {
        return;
      }
      var end := LowerBound(timers, now);
      if end < |timers| && !(now < timers[end].when) {
        return false, [];
      }
      expired := timers[..end];
      timers := timers[end..];
    }

    method HandleEvent(now: int) returns (ok: bool)
      modifies this
      ensures ok == !Aborts(old(Value()), now)
      ensures Value() == if ok then Handle(old(Value()), now) else old(Value())
    {
      var expired;
      ok, expired := GetExpired(now);
      if !ok {
        return;
      }
      if expired == [] {
        stopped := true;
      }
      ghost var before := ran;
      for k := 0 to |expired|
        invariant ran == before + At(expired[..k], now)
        invariant timers == old(timers)[LowerBound(old(timers), now)..] && stopped == (old(stopped) || expired == [])
      {
        assert At(expired[..k + 1], now) == At(expired[..k], now) + [(expired[k], now)];
        ran := ran + [(expired[k], now)];
      }
      assert expired[..|expired|] == expired;
      Reset(expired, now);
    }

    /** Puts the repeating timers back, and stops when there are none left. */
    method Reset(expired: seq<Timer>, now: int)
      modifies this`timers, this`stopped
      ensures timers == Restart(old(timers), expired, now) && stopped == (old(stopped) || timers == [])
    {
      ghost var all := Restart(timers, expired, now);
      for k := 0 to |expired|
        invariant all == Restart(timers, expired[k..], now) && stopped == old(stopped)
      {
        RestartFirst(timers, expired, k, now);
        if expired[k].interval > 0 {
          Insert(expired[k].(when := now + expired[k].interval));
        }
      }
      if timers == [] {
        stopped := true;
      }
    }

    /** The event loop over the times at which the timer fires. */
    method Loop(nows: seq<int>)
      modifies this
      ensures Value() == Run(old(Value()), nows)
    {
      ghost var all := Run(Value(), nows);
      var k, ok := 0, true;
      assert nows[0..] == nows;
      while k < |nows| && !stopped && ok
        invariant 0 <= k <= |nows|
        invariant all == if ok then Run(Value(), nows[k..]) else Value()
      {
        Sequences.Cut(nows, k);
        ok := HandleEvent(nows[k]);
        k := k + 1;
      }
    }
  }

  /**
   Playing a view: the messages that have been played and those that are left are the view's, so each
   is played at most once, and the time of each place is the view's, shifted.
   */
  method Play(view: seq<Record>, diff: int, addresses: seq<nat>, nows: seq<int>)
    returns (ran: seq<(Timer, int)>, left: seq<Timer>)
    requires |addresses| == |view| && DistinctAddresses(addresses) && Sorted(view)
    ensures multiset(Records(Played(ran)) + Records(left)) == multiset(view) && InTime(ran)
    ensures Played(ran) + left == Loaded(view, diff, addresses)
    ensures ShiftedTimes(ran, view, diff)
  {
    var queue := new TimerQueue();
    queue.Load(view, diff, addresses);
    AllOneShot(view, diff, addresses);
    LoadedShifts(view, diff, addresses);
    EveryRun(queue.Value(), nows);
    queue.Loop(nows);
    ran, left := queue.ran, queue.timers;
    NothingPlayed(Loaded(view, diff, addresses));
    PlayedTimes(view, diff, addresses, ran, left, Loaded(view, diff, addresses));
    PlayedRecords(view, diff, addresses, Played(ran), left);
  }

  lemma PlayedRecords(view: seq<Record>, diff: int, addresses: seq<nat>, played: seq<Timer>, left: seq<Timer>)
    requires |addresses| == |view| && played + left == Loaded(view, diff, addresses)
    ensures multiset(Records(played) + Records(left)) == multiset(view)
  {
    LoadedRecords(view, diff, addresses);
    RecordsSum(played, left);
  }

  lemma PlayedTimes(view: seq<Record>, diff: int, addresses: seq<nat>, ran: seq<(Timer, int)>, left: seq<Timer>, all: seq<Timer>)
    requires |addresses| == |view| && DistinctAddresses(addresses) && Sorted(view)
    requires all == Loaded(view, diff, addresses) && Played(ran) + left == all
    ensures ShiftedTimes(ran, view, diff)
  {
    PlayedPrefix(ran, left, all);
    LoadedShifts(view, diff, addresses);
    TimesOf(ran, view, diff, all);
  }

  /** The times at which the callbacks have been due are the first of the view, all shifted alike. */
  ghost predicate ShiftedTimes(ran: seq<(Timer, int)>, view: seq<Record>, diff: int) {
    |ran| <= |view| && forall i :: 0 <= i < |ran| ==> ran[i].0.when == view[i].time + diff
  }

  lemma TimesOf(ran: seq<(Timer, int)>, view: seq<Record>, diff: int, all: seq<Timer>)
    requires |ran| <= |all| == |view| && forall i :: 0 <= i < |ran| ==> ran[i].0 == all[i]
    requires forall i :: 0 <= i < |all| ==> all[i].when == view[i].time + diff
    ensures ShiftedTimes(ran, view, diff)
  {
  }

  lemma RecordsSum(a: seq<Timer>, b: seq<Timer>)
    ensures Records(a + b) == Records(a) + Records(b)
  {
  }

  lemma AllOneShot(view: seq<Record>, diff: int, addresses: seq<nat>)
    requires |addresses| == |view|
    ensures OneShot(Loaded(view, diff, addresses))
  {
    LoadedHolds(view, diff, addresses);
  }

  lemma NothingPlayed(all: seq<Timer>)
    ensures Played([]) + all == all
  {
  }

  lemma PlayedPrefix(ran: seq<(Timer, int)>, left: seq<Timer>, all: seq<Timer>)
    requires Played(ran) + left == all
    ensures |ran| <= |all| && forall i :: 0 <= i < |ran| ==> ran[i].0 == all[i]
  {
    assert forall i :: 0 <= i < |ran| ==> (Played(ran) + left)[i] == ran[i].0;
  }
}
