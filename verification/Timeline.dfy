/** Records kept in a multimap from time stamps: sorted by time, and in insertion order among equals. */
module Timeline {
  import opened ByteCodec
  import Sequences

  datatype Record = Record(time: int, topic: Bytes, msg: Bytes)

  /** Insertion into a multimap: after every record that is not later. */
  function Insert(s: seq<Record>, r: Record): seq<Record> {
    if s == [] then [r]
    else if s[|s| - 1].time <= r.time then s + [r]
    else Insert(s[..|s| - 1], r) + [s[|s| - 1]]
  }

  function InsertAll(s: seq<Record>, rs: seq<Record>): seq<Record>
    decreases |rs|
  {
    if rs == [] then s else InsertAll(Insert(s, rs[0]), rs[1..])
  }

  ghost predicate Sorted(s: seq<Record>) {
    forall i, j :: 0 <= i < j < |s| ==> s[i].time <= s[j].time
  }

  /** The records of one instant, in order. */
  function Instant(s: seq<Record>, time: int): seq<Record> {
    if s == [] then []
    else Instant(s[..|s| - 1], time) + if s[|s| - 1].time == time then [s[|s| - 1]] else []
  }

  lemma {:induction false} InsertSorts(s: seq<Record>, r: Record)
    requires Sorted(s)
    ensures Sorted(Insert(s, r)) && |Insert(s, r)| == |s| + 1
    ensures forall x :: x in Insert(s, r) <==> x == r || x in s
  {
    if s != [] && s[|s| - 1].time > r.time {
      var init, last := s[..|s| - 1], s[|s| - 1];
      InsertSorts(init, r);
      assert s == init + [last];
      assert forall x :: x in init ==> x.time <= last.time;
    }
  }

  lemma {:induction false} InstantSum(a: seq<Record>, b: seq<Record>, time: int)
    ensures Instant(a + b, time) == Instant(a, time) + Instant(b, time)
  {
    if b == [] {
      assert a + b == a;
    } else {
      assert (a + b)[..|a + b| - 1] == a + b[..|b| - 1];
      InstantSum(a, b[..|b| - 1], time);
    }
  }

  lemma InstantPush(rs: seq<Record>, x: Record, time: int)
    ensures Instant(rs + [x], time) == if x.time == time then Instant(rs, time) + [x] else Instant(rs, time)
  {
    assert (rs + [x])[..|rs|] == rs;
  }

  lemma {:induction false} InsertIsStable(s: seq<Record>, r: Record, time: int)
    requires Sorted(s)
    ensures Instant(Insert(s, r), time) == Instant(s + [r], time)
  {
    if s != [] && s[|s| - 1].time > r.time {
      var init, last := s[..|s| - 1], s[|s| - 1];
      InsertIsStable(init, r, time);
      InstantPush(init, r, time);
      InstantPush(Insert(init, r), last, time);
      InstantPush(s, r, time);
    }
  }

  lemma InsertFirstIsStable(s: seq<Record>, rs: seq<Record>, time: int)
    requires Sorted(s) && rs != []
    ensures Instant(Insert(s, rs[0]) + rs[1..], time) == Instant(s + rs, time)
  {
    var r, rest := rs[0], rs[1..];
    InsertIsStable(s, r, time);
    InstantSum(Insert(s, r), rest, time);
    InstantSum(s + [r], rest, time);
    Sequences.Move(s, rs);
  }

  /** A multimap filled in any order is the stable sort of what was inserted. */
  lemma {:induction false} InsertAllIsStableSort(s: seq<Record>, rs: seq<Record>, time: int)
    requires Sorted(s)
    ensures Sorted(InsertAll(s, rs)) && |InsertAll(s, rs)| == |s| + |rs|
    ensures Instant(InsertAll(s, rs), time) == Instant(s + rs, time)
    decreases |rs|
  {
    if rs == [] {
      assert s + rs == s;
    } else {
      InsertSorts(s, rs[0]);
      InsertAllIsStableSort(Insert(s, rs[0]), rs[1..], time);
      InsertFirstIsStable(s, rs, time);
    }
  }

  lemma {:induction false} InsertAllSum(s: seq<Record>, a: seq<Record>, b: seq<Record>)
    ensures InsertAll(s, a + b) == InsertAll(InsertAll(s, a), b)
    decreases |a|
  {
    if a == [] {
      assert a + b == b;
    } else {
      assert (a + b)[1..] == a[1..] + b;
      InsertAllSum(Insert(s, a[0]), a[1..], b);
    }
  }

  lemma {:induction false} InstantIsInside(s: seq<Record>, time: int)
    requires Instant(s, time) != []
    ensures exists i :: 0 <= i < |s| && s[i].time == time
  {
    if s[|s| - 1].time != time {
      InstantIsInside(s[..|s| - 1], time);
      var i :| 0 <= i < |s| - 1 && s[..|s| - 1][i].time == time;
      assert s[i].time == time;
    }
  }

  /** A sorted sequence is determined by the records of each instant. */
  lemma {:induction false} InstantsDetermine(a: seq<Record>, b: seq<Record>)
    requires Sorted(a) && Sorted(b)
    requires forall time :: Instant(a, time) == Instant(b, time)
    ensures a == b
  {
    if a != [] && b != [] {
      var a', b', x, y := a[..|a| - 1], b[..|b| - 1], a[|a| - 1], b[|b| - 1];
      LastIsLatest(a, b);
      LastIsLatest(b, a);
      forall time
        ensures Instant(a', time) == Instant(b', time) && (time == x.time ==> x == y)
      {
        assert Instant(a, time) == Instant(b, time);
        LastOfSum(Instant(a', time), Instant(b', time), x, y);
      }
      InstantsDetermine(a', b');
      assert Instant(a', x.time) == Instant(b', x.time);
      assert a == a' + [x] && b == b' + [y];
    } else if a == [] {
      EmptyToo(a, b);
    } else {
      EmptyToo(b, a);
    }
  }

  lemma EmptyToo(a: seq<Record>, b: seq<Record>)
    requires a == [] && forall time :: Instant(a, time) == Instant(b, time)
    ensures b == []
  {
    var time := if b == [] then 0 else b[|b| - 1].time;
    assert Instant(a, time) == Instant(b, time);
  }

  lemma LastOfSum(a: seq<Record>, b: seq<Record>, x: Record, y: Record)
    ensures a + [x] == b + [y] ==> a == b && x == y
    ensures a + [] == a && b + [] == b
  {
    assert (a + [x])[..|a|] == a && (b + [y])[..|b|] == b;
    assert (a + [x])[|a|] == x && (b + [y])[|b|] == y;
  }

  lemma LastIsLatest(a: seq<Record>, b: seq<Record>)
    requires Sorted(a) && a != [] && b != []
    requires forall time :: Instant(a, time) == Instant(b, time)
    ensures b[|b| - 1].time <= a[|a| - 1].time
  {
    var time := b[|b| - 1].time;
    assert Instant(a, time) == Instant(b, time);
    InstantIsInside(a, time);
  }

  /** So the multimap holds the only stable sort there is. */
  lemma StableSortIsUnique(rs: seq<Record>, s: seq<Record>)
    requires Sorted(s) && forall time :: Instant(s, time) == Instant(rs, time)
    ensures s == InsertAll([], rs)
  {
    forall time ensures Instant(InsertAll([], rs), time) == Instant(s, time) {
      InsertAllIsStableSort([], rs, time);
      assert [] + rs == rs;
    }
    InsertAllIsStableSort([], rs, 0);
    InstantsDetermine(s, InsertAll([], rs));
  }
}
