/** A view of several bags: the messages of the topics asked for, in the order of their times. */
module Views {
  import opened ByteCodec
  import opened Timeline
  import Sequences

  /** The records whose topic a query accepts. */
  function Matching(rs: seq<Record>, query: Bytes -> bool): seq<Record> {
    if rs == [] then [] else (if query(rs[0].topic) then [rs[0]] else []) + Matching(rs[1..], query)
  }

  /** The matching records of one bag after the other. */
  function AllMatching(bags: seq<seq<Record>>, query: Bytes -> bool): seq<Record> {
    if bags == [] then [] else AllMatching(bags[..|bags| - 1], query) + Matching(bags[|bags| - 1], query)
  }

  class View {
    var filteringRecords: seq<Record>

    constructor ()
      ensures filteringRecords == []
    {
      filteringRecords := [];
    }

    /** Inserts the matching records of one bag. */
    method UpdateQueries(records: seq<Record>, query: Bytes -> bool)
      modifies this
      ensures filteringRecords == InsertAll(old(filteringRecords), Matching(records, query))
    {
      ghost var all := InsertAll(filteringRecords, Matching(records, query));
      for k := 0 to |records|
        invariant all == InsertAll(filteringRecords, Matching(records[k..], query))
      {
        Sequences.Cut(records, k);
        InsertFirstMatch(filteringRecords, records[k..], query);
        if query(records[k].topic) {
          filteringRecords := Insert(filteringRecords, records[k]);
        }
      }
    }

    /** One query for all bags of a player. */
    method AddQueries(bags: seq<seq<Record>>, query: Bytes -> bool)
      requires filteringRecords == []
      modifies this
      ensures filteringRecords == InsertAll([], AllMatching(bags, query))
    {
      for k := 0 to |bags|
        invariant filteringRecords == InsertAll([], AllMatching(bags[..k], query))
      {
        assert bags[..k + 1][..k] == bags[..k];
        InsertAllSum([], AllMatching(bags[..k], query), Matching(bags[k], query));
        UpdateQueries(bags[k], query);
      }
      assert bags[..|bags|] == bags;
    }
  }

  lemma InsertFirstMatch(s: seq<Record>, rs: seq<Record>, query: Bytes -> bool)
    requires rs != []
    ensures InsertAll(s, Matching(rs, query)) ==
      InsertAll(if query(rs[0].topic) then Insert(s, rs[0]) else s, Matching(rs[1..], query))
  {
    var rest := Matching(rs[1..], query);
    assert ([rs[0]] + rest)[1..] == rest;
    assert [] + rest == rest;
  }

  lemma {:induction false} MatchingInstant(rs: seq<Record>, query: Bytes -> bool, time: int)
    ensures Instant(Matching(rs, query), time) == Matching(Instant(rs, time), query)
  {
    if rs != [] {
      var init, x := rs[..|rs| - 1], rs[|rs| - 1];
      MatchingInstant(init, query, time);
      MatchingInstantPush(init, x, query, time);
      assert rs == init + [x];
    }
  }

  lemma MatchingInstantPush(rs: seq<Record>, x: Record, query: Bytes -> bool, time: int)
    requires Instant(Matching(rs, query), time) == Matching(Instant(rs, time), query)
    ensures Instant(Matching(rs + [x], query), time) == Matching(Instant(rs + [x], time), query)
  {
    MatchingPush(rs, x, query);
    MatchingPush(Instant(rs, time), x, query);
    InstantPush(Matching(rs, query), x, time);
    InstantPush(rs, x, time);
  }

  lemma MatchingPush(rs: seq<Record>, x: Record, query: Bytes -> bool)
    ensures Matching(rs + [x], query) == if query(x.topic) then Matching(rs, query) + [x] else Matching(rs, query)
  {
    MatchingSum(rs, [x], query);
    assert [x][1..] == [] && Matching(rs, query) + [] == Matching(rs, query);
  }

  lemma {:induction false} MatchingSum(a: seq<Record>, b: seq<Record>, query: Bytes -> bool)
    ensures Matching(a + b, query) == Matching(a, query) + Matching(b, query)
  {
    if a == [] {
      assert a + b == b;
    } else {
      Sequences.Front(a, b);
      MatchingSum(a[1..], b, query);
      Sequences.Assoc(if query(a[0].topic) then [a[0]] else [], Matching(a[1..], query), Matching(b, query));
    }
  }

  /** A query keeps every occurrence of a record that it accepts, and nothing else. */
  lemma {:induction false} MatchingCounts(rs: seq<Record>, query: Bytes -> bool, r: Record)
    ensures multiset(Matching(rs, query))[r] == if query(r.topic) then multiset(rs)[r] else 0
  {
    if rs != [] {
      MatchingCounts(rs[1..], query, r);
      Sequences.Cut(rs, 1);
    }
  }

  /** What the bags hold for one instant, one bag after the other. */
  function InstantOfAll(bags: seq<seq<Record>>, query: Bytes -> bool, time: int): seq<Record> {
    if bags == [] then []
    else InstantOfAll(bags[..|bags| - 1], query, time) + Matching(Instant(bags[|bags| - 1], time), query)
  }

  lemma {:induction false} AllMatchingInstant(bags: seq<seq<Record>>, query: Bytes -> bool, time: int)
    ensures Instant(AllMatching(bags, query), time) == InstantOfAll(bags, query, time)
  {
    if bags != [] {
      var init, last := bags[..|bags| - 1], bags[|bags| - 1];
      AllMatchingInstant(init, query, time);
      InstantSum(AllMatching(init, query), Matching(last, query), time);
      MatchingInstant(last, query, time);
    }
  }

  /**
   A view is the stable merge of its bags: sorted by time, and at each instant the matching
   records of the first bag, then those of the second and so on, each in its own order.
   */
  lemma ViewIsStableMerge(bags: seq<seq<Record>>, query: Bytes -> bool, time: int)
    ensures var view := InsertAll([], AllMatching(bags, query));
      Sorted(view) && Instant(view, time) == InstantOfAll(bags, query, time)
  {
    InsertAllIsStableSort([], AllMatching(bags, query), time);
    AllMatchingInstant(bags, query, time);
    assert [] + AllMatching(bags, query) == AllMatching(bags, query);
  }

  /** And it is the only sequence of that kind. */
  lemma ViewIsUnique(bags: seq<seq<Record>>, query: Bytes -> bool, s: seq<Record>)
    requires Sorted(s) && forall time :: Instant(s, time) == InstantOfAll(bags, query, time)
    ensures s == InsertAll([], AllMatching(bags, query))
  {
    forall time ensures Instant(s, time) == Instant(AllMatching(bags, query), time) {
      AllMatchingInstant(bags, query, time);
      assert Instant(s, time) == InstantOfAll(bags, query, time);
    }
    StableSortIsUnique(AllMatching(bags, query), s);
  }
}
