/** The ring buffer below the multi-producer multi-consumer queue of spdlog. */
module CircularQueue {

  /** What pushing means for the contents: a full queue of capacity cap drops its oldest item. */
  function Pushed<T>(q: seq<T>, cap: nat, x: T): (r: seq<T>)
    ensures |q| <= cap ==> |r| <= cap
  {
    if |q| < cap then q + [x] else (q + [x])[1..]
  }

  /** What is left are the newest items, as many as there is room for. */
  lemma PushedIsNewest<T>(q: seq<T>, cap: nat, x: T, all: seq<T>)
    requires |q| <= cap && all == q + [x]
    ensures |Pushed(q, cap, x)| == if |all| <= cap then |all| else cap
    ensures Pushed(q, cap, x) == all[|all| - |Pushed(q, cap, x)|..]
  {
  }

  /** The next cell of a ring of n cells. */
  function Next(i: nat, n: nat): (r: nat)
    requires i < n
    ensures r == if i + 1 == n then 0 else i + 1
  {
    if i + 1 < n then SmallMod(i + 1, n); (i + 1) % n else (i + 1) % n
  }

  lemma SmallMod(a: nat, n: nat)
    requires a < n
    ensures a % n == a
  {
  }

  class CircularQ<T(0)> {
    const maxItems: nat
    var head: nat
    var tail: nat
    const v: array<T>
    var overrunCounter: nat

    ghost predicate Valid()
      reads this
    {
      v.Length == maxItems && head < maxItems && tail < maxItems
    }

    ghost function Contents(): (q: seq<T>)
      requires Valid()
      reads this, v
      ensures |q| < maxItems
    {
      if head <= tail then v[head..tail] else v[head..] + v[..tail]
    }

    /** One cell is reserved to tell a full queue from an empty one. */
    constructor (maxItems: nat)
      ensures Valid() && fresh(v) && this.maxItems == maxItems + 1
      ensures Contents() == [] && overrunCounter == 0
    {
      this.maxItems := maxItems + 1;
      head, tail, overrunCounter := 0, 0, 0;
      v := new T[maxItems + 1];
    }

    method PushBack(item: T)
      requires Valid()
      modifies this, v
      ensures Valid()
      ensures Contents() == Pushed(old(Contents()), maxItems - 1, item)
      ensures overrunCounter == old(overrunCounter) + if old(|Contents()|) == maxItems - 1 then 1 else 0
    {
      ghost var q, h, t := Contents(), head, tail;
      v[tail] := item;
      tail := Next(tail, maxItems);
      if tail == head {
        head := Next(head, maxItems);
        overrunCounter := overrunCounter + 1;
        if h < t {
          assert q + [item] == v[..];
        } else if h == t {
          assert q + [item] == v[..];
        } else {
          assert q + [item] == v[h..] + v[..h];
          assert (v[h..] + v[..h])[1..] == v[h + 1..] + v[..h];
        }
      } else if h <= t {
        assert q + [item] == v[h..t + 1];
      } else {
        assert q + [item] == v[h..] + v[..t + 1];
      }
    }

    /** The source leaves popping an empty queue undefined. */
    method PopFront() returns (item: T)
      requires Valid() && |Contents()| > 0
      modifies this`head
      ensures Valid()
      ensures [item] + Contents() == old(Contents())
    {
      item := v[head];
      head := Next(head, maxItems);
    }

    predicate Empty()
      requires Valid()
      reads this, v
      ensures Empty() <==> Contents() == []
    {
      tail == head
    }

    predicate Full()
      requires Valid()
      reads this, v
      ensures Full() <==> |Contents()| == maxItems - 1
    {
      Next(tail, maxItems) == head
    }
  }
}
