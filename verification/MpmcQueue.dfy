/**
 The blocking queue of spdlog as a step system. A critical section is one step; the
 notification after it, outside the lock, is another. Between the two any other thread may run.
 */
module MpmcQueue {
  import opened Counting
  import CircularQueue

  type Tid = nat

  /** Where a thread is: in front of the queue, asleep on a condition variable, or past its lock. */
  datatype Pc<T> =
    | Outside
    | PushAsleep(item: T)
    | PushAwake(item: T, notified: bool)
    | MustNotifyPush
    | PopAsleep
    | PopAwake(notified: bool, timedOut: bool)
    | MustNotifyPop(index: nat)
    | Returned(index: nat)

  /**
   Every item ever pushed, in order, of which the first head have left the queue again:
   overrun (dropped), handed to a caller that has finished with them (delivered), or held.
   */
  datatype State<T> = State(cap: nat, log: seq<T>, head: nat, dropped: set<nat>, delivered: set<nat>, pcs: map<Tid, Pc<T>>)

  function Contents<T>(s: State<T>): seq<T>
    requires s.head <= |s.log|
  {
    s.log[s.head..]
  }

  function Size<T>(s: State<T>): int {
    |s.log| - s.head
  }

  datatype Step<T> =
    | Enqueue(t: Tid, item: T)
    | EnqueueNowait(t: Tid, item: T)
    | RetryPush(t: Tid)
    | WakePush(t: Tid)
    | NotifyPush(t: Tid, waiter: Tid)
    | NotifyPushNobody(t: Tid)
    | Dequeue(t: Tid)
    | RetryPop(t: Tid)
    | WakePop(t: Tid)
    | TimeOut(t: Tid)
    | NotifyPop(t: Tid, waiter: Tid)
    | NotifyPopNobody(t: Tid)
    | Leave(t: Tid)

  ghost predicate Enabled<T(!new)>(s: State<T>, step: Step<T>) {
    step.t in s.pcs &&
    var pc := s.pcs[step.t];
    match step
    case Enqueue(_, _) => pc.Outside?
    case EnqueueNowait(_, _) => pc.Outside?
    case RetryPush(_) => pc.PushAwake?
    case WakePush(_) => pc.PushAsleep?
    case NotifyPush(_, w) => pc.MustNotifyPush? && w in s.pcs && s.pcs[w].PopAsleep?
    case NotifyPushNobody(_) => pc.MustNotifyPush? && forall w :: w in s.pcs ==> !s.pcs[w].PopAsleep?
    case Dequeue(_) => pc.Outside?
    case RetryPop(_) => pc.PopAwake?
    case WakePop(_) => pc.PopAsleep?
    case TimeOut(_) => pc.PopAsleep? || pc.PopAwake?
    case NotifyPop(_, w) => pc.MustNotifyPop? && w in s.pcs && s.pcs[w].PushAsleep?
    case NotifyPopNobody(_) => pc.MustNotifyPop? && forall w :: w in s.pcs ==> !s.pcs[w].PushAsleep?
    case Leave(_) => pc.Returned?
  }

  function At<T>(s: State<T>, t: Tid, pc: Pc<T>): State<T> {
    s.(pcs := s.pcs[t := pc])
  }

  /** push_back under the lock: a full queue loses its oldest item. */
  function PushBack<T>(s: State<T>, item: T): State<T> {
    if Size(s) >= s.cap then
      s.(log := s.log + [item], head := s.head + 1, dropped := s.dropped + {s.head})
    else
      s.(log := s.log + [item])
  }

  /** The critical section of enqueue: wait while the queue is full, then push. */
  function PushOrSleep<T>(s: State<T>, t: Tid, item: T): State<T> {
    if Size(s) >= s.cap then At(s, t, PushAsleep(item)) else At(PushBack(s, item), t, MustNotifyPush)
  }

  /** The critical section of dequeue_for: wait while the queue is empty, then pop. */
  function PopOrSleep<T>(s: State<T>, t: Tid, otherwise: Pc<T>): State<T> {
    if Size(s) <= 0 then At(s, t, otherwise)
    else At(s.(head := s.head + 1), t, MustNotifyPop(s.head))
  }

  ghost function Apply<T(!new)>(s: State<T>, step: Step<T>): State<T>
    requires Enabled(s, step)
  {
    var t := step.t;
    var pc := s.pcs[t];
    match step
    case Enqueue(_, item) => PushOrSleep(s, t, item)
    case EnqueueNowait(_, item) => At(PushBack(s, item), t, MustNotifyPush)
    case RetryPush(_) => PushOrSleep(s, t, pc.item)
    case WakePush(_) => At(s, t, PushAwake(pc.item, false))
    case NotifyPush(_, w) => At(At(s, w, PopAwake(true, false)), t, Outside)
    case NotifyPushNobody(_) => At(s, t, Outside)
    case Dequeue(_) => PopOrSleep(s, t, PopAsleep)
    case RetryPop(_) => PopOrSleep(s, t, if pc.timedOut then Outside else PopAsleep)
    case WakePop(_) => At(s, t, PopAwake(false, false))
    case TimeOut(_) => At(s, t, PopAwake(pc.PopAwake? && pc.notified, true))
    case NotifyPop(_, w) => At(At(s, w, PushAwake(s.pcs[w].item, true)), t, Returned(pc.index))
    case NotifyPopNobody(_) => At(s, t, Returned(pc.index))
    case Leave(_) => At(s, t, Outside).(delivered := s.delivered + {pc.index})
  }

  ghost predicate Init<T(!new)>(s: State<T>) {
    && s.log == [] && s.head == 0 && s.dropped == {} && s.delivered == {}
    && forall t :: t in s.pcs ==> s.pcs[t] == Outside
  }

  /** s2 is reached from s by the steps, each of them enabled when it is taken. */
  ghost predicate Run<T(!new)>(s: State<T>, steps: seq<Step<T>>, s2: State<T>)
    decreases |steps|
  {
    if steps == [] then s == s2
    else Enabled(s, steps[0]) && Run(Apply(s, steps[0]), steps[1..], s2)
  }

  // ----- counting threads -----

  datatype Kind = PushSleeper | PushNotified | PushNotifier | PopSleeper | PopNotified | PopNotifier | Neither

  function KindOf<T>(pc: Pc<T>): Kind {
    match pc
    case PushAsleep(_) => PushSleeper
    case PushAwake(_, notified) => if notified then PushNotified else Neither
    case MustNotifyPush => PushNotifier
    case PopAsleep => PopSleeper
    case PopAwake(notified, _) => if notified then PopNotified else Neither
    case MustNotifyPop(_) => PopNotifier
    case _ => Neither
  }

  ghost function Having<T>(pcs: map<Tid, Pc<T>>, k: Kind): set<Tid> {
    set t | t in pcs && KindOf(pcs[t]) == k
  }

  ghost function Count<T>(s: State<T>, k: Kind): nat {
    |Having(s.pcs, k)|
  }

  /** Moving one thread changes only the counts of the kind it leaves and the kind it joins. */
  lemma CountMove<T>(s: State<T>, t: Tid, pc: Pc<T>, k: Kind)
    requires t in s.pcs
    ensures Count(At(s, t, pc), k) == Count(s, k) - One(KindOf(s.pcs[t]) == k) + One(KindOf(pc) == k)
  {
    var before := Having(s.pcs, k);
    SizeWith(before, t);
    SizeWithout(before, t);
    if KindOf(pc) == k {
      assert Having(s.pcs[t := pc], k) == before + {t};
    } else {
      assert Having(s.pcs[t := pc], k) == before - {t};
    }
  }

  // ----- the invariants -----

  /** No wake-up is lost: a sleeper is outnumbered by wake-ups for every item or slot it could use. */
  ghost predicate WakeUps<T>(s: State<T>) {
    && (Count(s, PushSleeper) > 0 ==> Count(s, PushNotified) + Count(s, PopNotifier) >= s.cap - Size(s))
    && (Count(s, PopSleeper) > 0 ==> Count(s, PopNotified) + Count(s, PushNotifier) >= Size(s))
  }

  ghost predicate Bounded<T>(s: State<T>) {
    0 <= Size(s) <= s.cap
  }

  ghost predicate Holds<T>(pc: Pc<T>, i: nat) {
    (pc.MustNotifyPop? || pc.Returned?) && pc.index == i
  }

  /** The items in no thread's hands lie outside the queue and were dropped or delivered, not both. */
  ghost predicate Settled<T>(s: State<T>) {
    s.dropped !! s.delivered && forall i :: i in s.dropped || i in s.delivered ==> 0 <= i < s.head
  }

  /** A thread only holds an item that has left the queue and is not settled. */
  ghost predicate HeldOnly<T>(s: State<T>) {
    forall t, i: nat :: t in s.pcs && Holds(s.pcs[t], i) ==> HeldFacts(s, i)
  }

  ghost predicate HeldFacts<T>(s: State<T>, i: nat) {
    i < s.head && i !in s.dropped && i !in s.delivered
  }

  ghost predicate OneHolder<T>(s: State<T>) {
    forall t, u, i: nat :: t in s.pcs && u in s.pcs && Holds(s.pcs[t], i) && Holds(s.pcs[u], i) ==> t == u
  }

  ghost predicate NoneLost<T>(s: State<T>) {
    forall i: nat :: HeldFacts(s, i) ==> exists t :: t in s.pcs && Holds(s.pcs[t], i)
  }

  /** Every item that left the queue was dropped, was delivered, or is held by exactly one thread. */
  ghost predicate Accounted<T>(s: State<T>) {
    Settled(s) && HeldOnly(s) && OneHolder(s) && NoneLost(s)
  }

  ghost predicate Inv<T>(s: State<T>) {
    Bounded(s) && WakeUps(s) && Accounted(s)
  }

  /** The wake-up inequalities survive every move of one thread that respects its lock discipline. */
  lemma MoveKeepsWakeUps<T>(s: State<T>, s2: State<T>, t: Tid)
    requires WakeUps(s) && t in s.pcs && t in s2.pcs && s2.pcs == s.pcs[t := s2.pcs[t]] && s2.cap == s.cap
    requires MoveAllowed(KindOf(s.pcs[t]), KindOf(s2.pcs[t]), Size(s), Size(s2), s.cap)
    ensures WakeUps(s2)
  {
    var pc := s2.pcs[t];
    CountMove(s, t, pc, PushSleeper);
    CountMove(s, t, pc, PushNotified);
    CountMove(s, t, pc, PushNotifier);
    CountMove(s, t, pc, PopSleeper);
    CountMove(s, t, pc, PopNotified);
    CountMove(s, t, pc, PopNotifier);
  }

  /**
   A thread falls asleep only when its condition fails; a notified thread either uses its slot
   or item or finds none; whoever adds an item or a slot goes on to notify.
   */
  predicate MoveAllowed(from: Kind, to: Kind, size: int, size2: int, cap: int) {
    && (from == PushNotifier || from == PopNotifier ==> false)
    && (to == PushSleeper ==> size2 >= cap)
    && (to == PopSleeper ==> size2 <= 0)
    && (size2 > size ==> size2 == size + 1 && to == PushNotifier)
    && (size2 < size ==> size2 == size - 1 && to == PopNotifier)
    && (from == PushNotified ==> size2 == size + 1 || size2 >= cap || to == PushNotified)
    && (from == PopNotified ==> size2 == size - 1 || size2 <= 0 || to == PopNotified)
  }

  lemma NobodyAsleep<T>(s: State<T>, k: Kind)
    requires forall w :: w in s.pcs ==> KindOf(s.pcs[w]) != k
    ensures Count(s, k) == 0
  {
    assert Having(s.pcs, k) == {};
  }

  /** A notification takes one thread out of the notifiers and, if anybody sleeps, wakes one. */
  lemma NotificationKeepsWakeUps<T(!new)>(s: State<T>, step: Step<T>)
    requires WakeUps(s) && Enabled(s, step)
    requires step.NotifyPush? || step.NotifyPop? || step.NotifyPushNobody? || step.NotifyPopNobody?
    ensures WakeUps(Apply(s, step))
  {
    var t := step.t;
    match step {
      case NotifyPush(_, w) =>
        TwoMoves(s, w, PopAwake(true, false), t, Outside);
      case NotifyPop(_, w) =>
        TwoMoves(s, w, PushAwake(s.pcs[w].item, true), t, Returned(s.pcs[t].index));
      case NotifyPushNobody(_) =>
        NobodyAsleep(s, PopSleeper);
        OneMove(s, t, Outside);
      case NotifyPopNobody(_) =>
        NobodyAsleep(s, PushSleeper);
        OneMove(s, t, Returned(s.pcs[t].index));
    }
  }

  lemma OneMove<T>(s: State<T>, t: Tid, pc: Pc<T>)
    requires t in s.pcs && KindOf(pc) == Neither
    ensures forall k :: k != KindOf(s.pcs[t]) && k != Neither ==> Count(At(s, t, pc), k) == Count(s, k)
    ensures KindOf(s.pcs[t]) != Neither ==> Count(At(s, t, pc), KindOf(s.pcs[t])) == Count(s, KindOf(s.pcs[t])) - 1
  {
    forall k | k != Neither
      ensures Count(At(s, t, pc), k) == Count(s, k) - One(KindOf(s.pcs[t]) == k)
    {
      CountMove(s, t, pc, k);
    }
  }

  lemma TwoMoves<T>(s: State<T>, w: Tid, pcw: Pc<T>, t: Tid, pc: Pc<T>)
    requires w in s.pcs && t in s.pcs && w != t && KindOf(pc) == Neither
    ensures var s2 := At(At(s, w, pcw), t, pc);
      forall k :: k != Neither ==>
        Count(s2, k) ==
        Count(s, k) - One(KindOf(s.pcs[w]) == k) + One(KindOf(pcw) == k) - One(KindOf(s.pcs[t]) == k)
  {
    var s2 := At(At(s, w, pcw), t, pc);
    forall k | k != Neither
      ensures Count(s2, k) ==
        Count(s, k) - One(KindOf(s.pcs[w]) == k) + One(KindOf(pcw) == k) - One(KindOf(s.pcs[t]) == k)
    {
      CountMove(s, w, pcw, k);
      CountMove(At(s, w, pcw), t, pc, k);
    }
  }

  lemma StepKeepsWakeUps<T(!new)>(s: State<T>, step: Step<T>)
    requires Bounded(s) && WakeUps(s) && Enabled(s, step)
    ensures WakeUps(Apply(s, step))
  {
    match step {
      case NotifyPush(_, _) => NotificationKeepsWakeUps(s, step);
      case NotifyPop(_, _) => NotificationKeepsWakeUps(s, step);
      case NotifyPushNobody(_) => NotificationKeepsWakeUps(s, step);
      case NotifyPopNobody(_) => NotificationKeepsWakeUps(s, step);
      case _ => MoveKeepsWakeUps(s, Apply(s, step), step.t);
    }
  }

  /** Moves that neither take an item up nor put one down. */
  ghost predicate SameHolder<T>(a: Pc<T>, b: Pc<T>) {
    forall i: nat :: Holds(a, i) <==> Holds(b, i)
  }

  lemma QuietMoveKeepsAccounts<T>(s: State<T>, t: Tid, pc: Pc<T>)
    requires Accounted(s) && t in s.pcs && SameHolder(s.pcs[t], pc)
    ensures Accounted(At(s, t, pc))
  {
    var s2 := At(s, t, pc);
    forall i: nat | HeldFacts(s2, i)
      ensures exists u :: u in s2.pcs && Holds(s2.pcs[u], i)
    {
      assert HeldFacts(s, i);
      var u :| u in s.pcs && Holds(s.pcs[u], i);
      assert Holds(s2.pcs[u], i);
    }
    forall u, i: nat | u in s2.pcs && Holds(s2.pcs[u], i)
      ensures HeldFacts(s2, i)
    {
      assert Holds(s.pcs[u], i);
      assert HeldFacts(s, i);
    }
  }

  /** Popping: the oldest item passes from the queue to the thread. */
  lemma PopKeepsAccounts<T>(s: State<T>, t: Tid)
    requires Accounted(s) && Size(s) > 0 && t in s.pcs && forall i: nat :: !Holds(s.pcs[t], i)
    ensures Accounted(At(s.(head := s.head + 1), t, MustNotifyPop(s.head)))
  {
    var s2 := At(s.(head := s.head + 1), t, MustNotifyPop(s.head));
    assert Settled(s2);
    forall i: nat | HeldFacts(s2, i)
      ensures exists u :: u in s2.pcs && Holds(s2.pcs[u], i)
    {
      if i == s.head {
        assert Holds(s2.pcs[t], i);
      } else {
        assert HeldFacts(s, i);
        var u :| u in s.pcs && Holds(s.pcs[u], i);
        assert Holds(s2.pcs[u], i);
      }
    }
    forall u, i: nat | u in s2.pcs && Holds(s2.pcs[u], i)
      ensures HeldFacts(s2, i) && (if u == t then i == s.head else i < s.head)
    {
      if u == t {
        assert s.head !in s.dropped && s.head !in s.delivered;
      } else {
        assert Holds(s.pcs[u], i);
        assert HeldFacts(s, i);
      }
    }
    forall u, w, i: nat | u in s2.pcs && w in s2.pcs && Holds(s2.pcs[u], i) && Holds(s2.pcs[w], i)
      ensures u == w
    {
      assert u != t ==> Holds(s.pcs[u], i) && HeldFacts(s, i);
      assert w != t ==> Holds(s.pcs[w], i) && HeldFacts(s, i);
      assert !HeldFacts(s, s.head);
    }
  }

  lemma PushBackKeepsAccounts<T>(s: State<T>, item: T)
    requires Accounted(s)
    ensures Accounted(PushBack(s, item))
  {
    var s2 := PushBack(s, item);
    assert Settled(s2);
    forall i: nat | HeldFacts(s2, i)
      ensures exists u :: u in s2.pcs && Holds(s2.pcs[u], i)
    {
      assert HeldFacts(s, i);
      var u :| u in s.pcs && Holds(s.pcs[u], i);
    }
    forall u, i: nat | u in s2.pcs && Holds(s2.pcs[u], i)
      ensures HeldFacts(s2, i)
    {
      assert HeldFacts(s, i);
    }
  }

  lemma LeaveKeepsAccounts<T>(s: State<T>, t: Tid)
    requires Accounted(s) && t in s.pcs && s.pcs[t].Returned?
    ensures Accounted(At(s, t, Outside).(delivered := s.delivered + {s.pcs[t].index}))
  {
    var j := s.pcs[t].index;
    assert Holds(s.pcs[t], j);
    assert HeldFacts(s, j);
    var s2 := At(s, t, Outside).(delivered := s.delivered + {j});
    assert Settled(s2);
    forall i: nat | HeldFacts(s2, i)
      ensures exists u :: u in s2.pcs && Holds(s2.pcs[u], i)
    {
      assert HeldFacts(s, i);
      var u :| u in s.pcs && Holds(s.pcs[u], i);
      assert Holds(s2.pcs[u], i);
    }
    forall u, i: nat | u in s2.pcs && Holds(s2.pcs[u], i)
      ensures HeldFacts(s2, i) && u != t && Holds(s.pcs[u], i)
    {
      assert u != t && Holds(s.pcs[u], i);
      assert HeldFacts(s, i);
      assert i == j ==> u == t;
    }
    forall u, w, i: nat | u in s2.pcs && w in s2.pcs && Holds(s2.pcs[u], i) && Holds(s2.pcs[w], i)
      ensures u == w
    {
      assert Holds(s.pcs[u], i) && Holds(s.pcs[w], i);
    }
  }

  lemma StepKeepsAccounts<T(!new)>(s: State<T>, step: Step<T>)
    requires Accounted(s) && Enabled(s, step)
    ensures Accounted(Apply(s, step))
  {
    var t := step.t;
    match step {
      case Enqueue(_, item) =>
        PushKeepsAccounts(s, t, item);
      case EnqueueNowait(_, item) =>
        PushBackKeepsAccounts(s, item);
        QuietMoveKeepsAccounts(PushBack(s, item), t, MustNotifyPush);
      case RetryPush(_) =>
        PushKeepsAccounts(s, t, s.pcs[t].item);
      case NotifyPush(_, w) =>
        QuietMoveKeepsAccounts(s, w, PopAwake(true, false));
        QuietMoveKeepsAccounts(At(s, w, PopAwake(true, false)), t, Outside);
      case NotifyPop(_, w) =>
        var pc := PushAwake(s.pcs[w].item, true);
        QuietMoveKeepsAccounts(s, w, pc);
        QuietMoveKeepsAccounts(At(s, w, pc), t, Returned(s.pcs[t].index));
      case Leave(_) =>
        LeaveKeepsAccounts(s, t);
      case Dequeue(_) =>
        if Size(s) > 0 { PopKeepsAccounts(s, t); } else { QuietMoveKeepsAccounts(s, t, Apply(s, step).pcs[t]); }
      case RetryPop(_) =>
        if Size(s) > 0 { PopKeepsAccounts(s, t); } else { QuietMoveKeepsAccounts(s, t, Apply(s, step).pcs[t]); }
      case _ =>
        QuietMoveKeepsAccounts(s, t, Apply(s, step).pcs[t]);
    }
  }

  lemma PushKeepsAccounts<T>(s: State<T>, t: Tid, item: T)
    requires Accounted(s) && t in s.pcs && forall i: nat :: !Holds(s.pcs[t], i)
    ensures Accounted(PushOrSleep(s, t, item))
  {
    if Size(s) >= s.cap {
      QuietMoveKeepsAccounts(s, t, PushAsleep(item));
    } else {
      PushBackKeepsAccounts(s, item);
      QuietMoveKeepsAccounts(PushBack(s, item), t, MustNotifyPush);
    }
  }

  // ----- every run -----

  lemma StepKeepsInv<T(!new)>(s: State<T>, step: Step<T>)
    requires Inv(s) && Enabled(s, step)
    ensures Inv(Apply(s, step))
    ensures Apply(s, step).cap == s.cap && Apply(s, step).pcs.Keys == s.pcs.Keys
  {
    StepKeepsWakeUps(s, step);
    StepKeepsAccounts(s, step);
  }

  lemma InitInv<T(!new)>(s: State<T>)
    requires Init(s)
    ensures Inv(s)
  {
    assert Having(s.pcs, PushSleeper) == {};
    assert Having(s.pcs, PopSleeper) == {};
  }

  lemma {:induction false} RunKeepsInv<T(!new)>(s: State<T>, steps: seq<Step<T>>, s2: State<T>)
    requires Inv(s) && Run(s, steps, s2)
    ensures Inv(s2)
    decreases |steps|
  {
    if steps != [] {
      StepKeepsInv(s, steps[0]);
      RunKeepsInv(Apply(s, steps[0]), steps[1..], s2);
    }
  }

  /**
   No wake-up is lost in any interleaving: while a producer sleeps un-notified, the notified
   producers and the consumers about to notify are at least as many as the free slots, and
   likewise for sleeping consumers and queued items.
   */
  lemma NoLostWakeUps<T(!new)>(s: State<T>, steps: seq<Step<T>>, s2: State<T>)
    requires Init(s) && Run(s, steps, s2)
    ensures s2.head <= |s2.log|
    ensures Having(s2.pcs, PushSleeper) != {} ==>
      |Having(s2.pcs, PushNotified)| + |Having(s2.pcs, PopNotifier)| >= s2.cap - |Contents(s2)|
    ensures Having(s2.pcs, PopSleeper) != {} ==>
      |Having(s2.pcs, PopNotified)| + |Having(s2.pcs, PushNotifier)| >= |Contents(s2)|
  {
    InitInv(s);
    RunKeepsInv(s, steps, s2);
  }

  /** In every run each item that left the queue was dropped, delivered, or is held by one thread. */
  lemma EveryItemAccounted<T(!new)>(s: State<T>, steps: seq<Step<T>>, s2: State<T>)
    requires Init(s) && Run(s, steps, s2)
    ensures Bounded(s2) && Accounted(s2)
  {
    InitInv(s);
    RunKeepsInv(s, steps, s2);
  }

  /** The thread a sleeping producer or consumer can count on. */
  lemma SleeperHasHelper<T>(s: State<T>)
    requires WakeUps(s)
    ensures Count(s, PushSleeper) > 0 && Size(s) < s.cap ==>
      exists t :: t in s.pcs && (KindOf(s.pcs[t]) == PushNotified || KindOf(s.pcs[t]) == PopNotifier)
    ensures Count(s, PopSleeper) > 0 && Size(s) > 0 ==>
      exists t :: t in s.pcs && (KindOf(s.pcs[t]) == PopNotified || KindOf(s.pcs[t]) == PushNotifier)
  {
    if Count(s, PushSleeper) > 0 && Size(s) < s.cap {
      var t := SomeOf(s, PushNotified, PopNotifier);
    }
    if Count(s, PopSleeper) > 0 && Size(s) > 0 {
      var t := SomeOf(s, PopNotified, PushNotifier);
    }
  }

  lemma SomeOf<T>(s: State<T>, a: Kind, b: Kind) returns (t: Tid)
    requires Count(s, a) + Count(s, b) > 0
    ensures t in s.pcs && (KindOf(s.pcs[t]) == a || KindOf(s.pcs[t]) == b)
  {
    if Count(s, a) > 0 {
      t :| t in Having(s.pcs, a);
    } else {
      t :| t in Having(s.pcs, b);
    }
  }

  // ----- whose items they are -----

  /** A thread that waits to push an item, or has been woken to try again, carries it. */
  ghost predicate Carries<T>(pc: Pc<T>, x: T) {
    (pc.PushAsleep? || pc.PushAwake?) && pc.item == x
  }

  ghost function Carriers<T>(s: State<T>, x: T): set<Tid> {
    set t | t in s.pcs && Carries(s.pcs[t], x)
  }

  /** How often a caller has passed an item to the queue. */
  ghost function Passed<T>(steps: seq<Step<T>>, x: T): int {
    if steps == [] then 0
    else One((steps[0].Enqueue? || steps[0].EnqueueNowait?) && steps[0].item == x) + Passed(steps[1..], x)
  }

  /** The copies of an item that were pushed, and those that threads still carry. */
  ghost function Known<T>(s: State<T>, x: T): int {
    multiset(s.log)[x] + |Carriers(s, x)|
  }

  lemma LogGrows<T>(xs: seq<T>, y: T, x: T)
    ensures multiset(xs + [y])[x] == multiset(xs)[x] + One(y == x)
  {
  }

  lemma PushKeepsItems<T>(s: State<T>, t: Tid, y: T, x: T, sleeps: bool)
    requires t in s.pcs
    ensures var s2 := if sleeps then At(s, t, PushAsleep(y)) else At(PushBack(s, y), t, MustNotifyPush);
      Known(s2, x) == Known(s, x) + One(y == x) - One(Carries(s.pcs[t], x))
  {
    var s2 := if sleeps then At(s, t, PushAsleep(y)) else At(PushBack(s, y), t, MustNotifyPush);
    var before := Carriers(s, x);
    assert forall u :: u in s.pcs && u != t ==> s2.pcs[u] == s.pcs[u];
    assert Carriers(s2, x) == if sleeps && y == x then before + {t} else before - {t};
    SizeWith(before, t);
    SizeWithout(before, t);
    LogGrows(s.log, y, x);
  }

  /** A step of another kind neither pushes an item nor makes a thread carry another one. */
  lemma OtherKeepsItems<T(!new)>(s: State<T>, step: Step<T>, x: T)
    requires Enabled(s, step) && !step.Enqueue? && !step.EnqueueNowait? && !step.RetryPush?
    ensures Apply(s, step).log == s.log && Carriers(Apply(s, step), x) == Carriers(s, x)
  {
    var s2 := Apply(s, step);
    assert s2.pcs.Keys == s.pcs.Keys;
    assert forall t :: t in s.pcs ==> (Carries(s2.pcs[t], x) <==> Carries(s.pcs[t], x));
  }

  /** Every step keeps the items; only a caller that passes one in adds to them. */
  lemma StepKeepsItems<T(!new)>(s: State<T>, step: Step<T>, x: T)
    requires Enabled(s, step)
    ensures Known(Apply(s, step), x) == Known(s, x) + One((step.Enqueue? || step.EnqueueNowait?) && step.item == x)
  {
    match step
    case Enqueue(t, y) => PushKeepsItems(s, t, y, x, Size(s) >= s.cap);
    case EnqueueNowait(t, y) => PushKeepsItems(s, t, y, x, false);
    case RetryPush(t) => PushKeepsItems(s, t, s.pcs[t].item, x, Size(s) >= s.cap);
    case _ => OtherKeepsItems(s, step, x);
  }

  lemma {:induction false} RunKeepsItems<T(!new)>(s: State<T>, steps: seq<Step<T>>, s2: State<T>, x: T)
    requires Run(s, steps, s2)
    ensures Known(s2, x) == Known(s, x) + Passed(steps, x)
    decreases |steps|
  {
    if steps != [] {
      StepKeepsItems(s, steps[0], x);
      RunKeepsItems(Apply(s, steps[0]), steps[1..], s2, x);
    }
  }

  /** In every run each item was pushed, or is still carried, exactly as often as it was passed in. */
  lemma EveryItemPushed<T(!new)>(s: State<T>, steps: seq<Step<T>>, s2: State<T>, x: T)
    requires Init(s) && Run(s, steps, s2)
    ensures multiset(s2.log)[x] + |Carriers(s2, x)| == Passed(steps, x)
  {
    RunKeepsItems(s, steps, s2, x);
    assert Carriers(s, x) == {};
  }

  // ----- the ring buffer below -----

  /** How one step changes the contents: by one push of the ring buffer, one pop, or not at all. */
  lemma StepOnContents<T(!new)>(s: State<T>, step: Step<T>)
    requires Bounded(s) && Accounted(s) && Enabled(s, step)
    ensures var s2 := Apply(s, step);
      && Bounded(s2)
      && (step.EnqueueNowait? ==> Contents(s2) == CircularQueue.Pushed(Contents(s), s.cap, step.item))
      && (step.EnqueueNowait? ==> |s2.dropped - s.dropped| == One(|Contents(s)| == s.cap))
      && (step.Enqueue? && |Contents(s)| < s.cap ==>
          Contents(s2) == Contents(s) + [step.item] && s2.dropped == s.dropped)
      && (step.RetryPush? && |Contents(s)| < s.cap ==>
          Contents(s2) == Contents(s) + [s.pcs[step.t].item] && s2.dropped == s.dropped)
      && (step.Enqueue? || step.RetryPush? ==> (s2.pcs[step.t].MustNotifyPush? <==> |Contents(s)| < s.cap))
      && (s2.pcs[step.t].MustNotifyPop? && !s.pcs[step.t].MustNotifyPop? ==>
          [s.log[s2.pcs[step.t].index]] + Contents(s2) == Contents(s) && s2.dropped == s.dropped)
      && (s2.head == s.head && |s2.log| == |s.log| ==> Contents(s2) == Contents(s))
  {
    if step.EnqueueNowait? {
      var s2 := Apply(s, step);
      assert s2.dropped - s.dropped == if Size(s) >= s.cap then {s.head} else {};
    }
  }

  /** The queue object: each method is one critical section, over the ring buffer. */
  class BlockingQueue<T(0,!new)> {
    const q: CircularQueue.CircularQ<T>

    ghost predicate Represents(s: State<T>)
      reads this, q, q.v
    {
      && q.Valid() && q.maxItems == s.cap + 1 && Bounded(s) && Settled(s)
      && q.Contents() == Contents(s) && q.overrunCounter == |s.dropped|
    }

    constructor (maxItems: nat, ghost s: State<T>)
      requires Init(s) && s.cap == maxItems
      ensures Represents(s) && fresh(q) && fresh(q.v)
    {
      q := new CircularQueue.CircularQ(maxItems);
    }

    /** enqueue under its lock, or after a wake-up: pushes unless the queue is full. */
    method PushUnlessFull(item: T, ghost s: State<T>, ghost t: Tid) returns (sleeps: bool)
      requires Represents(s)
      modifies q, q.v
      ensures Represents(PushOrSleep(s, t, item))
      ensures sleeps <==> PushOrSleep(s, t, item).pcs[t].PushAsleep?
    {
      sleeps := q.Full();
      if !sleeps {
        q.PushBack(item);
      }
    }

    method PushNow(item: T, ghost s: State<T>, ghost t: Tid)
      requires Represents(s)
      modifies q, q.v
      ensures Represents(At(PushBack(s, item), t, MustNotifyPush))
    {
      ghost var full := Size(s) >= s.cap;
      q.PushBack(item);
      if full {
        assert s.head !in s.dropped;
      }
    }

    /** dequeue_for under its lock, or after a wake-up: pops unless the queue is empty. */
    method PopUnlessEmpty(ghost s: State<T>, ghost t: Tid, ghost otherwise: Pc<T>) returns (popped: bool, item: T)
      requires Represents(s) && !otherwise.MustNotifyPop?
      modifies q
      ensures Represents(PopOrSleep(s, t, otherwise))
      ensures popped <==> PopOrSleep(s, t, otherwise).pcs[t].MustNotifyPop?
      ensures popped ==> item == s.log[PopOrSleep(s, t, otherwise).pcs[t].index]
    {
      popped := !q.Empty();
      if popped {
        item := q.PopFront();
        assert Contents(s) == [s.log[s.head]] + s.log[s.head + 1..];
      } else {
        item := *;
      }
    }
  }
}
