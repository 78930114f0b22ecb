/**
 The recorder's task queue as a step system: producers that add one task, consumers that drain
 the whole queue, one notification per operation, and a stop flag. Notifications are sent
 while the lock is held, so a critical section and its notification are one step.
 */
module SyncQueue {
  import opened Counting
  import Sequences

  type Tid = nat

  datatype Pc<T> =
    | Outside
    | AddAsleep(x: T)
    | AddAwake(x: T, notified: bool)
    | TakeAsleep
    | TakeAwake(notified: bool)

  /**
   accepted and batches are the history: every task that was pushed, in order, and what each
   drain returned. The two released flags say that a notify_all has followed the stop flag.
   */
  datatype State<T> = State(max: nat, queue: seq<T>, needStop: bool, producersReleased: bool, consumersReleased: bool,
                            accepted: seq<T>, batches: seq<seq<T>>, pcs: map<Tid, Pc<T>>)

  /** waiter is the thread that the notification wakes; the thread itself stands for nobody. */
  datatype Step<T> =
    | Add(t: Tid, x: T, waiter: Tid)
    | RetryAdd(t: Tid, waiter: Tid)
    | WakeAdd(t: Tid)
    | Take(t: Tid, waiter: Tid)
    | RetryTake(t: Tid, waiter: Tid)
    | WakeTake(t: Tid)
    | SetStop
    | ReleaseProducers
    | ReleaseConsumers

  ghost predicate SomeAddAsleep<T>(s: State<T>) {
    exists w :: w in s.pcs && s.pcs[w].AddAsleep?
  }

  ghost predicate SomeTakeAsleep<T>(s: State<T>) {
    exists w :: w in s.pcs && s.pcs[w].TakeAsleep?
  }

  ghost predicate SomeAddNotified<T>(s: State<T>) {
    exists w :: w in s.pcs && s.pcs[w].AddAwake? && s.pcs[w].notified
  }

  ghost predicate SomeTakeNotified<T>(s: State<T>) {
    exists w :: w in s.pcs && s.pcs[w].TakeAwake? && s.pcs[w].notified
  }

  ghost predicate ChoosesConsumer<T>(s: State<T>, t: Tid, w: Tid) {
    if SomeTakeAsleep(s) then w in s.pcs && s.pcs[w].TakeAsleep? else w == t
  }

  ghost predicate ChoosesProducer<T>(s: State<T>, t: Tid, w: Tid) {
    if SomeAddAsleep(s) then w in s.pcs && s.pcs[w].AddAsleep? else w == t
  }

  ghost predicate Enabled<T>(s: State<T>, step: Step<T>) {
    match step
    case Add(t, _, w) => t in s.pcs && s.pcs[t].Outside? && ChoosesConsumer(s, t, w)
    case RetryAdd(t, w) => t in s.pcs && s.pcs[t].AddAwake? && ChoosesConsumer(s, t, w)
    case WakeAdd(t) => t in s.pcs && s.pcs[t].AddAsleep?
    case Take(t, w) => t in s.pcs && s.pcs[t].Outside? && ChoosesProducer(s, t, w)
    case RetryTake(t, w) => t in s.pcs && s.pcs[t].TakeAwake? && ChoosesProducer(s, t, w)
    case WakeTake(t) => t in s.pcs && s.pcs[t].TakeAsleep?
    case SetStop => true
    case ReleaseProducers => s.needStop
    case ReleaseConsumers => s.needStop
  }

  function At<T>(s: State<T>, t: Tid, pc: Pc<T>): State<T> {
    s.(pcs := s.pcs[t := pc])
  }

  function Notified<T>(pc: Pc<T>): Pc<T> {
    match pc
    case AddAsleep(x) => AddAwake(x, true)
    case TakeAsleep => TakeAwake(true)
    case _ => pc
  }

  function NotifyOne<T>(s: State<T>, w: Tid): State<T> {
    if w in s.pcs then At(s, w, Notified(s.pcs[w])) else s
  }

  /** The lock body of Add. */
  function AddSection<T>(s: State<T>, t: Tid, x: T, w: Tid): State<T> {
    if s.needStop then At(s, t, Outside)
    else if |s.queue| >= s.max then At(s, t, AddAsleep(x))
    else At(NotifyOne(s, w), t, Outside).(queue := s.queue + [x], accepted := s.accepted + [x])
  }

  /** The lock body of the draining Take; the moved-from list is empty. */
  function TakeSection<T>(s: State<T>, t: Tid, w: Tid): State<T> {
    if s.needStop then At(s, t, Outside)
    else if s.queue == [] then At(s, t, TakeAsleep)
    else At(NotifyOne(s, w), t, Outside).(queue := [], batches := s.batches + [s.queue])
  }

  function Release<T>(pcs: map<Tid, Pc<T>>, producers: bool): map<Tid, Pc<T>> {
    map t | t in pcs :: if (if producers then pcs[t].AddAsleep? else pcs[t].TakeAsleep?) then Notified(pcs[t]) else pcs[t]
  }

  ghost function Apply<T>(s: State<T>, step: Step<T>): State<T>
    requires Enabled(s, step)
  {
    match step
    case Add(t, x, w) => AddSection(s, t, x, w)
    case RetryAdd(t, w) => AddSection(s, t, s.pcs[t].x, w)
    case WakeAdd(t) => At(s, t, AddAwake(s.pcs[t].x, false))
    case Take(t, w) => TakeSection(s, t, w)
    case RetryTake(t, w) => TakeSection(s, t, w)
    case WakeTake(t) => At(s, t, TakeAwake(false))
    case SetStop => s.(needStop := true)
    case ReleaseProducers => s.(pcs := Release(s.pcs, true), producersReleased := true)
    case ReleaseConsumers => s.(pcs := Release(s.pcs, false), consumersReleased := true)
  }

  ghost predicate Init<T>(s: State<T>) {
    && s.queue == [] && !s.needStop && !s.producersReleased && !s.consumersReleased
    && s.accepted == [] && s.batches == [] && forall t :: t in s.pcs ==> s.pcs[t].Outside?
  }

  ghost predicate Run<T>(s: State<T>, steps: seq<Step<T>>, s2: State<T>)
    decreases |steps|
  {
    if steps == [] then s == s2 else Enabled(s, steps[0]) && Run(Apply(s, steps[0]), steps[1..], s2)
  }

  // ----- the invariants -----

  /** First in, first out: the batches and then the queue are what was accepted, in order. */
  ghost predicate Fifo<T>(s: State<T>) {
    Sequences.Flatten(s.batches) + s.queue == s.accepted && |s.queue| <= s.max
  }

  /** Somebody has been told about an empty queue, or about a task, whenever someone sleeps for it. */
  ghost predicate Told<T>(s: State<T>) {
    !s.needStop ==>
      && (SomeAddAsleep(s) && s.queue == [] ==> SomeAddNotified(s))
      && (SomeTakeAsleep(s) && s.queue != [] ==> SomeTakeNotified(s))
  }

  ghost predicate AfterStop<T>(s: State<T>) {
    && (s.producersReleased ==> s.needStop && !SomeAddAsleep(s))
    && (s.consumersReleased ==> s.needStop && !SomeTakeAsleep(s))
  }

  ghost predicate Inv<T>(s: State<T>) {
    Fifo(s) && AfterStop(s) && (s.max >= 1 ==> Told(s))
  }

  lemma AddKeepsFifo<T>(s: State<T>, t: Tid, x: T, w: Tid)
    requires Fifo(s)
    ensures Fifo(AddSection(s, t, x, w)) && AddSection(s, t, x, w).max == s.max
  {
    Sequences.Assoc(Sequences.Flatten(s.batches), s.queue, [x]);
  }

  lemma TakeKeepsFifo<T>(s: State<T>, t: Tid, w: Tid)
    requires Fifo(s)
    ensures Fifo(TakeSection(s, t, w)) && TakeSection(s, t, w).max == s.max
  {
    assert (s.batches + [s.queue])[..|s.batches|] == s.batches;
    assert Sequences.Flatten(s.batches + [s.queue]) + [] == Sequences.Flatten(s.batches) + s.queue;
  }

  lemma StepKeepsFifo<T>(s: State<T>, step: Step<T>, s2: State<T>)
    requires Fifo(s) && Enabled(s, step) && s2 == Apply(s, step)
    ensures Fifo(s2) && s2.max == s.max
  {
    match step
    case Add(t, x, w) => AddKeepsFifo(s, t, x, w);
    case RetryAdd(t, w) => AddKeepsFifo(s, t, s.pcs[t].x, w);
    case Take(t, w) => TakeKeepsFifo(s, t, w);
    case RetryTake(t, w) => TakeKeepsFifo(s, t, w);
    case _ =>
  }

  lemma StepKeepsAfterStop<T>(s: State<T>, step: Step<T>)
    requires AfterStop(s) && Enabled(s, step)
    ensures AfterStop(Apply(s, step))
  {
  }

  lemma StepTellsProducers<T>(s: State<T>, step: Step<T>)
    requires s.max >= 1 && Told(s) && Enabled(s, step)
    ensures var s2 := Apply(s, step); !s2.needStop && SomeAddAsleep(s2) && s2.queue == [] ==> SomeAddNotified(s2)
  {
    var s2 := Apply(s, step);
    if !s2.needStop && SomeAddAsleep(s2) && s2.queue == [] {
      assert SomeAddAsleep(s) by {
        var v :| v in s2.pcs && s2.pcs[v].AddAsleep?;
        assert s.pcs[v].AddAsleep?;
      }
      if s.queue == [] {
        var u :| u in s.pcs && s.pcs[u].AddAwake? && s.pcs[u].notified;
        assert s2.pcs[u].AddAwake? && s2.pcs[u].notified;
      } else {
        assert s2.pcs[step.waiter].AddAwake? && s2.pcs[step.waiter].notified;
      }
    }
  }

  lemma StepTellsConsumers<T>(s: State<T>, step: Step<T>)
    requires s.max >= 1 && Told(s) && Enabled(s, step)
    ensures var s2 := Apply(s, step); !s2.needStop && SomeTakeAsleep(s2) && s2.queue != [] ==> SomeTakeNotified(s2)
  {
    var s2 := Apply(s, step);
    if !s2.needStop && SomeTakeAsleep(s2) && s2.queue != [] {
      assert SomeTakeAsleep(s) by {
        var v :| v in s2.pcs && s2.pcs[v].TakeAsleep?;
        assert s.pcs[v].TakeAsleep?;
      }
      if s.queue != [] {
        var u :| u in s.pcs && s.pcs[u].TakeAwake? && s.pcs[u].notified;
        assert s2.pcs[u].TakeAwake? && s2.pcs[u].notified;
      } else {
        assert s2.pcs[step.waiter].TakeAwake? && s2.pcs[step.waiter].notified;
      }
    }
  }

  lemma StepKeepsInv<T>(s: State<T>, step: Step<T>, s2: State<T>)
    requires Inv(s) && Enabled(s, step) && s2 == Apply(s, step)
    ensures Inv(s2) && s2.pcs.Keys == s.pcs.Keys && s2.max == s.max
  {
    StepKeepsFifo(s, step, s2);
    StepKeepsAfterStop(s, step);
    if s.max >= 1 {
      StepTellsProducers(s, step);
      StepTellsConsumers(s, step);
    }
  }

  lemma {:induction false} RunKeepsInv<T>(s: State<T>, steps: seq<Step<T>>, s2: State<T>)
    requires Inv(s) && Run(s, steps, s2)
    ensures Inv(s2) && s2.max == s.max
    decreases |steps|
  {
    if steps != [] {
      StepKeepsInv(s, steps[0], Apply(s, steps[0]));
      RunKeepsInv(Apply(s, steps[0]), steps[1..], s2);
    }
  }

  // ----- whose tasks they are -----

  /** A thread that waits to add a task, or has been woken to try again, holds that task. */
  ghost predicate Holds<T>(pc: Pc<T>, x: T) {
    (pc.AddAsleep? || pc.AddAwake?) && pc.x == x
  }

  /** The task that a step brings, or brings again. */
  ghost predicate Brings<T>(s: State<T>, step: Step<T>, x: T)
    requires Enabled(s, step)
  {
    (step.Add? && step.x == x) || (step.RetryAdd? && Holds(s.pcs[step.t], x))
  }

  /**
   What a step does to the tasks: one that brings a task appends exactly that task, if there is room;
   one that takes hands over the whole queue; no other step touches them, and none after the stop flag.
   */
  lemma StepOnTasks<T>(s: State<T>, step: Step<T>, x: T)
    requires Enabled(s, step)
    ensures var s2 := Apply(s, step);
      var adds, takes := step.Add? || step.RetryAdd?, step.Take? || step.RetryTake?;
      if s.needStop || !(if adds then |s.queue| < s.max else takes && s.queue != []) then
        s2.queue == s.queue && s2.accepted == s.accepted && s2.batches == s.batches
      else if adds then
        Brings(s, step, x) ==> s2.queue == s.queue + [x] && s2.accepted == s.accepted + [x] && s2.batches == s.batches
      else s2.queue == [] && s2.accepted == s.accepted && s2.batches == s.batches + [s.queue]
  {
  }

  /** A held task is the one that the thread came with. */
  lemma StepOnHeld<T>(s: State<T>, step: Step<T>, t: Tid, x: T)
    requires Enabled(s, step) && t in s.pcs
    ensures t in Apply(s, step).pcs
    ensures Holds(Apply(s, step).pcs[t], x) ==> Holds(s.pcs[t], x) || (step == Add(t, x, step.waiter) && s.pcs[t].Outside?)
    ensures Holds(s.pcs[t], x) && !Holds(Apply(s, step).pcs[t], x) ==> step == RetryAdd(t, step.waiter)
  {
  }

  ghost function Holders<T>(s: State<T>, x: T): set<Tid> {
    set t | t in s.pcs && Holds(s.pcs[t], x)
  }

  /** How often a task was added. */
  ghost function Added<T>(steps: seq<Step<T>>, x: T): int {
    if steps == [] then 0 else One(steps[0].Add? && steps[0].x == x) + Added(steps[1..], x)
  }

  /** The tasks that have been accepted, and those that threads still hold. */
  ghost function Known<T>(s: State<T>, x: T): int {
    multiset(s.accepted)[x] + |Holders(s, x)|
  }

  lemma AddKeepsTasks<T>(s: State<T>, t: Tid, y: T, w: Tid, x: T)
    requires t in s.pcs && ChoosesConsumer(s, t, w) && !s.needStop
    ensures Known(AddSection(s, t, y, w), x) == Known(s, x) + One(y == x) - One(Holds(s.pcs[t], x))
  {
    var before := Holders(s, x);
    AddOnHolders(s, t, y, w, x);
    SizeWith(before, t);
    SizeWithout(before, t);
    Pushed(s.accepted, y, x);
  }

  lemma AddOnHolders<T>(s: State<T>, t: Tid, y: T, w: Tid, x: T)
    requires t in s.pcs && ChoosesConsumer(s, t, w) && !s.needStop
    ensures var before := Holders(s, x);
      Holders(AddSection(s, t, y, w), x) == if |s.queue| >= s.max && y == x then before + {t} else before - {t}
  {
    var s2 := AddSection(s, t, y, w);
    assert s2.pcs.Keys == s.pcs.Keys;
    assert forall u :: u in s.pcs && u != t ==> (Holds(s2.pcs[u], x) <==> Holds(s.pcs[u], x));
  }

  lemma Pushed<T>(xs: seq<T>, y: T, x: T)
    ensures multiset(xs + [y])[x] == multiset(xs)[x] + One(y == x)
  {
  }

  lemma TakeKeepsTasks<T>(s: State<T>, t: Tid, w: Tid, x: T)
    requires t in s.pcs && ChoosesProducer(s, t, w) && !s.needStop && !Holds(s.pcs[t], x)
    ensures Known(TakeSection(s, t, w), x) == Known(s, x)
  {
    assert Holders(TakeSection(s, t, w), x) == Holders(s, x);
  }

  lemma StepKeepsTasks<T>(s: State<T>, step: Step<T>, x: T, s2: State<T>)
    requires Enabled(s, step) && s2 == Apply(s, step) && !s.needStop
    ensures Known(s2, x) == Known(s, x) + One(step.Add? && step.x == x)
  {
    match step
    case Add(t, y, w) => AddKeepsTasks(s, t, y, w, x);
    case RetryAdd(t, w) => AddKeepsTasks(s, t, s.pcs[t].x, w, x);
    case Take(t, w) => TakeKeepsTasks(s, t, w, x);
    case RetryTake(t, w) => TakeKeepsTasks(s, t, w, x);
    case WakeAdd(_) => assert Holders(s2, x) == Holders(s, x);
    case WakeTake(_) => assert Holders(s2, x) == Holders(s, x);
    case SetStop => assert Holders(s2, x) == Holders(s, x);
    case ReleaseProducers =>
    case ReleaseConsumers =>
  }

  lemma {:induction false} RunKeepsTasks<T>(s: State<T>, steps: seq<Step<T>>, s2: State<T>, x: T)
    requires Run(s, steps, s2) && !s2.needStop
    ensures !s.needStop && Known(s2, x) == Known(s, x) + Added(steps, x)
    decreases |steps|
  {
    if steps != [] {
      RunKeepsTasks(Apply(s, steps[0]), steps[1..], s2, x);
      StepKeepsTasks(s, steps[0], x, Apply(s, steps[0]));
    }
  }

  /** The tasks of the Add operations, first tries or later ones, in the order in which they find room. */
  ghost function Entered<T>(s: State<T>, steps: seq<Step<T>>, s2: State<T>): seq<T>
    requires Run(s, steps, s2)
    decreases |steps|
  {
    if steps == [] then []
    else
      Enters(s, steps[0]) + Entered(Apply(s, steps[0]), steps[1..], s2)
  }

  ghost function Enters<T>(s: State<T>, step: Step<T>): seq<T>
    requires Enabled(s, step)
  {
    if s.needStop || |s.queue| >= s.max then []
    else match step
      case Add(_, x, _) => [x]
      case RetryAdd(t, _) => [s.pcs[t].x]
      case _ => []
  }

  lemma StepEnters<T>(s: State<T>, step: Step<T>)
    requires Enabled(s, step)
    ensures Apply(s, step).accepted == s.accepted + Enters(s, step)
  {
    assert s.accepted + [] == s.accepted;
  }

  lemma {:induction false} RunEnters<T>(s: State<T>, steps: seq<Step<T>>, s2: State<T>)
    requires Run(s, steps, s2)
    ensures s2.accepted == s.accepted + Entered(s, steps, s2)
    decreases |steps|
  {
    if steps == [] {
      assert s.accepted + [] == s.accepted;
    } else {
      var s1 := Apply(s, steps[0]);
      RunEnters(s1, steps[1..], s2);
      var rest := Entered(s1, steps[1..], s2);
      StepEnters(s, steps[0]);
      Sequences.Assoc(s.accepted, Enters(s, steps[0]), rest);
    }
  }

  // ----- what holds in every run -----

  /**
   Drained batches followed by the queue are the added tasks, in the order in which they found room,
   and the queue never overflows.
   */
  lemma FirstInFirstOut<T>(s: State<T>, steps: seq<Step<T>>, s2: State<T>)
    requires Init(s) && Run(s, steps, s2)
    ensures Sequences.Flatten(s2.batches) + s2.queue == Entered(s, steps, s2) && |s2.queue| <= s2.max
  {
    RunKeepsInv(s, steps, s2);
    RunEnters(s, steps, s2);
    assert s.accepted + Entered(s, steps, s2) == Entered(s, steps, s2);
  }

  /**
   Until it is stopped, the queue neither loses, invents nor doubles a task: each was drained, is
   queued or is held by a waiting producer, as often as it was added.
   */
  lemma EveryTaskOnce<T>(s: State<T>, steps: seq<Step<T>>, s2: State<T>, x: T)
    requires Init(s) && Run(s, steps, s2) && !s2.needStop
    ensures multiset(Sequences.Flatten(s2.batches) + s2.queue)[x] + |Holders(s2, x)| == Added(steps, x)
  {
    RunKeepsInv(s, steps, s2);
    RunKeepsTasks(s, steps, s2, x);
    assert Holders(s, x) == {};
  }

  ghost predicate Asleep<T>(pc: Pc<T>) {
    pc.AddAsleep? || pc.TakeAsleep?
  }

  /** Producers and consumers are not all asleep at once with nobody on the way to wake them. */
  ghost predicate Deadlocked<T>(s: State<T>) {
    !s.needStop && SomeAddAsleep(s) && SomeTakeAsleep(s) && forall t :: t in s.pcs ==> Asleep(s.pcs[t])
  }

  /**
   One notification per drain is enough: before the stop flag, sleeping producers before an empty
   queue imply a notified producer, sleeping consumers before tasks imply a notified consumer,
   and so no run deadlocks.
   */
  lemma NeverDeadlocks<T>(s: State<T>, steps: seq<Step<T>>, s2: State<T>)
    requires Init(s) && s.max >= 1 && Run(s, steps, s2) && !s2.needStop
    ensures SomeAddAsleep(s2) && s2.queue == [] ==> SomeAddNotified(s2)
    ensures SomeTakeAsleep(s2) && s2.queue != [] ==> SomeTakeNotified(s2)
    ensures !Deadlocked(s2)
  {
    RunKeepsInv(s, steps, s2);
  }

  /** The capacity condition is exact: without capacity two threads deadlock. */
  lemma NoCapacityDeadlocks<T>(x: T) returns (s: State<T>, steps: seq<Step<T>>, s2: State<T>)
    ensures Init(s) && s.max == 0 && Run(s, steps, s2) && Deadlocked(s2)
  {
    s := State(0, [], false, false, false, [], [], map[0 := Outside, 1 := Outside]);
    var s1 := Apply(s, Add(0, x, 0));
    assert s1.pcs[1].Outside?;
    var w := if SomeAddAsleep(s1) then 0 else 1;
    assert s1.pcs[0].AddAsleep?;
    s2 := Apply(s1, Take(1, 0));
    steps := [Add(0, x, 0), Take(1, 0)];
    assert steps[1..] == [Take(1, 0)] && steps[1..][1..] == [];
    assert Run(s2, [], s2);
    assert Run(s1, steps[1..], s2);
    assert s2.pcs[0].AddAsleep? && s2.pcs[1].TakeAsleep?;
  }

  /** Once Stop has notified everybody nobody sleeps, and every later operation leaves the tasks alone. */
  lemma StopReleasesEverybody<T>(s: State<T>, steps: seq<Step<T>>, s2: State<T>, step: Step<T>)
    requires Init(s) && Run(s, steps, s2)
    requires s2.producersReleased && s2.consumersReleased && Enabled(s2, step)
    ensures forall t :: t in s2.pcs ==> !Asleep(s2.pcs[t])
    ensures var s3 := Apply(s2, step);
      && s3.queue == s2.queue && s3.accepted == s2.accepted && s3.batches == s2.batches
      && (step.Add? || step.Take? || step.RetryAdd? || step.RetryTake? ==> s3.pcs[step.t].Outside?)
  {
    RunKeepsInv(s, steps, s2);
  }

  // ----- what one notification per drain does not give -----

  /** A producer sleeps beside a free slot, and nobody has been told. */
  ghost predicate IdleSlot<T>(s: State<T>) {
    !s.needStop && SomeAddAsleep(s) && |s.queue| < s.max && !SomeAddNotified(s)
  }

  /** With one slot that cannot happen. */
  lemma OneSlotIsNeverIdle<T>(s: State<T>, steps: seq<Step<T>>, s2: State<T>)
    requires Init(s) && s.max == 1 && Run(s, steps, s2)
    ensures !IdleSlot(s2)
  {
    RunKeepsInv(s, steps, s2);
  }

  /** With two slots or more some run ends so: a drain frees every slot but wakes one producer only. */
  lemma MoreSlotsCanBeIdle<T>(max: nat, x: T) returns (s: State<T>, steps: seq<Step<T>>, s2: State<T>)
    requires max >= 2
    ensures Init(s) && s.max == max && Run(s, steps, s2) && IdleSlot(s2)
  {
    s := State(max, [], false, false, false, [], [], map[1 := Outside, 2 := Outside, 3 := Outside, 4 := Outside]);
    var fill, full := Fill(s, max, x);
    assert forall t :: t in full.pcs ==> full.pcs[t].Outside?;
    var a := Add(2, x, 2);
    var s3 := Apply(full, a);
    var b := Add(3, x, 3);
    var s4 := Apply(s3, b);
    assert s4.pcs[2].AddAsleep? && s4.pcs[3].AddAsleep?;
    var c := Take(4, 2);
    var s5 := Apply(s4, c);
    var d := RetryAdd(2, 2);
    s2 := Apply(s5, d);
    assert s2.pcs[3].AddAsleep?;
    steps := fill + [a] + [b] + [c] + [d];
    RunOneMore(s, fill, full, a);
    RunOneMore(s, fill + [a], s3, b);
    RunOneMore(s, fill + [a] + [b], s4, c);
    RunOneMore(s, fill + [a] + [b] + [c], s5, d);
  }

  lemma {:induction false} RunOneMore<T>(s: State<T>, steps: seq<Step<T>>, s2: State<T>, step: Step<T>)
    requires Run(s, steps, s2) && Enabled(s2, step)
    ensures Run(s, steps + [step], Apply(s2, step))
    decreases |steps|
  {
    var all := steps + [step];
    if steps == [] {
      assert all[1..] == [];
      assert Run(Apply(s, step), [], Apply(s2, step));
    } else {
      RunOneMore(Apply(s, steps[0]), steps[1..], s2, step);
      assert all[1..] == steps[1..] + [step];
    }
  }

  /** One thread fills the queue while all others stay outside. */
  lemma {:induction false} Fill<T>(s: State<T>, k: nat, x: T) returns (steps: seq<Step<T>>, s2: State<T>)
    requires !s.needStop && |s.queue| == 0 && k <= s.max && 1 in s.pcs && forall t :: t in s.pcs ==> s.pcs[t].Outside?
    ensures Run(s, steps, s2) && !s2.needStop && |s2.queue| == k && s2.max == s.max
    ensures s2.pcs == s.pcs
  {
    if k == 0 {
      steps, s2 := [], s;
    } else {
      var steps', s' := Fill(s, k - 1, x);
      RunOneMore(s, steps', s', Add(1, x, 1));
      steps, s2 := steps' + [Add(1, x, 1)], Apply(s', Add(1, x, 1));
      assert s2.pcs == s.pcs;
    }
  }
}
