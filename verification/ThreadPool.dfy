/**
 The asynchronous thread pool of spdlog over its blocking queue: worker threads, client threads
 that post messages, and the thread that runs the destructor.
 */
module ThreadPool {
  import opened Counting
  import opened MpmcQueue

  datatype Msg = Log(id: nat) | Flush(id: nat) | Terminate

  datatype Phase = Running | Posting(started: nat) | Joining | Joined

  /** exited gives for each finished worker the position in the log of the terminate it took. */
  datatype Pool = Pool(q: State<Msg>, workers: set<Tid>, destructor: Tid, phase: Phase, base: nat, exited: map<Tid, nat>)

  datatype PoolStep =
    | Queue(step: Step<Msg>)
    | BeginDestruction
    | PostTerminate
    | BeginJoin
    | Exit(w: Tid)
    | FinishJoin

  ghost predicate IsTerminate(p: Pool, t: Tid) {
    t in p.q.pcs && p.q.pcs[t].Returned? && p.q.pcs[t].index < |p.q.log| && p.q.log[p.q.pcs[t].index] == Terminate
  }

  /** Clients hold the pool alive while they post, so none of them is inside when destruction begins. */
  ghost predicate PoolEnabled(p: Pool, ps: PoolStep) {
    match ps
    case Queue(step) =>
      && Enabled(p.q, step)
      && (step.Enqueue? || step.EnqueueNowait? ==>
          p.phase.Running? && step.t !in p.workers && step.t != p.destructor && step.item != Terminate)
      && (step.Dequeue? ==> step.t in p.workers && step.t !in p.exited)
      && (step.Leave? ==> !IsTerminate(p, step.t))
    case BeginDestruction =>
      p.phase.Running? && forall t :: t in p.q.pcs && t !in p.workers ==> p.q.pcs[t] == Outside
    case PostTerminate =>
      p.phase.Posting? && p.phase.started < |p.workers| && Enabled(p.q, Enqueue(p.destructor, Terminate))
    case BeginJoin =>
      && p.phase.Posting? && p.phase.started == |p.workers|
      && p.destructor in p.q.pcs && p.q.pcs[p.destructor] == Outside
    case Exit(w) => w in p.workers && IsTerminate(p, w)
    case FinishJoin => p.phase.Joining? && p.exited.Keys == p.workers
  }

  ghost function PoolApply(p: Pool, ps: PoolStep): Pool
    requires PoolEnabled(p, ps)
  {
    match ps
    case Queue(step) => p.(q := Apply(p.q, step))
    case BeginDestruction => p.(phase := Posting(0), base := |p.q.log|)
    case PostTerminate => p.(q := Apply(p.q, Enqueue(p.destructor, Terminate)), phase := Posting(p.phase.started + 1))
    case BeginJoin => p.(phase := Joining)
    case Exit(w) => p.(q := Apply(p.q, Leave(w)), exited := p.exited[w := p.q.pcs[w].index])
    case FinishJoin => p.(phase := Joined)
  }

  ghost predicate PoolInit(p: Pool) {
    && Init(p.q) && p.phase == Running && p.exited == map[]
    && p.workers <= p.q.pcs.Keys && p.workers != {}
    && p.destructor in p.q.pcs && p.destructor !in p.workers
  }

  ghost predicate PoolRun(p: Pool, steps: seq<PoolStep>, p2: Pool)
    decreases |steps|
  {
    if steps == [] then p == p2
    else PoolEnabled(p, steps[0]) && PoolRun(PoolApply(p, steps[0]), steps[1..], p2)
  }

  // ----- the invariants -----

  ghost predicate PopSide(pc: Pc<Msg>) {
    pc.Outside? || pc.PopAsleep? || pc.PopAwake? || pc.MustNotifyPop? || pc.Returned?
  }

  ghost predicate PushSide(pc: Pc<Msg>) {
    pc.Outside? || pc.PushAsleep? || pc.PushAwake? || pc.MustNotifyPush?
  }

  ghost predicate Pending(pc: Pc<Msg>) {
    pc.PushAsleep? || pc.PushAwake?
  }

  ghost predicate Roles(p: Pool) {
    && p.workers <= p.q.pcs.Keys && p.workers != {}
    && p.destructor in p.q.pcs && p.destructor !in p.workers
    && (forall t :: t in p.workers ==> PopSide(p.q.pcs[t]))
    && (forall t :: t in p.q.pcs && t !in p.workers ==> PushSide(p.q.pcs[t]))
    && (forall t :: t in p.exited ==> t in p.workers && p.q.pcs[t] == Outside)
  }

  /** Before destruction no terminate message exists. */
  ghost predicate BeforeDestruction(p: Pool)
    requires p.destructor in p.q.pcs
  {
    && p.exited == map[] && p.q.pcs[p.destructor] == Outside
    && (forall i :: 0 <= i < |p.q.log| ==> p.q.log[i] != Terminate)
    && (forall t :: t in p.q.pcs && Pending(p.q.pcs[t]) ==> p.q.pcs[t].item != Terminate)
  }

  /** From then on only terminate messages are posted, by the destructor, and none is overrun. */
  ghost predicate DuringDestruction(p: Pool)
    requires p.destructor in p.q.pcs
  {
    && (forall t :: t in p.q.pcs && t !in p.workers && t != p.destructor ==> p.q.pcs[t] == Outside)
    && p.base <= |p.q.log|
    && (forall i :: 0 <= i < p.base ==> p.q.log[i] != Terminate)
    && (forall i :: p.base <= i < |p.q.log| ==> p.q.log[i] == Terminate)
    && (forall i :: i in p.q.dropped ==> i < p.base)
    && (Pending(p.q.pcs[p.destructor]) ==> p.q.pcs[p.destructor].item == Terminate)
    && match p.phase
       case Running => true
       case Posting(k) => k <= |p.workers| && |p.q.log| - p.base + One(Pending(p.q.pcs[p.destructor])) == k
       case Joining => p.q.pcs[p.destructor] == Outside && |p.q.log| - p.base == |p.workers|
       case Joined => p.q.pcs[p.destructor] == Outside && |p.q.log| - p.base == |p.workers| && p.exited.Keys == p.workers
  }

  /** The position in the log of the message in a thread's hands, if there is one. */
  function HeldIndex(pc: Pc<Msg>): int {
    if pc.MustNotifyPop? || pc.Returned? then pc.index else -1
  }

  /** A worker that has taken a terminate message, whether or not it has finished its loop yet. */
  ghost predicate HasTaken(p: Pool, w: Tid)
    requires w in p.q.pcs
  {
    w in p.exited || HeldIndex(p.q.pcs[w]) >= p.base
  }

  ghost function Took(p: Pool): set<Tid>
    requires p.workers <= p.q.pcs.Keys
  {
    set w | w in p.workers && HasTaken(p, w)
  }

  /** As many workers have taken a terminate as terminates have left the queue, each its own. */
  ghost predicate OneTerminateEach(p: Pool)
    requires p.workers <= p.q.pcs.Keys
  {
    && |Took(p)| == (if p.q.head > p.base then p.q.head - p.base else 0)
    && (forall w :: w in p.exited ==> p.base <= p.exited[w] < p.q.head && p.exited[w] in p.q.delivered)
    && (forall w, u :: w in p.exited && u in p.exited && p.exited[w] == p.exited[u] ==> w == u)
  }

  ghost predicate PoolInv(p: Pool) {
    && Inv(p.q) && Roles(p)
    && if p.phase.Running? then BeforeDestruction(p) else DuringDestruction(p) && OneTerminateEach(p)
  }

  /** The queue step that a pool step makes, if any. */
  ghost predicate MakesQueueStep(ps: PoolStep) {
    ps.Queue? || ps.PostTerminate? || ps.Exit?
  }

  ghost function QueueStepOf(p: Pool, ps: PoolStep): Step<Msg>
    requires MakesQueueStep(ps)
  {
    match ps
    case Queue(step) => step
    case PostTerminate => Enqueue(p.destructor, Terminate)
    case Exit(w) => Leave(w)
  }

  lemma StepKeepsQueueInv(p: Pool, ps: PoolStep)
    requires PoolInv(p) && PoolEnabled(p, ps)
    ensures Inv(PoolApply(p, ps).q) && PoolApply(p, ps).q.pcs.Keys == p.q.pcs.Keys
  {
    if MakesQueueStep(ps) {
      StepKeepsInv(p.q, QueueStepOf(p, ps));
    }
  }

  /** Where a queue step can put a thread. */
  lemma StepOnThread(s: State<Msg>, step: Step<Msg>, u: Tid)
    requires Enabled(s, step) && u in s.pcs
    ensures u in Apply(s, step).pcs
    ensures var pc, pc2 := s.pcs[u], Apply(s, step).pcs[u];
      && (PushSide(pc) && !(step.Dequeue? && u == step.t) ==> PushSide(pc2))
      && (PopSide(pc) && !(u == step.t && (step.Enqueue? || step.EnqueueNowait?)) ==> PopSide(pc2))
      && (pc == Outside && u != step.t ==> pc2 == Outside)
      && (Pending(pc2) ==> (Pending(pc) && pc2.item == pc.item) || (step.Enqueue? && u == step.t && pc2.item == step.item))
  {
  }

  lemma StepKeepsRoles(p: Pool, ps: PoolStep)
    requires Roles(p) && PoolEnabled(p, ps)
    ensures Roles(PoolApply(p, ps))
  {
    if MakesQueueStep(ps) {
      var step := QueueStepOf(p, ps);
      forall u | u in p.q.pcs
        ensures u in PoolApply(p, ps).q.pcs
        ensures u in p.workers ==> PopSide(PoolApply(p, ps).q.pcs[u])
        ensures u !in p.workers ==> PushSide(PoolApply(p, ps).q.pcs[u])
        ensures u in p.exited ==> PoolApply(p, ps).q.pcs[u] == Outside
      {
        StepOnThread(p.q, step, u);
      }
    }
  }

  lemma StepKeepsBefore(p: Pool, ps: PoolStep)
    requires PoolInv(p) && p.phase.Running? && PoolEnabled(p, ps) && !ps.BeginDestruction?
    ensures PoolApply(p, ps).phase.Running? && p.destructor in PoolApply(p, ps).q.pcs
    ensures BeforeDestruction(PoolApply(p, ps))
  {
    var step := QueueStepOf(p, ps);
    forall u | u in p.q.pcs
      ensures u in PoolApply(p, ps).q.pcs
      ensures Pending(PoolApply(p, ps).q.pcs[u]) ==> PoolApply(p, ps).q.pcs[u].item != Terminate
      ensures u == p.destructor ==> PoolApply(p, ps).q.pcs[u] == Outside
    {
      StepOnThread(p.q, step, u);
    }
  }

  lemma StepBeginsDestruction(p: Pool)
    requires PoolInv(p) && PoolEnabled(p, BeginDestruction)
    ensures var p2 := PoolApply(p, BeginDestruction); DuringDestruction(p2) && OneTerminateEach(p2)
  {
    var p2 := PoolApply(p, BeginDestruction);
    forall w | w in p.workers
      ensures !HasTaken(p2, w)
    {
      if p.q.pcs[w].MustNotifyPop? || p.q.pcs[w].Returned? {
        assert Holds(p.q.pcs[w], p.q.pcs[w].index);
        assert HeldFacts(p.q, p.q.pcs[w].index);
      }
    }
    assert Took(p2) == {};
  }

  /** During destruction the log grows only by the destructor's terminate messages. */
  lemma StepKeepsDuring(p: Pool, ps: PoolStep)
    requires PoolInv(p) && !p.phase.Running? && PoolEnabled(p, ps)
    ensures p.destructor in PoolApply(p, ps).q.pcs && DuringDestruction(PoolApply(p, ps))
  {
    if MakesQueueStep(ps) {
      OthersStayOutside(p, ps);
      StepOnThread(p.q, QueueStepOf(p, ps), p.destructor);
      StepOnLog(p, ps);
      StepOnPosting(p, ps);
    }
  }

  lemma OthersStayOutside(p: Pool, ps: PoolStep)
    requires PoolInv(p) && !p.phase.Running? && PoolEnabled(p, ps) && MakesQueueStep(ps)
    ensures var q2 := Apply(p.q, QueueStepOf(p, ps));
      forall u :: u in q2.pcs && u !in p.workers && u != p.destructor ==> q2.pcs[u] == Outside
  {
    var step := QueueStepOf(p, ps);
    var q2 := Apply(p.q, step);
    forall u | u in q2.pcs && u !in p.workers && u != p.destructor
      ensures q2.pcs[u] == Outside
    {
      StepOnThread(p.q, step, u);
    }
  }

  lemma StepOnLog(p: Pool, ps: PoolStep)
    requires PoolInv(p) && !p.phase.Running? && PoolEnabled(p, ps) && MakesQueueStep(ps)
    ensures var q, q2 := p.q, Apply(p.q, QueueStepOf(p, ps));
      && q2.dropped == q.dropped && p.destructor in q2.pcs
      && |q.log| <= |q2.log| <= |q.log| + 1 && q2.log[..|q.log|] == q.log
      && (|q2.log| > |q.log| ==> q2.log[|q.log|] == Terminate)
  {
  }

  lemma StepOnPosting(p: Pool, ps: PoolStep)
    requires PoolInv(p) && !p.phase.Running? && PoolEnabled(p, ps) && MakesQueueStep(ps)
    ensures var q, q2 := p.q, Apply(p.q, QueueStepOf(p, ps));
      && p.destructor in q2.pcs
      && |q2.log| + One(Pending(q2.pcs[p.destructor])) ==
         |q.log| + One(Pending(q.pcs[p.destructor])) + One(ps.PostTerminate?)
  {
  }

  /** The worker that a step hands the oldest message to. */
  ghost predicate Pops(p: Pool, ps: PoolStep, w: Tid)
    requires PoolEnabled(p, ps)
  {
    ps.Queue? && w == ps.step.t && (ps.step.Dequeue? || ps.step.RetryPop?) && Size(p.q) > 0
  }

  lemma StepOnHeldIndex(s: State<Msg>, step: Step<Msg>, u: Tid)
    requires Enabled(s, step) && u in s.pcs
    ensures u in Apply(s, step).pcs
    ensures var i, i2 := HeldIndex(s.pcs[u]), HeldIndex(Apply(s, step).pcs[u]);
      if u == step.t && (step.Dequeue? || step.RetryPop?) && Size(s) > 0 then i == -1 && i2 == s.head
      else if u == step.t && step.Leave? then i == s.pcs[u].index && i2 == -1
      else i2 == i
  {
  }

  lemma StepOnTaken(p: Pool, ps: PoolStep, w: Tid)
    requires PoolInv(p) && !p.phase.Running? && PoolEnabled(p, ps) && MakesQueueStep(ps) && w in p.workers
    ensures w in PoolApply(p, ps).q.pcs
    ensures HasTaken(PoolApply(p, ps), w) <==> HasTaken(p, w) || (Pops(p, ps, w) && p.q.head >= p.base)
    ensures Pops(p, ps, w) ==> !HasTaken(p, w)
  {
    StepOnHeldIndex(p.q, QueueStepOf(p, ps), w);
    if p.q.pcs[w].Returned? {
      assert Holds(p.q.pcs[w], p.q.pcs[w].index);
      assert HeldFacts(p.q, p.q.pcs[w].index);
    }
  }

  lemma StepOnHead(p: Pool, ps: PoolStep)
    requires PoolInv(p) && !p.phase.Running? && PoolEnabled(p, ps) && MakesQueueStep(ps)
    ensures var t := QueueStepOf(p, ps).t;
      && PoolApply(p, ps).q.head == p.q.head + One(Pops(p, ps, t))
      && (Pops(p, ps, t) ==> t in p.workers)
  {
  }

  lemma StepOnTook(p: Pool, ps: PoolStep)
    requires PoolInv(p) && !p.phase.Running? && PoolEnabled(p, ps) && MakesQueueStep(ps)
    ensures PoolApply(p, ps).workers <= PoolApply(p, ps).q.pcs.Keys
    ensures var t := QueueStepOf(p, ps).t;
      |Took(PoolApply(p, ps))| == |Took(p)| + One(Pops(p, ps, t) && p.q.head >= p.base)
  {
    var t := QueueStepOf(p, ps).t;
    StepKeepsQueueInv(p, ps);
    TookAfter(p, ps, PoolApply(p, ps), t);
    SizeWith(Took(p), t);
  }

  lemma TookAfter(p: Pool, ps: PoolStep, p2: Pool, t: Tid)
    requires PoolInv(p) && !p.phase.Running? && PoolEnabled(p, ps) && MakesQueueStep(ps)
    requires p2 == PoolApply(p, ps) && t == QueueStepOf(p, ps).t
    ensures Took(p2) == if Pops(p, ps, t) && p.q.head >= p.base then Took(p) + {t} else Took(p)
    ensures Pops(p, ps, t) ==> t !in Took(p)
  {
    StepOnHead(p, ps);
    forall w | w in p.workers
      ensures w in Took(p2) <==> w in Took(p) || (Pops(p, ps, w) && p.q.head >= p.base)
      ensures Pops(p, ps, w) ==> w !in Took(p)
    {
      StepOnTaken(p, ps, w);
    }
  }

  lemma StepKeepsTaking(p: Pool, ps: PoolStep)
    requires PoolInv(p) && !p.phase.Running? && PoolEnabled(p, ps)
    ensures PoolApply(p, ps).workers <= PoolApply(p, ps).q.pcs.Keys
    ensures OneTerminateEach(PoolApply(p, ps))
  {
    if MakesQueueStep(ps) {
      StepOnTook(p, ps);
      StepOnHead(p, ps);
      StepKeepsExits(p, ps);
    } else {
      assert Took(PoolApply(p, ps)) == Took(p);
    }
  }

  lemma StepKeepsExits(p: Pool, ps: PoolStep)
    requires PoolInv(p) && !p.phase.Running? && PoolEnabled(p, ps) && MakesQueueStep(ps)
    ensures var p2 := PoolApply(p, ps);
      && (forall w :: w in p2.exited ==> p2.base <= p2.exited[w] < p2.q.head && p2.exited[w] in p2.q.delivered)
      && (forall w, u :: w in p2.exited && u in p2.exited && p2.exited[w] == p2.exited[u] ==> w == u)
  {
    StepOnHead(p, ps);
    match ps {
      case Exit(w) =>
        assert Holds(p.q.pcs[w], p.q.pcs[w].index);
        assert HeldFacts(p.q, p.q.pcs[w].index);
      case _ =>
    }
  }

  lemma StepKeepsPoolInv(p: Pool, ps: PoolStep)
    requires PoolInv(p) && PoolEnabled(p, ps)
    ensures PoolInv(PoolApply(p, ps))
  {
    StepKeepsQueueInv(p, ps);
    StepKeepsRoles(p, ps);
    if !p.phase.Running? {
      StepKeepsDuring(p, ps);
      StepKeepsTaking(p, ps);
    } else if ps.BeginDestruction? {
      StepBeginsDestruction(p);
    } else {
      StepKeepsBefore(p, ps);
    }
  }

  lemma {:induction false} PoolRunKeepsInv(p: Pool, steps: seq<PoolStep>, p2: Pool)
    requires PoolInv(p) && PoolRun(p, steps, p2)
    ensures PoolInv(p2)
    decreases |steps|
  {
    if steps != [] {
      StepKeepsPoolInv(p, steps[0]);
      PoolRunKeepsInv(PoolApply(p, steps[0]), steps[1..], p2);
    }
  }

  lemma EveryReachablePool(p: Pool, steps: seq<PoolStep>, p2: Pool)
    requires PoolInit(p) && PoolRun(p, steps, p2)
    ensures PoolInv(p2)
  {
    InitInv(p.q);
    PoolRunKeepsInv(p, steps, p2);
  }

  // ----- what destruction guarantees -----

  /** The destructor's blocking posts always find a worker that has not taken its terminate yet. */
  lemma LiveWorkers(p: Pool, steps: seq<PoolStep>, p2: Pool)
    requires PoolInit(p) && PoolRun(p, steps, p2) && !p2.phase.Running?
    ensures p2.workers <= p2.q.pcs.Keys
    ensures |p2.workers - Took(p2)| == |p2.workers| - (if p2.q.head > p2.base then p2.q.head - p2.base else 0)
    ensures p2.destructor in p2.q.pcs && Pending(p2.q.pcs[p2.destructor]) ==> |p2.workers - Took(p2)| >= 1
  {
    EveryReachablePool(p, steps, p2);
    assert p2.workers == (p2.workers - Took(p2)) + Took(p2);
  }

  /**
   When all joins have returned the queue is empty, each worker took exactly one terminate, and
   every log or flush message ever accepted was processed or counted as overrun, never both.
   */
  lemma AllMessagesHandled(p: Pool, steps: seq<PoolStep>, p2: Pool)
    requires PoolInit(p) && PoolRun(p, steps, p2) && p2.phase.Joined?
    ensures p2.q.head == |p2.q.log| == p2.base + |p2.workers| && Contents(p2.q) == []
    ensures forall i: nat :: i < p2.base ==> (p2.q.log[i] != Terminate && (i in p2.q.delivered <==> i !in p2.q.dropped))
    ensures p2.exited.Keys == p2.workers
    ensures forall w :: w in p2.workers ==>
      p2.exited[w] < |p2.q.log| && p2.q.log[p2.exited[w]] == Terminate && p2.exited[w] in p2.q.delivered
    ensures forall w, u :: w in p2.workers && u in p2.workers && p2.exited[w] == p2.exited[u] ==> w == u
  {
    EveryReachablePool(p, steps, p2);
    assert Took(p2) == p2.workers;
    forall i: nat | i < p2.base
      ensures i in p2.q.delivered <==> i !in p2.q.dropped
    {
      assert forall t :: t in p2.q.pcs ==> !Holds(p2.q.pcs[t], i);
      assert !HeldFacts(p2.q, i);
    }
  }

  /** How often clients have posted a message. */
  ghost function Posted(steps: seq<PoolStep>, m: Msg): int {
    if steps == [] then 0
    else
      One(steps[0].Queue? && (steps[0].step.Enqueue? || steps[0].step.EnqueueNowait?) && steps[0].step.item == m)
      + Posted(steps[1..], m)
  }

  lemma StepKeepsMessages(p: Pool, ps: PoolStep, m: Msg)
    requires PoolEnabled(p, ps) && m != Terminate
    ensures Known(PoolApply(p, ps).q, m) == Known(p.q, m)
      + One(ps.Queue? && (ps.step.Enqueue? || ps.step.EnqueueNowait?) && ps.step.item == m)
  {
    if MakesQueueStep(ps) {
      StepKeepsItems(p.q, QueueStepOf(p, ps), m);
    }
  }

  lemma {:induction false} RunKeepsMessages(p: Pool, steps: seq<PoolStep>, p2: Pool, m: Msg)
    requires PoolRun(p, steps, p2) && m != Terminate
    ensures Known(p2.q, m) == Known(p.q, m) + Posted(steps, m)
    decreases |steps|
  {
    if steps != [] {
      StepKeepsMessages(p, steps[0], m);
      RunKeepsMessages(PoolApply(p, steps[0]), steps[1..], p2, m);
    }
  }

  lemma TailOfTerminates(log: seq<Msg>, base: nat, m: Msg)
    requires base <= |log| && m != Terminate && forall i :: base <= i < |log| ==> log[i] == Terminate
    ensures multiset(log[..base])[m] == multiset(log)[m]
  {
    assert log == log[..base] + log[base..];
    assert m !in log[base..];
  }

  /**
   When all joins have returned, the messages that were delivered or dropped are the messages that
   clients posted: each as often as it was posted.
   */
  lemma EveryPostIsHandled(p: Pool, steps: seq<PoolStep>, p2: Pool, m: Msg)
    requires PoolInit(p) && PoolRun(p, steps, p2) && p2.phase.Joined? && m != Terminate
    ensures p2.base <= |p2.q.log| && multiset(p2.q.log[..p2.base])[m] == Posted(steps, m)
  {
    EveryReachablePool(p, steps, p2);
    RunKeepsMessages(p, steps, p2, m);
    assert Carriers(p.q, m) == {};
    assert Carriers(p2.q, m) == {};
    TailOfTerminates(p2.q.log, p2.base, m);
  }

  /** Steps that no clock and no spurious wake-up is needed for. */
  ghost predicate Productive(ps: PoolStep) {
    ps.Queue? ==> !ps.step.WakePush? && !ps.step.WakePop? && !ps.step.TimeOut?
  }

  ghost predicate CanStep(p: Pool, ps: PoolStep) {
    PoolEnabled(p, ps) && Productive(ps)
  }

  /** A thread inside the queue and not asleep can go on, and so can a worker between messages. */
  lemma AwakeCanStep(p: Pool, t: Tid) returns (ps: PoolStep)
    requires PoolInv(p) && !p.phase.Running? && t in p.q.pcs
    requires !p.q.pcs[t].PushAsleep? && !p.q.pcs[t].PopAsleep?
    requires p.q.pcs[t].Outside? ==> t in p.workers && t !in p.exited
    ensures CanStep(p, ps)
  {
    match p.q.pcs[t]
    case Outside => ps := Queue(Dequeue(t));
    case PushAwake(_, _) => ps := Queue(RetryPush(t));
    case PopAwake(_, _) => ps := Queue(RetryPop(t));
    case MustNotifyPush =>
      if w :| w in p.q.pcs && p.q.pcs[w].PopAsleep? {
        ps := Queue(NotifyPush(t, w));
      } else {
        ps := Queue(NotifyPushNobody(t));
      }
    case MustNotifyPop(_) =>
      if w :| w in p.q.pcs && p.q.pcs[w].PushAsleep? {
        ps := Queue(NotifyPop(t, w));
      } else {
        ps := Queue(NotifyPopNobody(t));
      }
    case Returned(_) =>
      ps := if IsTerminate(p, t) then Exit(t) else Queue(Leave(t));
  }

  lemma SleeperCounts(s: State<Msg>, t: Tid, k: Kind)
    requires t in s.pcs && KindOf(s.pcs[t]) == k
    ensures Count(s, k) > 0
  {
    assert t in Having(s.pcs, k);
  }

  /** A worker that has not taken its terminate can move, or a notified thread can. */
  lemma WorkerOrHelperCanStep(p: Pool, w: Tid) returns (ps: PoolStep)
    requires PoolInv(p) && !p.phase.Running? && w in p.workers && w !in p.exited && Size(p.q) > 0
    ensures CanStep(p, ps)
  {
    if p.q.pcs[w].PopAsleep? {
      SleeperCounts(p.q, w, PopSleeper);
      var t := SomeOf(p.q, PopNotified, PushNotifier);
      ps := AwakeCanStep(p, t);
    } else {
      ps := AwakeCanStep(p, w);
    }
  }

  /** Destruction never gets stuck: some step needs neither a time-out nor a spurious wake-up. */
  lemma DestructionProgresses(p: Pool) returns (ps: PoolStep)
    requires PoolInv(p) && (p.phase.Posting? || p.phase.Joining?) && p.q.cap >= 1
    ensures CanStep(p, ps)
  {
    var pc := p.q.pcs[p.destructor];
    if p.phase.Posting? && pc == Outside {
      ps := if p.phase.started < |p.workers| then PostTerminate else BeginJoin;
    } else if p.phase.Posting? && !pc.PushAsleep? {
      ps := AwakeCanStep(p, p.destructor);
    } else if p.phase.Posting? && Size(p.q) < p.q.cap {
      SleeperCounts(p.q, p.destructor, PushSleeper);
      var t := SomeOf(p.q, PushNotified, PopNotifier);
      ps := AwakeCanStep(p, t);
    } else if p.phase.Posting? {
      var w := SomeLiveWorker(p);
      ps := WorkerOrHelperCanStep(p, w);
    } else if p.exited.Keys == p.workers {
      ps := FinishJoin;
    } else {
      var w :| w in p.workers && w !in p.exited;
      if Size(p.q) > 0 {
        ps := WorkerOrHelperCanStep(p, w);
      } else {
        AllHaveTaken(p, w);
        ps := AwakeCanStep(p, w);
      }
    }
  }

  lemma SomeLiveWorker(p: Pool) returns (w: Tid)
    requires PoolInv(p) && p.phase.Posting? && Pending(p.q.pcs[p.destructor])
    ensures w in p.workers && w !in p.exited
  {
    assert p.workers == Took(p) + (p.workers - Took(p));
    w :| w in p.workers - Took(p);
  }

  lemma AllHaveTaken(p: Pool, w: Tid)
    requires PoolInv(p) && p.phase.Joining? && Size(p.q) == 0 && w in p.workers
    ensures HasTaken(p, w)
  {
    SubsetOfSameSize(Took(p), p.workers);
    assert w in Took(p);
  }

  lemma SubsetOfSameSize(a: set<Tid>, b: set<Tid>)
    requires a <= b && |a| == |b|
    ensures a == b
  {
    assert b == a + (b - a);
  }

  /** With no capacity the first terminate message never enters the queue and nothing is joined. */
  lemma NoCapacityNeverJoins(p: Pool, steps: seq<PoolStep>, p2: Pool)
    requires PoolInit(p) && p.q.cap == 0 && PoolRun(p, steps, p2)
    ensures !p2.phase.Joining? && !p2.phase.Joined?
  {
    InitInv(p.q);
    NoCapacityRun(p, steps, p2);
  }

  ghost predicate NothingPosted(p: Pool) {
    p.q.cap == 0 && (p.phase.Running? || (p.phase.Posting? && p.base == |p.q.log|))
  }

  lemma {:induction false} NoCapacityRun(p: Pool, steps: seq<PoolStep>, p2: Pool)
    requires PoolInv(p) && NothingPosted(p) && PoolRun(p, steps, p2)
    ensures NothingPosted(p2)
    decreases |steps|
  {
    if steps != [] {
      StepKeepsPoolInv(p, steps[0]);
      NoCapacityStep(p, steps[0]);
      NoCapacityRun(PoolApply(p, steps[0]), steps[1..], p2);
    }
  }

  lemma NoCapacityStep(p: Pool, ps: PoolStep)
    requires PoolInv(p) && NothingPosted(p) && PoolEnabled(p, ps)
    ensures NothingPosted(PoolApply(p, ps))
  {
  }

  // ----- destruction ends -----

  /** The sum of the values of a map. */
  ghost function Sum(m: map<Tid, nat>): nat
    decreases |m|
  {
    if m == map[] then 0
    else
      var t :| t in m;
      m[t] + Sum(m - {t})
  }

  lemma {:induction false} SumSplit(m: map<Tid, nat>, t: Tid)
    requires t in m
    ensures Sum(m) == m[t] + Sum(m - {t})
    decreases |m|
  {
    var u :| u in m && Sum(m) == m[u] + Sum(m - {u});
    if u != t {
      SumSplit(m - {u}, t);
      SumSplit(m - {t}, u);
      assert m - {u} - {t} == m - {t} - {u};
    }
  }

  lemma SumUpdate(m: map<Tid, nat>, t: Tid, v: nat)
    requires t in m
    ensures Sum(m[t := v]) == Sum(m) - m[t] + v
  {
    SumSplit(m, t);
    SumSplit(m[t := v], t);
    assert m[t := v] - {t} == m - {t};
  }

  /** How many steps a thread can still cause by itself before it sleeps or ends. */
  ghost function Weight(p: Pool, t: Tid): nat
    requires t in p.q.pcs
  {
    match p.q.pcs[t]
    case Outside => if t in p.workers && t !in p.exited then 1 else 0
    case PushAsleep(_) => 7
    case PushAwake(_, _) => 8
    case MustNotifyPush => 3
    case PopAsleep => 0
    case PopAwake(_, _) => 2
    case MustNotifyPop(_) => 4
    case Returned(_) => 2
  }

  ghost function Weights(p: Pool): map<Tid, nat> {
    map t | t in p.q.pcs :: Weight(p, t)
  }

  /** A bound on the productive steps that are left. */
  ghost function Rank(p: Pool): int {
    Sum(Weights(p)) + 4 * Size(p.q) + match p.phase
      case Running => 0
      case Posting(k) => 8 * (|p.workers| - k) + 2
      case Joining => 1
      case Joined => 0
  }

  /** The waiter that a notification wakes, or the thread itself. */
  ghost function Waiter(step: Step<Msg>): Tid {
    if step.NotifyPush? || step.NotifyPop? then step.waiter else step.t
  }

  lemma StepOnWeights(p: Pool, ps: PoolStep)
    requires PoolEnabled(p, ps) && MakesQueueStep(ps)
    ensures PoolApply(p, ps).q.pcs.Keys == p.q.pcs.Keys
    ensures var p2, t, w := PoolApply(p, ps), QueueStepOf(p, ps).t, Waiter(QueueStepOf(p, ps));
      && t in p.q.pcs && w in p.q.pcs
      && Sum(Weights(p2)) == Sum(Weights(p)) - Weight(p, t) + Weight(p2, t)
         + if w == t then 0 else Weight(p2, w) - Weight(p, w)
  {
    var step := QueueStepOf(p, ps);
    StepKeepsThreads(p.q, step);
    forall u | u in p.q.pcs && u != step.t && u != Waiter(step)
      ensures Weight(PoolApply(p, ps), u) == Weight(p, u)
    {
      OnlyTwoMove(p.q, step, u);
    }
    SumOfTwo(p, PoolApply(p, ps), step.t, Waiter(step));
  }

  lemma SumOfTwo(p: Pool, p2: Pool, t: Tid, w: Tid)
    requires p2.q.pcs.Keys == p.q.pcs.Keys && t in p.q.pcs && w in p.q.pcs
    requires forall u :: u in p.q.pcs && u != t && u != w ==> Weight(p2, u) == Weight(p, u)
    ensures Sum(Weights(p2)) == Sum(Weights(p)) - Weight(p, t) + Weight(p2, t)
         + if w == t then 0 else Weight(p2, w) - Weight(p, w)
  {
    var m := Weights(p)[w := Weight(p2, w)];
    assert Weights(p2) == m[t := Weight(p2, t)];
    SumUpdate(Weights(p), w, Weight(p2, w));
    SumUpdate(m, t, Weight(p2, t));
  }

  lemma StepKeepsThreads(s: State<Msg>, step: Step<Msg>)
    requires Enabled(s, step)
    ensures Apply(s, step).pcs.Keys == s.pcs.Keys && step.t in s.pcs && Waiter(step) in s.pcs
  {
  }

  lemma OnlyTwoMove(s: State<Msg>, step: Step<Msg>, u: Tid)
    requires Enabled(s, step) && u in s.pcs && u != step.t && u != Waiter(step)
    ensures u in Apply(s, step).pcs && Apply(s, step).pcs[u] == s.pcs[u]
  {
  }

  /** The change of one step: what the threads gain is less than what the queue and the posts lose. */
  lemma StepOnPotential(p: Pool, ps: PoolStep)
    requires Roles(p) && !p.phase.Running? && CanStep(p, ps) && MakesQueueStep(ps)
    requires PoolApply(p, ps).q.pcs.Keys == p.q.pcs.Keys
    ensures var p2, t, w := PoolApply(p, ps), QueueStepOf(p, ps).t, Waiter(QueueStepOf(p, ps));
      && t in p.q.pcs && w in p.q.pcs
      && Weight(p2, t) + (if w == t then 0 else Weight(p2, w) - Weight(p, w)) + 4 * (Size(p2.q) - Size(p.q))
         < Weight(p, t) + 8 * One(ps.PostTerminate?)
  {
    match QueueStepOf(p, ps)
    case Enqueue(_, _) =>
    case RetryPush(_) =>
    case NotifyPush(_, _) =>
    case NotifyPushNobody(_) =>
    case Dequeue(_) =>
    case RetryPop(_) =>
    case NotifyPop(_, _) =>
    case NotifyPopNobody(_) =>
    case Leave(_) =>
  }

  lemma StepLowersRank(p: Pool, ps: PoolStep)
    requires PoolInv(p) && !p.phase.Running? && CanStep(p, ps)
    ensures Rank(PoolApply(p, ps)) < Rank(p)
  {
    if MakesQueueStep(ps) {
      StepOnWeights(p, ps);
      StepOnPotential(p, ps);
    } else {
      assert Weights(PoolApply(p, ps)) == Weights(p);
    }
  }

  ghost predicate AllProductive(steps: seq<PoolStep>) {
    forall i :: 0 <= i < |steps| ==> Productive(steps[i])
  }

  /**
   The destructor returns: from any state of destruction at most Rank steps can be taken that
   need no clock and no spurious wake-up, and where no such step is left all joins have returned.
   */
  lemma {:induction false} DestructorReturns(p: Pool, steps: seq<PoolStep>, p2: Pool)
    requires PoolInv(p) && !p.phase.Running? && p.q.cap >= 1
    requires PoolRun(p, steps, p2) && AllProductive(steps)
    ensures |steps| <= Rank(p)
    ensures (forall ps :: !CanStep(p2, ps)) ==> p2.phase.Joined?
    decreases |steps|
  {
    if steps == [] {
      RankNonnegative(p);
      NotStuck(p);
    } else {
      var p1 := ProductiveStep(p, steps);
      DestructorReturns(p1, steps[1..], p2);
    }
  }

  lemma OneProductiveStep(p: Pool, ps: PoolStep) returns (p1: Pool)
    requires PoolInv(p) && !p.phase.Running? && CanStep(p, ps)
    ensures p1 == PoolApply(p, ps) && PoolInv(p1) && !p1.phase.Running? && p1.q.cap == p.q.cap && Rank(p1) < Rank(p)
  {
    p1 := PoolApply(p, ps);
    StepLowersRank(p, ps);
    StepKeepsPoolInv(p, ps);
    PhaseAndCapacity(p, ps);
  }

  lemma PhaseAndCapacity(p: Pool, ps: PoolStep)
    requires !p.phase.Running? && PoolEnabled(p, ps)
    ensures !PoolApply(p, ps).phase.Running? && PoolApply(p, ps).q.cap == p.q.cap
  {
  }

  lemma ProductiveStep(p: Pool, steps: seq<PoolStep>) returns (p1: Pool)
    requires PoolInv(p) && !p.phase.Running? && steps != [] && AllProductive(steps) && PoolEnabled(p, steps[0])
    ensures p1 == PoolApply(p, steps[0]) && PoolInv(p1) && !p1.phase.Running? && p1.q.cap == p.q.cap
    ensures Rank(p1) < Rank(p) && AllProductive(steps[1..])
  {
    p1 := OneProductiveStep(p, steps[0]);
    forall i | 0 <= i < |steps[1..]|
      ensures Productive(steps[1..][i])
    {
      assert steps[1..][i] == steps[i + 1];
    }
  }

  lemma NotStuck(p: Pool)
    requires PoolInv(p) && !p.phase.Running? && p.q.cap >= 1
    ensures (forall ps :: !CanStep(p, ps)) ==> p.phase.Joined?
  {
    if !p.phase.Joined? {
      var ps := DestructionProgresses(p);
    }
  }

  lemma RankNonnegative(p: Pool)
    requires PoolInv(p) && !p.phase.Running?
    ensures Rank(p) >= 0
  {
  }
}
