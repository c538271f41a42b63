/** Progress: work never gets stuck, and a stopped pool winds down to the last thread. */
module WorkerPoolDrain {
  import opened WorkerPool
  import opened WorkerPoolProofs

  /** Steps that happen without outside calls and without relying on spurious wakeups. */
  predicate Proceeds(a: Action) {
    !External(a) && !a.SpuriousSubmitter? && !a.SpuriousWorker?
  }

  ghost predicate CanProceed(p: System) {
    exists a :: Proceeds(a) && Enabled(p, a)
  }

  // ---------------------------------------------------------------- a decreasing measure

  function Total<T>(threads: seq<T>, rank: T -> nat): nat {
    if threads == [] then 0 else Total(threads[..|threads| - 1], rank) + rank(threads[|threads| - 1])
  }

  lemma {:induction false} TotalUpdate<T>(threads: seq<T>, i: nat, t: T, rank: T -> nat)
    requires i < |threads|
    ensures Total(threads[i := t], rank) + rank(threads[i]) == Total(threads, rank) + rank(t)
  {
    var n := |threads| - 1;
    if i == n {
      assert threads[i := t][..n] == threads[..n];
    } else {
      TotalUpdate(threads[..n], i, t, rank);
      assert threads[i := t][..n] == threads[..n][i := t];
    }
  }

  lemma {:induction false} TotalMonotone<T>(a: seq<T>, b: seq<T>, rank: T -> nat)
    requires |a| == |b| && forall i | 0 <= i < |a| :: rank(a[i]) <= rank(b[i])
    ensures Total(a, rank) <= Total(b, rank)
  {
    if a != [] {
      TotalMonotone(a[..|a| - 1], b[..|b| - 1], rank);
    }
  }

  function WorkerRank(): Worker -> nat {
    (w: Worker) => match w
      case Exited => 0
      case Ready => 1
      case Sleeping => 2
      case Running(_) => 2
      case Taken(_) => 3
  }

  function SubmitterRank(): Submitter -> nat {
    (s: Submitter) => match s
      case Idle => 0
      case Notifying => 1
      case Entering(_) => 2
      case Woken(_) => 2
      case Blocked(_) => 3
  }

  function StopperRank(): Stopper -> nat {
    (k: Stopper) => match k
      case Outside => 0
      case Returned(_) => 0
      case Joining => 1
      case WakingWorkers => 2
      case WakingSubmitters => 3
      case Stopping => 4
  }

  /** How many more steps a stopped pool can take. */
  function Remaining(p: System): nat {
    4 * |p.shared.queue| + Total(p.workers, WorkerRank()) + Total(p.submitters, SubmitterRank())
    + Total(p.stoppers, StopperRank())
  }

  /** In a stopped pool every step but an outside call, spurious wakeups included, uses the measure up. */
  lemma StepUsesUp(cfg: PoolConfig, p: System, a: Action)
    requires Enabled(p, a) && !External(a) && p.shared.stopping && !p.shared.accepting
    ensures var q := Step(cfg, p, a);
      Remaining(q) < Remaining(p) && q.shared.stopping && !q.shared.accepting
  {
    hide Total;
    var q := Step(cfg, p, a);
    match a
    case EnterSubmit(s) =>
      TotalUpdate(p.submitters, s, Idle, SubmitterRank());
    case NotifyWork(s, woken) =>
      TotalUpdate(p.submitters, s, Idle, SubmitterRank());
      if woken >= 0 {
        TotalUpdate(p.workers, woken, Ready, WorkerRank());
      }
    case EnterWorker(w) =>
      TotalUpdate(p.workers, w, q.workers[w], WorkerRank());
    case NotifySpace(w, woken) =>
      TotalUpdate(p.workers, w, q.workers[w], WorkerRank());
      if woken >= 0 {
        TotalUpdate(p.submitters, woken, q.submitters[woken], SubmitterRank());
      }
    case TaskReturns(w, _) =>
      TotalUpdate(p.workers, w, Ready, WorkerRank());
    case EnterShutdown(k) =>
      TotalUpdate(p.stoppers, k, Returned(false), StopperRank());
    case NotifyAllSpace(k) =>
      TotalUpdate(p.stoppers, k, WakingWorkers, StopperRank());
      TotalMonotone(q.submitters, p.submitters, SubmitterRank());
    case NotifyAllWork(k) =>
      TotalUpdate(p.stoppers, k, Joining, StopperRank());
      TotalMonotone(q.workers, p.workers, WorkerRank());
    case Join(k) =>
      TotalUpdate(p.stoppers, k, Returned(true), StopperRank());
    case SpuriousSubmitter(s) =>
      TotalUpdate(p.submitters, s, q.submitters[s], SubmitterRank());
    case SpuriousWorker(w) =>
      TotalUpdate(p.workers, w, Ready, WorkerRank());
  }

  // ---------------------------------------------------------------- somebody can always go on

  predicate WorkerActive(w: Worker) {
    w.Ready? || w.Taken? || w.Running?
  }

  lemma ActiveWorkerProceeds(p: System, w: nat)
    requires w < |p.workers| && WorkerActive(p.workers[w])
    ensures CanProceed(p)
  {
    match p.workers[w]
    case Ready =>
      assert Enabled(p, EnterWorker(w));
    case Running(_) =>
      assert Enabled(p, TaskReturns(w, true));
    case Taken(_) =>
      if SomeBlocked(p.submitters) {
        var s :| 0 <= s < |p.submitters| && p.submitters[s].Blocked?;
        assert Enabled(p, NotifySpace(w, s));
      } else {
        assert Enabled(p, NotifySpace(w, -1));
      }
  }

  lemma ActiveSubmitterProceeds(p: System, s: nat)
    requires s < |p.submitters| && !p.submitters[s].Idle? && !p.submitters[s].Blocked?
    ensures CanProceed(p)
  {
    if p.submitters[s].Notifying? {
      if SomeSleeping(p.workers) {
        var w :| 0 <= w < |p.workers| && p.workers[w].Sleeping?;
        assert Enabled(p, NotifyWork(s, w));
      } else {
        assert Enabled(p, NotifyWork(s, -1));
      }
    } else {
      assert Enabled(p, EnterSubmit(s));
    }
  }

  lemma ActiveStopperProceeds(p: System, k: nat)
    requires k < |p.stoppers|
    requires p.stoppers[k].Stopping? || p.stoppers[k].WakingSubmitters? || p.stoppers[k].WakingWorkers?
      || (p.stoppers[k].Joining? && AllExited(p.workers))
    ensures CanProceed(p)
  {
    match p.stoppers[k]
    case Stopping => assert Enabled(p, EnterShutdown(k));
    case WakingSubmitters => assert Enabled(p, NotifyAllSpace(k));
    case WakingWorkers => assert Enabled(p, NotifyAllWork(k));
    case Joining => assert Enabled(p, Join(k));
  }

  /** While the pool accepts work, queued tasks are never stranded. */
  lemma QueuedWorkProceeds(cfg: PoolConfig, p: System)
    requires cfg.Valid() && Invariant(cfg, p) && p.shared.accepting && p.shared.queue != []
    ensures CanProceed(p)
  {
    hide Count, QueueConserves, WorkConserves;
    if SomeSleeping(p.workers) {
      CountPositive(p.workers, IsReady());
      CountPositive(p.submitters, OwesWorkSignal());
      if w :| 0 <= w < |p.workers| && p.workers[w].Ready? {
        ActiveWorkerProceeds(p, w);
      } else {
        var s :| 0 <= s < |p.submitters| && p.submitters[s].Notifying?;
        ActiveSubmitterProceeds(p, s);
      }
    } else {
      assert p.workers[0] in p.workers;
      ActiveWorkerProceeds(p, 0);
    }
  }

  /** ... and neither are submitters blocked on a full queue. */
  lemma BlockedSubmitterProceeds(cfg: PoolConfig, p: System)
    requires cfg.Valid() && Invariant(cfg, p) && p.shared.accepting && SomeBlocked(p.submitters)
    ensures CanProceed(p)
  {
    if p.shared.queue != [] {
      QueuedWorkProceeds(cfg, p);
    } else {
      hide Count, QueueConserves, WorkConserves;
      CountPositive(p.workers, OwesSpaceSignal());
      CountPositive(p.submitters, IsWoken());
      if w :| 0 <= w < |p.workers| && p.workers[w].Taken? {
        ActiveWorkerProceeds(p, w);
      } else {
        var s :| 0 <= s < |p.submitters| && p.submitters[s].Woken?;
        ActiveSubmitterProceeds(p, s);
      }
    }
  }

  // ---------------------------------------------------------------- an accepting pool settles

  /** Past the flags, and not yet back. */
  predicate InsideShutdown(k: Stopper) {
    k.WakingSubmitters? || k.WakingWorkers? || k.Joining?
  }

  function SettlingWorkerRank(): Worker -> nat {
    (w: Worker) => match w
      case Exited => 0
      case Sleeping => 0
      case Ready => 1
      case Running(_) => 2
      case Taken(_) => 4
  }

  /** What a submitter may still set off: a blocked one is woken once, queues a task and owes a signal. */
  function SettlingSubmitterRank(): Submitter -> nat {
    (s: Submitter) => match s
      case Idle => 0
      case Notifying => 2
      case Blocked(_) => 6
      case Entering(_) => 7
      case Woken(_) => 7
  }

  /** How many more steps an accepting pool can take by itself. */
  function Settling(p: System): nat {
    4 * |p.shared.queue| + Total(p.workers, SettlingWorkerRank()) + Total(p.submitters, SettlingSubmitterRank())
  }

  lemma StepSettles(cfg: PoolConfig, p: System, a: Action)
    requires Enabled(p, a) && Proceeds(a) && Lifecycle(cfg, p) && Step(cfg, p, a).shared.accepting
    ensures p.shared.accepting && Settling(Step(cfg, p, a)) < Settling(p)
  {
    hide Total;
    var q := Step(cfg, p, a);
    forall k | 0 <= k < |p.stoppers| && InsideShutdown(p.stoppers[k]) ensures p.shared.stopping {
      assert p.stoppers[k] in p.stoppers;
    }
    match a
    case EnterSubmit(s) =>
      TotalUpdate(p.submitters, s, q.submitters[s], SettlingSubmitterRank());
    case NotifyWork(s, woken) =>
      TotalUpdate(p.submitters, s, Idle, SettlingSubmitterRank());
      if woken >= 0 {
        TotalUpdate(p.workers, woken, Ready, SettlingWorkerRank());
      }
    case EnterWorker(w) =>
      TotalUpdate(p.workers, w, q.workers[w], SettlingWorkerRank());
    case NotifySpace(w, woken) =>
      TotalUpdate(p.workers, w, q.workers[w], SettlingWorkerRank());
      if woken >= 0 {
        TotalUpdate(p.submitters, woken, q.submitters[woken], SettlingSubmitterRank());
      }
    case TaskReturns(w, _) =>
      TotalUpdate(p.workers, w, Ready, SettlingWorkerRank());
    case _ =>
  }

  lemma {:induction false} RunSettles(cfg: PoolConfig, p: System, actions: seq<Action>, q: System)
    requires cfg.Valid() && Invariant(cfg, p) && Reaches(cfg, p, actions, q) && q.shared.accepting
    requires forall a <- actions :: Proceeds(a)
    ensures p.shared.accepting && |actions| + Settling(q) <= Settling(p)
    decreases |actions|
  {
    hide Settling, Step, Enabled, Proceeds, QueueConserves, WorkConserves, Bounded, Lifecycle, NoLostWakeup, StopSignalled;
    if actions != [] {
      assert actions[0] in actions;
      assert forall a <- actions[1..] :: a in actions;
      StepKeepsInvariant(cfg, p, actions[0]);
      RunSettles(cfg, Step(cfg, p, actions[0]), actions[1..], q);
      StepSettles(cfg, p, actions[0]);
    }
  }

  /** Everything done: nothing queued or running, every submit has returned, all workers wait for work. */
  ghost predicate Settled(p: System) {
    && p.shared.queue == [] && p.shared.active == 0
    && (forall s <- p.submitters :: s.Idle?)
    && (forall w <- p.workers :: w.Sleeping?)
    && (forall k <- p.stoppers :: k.Outside?)
  }

  /** Without new calls and spurious wakeups, and if every task returns, a pool that keeps accepting takes a bounded
      number of steps and comes to rest exactly when everything is done: no queued task is stranded, no submitter stays
      blocked, and each accepted task has run exactly once. */
  lemma AcceptingPoolSettles(cfg: PoolConfig, p: System, actions: seq<Action>, q: System)
    requires cfg.Valid() && Reachable(cfg, p) && Reaches(cfg, p, actions, q) && q.shared.accepting
    requires forall a <- actions :: Proceeds(a)
    ensures |actions| <= Settling(p)
    ensures CanProceed(q) <==> !Settled(q)
    ensures Settled(q) ==>
      multiset(q.finished) == multiset(q.accepted) && q.shared.completed + q.shared.failed == q.shared.submitted
  {
    hide Settling, CanProceed, Settled, Reachable, Reaches, Proceeds, Invariant;
    ReachableInvariant(cfg, p);
    RunKeepsInvariant(cfg, p, actions, q);
    RunSettles(cfg, p, actions, q);
    if Settled(q) {
      SettledRests(q);
      SettledHasFinished(cfg, q);
    } else {
      UnsettledProceeds(cfg, q);
    }
  }

  lemma SettledRests(p: System)
    requires Settled(p)
    ensures !CanProceed(p)
  {
    assert forall w | 0 <= w < |p.workers| :: p.workers[w] in p.workers;
    assert forall s | 0 <= s < |p.submitters| :: p.submitters[s] in p.submitters;
    assert forall k | 0 <= k < |p.stoppers| :: p.stoppers[k] in p.stoppers;
  }

  lemma SettledHasFinished(cfg: PoolConfig, p: System)
    requires Invariant(cfg, p) && p.shared.accepting && Settled(p)
    ensures multiset(p.finished) == multiset(p.accepted) && p.shared.completed + p.shared.failed == p.shared.submitted
  {
    hide Bounded, NoLostWakeup, StopSignalled;
    SleepersHoldNothing(p.workers);
    assert p.dequeued + [] + [] == p.dequeued;
  }

  lemma {:induction false} SleepersHoldNothing(workers: seq<Worker>)
    requires forall w <- workers :: w.Sleeping?
    ensures Count(workers, Busy()) == 0 && Held(workers) == multiset{}
  {
    if workers != [] {
      assert workers[|workers| - 1] in workers;
      SleepersHoldNothing(workers[..|workers| - 1]);
    }
  }

  lemma UnsettledProceeds(cfg: PoolConfig, p: System)
    requires cfg.Valid() && Invariant(cfg, p) && p.shared.accepting && !Settled(p)
    ensures CanProceed(p)
  {
    hide Count, CanProceed, QueueConserves, Bounded, NoLostWakeup, StopSignalled;
    if p.shared.queue != [] {
      QueuedWorkProceeds(cfg, p);
    } else if SomeBlocked(p.submitters) {
      BlockedSubmitterProceeds(cfg, p);
    } else if s :| 0 <= s < |p.submitters| && !p.submitters[s].Idle? {
      ActiveSubmitterProceeds(p, s);
    } else if k :| 0 <= k < |p.stoppers| && !p.stoppers[k].Outside? {
      assert p.stoppers[k] in p.stoppers;
      ActiveStopperProceeds(p, k);
    } else if w :| 0 <= w < |p.workers| && !p.workers[w].Sleeping? {
      assert p.workers[w] in p.workers;
      ActiveWorkerProceeds(p, w);
    } else {
      assert forall w | 0 <= w < |p.workers| :: p.workers[w].Sleeping?;
      SleepersHoldNothing(p.workers);
      assert false;
    }
  }

  // ---------------------------------------------------------------- a stopped pool

  /** Every worker has left and every call has returned. */
  ghost predicate WoundDown(p: System) {
    && AllExited(p.workers)
    && (forall s <- p.submitters :: s.Idle?)
    && (forall k <- p.stoppers :: k.Outside? || k.Returned?)
  }

  /** A stopped pool that has not wound down can take a step. */
  lemma StoppedPoolProceeds(cfg: PoolConfig, p: System)
    requires cfg.Valid() && Invariant(cfg, p) && p.shared.stopping && !WoundDown(p)
    ensures CanProceed(p)
  {
    hide Count, QueueConserves, WorkConserves, NoLostWakeup, Bounded;
    if k :| 0 <= k < |p.stoppers| && (p.stoppers[k].Stopping? || p.stoppers[k].WakingSubmitters? || p.stoppers[k].WakingWorkers?) {
      ActiveStopperProceeds(p, k);
    } else if s :| 0 <= s < |p.submitters| && !p.submitters[s].Idle? {
      assert WakingSubmitters !in p.stoppers;
      ActiveSubmitterProceeds(p, s);
    } else if w :| 0 <= w < |p.workers| && !p.workers[w].Exited? {
      assert WakingSubmitters !in p.stoppers && WakingWorkers !in p.stoppers;
      ActiveWorkerProceeds(p, w);
    } else {
      var stopper :| stopper in p.stoppers && !stopper.Outside? && !stopper.Returned?;
      var k :| 0 <= k < |p.stoppers| && p.stoppers[k] == stopper;
      ActiveStopperProceeds(p, k);
    }
  }

  // ---------------------------------------------------------------- shutdown drains

  ghost predicate InternalRun(cfg: PoolConfig, p: System, actions: seq<Action>, q: System) {
    Reaches(cfg, p, actions, q) && forall a <- actions :: !External(a)
  }

  lemma {:induction false} RunUsesUp(cfg: PoolConfig, p: System, actions: seq<Action>, q: System)
    requires p.shared.stopping && !p.shared.accepting && InternalRun(cfg, p, actions, q)
    ensures |actions| + Remaining(q) <= Remaining(p) && q.shared.stopping
    decreases |actions|
  {
    hide Remaining, Step, Enabled;
    if actions != [] {
      assert actions[0] in actions;
      StepUsesUp(cfg, p, actions[0]);
      assert forall a <- actions[1..] :: a in actions;
      RunUsesUp(cfg, Step(cfg, p, actions[0]), actions[1..], q);
    }
  }

  /** After shutdown has begun, and if every task returns, the pool takes a bounded number of further steps
      and can only come to rest wound down: all workers out, all blocked submitters and shutdown callers
      returned, nothing queued. Under the drain policy every task ever accepted has then run exactly once;
      under the discard policy every accepted task has either run or was counted as dropped. */
  lemma ShutdownCompletes(cfg: PoolConfig, p: System, actions: seq<Action>, q: System)
    requires cfg.Valid() && Reachable(cfg, p) && p.shared.stopping && InternalRun(cfg, p, actions, q)
    ensures |actions| <= Remaining(p)
    ensures CanProceed(q) || WoundDown(q)
    ensures WoundDown(q) ==> q.shared.queue == [] && q.shared.active == 0
    ensures WoundDown(q) && cfg.shutdownPolicy.Drain? ==>
      multiset(q.finished) == multiset(q.accepted) && q.shared.completed + q.shared.failed == q.shared.submitted
    ensures WoundDown(q) ==>
      q.shared.completed + q.shared.failed + q.shared.dropped == q.shared.submitted + q.rejectedFull
  {
    hide Remaining, CanProceed, Reachable, Reaches, Bounded, NoLostWakeup, StopSignalled;
    ReachableInvariant(cfg, p);
    RunKeepsInvariant(cfg, p, actions, q);
    RunUsesUp(cfg, p, actions, q);
    if !WoundDown(q) {
      StoppedPoolProceeds(cfg, q);
    } else {
      ExitedHoldNothing(q.workers);
      assert |q.workers| > 0 && q.workers[0] in q.workers;
      assert q.dequeued + q.discarded + [] == q.dequeued + q.discarded;
      assert cfg.shutdownPolicy.Drain? ==> q.dequeued + [] == q.dequeued;
    }
  }

  lemma {:induction false} ExitedHoldNothing(workers: seq<Worker>)
    requires AllExited(workers)
    ensures Count(workers, Busy()) == 0 && Held(workers) == multiset{}
  {
    if workers != [] {
      ExitedHoldNothing(workers[..|workers| - 1]);
    }
  }

  /** The caller that stopped the pool returns only when every worker has left ... */
  lemma JoinedMeansExited(cfg: PoolConfig, q: System)
    requires cfg.Valid() && Reachable(cfg, q) && Returned(true) in q.stoppers
    ensures AllExited(q.workers) && q.shared.queue == [] && q.shared.active == 0
  {
    hide Reachable, Bounded, NoLostWakeup, StopSignalled;
    ReachableInvariant(cfg, q);
    ExitedHoldNothing(q.workers);
    assert q.workers[0] in q.workers;
  }

  /** A run that ends where shutdown caller k first has returned. */
  ghost predicate FirstReturn(cfg: PoolConfig, p: System, k: nat, actions: seq<Action>, q: System)
    decreases |actions|
  {
    && k < |p.stoppers|
    && if p.stoppers[k].Returned? then actions == [] && p == q
       else actions != [] && Enabled(p, actions[0]) && FirstReturn(cfg, Step(cfg, p, actions[0]), k, actions[1..], q)
  }

  lemma {:induction false} InsideEndsJoined(cfg: PoolConfig, p: System, k: nat, actions: seq<Action>, q: System)
    requires FirstReturn(cfg, p, k, actions, q) && InsideShutdown(p.stoppers[k])
    ensures Reaches(cfg, p, actions, q) && k < |q.stoppers| && q.stoppers[k] == Returned(true)
    decreases |actions|
  {
    hide Step;
    StopperMoves(cfg, p, actions[0], k);
    var next := Step(cfg, p, actions[0]);
    if next.stoppers[k].Returned? {
      assert Reaches(cfg, next, [], q);
    } else {
      InsideEndsJoined(cfg, next, k, actions[1..], q);
    }
  }

  /** A caller past the flags stays inside shutdown until it has joined. */
  lemma StopperMoves(cfg: PoolConfig, p: System, a: Action, k: nat)
    requires Enabled(p, a) && k < |p.stoppers| && InsideShutdown(p.stoppers[k])
    ensures var q := Step(cfg, p, a);
      k < |q.stoppers| && (InsideShutdown(q.stoppers[k]) || q.stoppers[k] == Returned(true))
  {
  }

  /** Exactly when a call of shutdown returns with all workers out: whatever the others do between its critical section
      and its return, all workers have left when it returns iff the call found the pool not yet stopping, or they had all
      left before. */
  lemma ShutdownReturnExactly(cfg: PoolConfig, p: System, k: nat, actions: seq<Action>, q: System)
    requires cfg.Valid() && Reachable(cfg, p) && Enabled(p, EnterShutdown(k))
    requires FirstReturn(cfg, Step(cfg, p, EnterShutdown(k)), k, actions, q)
    ensures AllExited(q.workers) <==> !p.shared.stopping || AllExited(p.workers)
    ensures k < |q.stoppers| && q.stoppers[k] == Returned(!p.shared.stopping)
  {
    hide Reachable, Reaches, AllExited;
    var entered := Step(cfg, p, EnterShutdown(k));
    if !p.shared.stopping {
      InsideEndsJoined(cfg, entered, k, actions, q);
      ExtendsRun(cfg, p, EnterShutdown(k), entered);
      RunsOn(cfg, entered, actions, q);
      JoinedMeansExited(cfg, q);
    }
  }

  lemma {:induction false} RunsOn(cfg: PoolConfig, p: System, actions: seq<Action>, q: System)
    requires Reachable(cfg, p) && Reaches(cfg, p, actions, q)
    ensures Reachable(cfg, q)
    decreases |actions|
  {
    hide Step, Enabled, Reachable;
    if actions != [] {
      ExtendsRun(cfg, p, actions[0], Step(cfg, p, actions[0]));
      RunsOn(cfg, Step(cfg, p, actions[0]), actions[1..], q);
    }
  }

  /** Such a call: a second concurrent one can return while a worker is still in its loop. */
  lemma SecondShutdownReturnsEarly()
    ensures exists cfg: PoolConfig, q: System ::
      cfg.Valid() && Reachable(cfg, q) && Returned(false) in q.stoppers && !AllExited(q.workers)
  {
    hide Reaches, Reachable;
    var cfg := PoolConfig(1, 1, Block, Drain);
    var p0 := System(FRESH, [], [Ready], [Outside, Outside], [], [], [], [], 0);
    StartsRun(cfg, p0);
    var p1 := p0.(stoppers := [Stopping, Outside]);
    ExtendsRun(cfg, p0, CallShutdown(0), p1);
    var p2 := p1.(stoppers := [WakingSubmitters, Outside], shared := FRESH.(accepting := false, stopping := true));
    ExtendsRun(cfg, p1, EnterShutdown(0), p2);
    var p3 := p2.(stoppers := [WakingSubmitters, Stopping]);
    ExtendsRun(cfg, p2, CallShutdown(1), p3);
    var p4 := p3.(stoppers := [WakingSubmitters, Returned(false)]);
    ExtendsRun(cfg, p3, EnterShutdown(1), p4);
    assert p4.stoppers[1] == Returned(false) && p4.workers[0] == Ready;
  }

  lemma StartsRun(cfg: PoolConfig, p: System)
    requires Initial(cfg, p)
    ensures Reachable(cfg, p)
  {
    assert Reaches(cfg, p, [], p);
  }

  lemma ExtendsRun(cfg: PoolConfig, p: System, a: Action, q: System)
    requires Reachable(cfg, p) && Enabled(p, a) && Step(cfg, p, a) == q
    ensures Reachable(cfg, q)
  {
    hide Step, Enabled, Initial;
    var start, actions :| Initial(cfg, start) && Reaches(cfg, start, actions, p);
    ReachesOneMore(cfg, start, actions, p, a);
  }

  lemma {:induction false} ReachesOneMore(cfg: PoolConfig, start: System, actions: seq<Action>, p: System, a: Action)
    requires Reaches(cfg, start, actions, p) && Enabled(p, a)
    ensures Reaches(cfg, start, actions + [a], Step(cfg, p, a))
    decreases |actions|
  {
    hide Step, Enabled;
    if actions == [] {
      assert [] + [a] == [a] && [a][1..] == [];
    } else {
      ReachesOneMore(cfg, Step(cfg, start, actions[0]), actions[1..], p, a);
      assert (actions + [a])[1..] == actions[1..] + [a];
    }
  }
}
