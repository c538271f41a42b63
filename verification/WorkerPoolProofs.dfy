/** What every interleaving of the worker pool keeps: conservation of tasks, bounds, no lost wakeup, and
    that a shutdown drains the pool. */
module WorkerPoolProofs {
  import opened WorkerPool

  // ---------------------------------------------------------------- counting threads

  function Count<T>(threads: seq<T>, p: T -> bool): nat {
    if threads == [] then 0
    else Count(threads[..|threads| - 1], p) + if p(threads[|threads| - 1]) then 1 else 0
  }

  lemma {:induction false} CountUpdate<T>(threads: seq<T>, i: nat, t: T, p: T -> bool)
    requires i < |threads|
    ensures Count(threads[i := t], p) == Count(threads, p) - (if p(threads[i]) then 1 else 0) + if p(t) then 1 else 0
  {
    var n := |threads| - 1;
    if i == n {
      assert threads[i := t][..n] == threads[..n];
    } else {
      CountUpdate(threads[..n], i, t, p);
      assert threads[i := t][..n] == threads[..n][i := t];
    }
  }

  lemma {:induction false} CountPositive<T>(threads: seq<T>, p: T -> bool)
    ensures Count(threads, p) > 0 <==> exists i | 0 <= i < |threads| :: p(threads[i])
  {
    if threads != [] {
      var n := |threads| - 1;
      CountPositive(threads[..n], p);
      if exists i | 0 <= i < |threads| :: p(threads[i]) {
        var i :| 0 <= i < |threads| && p(threads[i]);
        assert i < n ==> threads[..n][i] == threads[i];
      }
    }
  }

  function Busy(): Worker -> bool {
    (w: Worker) => w.Taken? || w.Running?
  }

  function IsReady(): Worker -> bool {
    (w: Worker) => w.Ready?
  }

  function OwesSpaceSignal(): Worker -> bool {
    (w: Worker) => w.Taken?
  }

  function OwesWorkSignal(): Submitter -> bool {
    (s: Submitter) => s.Notifying?
  }

  function IsWoken(): Submitter -> bool {
    (s: Submitter) => s.Woken?
  }

  function HeldBy(w: Worker): multiset<Task> {
    if w.Taken? || w.Running? then multiset{w.task} else multiset{}
  }

  /** The tasks the workers hold. */
  function Held(workers: seq<Worker>): multiset<Task> {
    if workers == [] then multiset{} else Held(workers[..|workers| - 1]) + HeldBy(workers[|workers| - 1])
  }

  lemma {:induction false} HeldUpdate(workers: seq<Worker>, i: nat, t: Worker)
    requires i < |workers|
    ensures Held(workers[i := t]) + HeldBy(workers[i]) == Held(workers) + HeldBy(t)
  {
    hide HeldBy;
    var n := |workers| - 1;
    var changed := workers[i := t];
    var front := Held(workers[..n]);
    if i == n {
      assert changed[..n] == workers[..n];
      assert Held(changed) == front + HeldBy(t);
      assert front + HeldBy(t) + HeldBy(workers[n]) == front + HeldBy(workers[n]) + HeldBy(t);
    } else {
      HeldUpdate(workers[..n], i, t);
      assert changed[..n] == workers[..n][i := t];
      var changedFront := Held(changed[..n]);
      assert Held(changed) == changedFront + HeldBy(workers[n]);
      assert changedFront + HeldBy(workers[n]) + HeldBy(workers[i])
          == (changedFront + HeldBy(workers[i])) + HeldBy(workers[n]);
      assert front + HeldBy(t) + HeldBy(workers[n]) == front + HeldBy(workers[n]) + HeldBy(t);
    }
  }

  // ---------------------------------------------------------------- the invariant, part by part

  /** Every accepted task is, in the order of acceptance, dequeued, discarded or queued; the counters agree. */
  ghost predicate QueueConserves(p: System) {
    && p.shared.submitted == |p.accepted|
    && p.accepted == p.dequeued + p.discarded + p.shared.queue
    && p.shared.dropped == p.rejectedFull + |p.discarded|
  }

  /** Every dequeued task is finished once or held by one worker; the counters agree. */
  ghost predicate WorkConserves(p: System) {
    && multiset(p.dequeued) == multiset(p.finished) + Held(p.workers)
    && |p.dequeued| == |p.finished| + p.shared.active
    && p.shared.active == Count(p.workers, Busy())
    && p.shared.completed + p.shared.failed == |p.finished|
  }

  ghost predicate Bounded(cfg: PoolConfig, p: System) {
    |p.shared.queue| <= p.shared.peakPending <= cfg.queueCapacity
  }

  /** The two flags move together; discarding empties the queue for good; workers leave only an empty,
      stopped pool; whoever waited for the workers saw all of them leave. */
  ghost predicate Lifecycle(cfg: PoolConfig, p: System) {
    && |p.workers| == cfg.workerCount
    && p.shared.accepting == !p.shared.stopping
    && (p.discarded != [] ==> p.shared.stopping && p.shared.queue == [])
    && (cfg.shutdownPolicy.Drain? ==> p.discarded == [])
    && (forall w <- p.workers :: w.Exited? ==> p.shared.stopping && p.shared.queue == [])
    && (forall k <- p.stoppers :: k.WakingSubmitters? || k.WakingWorkers? || k.Joining? || k.Returned? ==> p.shared.stopping)
    && (Returned(true) in p.stoppers ==> AllExited(p.workers))
  }

  /** No lost wakeup: while the pool accepts work, a sleeping worker means every queued task is matched by
      a signal still to come or a worker about to look; likewise for blocked submitters and free slots. */
  ghost predicate NoLostWakeup(cfg: PoolConfig, p: System) {
    && (p.shared.accepting && SomeSleeping(p.workers) ==>
          |p.shared.queue| <= Count(p.submitters, OwesWorkSignal()) + Count(p.workers, IsReady()))
    && (p.shared.accepting && SomeBlocked(p.submitters) ==>
          cfg.queueCapacity - |p.shared.queue| <= Count(p.workers, OwesSpaceSignal()) + Count(p.submitters, IsWoken()))
  }

  /** After the flags are set nobody sleeps unless the stopper's notify_all is still to come. */
  ghost predicate StopSignalled(p: System) {
    && (p.shared.stopping && SomeBlocked(p.submitters) ==> WakingSubmitters in p.stoppers)
    && (p.shared.stopping && SomeSleeping(p.workers) ==> WakingSubmitters in p.stoppers || WakingWorkers in p.stoppers)
  }

  ghost predicate Invariant(cfg: PoolConfig, p: System) {
    QueueConserves(p) && WorkConserves(p) && Bounded(cfg, p) && Lifecycle(cfg, p) && NoLostWakeup(cfg, p) && StopSignalled(p)
  }

  // ---------------------------------------------------------------- each part is kept by every step

  lemma StepQueueConserves(cfg: PoolConfig, p: System, a: Action)
    requires Enabled(p, a) && QueueConserves(p) && Lifecycle(cfg, p)
    ensures QueueConserves(Step(cfg, p, a))
  {
    var queue := p.shared.queue;
    match a
    case EnterSubmit(s) =>
      var task := p.submitters[s].task;
      assert p.accepted + [task] == p.dequeued + p.discarded + (queue + [task]);
    case EnterWorker(w) =>
      if queue != [] {
        assert p.dequeued + [] + queue == p.dequeued + [queue[0]] + [] + queue[1..];
      }
    case EnterShutdown(k) =>
      if !p.shared.stopping {
        assert p.dequeued + [] + queue == p.dequeued + ([] + queue) + [];
        assert p.discarded + [] == p.discarded;
      }
    case _ =>
  }

  lemma StepWorkConserves(cfg: PoolConfig, p: System, a: Action)
    requires Enabled(p, a) && WorkConserves(p)
    ensures WorkConserves(Step(cfg, p, a))
  {
    hide WorkConserves;
    match a
    case EnterWorker(w) => EnterWorkerConserves(p, w);
    case TaskReturns(w, succeeded) => TaskReturnsConserves(cfg, p, w, succeeded);
    case _ =>
      OtherStepsKeepWork(cfg, p, a);
      SameWork(p, Step(cfg, p, a));
  }

  ghost predicate WorkUnchanged(p: System, q: System) {
    && q.dequeued == p.dequeued && q.finished == p.finished
    && q.shared.active == p.shared.active
    && q.shared.completed == p.shared.completed && q.shared.failed == p.shared.failed
    && Held(q.workers) == Held(p.workers) && Count(q.workers, Busy()) == Count(p.workers, Busy())
  }

  lemma SameWork(p: System, q: System)
    requires WorkConserves(p) && WorkUnchanged(p, q)
    ensures WorkConserves(q)
  {
    hide Count, Held;
  }

  /** Every other step leaves each worker holding what it held. */
  lemma OtherStepsKeepWork(cfg: PoolConfig, p: System, a: Action)
    requires Enabled(p, a) && !a.EnterWorker? && !a.TaskReturns?
    ensures WorkUnchanged(p, Step(cfg, p, a))
  {
    hide Count, Held, HeldBy;
    match a
    case NotifySpace(w, woken) =>
      SameHolding(p.workers[w].task);
      WorkerKeepsTask(p.workers, w, Running(p.workers[w].task));
    case NotifyWork(s, woken) =>
      if woken >= 0 {
        NotHolding(Ready, Sleeping);
        WorkerKeepsTask(p.workers, woken, Ready);
      }
    case SpuriousWorker(w) =>
      NotHolding(Ready, Sleeping);
      WorkerKeepsTask(p.workers, w, Ready);
    case NotifyAllWork(k) => WakeAllKeeps(p.workers);
    case _ =>
  }

  lemma WorkerKeepsTask(workers: seq<Worker>, w: nat, t: Worker)
    requires w < |workers| && HeldBy(t) == HeldBy(workers[w])
    ensures Held(workers[w := t]) == Held(workers)
    ensures Count(workers[w := t], Busy()) == Count(workers, Busy())
  {
    hide Count, Held;
    WorkerMoved(workers, w, t);
  }

  lemma TaskReturnsConserves(cfg: PoolConfig, p: System, w: nat, succeeded: bool)
    requires w < |p.workers| && p.workers[w].Running? && WorkConserves(p)
    ensures WorkConserves(Step(cfg, p, TaskReturns(w, succeeded)))
  {
    hide Count, Held;
    var task := p.workers[w].task;
    var left := Held(p.workers[w := Ready]);
    WorkerMoved(p.workers, w, Ready);
    assert multiset(p.finished + [task]) == multiset(p.finished) + multiset{task};
    assert multiset(p.finished) + (left + multiset{task}) == multiset(p.finished) + multiset{task} + left;
  }

  lemma EnterWorkerConserves(p: System, w: nat)
    requires w < |p.workers| && p.workers[w].Ready? && WorkConserves(p)
    ensures WorkConserves(WorkerStep(p, w))
  {
    hide Count, Held, HeldBy;
    if p.shared.queue == [] {
      NotHolding(Ready, Sleeping);
      NotHolding(Ready, Exited);
      WorkerKeepsTask(p.workers, w, Sleeping);
      WorkerKeepsTask(p.workers, w, Exited);
    } else {
      var task := p.shared.queue[0];
      WorkerTakesTask(p.workers, w, task);
      assert multiset(p.dequeued + [task]) == multiset(p.dequeued) + multiset{task};
      assert multiset(p.finished) + Held(p.workers) + multiset{task} == multiset(p.finished) + (Held(p.workers) + multiset{task});
    }
  }

  lemma SameHolding(task: Task)
    ensures HeldBy(Taken(task)) == HeldBy(Running(task))
  {
  }

  lemma NotHolding(v: Worker, w: Worker)
    requires !v.Taken? && !v.Running? && !w.Taken? && !w.Running?
    ensures HeldBy(v) == HeldBy(w)
  {
  }

  lemma WorkerTakesTask(workers: seq<Worker>, w: nat, task: Task)
    requires w < |workers| && workers[w].Ready?
    ensures Held(workers[w := Taken(task)]) == Held(workers) + multiset{task}
    ensures Count(workers[w := Taken(task)], Busy()) == Count(workers, Busy()) + 1
  {
    hide Count, Held;
    WorkerMoved(workers, w, Taken(task));
  }

  lemma WorkerMoved(workers: seq<Worker>, w: nat, t: Worker)
    requires w < |workers|
    ensures Count(workers[w := t], Busy()) + |HeldBy(workers[w])| == Count(workers, Busy()) + |HeldBy(t)|
    ensures HeldBy(workers[w]) == multiset{} ==> Held(workers[w := t]) == Held(workers) + HeldBy(t)
    ensures HeldBy(t) == multiset{} ==> Held(workers) == Held(workers[w := t]) + HeldBy(workers[w])
    ensures HeldBy(t) == HeldBy(workers[w]) ==> Held(workers[w := t]) == Held(workers)
  {
    CountUpdate(workers, w, t, Busy());
    HeldUpdate(workers, w, t);
    hide Held;
    Cancel(Held(workers[w := t]), HeldBy(workers[w]), Held(workers), HeldBy(t));
  }

  lemma Cancel<T>(a: multiset<T>, b: multiset<T>, c: multiset<T>, d: multiset<T>)
    requires a + b == c + d
    ensures b == multiset{} ==> a == c + d
    ensures d == multiset{} ==> c == a + b
    ensures b == d ==> a == c
  {
    assert a + b - b == a && c + d - d == c;
    assert a + multiset{} == a && c + multiset{} == c;
  }

  lemma {:induction false} WakeAllKeeps(workers: seq<Worker>)
    ensures Count(WakeAllWorkers(workers), Busy()) == Count(workers, Busy())
    ensures Held(WakeAllWorkers(workers)) == Held(workers)
  {
    if workers != [] {
      var n := |workers| - 1;
      WakeAllKeeps(workers[..n]);
      assert WakeAllWorkers(workers)[..n] == WakeAllWorkers(workers[..n]);
    }
  }

  lemma StepBounded(cfg: PoolConfig, p: System, a: Action)
    requires cfg.Valid() && Enabled(p, a) && Invariant(cfg, p)
    ensures Bounded(cfg, Step(cfg, p, a))
  {
    hide QueueConserves, WorkConserves, NoLostWakeup, StopSignalled, Lifecycle;
  }

  lemma StepLifecycle(cfg: PoolConfig, p: System, a: Action)
    requires cfg.Valid() && Enabled(p, a) && Invariant(cfg, p)
    ensures Lifecycle(cfg, Step(cfg, p, a))
  {
    hide QueueConserves, WorkConserves, NoLostWakeup, StopSignalled, Bounded;
  }

  lemma WakeAllReady(workers: seq<Worker>)
    ensures !SomeSleeping(WakeAllWorkers(workers))
  {
  }

  lemma SleeperUpdate(workers: seq<Worker>, i: nat, t: Worker)
    requires i < |workers|
    ensures SomeSleeping(workers[i := t]) ==> SomeSleeping(workers) || t.Sleeping?
  {
  }

  lemma BlockedUpdate(submitters: seq<Submitter>, i: nat, t: Submitter)
    requires i < |submitters|
    ensures SomeBlocked(submitters[i := t]) ==> SomeBlocked(submitters) || t.Blocked?
  {
  }

  ghost predicate NoLostWorkWakeup(p: System) {
    p.shared.accepting && SomeSleeping(p.workers) ==>
      |p.shared.queue| <= Count(p.submitters, OwesWorkSignal()) + Count(p.workers, IsReady())
  }

  ghost predicate NoLostSpaceWakeup(cfg: PoolConfig, p: System) {
    p.shared.accepting && SomeBlocked(p.submitters) ==>
      cfg.queueCapacity - |p.shared.queue| <= Count(p.workers, OwesSpaceSignal()) + Count(p.submitters, IsWoken())
  }

  lemma StepNoLostWorkWakeup(cfg: PoolConfig, p: System, a: Action)
    requires cfg.Valid() && Enabled(p, a) && Lifecycle(cfg, p) && NoLostWorkWakeup(p)
    ensures NoLostWorkWakeup(Step(cfg, p, a))
  {
    hide Count, Lifecycle;
    var q := Step(cfg, p, a);
    match a
    case CallSubmit(s, _) =>
      CountUpdate(p.submitters, s, q.submitters[s], OwesWorkSignal());
    case EnterSubmit(s) =>
      CountUpdate(p.submitters, s, q.submitters[s], OwesWorkSignal());
    case NotifyWork(s, woken) =>
      CountUpdate(p.submitters, s, Idle, OwesWorkSignal());
      if woken >= 0 {
        CountUpdate(p.workers, woken, Ready, IsReady());
        SleeperUpdate(p.workers, woken, Ready);
      }
    case EnterWorker(w) =>
      CountUpdate(p.workers, w, q.workers[w], IsReady());
      SleeperUpdate(p.workers, w, q.workers[w]);
    case NotifySpace(w, woken) =>
      CountUpdate(p.workers, w, q.workers[w], IsReady());
      SleeperUpdate(p.workers, w, q.workers[w]);
      if woken >= 0 {
        CountUpdate(p.submitters, woken, q.submitters[woken], OwesWorkSignal());
      }
    case TaskReturns(w, _) =>
      CountUpdate(p.workers, w, Ready, IsReady());
      SleeperUpdate(p.workers, w, Ready);
    case SpuriousSubmitter(s) =>
      CountUpdate(p.submitters, s, q.submitters[s], OwesWorkSignal());
    case SpuriousWorker(w) =>
      CountUpdate(p.workers, w, Ready, IsReady());
      SleeperUpdate(p.workers, w, Ready);
    case NotifyAllSpace(k) =>
      WakeAllSubmittersKeepsDebts(p.submitters);
    case NotifyAllWork(k) =>
      WakeAllReady(p.workers);
    case _ =>
  }

  lemma {:induction false} WakeAllSubmittersKeepsDebts(submitters: seq<Submitter>)
    ensures Count(WakeAllSubmitters(submitters), OwesWorkSignal()) == Count(submitters, OwesWorkSignal())
  {
    if submitters != [] {
      var n := |submitters| - 1;
      WakeAllSubmittersKeepsDebts(submitters[..n]);
      assert WakeAllSubmitters(submitters)[..n] == WakeAllSubmitters(submitters[..n]);
    }
  }

  lemma {:induction false} WakeAllWorkersKeepsDebts(workers: seq<Worker>)
    ensures Count(WakeAllWorkers(workers), OwesSpaceSignal()) == Count(workers, OwesSpaceSignal())
  {
    if workers != [] {
      var n := |workers| - 1;
      WakeAllWorkersKeepsDebts(workers[..n]);
      assert WakeAllWorkers(workers)[..n] == WakeAllWorkers(workers[..n]);
    }
  }

  lemma StepNoLostSpaceWakeup(cfg: PoolConfig, p: System, a: Action)
    requires cfg.Valid() && Enabled(p, a) && Lifecycle(cfg, p) && NoLostSpaceWakeup(cfg, p)
    ensures NoLostSpaceWakeup(cfg, Step(cfg, p, a))
  {
    hide Count, Lifecycle;
    var q := Step(cfg, p, a);
    match a
    case CallSubmit(s, _) =>
      CountUpdate(p.submitters, s, q.submitters[s], IsWoken());
      BlockedUpdate(p.submitters, s, q.submitters[s]);
    case EnterSubmit(s) =>
      CountUpdate(p.submitters, s, q.submitters[s], IsWoken());
      BlockedUpdate(p.submitters, s, q.submitters[s]);
    case NotifyWork(s, woken) =>
      CountUpdate(p.submitters, s, Idle, IsWoken());
      BlockedUpdate(p.submitters, s, Idle);
      if woken >= 0 {
        CountUpdate(p.workers, woken, Ready, OwesSpaceSignal());
      }
    case EnterWorker(w) =>
      CountUpdate(p.workers, w, q.workers[w], OwesSpaceSignal());
    case NotifySpace(w, woken) =>
      CountUpdate(p.workers, w, q.workers[w], OwesSpaceSignal());
      if woken >= 0 {
        CountUpdate(p.submitters, woken, q.submitters[woken], IsWoken());
      }
    case TaskReturns(w, _) =>
      CountUpdate(p.workers, w, Ready, OwesSpaceSignal());
    case SpuriousSubmitter(s) =>
      CountUpdate(p.submitters, s, q.submitters[s], IsWoken());
      BlockedUpdate(p.submitters, s, q.submitters[s]);
    case SpuriousWorker(w) =>
      CountUpdate(p.workers, w, Ready, OwesSpaceSignal());
    case NotifyAllSpace(k) =>
      assert !SomeBlocked(q.submitters);
    case NotifyAllWork(k) =>
      WakeAllWorkersKeepsDebts(p.workers);
    case _ =>
  }

  lemma StepStopSignalled(cfg: PoolConfig, p: System, a: Action)
    requires cfg.Valid() && Enabled(p, a) && Lifecycle(cfg, p) && StopSignalled(p)
    ensures StopSignalled(Step(cfg, p, a))
  {
    var q := Step(cfg, p, a);
    match a
    case EnterShutdown(k) =>
      if !p.shared.stopping {
        assert q.stoppers[k] == WakingSubmitters;
      } else {
        StoppersKept(p.stoppers, k, q.stoppers[k]);
      }
    case NotifyAllSpace(k) =>
      assert q.stoppers[k] == WakingWorkers;
    case NotifyAllWork(k) =>
      StoppersKept(p.stoppers, k, q.stoppers[k]);
    case CallShutdown(k) =>
      StoppersKept(p.stoppers, k, q.stoppers[k]);
    case Join(k) =>
      StoppersKept(p.stoppers, k, q.stoppers[k]);
    case _ =>
  }

  lemma StoppersKept(stoppers: seq<Stopper>, k: nat, t: Stopper)
    requires k < |stoppers|
    ensures forall x :: x in stoppers && x != stoppers[k] ==> x in stoppers[k := t]
  {
    forall x | x in stoppers && x != stoppers[k] ensures x in stoppers[k := t] {
      var i :| 0 <= i < |stoppers| && stoppers[i] == x;
      assert stoppers[k := t][i] == x;
    }
  }

  /** Every enabled step of every thread keeps the invariant. */
  lemma StepKeepsInvariant(cfg: PoolConfig, p: System, a: Action)
    requires cfg.Valid() && Enabled(p, a) && Invariant(cfg, p)
    ensures Invariant(cfg, Step(cfg, p, a))
  {
    hide Step, QueueConserves, WorkConserves, Bounded, Lifecycle, StopSignalled, Enabled;
    StepQueueConserves(cfg, p, a);
    StepWorkConserves(cfg, p, a);
    StepBounded(cfg, p, a);
    StepLifecycle(cfg, p, a);
    StepNoLostWorkWakeup(cfg, p, a);
    StepNoLostSpaceWakeup(cfg, p, a);
    StepStopSignalled(cfg, p, a);
  }

  lemma InitialInvariant(cfg: PoolConfig, p: System)
    requires cfg.Valid() && Initial(cfg, p)
    ensures Invariant(cfg, p)
  {
    NobodyBusy(p.workers);
    assert forall w | 0 <= w < |p.workers| :: p.workers[w] in p.workers;
    assert forall s | 0 <= s < |p.submitters| :: p.submitters[s] in p.submitters;
    assert multiset(p.dequeued) == multiset(p.finished) + Held(p.workers);
  }

  lemma {:induction false} NobodyBusy(workers: seq<Worker>)
    requires forall w <- workers :: w.Ready?
    ensures Count(workers, Busy()) == 0 && Held(workers) == multiset{}
  {
    if workers != [] {
      assert workers[|workers| - 1] in workers;
      assert forall w <- workers[..|workers| - 1] :: w in workers;
      NobodyBusy(workers[..|workers| - 1]);
    }
  }

  lemma {:induction false} RunKeepsInvariant(cfg: PoolConfig, p: System, actions: seq<Action>, q: System)
    requires cfg.Valid() && Invariant(cfg, p) && Reaches(cfg, p, actions, q)
    ensures Invariant(cfg, q)
    decreases |actions|
  {
    if actions != [] {
      hide Invariant, Step, Enabled;
      StepKeepsInvariant(cfg, p, actions[0]);
      RunKeepsInvariant(cfg, Step(cfg, p, actions[0]), actions[1..], q);
    }
  }

  /** Safety over all interleavings. */
  lemma ReachableInvariant(cfg: PoolConfig, q: System)
    requires cfg.Valid() && Reachable(cfg, q)
    ensures Invariant(cfg, q)
  {
    hide Invariant, Initial, Reaches;
    var p, actions :| Initial(cfg, p) && Reaches(cfg, p, actions, q);
    InitialInvariant(cfg, p);
    RunKeepsInvariant(cfg, p, actions, q);
  }
}
