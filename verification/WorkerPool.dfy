/** The bounded worker pool: its mutex-protected sections, and the protocol of submitters, workers and
    shutdown callers around two condition variables. */
module WorkerPool {

  type Task = nat

  datatype FullPolicy = RejectNewest | Block
  datatype ShutdownPolicy = Drain | DiscardPending

  datatype PoolConfig = PoolConfig(
    workerCount: nat,
    queueCapacity: nat,
    fullPolicy: FullPolicy,
    shutdownPolicy: ShutdownPolicy)
  {
    predicate Valid() {
      1 <= workerCount <= 256 && 1 <= queueCapacity <= 65536
    }
  }

  /** The fields the mutex protects. `active` is an int so that its never going negative is a theorem. */
  datatype Shared = Shared(
    queue: seq<Task>,
    accepting: bool,
    stopping: bool,
    submitted: nat,
    completed: nat,
    failed: nat,
    dropped: nat,
    active: int,
    peakPending: nat)

  const FRESH := Shared([], true, false, 0, 0, 0, 0, 0, 0)

  // ---------------------------------------------------------------- the critical sections

  datatype SubmitOutcome = Refused | Enqueued | MustWait
  datatype WorkerOutcome = MustSleep | Exit | Take(task: Task)

  function SubmitSection(cfg: PoolConfig, sh: Shared, task: Task): (Shared, SubmitOutcome) {
    if !sh.accepting then (sh, Refused)
    else if |sh.queue| >= cfg.queueCapacity then
      if cfg.fullPolicy.Block? then (sh, MustWait) else (sh.(dropped := sh.dropped + 1), Refused)
    else
      var queue := sh.queue + [task];
      (sh.(queue := queue, submitted := sh.submitted + 1,
           peakPending := if |queue| > sh.peakPending then |queue| else sh.peakPending), Enqueued)
  }

  function WorkerSection(sh: Shared): (Shared, WorkerOutcome) {
    if !sh.stopping && sh.queue == [] then (sh, MustSleep)
    else if sh.queue == [] then (sh, Exit)
    else (sh.(queue := sh.queue[1..], active := sh.active + 1), Take(sh.queue[0]))
  }

  function FinishSection(sh: Shared, succeeded: bool): Shared {
    if succeeded then sh.(active := sh.active - 1, completed := sh.completed + 1)
    else sh.(active := sh.active - 1, failed := sh.failed + 1)
  }

  /** The flag says whether this caller is the one that stops the pool and joins the workers. */
  function ShutdownSection(cfg: PoolConfig, sh: Shared): (Shared, bool) {
    if sh.stopping then (sh, false)
    else
      var stopped := sh.(accepting := false, stopping := true);
      if cfg.shutdownPolicy.DiscardPending?
      then (stopped.(dropped := sh.dropped + |sh.queue|, queue := []), true)
      else (stopped, true)
  }

  /** The object itself: each method is the code between taking and releasing the mutex. The ghost fields record what
      became of every task offered. */
  class BoundedWorkerPool {
    const cfg: PoolConfig
    var queue: seq<Task>
    var accepting: bool
    var stopping: bool
    var submitted: nat
    var completed: nat
    var failed: nat
    var dropped: nat
    var active: int
    var peakPending: nat
    ghost var accepted: seq<Task>
    ghost var dequeued: seq<Task>
    ghost var discarded: seq<Task>
    ghost var rejectedFull: nat

    function State(): Shared
      reads this
    {
      Shared(queue, accepting, stopping, submitted, completed, failed, dropped, active, peakPending)
    }

    /** Every accepted task is, in order of acceptance, dequeued, discarded or queued; the counters account for all of
        them; the bounds hold; the flags move together. */
    ghost predicate Valid()
      reads this
    {
      && accepted == dequeued + discarded + queue
      && submitted == |accepted| && dropped == rejectedFull + |discarded|
      && 0 <= active && completed + failed + active == |dequeued|
      && |queue| <= peakPending <= cfg.queueCapacity
      && accepting == !stopping
      && (discarded != [] ==> stopping && queue == [])
    }

    constructor (config: PoolConfig)
      requires config.Valid()
      ensures Valid() && State() == FRESH && cfg == config
      ensures accepted == dequeued == discarded == [] && rejectedFull == 0
    {
      cfg := config;
      queue, accepting, stopping := [], true, false;
      submitted, completed, failed, dropped, active, peakPending := 0, 0, 0, 0, 0, 0;
      accepted, dequeued, discarded, rejectedFull := [], [], [], 0;
    }

    /** A task gets in exactly if the pool accepts and has room, and then behind all others. A refusal counts as
        dropped exactly if the pool accepts and is full; a pool that no longer accepts refuses without counting. */
    method Submit(task: Task) returns (outcome: SubmitOutcome)
      requires Valid()
      modifies this
      ensures Valid()
      ensures outcome == Enqueued <==> old(accepting) && |old(queue)| < cfg.queueCapacity
      ensures outcome == MustWait <==> old(accepting) && |old(queue)| == cfg.queueCapacity && cfg.fullPolicy.Block?
      ensures outcome == Enqueued ==>
        queue == old(queue) + [task] && accepted == old(accepted) + [task] && rejectedFull == old(rejectedFull)
      ensures outcome == Refused ==>
        queue == old(queue) && accepted == old(accepted) && rejectedFull == old(rejectedFull) + if old(accepting) then 1 else 0
      ensures outcome == MustWait ==> unchanged(this)
      ensures dequeued == old(dequeued) && discarded == old(discarded) && active == old(active)
      ensures accepting == old(accepting) && completed == old(completed) && failed == old(failed)
      // It is the step the transition system below takes.
      ensures (State(), outcome) == SubmitSection(cfg, old(State()), task)
    {
      if !accepting {
        return Refused;
      }
      if cfg.fullPolicy.Block? {
        if |queue| >= cfg.queueCapacity {
          return MustWait;
        }
      } else if |queue| >= cfg.queueCapacity {
        dropped := dropped + 1;
        rejectedFull := rejectedFull + 1;
        return Refused;
      }
      assert accepted + [task] == dequeued + discarded + (queue + [task]);
      queue := queue + [task];
      accepted := accepted + [task];
      submitted := submitted + 1;
      peakPending := if |queue| > peakPending then |queue| else peakPending;
      return Enqueued;
    }

    /** A worker leaves exactly a stopped and empty pool, waits exactly for an empty one that still runs, and otherwise
        takes the task accepted first among those still queued. */
    method WorkerTake() returns (outcome: WorkerOutcome)
      requires Valid()
      modifies this
      ensures Valid()
      ensures outcome == Exit <==> old(queue) == [] && old(stopping)
      ensures outcome == MustSleep <==> old(queue) == [] && !old(stopping)
      ensures outcome.Take? ==>
        && old(queue) == [outcome.task] + queue && dequeued == old(dequeued) + [outcome.task]
        && |old(dequeued)| < |accepted| && (discarded == [] ==> accepted[|old(dequeued)|] == outcome.task)
        && active == old(active) + 1
      ensures !outcome.Take? ==> unchanged(this)
      ensures accepted == old(accepted) && discarded == old(discarded) && rejectedFull == old(rejectedFull)
      ensures accepting == old(accepting) && completed == old(completed) && failed == old(failed)
      ensures (State(), outcome) == WorkerSection(old(State()))
    {
      if !(stopping || queue != []) {
        return MustSleep;
      }
      if stopping && queue == [] {
        return Exit;
      }
      outcome := Take(queue[0]);
      assert discarded == [];
      assert dequeued + discarded + queue == dequeued + [queue[0]] + discarded + queue[1..];
      dequeued := dequeued + [queue[0]];
      queue := queue[1..];
      active := active + 1;
    }

    /** Only a worker that took a task gets here. */
    method WorkerFinish(succeeded: bool)
      requires Valid() && active > 0
      modifies this
      ensures Valid()
      ensures active == old(active) - 1
      ensures completed - old(completed) == (if succeeded then 1 else 0) && failed - old(failed) == if succeeded then 0 else 1
      ensures queue == old(queue) && accepting == old(accepting) && rejectedFull == old(rejectedFull)
      ensures accepted == old(accepted) && dequeued == old(dequeued) && discarded == old(discarded)
      ensures State() == FinishSection(old(State()), succeeded)
    {
      active := active - 1;
      if succeeded {
        completed := completed + 1;
      } else {
        failed := failed + 1;
      }
    }

    /** The first call stops the pool for good and, when discarding, drops exactly the queued tasks; no later call
        changes anything. */
    method BeginShutdown() returns (first: bool)
      requires Valid()
      modifies this
      ensures Valid() && stopping && !accepting
      ensures first <==> !old(stopping)
      ensures !first ==> unchanged(this)
      ensures first && cfg.shutdownPolicy.Drain? ==> queue == old(queue) && discarded == [] && dropped == old(dropped)
      ensures first && cfg.shutdownPolicy.DiscardPending? ==>
        queue == [] && discarded == old(queue) && dropped == old(dropped) + |old(queue)|
      ensures accepted == old(accepted) && dequeued == old(dequeued) && active == old(active)
      ensures rejectedFull == old(rejectedFull) && completed == old(completed) && failed == old(failed)
      ensures (State(), first) == ShutdownSection(cfg, old(State()))
    {
      if stopping {
        return false;
      }
      accepting := false;
      stopping := true;
      if cfg.shutdownPolicy.DiscardPending? {
        dropped := dropped + |queue|;
        assert discarded == [] && [] + queue + [] == queue;
        discarded := queue;
        queue := [];
      }
      return true;
    }

    /** The numbers a caller sees balance: every task submitted or turned away full is completed, failed, active,
        pending or dropped. */
    method Stats() returns (s: PoolStats)
      requires Valid()
      ensures s.submitted + rejectedFull == s.completed + s.failed + s.active + s.pending + s.dropped
      ensures s.pending == |queue| <= s.peakPending <= cfg.queueCapacity
      ensures s.submitted == |accepted| && s.dropped == rejectedFull + |discarded|
      ensures s.completed == completed && s.failed == failed && s.active == active
    {
      s := PoolStats(submitted, completed, failed, dropped, |queue|, active, peakPending);
    }
  }

  datatype PoolStats = PoolStats(
    submitted: nat,
    completed: nat,
    failed: nat,
    dropped: nat,
    pending: nat,
    active: nat,
    peakPending: nat)

  // ---------------------------------------------------------------- threads

  datatype Submitter =
    | Idle                      // outside submit
    | Entering(task: Task)      // about to take the mutex
    | Blocked(task: Task)       // waiting on queue_space_available
    | Woken(task: Task)         // notified, about to take the mutex again
    | Notifying                 // task queued, mutex released, notify_one of work_available still to come

  datatype Worker =
    | Ready                     // about to take the mutex
    | Sleeping                  // waiting on work_available
    | Taken(task: Task)         // dequeued, notify_one of queue_space_available still to come
    | Running(task: Task)
    | Exited

  datatype Stopper =
    | Outside                   // outside shutdown
    | Stopping                  // about to take the mutex
    | WakingSubmitters          // notify_all of queue_space_available still to come
    | WakingWorkers             // notify_all of work_available still to come
    | Joining
    | Returned(joined: bool)

  /** The whole system; the last five fields only record history. */
  datatype System = System(
    shared: Shared,
    submitters: seq<Submitter>,
    workers: seq<Worker>,
    stoppers: seq<Stopper>,
    accepted: seq<Task>,
    dequeued: seq<Task>,
    finished: seq<Task>,
    discarded: seq<Task>,
    rejectedFull: nat)

  datatype Action =
    | CallSubmit(s: nat, task: Task)
    | EnterSubmit(s: nat)
    | NotifyWork(s: nat, woken: int)      // -1 when nobody sleeps
    | EnterWorker(w: nat)
    | NotifySpace(w: nat, woken: int)
    | TaskReturns(w: nat, succeeded: bool)
    | CallShutdown(k: nat)
    | EnterShutdown(k: nat)
    | NotifyAllSpace(k: nat)
    | NotifyAllWork(k: nat)
    | Join(k: nat)
    | SpuriousSubmitter(s: nat)
    | SpuriousWorker(w: nat)

  /** Calls come from outside; everything else is the pool's own progress. */
  predicate External(a: Action) {
    a.CallSubmit? || a.CallShutdown?
  }

  predicate SomeSleeping(workers: seq<Worker>) {
    exists w | 0 <= w < |workers| :: workers[w].Sleeping?
  }

  predicate SomeBlocked(submitters: seq<Submitter>) {
    exists s | 0 <= s < |submitters| :: submitters[s].Blocked?
  }

  predicate AllExited(workers: seq<Worker>) {
    forall w | 0 <= w < |workers| :: workers[w].Exited?
  }

  predicate Enabled(p: System, a: Action) {
    match a
    case CallSubmit(s, _) => s < |p.submitters| && p.submitters[s].Idle?
    case EnterSubmit(s) => s < |p.submitters| && (p.submitters[s].Entering? || p.submitters[s].Woken?)
    case NotifyWork(s, woken) =>
      && s < |p.submitters| && p.submitters[s].Notifying?
      && if SomeSleeping(p.workers) then 0 <= woken < |p.workers| && p.workers[woken].Sleeping? else woken == -1
    case EnterWorker(w) => w < |p.workers| && p.workers[w].Ready?
    case NotifySpace(w, woken) =>
      && w < |p.workers| && p.workers[w].Taken?
      && if SomeBlocked(p.submitters) then 0 <= woken < |p.submitters| && p.submitters[woken].Blocked? else woken == -1
    case TaskReturns(w, _) => w < |p.workers| && p.workers[w].Running?
    case CallShutdown(k) => k < |p.stoppers| && (p.stoppers[k].Outside? || p.stoppers[k].Returned?)
    case EnterShutdown(k) => k < |p.stoppers| && p.stoppers[k].Stopping?
    case NotifyAllSpace(k) => k < |p.stoppers| && p.stoppers[k].WakingSubmitters?
    case NotifyAllWork(k) => k < |p.stoppers| && p.stoppers[k].WakingWorkers?
    case Join(k) => k < |p.stoppers| && p.stoppers[k].Joining? && AllExited(p.workers)
    case SpuriousSubmitter(s) => s < |p.submitters| && p.submitters[s].Blocked?
    case SpuriousWorker(w) => w < |p.workers| && p.workers[w].Sleeping?
  }

  function WakeAllSubmitters(submitters: seq<Submitter>): seq<Submitter> {
    seq(|submitters|, i requires 0 <= i < |submitters| =>
      if submitters[i].Blocked? then Woken(submitters[i].task) else submitters[i])
  }

  function WakeAllWorkers(workers: seq<Worker>): seq<Worker> {
    seq(|workers|, i requires 0 <= i < |workers| => if workers[i].Sleeping? then Ready else workers[i])
  }

  function SubmitStep(cfg: PoolConfig, p: System, s: nat): System
    requires s < |p.submitters| && (p.submitters[s].Entering? || p.submitters[s].Woken?)
  {
    var task := p.submitters[s].task;
    var (shared, outcome) := SubmitSection(cfg, p.shared, task);
    match outcome
    case Refused =>
      p.(shared := shared, submitters := p.submitters[s := Idle],
         rejectedFull := if p.shared.accepting then p.rejectedFull + 1 else p.rejectedFull)
    case Enqueued =>
      p.(shared := shared, submitters := p.submitters[s := Notifying], accepted := p.accepted + [task])
    case MustWait =>
      p.(submitters := p.submitters[s := Blocked(task)])
  }

  function WorkerStep(p: System, w: nat): System
    requires w < |p.workers| && p.workers[w].Ready?
  {
    var (shared, outcome) := WorkerSection(p.shared);
    match outcome
    case MustSleep => p.(workers := p.workers[w := Sleeping])
    case Exit => p.(workers := p.workers[w := Exited])
    case Take(task) =>
      p.(shared := shared, workers := p.workers[w := Taken(task)], dequeued := p.dequeued + [task])
  }

  function ShutdownStep(cfg: PoolConfig, p: System, k: nat): System
    requires k < |p.stoppers| && p.stoppers[k].Stopping?
  {
    var (shared, first) := ShutdownSection(cfg, p.shared);
    if first then
      p.(shared := shared, stoppers := p.stoppers[k := WakingSubmitters],
         discarded := p.discarded + if cfg.shutdownPolicy.DiscardPending? then p.shared.queue else [])
    else p.(stoppers := p.stoppers[k := Returned(false)])
  }

  function Step(cfg: PoolConfig, p: System, a: Action): System
    requires Enabled(p, a)
  {
    match a
    case CallSubmit(s, task) => p.(submitters := p.submitters[s := Entering(task)])
    case EnterSubmit(s) => SubmitStep(cfg, p, s)
    case NotifyWork(s, woken) =>
      p.(submitters := p.submitters[s := Idle],
         workers := if woken < 0 then p.workers else p.workers[woken := Ready])
    case EnterWorker(w) => WorkerStep(p, w)
    case NotifySpace(w, woken) =>
      p.(workers := p.workers[w := Running(p.workers[w].task)],
         submitters := if woken < 0 then p.submitters else p.submitters[woken := Woken(p.submitters[woken].task)])
    case TaskReturns(w, succeeded) =>
      p.(shared := FinishSection(p.shared, succeeded), workers := p.workers[w := Ready],
         finished := p.finished + [p.workers[w].task])
    case CallShutdown(k) => p.(stoppers := p.stoppers[k := Stopping])
    case EnterShutdown(k) => ShutdownStep(cfg, p, k)
    case NotifyAllSpace(k) =>
      p.(stoppers := p.stoppers[k := WakingWorkers], submitters := WakeAllSubmitters(p.submitters))
    case NotifyAllWork(k) =>
      p.(stoppers := p.stoppers[k := Joining], workers := WakeAllWorkers(p.workers))
    case Join(k) => p.(stoppers := p.stoppers[k := Returned(true)])
    case SpuriousSubmitter(s) => p.(submitters := p.submitters[s := Woken(p.submitters[s].task)])
    case SpuriousWorker(w) => p.(workers := p.workers[w := Ready])
  }

  /** All threads outside or about to start, nothing done yet. */
  ghost predicate Initial(cfg: PoolConfig, p: System) {
    && p.shared == FRESH
    && |p.workers| == cfg.workerCount && (forall w <- p.workers :: w.Ready?)
    && (forall s <- p.submitters :: s.Idle?)
    && (forall k <- p.stoppers :: k.Outside?)
    && p.accepted == p.dequeued == p.finished == p.discarded == [] && p.rejectedFull == 0
  }

  /** A run: every action enabled where it happens. */
  ghost predicate Reaches(cfg: PoolConfig, p: System, actions: seq<Action>, q: System)
    decreases |actions|
  {
    if actions == [] then p == q
    else Enabled(p, actions[0]) && Reaches(cfg, Step(cfg, p, actions[0]), actions[1..], q)
  }

  ghost predicate Reachable(cfg: PoolConfig, q: System) {
    exists p, actions :: Initial(cfg, p) && Reaches(cfg, p, actions, q)
  }
}
