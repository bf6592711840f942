/**
 The thread pool as a protocol: each critical section under the mutex is one step, a wait on the
 condition variable releases the mutex and sleeps in the same step, and the notification a submitter
 or the destructor sends after releasing the mutex is a separate, later step. Wakeups may be spurious.
 */
module ThreadPool {

  type Task = nat

  /** Where a worker stands in its loop. `Ready`: about to take the mutex and test the wait condition;
      `Settling`: the task body is done but the active count has not been lowered yet. */
  datatype Worker = Ready | Asleep | Running(task: Task) | Settling | Exited

  /** Where a caller of wait_all stands. */
  datatype Caller = Testing | Blocked | Returned

  /** Tasks are numbered in order of acceptance. */
  datatype Pool = Pool(
    tasks: seq<Task>,
    active: nat,
    stop: bool,
    workers: seq<Worker>,
    callers: seq<Caller>,
    notifies: nat,
    notifyAll: bool,
    accepted: nat,
    finished: seq<Task>)

  datatype Event =
    | Submit               // the task is queued; its notification is still to come
    | Refuse               // submit on a stopped pool throws
    | NotifyOne(w: nat)    // wakes sleeping worker w
    | NotifyNobody         // no worker is asleep
    | Spurious(w: nat)
    | Check(w: nat)        // test the condition: exit, take a task, or go to sleep
    | Finish(w: nat)       // the task body returns
    | Settle(w: nat)       // lower the active count, notify wait_all if idle
    | Stop                 // the destructor sets the flag
    | NotifyAll            // and then wakes everyone
    | WaitAll              // a new caller of wait_all
    | TestIdle(c: nat)     // a caller tests whether the pool is idle
    | SpuriousCaller(c: nat)

  function Initial(threads: nat): Pool {
    Pool([], 0, false, seq(threads, i => Ready), [], 0, false, 0, [])
  }

  predicate Idle(p: Pool) {
    p.tasks == [] && p.active == 0
  }

  predicate Enabled(p: Pool, e: Event) {
    match e
    case Submit => !p.stop
    case Refuse => p.stop
    case NotifyOne(w) => p.notifies > 0 && w < |p.workers| && p.workers[w] == Asleep
    case NotifyNobody => p.notifies > 0 && Asleep !in p.workers
    case Spurious(w) => w < |p.workers| && p.workers[w] == Asleep
    case Check(w) => w < |p.workers| && p.workers[w] == Ready
    case Finish(w) => w < |p.workers| && p.workers[w].Running?
    case Settle(w) => w < |p.workers| && p.workers[w] == Settling && p.active > 0
    case Stop => !p.stop
    case NotifyAll => p.notifyAll
    case WaitAll => true
    case TestIdle(c) => c < |p.callers| && p.callers[c] == Testing
    case SpuriousCaller(c) => c < |p.callers| && p.callers[c] == Blocked
  }

  function Set(p: Pool, w: nat, state: Worker): Pool
    requires w < |p.workers|
  {
    p.(workers := p.workers[w := state])
  }

  function WakeWorkers(ws: seq<Worker>): (r: seq<Worker>)
    ensures |r| == |ws|
    ensures forall i :: 0 <= i < |ws| ==> r[i] == if ws[i] == Asleep then Ready else ws[i]
  {
    seq(|ws|, i requires 0 <= i < |ws| => if ws[i] == Asleep then Ready else ws[i])
  }

  function WakeCallers(cs: seq<Caller>): (r: seq<Caller>)
    ensures |r| == |cs|
    ensures forall i :: 0 <= i < |cs| ==> r[i] == if cs[i] == Blocked then Testing else cs[i]
  {
    seq(|cs|, i requires 0 <= i < |cs| => if cs[i] == Blocked then Testing else cs[i])
  }

  function Apply(p: Pool, e: Event): Pool
    requires Enabled(p, e)
  {
    match e
    case Submit => p.(tasks := p.tasks + [p.accepted], accepted := p.accepted + 1, notifies := p.notifies + 1)
    case Refuse => p
    case NotifyOne(w) => Set(p, w, Ready).(notifies := p.notifies - 1)
    case NotifyNobody => p.(notifies := p.notifies - 1)
    case Spurious(w) => Set(p, w, Ready)
    case Check(w) =>
      if p.tasks != [] then Set(p, w, Running(p.tasks[0])).(tasks := p.tasks[1..], active := p.active + 1)
      else if p.stop then Set(p, w, Exited)
      else Set(p, w, Asleep)
    case Finish(w) => Set(p, w, Settling).(finished := p.finished + [p.workers[w].task])
    case Settle(w) =>
      var q := Set(p, w, Ready).(active := p.active - 1);
      if Idle(q) then q.(callers := WakeCallers(p.callers)) else q
    case Stop => p.(stop := true, notifyAll := true)
    case NotifyAll => p.(workers := WakeWorkers(p.workers), notifyAll := false)
    case WaitAll => p.(callers := p.callers + [Testing])
    case TestIdle(c) => p.(callers := p.callers[c := if Idle(p) then Returned else Blocked])
    case SpuriousCaller(c) => p.(callers := p.callers[c := Testing])
  }

  // -------------------------------------------------------------------- counting

  /** What is added up over the workers: how many are in a state, how many hold a task, how many still
      count as active, and how many steps each has left once the pool is stopped. */
  datatype Count = READY | ASLEEP | EXITED | ACTIVE | HOLDING(task: Task) | STEPS

  function Weight(w: Worker, count: Count): nat {
    match count
    case READY => if w == Ready then 1 else 0
    case ASLEEP => if w == Asleep then 1 else 0
    case EXITED => if w == Exited then 1 else 0
    case ACTIVE => if w.Running? || w == Settling then 1 else 0
    case HOLDING(t) => if w == Running(t) then 1 else 0
    case STEPS => match w case Exited => 0 case Ready => 1 case Settling => 2 case Asleep => 2 case Running(_) => 3
  }

  function Total(ws: seq<Worker>, count: Count): nat {
    if ws == [] then 0 else Total(ws[..|ws|-1], count) + Weight(ws[|ws|-1], count)
  }

  lemma {:induction false} TotalUpdate(ws: seq<Worker>, count: Count, i: nat, w: Worker)
    requires i < |ws|
    ensures Total(ws[i := w], count) + Weight(ws[i], count) == Total(ws, count) + Weight(w, count)
  {
    var n := |ws| - 1;
    if i == n {
      assert ws[i := w][..n] == ws[..n];
    } else {
      TotalUpdate(ws[..n], count, i, w);
      assert ws[i := w][..n] == ws[..n][i := w];
    }
  }

  lemma {:induction false} TotalZero(ws: seq<Worker>, count: Count)
    ensures Total(ws, count) == 0 <==> forall w :: w in ws ==> Weight(w, count) == 0
  {
    if ws != [] {
      var n := |ws| - 1;
      TotalZero(ws[..n], count);
      assert ws == ws[..n] + [ws[n]];
    }
  }

  /** Waking everyone turns sleepers into workers about to look, and changes nothing else. */
  lemma {:induction false} WakeTotals(ws: seq<Worker>, count: Count)
    ensures !count.READY? && !count.STEPS? && !count.ASLEEP? ==> Total(WakeWorkers(ws), count) == Total(ws, count)
    ensures Total(WakeWorkers(ws), ASLEEP) == 0
    ensures Total(WakeWorkers(ws), STEPS) <= Total(ws, STEPS)
  {
    if ws != [] {
      var n := |ws| - 1;
      WakeTotals(ws[..n], count);
      assert WakeWorkers(ws)[..n] == WakeWorkers(ws[..n]);
    }
  }

  // ------------------------------------------------------------------- invariant

  /** In how many places the task is: queued, in the hands of a worker, finished. */
  function Places(p: Pool, t: Task): nat {
    multiset(p.tasks)[t] + Total(p.workers, HOLDING(t)) + multiset(p.finished)[t]
  }

  /** Every accepted task is in exactly one place, once, and no other task is anywhere. */
  ghost predicate Conserved(p: Pool) {
    forall t: Task :: Places(p, t) == if t < p.accepted then 1 else 0
  }

  /** While a worker sleeps, every queued task is matched by a notification on its way or by a worker
      about to look at the queue; nobody sleeps once a stop has been announced to all. */
  ghost predicate NoLostWakeup(p: Pool) {
    && (Total(p.workers, ASLEEP) > 0 ==> |p.tasks| <= p.notifies + Total(p.workers, READY))
    && (p.stop && !p.notifyAll ==> Total(p.workers, ASLEEP) == 0)
  }

  ghost predicate Bookkeeping(p: Pool) {
    && p.active == Total(p.workers, ACTIVE)
    && (Total(p.workers, EXITED) > 0 ==> p.stop && p.tasks == [])
    && (p.notifyAll ==> p.stop)
  }

  /** wait_all blocks only on a pool that is not idle. */
  ghost predicate CallersOk(p: Pool) {
    Blocked in p.callers ==> !Idle(p)
  }

  ghost predicate Inv(p: Pool) {
    Conserved(p) && NoLostWakeup(p) && Bookkeeping(p) && CallersOk(p)
  }

  lemma InitialInv(threads: nat)
    ensures Inv(Initial(threads))
  {
    var p := Initial(threads);
    forall count: Count | count != READY && count != STEPS
      ensures Total(p.workers, count) == 0
    {
      TotalZero(p.workers, count);
    }
  }

  // Each part of the invariant is kept separately by every step.

  lemma StepConserves(p: Pool, e: Event, t: Task)
    requires Enabled(p, e)
    requires Places(p, t) == if t < p.accepted then 1 else 0
    ensures Places(Apply(p, e), t) == if t < Apply(p, e).accepted then 1 else 0
  {
    var q := Apply(p, e);
    match e {
      case NotifyOne(w) => TotalUpdate(p.workers, HOLDING(t), w, Ready);
      case Spurious(w) => TotalUpdate(p.workers, HOLDING(t), w, Ready);
      case Check(w) => TakeConserves(p, w, t);
      case Finish(w) => FinishConserves(p, w, t);
      case Settle(w) => TotalUpdate(p.workers, HOLDING(t), w, Ready);
      case NotifyAll => WakeTotals(p.workers, HOLDING(t));
      case Submit => assert multiset(q.tasks) == multiset(p.tasks) + multiset{p.accepted};
      case _ =>
    }
  }

  lemma TakeConserves(p: Pool, w: nat, t: Task)
    requires Enabled(p, Check(w))
    ensures Places(Apply(p, Check(w)), t) == Places(p, t)
  {
    var q := Apply(p, Check(w));
    TotalUpdate(p.workers, HOLDING(t), w, q.workers[w]);
    if p.tasks != [] {
      assert p.tasks == [p.tasks[0]] + q.tasks;
      assert multiset(p.tasks) == multiset{p.tasks[0]} + multiset(q.tasks);
    }
  }

  lemma FinishConserves(p: Pool, w: nat, t: Task)
    requires Enabled(p, Finish(w))
    ensures Places(Apply(p, Finish(w)), t) == Places(p, t)
  {
    var q := Apply(p, Finish(w));
    TotalUpdate(p.workers, HOLDING(t), w, Settling);
    assert multiset(q.finished) == multiset(p.finished) + multiset{p.workers[w].task};
  }

  lemma StepKeepsWakeups(p: Pool, e: Event)
    requires Enabled(p, e) && NoLostWakeup(p) && Bookkeeping(p)
    ensures NoLostWakeup(Apply(p, e))
  {
    match e {
      case NotifyOne(w) => WakeKeepsWakeups(p, e, w);
      case Spurious(w) => WakeKeepsWakeups(p, e, w);
      case NotifyNobody => TotalZero(p.workers, ASLEEP);
      case Check(w) => CheckKeepsWakeups(p, w);
      case Finish(w) => BodyKeepsWakeups(p, e, w);
      case Settle(w) => BodyKeepsWakeups(p, e, w);
      case NotifyAll => WakeTotals(p.workers, EXITED);
      case _ =>
    }
  }

  /** A worker that wakes up will look at the queue. */
  lemma WakeKeepsWakeups(p: Pool, e: Event, w: nat)
    requires e == NotifyOne(w) || e == Spurious(w)
    requires Enabled(p, e) && NoLostWakeup(p)
    ensures NoLostWakeup(Apply(p, e))
  {
    TotalUpdate(p.workers, ASLEEP, w, Ready);
    TotalUpdate(p.workers, READY, w, Ready);
    hide Total;
  }

  /** One that looks takes a task, or finds none. */
  lemma CheckKeepsWakeups(p: Pool, w: nat)
    requires Enabled(p, Check(w)) && NoLostWakeup(p)
    ensures NoLostWakeup(Apply(p, Check(w)))
  {
    var state := Apply(p, Check(w)).workers[w];
    TotalUpdate(p.workers, ASLEEP, w, state);
    TotalUpdate(p.workers, READY, w, state);
    hide Total;
  }

  /** One that is done with a task looks again. */
  lemma BodyKeepsWakeups(p: Pool, e: Event, w: nat)
    requires e == Finish(w) || e == Settle(w)
    requires Enabled(p, e) && NoLostWakeup(p)
    ensures NoLostWakeup(Apply(p, e))
  {
    var state := Apply(p, e).workers[w];
    TotalUpdate(p.workers, ASLEEP, w, state);
    TotalUpdate(p.workers, READY, w, state);
    hide Total;
  }

  lemma StepKeepsBookkeeping(p: Pool, e: Event)
    requires Enabled(p, e) && Bookkeeping(p)
    ensures Bookkeeping(Apply(p, e))
  {
    match e {
      case NotifyOne(w) => WorkerKeepsBookkeeping(p, e, w);
      case Spurious(w) => WorkerKeepsBookkeeping(p, e, w);
      case Check(w) => CheckKeepsBookkeeping(p, w);
      case Finish(w) => WorkerKeepsBookkeeping(p, e, w);
      case Settle(w) => SettleKeepsBookkeeping(p, w);
      case NotifyAll =>
        WakeTotals(p.workers, ACTIVE);
        WakeTotals(p.workers, EXITED);
      case _ =>
    }
  }

  /** A worker that wakes up or finishes a body stays as active as it was. */
  lemma WorkerKeepsBookkeeping(p: Pool, e: Event, w: nat)
    requires e == NotifyOne(w) || e == Spurious(w) || e == Finish(w)
    requires Enabled(p, e) && Bookkeeping(p)
    ensures Bookkeeping(Apply(p, e))
  {
    var state := Apply(p, e).workers[w];
    TotalUpdate(p.workers, ACTIVE, w, state);
    TotalUpdate(p.workers, EXITED, w, state);
    hide Total;
  }

  lemma CheckKeepsBookkeeping(p: Pool, w: nat)
    requires Enabled(p, Check(w)) && Bookkeeping(p)
    ensures Bookkeeping(Apply(p, Check(w)))
  {
    var state := Apply(p, Check(w)).workers[w];
    TotalUpdate(p.workers, ACTIVE, w, state);
    TotalUpdate(p.workers, EXITED, w, state);
    hide Total;
  }

  lemma SettleKeepsBookkeeping(p: Pool, w: nat)
    requires Enabled(p, Settle(w)) && Bookkeeping(p)
    ensures Bookkeeping(Apply(p, Settle(w)))
  {
    TotalUpdate(p.workers, ACTIVE, w, Ready);
    TotalUpdate(p.workers, EXITED, w, Ready);
    hide Total;
  }

  lemma StepKeepsCallers(p: Pool, e: Event)
    requires Enabled(p, e) && CallersOk(p)
    ensures CallersOk(Apply(p, e))
  {
    var q := Apply(p, e);
    if Blocked in q.callers {
      var c :| 0 <= c < |q.callers| && q.callers[c] == Blocked;
      if e != TestIdle(c) {
        assert c < |p.callers| && p.callers[c] == Blocked;
      }
    }
  }

  /** Every step of every thread keeps the invariant. */
  lemma StepKeepsInv(p: Pool, e: Event)
    requires Inv(p) && Enabled(p, e)
    ensures Inv(Apply(p, e))
  {
    StepKeepsWakeups(p, e);
    StepKeepsBookkeeping(p, e);
    StepKeepsCallers(p, e);
    forall t: Task
      ensures Places(Apply(p, e), t) == if t < Apply(p, e).accepted then 1 else 0
    {
      StepConserves(p, e, t);
    }
  }

  /** A run of the pool: any interleaving of the steps above. */
  ghost predicate Run(threads: nat, events: seq<Event>, pools: seq<Pool>) {
    && |pools| == |events| + 1
    && pools[0] == Initial(threads)
    && forall i :: 0 <= i < |events| ==> Enabled(pools[i], events[i]) && pools[i+1] == Apply(pools[i], events[i])
  }

  lemma {:induction false} EveryRunInv(threads: nat, events: seq<Event>, pools: seq<Pool>, n: nat)
    requires Run(threads, events, pools)
    requires n < |pools|
    ensures Inv(pools[n])
  {
    if n == 0 {
      InitialInv(threads);
    } else {
      EveryRunInv(threads, events, pools, n - 1);
      assert Enabled(pools[n-1], events[n-1]) && pools[n-1+1] == Apply(pools[n-1], events[n-1]);
      StepKeepsInv(pools[n-1], events[n-1]);
    }
  }

  // ------------------------------------------------------------------------ order

  /** The queue holds the youngest accepted tasks, the oldest of them first; each submission sent at most one
      notification. */
  ghost predicate InOrder(p: Pool) {
    && |p.tasks| <= p.accepted
    && (forall i :: 0 <= i < |p.tasks| ==> p.tasks[i] == p.accepted - |p.tasks| + i)
    && p.notifies <= p.accepted
  }

  lemma StepKeepsOrder(p: Pool, e: Event)
    requires InOrder(p) && Enabled(p, e)
    ensures InOrder(Apply(p, e))
  {
  }

  lemma {:induction false} EveryRunInOrder(threads: nat, events: seq<Event>, pools: seq<Pool>, n: nat)
    requires Run(threads, events, pools)
    requires n < |pools|
    ensures InOrder(pools[n])
  {
    if n > 0 {
      EveryRunInOrder(threads, events, pools, n - 1);
      assert Enabled(pools[n-1], events[n-1]) && pools[n-1+1] == Apply(pools[n-1], events[n-1]);
      StepKeepsOrder(pools[n-1], events[n-1]);
    }
  }

  /** The tasks that workers were seen to start during the first n steps, in this order. */
  ghost function Started(events: seq<Event>, pools: seq<Pool>, n: nat): seq<Task>
    requires n <= |events| && |pools| == |events| + 1
  {
    if n == 0 then []
    else
      Started(events, pools, n - 1)
      + if events[n-1].Check? && events[n-1].w < |pools[n].workers| && pools[n].workers[events[n-1].w].Running?
        then [pools[n].workers[events[n-1].w].task] else []
  }

  /** Tasks are started in order of acceptance, none is passed over, and those not started yet are queued. */
  lemma {:induction false} StartedInOrder(threads: nat, events: seq<Event>, pools: seq<Pool>, n: nat)
    requires Run(threads, events, pools)
    requires n <= |events|
    ensures |Started(events, pools, n)| == pools[n].accepted - |pools[n].tasks|
    ensures forall i :: 0 <= i < |Started(events, pools, n)| ==> Started(events, pools, n)[i] == i
    ensures forall i :: 0 <= i < |pools[n].tasks| ==> pools[n].tasks[i] == |Started(events, pools, n)| + i
  {
    EveryRunInOrder(threads, events, pools, n);
    if n > 0 {
      StartedInOrder(threads, events, pools, n - 1);
      EveryRunInOrder(threads, events, pools, n - 1);
      assert Enabled(pools[n-1], events[n-1]) && pools[n-1+1] == Apply(pools[n-1], events[n-1]);
      OnlyCheckStarts(pools[n-1], events[n-1]);
    }
  }

  /** A step takes a task out of the queue exactly when it leaves a worker running the oldest one. */
  lemma OnlyCheckStarts(p: Pool, e: Event)
    requires Enabled(p, e) && InOrder(p)
    ensures var q := Apply(p, e);
            if e.Check? && e.w < |q.workers| && q.workers[e.w].Running?
            then |q.tasks| + 1 == |p.tasks| && q.accepted == p.accepted
                 && q.workers[e.w].task == p.accepted - |p.tasks|
            else q.accepted - |q.tasks| == p.accepted - |p.tasks|
  {
  }

  /** What a pool with a single worker has finished, is running and still has queued are the accepted tasks. */
  ghost predicate OneByOne(p: Pool) {
    && |p.workers| == 1
    && (forall i :: 0 <= i < |p.finished| ==> p.finished[i] == i)
    && (p.workers[0].Running? ==> p.workers[0].task == |p.finished|)
    && |p.finished| + (if p.workers[0].Running? then 1 else 0) + |p.tasks| == p.accepted
  }

  lemma StepKeepsOneByOne(p: Pool, e: Event)
    requires OneByOne(p) && InOrder(p) && Enabled(p, e)
    ensures OneByOne(Apply(p, e))
  {
  }

  lemma {:induction false} SingleWorkerRun(events: seq<Event>, pools: seq<Pool>, n: nat)
    requires Run(1, events, pools)
    requires n < |pools|
    ensures OneByOne(pools[n])
  {
    if n > 0 {
      SingleWorkerRun(events, pools, n - 1);
      EveryRunInOrder(1, events, pools, n - 1);
      assert Enabled(pools[n-1], events[n-1]) && pools[n-1+1] == Apply(pools[n-1], events[n-1]);
      StepKeepsOneByOne(pools[n-1], events[n-1]);
    }
  }

  /** A single worker finishes tasks 0, 1, 2, ... in order of acceptance. */
  lemma SingleWorkerFinishesInOrder(events: seq<Event>, pools: seq<Pool>, n: nat)
    requires Run(1, events, pools)
    requires n < |pools|
    ensures forall i :: 0 <= i < |pools[n].finished| ==> pools[n].finished[i] == i
  {
    SingleWorkerRun(events, pools, n);
  }

  // --------------------------------------------------------------- consequences

  /** A queued task never waits unattended: some worker is neither asleep nor gone, or a notification
      is on its way. */
  lemma QueueIsAttended(threads: nat, events: seq<Event>, pools: seq<Pool>, n: nat)
    requires Run(threads, events, pools)
    requires n < |pools| && pools[n].workers != []
    requires pools[n].tasks != []
    ensures pools[n].notifies > 0 || exists w :: w in pools[n].workers && w != Asleep && w != Exited
  {
    EveryRunInv(threads, events, pools, n);
    Attended(pools[n]);
  }

  lemma Attended(p: Pool)
    requires NoLostWakeup(p) && Bookkeeping(p) && p.workers != [] && p.tasks != []
    ensures p.notifies > 0 || exists w :: w in p.workers && w != Asleep && w != Exited
  {
    TotalZero(p.workers, EXITED);
    TotalZero(p.workers, ASLEEP);
    TotalZero(p.workers, READY);
    assert p.workers[0] in p.workers;
  }

  /** An idle pool has run every task it accepted exactly once. */
  lemma IdleMeansFinished(p: Pool, t: Task)
    requires Inv(p) && Idle(p)
    ensures forall w :: w in p.workers ==> !w.Running?
    ensures multiset(p.finished)[t] == if t < p.accepted then 1 else 0
  {
    TotalZero(p.workers, ACTIVE);
    forall w | w in p.workers
      ensures !w.Running?
    {
      assert Weight(w, ACTIVE) == 0;
    }
    TotalZero(p.workers, HOLDING(t));
    assert Places(p, t) == if t < p.accepted then 1 else 0;
  }

  /** wait_all returns only from a pool with an empty queue and nothing running, in which every task
      accepted so far has run exactly once. */
  lemma WaitAllReturnsIdle(threads: nat, events: seq<Event>, pools: seq<Pool>, n: nat, c: nat, t: Task)
    requires Run(threads, events, pools)
    requires n < |events| && c < |pools[n].callers| && c < |pools[n+1].callers|
    requires pools[n].callers[c] != Returned && pools[n+1].callers[c] == Returned
    ensures pools[n].tasks == [] && forall w :: w in pools[n].workers ==> !w.Running?
    ensures multiset(pools[n].finished)[t] == if t < pools[n].accepted then 1 else 0
  {
    EveryRunInv(threads, events, pools, n);
    OnlyIdleReturns(pools[n], events[n], c);
    IdleMeansFinished(pools[n], t);
  }

  lemma OnlyIdleReturns(p: Pool, e: Event, c: nat)
    requires Enabled(p, e)
    requires c < |p.callers| && c < |Apply(p, e).callers|
    requires p.callers[c] != Returned && Apply(p, e).callers[c] == Returned
    ensures e == TestIdle(c) && Idle(p)
  {
  }

  /** A caller blocked in wait_all is never forgotten: there is still work that will wake it. */
  lemma BlockedCallerHasWork(threads: nat, events: seq<Event>, pools: seq<Pool>, n: nat)
    requires Run(threads, events, pools)
    requires n < |pools| && Blocked in pools[n].callers
    ensures pools[n].tasks != [] || exists w :: w in pools[n].workers && (w.Running? || w == Settling)
  {
    EveryRunInv(threads, events, pools, n);
    TotalZero(pools[n].workers, ACTIVE);
  }

  lemma AllExitedIsIdle(p: Pool)
    requires Bookkeeping(p) && p.workers != []
    requires forall w :: w in p.workers ==> w == Exited
    ensures Idle(p)
  {
    assert p.workers[0] in p.workers && Weight(p.workers[0], EXITED) == 1;
    TotalZero(p.workers, EXITED);
    TotalZero(p.workers, ACTIVE);
  }

  /** Once all workers have exited, every accepted task has run exactly once. */
  lemma ExitedMeansAllRan(threads: nat, events: seq<Event>, pools: seq<Pool>, n: nat, t: Task)
    requires Run(threads, events, pools)
    requires n < |pools| && pools[n].workers != []
    requires forall w :: w in pools[n].workers ==> w == Exited
    ensures multiset(pools[n].finished)[t] == if t < pools[n].accepted then 1 else 0
  {
    EveryRunInv(threads, events, pools, n);
    AllExitedIsIdle(pools[n]);
    IdleMeansFinished(pools[n], t);
  }

  // ------------------------------------------------------------------- shutdown

  /** How much the pool still has to do once it has been stopped. */
  function Remaining(p: Pool): nat {
    4 * |p.tasks| + p.notifies + (if p.notifyAll then 1 else 0) + Total(p.workers, STEPS)
  }

  /** Steps of the workers and of pending notifications. */
  predicate PoolEvent(e: Event) {
    !(e.Submit? || e.Refuse? || e.Stop? || e.WaitAll? || e.TestIdle? || e.SpuriousCaller?)
  }

  /** After the stop every such step makes progress, spurious wakeups included: a stopped pool can
      take only finitely many of them. */
  lemma StoppedPoolProgresses(p: Pool, e: Event)
    requires p.stop && Enabled(p, e) && PoolEvent(e)
    ensures Apply(p, e).stop && Remaining(Apply(p, e)) < Remaining(p)
    ensures |Apply(p, e).workers| == |p.workers| && Apply(p, e).accepted == p.accepted
  {
    var q := Apply(p, e);
    match e {
      case NotifyOne(w) => TotalUpdate(p.workers, STEPS, w, q.workers[w]);
      case Spurious(w) => TotalUpdate(p.workers, STEPS, w, q.workers[w]);
      case Check(w) => TotalUpdate(p.workers, STEPS, w, q.workers[w]);
      case Finish(w) => TotalUpdate(p.workers, STEPS, w, q.workers[w]);
      case Settle(w) => TotalUpdate(p.workers, STEPS, w, q.workers[w]);
      case NotifyAll => WakeTotals(p.workers, EXITED);
      case NotifyNobody =>
    }
  }

  /** And as long as a worker has not exited, some such step is possible: shutdown cannot deadlock. */
  lemma StoppedPoolNotStuck(p: Pool, w: nat) returns (e: Event)
    requires Inv(p) && p.stop && w < |p.workers| && p.workers[w] != Exited
    ensures Enabled(p, e) && PoolEvent(e)
  {
    var worker := p.workers[w];
    assert worker in p.workers;
    match worker {
      case Ready => e := Check(w);
      case Asleep =>
        TotalZero(p.workers, ASLEEP);
        assert Weight(worker, ASLEEP) == 1;
        e := NotifyAll;
      case Running(_) => e := Finish(w);
      case Settling =>
        TotalZero(p.workers, ACTIVE);
        assert Weight(worker, ACTIVE) == 1;
        e := Settle(w);
    }
  }

  method AnyNumber() returns (n: nat)
  {
    n := *;
  }

  /** On a stopped pool a step that is not one of the pool's own moves the callers only. */
  lemma CallersOnly(p: Pool, e: Event)
    requires p.stop && Enabled(p, e) && !PoolEvent(e)
    ensures Apply(p, e) == p.(callers := Apply(p, e).callers)
  {
  }

  /** Callers of wait_all, and of submit, which is refused, may come in between: any number of their steps. */
  method CallersMove(start: Pool) returns (p: Pool)
    requires Inv(start) && start.stop
    ensures Inv(p) && p == start.(callers := p.callers)
  {
    p := start;
    var n := AnyNumber();
    for i := 0 to n
      invariant Inv(p) && p == start.(callers := p.callers)
    {
      assert Enabled(p, WaitAll) && !PoolEvent(WaitAll);
      var e :| Enabled(p, e) && !PoolEvent(e);
      StepKeepsInv(p, e);
      CallersOnly(p, e);
      hide Inv, Apply;
      p := Apply(p, e);
    }
  }

  /** The destructor's join: whatever order the scheduler picks, as long as it does not run the callers alone
      forever, all workers exit, with every accepted task run exactly once. */
  method JoinAll(start: Pool) returns (p: Pool)
    requires Inv(start) && start.stop
    ensures Inv(p) && forall w :: w in p.workers ==> w == Exited
    ensures |p.workers| == |start.workers| && p.accepted == start.accepted
    ensures |start.workers| > 0 ==> forall t: Task :: multiset(p.finished)[t] == if t < start.accepted then 1 else 0
  {
    p := start;
    while exists w :: 0 <= w < |p.workers| && p.workers[w] != Exited
      invariant Inv(p) && p.stop
      invariant |p.workers| == |start.workers| && p.accepted == start.accepted
      decreases Remaining(p)
    {
      p := CallersMove(p);
      ghost var w :| 0 <= w < |p.workers| && p.workers[w] != Exited;
      ghost var possible := StoppedPoolNotStuck(p, w);
      var e :| Enabled(p, e) && PoolEvent(e);
      StoppedPoolProgresses(p, e);
      StepKeepsInv(p, e);
      p := Apply(p, e);
    }
    if |p.workers| > 0 {
      AllExitedIsIdle(p);
      forall t: Task
        ensures multiset(p.finished)[t] == if t < p.accepted then 1 else 0
      {
        IdleMeansFinished(p, t);
      }
    }
  }
}
