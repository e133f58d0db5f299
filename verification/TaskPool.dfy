/** The bounded worker pool (TaskWorkerPool): submission, the worker loop around its condition
    variable, and shutdown, as atomic steps taken by any number of threads. */
module TaskPool {
  /** Idle holds no task and is about to test the wait predicate; Asleep waits on the condition. */
  datatype Worker<T> = Idle | Asleep | Busy(task: T) | Exited

  /** accepted, started and finished are histories: tasks in the order they were admitted, taken
      from the queue, and completed. */
  datatype Pool<T> = Pool(capacity: nat, workers: seq<Worker<T>>, queue: seq<T>, accepting: bool,
                          notified: bool, returned: bool,
                          accepted: seq<T>, started: seq<T>, finished: seq<T>)

  datatype Event<T> =
    | Submit(task: T, wake: nat)   // wake: the sleeper notify_one picks, if there is any
    | Take(worker: nat)
    | Sleep(worker: nat)
    | Spurious(worker: nat)
    | Finish(worker: nat)
    | Exit(worker: nat)
    | CloseAdmission
    | NotifyAll
    | ReturnFromShutdown

  /** The admission test made under the lock by submit. */
  predicate Admits(accepting: bool, workers: nat, pending: nat, capacity: nat) {
    accepting && workers != 0 && pending < capacity
  }

  ghost predicate CanSubmit<T>(p: Pool<T>) { Admits(p.accepting, |p.workers|, |p.queue|, p.capacity) }

  ghost predicate Is<T>(p: Pool<T>, w: nat, state: Worker<T>) { w < |p.workers| && p.workers[w] == state }

  ghost predicate SomeAsleep<T>(p: Pool<T>) { exists w :: 0 <= w < |p.workers| && p.workers[w].Asleep? }

  ghost predicate Enabled<T>(p: Pool<T>, e: Event<T>) {
    match e
    case Submit(_, wake) => SomeAsleep(p) ==> Is(p, wake, Asleep)
    case Take(w) => Is(p, w, Idle) && p.queue != []
    case Sleep(w) => Is(p, w, Idle) && p.queue == [] && p.accepting
    case Spurious(w) => Is(p, w, Asleep)
    case Finish(w) => w < |p.workers| && p.workers[w].Busy?
    case Exit(w) => Is(p, w, Idle) && p.queue == [] && !p.accepting
    case CloseAdmission => true
    case NotifyAll => !p.accepting
    case ReturnFromShutdown => p.notified && forall w :: 0 <= w < |p.workers| ==> p.workers[w].Exited?
  }

  ghost function Awake<T>(w: Worker<T>): Worker<T> { if w.Asleep? then Idle else w }

  ghost function Apply<T>(p: Pool<T>, e: Event<T>): Pool<T>
    requires Enabled(p, e)
  {
    match e
    case Submit(t, wake) =>
      if !CanSubmit(p) then p
      else p.(queue := p.queue + [t], accepted := p.accepted + [t],
              workers := if SomeAsleep(p) then p.workers[wake := Idle] else p.workers)
    case Take(w) =>
      p.(workers := p.workers[w := Busy(p.queue[0])], queue := p.queue[1..],
         started := p.started + [p.queue[0]])
    case Sleep(w) => p.(workers := p.workers[w := Asleep])
    case Spurious(w) => p.(workers := p.workers[w := Idle])
    case Finish(w) =>
      p.(workers := p.workers[w := Idle], finished := p.finished + [p.workers[w].task])
    case Exit(w) => p.(workers := p.workers[w := Exited])
    case CloseAdmission => p.(accepting := false)
    case NotifyAll => p.(notified := true,
                         workers := seq(|p.workers|, i requires 0 <= i < |p.workers| => Awake(p.workers[i])))
    case ReturnFromShutdown => p.(returned := true)
  }

  ghost function Initial<T>(workers: nat, capacity: nat): Pool<T> {
    Pool(capacity, seq(workers, _ => Idle), [], true, false, false, [], [], [])
  }

  ghost predicate Run<T>(trace: seq<Pool<T>>, events: seq<Event<T>>) {
    && |trace| == |events| + 1
    && (exists n: nat, c: nat :: trace[0] == Initial(n, c))
    && forall i :: 0 <= i < |events| ==> Enabled(trace[i], events[i]) && trace[i + 1] == Apply(trace[i], events[i])
  }

  // ---------- the invariant ----------

  ghost function IdleCount<T>(ws: seq<Worker<T>>): nat {
    if ws == [] then 0 else IdleCount(ws[..|ws| - 1]) + if ws[|ws| - 1].Idle? then 1 else 0
  }

  /** How many workers hold the given task. */
  ghost function InHand<T>(ws: seq<Worker<T>>, t: T): nat {
    if ws == [] then 0 else InHand(ws[..|ws| - 1], t) + Held(ws[|ws| - 1], t)
  }

  ghost function Held<T>(w: Worker<T>, t: T): nat { if w == Busy(t) then 1 else 0 }

  lemma {:induction false} CountsAfterUpdate<T(!new)>(ws: seq<Worker<T>>, i: nat, w: Worker<T>)
    requires i < |ws|
    ensures IdleCount(ws[i := w]) + (if ws[i].Idle? then 1 else 0) == IdleCount(ws) + (if w.Idle? then 1 else 0)
    ensures forall t :: InHand(ws[i := w], t) + Held(ws[i], t) == InHand(ws, t) + Held(w, t)
  {
    var n := |ws| - 1;
    if i == n {
      assert ws[i := w][..n] == ws[..n];
    } else {
      CountsAfterUpdate(ws[..n], i, w);
      assert ws[i := w][..n] == ws[..n][i := w];
    }
  }

  lemma {:induction false} NobodyBusy<T(!new)>(ws: seq<Worker<T>>)
    requires forall i :: 0 <= i < |ws| ==> !ws[i].Busy?
    ensures forall t :: InHand(ws, t) == 0
  {
    if ws != [] { NobodyBusy(ws[..|ws| - 1]); }
  }

  lemma {:induction false} WakingAll<T(!new)>(ws: seq<Worker<T>>, vs: seq<Worker<T>>)
    requires |vs| == |ws| && forall i :: 0 <= i < |ws| ==> vs[i] == Awake(ws[i])
    ensures forall t :: InHand(vs, t) == InHand(ws, t)
  {
    if ws != [] { WakingAll(ws[..|ws| - 1], vs[..|ws| - 1]); }
  }

  lemma {:induction false} IdleExists<T>(ws: seq<Worker<T>>)
    requires IdleCount(ws) > 0
    ensures exists i :: 0 <= i < |ws| && ws[i].Idle?
  {
    if ws[|ws| - 1].Idle? {
      assert ws[|ws| - 1].Idle?;
    } else {
      IdleExists(ws[..|ws| - 1]);
      var i :| 0 <= i < |ws| - 1 && ws[..|ws| - 1][i].Idle?;
      assert ws[i].Idle?;
    }
  }

  /** Every started task is either finished or in some worker's hands, counted with repetition. */
  ghost predicate Conserved<T(!new)>(p: Pool<T>) {
    forall t :: multiset(p.started)[t] == multiset(p.finished)[t] + InHand(p.workers, t)
  }

  /** Queue and histories always fit together, a sleeper exists only while enough workers are
      already awake for everything queued, and workers leave only a closed, empty pool. */
  ghost predicate Orderly<T>(p: Pool<T>) {
    && |p.queue| <= p.capacity
    && p.accepted == p.started + p.queue
    && (SomeAsleep(p) ==> IdleCount(p.workers) >= |p.queue|)
    && (p.notified ==> !p.accepting && !SomeAsleep(p))
    && ((exists w :: 0 <= w < |p.workers| && p.workers[w].Exited?) ==> !p.accepting && p.queue == [])
    && (p.queue != [] ==> |p.workers| > 0)
    && (p.returned ==> p.notified && forall w :: 0 <= w < |p.workers| ==> p.workers[w].Exited?)
  }

  ghost predicate Inv<T(!new)>(p: Pool<T>) { Conserved(p) && Orderly(p) }

  lemma InvInitial<T(!new)>(workers: nat, capacity: nat)
    ensures Inv<T>(Initial(workers, capacity))
  {
    NobodyBusy(Initial<T>(workers, capacity).workers);
  }

  lemma ConservedTake<T(!new)>(p: Pool<T>, w: nat)
    requires Conserved(p) && Enabled(p, Take(w))
    ensures Conserved(Apply(p, Take(w)))
  {
    CountsAfterUpdate(p.workers, w, Busy(p.queue[0]));
  }

  lemma ConservedFinish<T(!new)>(p: Pool<T>, w: nat)
    requires Conserved(p) && Enabled(p, Finish(w))
    ensures Conserved(Apply(p, Finish(w)))
  {
    CountsAfterUpdate(p.workers, w, Idle);
  }

  lemma ConservedStep<T(!new)>(p: Pool<T>, e: Event<T>)
    requires Conserved(p) && Enabled(p, e)
    ensures Conserved(Apply(p, e))
  {
    hide SomeAsleep;
    match e
    case Submit(t, wake) => if Apply(p, e).workers != p.workers { CountsAfterUpdate(p.workers, wake, Idle); }
    case Take(w) => ConservedTake(p, w);
    case Sleep(w) => CountsAfterUpdate(p.workers, w, Asleep);
    case Spurious(w) => CountsAfterUpdate(p.workers, w, Idle);
    case Finish(w) => ConservedFinish(p, w);
    case Exit(w) => CountsAfterUpdate(p.workers, w, Exited);
    case NotifyAll => WakingAll(p.workers, Apply(p, e).workers);
    case CloseAdmission =>
    case ReturnFromShutdown =>
  }

  lemma OrderlyTake<T(!new)>(p: Pool<T>, w: nat)
    requires Orderly(p) && Enabled(p, Take(w))
    ensures Orderly(Apply(p, Take(w)))
  {
    var q := Apply(p, Take(w));
    CountsAfterUpdate(p.workers, w, Busy(p.queue[0]));
    assert p.started + p.queue == q.started + q.queue;
    SleepersOf(p, q, w);
  }

  lemma OrderlySubmit<T(!new)>(p: Pool<T>, e: Event<T>)
    requires Orderly(p) && e.Submit? && Enabled(p, e)
    ensures Orderly(Apply(p, e))
  {
    if CanSubmit(p) && SomeAsleep(p) {
      CountsAfterUpdate(p.workers, e.wake, Idle);
    }
  }

  /** A worker that changes nothing but its own state and does not fall asleep. */
  lemma OrderlyMove<T(!new)>(p: Pool<T>, e: Event<T>)
    requires Orderly(p) && Enabled(p, e) && (e.Spurious? || e.Finish? || e.Exit?)
    ensures Orderly(Apply(p, e))
  {
    var q := Apply(p, e);
    CountsAfterUpdate(p.workers, e.worker, q.workers[e.worker]);
    SleepersOf(p, q, e.worker);
  }

  lemma OrderlySleep<T(!new)>(p: Pool<T>, w: nat)
    requires Orderly(p) && Enabled(p, Sleep(w))
    ensures Orderly(Apply(p, Sleep(w)))
  {
  }

  lemma OrderlyStep<T(!new)>(p: Pool<T>, e: Event<T>)
    requires Orderly(p) && Enabled(p, e)
    ensures Orderly(Apply(p, e))
  {
    match e
    case Submit(_, _) => OrderlySubmit(p, e);
    case Take(w) => OrderlyTake(p, w);
    case Sleep(w) => OrderlySleep(p, w);
    case Spurious(_) => OrderlyMove(p, e);
    case Finish(_) => OrderlyMove(p, e);
    case Exit(_) => OrderlyMove(p, e);
    case CloseAdmission =>
    case NotifyAll =>
    case ReturnFromShutdown =>
  }

  lemma SleepersOf<T>(p: Pool<T>, q: Pool<T>, w: nat)
    requires w < |p.workers| == |q.workers| && !q.workers[w].Asleep?
    requires forall i :: 0 <= i < |p.workers| && i != w ==> q.workers[i] == p.workers[i]
    ensures (exists i :: 0 <= i < |q.workers| && q.workers[i].Asleep?) ==>
            (exists i :: 0 <= i < |p.workers| && p.workers[i].Asleep?)
  {
    if i :| 0 <= i < |q.workers| && q.workers[i].Asleep? {
      assert p.workers[i].Asleep?;
    }
  }

  lemma {:induction false} InvRun<T(!new)>(trace: seq<Pool<T>>, events: seq<Event<T>>, k: nat)
    requires Run(trace, events) && k < |trace|
    ensures Inv(trace[k])
  {
    if k == 0 {
      var n: nat, c: nat :| trace[0] == Initial(n, c);
      InvInitial<T>(n, c);
    } else {
      InvRun(trace, events, k - 1);
      ConservedStep(trace[k - 1], events[k - 1]);
      OrderlyStep(trace[k - 1], events[k - 1]);
    }
  }

  // ---------- main results ----------

  /** In every run: the queue stays within its bound, tasks are started in the order they were
      admitted, and when shutdown returns every admitted task has run, each exactly once. */
  lemma AcceptedTasksRunExactlyOnce<T(!new)>(trace: seq<Pool<T>>, events: seq<Event<T>>, k: nat)
    requires Run(trace, events) && k < |trace|
    ensures |trace[k].queue| <= trace[k].capacity
    ensures trace[k].started <= trace[k].accepted
    ensures trace[k].returned ==> multiset(trace[k].finished) == multiset(trace[k].accepted)
  {
    var p := trace[k];
    InvRun(trace, events, k);
    if p.returned {
      NobodyBusy(p.workers);
      if |p.workers| > 0 { assert p.workers[0].Exited?; }
      assert p.accepted == p.started;
    }
  }

  /** A submission is refused exactly when the pool is closed, has no workers or its queue is full; an
      accepted task is the last in the queue. */
  lemma RefusedExactly<T(!new)>(trace: seq<Pool<T>>, events: seq<Event<T>>, k: nat)
    requires Run(trace, events) && k < |events| && events[k].Submit?
    ensures var p, q := trace[k], trace[k + 1];
            if !p.accepting || |p.workers| == 0 || |p.queue| == p.capacity then q == p
            else q.accepted == p.accepted + [events[k].task] && q.queue == p.queue + [events[k].task]
  {
    InvRun(trace, events, k);
    hide Conserved, SomeAsleep, Initial;
  }

  /** No wakeup is lost: while a task is queued some worker is awake, and after the broadcast of
      shutdown the pool can always move until shutdown may return. */
  lemma NeverStuck<T(!new)>(trace: seq<Pool<T>>, events: seq<Event<T>>, k: nat)
    requires Run(trace, events) && k < |trace|
    ensures trace[k].queue != [] ==>
              exists w: nat :: Enabled(trace[k], Take(w)) || Enabled(trace[k], Finish(w))
    ensures trace[k].notified ==>
              || Enabled(trace[k], ReturnFromShutdown)
              || exists w: nat ::
                   Enabled(trace[k], Take(w)) || Enabled(trace[k], Finish(w)) || Enabled(trace[k], Exit(w))
  {
    var p := trace[k];
    InvRun(trace, events, k);
    if p.queue != [] {
      if SomeAsleep(p) {
        IdleExists(p.workers);
        var w :| 0 <= w < |p.workers| && p.workers[w].Idle?;
        assert Enabled(p, Take(w));
      } else {
        assert !p.workers[0].Asleep? && !p.workers[0].Exited?;
        assert Enabled(p, Take(0)) || Enabled(p, Finish(0));
      }
    } else if p.notified && !Enabled(p, ReturnFromShutdown) {
      var w :| 0 <= w < |p.workers| && !p.workers[w].Exited?;
      assert !p.workers[w].Asleep?;
      assert Enabled(p, Finish(w)) || Enabled(p, Exit(w));
    }
  }

  // ---------- the object ----------

  /** The pool's members under its mutex; the ghost pool adds the workers' states and histories. */
  class WorkerPool<T(!new)> {
    const capacity: nat
    const workers: nat
    var tasks: seq<T>
    var accepting: bool
    ghost var pool: Pool<T>

    ghost predicate Valid()
      reads this
    {
      && pool.queue == tasks && pool.accepting == accepting && pool.capacity == capacity && |pool.workers| == workers
      && Inv(pool)
    }

    constructor (workers: nat, capacity: nat)
      ensures Valid() && pool == Initial(workers, capacity)
    {
      this.capacity, this.workers, tasks, accepting := capacity, workers, [], true;
      pool := Initial(workers, capacity);
      new;
      InvInitial<T>(workers, capacity);
    }

    method TrySubmit(task: T, ghost wake: nat) returns (submitted: bool)
      requires Valid() && Enabled(pool, Submit(task, wake))
      modifies this
      ensures Valid() && pool == Apply(old(pool), Submit(task, wake)) && submitted == CanSubmit(old(pool))
      ensures |tasks| <= capacity
    {
      ConservedStep(pool, Submit(task, wake));
      OrderlyStep(pool, Submit(task, wake));
      hide Conserved;
      submitted := accepting && workers != 0 && |tasks| < capacity;
      pool := Apply(pool, Submit(task, wake));
      if submitted {
        tasks := tasks + [task];
      }
    }

    /** The critical section of the worker loop once its wait predicate holds: the oldest task, or
        the order to leave. */
    method NextTask(ghost w: nat) returns (got: bool, task: seq<T>)
      requires Valid() && Is(pool, w, Idle) && (tasks != [] || !accepting)
      modifies this
      ensures Valid() && got == (old(tasks) != [])
      ensures pool == Apply(old(pool), if got then Take(w) else Exit(w))
      ensures task == if got then old(tasks)[..1] else []
    {
      if tasks == [] {
        ConservedStep(pool, Exit(w));
        OrderlyStep(pool, Exit(w));
        hide Conserved, Orderly;
        pool := Apply(pool, Exit(w));
        return false, [];
      }
      ConservedStep(pool, Take(w));
      OrderlyStep(pool, Take(w));
      hide Conserved, Orderly;
      pool := Apply(pool, Take(w));
      task := tasks[..1];
      tasks := tasks[1..];
      got := true;
    }

    method StopAccepting()
      requires Valid()
      modifies this
      ensures Valid() && pool == Apply(old(pool), CloseAdmission) && !accepting
    {
      ConservedStep(pool, CloseAdmission);
      OrderlyStep(pool, CloseAdmission);
      hide Conserved, Orderly;
      accepting := false;
      pool := Apply(pool, CloseAdmission);
    }
  }
}
