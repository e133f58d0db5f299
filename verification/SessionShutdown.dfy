/** The session store on its worker pool: both state machines moving together. The pool's queue and
    busy workers are the store's, no run of the store is lost, and once shutdown has returned no
    operation is left in the pool and none reaches the cache again. */
module SessionShutdown {
  import opened Wrappers
  import opened SessionTextCodec
  import opened SessionProtocol
  import opened SessionWorkers
  import TaskPool

  type PoolEvent = TaskPool.Event<nat>
  type Workers = seq<TaskPool.Worker<nat>>

  /** A task in the pool is known by its operation. */
  datatype System = System(store: World, pool: TaskPool.Pool<nat>)

  /** A step of the store with the move it makes in the pool, if any, or a move of the pool alone. */
  datatype Step = Together(event: Event, move: Option<PoolEvent>) | Alone(pool: PoolEvent)

  // ---------- steps ----------

  /** The step ends the task that its operation was in. */
  predicate EndsTask(w: World, e: Event)
    requires Enabled(w, e) && Subject(w, e).Some?
  {
    var id := Subject(w, e).value;
    id in w.ops && InTask(w.ops[id]) && !InTask(NextOp(w, e))
  }

  /** What the store's step is in the pool; a refused submission is nothing. */
  ghost predicate Matches(s: System, e: Event, m: Option<PoolEvent>)
    requires Enabled(s.store, e)
  {
    if e.Begin? then m.Some? && m.value.Take?
    else if e.Shutdown? then m == Some(TaskPool.CloseAdmission)
    else if Subject(s.store, e).None? then m.None?
    else if Queued(NextOp(s.store, e)) then m.Some? && m.value.Submit? && Some(m.value.task) == Subject(s.store, e)
    else if EndsTask(s.store, e) then
      m.Some? && m.value.Finish? && TaskPool.Is(s.pool, m.value.worker, TaskPool.Busy(Subject(s.store, e).value))
    else m.None?
  }

  ghost predicate CanStep(s: System, t: Step) {
    match t
    case Together(e, m) =>
      Enabled(s.store, e) && Matches(s, e, m) && (m.Some? ==> TaskPool.Enabled(s.pool, m.value))
    case Alone(m) =>
      (m.Sleep? || m.Spurious? || m.Exit? || m.NotifyAll? || m.ReturnFromShutdown?) && TaskPool.Enabled(s.pool, m)
  }

  ghost function Next(s: System, t: Step): System
    requires CanStep(s, t)
  {
    match t
    case Together(e, m) => System(Apply(s.store, e), if m.Some? then TaskPool.Apply(s.pool, m.value) else s.pool)
    case Alone(m) => s.(pool := TaskPool.Apply(s.pool, m))
  }

  ghost predicate Start(s: System) {
    Initial(s.store) && s.store.accepting && s.pool == TaskPool.Initial<nat>(s.store.workers, s.store.capacity)
  }

  ghost predicate SystemRun(ss: seq<System>, ts: seq<Step>) {
    && |ss| == |ts| + 1 && Start(ss[0])
    && forall i :: 0 <= i < |ts| ==> CanStep(ss[i], ts[i]) && ss[i + 1] == Next(ss[i], ts[i])
  }

  // ---------- the tasks in the workers' hands ----------

  function TasksOf(ws: Workers): set<nat> {
    if ws == [] then {}
    else TasksOf(ws[..|ws| - 1]) + if ws[|ws| - 1].Busy? then {ws[|ws| - 1].task} else {}
  }

  lemma {:induction false} TasksExactly(ws: Workers, id: nat)
    ensures id in TasksOf(ws) <==> exists i :: 0 <= i < |ws| && ws[i] == TaskPool.Busy(id)
  {
    if ws != [] {
      var n := |ws| - 1;
      TasksExactly(ws[..n], id);
      if i :| 0 <= i < n && ws[..n][i] == TaskPool.Busy(id) { assert ws[i] == TaskPool.Busy(id); }
      if i :| 0 <= i < |ws| && ws[i] == TaskPool.Busy(id) && i < n { assert ws[..n][i] == TaskPool.Busy(id); }
    }
  }

  predicate Distinct(ws: Workers) {
    forall i, j :: 0 <= i < j < |ws| && ws[i].Busy? ==> ws[i] != ws[j]
  }

  /** As many tasks as workers exactly when nobody is without one. */
  lemma {:induction false} TasksCounted(ws: Workers)
    requires Distinct(ws)
    ensures |TasksOf(ws)| <= |ws|
    ensures |TasksOf(ws)| < |ws| <==> exists i :: 0 <= i < |ws| && !ws[i].Busy?
  {
    if ws != [] {
      var n := |ws| - 1;
      TasksCounted(ws[..n]);
      if ws[n].Busy? {
        TasksExactly(ws[..n], ws[n].task);
        assert ws[n].task !in TasksOf(ws[..n]);
        if i :| 0 <= i < n && !ws[..n][i].Busy? { assert !ws[i].Busy?; }
        if i :| 0 <= i < |ws| && !ws[i].Busy? { assert !ws[..n][i].Busy?; }
      }
    }
  }

  /** One worker takes, ends or is without a task, before and after. */
  lemma TasksAfter(ws: Workers, i: nat, v: TaskPool.Worker<nat>)
    requires i < |ws| && Distinct(ws) && (v.Busy? ==> v.task !in TasksOf(ws) && !ws[i].Busy?)
    ensures Distinct(ws[i := v])
    ensures TasksOf(ws[i := v]) ==
            (TasksOf(ws) - if ws[i].Busy? then {ws[i].task} else {}) + if v.Busy? then {v.task} else {}
  {
    var vs := ws[i := v];
    if v.Busy? { TasksExactly(ws, v.task); }
    forall id
      ensures id in TasksOf(vs) <==> (id in TasksOf(ws) && ws[i] != TaskPool.Busy(id)) || v == TaskPool.Busy(id)
    {
      TasksExactly(ws, id);
      TasksExactly(vs, id);
      if j :| 0 <= j < |ws| && ws[j] == TaskPool.Busy(id) && j != i { assert vs[j] == TaskPool.Busy(id); }
      if v == TaskPool.Busy(id) { assert vs[i] == TaskPool.Busy(id); }
    }
  }

  lemma {:induction false} TasksAwake(ws: Workers, vs: Workers)
    requires |vs| == |ws| && forall i :: 0 <= i < |ws| ==> vs[i] == TaskPool.Awake(ws[i])
    ensures TasksOf(vs) == TasksOf(ws)
  {
    if ws != [] { TasksAwake(ws[..|ws| - 1], vs[..|ws| - 1]); }
  }

  // ---------- store and pool stay in step ----------

  ghost predicate Coupled(s: System) {
    && s.pool.queue == s.store.queue && s.pool.accepting == s.store.accepting
    && s.pool.capacity == s.store.capacity && |s.pool.workers| == s.store.workers
    && Distinct(s.pool.workers) && TasksOf(s.pool.workers) == Busy(s.store.ops)
  }

  ghost predicate SystemInv(s: System) {
    && Coupled(s) && TaskPool.Inv(s.pool)
    && QueueAccounted(s.store) && RepliesAccounted(s.store) && Occupied(s.store) && AnswersFit(s.store)
  }

  lemma PoolFields(w: World, e: Event)
    requires Enabled(w, e)
    ensures var v := Apply(w, e);
            v.accepting == (w.accepting && !e.Shutdown?) && v.workers == w.workers && v.capacity == w.capacity
  {
    hide Enabled, NextOp, NextRows, NextCache;
  }

  /** A stage is submitted from outside the pool, and only when admitted. */
  lemma OnlySubmitsQueue(w: World, e: Event, id: nat)
    requires Enabled(w, e) && Subject(w, e) == Some(id) && Queued(NextOp(w, e)) && !e.Begin?
    ensures Admits(w) && !(id in w.ops && InTask(w.ops[id]))
  {
    hide CacheGet, PutAnswer, AddAnswer, Storable, Representable, WorkerFree;
  }

  /** The workers' tasks are kept while one of them wakes, sleeps or leaves. */
  lemma WorkerMoves(ws: Workers, i: nat, v: TaskPool.Worker<nat>)
    requires i < |ws| && Distinct(ws) && !ws[i].Busy? && !v.Busy?
    ensures Distinct(ws[i := v]) && TasksOf(ws[i := v]) == TasksOf(ws)
  {
    TasksAfter(ws, i, v);
  }

  lemma CoupledAlone(s: System, m: PoolEvent)
    requires Coupled(s) && CanStep(s, Alone(m))
    ensures Coupled(Next(s, Alone(m)))
  {
    hide Busy, Distinct, TasksOf, TaskPool.SomeAsleep;
    var p := s.pool;
    match m
    case Sleep(w) => WorkerMoves(p.workers, w, TaskPool.Asleep);
    case Spurious(w) => WorkerMoves(p.workers, w, TaskPool.Idle);
    case Exit(w) => WorkerMoves(p.workers, w, TaskPool.Exited);
    case NotifyAll => AllAwake(p.workers, TaskPool.Apply(p, m).workers);
    case ReturnFromShutdown =>
  }

  lemma AllAwake(ws: Workers, vs: Workers)
    requires Distinct(ws) && |vs| == |ws| && forall i :: 0 <= i < |ws| ==> vs[i] == TaskPool.Awake(ws[i])
    ensures Distinct(vs) && TasksOf(vs) == TasksOf(ws)
  {
    TasksAwake(ws, vs);
  }

  lemma CoupledBegin(s: System, w: nat)
    requires Coupled(s) && QueueAccounted(s.store) && CanStep(s, Together(Begin, Some(TaskPool.Take(w))))
    ensures Coupled(Next(s, Together(Begin, Some(TaskPool.Take(w)))))
  {
    hide Enabled, Apply, NextOp, Busy, InTask, Distinct, TasksOf, QueueAccounted;
    StepFields(s.store, Begin);
    PoolFields(s.store, Begin);
    var id := s.store.queue[0];
    BeginOccupies(s.store);
    BusyAfter(s.store.ops, id, NextOp(s.store, Begin));
    TasksAfter(s.pool.workers, w, TaskPool.Busy(id));
  }

  lemma BeginOccupies(w: World)
    requires QueueAccounted(w) && Enabled(w, Begin)
    ensures InTask(NextOp(w, Begin)) && w.queue[0] !in Busy(w.ops)
  {
    HeadIsQueued(w);
    hide QueueAccounted, WorkerFree;
  }

  lemma CoupledSubmit(s: System, e: Event, m: PoolEvent)
    requires Coupled(s) && CanStep(s, Together(e, Some(m))) && m.Submit?
    ensures Coupled(Next(s, Together(e, Some(m))))
  {
    hide Enabled, Apply, NextOp, Busy, InTask, Distinct, TasksOf, Queued;
    var id := m.task;
    StepFields(s.store, e);
    PoolFields(s.store, e);
    OnlySubmitsQueue(s.store, e, id);
    QueuedIsOutside(NextOp(s.store, e));
    BusyAfter(s.store.ops, id, NextOp(s.store, e));
    BusyExactly(s.store.ops, id);
    if TaskPool.SomeAsleep(s.pool) { WorkerMoves(s.pool.workers, m.wake, TaskPool.Idle); }
  }

  lemma QueuedIsOutside(op: Op)
    requires Queued(op)
    ensures !InTask(op)
  {
  }

  lemma BusyExactly(ops: map<nat, Op>, id: nat)
    ensures id in Busy(ops) <==> id in ops && InTask(ops[id])
  {
  }

  lemma CoupledFinish(s: System, e: Event, m: PoolEvent)
    requires Coupled(s) && CanStep(s, Together(e, Some(m))) && m.Finish?
    ensures Coupled(Next(s, Together(e, Some(m))))
  {
    hide Enabled, Apply, NextOp, Busy, InTask, Distinct, TasksOf, Queued;
    var id := Subject(s.store, e).value;
    StepFields(s.store, e);
    PoolFields(s.store, e);
    BusyAfter(s.store.ops, id, NextOp(s.store, e));
    TasksAfter(s.pool.workers, m.worker, TaskPool.Idle);
  }

  /** A step that the pool does not see. */
  lemma CoupledUnseen(s: System, e: Event)
    requires Coupled(s) && CanStep(s, Together(e, None))
    ensures Coupled(Next(s, Together(e, None)))
  {
    hide Enabled, Apply, NextOp, Busy, InTask, Distinct, TasksOf, Queued;
    StepFields(s.store, e);
    PoolFields(s.store, e);
    if Subject(s.store, e).Some? {
      var id := Subject(s.store, e).value;
      OnlyBeginOccupies(s.store, e, id);
      BusyAfter(s.store.ops, id, NextOp(s.store, e));
      BusyExactly(s.store.ops, id);
    }
  }

  lemma CoupledClose(s: System)
    requires Coupled(s) && CanStep(s, Together(Shutdown, Some(TaskPool.CloseAdmission)))
    ensures Coupled(Next(s, Together(Shutdown, Some(TaskPool.CloseAdmission))))
  {
    hide Busy, Distinct, TasksOf;
  }

  lemma CoupledStep(s: System, t: Step)
    requires Coupled(s) && QueueAccounted(s.store) && CanStep(s, t)
    ensures Coupled(Next(s, t))
  {
    match t
    case Alone(m) => CoupledAlone(s, m);
    case Together(e, m) =>
      hide Coupled, Next, QueueAccounted, Enabled, NextOp, InTask, Queued;
      if e.Begin? { CoupledBegin(s, m.value.worker); }
      else if e.Shutdown? { CoupledClose(s); }
      else if m.None? { CoupledUnseen(s, e); }
      else if m.value.Submit? { CoupledSubmit(s, e, m.value); }
      else { CoupledFinish(s, e, m.value); }
  }

  lemma SystemStep(s: System, t: Step)
    requires SystemInv(s) && CanStep(s, t)
    ensures SystemInv(Next(s, t))
  {
    CoupledStep(s, t);
    hide Coupled, TaskPool.Conserved, TaskPool.Orderly, QueueAccounted, RepliesAccounted, Occupied, AnswersFit, Enabled,
         Apply, TaskPool.Enabled, TaskPool.Apply, Matches;
    match t
    case Alone(m) =>
      TaskPool.ConservedStep(s.pool, m);
      TaskPool.OrderlyStep(s.pool, m);
    case Together(e, m) =>
      QueueStep(s.store, e);
      RepliesStep(s.store, e);
      OccupiedStep(s.store, e);
      AnswersFitStep(s.store, e);
      if m.Some? {
        TaskPool.ConservedStep(s.pool, m.value);
        TaskPool.OrderlyStep(s.pool, m.value);
      }
  }

  lemma SystemStart(s: System)
    requires Start(s)
    ensures SystemInv(s)
  {
    hide TaskPool.Conserved;
    TaskPool.InvInitial<nat>(s.store.workers, s.store.capacity);
    assert Busy(s.store.ops) == {};
    var ws := s.pool.workers;
    forall id
      ensures id !in TasksOf(ws)
    {
      TasksExactly(ws, id);
    }
    assert TasksOf(ws) == {};
  }

  lemma {:induction false} SystemInvRun(ss: seq<System>, ts: seq<Step>, k: nat)
    requires SystemRun(ss, ts) && k < |ss|
    ensures SystemInv(ss[k])
  {
    hide SystemInv, Start, CanStep, Next;
    if k == 0 {
      SystemStart(ss[0]);
    } else {
      SystemInvRun(ss, ts, k - 1);
      assert CanStep(ss[k - 1], ts[k - 1]);
      SystemStep(ss[k - 1], ts[k - 1]);
    }
  }

  // ---------- neither machine holds the other up ----------

  /** In every state of every run the store's tests of the pool are the pool's own: a submission is
      admitted by both or by neither, a worker is free exactly when one holds no task, and a task
      can be begun exactly when some worker is awake to take it. */
  lemma StoreSeesPool(ss: seq<System>, ts: seq<Step>, k: nat)
    requires SystemRun(ss, ts) && k < |ss|
    ensures Admits(ss[k].store) <==> TaskPool.CanSubmit(ss[k].pool)
    ensures WorkerFree(ss[k].store) <==> exists i :: 0 <= i < |ss[k].pool.workers| && !ss[k].pool.workers[i].Busy?
    ensures Enabled(ss[k].store, Begin) <==> exists i: nat :: TaskPool.Enabled(ss[k].pool, TaskPool.Take(i))
  {
    SystemInvRun(ss, ts, k);
    hide SystemRun, RepliesAccounted, AnswersFit, TaskPool.Conserved;
    FreeWorkerIsIdle(ss[k]);
  }

  lemma FreeWorkerIsIdle(s: System)
    requires SystemInv(s)
    ensures WorkerFree(s.store) <==> exists i :: 0 <= i < |s.pool.workers| && !s.pool.workers[i].Busy?
    ensures Enabled(s.store, Begin) <==> exists i: nat :: TaskPool.Enabled(s.pool, TaskPool.Take(i))
  {
    hide Busy, TasksOf, RepliesAccounted, AnswersFit, TaskPool.Conserved, QueueAccounted;
    TasksCounted(s.pool.workers);
    var p := s.pool;
    if p.queue != [] {
      HeadIsQueued(s.store);
      if i :| 0 <= i < |p.workers| && !p.workers[i].Busy? {
        AwakeForQueue(p, i);
      }
    }
    if i: nat :| TaskPool.Enabled(p, TaskPool.Take(i)) { assert !p.workers[i].Busy?; }
  }

  /** With a task queued, a worker without one means that some worker is awake. */
  lemma AwakeForQueue(p: TaskPool.Pool<nat>, i: nat)
    requires TaskPool.Orderly(p) && p.queue != [] && i < |p.workers| && !p.workers[i].Busy?
    ensures exists j: nat :: TaskPool.Enabled(p, TaskPool.Take(j))
  {
    if p.workers[i].Idle? {
      assert TaskPool.Enabled(p, TaskPool.Take(i));
    } else {
      assert p.workers[i].Asleep?;
      TaskPool.IdleExists(p.workers);
      var j :| 0 <= j < |p.workers| && p.workers[j].Idle?;
      assert TaskPool.Enabled(p, TaskPool.Take(j));
    }
  }

  /** Every step of the store has its move in the pool. */
  lemma HasMove(s: System, e: Event)
    requires SystemInv(s) && Enabled(s.store, e)
    ensures exists m :: CanStep(s, Together(e, m))
  {
    if e.Begin? {
      FreeWorkerIsIdle(s);
      var i: nat :| TaskPool.Enabled(s.pool, TaskPool.Take(i));
      assert CanStep(s, Together(e, Some(TaskPool.Take(i))));
    } else if e.Shutdown? {
      assert CanStep(s, Together(e, Some(TaskPool.CloseAdmission)));
    } else if Subject(s.store, e).None? || (!Queued(NextOp(s.store, e)) && !EndsTask(s.store, e)) {
      assert CanStep(s, Together(e, None));
    } else if Queued(NextOp(s.store, e)) {
      HasSubmit(s, e);
    } else {
      HasFinish(s, e);
    }
  }

  lemma HasSubmit(s: System, e: Event)
    requires Enabled(s.store, e) && !e.Begin? && !e.Shutdown? && Subject(s.store, e).Some? && Queued(NextOp(s.store, e))
    ensures exists m :: CanStep(s, Together(e, m))
  {
    hide Enabled, NextOp, Queued;
    var wake: nat := 0;
    if TaskPool.SomeAsleep(s.pool) {
      wake :| 0 <= wake < |s.pool.workers| && s.pool.workers[wake].Asleep?;
    }
    assert CanStep(s, Together(e, Some(TaskPool.Submit(Subject(s.store, e).value, wake))));
  }

  lemma HasFinish(s: System, e: Event)
    requires Coupled(s) && Enabled(s.store, e) && !e.Begin? && !e.Shutdown? && Subject(s.store, e).Some?
    requires EndsTask(s.store, e) && !Queued(NextOp(s.store, e))
    ensures exists m :: CanStep(s, Together(e, m))
  {
    hide Enabled, NextOp, Queued, InTask;
    var id := Subject(s.store, e).value;
    BusyExactly(s.store.ops, id);
    TasksExactly(s.pool.workers, id);
    var i :| 0 <= i < |s.pool.workers| && s.pool.workers[i] == TaskPool.Busy(id);
    assert CanStep(s, Together(e, Some(TaskPool.Finish(i))));
  }

  /** Every run of the store is the store's part of a run of the two together. */
  lemma {:induction false} EveryRunIsPooled(ws: seq<World>, es: seq<Event>) returns (ss: seq<System>, ts: seq<Step>)
    requires Run(ws, es) && ws[0].accepting
    ensures SystemRun(ss, ts) && |ss| == |ws| && |ts| == |es|
    ensures forall i :: 0 <= i < |ws| ==> ss[i].store == ws[i]
    ensures forall i :: 0 <= i < |es| ==> ts[i].Together? && ts[i].event == es[i]
    decreases |es|
  {
    hide SystemRun, Enabled, Apply;
    if es == [] {
      ss, ts := [System(ws[0], TaskPool.Initial<nat>(ws[0].workers, ws[0].capacity))], [];
      StartsRun(ss[0]);
    } else {
      var n := |es| - 1;
      StepAt(ws, es, n);
      RunPrefix(ws, es, n);
      hide Run;
      ss, ts := EveryRunIsPooled(ws[..n + 1], es[..n]);
      ss, ts := OneMoreStep(ss, ts, es[n]);
    }
  }

  lemma StartsRun(s: System)
    requires Start(s)
    ensures SystemRun([s], [])
  {
  }

  lemma RunPrefix(ws: seq<World>, es: seq<Event>, n: nat)
    requires Run(ws, es) && n <= |es|
    ensures Run(ws[..n + 1], es[..n])
  {
    hide Enabled, Apply;
  }

  lemma OneMoreStep(ss: seq<System>, ts: seq<Step>, e: Event) returns (ss2: seq<System>, ts2: seq<Step>)
    requires SystemRun(ss, ts) && |ss| == |ts| + 1 && Enabled(ss[|ts|].store, e)
    ensures SystemRun(ss2, ts2) && |ss2| == |ts2| + 1 && |ts2| == |ts| + 1 && ss2[..|ss|] == ss && ts2[..|ts|] == ts
    ensures ss2[|ss|].store == Apply(ss[|ts|].store, e) && ts2[|ts|].Together? && ts2[|ts|].event == e
  {
    hide SystemInv, Start, Enabled, Apply, Matches, TaskPool.Enabled, TaskPool.Apply;
    var last := ss[|ts|];
    SystemInvRun(ss, ts, |ts|);
    HasMove(last, e);
    var m :| CanStep(last, Together(e, m));
    ss2, ts2 := ss + [Next(last, Together(e, m))], ts + [Together(e, m)];
    hide CanStep, Next;
  }

  // ---------- shutdown ----------

  /** Waiting for the durable store, or about to report a refusal, outside the pool. */
  predicate Outside(op: Op) {
    match op
    case FindReading(_) => true
    case FindDelivering(_, _, _) => true
    case FindAnswering(_, found, inTask) => found.None? && !inTask
    case RevokeWriting(_) => true
    case RevokeDelivering(_, _) => true
    case RevokeAnswering(_, ok, inTask) => !ok && !inTask
    case _ => false
  }

  /** What the callback of an operation that the pool refused reports. */
  predicate Refusal(op: Op) { (op.FindDone? && op.found.None?) || (op.RevokeDone? && !op.ok) }

  /** When shutdown has returned: every accepted task has run once, and every operation has called
      back once, or is outside the pool and has not called back. */
  lemma ShutdownLeavesNothing(ss: seq<System>, ts: seq<Step>, k: nat, id: nat)
    requires SystemRun(ss, ts) && k < |ss| && ss[k].pool.returned
    ensures multiset(ss[k].pool.finished) == multiset(ss[k].pool.accepted)
    ensures Drained(ss[k].store)
    ensures id in ss[k].store.ops ==>
              var op, calls := ss[k].store.ops[id], multiset(ss[k].store.replies)[id];
              (Done(op) && calls == 1) || (Outside(op) && calls == 0)
  {
    SystemInvRun(ss, ts, k);
    ReturnedPool(ss[k].pool);
    ReturnedStore(ss[k]);
    if id in ss[k].store.ops { OutsideTasks(ss[k].store, id); }
  }

  lemma ReturnedPool(p: TaskPool.Pool<nat>)
    requires TaskPool.Inv(p) && p.returned
    ensures multiset(p.finished) == multiset(p.accepted)
  {
    TaskPool.NobodyBusy(p.workers);
    if |p.workers| > 0 { assert p.workers[0].Exited?; }
    assert p.accepted == p.started;
  }

  /** Nothing is queued or in progress, and nothing can be submitted any more. */
  predicate Drained(w: World) { !w.accepting && w.queue == [] && Busy(w.ops) == {} && AnswersFit(w) }

  lemma ReturnedStore(s: System)
    requires SystemInv(s) && s.pool.returned
    ensures Drained(s.store)
  {
    hide Busy, TasksOf, RepliesAccounted, AnswersFit, TaskPool.Conserved, QueueAccounted;
    if id :| id in TasksOf(s.pool.workers) { TasksExactly(s.pool.workers, id); }
    if |s.pool.workers| > 0 { assert s.pool.workers[0].Exited?; }
  }

  lemma OutsideTasks(w: World, id: nat)
    requires Drained(w) && QueueAccounted(w) && RepliesAccounted(w) && id in w.ops
    ensures Done(w.ops[id]) || Outside(w.ops[id])
    ensures multiset(w.replies)[id] == if Done(w.ops[id]) then 1 else 0
  {
    assert multiset(w.queue)[id] == if Queued(w.ops[id]) then 1 else 0;
    BusyExactly(w.ops, id);
    assert AnswerFits(w.ops[id]);
  }

  /** Which operations may have called back since, and with what; and what the cache holds. */
  predicate OnlyRefusals(w: World, v: World) {
    && (forall id :: id in v.ops && Done(v.ops[id]) ==> Refusal(v.ops[id]) || (id in w.ops && v.ops[id] == w.ops[id]))
    && forall t :: t in v.cache ==> t in w.cache && v.cache[t].text == w.cache[t].text
  }

  lemma DrainedStep(w: World, e: Event)
    requires Drained(w) && Enabled(w, e)
    ensures Drained(Apply(w, e)) && OnlyRefusals(w, Apply(w, e))
  {
    hide QueueAccounted;
    StepFields(w, e);
    PoolFields(w, e);
    AnswersFitStep(w, e);
    DrainedCache(w, e);
    if Subject(w, e).Some? {
      var id := Subject(w, e).value;
      BusyAfter(w.ops, id, NextOp(w, e));
      DrainedOp(w, e, id);
    }
    hide Enabled, Apply, NextOp, AnswersFit, Queued, InTask, Busy, Refusal, Done;
  }

  lemma DrainedOp(w: World, e: Event, id: nat)
    requires Drained(w) && Enabled(w, e) && Subject(w, e) == Some(id)
    ensures !e.Begin? && !Queued(NextOp(w, e)) && !InTask(NextOp(w, e))
    ensures Done(NextOp(w, e)) ==> Refusal(NextOp(w, e))
  {
    hide CacheGet, PutAnswer, AddAnswer, Storable, Representable, WorkerFree, Busy;
    if id in w.ops {
      BusyExactly(w.ops, id);
      assert AnswerFits(w.ops[id]);
    }
  }

  lemma DrainedCache(w: World, e: Event)
    requires Drained(w) && Enabled(w, e)
    ensures var c := Apply(w, e).cache; forall t :: t in c ==> t in w.cache && c[t].text == w.cache[t].text
  {
    hide WorkerFree, Busy, AnswersFit;
    match e
    case Backfill(id, _) => BusyExactly(w.ops, id); assert false;
    case PutTombstone(id, _) => BusyExactly(w.ops, id); assert false;
    case _ =>
  }

  /** From then on nothing enters the pool or the cache, and whatever still calls back, found or begun
      late, reports a refusal. */
  lemma {:induction false} AfterShutdown(ss: seq<System>, ts: seq<Step>, k: nat, m: nat)
    requires SystemRun(ss, ts) && k <= m < |ss| && ss[k].pool.returned
    ensures Drained(ss[m].store) && OnlyRefusals(ss[k].store, ss[m].store)
    decreases m
  {
    hide Drained, OnlyRefusals, CanStep, Next, Start;
    if m == k {
      ShutdownLeavesNothing(ss, ts, k, 0);
      StillTheSame(ss[k].store);
    } else {
      AfterShutdown(ss, ts, k, m - 1);
      assert CanStep(ss[m - 1], ts[m - 1]);
      DrainedSystemStep(ss[m - 1], ts[m - 1]);
      RefusalsAddUp(ss[k].store, ss[m - 1].store, ss[m].store);
    }
  }

  lemma DrainedSystemStep(s: System, t: Step)
    requires Drained(s.store) && CanStep(s, t)
    ensures Drained(Next(s, t).store) && OnlyRefusals(s.store, Next(s, t).store)
  {
    hide Drained, OnlyRefusals, Matches, Apply, Enabled, TaskPool.Apply, TaskPool.Enabled;
    StillTheSame(s.store);
    if t.Together? { DrainedStep(s.store, t.event); }
  }

  lemma StillTheSame(w: World)
    ensures OnlyRefusals(w, w)
  {
  }

  lemma RefusalsAddUp(w: World, v: World, u: World)
    requires OnlyRefusals(w, v) && OnlyRefusals(v, u)
    ensures OnlyRefusals(w, u)
  {
    hide Refusal, Done;
  }
}
