/** What the number of workers decides: with a single worker no find calls back with an active session
    after the success of a revoke is settled, and an expiry under an older copy leads to a leak however
    many workers there are. */
module SessionWorkers {
  import opened Wrappers
  import opened SessionTextCodec
  import opened SessionProtocol

  // ---------- one worker ----------

  /** Only a callback made inside a task has a session or a success to hand over. */
  predicate AnswersFit(w: World) {
    forall id :: id in w.ops ==> AnswerFits(w.ops[id])
  }

  predicate AnswerFits(op: Op) {
    (op.FindAnswering? && op.found.Some?) || (op.RevokeAnswering? && op.ok) ==> op.inTask
  }

  lemma AnswersFitStep(w: World, e: Event)
    requires AnswersFit(w) && Enabled(w, e)
    ensures AnswersFit(Apply(w, e))
  {
    hide CacheGet, Admits, PutAnswer, AddAnswer, Storable, Representable, WorkerFree;
    OthersKeep(w, e);
    if Subject(w, e).Some? { assert AnswerFits(NextOp(w, e)); }
  }

  lemma {:induction false} AnswersFitRun(ws: seq<World>, es: seq<Event>, k: nat)
    requires Run(ws, es) && k < |ws|
    ensures AnswersFit(ws[k])
  {
    if k > 0 {
      AnswersFitRun(ws, es, k - 1);
      AnswersFitStep(ws[k - 1], es[k - 1]);
    }
  }

  lemma OnlyOne(s: set<nat>, a: nat, b: nat)
    requires |s| <= 1 && a in s && b in s
    ensures a == b
  {
    assert |s - {a}| == |s| - 1;
  }

  /** A find about to hand over an active session of the token. */
  predicate Pending(w: World, token: string) { exists id :: id in w.ops && ActiveAnswer(w.ops[id], token) }

  /** The step that settles a success is taken by the only task there is. */
  lemma SettledAlone(w: World, e: Event, token: string)
    requires Occupied(w) && AnswersFit(w) && Enabled(w, e) && w.workers <= 1
    requires !Revoked(w, token) && Revoked(Apply(w, e), token)
    ensures !Pending(Apply(w, e), token)
  {
    var v := Apply(w, e);
    OccupiedStep(w, e);
    AnswersFitStep(w, e);
    hide Occupied;
    var r :| r in v.ops && Confirmed(v.ops[r], token);
    assert e.PutTombstone? && e.id == r;
    forall id | id in v.ops
      ensures !ActiveAnswer(v.ops[id], token)
    {
      if ActiveAnswer(v.ops[id], token) {
        OnlyOne(Busy(v.ops), id, r);
      }
    }
  }

  lemma {:induction false} NothingPending(ws: seq<World>, es: seq<Event>, token: string, k: nat)
    requires Run(ws, es) && k < |ws| && ws[0].workers <= 1 && Revoked(ws[k], token)
    requires forall i :: 0 <= i < k ==> Guarded(ws[i], es[i])
    ensures !Pending(ws[k], token)
  {
    hide Run, Apply, Enabled, Guarded, QueueAccounted, RepliesAccounted, AnswersFit, Occupied, Revoked, Pending,
         ObtainsActive;
    RunLength(ws, es);
    NothingRevokedYet(ws, es, token);
    if k > 0 {
      StepAt(ws, es, k - 1);
      var w, e := ws[k - 1], es[k - 1];
      if Revoked(w, token) {
        NothingPending(ws, es, token, k - 1);
        RevokeIsFinal(ws, es, token, k - 1, k - 1);
        StillNothing(w, e, token);
      } else {
        AccountedRun(ws, es, k - 1);
        AnswersFitRun(ws, es, k - 1);
        SettledAlone(w, e, token);
      }
    }
  }

  lemma NothingRevokedYet(ws: seq<World>, es: seq<Event>, token: string)
    requires Run(ws, es)
    ensures !Revoked(ws[0], token)
  {
    hide Apply, Enabled;
  }

  lemma StillNothing(w: World, e: Event, token: string)
    requires Enabled(w, e) && !Pending(w, token) && !ObtainsActive(w, e, token)
    ensures !Pending(Apply(w, e), token)
  {
    hide Apply, Enabled;
    forall id | id in Apply(w, e).ops
      ensures !ActiveAnswer(Apply(w, e).ops[id], token)
    {
      assert !Obtains(w, Apply(w, e), id, token);
    }
  }

  /** With one worker, once the success of a revoke is settled no callback hands out an active session
      of the token, as long as the tombstone does not expire under a find with an older copy. */
  lemma OneWorkerAnswersInTime(ws: seq<World>, es: seq<Event>, token: string, j: nat)
    requires Run(ws, es) && j < |es| && ws[0].workers <= 1 && Revoked(ws[j], token)
    requires forall k :: 0 <= k < j ==> Guarded(ws[k], es[k])
    ensures !AnswersActive(ws[j], es[j], token)
  {
    NothingPending(ws, es, token, j);
  }

  // ---------- the proviso is exact ----------

  /** The events lead, one by one, to a step that gets a find an active session of the token. */
  ghost predicate Leads(w: World, es: seq<Event>, token: string)
    decreases |es|
  {
    es != [] && Enabled(w, es[0]) &&
    if |es| == 1 then ObtainsActive(w, es[0], token) else Leads(Apply(w, es[0]), es[1..], token)
  }

  /** A step that the finds and revokes under way and the workers take by themselves: the cache
      confirms a backfill, or what was asked of it fails. */
  predicate InnerStep(e: Event) {
    match e
    case Begin => true
    case Deliver(_) => true
    case CallBack(_) => true
    case Probe(_, hit) => !hit
    case ReadWinner(_, hit) => !hit
    case Backfill(_, a) => a == Stored || a == Lost(false)
    case PutTombstone(_, a) => a == Lost(false)
    case _ => false
  }

  predicate Inner(es: seq<Event>) { forall i :: 0 <= i < |es| ==> InnerStep(es[i]) }

  ghost predicate LeakAhead(w: World, token: string) { exists es :: Inner(es) && Leads(w, es, token) }

  lemma LeakLater(w: World, e: Event, token: string)
    requires Enabled(w, e) && InnerStep(e) && LeakAhead(Apply(w, e), token)
    ensures LeakAhead(w, token)
  {
    hide Apply, Enabled, InnerStep;
    var es :| Inner(es) && Leads(Apply(w, e), es, token);
    var all := [e] + es;
    assert all[1..] == es;
    assert Inner(all) && Leads(w, all, token);
  }

  lemma RunningHolderLeaks(w: World, token: string, id: nat)
    requires WellFormed(w) && token !in w.cache
    requires Holds(w, id, token) && w.ops[id].BackfillRunning?
    ensures LeakAhead(w, token)
  {
    hide Serialize, Deserialize, Storable, Representable;
    var e := Backfill(id, Stored);
    assert Enabled(w, e) && Obtains(w, Apply(w, e), id, token);
    assert ObtainsActive(w, e, token);
    assert Inner([e]) && Leads(w, [e], token);
  }

  /** What every reachable state offers to the steps below. */
  ghost predicate Ready(w: World) { WellFormed(w) && QueueAccounted(w) && Occupied(w) }

  lemma ReadyStep(w: World, e: Event)
    requires Ready(w) && Enabled(w, e)
    ensures Ready(Apply(w, e))
  {
    WellFormedStep(w, e);
    QueueStep(w, e);
    OccupiedStep(w, e);
  }

  /** The pool, the queue and the cache are the same, and so is the find. */
  predicate Alike(w: World, v: World, id: nat) {
    && id in w.ops && id in v.ops && v.ops[id] == w.ops[id] && v.cache == w.cache
    && v.accepting == w.accepting && v.workers == w.workers && v.capacity == w.capacity
  }

  /** Taking the oldest task leaves other finds and the cache alone. */
  lemma BeginKeeps(w: World, id: nat)
    requires Enabled(w, Begin) && id in w.ops && w.queue[0] != id
    ensures Alike(w, Apply(w, Begin), id) && Apply(w, Begin).queue == w.queue[1..]
  {
    hide WorkerFree;
  }

  /** A task whose requests fail comes one stage nearer to its end and touches nothing else. */
  lemma FailingTaskStep(w: World, b: nat, id: nat)
    requires QueueAccounted(w) && b in Busy(w.ops) && id in w.ops && id != b
    ensures var e := OwnEvent(b, w.ops[b]);
            && Enabled(w, e) && InnerStep(e) && Alike(w, Apply(w, e), id) && Apply(w, e).queue == w.queue
            && b in Apply(w, e).ops && Rank(Apply(w, e).ops[b]) < Rank(w.ops[b])
            && Apply(w, e).ops == w.ops[b := Apply(w, e).ops[b]]
  {
    OwnEventEnabled(w, b);
    var e := OwnEvent(b, w.ops[b]);
    FailingTaskGoesOn(w, b);
    OnlyBeginDequeues(w, e, b);
    StepFields(w, e);
    hide QueueAccounted, Enabled, NextOp, InTask, OwnEvent, Rank, Subject, InnerStep, Queued;
  }

  lemma FailingTaskGoesOn(w: World, b: nat)
    requires b in w.ops && InTask(w.ops[b]) && Enabled(w, OwnEvent(b, w.ops[b]))
    ensures var e := OwnEvent(b, w.ops[b]);
            && !e.Begin? && !e.Shutdown? && InnerStep(e) && Subject(w, e) == Some(b) && NextCache(w, e) == w.cache
            && !Queued(NextOp(w, e))
  {
    hide CacheGet, PutAnswer, AddAnswer;
  }

  /** Where a find with an older copy stands before its backfill runs. */
  predicate Waiting(w: World, id: nat, token: string) {
    && Holds(w, id, token) && token !in w.cache && w.workers > 0
    && (w.ops[id].FindDelivering? || w.ops[id].BackfillQueued?)
  }

  lemma AlikeWaits(w: World, v: World, id: nat, token: string)
    requires Waiting(w, id, token) && Alike(w, v, id)
    ensures Waiting(v, id, token)
  {
  }

  /** Whatever is queued before it and whoever keeps the workers, the find gets to its backfill. */
  lemma {:induction false} WaitingHolderLeaks(w: World, token: string, id: nat)
    requires Ready(w) && Waiting(w, id, token)
    ensures LeakAhead(w, token)
    decreases Rank(w.ops[id]), |w.queue|, |Busy(w.ops)|, 9
  {
    hide Apply, Enabled, LeakAhead, Ready;
    if w.ops[id].FindDelivering? && |w.queue| < w.capacity {
      SubmitsCopy(w, token, id);
      ReadyStep(w, Deliver(id));
      WaitingHolderLeaks(Apply(w, Deliver(id)), token, id);
      LeakLater(w, Deliver(id), token);
    } else {
      QueueNotEmpty(w, token, id);
      if !WorkerFree(w) {
        var b :| b in Busy(w.ops);
        BusyWorkerLeaks(w, token, id, b);
      } else {
        BeginsTask(w, token, id);
        ReadyStep(w, Begin);
        if w.queue[0] == id {
          ReadyIsWellFormed(Apply(w, Begin));
          RunningHolderLeaks(Apply(w, Begin), token, id);
        } else {
          WaitingHolderLeaks(Apply(w, Begin), token, id);
        }
        LeakLater(w, Begin, token);
      }
    }
  }

  /** A worker that is kept becomes free. */
  lemma {:induction false} BusyWorkerLeaks(w: World, token: string, id: nat, b: nat)
    requires Ready(w) && Waiting(w, id, token) && b in Busy(w.ops)
    ensures LeakAhead(w, token)
    decreases Rank(w.ops[id]), |w.queue|, |Busy(w.ops)|, Rank(w.ops[b])
  {
    var e := OwnEvent(b, w.ops[b]);
    FailingTaskStep(w, b, id);
    ReadyStep(w, e);
    var v := Apply(w, e);
    AlikeWaits(w, v, id, token);
    BusyAfter(w.ops, b, v.ops[b]);
    hide Apply, Enabled, LeakAhead, Ready, Waiting, InnerStep, OwnEvent;
    if InTask(v.ops[b]) {
      assert Busy(v.ops) == Busy(w.ops);
      BusyWorkerLeaks(v, token, id, b);
    } else {
      assert |Busy(v.ops)| < |Busy(w.ops)|;
      WaitingHolderLeaks(v, token, id);
    }
    LeakLater(w, e, token);
  }

  lemma ReadyIsWellFormed(w: World)
    requires Ready(w)
    ensures WellFormed(w)
  {
  }

  /** With room in the queue a find about to submit is queued next. */
  lemma SubmitsCopy(w: World, token: string, id: nat)
    requires Waiting(w, id, token) && w.ops[id].FindDelivering? && |w.queue| < w.capacity
    ensures Enabled(w, Deliver(id)) && InnerStep(Deliver(id))
    ensures Waiting(Apply(w, Deliver(id)), id, token)
    ensures Rank(Apply(w, Deliver(id)).ops[id]) < Rank(w.ops[id])
  {
  }

  lemma QueueNotEmpty(w: World, token: string, id: nat)
    requires Ready(w) && Waiting(w, id, token) && (w.ops[id].FindDelivering? ==> w.capacity <= |w.queue|)
    ensures w.queue != [] && (!WorkerFree(w) ==> Busy(w.ops) != {})
  {
    assert multiset(w.queue)[id] == if Queued(w.ops[id]) then 1 else 0;
  }

  lemma BeginsTask(w: World, token: string, id: nat)
    requires Ready(w) && Waiting(w, id, token) && w.queue != [] && WorkerFree(w)
    ensures Enabled(w, Begin) && Apply(w, Begin).queue == w.queue[1..]
    ensures token !in Apply(w, Begin).cache
    ensures if w.queue[0] == id then Holds(Apply(w, Begin), id, token) && Apply(w, Begin).ops[id].BackfillRunning?
            else Alike(w, Apply(w, Begin), id) && Waiting(Apply(w, Begin), id, token)
  {
    HeadIsQueued(w);
    hide WorkerFree, Ready, QueueAccounted;
    if w.queue[0] != id {
      BeginKeeps(w, id);
      AlikeWaits(w, Apply(w, Begin), id, token);
    }
  }

  /** The proviso of RevokeIsFinal is exact: wherever a run reaches an expiry of a revoked token's
      entry under a find that still holds an active copy, steps of the operations under way and of the
      workers, however few and busy, lead to a cache step that gets it the active session. */
  lemma UnguardedExpiryLeaks(ws: seq<World>, es: seq<Event>, token: string, k: nat)
    requires Run(ws, es) && k < |es| && es[k] == Expire(token) && !Guarded(ws[k], es[k])
    ensures LeakAhead(ws[k + 1], token)
  {
    var v := ws[k + 1];
    WellFormedRun(ws, es, k + 1);
    AccountedRun(ws, es, k + 1);
    var id :| id in ws[k].ops && Holds(ws[k], id, token);
    assert Holds(v, id, token) && token !in v.cache;
    hide Run, Guarded, WellFormed, LeakAhead;
    if v.ops[id].BackfillRunning? {
      RunningHolderLeaks(v, token, id);
    } else {
      assert multiset(v.queue)[id] == if Queued(v.ops[id]) then 1 else 0;
      WaitingHolderLeaks(v, token, id);
    }
  }
}
