/** Concrete runs of the session protocol in which a find answers with an active session after a
    revoke of it has reported success: through an expiry with any number of workers, and without one
    from two workers on. */
module SessionRaces {
  import opened Wrappers
  import opened SessionTextCodec
  import opened SessionProtocol
  import opened SessionWorkers

  /** Append one step, whose effect is given in full, to a run. */
  lemma StepTo(ws: seq<World>, es: seq<Event>, e: Event, v: World) returns (ws2: seq<World>, es2: seq<Event>)
    requires Run(ws, es) && Enabled(ws[|es|], e) && Apply(ws[|es|], e) == v
    ensures Run(ws2, es2) && ws2 == ws + [v] && es2 == es + [e] && |ws2| == |es2| + 1
  {
    ws2, es2 := ws + [v], es + [e];
  }

  /** The size of the pool. */
  datatype Size = Size(workers: nat, capacity: nat)

  function Scene(s: Session, cache: map<string, Entry>, ops: map<nat, Op>, queue: seq<nat>, size: Size,
                 replies: seq<nat>): World {
    World(0, map["t" := s], cache, ops, queue, size.workers, size.capacity, true, replies)
  }

  predicate ActiveRow(s: Session) { s.token == "t" && s.status == 1 && Storable(s) && Representable(s) }

  lemma FirstScene(s: Session, size: Size)
    requires ActiveRow(s)
    ensures Run([Scene(s, map[], map[], [], size, [])], [])
  {
    hide Storable, Representable;
  }

  lemma NoneBusy(ops: map<nat, Op>)
    requires forall id :: id in ops ==> !InTask(ops[id])
    ensures Busy(ops) == {}
  {
  }

  lemma OneBusy(ops: map<nat, Op>, b: nat)
    requires forall id :: id in ops && InTask(ops[id]) ==> id == b
    ensures |Busy(ops)| <= 1
  {
    assert Busy(ops) <= {b};
    if b in Busy(ops) { assert Busy(ops) == {b}; } else { assert Busy(ops) == {}; }
  }

  /** A find misses the cache and goes to the durable store. */
  lemma MissedCache(s: Session, size: Size) returns (ws: seq<World>, es: seq<Event>)
    requires size.workers > 0 && size.capacity > 0 && ActiveRow(s)
    ensures Run(ws, es) && es == [StartFind(0, "t"), Begin, Probe(0, false)]
    ensures ws[3] == Scene(s, map[], map[0 := FindReading("t")], [], size, [])
  {
    hide CacheGet, Serialize, Deserialize, Storable, Representable, Run, RowsStorable;
    ws, es := [Scene(s, map[], map[], [], size, [])], [];
    FirstScene(s, size);
    ws, es := StepTo(ws, es, StartFind(0, "t"), Scene(s, map[], map[0 := FindQueued("t")], [0], size, []));
    NoneBusy(map[0 := FindQueued("t")]);
    ws, es := StepTo(ws, es, Begin, Scene(s, map[], map[0 := FindProbing("t")], [], size, []));
    ws, es := StepTo(ws, es, Probe(0, false), Scene(s, map[], map[0 := FindReading("t")], [], size, []));
  }

  /** It reads the active row, whose copy is on its way back. */
  lemma CopyRead(s: Session, size: Size) returns (ws: seq<World>, es: seq<Event>)
    requires size.workers > 0 && size.capacity > 0 && ActiveRow(s)
    ensures Run(ws, es) && es == [StartFind(0, "t"), Begin, Probe(0, false), DurableRead(0, true)]
    ensures ws[4] == Scene(s, map[], map[0 := FindDelivering("t", Some(s), 0)], [], size, [])
  {
    hide CacheGet, Serialize, Deserialize, Storable, Representable, Run, RowsStorable;
    var held := FindDelivering("t", Some(s), 0);
    ws, es := MissedCache(s, size);
    ws, es := StepTo(ws, es, DurableRead(0, true), Scene(s, map[], map[0 := held], [], size, []));
  }

  /** Its backfill is running. */
  lemma CopyInFlight(s: Session, size: Size) returns (ws: seq<World>, es: seq<Event>)
    requires size.workers > 0 && size.capacity > 0 && ActiveRow(s)
    ensures Run(ws, es) && |ws| == 7
    ensures es == [StartFind(0, "t"), Begin, Probe(0, false), DurableRead(0, true), Deliver(0), Begin]
    ensures ws[6] == Scene(s, map[], map[0 := BackfillRunning("t", s, 0)], [], size, [])
  {
    hide CacheGet, Serialize, Deserialize, Storable, Representable, Run, RowsStorable;
    ws, es := CopyRead(s, size);
    ws, es := StepTo(ws, es, Deliver(0), Scene(s, map[], map[0 := BackfillQueued("t", s, 0)], [0], size, []));
    NoneBusy(map[0 := BackfillQueued("t", s, 0)]);
    ws, es := StepTo(ws, es, Begin, Scene(s, map[], map[0 := BackfillRunning("t", s, 0)], [], size, []));
  }

  function TombstoneEntry(): Entry { Entry(Serialize(Tombstone("t")), TTL) }

  /** A pool that has a worker for one more task beside what the find occupies. */
  predicate RoomBeside(held: Op, size: Size) {
    size.capacity > 0 && size.workers > if InTask(held) then 1 else 0
  }

  function RevokeEvents(): seq<Event> {
    [StartRevoke(1, "t"), DurableRevoke(1, true), Deliver(1), Begin, PutTombstone(1, Stored), CallBack(1)]
  }

  /** A revoke beside a find that takes no step meanwhile. */
  function Beside(s: Session, cache: map<string, Entry>, held: Op, revoke: Op, queue: seq<nat>, size: Size,
                  replies: seq<nat>): World {
    Scene(s, cache, map[0 := held, 1 := revoke], queue, size, replies)
  }

  lemma WritesRow(s: Session, cache: map<string, Entry>, held: Op, size: Size)
    requires s.status == 1
    ensures var w := Beside(s, cache, held, RevokeWriting("t"), [], size, []);
            && Enabled(w, DurableRevoke(1, true))
            && Apply(w, DurableRevoke(1, true)) ==
               Beside(s.(sceneId := "", status := 0), cache, held, RevokeDelivering("t", true), [], size, [])
  {
  }

  lemma SubmitsTombstone(s: Session, cache: map<string, Entry>, held: Op, size: Size)
    requires RoomBeside(held, size)
    ensures var w := Beside(s, cache, held, RevokeDelivering("t", true), [], size, []);
            && Enabled(w, Deliver(1))
            && Apply(w, Deliver(1)) == Beside(s, cache, held, TombstoneQueued("t"), [1], size, [])
  {
  }

  lemma BeginsTombstone(s: Session, cache: map<string, Entry>, held: Op, size: Size)
    requires RoomBeside(held, size)
    ensures var w := Beside(s, cache, held, TombstoneQueued("t"), [1], size, []);
            && Enabled(w, Begin)
            && Apply(w, Begin) == Beside(s, cache, held, TombstoneRunning("t"), [], size, [])
  {
    var ops := map[0 := held, 1 := TombstoneQueued("t")];
    if InTask(held) { OneBusy(ops, 0); } else { NoneBusy(ops); }
  }

  lemma StoresTombstone(s: Session, cache: map<string, Entry>, held: Op, size: Size)
    ensures var w := Beside(s, cache, held, TombstoneRunning("t"), [], size, []);
            && Enabled(w, PutTombstone(1, Stored))
            && Apply(w, PutTombstone(1, Stored)) ==
               Beside(s, cache["t" := TombstoneEntry()], held, RevokeAnswering("t", true, true), [], size, [])
  {
    hide Serialize;
  }

  lemma ReportsSuccess(s: Session, cache: map<string, Entry>, held: Op, size: Size)
    ensures var w := Beside(s, cache, held, RevokeAnswering("t", true, true), [], size, []);
            && Enabled(w, CallBack(1))
            && Apply(w, CallBack(1)) == Beside(s, cache, held, RevokeDone("t", true), [], size, [1])
  {
  }

  lemma StartsRevoke(s: Session, cache: map<string, Entry>, held: Op, size: Size)
    ensures var w := Scene(s, cache, map[0 := held], [], size, []);
            && Enabled(w, StartRevoke(1, "t"))
            && Apply(w, StartRevoke(1, "t")) == Beside(s, cache, held, RevokeWriting("t"), [], size, [])
  {
  }

  /** From its start to its report of success. */
  lemma RevokeBeside(ws: seq<World>, es: seq<Event>, s: Session, cache: map<string, Entry>, held: Op, size: Size)
    returns (ws2: seq<World>, es2: seq<Event>)
    requires Run(ws, es) && |ws| == |es| + 1 && ws[|es|] == Scene(s, cache, map[0 := held], [], size, [])
    requires s.status == 1 && RoomBeside(held, size)
    ensures Run(ws2, es2) && |ws2| == |es2| + 1 && es2 == es + RevokeEvents()
    ensures ws2[|es2|] == Beside(s.(sceneId := "", status := 0), cache["t" := TombstoneEntry()], held,
                                 RevokeDone("t", true), [], size, [1])
  {
    hide Run, Apply, Enabled, Serialize, Scene, Beside;
    var row, sealed := s.(sceneId := "", status := 0), cache["t" := TombstoneEntry()];
    StartsRevoke(s, cache, held, size);
    ws2, es2 := StepTo(ws, es, StartRevoke(1, "t"), Beside(s, cache, held, RevokeWriting("t"), [], size, []));
    WritesRow(s, cache, held, size);
    ws2, es2 := StepTo(ws2, es2, DurableRevoke(1, true),
                       Beside(row, cache, held, RevokeDelivering("t", true), [], size, []));
    SubmitsTombstone(row, cache, held, size);
    ws2, es2 := StepTo(ws2, es2, Deliver(1), Beside(row, cache, held, TombstoneQueued("t"), [1], size, []));
    BeginsTombstone(row, cache, held, size);
    ws2, es2 := StepTo(ws2, es2, Begin, Beside(row, cache, held, TombstoneRunning("t"), [], size, []));
    StoresTombstone(row, cache, held, size);
    ws2, es2 := StepTo(ws2, es2, PutTombstone(1, Stored),
                       Beside(row, sealed, held, RevokeAnswering("t", true, true), [], size, []));
    ReportsSuccess(row, sealed, held, size);
    ws2, es2 := StepTo(ws2, es2, CallBack(1), Beside(row, sealed, held, RevokeDone("t", true), [], size, [1]));
  }

  /** What is left of the scene once the tombstone has expired. */
  function Expired(s: Session, held: Op, queue: seq<nat>, size: Size): World {
    Beside(s.(sceneId := "", status := 0), map[], held, RevokeDone("t", true), queue, size, [1]).(now := TTL)
  }

  lemma SubmitsLate(s: Session, size: Size)
    requires size.workers > 0 && size.capacity > 0
    ensures var w := Expired(s, FindDelivering("t", Some(s), 0), [], size);
            Enabled(w, Deliver(0)) && Apply(w, Deliver(0)) == Expired(s, BackfillQueued("t", s, 0), [0], size)
  {
  }

  lemma BeginsLate(s: Session, size: Size)
    requires size.workers > 0
    ensures var w := Expired(s, BackfillQueued("t", s, 0), [0], size);
            Enabled(w, Begin) && Apply(w, Begin) == Expired(s, BackfillRunning("t", s, 0), [], size)
  {
    NoneBusy(map[0 := BackfillQueued("t", s, 0), 1 := RevokeDone("t", true)]);
  }

  lemma ExpiresLate(s: Session, held: Op, size: Size)
    ensures var w := Beside(s.(sceneId := "", status := 0), map["t" := TombstoneEntry()], held, RevokeDone("t", true),
                            [], size, [1]);
            && Enabled(w, Tick(TTL)) && Apply(w, Tick(TTL)) == w.(now := TTL)
            && Enabled(w.(now := TTL), Expire("t"))
            && Apply(w.(now := TTL), Expire("t")) == Expired(s, held, [], size)
  {
    hide Serialize;
  }

  lemma ObtainsLate(s: Session, size: Size)
    requires s.token == "t" && s.status == 1
    ensures var w := Expired(s, BackfillRunning("t", s, 0), [], size);
            Enabled(w, Backfill(0, Stored)) && ObtainsActive(w, Backfill(0, Stored), "t")
  {
    hide Serialize;
    var w := Expired(s, BackfillRunning("t", s, 0), [], size);
    assert Obtains(w, Apply(w, Backfill(0, Stored)), 0, "t");
  }

  /** The revoke reports success beside a find that has read the active row, and the tombstone expires. */
  lemma ReportedThenExpired(s: Session, size: Size) returns (ws: seq<World>, es: seq<Event>)
    requires size.workers > 0 && size.capacity > 0 && ActiveRow(s)
    ensures Run(ws, es) && |es| == 12 && |ws| == 13 && Reported(ws[10], "t")
    ensures ws[12] == Expired(s, FindDelivering("t", Some(s), 0), [], size)
  {
    hide Run, Enabled, Apply, Serialize, TombstoneEntry, Storable, Representable;
    var held := FindDelivering("t", Some(s), 0);
    ws, es := CopyRead(s, size);
    RunLength(ws, es);
    ws, es := RevokeBeside(ws, es, s, map[], held, size);
    assert ws[10].ops[1] == RevokeDone("t", true);
    ExpiresLate(s, held, size);
    ws, es := StepTo(ws, es, Tick(TTL), ws[10].(now := TTL));
    ws, es := StepTo(ws, es, Expire("t"), Expired(s, held, [], size));
  }

  /** Through an expiry, with any pool: the find reads the active row, the revoke reports success, the
      tombstone expires before the backfill, and the cache step gets the find the active session. */
  lemma RevokeUndoneByExpiry(s: Session, size: Size) returns (ws: seq<World>, es: seq<Event>)
    requires size.workers > 0 && size.capacity > 0 && ActiveRow(s)
    ensures Run(ws, es) && ws[0].workers == size.workers && ws[0].capacity == size.capacity && |es| == 15
    ensures Reported(ws[10], "t") && Enabled(ws[14], es[14]) && ObtainsActive(ws[14], es[14], "t")
  {
    hide Run, Enabled, Apply, ObtainsActive, Storable, Representable, QueueAccounted, RepliesAccounted, Occupied;
    var running := BackfillRunning("t", s, 0);
    ws, es := ReportedThenExpired(s, size);
    AccountedRun(ws, es, 12);
    SubmitsLate(s, size);
    ws, es := StepTo(ws, es, Deliver(0), Expired(s, BackfillQueued("t", s, 0), [0], size));
    BeginsLate(s, size);
    ws, es := StepTo(ws, es, Begin, Expired(s, running, [], size));
    ObtainsLate(s, size);
    ws, es := StepTo(ws, es, Backfill(0, Stored), Apply(Expired(s, running, [], size), Backfill(0, Stored)));
  }

  lemma StoresCopy(s: Session, size: Size)
    requires s.token == "t" && s.status == 1
    ensures var w := Scene(s, map[], map[0 := BackfillRunning("t", s, 0)], [], size, []);
            && Enabled(w, Backfill(0, Stored))
            && Apply(w, Backfill(0, Stored)) == Scene(s, map["t" := Entry(Serialize(s), TTL)],
                                                      map[0 := FindAnswering("t", Some(s), true)], [], size, [])
  {
    hide Serialize;
  }

  /** Without any expiry, from two workers on: the cache has confirmed the find's active copy, and
      before the find calls back another worker stores the tombstone and reports success. */
  lemma AnswerAfterReport(s: Session, size: Size) returns (ws: seq<World>, es: seq<Event>)
    requires size.workers >= 2 && size.capacity > 0 && ActiveRow(s)
    ensures Run(ws, es) && ws[0].workers == size.workers && ws[0].capacity == size.capacity && |es| == 14
    ensures forall i :: 0 <= i < |es| ==> Guarded(ws[i], es[i])
    ensures Reported(ws[13], "t") && AnswersActive(ws[13], es[13], "t")
  {
    hide CacheGet, Serialize, Run, Guarded, Apply, Enabled, Storable, Representable, QueueAccounted, RepliesAccounted;
    var held, cache := FindAnswering("t", Some(s), true), map["t" := Entry(Serialize(s), TTL)];
    ws, es := CopyInFlight(s, size);
    StoresCopy(s, size);
    ws, es := StepTo(ws, es, Backfill(0, Stored), Scene(s, cache, map[0 := held], [], size, []));
    ws, es := RevokeBeside(ws, es, s, cache, held, size);
    AccountedRun(ws, es, |es|);
    assert ws[13].ops[1] == RevokeDone("t", true);
    CanCallBack(ws[13], 0);
    ws, es := StepTo(ws, es, CallBack(0), Apply(ws[13], CallBack(0)));
    NoExpiryIsGuarded(ws, es);
  }

  lemma CanCallBack(w: World, id: nat)
    requires id in w.ops && w.ops[id].FindAnswering?
    ensures Enabled(w, CallBack(id))
  {
  }

  lemma NoExpiryIsGuarded(ws: seq<World>, es: seq<Event>)
    requires |ws| == |es| + 1 && forall i :: 0 <= i < |es| ==> !es[i].Expire?
    ensures forall i :: 0 <= i < |es| ==> Guarded(ws[i], es[i])
  {
  }

  // ---------- exactly from two workers on ----------

  /** In a guarded run of a pool of this size, step j is a callback with an active session of the token
      after a revoke has reported success. */
  predicate LateAnswer(ws: seq<World>, es: seq<Event>, size: Size, token: string, j: nat) {
    && Run(ws, es) && j < |es| && ws[0].workers == size.workers && ws[0].capacity == size.capacity
    && (forall i :: 0 <= i < j ==> Guarded(ws[i], es[i]))
    && Reported(ws[j], token) && AnswersActive(ws[j], es[j], token)
  }

  lemma ReportedIsRevoked(w: World, token: string)
    requires Reported(w, token)
    ensures Revoked(w, token)
  {
    var id :| id in w.ops && w.ops[id] == RevokeDone(token, true);
    assert Confirmed(w.ops[id], token);
  }

  /** Without room in the queue no operation gets past its first submission. */
  predicate Stopped(w: World) {
    w.capacity == 0 && w.queue == [] && forall id :: id in w.ops ==> !Confirms(w.ops[id])
  }

  predicate Confirms(op: Op) {
    Queued(op) || InTask(op) || (op.RevokeAnswering? && op.ok) || (op.RevokeDone? && op.ok)
  }

  lemma StoppedStep(w: World, e: Event)
    requires Stopped(w) && Enabled(w, e)
    ensures Stopped(Apply(w, e))
  {
    hide CacheGet, PutAnswer, AddAnswer, Storable, Representable, WorkerFree;
    OthersKeep(w, e);
    if Subject(w, e).Some? { assert !Confirms(NextOp(w, e)); }
  }

  lemma {:induction false} StoppedRun(ws: seq<World>, es: seq<Event>, k: nat)
    requires Run(ws, es) && k < |ws| && ws[0].capacity == 0
    ensures Stopped(ws[k])
  {
    if k > 0 {
      StoppedRun(ws, es, k - 1);
      StoppedStep(ws[k - 1], es[k - 1]);
    }
  }

  function SomeRow(): Session { Session(0, "t", 0, "", 1, "", "u") }

  /** A callback with an active session after a reported success, without an expiry under an older
      copy, is possible exactly when the pool has two workers or more and room for a task. */
  lemma LateAnswersNeedTwoWorkers(size: Size)
    ensures (exists ws, es, token, j :: LateAnswer(ws, es, size, token, j)) <==> size.workers >= 2 && size.capacity > 0
  {
    if ws, es, token, j :| LateAnswer(ws, es, size, token, j) {
      ReportedIsRevoked(ws[j], token);
      if size.workers < 2 { OneWorkerAnswersInTime(ws, es, token, j); }
      if size.capacity == 0 { StoppedRun(ws, es, j); }
    }
    if size.workers >= 2 && size.capacity > 0 {
      var ws, es := AnswerAfterReport(SomeRow(), size);
      assert LateAnswer(ws, es, size, "t", 13);
    }
  }
}
