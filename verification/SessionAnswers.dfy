/** What the session store hands out, over every run: a find answers with what the cache held for its
    token while it was under way, the cache holds nothing but rows and tombstones, and an operation
    ends without its answer only for the reasons listed. */
module SessionAnswers {
  import opened Wrappers
  import opened SessionTextCodec
  import opened SessionProtocol

  // ---------- rows of the durable store ----------

  /** The session last created under the token, or the row that was there at the start. */
  ghost function Origin(ws: seq<World>, es: seq<Event>, k: nat, token: string): Option<Session>
    requires k < |ws| && k <= |es|
  {
    if k == 0 then if token in ws[0].durable then Some(ws[0].durable[token]) else None
    else if es[k - 1].Create? && es[k - 1].session.token == token then Some(es[k - 1].session)
    else Origin(ws, es, k - 1, token)
  }

  /** The step writes the revocation of the token's row. */
  predicate WritesRevoke(w: World, e: Event, token: string) {
    e.DurableRevoke? && e.ok && e.id in w.ops && w.ops[e.id].token == token
  }

  /** A revocation of the token's row was written since it was created. */
  ghost predicate RevokedSince(ws: seq<World>, es: seq<Event>, k: nat, token: string)
    requires k < |ws| && k <= |es|
  {
    k > 0 && !(es[k - 1].Create? && es[k - 1].session.token == token)
    && (WritesRevoke(ws[k - 1], es[k - 1], token) || RevokedSince(ws, es, k - 1, token))
  }

  /** A revoked session keeps its identity, its user and its times, and loses its scene. */
  function Deactivated(s: Session): Session {
    if s.status == 1 then Session(s.id, s.token, s.userId, "", 0, s.createdAt, s.updatedAt) else s
  }

  /** At any time the row of a token is the session created under it, deactivated if it was active and
      a revocation was written since. */
  lemma {:induction false} RowsExactly(ws: seq<World>, es: seq<Event>, k: nat, token: string)
    requires Run(ws, es) && k < |ws|
    ensures (token in ws[k].durable) == Origin(ws, es, k, token).Some?
    ensures token in ws[k].durable ==>
              var s := Origin(ws, es, k, token).value;
              ws[k].durable[token] == if RevokedSince(ws, es, k, token) then Deactivated(s) else s
  {
    RunLength(ws, es);
    if k > 0 {
      StepAt(ws, es, k - 1);
      RowsExactly(ws, es, k - 1, token);
      RowStep(ws[k - 1], es[k - 1], token);
      hide Run, Enabled, Apply;
    }
  }

  lemma RowStep(w: World, e: Event, token: string)
    requires Enabled(w, e)
    ensures var d := Apply(w, e).durable;
            if e.Create? && e.session.token == token then token in d && d[token] == e.session
            else if token in w.durable then
              && token in d
              && d[token] == if WritesRevoke(w, e, token) then Deactivated(w.durable[token]) else w.durable[token]
            else token !in d
  {
  }

  // ---------- what the cache holds ----------

  /** A tombstone of the token was written to the cache before k. */
  ghost predicate Buried(ws: seq<World>, es: seq<Event>, k: nat, token: string) {
    exists i :: 0 <= i < k && k <= |es| && k < |ws| && Buries(ws[i], es[i], token)
  }

  predicate Buries(w: World, e: Event, token: string) {
    e.PutTombstone? && TookEffect(e.answer) && e.id in w.ops && w.ops[e.id].token == token
  }

  /** The durable store had this row at some moment up to k. */
  ghost predicate WasRow(ws: seq<World>, k: nat, token: string, s: Session) {
    exists i :: 0 <= i <= k && k < |ws| && token in ws[i].durable && ws[i].durable[token] == s
  }

  /** Where a session in the cache comes from: a revoke, the durable store, or the cache that the run
      started with. */
  ghost predicate Known(ws: seq<World>, es: seq<Event>, k: nat, token: string, s: Session)
    requires |ws| > 0
  {
    || (s == Tombstone(token) && Buried(ws, es, k, token))
    || WasRow(ws, k, token, s)
    || CacheGet(ws[0], token) == Some(s)
  }

  lemma KnownLater(ws: seq<World>, es: seq<Event>, i: nat, k: nat, token: string, s: Session)
    requires i <= k < |ws| && k <= |es| && Known(ws, es, i, token, s)
    ensures Known(ws, es, k, token, s)
  {
    hide CacheGet, Buries;
    if Buried(ws, es, i, token) {
      var j :| 0 <= j < i && Buries(ws[j], es[j], token);
      assert Buried(ws, es, k, token);
    }
    if WasRow(ws, i, token, s) {
      var j :| 0 <= j <= i && token in ws[j].durable && ws[j].durable[token] == s;
      assert WasRow(ws, k, token, s);
    }
  }

  /** The copy that a find carries was a row, and is what it was then. */
  lemma {:induction false} CopyWasRow(ws: seq<World>, es: seq<Event>, k: nat, id: nat)
    requires Run(ws, es) && k < |ws| && id in ws[k].ops && Carrying(ws[k].ops[id])
    ensures WasRow(ws, k, ws[k].ops[id].token, CopyOf(ws[k].ops[id]))
  {
    RunLength(ws, es);
    if k > 0 {
      StepAt(ws, es, k - 1);
      var w, e, v := ws[k - 1], es[k - 1], ws[k];
      OthersKeep(w, e);
      if Subject(w, e) == Some(id) { CopyOrigin(w, e, id); }
      hide Run, Enabled, Apply, Admits;
      if id in w.ops && Carrying(w.ops[id]) && CopyOf(w.ops[id]) == CopyOf(v.ops[id]) {
        CopyWasRow(ws, es, k - 1, id);
        var token, s := v.ops[id].token, CopyOf(v.ops[id]);
        var j :| 0 <= j <= k - 1 && token in ws[j].durable && ws[j].durable[token] == s;
      } else {
        assert v.ops[id].token in ws[k - 1].durable;
      }
    }
  }

  /** What the step leaves in the cache under the token. */
  lemma EntryStep(w: World, e: Event, token: string)
    requires WellFormed(w) && Enabled(w, e)
    ensures var c := CacheGet(Apply(w, e), token);
            || c == None || c == CacheGet(w, token)
            || (c == Some(Tombstone(token)) && Buries(w, e, token))
            || (e.Backfill? && e.id in w.ops && Carrying(w.ops[e.id]) && w.ops[e.id].token == token
                && c == Some(CopyOf(w.ops[e.id])))
  {
    hide Serialize, Deserialize, Storable, Representable;
    match e
    case Backfill(id, _) => CopyReadsBack(w, id);
    case PutTombstone(_, _) => TombstoneNeverActive(token);
    case _ =>
  }

  lemma CopyReadsBack(w: World, id: nat)
    requires WellFormed(w) && id in w.ops && Carrying(w.ops[id])
    ensures CopyOf(w.ops[id]).token == w.ops[id].token
    ensures Deserialize(Serialize(CopyOf(w.ops[id]))) == Some(CopyOf(w.ops[id]))
  {
    assert CopyFits(w.ops[id]);
    RoundTripExactly(CopyOf(w.ops[id]));
  }

  /** Whatever the cache reads under a token is a tombstone that a revoke of it wrote, or a row that the
      durable store had under it, or was there at the start. */
  lemma {:induction false} CacheIsKnown(ws: seq<World>, es: seq<Event>, k: nat, token: string)
    requires Run(ws, es) && k < |ws| && CacheGet(ws[k], token).Some?
    ensures Known(ws, es, k, token, CacheGet(ws[k], token).value)
  {
    hide Run, Enabled, Apply, CacheGet, Known, WellFormed, Buries;
    RunLength(ws, es);
    if k > 0 {
      var s := CacheGet(ws[k], token).value;
      StepAt(ws, es, k - 1);
      WellFormedRun(ws, es, k - 1);
      EntryStep(ws[k - 1], es[k - 1], token);
      if CacheGet(ws[k - 1], token) == Some(s) {
        CacheIsKnown(ws, es, k - 1, token);
        KnownLater(ws, es, k - 1, k, token, s);
      } else if Buries(ws[k - 1], es[k - 1], token) && s == Tombstone(token) {
        BuriedIsKnown(ws, es, k, token);
      } else {
        CopyWasRow(ws, es, k - 1, es[k - 1].id);
        RowIsKnown(ws, es, k - 1, token, s);
        KnownLater(ws, es, k - 1, k, token, s);
      }
    } else {
      StartIsKnown(ws, es, token);
    }
  }

  lemma RowIsKnown(ws: seq<World>, es: seq<Event>, k: nat, token: string, s: Session)
    requires |ws| > 0 && WasRow(ws, k, token, s)
    ensures Known(ws, es, k, token, s)
  {
  }

  lemma BuriedIsKnown(ws: seq<World>, es: seq<Event>, k: nat, token: string)
    requires 0 < k < |ws| && k <= |es| && Buries(ws[k - 1], es[k - 1], token)
    ensures Known(ws, es, k, token, Tombstone(token))
  {
    hide Buries;
  }

  lemma StartIsKnown(ws: seq<World>, es: seq<Event>, token: string)
    requires |ws| > 0 && CacheGet(ws[0], token).Some?
    ensures Known(ws, es, 0, token, CacheGet(ws[0], token).value)
  {
    hide CacheGet;
  }

  // ---------- what a find answers ----------

  /** The find has its answer, to call back with or already called back with. */
  predicate HasAnswer(op: Op) { op.FindAnswering? || op.FindDone? }

  /** While the find was under way, at or before k, the cache read this session under its token. */
  ghost predicate SeenByFind(ws: seq<World>, k: nat, id: nat, token: string, s: Session) {
    exists i :: 0 <= i <= k && k < |ws| && SeesInCache(ws[i], id, token, s)
  }

  predicate SeesInCache(w: World, id: nat, token: string, s: Session) {
    id in w.ops && w.ops[id].token == token && !Done(w.ops[id]) && CacheGet(w, token) == Some(s)
  }

  /** Where an answer comes from: kept, or the cache before or after the step. */
  lemma AnswerOrigin(w: World, e: Event, id: nat)
    requires WellFormed(w) && QueueAccounted(w) && Enabled(w, e) && id in Apply(w, e).ops
    requires var op := Apply(w, e).ops[id]; HasAnswer(op) && op.found.Some?
    ensures var op := Apply(w, e).ops[id];
            || (id in w.ops && HasAnswer(w.ops[id]) && w.ops[id].token == op.token && w.ops[id].found == op.found)
            || SeesInCache(w, id, op.token, op.found.value)
            || SeesInCache(Apply(w, e), id, op.token, op.found.value)
  {
    OthersKeep(w, e);
    if Subject(w, e) == Some(id) {
      OnlyBeginDequeues(w, e, id);
      hide QueueAccounted;
      AnswerMade(w, e, id);
    }
  }

  lemma AnswerMade(w: World, e: Event, id: nat)
    requires WellFormed(w) && Enabled(w, e) && Subject(w, e) == Some(id)
    requires e.Begin? <==> id in w.ops && Queued(w.ops[id])
    requires var op := NextOp(w, e); HasAnswer(op) && op.found.Some?
    ensures var op := NextOp(w, e);
            || (id in w.ops && HasAnswer(w.ops[id]) && w.ops[id].token == op.token && w.ops[id].found == op.found)
            || SeesInCache(w, id, op.token, op.found.value)
            || (e.Backfill? && SeesInCache(Apply(w, e), id, op.token, op.found.value))
  {
    hide Serialize, Deserialize, Storable, Representable, WellFormed, Admits, WorkerFree;
    if e.Backfill? {
      CopyReadsBack(w, id);
    } else {
      hide Apply;
    }
  }

  /** Every session that a find calls back with is one that the cache held for its token at some moment
      between the call and the callback. */
  lemma {:induction false} AnswersAreRead(ws: seq<World>, es: seq<Event>, k: nat, id: nat)
    requires Run(ws, es) && k < |ws| && id in ws[k].ops && HasAnswer(ws[k].ops[id]) && ws[k].ops[id].found.Some?
    ensures SeenByFind(ws, k, id, ws[k].ops[id].token, ws[k].ops[id].found.value)
  {
    hide Run, Enabled, Apply, SeesInCache, WellFormed, QueueAccounted, RepliesAccounted, Occupied;
    RunLength(ws, es);
    NoOpsAtStart(ws, es);
    if k > 0 {
      StepAt(ws, es, k - 1);
      WellFormedRun(ws, es, k - 1);
      AccountedRun(ws, es, k - 1);
      AnswerOrigin(ws[k - 1], es[k - 1], id);
      var op := ws[k].ops[id];
      var token, s := op.token, op.found.value;
      if SeesInCache(ws[k - 1], id, token, s) {
        assert SeenByFind(ws, k, id, token, s);
      } else if SeesInCache(ws[k], id, token, s) {
        assert SeenByFind(ws, k, id, token, s);
      } else {
        AnswersAreRead(ws, es, k - 1, id);
        var i :| 0 <= i <= k - 1 && SeesInCache(ws[i], id, token, s);
        assert SeenByFind(ws, k, id, token, s);
      }
    }
  }

  lemma NoOpsAtStart(ws: seq<World>, es: seq<Event>)
    requires Run(ws, es)
    ensures ws[0].ops == map[]
  {
    hide Enabled, Apply;
  }

  /** So every session handed out is a row that the durable store had under the token, or a tombstone
      that a revoke wrote, or was in the cache at the start. */
  lemma AnswersAreKnown(ws: seq<World>, es: seq<Event>, k: nat, id: nat)
    requires Run(ws, es) && k < |ws| && id in ws[k].ops && HasAnswer(ws[k].ops[id]) && ws[k].ops[id].found.Some?
    ensures Known(ws, es, k, ws[k].ops[id].token, ws[k].ops[id].found.value)
  {
    hide Run, Known, CacheGet;
    RunLength(ws, es);
    AnswersAreRead(ws, es, k, id);
    var token, s := ws[k].ops[id].token, ws[k].ops[id].found.value;
    var i :| 0 <= i <= k && SeesInCache(ws[i], id, token, s);
    CacheIsKnown(ws, es, i, token);
    KnownLater(ws, es, i, k, token, s);
  }

  // ---------- when there is nothing to answer ----------

  /** The step leaves the find without a session: no token, no room for a task, no row, or a cache
      reply that was lost or missed. */
  predicate LeavesNothing(w: World, e: Event, id: nat) {
    match e
    case StartFind(i, token) => i == id && (token == "" || !Admits(w))
    case DurableRead(i, ok) => i == id && id in w.ops && !(ok && w.ops[id].token in w.durable)
    case Deliver(i) =>
      i == id && id in w.ops && w.ops[id].FindDelivering? && w.ops[id].row.Some? && !Admits(w)
    case Backfill(i, a) => i == id && id in w.ops && w.ops[id].BackfillRunning? && w.ops[id].copy.status == 0 && a.Lost?
    case ReadWinner(i, hit) => i == id && !hit
    case _ => false
  }

  ghost predicate LeftNothing(ws: seq<World>, es: seq<Event>, k: nat, id: nat) {
    exists i :: 0 <= i < k && k < |ws| && k <= |es| && LeavesNothing(ws[i], es[i], id)
  }

  /** A find that can only answer with nothing. */
  predicate Empty(op: Op) {
    (HasAnswer(op) && op.found.None?) || (op.FindDelivering? && op.row.None?)
  }

  lemma EmptyStep(w: World, e: Event, id: nat)
    requires QueueAccounted(w) && Enabled(w, e) && id in Apply(w, e).ops
    ensures Empty(Apply(w, e).ops[id]) <==> (id in w.ops && Empty(w.ops[id])) || LeavesNothing(w, e, id)
  {
    OthersKeep(w, e);
    if Subject(w, e) == Some(id) {
      OnlyBeginDequeues(w, e, id);
      EmptySubject(w, e, id);
    }
  }

  lemma EmptySubject(w: World, e: Event, id: nat)
    requires Enabled(w, e) && Subject(w, e) == Some(id) && (e.Begin? <==> id in w.ops && Queued(w.ops[id]))
    ensures Empty(NextOp(w, e)) <==> (id in w.ops && Empty(w.ops[id])) || LeavesNothing(w, e, id)
  {
    hide Deserialize, Admits, Storable, Representable, WorkerFree;
  }

  /** A find answers with nothing exactly when one of these steps left it without a session. */
  lemma {:induction false} NothingExactly(ws: seq<World>, es: seq<Event>, k: nat, id: nat)
    requires Run(ws, es) && k < |ws| && id in ws[k].ops
    ensures Empty(ws[k].ops[id]) <==> LeftNothing(ws, es, k, id)
    ensures HasAnswer(ws[k].ops[id]) ==> (ws[k].ops[id].found.None? <==> LeftNothing(ws, es, k, id))
  {
    hide Run, Enabled, Apply, LeavesNothing, QueueAccounted, RepliesAccounted, Occupied;
    RunLength(ws, es);
    NoOpsAtStart(ws, es);
    if k > 0 {
      StepAt(ws, es, k - 1);
      AccountedRun(ws, es, k - 1);
      EmptyStep(ws[k - 1], es[k - 1], id);
      if id in ws[k - 1].ops {
        NothingExactly(ws, es, k - 1, id);
      } else {
        NotBegun(ws, es, k - 1, id);
      }
      LeftNothingSplit(ws, es, k, id);
    }
  }

  lemma LeftNothingSplit(ws: seq<World>, es: seq<Event>, k: nat, id: nat)
    requires 0 < k < |ws| && k <= |es|
    ensures LeftNothing(ws, es, k, id) <==> LeftNothing(ws, es, k - 1, id) || LeavesNothing(ws[k - 1], es[k - 1], id)
  {
    hide LeavesNothing;
  }

  /** Nothing has happened to an operation that has not begun. */
  lemma {:induction false} NotBegun(ws: seq<World>, es: seq<Event>, k: nat, id: nat)
    requires Run(ws, es) && k < |ws| && id !in ws[k].ops
    ensures !LeftNothing(ws, es, k, id)
  {
    hide Run, Enabled, Apply;
    RunLength(ws, es);
    if k > 0 {
      StepAt(ws, es, k - 1);
      OthersKeep(ws[k - 1], es[k - 1]);
      NotBegun(ws, es, k - 1, id);
      AbsentStep(ws[k - 1], es[k - 1], id);
      LeftNothingSplit(ws, es, k, id);
    }
  }

  lemma AbsentStep(w: World, e: Event, id: nat)
    requires Enabled(w, e) && id !in Apply(w, e).ops
    ensures !LeavesNothing(w, e, id)
  {
  }

  // ---------- what a revoke reports ----------

  /** The step makes the revoke fail: no token, no durable write, no room for the task, or a tombstone
      that the cache does not confirm. */
  predicate FailsRevoke(w: World, e: Event, id: nat) {
    match e
    case StartRevoke(i, token) => i == id && token == ""
    case DurableRevoke(i, ok) => i == id && !ok
    case Deliver(i) =>
      i == id && id in w.ops && w.ops[id].RevokeDelivering? && w.ops[id].written && !Admits(w)
    case PutTombstone(i, a) => i == id && a.Lost?
    case _ => false
  }

  ghost predicate RevokeFailed(ws: seq<World>, es: seq<Event>, k: nat, id: nat) {
    exists i :: 0 <= i < k && k < |ws| && k <= |es| && FailsRevoke(ws[i], es[i], id)
  }

  /** A revoke that can only report failure. */
  predicate Failing(op: Op) {
    ((op.RevokeAnswering? || op.RevokeDone?) && !op.ok) || (op.RevokeDelivering? && !op.written)
  }

  predicate Succeeding(op: Op) { (op.RevokeAnswering? || op.RevokeDone?) && op.ok }

  lemma RevokeSubject(w: World, e: Event, id: nat)
    requires Enabled(w, e) && Subject(w, e) == Some(id) && (e.Begin? <==> id in w.ops && Queued(w.ops[id]))
    ensures Failing(NextOp(w, e)) <==> (id in w.ops && Failing(w.ops[id])) || FailsRevoke(w, e, id)
    ensures Succeeding(NextOp(w, e)) <==> (id in w.ops && Succeeding(w.ops[id])) || e == PutTombstone(id, Stored)
    ensures PastWrite(NextOp(w, e)) ==> (id in w.ops && PastWrite(w.ops[id])) || e == DurableRevoke(id, true)
  {
    hide Deserialize, Admits, Storable, Representable, WorkerFree;
  }

  lemma RevokeStep(w: World, e: Event, id: nat)
    requires QueueAccounted(w) && Enabled(w, e) && id in Apply(w, e).ops
    ensures var op := Apply(w, e).ops[id];
            && (Failing(op) <==> (id in w.ops && Failing(w.ops[id])) || FailsRevoke(w, e, id))
            && (Succeeding(op) <==> (id in w.ops && Succeeding(w.ops[id])) || e == PutTombstone(id, Stored))
            && (PastWrite(op) ==> (id in w.ops && PastWrite(w.ops[id])) || e == DurableRevoke(id, true))
  {
    OthersKeep(w, e);
    if Subject(w, e) == Some(id) {
      OnlyBeginDequeues(w, e, id);
      RevokeSubject(w, e, id);
    }
  }

  lemma RevokeAbsent(w: World, e: Event, id: nat)
    requires Enabled(w, e) && id !in Apply(w, e).ops
    ensures !FailsRevoke(w, e, id) && e != PutTombstone(id, Stored)
  {
  }

  lemma RevokeFailedSplit(ws: seq<World>, es: seq<Event>, k: nat, id: nat)
    requires 0 < k < |ws| && k <= |es|
    ensures RevokeFailed(ws, es, k, id) <==> RevokeFailed(ws, es, k - 1, id) || FailsRevoke(ws[k - 1], es[k - 1], id)
  {
    hide FailsRevoke;
  }

  lemma {:induction false} RevokeNotBegun(ws: seq<World>, es: seq<Event>, k: nat, id: nat)
    requires Run(ws, es) && k < |ws| && id !in ws[k].ops && |ws| == |es| + 1
    ensures !RevokeFailed(ws, es, k, id) && PutTombstone(id, Stored) !in es[..k]
  {
    hide Run, Enabled, Apply, FailsRevoke;
    if k > 0 {
      StepAt(ws, es, k - 1);
      OthersKeep(ws[k - 1], es[k - 1]);
      RevokeNotBegun(ws, es, k - 1, id);
      RevokeAbsent(ws[k - 1], es[k - 1], id);
      RevokeFailedSplit(ws, es, k, id);
      assert es[..k] == es[..k - 1] + [es[k - 1]];
    }
  }

  /** A revoke reports failure exactly when one of these steps failed it, and success exactly when the
      cache confirmed its tombstone, which it was asked for only after the durable write. */
  lemma {:induction false} RevokeReportsExactly(ws: seq<World>, es: seq<Event>, k: nat, id: nat)
    requires Run(ws, es) && k < |ws| && id in ws[k].ops && |ws| == |es| + 1
    ensures Failing(ws[k].ops[id]) <==> RevokeFailed(ws, es, k, id)
    ensures Succeeding(ws[k].ops[id]) <==> PutTombstone(id, Stored) in es[..k]
    ensures PastWrite(ws[k].ops[id]) ==> DurableRevoke(id, true) in es[..k]
  {
    hide Run, Enabled, Apply, FailsRevoke, QueueAccounted, RepliesAccounted, Occupied, Failing, Succeeding, PastWrite;
    NoOpsAtStart(ws, es);
    if k > 0 {
      StepAt(ws, es, k - 1);
      AccountedRun(ws, es, k - 1);
      RevokeStep(ws[k - 1], es[k - 1], id);
      if id in ws[k - 1].ops {
        RevokeReportsExactly(ws, es, k - 1, id);
      } else {
        RevokeNotBegun(ws, es, k - 1, id);
      }
      RevokeFailedSplit(ws, es, k, id);
      assert es[..k] == es[..k - 1] + [es[k - 1]];
    }
  }

  // ---------- which store is asked, and whose copy wins ----------

  /** The find has gone on to the durable store. */
  predicate PastProbe(op: Op) {
    op.FindReading? || op.FindDelivering? || op.BackfillQueued? || op.BackfillRunning? || op.WinnerReading?
  }

  /** A confirmed entry of another was in the way of the find's copy, or the cache's reply was lost. */
  predicate Lost(e: Event, id: nat) { e.Backfill? && e.id == id && !e.answer.Stored? }

  lemma StagesSubject(w: World, e: Event, id: nat)
    requires Enabled(w, e) && Subject(w, e) == Some(id) && (e.Begin? <==> id in w.ops && Queued(w.ops[id]))
    ensures PastProbe(NextOp(w, e)) ==> (id in w.ops && PastProbe(w.ops[id])) || e == Probe(id, false)
    ensures NextOp(w, e).WinnerReading? ==> Lost(e, id)
    ensures e == Probe(id, true) ==> HasAnswer(NextOp(w, e))
  {
    hide Deserialize, Admits, Storable, Representable, WorkerFree;
  }

  /** The durable store is asked only by a find whose probe of the cache missed, and the winner is read
      only by one whose copy was not confirmed; a hit is an answer. */
  lemma {:induction false} DurableOnlyAfterMiss(ws: seq<World>, es: seq<Event>, k: nat, id: nat)
    requires Run(ws, es) && k < |ws| && id in ws[k].ops && |ws| == |es| + 1
    ensures PastProbe(ws[k].ops[id]) ==> Probe(id, false) in es[..k]
    ensures ws[k].ops[id].WinnerReading? ==> exists i :: 0 <= i < k && Lost(es[i], id)
    ensures k > 0 && es[k - 1] == Probe(id, true) ==> HasAnswer(ws[k].ops[id])
  {
    hide Run, Enabled, Apply, QueueAccounted, RepliesAccounted, Occupied, PastProbe;
    NoOpsAtStart(ws, es);
    if k > 0 {
      StepAt(ws, es, k - 1);
      AccountedRun(ws, es, k - 1);
      OthersKeep(ws[k - 1], es[k - 1]);
      assert es[..k] == es[..k - 1] + [es[k - 1]];
      StagesStep(ws[k - 1], es[k - 1], id);
      if id in ws[k - 1].ops { DurableOnlyAfterMiss(ws, es, k - 1, id); }
    }
  }

  lemma StagesStep(w: World, e: Event, id: nat)
    requires QueueAccounted(w) && Enabled(w, e) && id in Apply(w, e).ops
    ensures var op := Apply(w, e).ops[id];
            && (PastProbe(op) ==> (id in w.ops && PastProbe(w.ops[id])) || e == Probe(id, false))
            && (op.WinnerReading? ==> (id in w.ops && w.ops[id].WinnerReading?) || Lost(e, id))
            && (e == Probe(id, true) ==> HasAnswer(op))
  {
    OthersKeep(w, e);
    if Subject(w, e) == Some(id) {
      OnlyBeginDequeues(w, e, id);
      StagesSubject(w, e, id);
    }
  }

  /** The cache can confirm an inactive copy whatever it holds, and an active one exactly when it holds
      nothing under the token; either way it then reads as that copy. */
  lemma InactiveCopyWins(w: World, id: nat)
    requires WellFormed(w) && id in w.ops && w.ops[id].BackfillRunning?
    ensures var copy := w.ops[id].copy;
            && (Enabled(w, Backfill(id, Stored)) <==> copy.status == 0 || copy.token !in w.cache)
            && (Enabled(w, Backfill(id, Stored)) ==> CacheGet(Apply(w, Backfill(id, Stored)), copy.token) == Some(copy))
  {
    hide Serialize, Deserialize, Storable, Representable;
    CopyReadsBack(w, id);
  }

  // ---------- how long an entry lives ----------

  /** The step writes the token's entry or renews its lifetime. */
  predicate Renews(w: World, e: Event, token: string) {
    || (e.Backfill? && TookEffect(e.answer) && e.id in w.ops && w.ops[e.id].token == token)
    || Buries(w, e, token) || e == Refresh(token)
  }

  /** When the token's entry was last written or renewed. */
  ghost function LastRenewed(ws: seq<World>, es: seq<Event>, k: nat, token: string): int
    requires k < |ws| && k <= |es|
  {
    if k == 0 then if token in ws[0].cache then ws[0].cache[token].deadline - TTL else 0
    else if Renews(ws[k - 1], es[k - 1], token) then ws[k - 1].now
    else LastRenewed(ws, es, k - 1, token)
  }

  lemma DeadlineStep(w: World, e: Event, token: string)
    requires WellFormed(w) && Enabled(w, e) && token in Apply(w, e).cache
    ensures Renews(w, e, token) ==> Apply(w, e).cache[token].deadline == w.now + TTL
    ensures !Renews(w, e, token) ==> token in w.cache && Apply(w, e).cache[token].deadline == w.cache[token].deadline
  {
    hide Serialize;
    match e
    case Backfill(id, _) => assert CopyFits(w.ops[id]);
    case PutTombstone(_, _) =>
    case _ =>
  }

  /** An entry lives for one cache lifetime from when it was last written or read successfully. */
  lemma {:induction false} LivesFromLastUse(ws: seq<World>, es: seq<Event>, k: nat, token: string)
    requires Run(ws, es) && k < |ws| && |ws| == |es| + 1 && token in ws[k].cache
    ensures ws[k].cache[token].deadline == LastRenewed(ws, es, k, token) + TTL
    ensures k < |es| && es[k] == Expire(token) ==> LastRenewed(ws, es, k, token) + TTL <= ws[k].now
  {
    hide Run, Apply, WellFormed, Renews;
    if k < |es| { StepAt(ws, es, k); }
    if k > 0 {
      StepAt(ws, es, k - 1);
      WellFormedRun(ws, es, k - 1);
      DeadlineStep(ws[k - 1], es[k - 1], token);
      if !Renews(ws[k - 1], es[k - 1], token) { LivesFromLastUse(ws, es, k - 1, token); }
    }
  }
}
