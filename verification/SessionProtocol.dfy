/** The cached session store: find and revoke as the separately scheduled steps they are in the
    source, racing over the durable store, the cache and the bounded worker pool. A reply of the
    cache or the durable store, what is done with it, and the callback are steps of their own; a
    worker is taken from the begin of a task to its end, callbacks made inside it included. */
module SessionProtocol {
  import opened Wrappers
  import opened SessionTextCodec
  import TaskPool

  const TTL := 1800  // seconds

  datatype Entry = Entry(text: string, deadline: int)

  /** Where one find or revoke stands. A row read from the durable store carries its read time until
      its copy is in the cache; Delivering is between an answer of the durable store and the
      submission of the next stage, Answering between the last reply and the callback, which is
      made inside a task or, after a refusal, by the thread that submitted. */
  datatype Op =
    | FindQueued(token: string)
    | FindProbing(token: string)
    | FindReading(token: string)
    | FindDelivering(token: string, row: Option<Session>, readAt: int)
    | BackfillQueued(token: string, copy: Session, readAt: int)
    | BackfillRunning(token: string, copy: Session, readAt: int)
    | WinnerReading(token: string)
    | FindAnswering(token: string, found: Option<Session>, inTask: bool)
    | FindDone(token: string, found: Option<Session>)
    | RevokeWriting(token: string)
    | RevokeDelivering(token: string, written: bool)
    | TombstoneQueued(token: string)
    | TombstoneRunning(token: string)
    | RevokeAnswering(token: string, ok: bool, inTask: bool)
    | RevokeDone(token: string, ok: bool)

  /** ops keeps finished operations too; replies lists the operations whose callback was invoked. */
  datatype World = World(now: int, durable: map<string, Session>, cache: map<string, Entry>,
                         ops: map<nat, Op>, queue: seq<nat>, workers: nat, capacity: nat,
                         accepting: bool, replies: seq<nat>)

  /** What a cache write answers. A lost answer says nothing about whether the write happened. */
  datatype Answer = Stored | Refused | Lost(applied: bool)

  datatype Event =
    | StartFind(id: nat, token: string)
    | StartRevoke(id: nat, token: string)
    | Begin                                 // a free worker takes the oldest queued task
    | Probe(id: nat, hit: bool)
    | DurableRead(id: nat, ok: bool)
    | Backfill(id: nat, answer: Answer)
    | ReadWinner(id: nat, hit: bool)
    | DurableRevoke(id: nat, ok: bool)
    | PutTombstone(id: nat, answer: Answer)
    | Deliver(id: nat)                      // the durable answer reaches its callback, which submits
    | CallBack(id: nat)
    | Create(session: Session)
    | Tick(to: int)
    | Refresh(token: string)                // EXPIRE after a successful GET
    | Expire(token: string)
    | Shutdown

  // ---------- the cache ----------

  function CacheGet(w: World, token: string): Option<Session> {
    if token in w.cache then Deserialize(w.cache[token].text) else None
  }

  function Written(w: World, s: Session): map<string, Entry> {
    w.cache[s.token := Entry(Serialize(s), w.now + TTL)]
  }

  predicate PutAnswer(a: Answer) { !a.Refused? }

  predicate AddAnswer(w: World, token: string, a: Answer) {
    match a
    case Stored => token !in w.cache
    case Refused => token in w.cache
    case Lost(applied) => applied ==> token !in w.cache
  }

  predicate TookEffect(a: Answer) { a.Stored? || (a.Lost? && a.applied) }

  // ---------- the workers ----------

  /** The operation is inside one of its tasks and keeps a worker. */
  predicate InTask(op: Op) {
    || op.FindProbing? || op.BackfillRunning? || op.WinnerReading? || op.TombstoneRunning?
    || ((op.FindAnswering? || op.RevokeAnswering?) && op.inTask)
  }

  /** The operations that keep a worker each. */
  function Busy(ops: map<nat, Op>): set<nat> { set id | id in ops && InTask(ops[id]) }

  predicate WorkerFree(w: World) { |Busy(w.ops)| < w.workers }

  // ---------- steps ----------

  predicate At(w: World, id: nat) { id in w.ops }

  predicate Enabled(w: World, e: Event) {
    match e
    case StartFind(id, _) => id !in w.ops
    case StartRevoke(id, _) => id !in w.ops
    case Begin => w.queue != [] && w.queue[0] in w.ops && WorkerFree(w)
    case Probe(id, hit) =>
      At(w, id) && w.ops[id].FindProbing? && (hit ==> CacheGet(w, w.ops[id].token).Some?)
    case DurableRead(id, _) => At(w, id) && w.ops[id].FindReading?
    case Backfill(id, a) =>
      && At(w, id) && w.ops[id].BackfillRunning?
      && (if w.ops[id].copy.status == 0 then PutAnswer(a) else AddAnswer(w, w.ops[id].copy.token, a))
    case ReadWinner(id, hit) =>
      At(w, id) && w.ops[id].WinnerReading? && (hit ==> CacheGet(w, w.ops[id].token).Some?)
    case DurableRevoke(id, _) => At(w, id) && w.ops[id].RevokeWriting?
    case PutTombstone(id, a) => At(w, id) && w.ops[id].TombstoneRunning? && PutAnswer(a)
    case Deliver(id) => At(w, id) && (w.ops[id].FindDelivering? || w.ops[id].RevokeDelivering?)
    case CallBack(id) => At(w, id) && (w.ops[id].FindAnswering? || w.ops[id].RevokeAnswering?)
    case Create(s) =>
      && Storable(s) && Representable(s) && s.token != "" && s.token !in w.durable
      && forall id :: id in w.ops ==> w.ops[id].token != s.token   // tokens are drawn fresh
    case Tick(t) => w.now <= t
    case Refresh(token) => token in w.cache
    case Expire(token) => token in w.cache && w.cache[token].deadline <= w.now
    case Shutdown => true
  }

  predicate Admits(w: World) { TaskPool.Admits(w.accepting, w.workers, |w.queue|, w.capacity) }

  function Started(op: Op): Op {
    match op
    case FindQueued(t) => FindProbing(t)
    case BackfillQueued(t, c, r) => BackfillRunning(t, c, r)
    case TombstoneQueued(t) => TombstoneRunning(t)
    case _ => op
  }

  predicate Queued(op: Op) { op.FindQueued? || op.BackfillQueued? || op.TombstoneQueued? }

  predicate Done(op: Op) { op.FindDone? || op.RevokeDone? }

  /** The operation a step is about; None for the steps of the environment. */
  function Subject(w: World, e: Event): Option<nat>
    requires Enabled(w, e)
  {
    match e
    case Begin => Some(w.queue[0])
    case Create(_) => None
    case Tick(_) => None
    case Refresh(_) => None
    case Expire(_) => None
    case Shutdown => None
    case _ => Some(e.id)
  }

  /** Where the step leaves its subject. A stage that the pool refuses ends the operation. */
  function NextOp(w: World, e: Event): Op
    requires Enabled(w, e) && Subject(w, e).Some?
  {
    match e
    case StartFind(_, t) => if t != "" && Admits(w) then FindQueued(t) else FindAnswering(t, None, false)
    case StartRevoke(_, t) => if t == "" then RevokeAnswering(t, false, false) else RevokeWriting(t)
    case Begin => Started(w.ops[w.queue[0]])
    case Probe(id, hit) =>
      var t := w.ops[id].token;
      if hit then FindAnswering(t, CacheGet(w, t), true) else FindReading(t)
    case DurableRead(id, ok) =>
      var t := w.ops[id].token;
      FindDelivering(t, if ok && t in w.durable then Some(w.durable[t]) else None, w.now)
    case Backfill(id, a) =>
      // An inactive copy overwrites; any other is only added, and a loser reads the winner.
      var op := w.ops[id];
      if a.Stored? then FindAnswering(op.token, Some(op.copy), true)
      else if op.copy.status == 0 then FindAnswering(op.token, None, true)
      else WinnerReading(op.token)
    case ReadWinner(id, hit) =>
      var t := w.ops[id].token;
      FindAnswering(t, if hit then CacheGet(w, t) else None, true)
    case DurableRevoke(id, ok) => RevokeDelivering(w.ops[id].token, ok)
    case PutTombstone(id, a) => RevokeAnswering(w.ops[id].token, a.Stored?, true)
    case Deliver(id) => Delivered(w, w.ops[id])
    case CallBack(id) => Answered(w.ops[id])
  }

  function Delivered(w: World, op: Op): Op {
    match op
    case FindDelivering(t, Some(copy), r) =>
      if Admits(w) then BackfillQueued(t, copy, r) else FindAnswering(t, None, false)
    case FindDelivering(t, None, _) => FindAnswering(t, None, false)
    case RevokeDelivering(t, written) =>
      if written && Admits(w) then TombstoneQueued(t) else RevokeAnswering(t, false, false)
    case _ => op
  }

  function Answered(op: Op): Op {
    match op
    case FindAnswering(t, found, _) => FindDone(t, found)
    case RevokeAnswering(t, ok, _) => RevokeDone(t, ok)
    case _ => op
  }

  /** UPDATE ... SET scene_id = '', status = 0 WHERE session_token = ? AND status = 1. */
  function RevokedRow(d: map<string, Session>, t: string): map<string, Session> {
    if t in d && d[t].status == 1 then d[t := d[t].(sceneId := "", status := 0)] else d
  }

  function NextRows(w: World, e: Event): map<string, Session>
    requires Enabled(w, e)
  {
    match e
    case DurableRevoke(id, ok) => if ok then RevokedRow(w.durable, w.ops[id].token) else w.durable
    case Create(s) => w.durable[s.token := s]
    case _ => w.durable
  }

  function NextCache(w: World, e: Event): map<string, Entry>
    requires Enabled(w, e)
  {
    match e
    case Backfill(id, a) => if TookEffect(a) then Written(w, w.ops[id].copy) else w.cache
    case PutTombstone(id, a) => if TookEffect(a) then Written(w, Tombstone(w.ops[id].token)) else w.cache
    case Refresh(t) => w.cache[t := w.cache[t].(deadline := w.now + TTL)]
    case Expire(t) => w.cache - {t}
    case _ => w.cache
  }

  function NextQueue(w: World, e: Event): seq<nat>
    requires Enabled(w, e)
  {
    if e.Begin? then w.queue[1..]
    else if Subject(w, e).Some? && Queued(NextOp(w, e)) then w.queue + [Subject(w, e).value]
    else w.queue
  }

  function Apply(w: World, e: Event): World
    requires Enabled(w, e)
  {
    World(if e.Tick? then e.to else w.now,
          NextRows(w, e),
          NextCache(w, e),
          if Subject(w, e).Some? then w.ops[Subject(w, e).value := NextOp(w, e)] else w.ops,
          NextQueue(w, e),
          w.workers, w.capacity, w.accepting && !e.Shutdown?,
          if Subject(w, e).Some? && Done(NextOp(w, e)) then w.replies + [Subject(w, e).value] else w.replies)
  }

  // ---------- runs ----------

  predicate RowsStorable(d: map<string, Session>) {
    forall t :: t in d ==> d[t].token == t && Storable(d[t]) && Representable(d[t])
  }

  predicate Initial(w: World) {
    w.ops == map[] && w.queue == [] && w.replies == [] && RowsStorable(w.durable)
  }

  predicate Run(ws: seq<World>, es: seq<Event>) {
    && |ws| == |es| + 1 && Initial(ws[0])
    && forall i :: 0 <= i < |es| ==> Enabled(ws[i], es[i]) && ws[i + 1] == Apply(ws[i], es[i])
  }

  /** A find that carries a row it has read. */
  predicate Carrying(op: Op) { op.BackfillQueued? || op.BackfillRunning? || (op.FindDelivering? && op.row.Some?) }

  function CopyOf(op: Op): Session
    requires Carrying(op)
  {
    if op.FindDelivering? then op.row.value else op.copy
  }

  /** The pool can still take a task, at once or after it has handed out others. */
  predicate Open(w: World) { w.accepting && w.workers != 0 && w.capacity > 0 }

  /** A find still carries an active copy of the token's session that can reach the cache. */
  predicate Holds(w: World, id: nat, token: string) {
    && id in w.ops && w.ops[id].token == token && Carrying(w.ops[id]) && CopyOf(w.ops[id]).status == 1
    && (w.ops[id].FindDelivering? ==> Open(w))
  }

  predicate StaleHolder(w: World, token: string) { exists id :: id in w.ops && Holds(w, id, token) }

  /** The success of a revoke is settled, its callback about to be invoked or invoked. */
  predicate Confirmed(op: Op, token: string) {
    (op.RevokeAnswering? || op.RevokeDone?) && op.token == token && op.ok
  }

  predicate Revoked(w: World, token: string) { exists id :: id in w.ops && Confirmed(w.ops[id], token) }

  /** A revoke of the token has reported success. */
  predicate Reported(w: World, token: string) { exists id :: id in w.ops && w.ops[id] == RevokeDone(token, true) }

  /** The step is no expiry of a revoked token's entry under a find that holds an older copy. */
  predicate Guarded(w: World, e: Event) {
    e.Expire? && Revoked(w, e.token) ==> !StaleHolder(w, e.token)
  }

  /** A find is about to call back with an active session of the token. */
  predicate ActiveAnswer(op: Op, token: string) {
    op.FindAnswering? && op.token == token && op.found.Some? && op.found.value.status == 1
  }

  /** The step gets a find an active session of the token to answer with. */
  predicate ObtainsActive(w: World, e: Event, token: string)
    requires Enabled(w, e)
  {
    exists id :: id in Apply(w, e).ops && Obtains(w, Apply(w, e), id, token)
  }

  predicate Obtains(w: World, v: World, id: nat, token: string) {
    id in v.ops && ActiveAnswer(v.ops[id], token) && (id in w.ops ==> w.ops[id] != v.ops[id])
  }

  /** The step invokes a find's callback with an active session of the token. */
  predicate AnswersActive(w: World, e: Event, token: string) {
    e.CallBack? && e.id in w.ops && ActiveAnswer(w.ops[e.id], token)
  }

  // ---------- revocation is final ----------

  predicate ActiveText(text: string) {
    Deserialize(text).Some? && Deserialize(text).value.status == 1
  }

  /** The durable row of a token whose revoke got past the durable write is not active. */
  predicate PastWrite(op: Op) {
    || (op.RevokeDelivering? && op.written) || op.TombstoneQueued? || op.TombstoneRunning?
    || (op.RevokeAnswering? && op.ok) || (op.RevokeDone? && op.ok)
  }

  predicate CopyFits(op: Op)
    requires Carrying(op)
  {
    CopyOf(op).token == op.token && Storable(CopyOf(op)) && Representable(CopyOf(op))
  }

  predicate WellFormed(w: World) {
    && RowsStorable(w.durable)
    && (forall id :: id in w.ops && PastWrite(w.ops[id]) ==>
          w.ops[id].token in w.durable ==> w.durable[w.ops[id].token].status != 1)
    && (forall id :: id in w.ops && Carrying(w.ops[id]) ==> CopyFits(w.ops[id]))
  }

  /** What holds of a token forever after its revoke reported success. */
  predicate Sealed(w: World, token: string) {
    && (token in w.durable ==> w.durable[token].status != 1)
    && (token in w.cache ==> !ActiveText(w.cache[token].text))
    && (StaleHolder(w, token) ==> token in w.cache)
    && Revoked(w, token)
  }

  /** No step touches any operation but its subject. */
  lemma OthersKeep(w: World, e: Event)
    requires Enabled(w, e)
    ensures w.ops.Keys <= Apply(w, e).ops.Keys
    ensures forall id :: id in Apply(w, e).ops && Subject(w, e) != Some(id) ==>
              id in w.ops && Apply(w, e).ops[id] == w.ops[id]
  {
  }

  /** Where a copy in flight comes from. */
  lemma CopyOrigin(w: World, e: Event, id: nat)
    requires Enabled(w, e) && Subject(w, e) == Some(id) && Carrying(Apply(w, e).ops[id])
    ensures id in w.ops && w.ops[id].token == Apply(w, e).ops[id].token
    ensures var op := Apply(w, e).ops[id];
            || (Carrying(w.ops[id]) && CopyOf(w.ops[id]) == CopyOf(op) && w.ops[id].readAt == op.readAt
                && (w.ops[id].FindDelivering? && !op.FindDelivering? ==> Admits(w)))
            || (op.token in w.durable && CopyOf(op) == w.durable[op.token] && op.readAt == w.now)
  {
  }

  /** Where an operation beyond its durable write comes from. */
  lemma WriteOrigin(w: World, e: Event, id: nat)
    requires Enabled(w, e) && Subject(w, e) == Some(id) && PastWrite(Apply(w, e).ops[id])
    ensures id in w.ops && w.ops[id].token == Apply(w, e).ops[id].token
    ensures PastWrite(w.ops[id]) || Apply(w, e).durable == RevokedRow(w.durable, w.ops[id].token)
  {
    match e
    case Begin =>
    case DurableRevoke(_, _) =>
    case PutTombstone(_, _) =>
    case Deliver(_) =>
    case CallBack(_) =>
    case _ =>
  }

  /** Rows change only by a revoke or by the creation of a session under a fresh token. */
  lemma RowOrigin(w: World, e: Event)
    requires Enabled(w, e)
    ensures || Apply(w, e).durable == w.durable
            || (e.DurableRevoke? && Apply(w, e).durable == RevokedRow(w.durable, w.ops[e.id].token))
            || (e.Create? && Apply(w, e).durable == w.durable[e.session.token := e.session])
  {
  }

  lemma WellFormedStep(w: World, e: Event)
    requires WellFormed(w) && Enabled(w, e)
    ensures WellFormed(Apply(w, e))
  {
    var v := Apply(w, e);
    RowOrigin(w, e);
    OthersKeep(w, e);
    forall id | id in v.ops && PastWrite(v.ops[id])
      ensures v.ops[id].token in v.durable ==> v.durable[v.ops[id].token].status != 1
    {
      if Subject(w, e) == Some(id) { WriteOrigin(w, e, id); }
    }
    forall id | id in v.ops && Carrying(v.ops[id])
      ensures CopyFits(v.ops[id])
    {
      if Subject(w, e) == Some(id) { CopyOrigin(w, e, id); }
    }
  }

  /** Once reported, success stays on record. */
  lemma RevokedStep(w: World, e: Event, token: string)
    requires Revoked(w, token) && Enabled(w, e)
    ensures Revoked(Apply(w, e), token)
  {
    var id :| id in w.ops && Confirmed(w.ops[id], token);
    assert Confirmed(Apply(w, e).ops[id], token);
  }

  lemma HolderBefore(w: World, e: Event, token: string)
    requires WellFormed(w) && Enabled(w, e)
    requires token in w.durable ==> w.durable[token].status != 1
    requires StaleHolder(Apply(w, e), token)
    ensures StaleHolder(w, token)
  {
    var id :| id in Apply(w, e).ops && Holds(Apply(w, e), id, token);
    OthersKeep(w, e);
    if Subject(w, e) == Some(id) { CopyOrigin(w, e, id); }
    assert Holds(w, id, token);
  }

  lemma InactiveText(s: Session)
    requires Storable(s) && Representable(s) && s.status != 1
    ensures !ActiveText(Serialize(s))
  {
    RoundTripExactly(s);
  }

  /** The step at which success is reported seals the token. */
  lemma SealingStep(w: World, e: Event, token: string)
    requires WellFormed(w) && Enabled(w, e)
    requires !Revoked(w, token) && Revoked(Apply(w, e), token)
    ensures Sealed(Apply(w, e), token)
  {
    var v := Apply(w, e);
    var id :| id in v.ops && Confirmed(v.ops[id], token);
    assert e.PutTombstone? && e.id == id;
    TombstoneNeverActive(token);
  }

  lemma SealedCache(w: World, e: Event, token: string)
    requires WellFormed(w) && Sealed(w, token) && Enabled(w, e) && Guarded(w, e)
    ensures token in Apply(w, e).cache ==> !ActiveText(Apply(w, e).cache[token].text)
    ensures token in w.cache ==> token in Apply(w, e).cache || (e == Expire(token) && !StaleHolder(w, token))
  {
    hide Serialize, Deserialize, Storable, Representable;
    match e
    case Backfill(id, a) =>
      var op := w.ops[id];
      if op.token == token {
        if op.copy.status == 1 { assert Holds(w, id, token); } else { InactiveText(op.copy); }
      }
    case PutTombstone(id, a) =>
      TombstoneNeverActive(token);
    case _ =>
  }

  lemma SealedStep(w: World, e: Event, token: string)
    requires WellFormed(w) && Sealed(w, token) && Enabled(w, e) && Guarded(w, e)
    ensures Sealed(Apply(w, e), token)
  {
    var v := Apply(w, e);
    RevokedStep(w, e, token);
    SealedCache(w, e, token);
    if StaleHolder(v, token) { HolderBefore(w, e, token); }
    RowOrigin(w, e);
    var id :| id in w.ops && Confirmed(w.ops[id], token);
    assert w.ops[id].token == token;
  }

  lemma SealedObtainsNothing(w: World, e: Event, token: string)
    requires WellFormed(w) && Sealed(w, token) && Enabled(w, e)
    ensures !ObtainsActive(w, e, token)
  {
    var v := Apply(w, e);
    forall id | id in v.ops
      ensures !Obtains(w, v, id, token)
    {
      if e.Backfill? && e.id == id && w.ops[id].token == token {
        assert w.ops[id].copy.status == 1 ==> Holds(w, id, token);
      }
    }
  }

  lemma {:induction false} WellFormedRun(ws: seq<World>, es: seq<Event>, k: nat)
    requires Run(ws, es) && k < |ws|
    ensures WellFormed(ws[k])
  {
    if k > 0 {
      WellFormedRun(ws, es, k - 1);
      WellFormedStep(ws[k - 1], es[k - 1]);
    }
  }

  lemma {:induction false} SealedRun(ws: seq<World>, es: seq<Event>, token: string, k: nat)
    requires Run(ws, es) && k < |ws| && Revoked(ws[k], token)
    requires forall i :: 0 <= i < k ==> Guarded(ws[i], es[i])
    ensures Sealed(ws[k], token)
  {
    WellFormedRun(ws, es, k);
    if k > 0 {
      WellFormedRun(ws, es, k - 1);
      if Revoked(ws[k - 1], token) {
        SealedRun(ws, es, token, k - 1);
        SealedStep(ws[k - 1], es[k - 1], token);
      } else {
        SealingStep(ws[k - 1], es[k - 1], token);
      }
    }
  }

  lemma {:induction false} RevokedStays(ws: seq<World>, es: seq<Event>, token: string, i: nat, j: nat)
    requires Run(ws, es) && i <= j < |ws| && Revoked(ws[i], token)
    ensures Revoked(ws[j], token)
  {
    if i < j {
      RevokedStays(ws, es, token, i, j - 1);
      RevokedStep(ws[j - 1], es[j - 1], token);
    }
  }

  /** Safety of revocation: in every interleaving of any finds and revokes, once the success of a
      revoke is settled no cache step gets any find an active session of the token, as long as the
      tombstone does not expire under a find that still holds an older copy. */
  lemma RevokeIsFinal(ws: seq<World>, es: seq<Event>, token: string, i: nat, j: nat)
    requires Run(ws, es) && i <= j < |es| && Revoked(ws[i], token)
    requires forall k :: 0 <= k < j ==> Guarded(ws[k], es[k])
    ensures !ObtainsActive(ws[j], es[j], token)
  {
    RevokedStays(ws, es, token, i, j);
    SealedRun(ws, es, token, j);
    WellFormedRun(ws, es, j);
    SealedObtainsNothing(ws[j], es[j], token);
  }

  /** A find that is to answer with an active session after a settled revoke was to do so before. */
  lemma {:induction false} AnswerWasPending(ws: seq<World>, es: seq<Event>, token: string, i: nat, j: nat, id: nat)
    requires Run(ws, es) && i <= j < |ws| && Revoked(ws[i], token) && id in ws[j].ops
             && ActiveAnswer(ws[j].ops[id], token)
    requires forall k :: 0 <= k < j ==> Guarded(ws[k], es[k])
    ensures id in ws[i].ops && ws[i].ops[id] == ws[j].ops[id]
    decreases j
  {
    hide Run, Guarded, Apply, Enabled, ObtainsActive, Revoked;
    RunLength(ws, es);
    if i < j {
      RevokeIsFinal(ws, es, token, i, j - 1);
      StepAt(ws, es, j - 1);
      NotObtained(ws[j - 1], es[j - 1], token, id);
      AnswerWasPending(ws, es, token, i, j - 1, id);
    }
  }

  lemma NotObtained(w: World, e: Event, token: string, id: nat)
    requires Enabled(w, e) && !ObtainsActive(w, e, token)
    requires id in Apply(w, e).ops && ActiveAnswer(Apply(w, e).ops[id], token)
    ensures id in w.ops && w.ops[id] == Apply(w, e).ops[id]
  {
    hide Enabled, Apply;
    assert !Obtains(w, Apply(w, e), id, token);
  }

  lemma RunLength(ws: seq<World>, es: seq<Event>)
    requires Run(ws, es)
    ensures |ws| == |es| + 1
  {
    hide Apply, Enabled;
  }

  /** Callbacks exactly: after a revoke has reported success, a find calls back with an active session
      only if it already had that session to answer with when the success was settled; and every
      find that had one can still do so. */
  lemma LateAnswersExactly(ws: seq<World>, es: seq<Event>, token: string, i: nat, j: nat, id: nat)
    requires Run(ws, es) && i <= j < |ws| && Revoked(ws[i], token) && id in ws[j].ops
    requires forall k :: 0 <= k < j ==> Guarded(ws[k], es[k])
    ensures Enabled(ws[j], CallBack(id)) && AnswersActive(ws[j], CallBack(id), token) <==>
            && id in ws[i].ops && ActiveAnswer(ws[i].ops[id], token) && !ws[j].ops[id].FindDone?
  {
    if ActiveAnswer(ws[j].ops[id], token) { AnswerWasPending(ws, es, token, i, j, id); }
    if id in ws[i].ops && ActiveAnswer(ws[i].ops[id], token) { AnswerStays(ws, es, i, j, id); }
  }

  lemma StepAt(ws: seq<World>, es: seq<Event>, i: nat)
    requires Run(ws, es) && i < |es|
    ensures |ws| == |es| + 1 && Enabled(ws[i], es[i]) && ws[i + 1] == Apply(ws[i], es[i])
  {
    hide Apply, Enabled;
  }

  /** Only the callback ends an answering find. */
  lemma {:induction false} AnswerStays(ws: seq<World>, es: seq<Event>, i: nat, j: nat, id: nat)
    requires Run(ws, es) && |ws| == |es| + 1 && i <= j < |ws| && id in ws[i].ops && ws[i].ops[id].FindAnswering?
    ensures id in ws[j].ops && (ws[j].ops[id] == ws[i].ops[id] || ws[j].ops[id].FindDone?)
    decreases j
  {
    hide Run, Apply, Enabled, QueueAccounted, RepliesAccounted;
    if i < j {
      AnswerStays(ws, es, i, j - 1, id);
      AccountedRun(ws, es, j - 1);
      StepAt(ws, es, j - 1);
      AnswerStep(ws[j - 1], es[j - 1], id);
    }
  }

  lemma AnswerStep(w: World, e: Event, id: nat)
    requires QueueAccounted(w) && Enabled(w, e) && id in w.ops && (w.ops[id].FindAnswering? || w.ops[id].FindDone?)
    ensures id in Apply(w, e).ops && (Apply(w, e).ops[id] == w.ops[id] || Apply(w, e).ops[id].FindDone?)
  {
    hide NextRows, NextCache, CacheGet, QueueAccounted, Admits;
    StepFields(w, e);
    if Subject(w, e) == Some(id) {
      OnlyBeginDequeues(w, e, id);
      AnsweringMoves(w, e, id);
    }
  }

  lemma AnsweringMoves(w: World, e: Event, id: nat)
    requires Enabled(w, e) && Subject(w, e) == Some(id) && id in w.ops && w.ops[id].FindAnswering? && !e.Begin?
    ensures NextOp(w, e).FindDone?
  {
    hide CacheGet, Admits, PutAnswer, AddAnswer;
  }

  // ---------- a latency bound that implies the proviso ----------

  /** Every find has its copy in the cache, or dropped, within one cache lifetime of its durable read. */
  predicate Prompt(w: World) {
    forall id :: id in w.ops && Carrying(w.ops[id]) ==>
      w.now < w.ops[id].readAt + TTL
  }

  /** The entry of a revoked token outlives the reads made before it was written. */
  predicate Outlives(w: World, token: string) {
    && (forall id :: id in w.ops && Carrying(w.ops[id]) ==> w.ops[id].readAt <= w.now)
    && (Revoked(w, token) && token in w.cache ==>
        forall id :: id in w.ops && Holds(w, id, token) ==> w.ops[id].readAt + TTL <= w.cache[token].deadline)
  }

  lemma OutlivesStep(w: World, e: Event, token: string)
    requires WellFormed(w) && (Revoked(w, token) ==> Sealed(w, token))
    requires Enabled(w, e) && Outlives(w, token)
    ensures Outlives(Apply(w, e), token)
  {
    var v := Apply(w, e);
    OthersKeep(w, e);
    forall id | id in v.ops && Carrying(v.ops[id])
      ensures v.ops[id].readAt <= v.now
      ensures Holds(v, id, token) && Revoked(v, token) && token in v.cache ==>
              v.ops[id].readAt + TTL <= v.cache[token].deadline
    {
      if Subject(w, e) == Some(id) { CopyOrigin(w, e, id); }
      if Revoked(v, token) && token in v.cache && Holds(v, id, token) {
        OutlivingEntry(w, e, token, id);
      }
    }
  }

  lemma OutlivingEntry(w: World, e: Event, token: string, id: nat)
    requires WellFormed(w) && (Revoked(w, token) ==> Sealed(w, token))
    requires Enabled(w, e) && Outlives(w, token)
    requires Revoked(Apply(w, e), token) && token in Apply(w, e).cache && Holds(Apply(w, e), id, token)
    ensures Apply(w, e).ops[id].readAt + TTL <= Apply(w, e).cache[token].deadline
  {
    var v := Apply(w, e);
    OthersKeep(w, e);
    if Subject(w, e) == Some(id) { CopyOrigin(w, e, id); }
    if !Revoked(w, token) {
      var r :| r in v.ops && Confirmed(v.ops[r], token);
      assert e.PutTombstone? && e.id == r;
    }
    assert Holds(w, id, token);
    EntryDeadline(w, e, token);
  }

  /** An entry keeps its deadline or gets a full lifetime. */
  lemma EntryDeadline(w: World, e: Event, token: string)
    requires WellFormed(w) && Enabled(w, e) && token in Apply(w, e).cache
    ensures var d := Apply(w, e).cache[token].deadline;
            (token in w.cache && d == w.cache[token].deadline) || d == w.now + TTL
    ensures e.PutTombstone? && e.id in w.ops && w.ops[e.id].token == token && e.answer.Stored? ==>
              Apply(w, e).cache[token].deadline == w.now + TTL
  {
    match e
    case Backfill(_, _) =>
    case PutTombstone(_, _) =>
    case _ =>
  }

  lemma OutlivesAfter(ws: seq<World>, es: seq<Event>, token: string, k: nat)
    requires Run(ws, es) && 0 < k < |ws| && Outlives(ws[k - 1], token)
    requires forall i :: 0 <= i < k - 1 ==> Guarded(ws[i], es[i])
    ensures Outlives(ws[k], token)
  {
    WellFormedRun(ws, es, k - 1);
    if Revoked(ws[k - 1], token) { SealedRun(ws, es, token, k - 1); }
    OutlivesStep(ws[k - 1], es[k - 1], token);
  }

  /** With every backfill done within one cache lifetime of its durable read, the proviso of
      RevokeIsFinal holds throughout the run. */
  lemma {:induction false} PromptRunIsGuarded(ws: seq<World>, es: seq<Event>, k: nat)
    requires Run(ws, es) && k < |ws|
    requires forall i :: 0 <= i < |ws| ==> Prompt(ws[i])
    ensures forall token :: Outlives(ws[k], token)
    ensures forall i :: 0 <= i < k ==> Guarded(ws[i], es[i])
  {
    if k > 0 {
      PromptRunIsGuarded(ws, es, k - 1);
      forall token
        ensures Outlives(ws[k], token)
      {
        assert Outlives(ws[k - 1], token);
        OutlivesAfter(ws, es, token, k);
      }
      PromptGuards(ws[k - 1], es[k - 1]);
    }
  }

  lemma PromptGuards(w: World, e: Event)
    requires Enabled(w, e) && Prompt(w) && forall token :: Outlives(w, token)
    ensures Guarded(w, e)
  {
    if e.Expire? {
      assert Outlives(w, e.token);
    }
  }

  // ---------- every callback exactly once ----------

  /** Stages left. */
  function Rank(op: Op): nat {
    match op
    case FindQueued(_) => 8
    case FindProbing(_) => 7
    case FindReading(_) => 6
    case FindDelivering(_, _, _) => 5
    case BackfillQueued(_, _, _) => 4
    case BackfillRunning(_, _, _) => 3
    case WinnerReading(_) => 2
    case FindAnswering(_, _, _) => 1
    case FindDone(_, _) => 0
    case RevokeWriting(_) => 5
    case RevokeDelivering(_, _) => 4
    case TombstoneQueued(_) => 3
    case TombstoneRunning(_) => 2
    case RevokeAnswering(_, _, _) => 1
    case RevokeDone(_, _) => 0
  }

  /** A task is queued once for each operation that waits for a worker. */
  ghost predicate QueueAccounted(w: World) {
    forall id :: multiset(w.queue)[id] == if id in w.ops && Queued(w.ops[id]) then 1 else 0
  }

  /** A callback was invoked once for each operation that is over. */
  ghost predicate RepliesAccounted(w: World) {
    forall id :: multiset(w.replies)[id] == if id in w.ops && Done(w.ops[id]) then 1 else 0
  }

  lemma HeadIsQueued(w: World)
    requires QueueAccounted(w) && w.queue != []
    ensures w.queue[0] in w.ops && Queued(w.ops[w.queue[0]])
  {
    assert multiset(w.queue)[w.queue[0]] > 0;
  }

  lemma OnlyBeginDequeues(w: World, e: Event, id: nat)
    requires QueueAccounted(w) && Enabled(w, e) && Subject(w, e) == Some(id)
    ensures e.Begin? <==> id in w.ops && Queued(w.ops[id])
    ensures id in w.ops ==> Rank(NextOp(w, e)) < Rank(w.ops[id])
    ensures id in w.ops ==> !Done(w.ops[id])
    ensures e.Begin? ==> !Queued(NextOp(w, e)) && !Done(NextOp(w, e))
  {
    hide QueueAccounted, CacheGet, Admits, PutAnswer, AddAnswer, Storable, Representable;
    if e.Begin? { HeadIsQueued(w); }
  }

  /** What a step does to operations, queue and replies. */
  lemma StepFields(w: World, e: Event)
    requires Enabled(w, e)
    ensures var v := Apply(w, e);
            match Subject(w, e)
            case None => v.ops == w.ops && v.queue == w.queue && v.replies == w.replies
            case Some(id) =>
              && v.ops == w.ops[id := NextOp(w, e)]
              && v.queue == (if e.Begin? then w.queue[1..]
                             else if Queued(NextOp(w, e)) then w.queue + [id] else w.queue)
              && v.replies == if Done(NextOp(w, e)) then w.replies + [id] else w.replies
    ensures e.Begin? ==> w.queue != [] && Subject(w, e) == Some(w.queue[0])
  {
    hide NextOp, NextRows, NextCache;
  }

  lemma CountOneMore(s: seq<nat>, x: nat, y: nat)
    ensures multiset(s + [x])[y] == multiset(s)[y] + if x == y then 1 else 0
  {
  }

  lemma CountOneLess(s: seq<nat>, y: nat)
    requires s != []
    ensures multiset(s)[y] == multiset(s[1..])[y] + if s[0] == y then 1 else 0
  {
    assert s == [s[0]] + s[1..];
  }

  /** How a queue changes: its head taken, or its subject appended, or not at all. */
  lemma QueueDelta(q: seq<nat>, begin: bool, joins: bool, subject: nat, id: nat)
    requires begin ==> q != [] && q[0] == subject
    ensures var r := if begin then q[1..] else if joins then q + [subject] else q;
            multiset(r)[id] ==
            multiset(q)[id] + if id != subject then 0 else if begin then -1 else if joins then 1 else 0
  {
    if begin { CountOneLess(q, id); } else { CountOneMore(q, subject, id); }
  }

  lemma QueueStep(w: World, e: Event)
    requires QueueAccounted(w) && Enabled(w, e)
    ensures QueueAccounted(Apply(w, e))
  {
    hide NextOp, Apply, Enabled, Rank, Queued, Subject, Done;
    StepFields(w, e);
    var v := Apply(w, e);
    if Subject(w, e).Some? {
      var subject, op := Subject(w, e).value, NextOp(w, e);
      OnlyBeginDequeues(w, e, subject);
      forall id
        ensures multiset(v.queue)[id] == if id in v.ops && Queued(v.ops[id]) then 1 else 0
      {
        assert multiset(w.queue)[id] == if id in w.ops && Queued(w.ops[id]) then 1 else 0;
        QueueDelta(w.queue, e.Begin?, Queued(op), subject, id);
      }
    }
  }

  lemma RepliesStep(w: World, e: Event)
    requires QueueAccounted(w) && RepliesAccounted(w) && Enabled(w, e)
    ensures RepliesAccounted(Apply(w, e))
  {
    hide NextOp, Apply, Enabled, Rank, Queued, Subject, Done, QueueAccounted;
    StepFields(w, e);
    var v := Apply(w, e);
    if Subject(w, e).Some? {
      var subject, op := Subject(w, e).value, NextOp(w, e);
      OnlyBeginDequeues(w, e, subject);
      forall id
        ensures multiset(v.replies)[id] == if id in v.ops && Done(v.ops[id]) then 1 else 0
      {
        assert multiset(w.replies)[id] == if id in w.ops && Done(w.ops[id]) then 1 else 0;
        CountOneMore(w.replies, subject, id);
      }
    }
  }

  // ---------- workers in use ----------

  /** No more tasks are in progress than there are workers, and only a pool with workers has a queue. */
  predicate Occupied(w: World) { |Busy(w.ops)| <= w.workers && (w.queue != [] ==> w.workers > 0) }

  lemma BusyAfter(ops: map<nat, Op>, id: nat, op: Op)
    ensures Busy(ops[id := op]) == if InTask(op) then Busy(ops) + {id} else Busy(ops) - {id}
  {
  }

  /** Only the begin of a task takes a worker, and only an admitted task joins the queue. */
  lemma OnlyBeginOccupies(w: World, e: Event, id: nat)
    requires Enabled(w, e) && Subject(w, e) == Some(id)
    ensures InTask(NextOp(w, e)) ==> e.Begin? || (id in w.ops && InTask(w.ops[id]))
    ensures Queued(NextOp(w, e)) && !e.Begin? ==> w.workers > 0
  {
    hide CacheGet, PutAnswer, AddAnswer, Storable, Representable, WorkerFree;
  }

  lemma OccupiedStep(w: World, e: Event)
    requires Occupied(w) && Enabled(w, e)
    ensures Occupied(Apply(w, e)) && Apply(w, e).workers == w.workers && Apply(w, e).capacity == w.capacity
  {
    StepFields(w, e);
    if Subject(w, e).Some? {
      var id, op := Subject(w, e).value, NextOp(w, e);
      OnlyBeginOccupies(w, e, id);
      BusyAfter(w.ops, id, op);
      hide NextOp, NextRows, NextCache, Busy, InTask;
      assert e.Begin? ==> WorkerFree(w);
      if id in w.ops && InTask(w.ops[id]) { BusyMember(w.ops, id); }
    }
  }

  lemma BusyMember(ops: map<nat, Op>, id: nat)
    requires id in ops && InTask(ops[id])
    ensures id in Busy(ops) && Busy(ops) + {id} == Busy(ops)
  {
  }

  lemma {:induction false} AccountedRun(ws: seq<World>, es: seq<Event>, k: nat)
    requires Run(ws, es) && k < |ws|
    ensures QueueAccounted(ws[k]) && RepliesAccounted(ws[k]) && Occupied(ws[k])
    ensures ws[k].workers == ws[0].workers && ws[k].capacity == ws[0].capacity
  {
    if k > 0 {
      AccountedRun(ws, es, k - 1);
      QueueStep(ws[k - 1], es[k - 1]);
      RepliesStep(ws[k - 1], es[k - 1]);
      OccupiedStep(ws[k - 1], es[k - 1]);
    } else {
      assert Busy(ws[0].ops) == {};
    }
  }

  /** The step that moves an operation waiting on the cache or the durable store. */
  function OwnEvent(id: nat, op: Op): Event {
    match op
    case FindProbing(_) => Probe(id, false)
    case FindReading(_) => DurableRead(id, false)
    case BackfillRunning(_, _, _) => Backfill(id, Lost(false))
    case WinnerReading(_) => ReadWinner(id, false)
    case RevokeWriting(_) => DurableRevoke(id, false)
    case TombstoneRunning(_) => PutTombstone(id, Lost(false))
    case FindDelivering(_, _, _) => Deliver(id)
    case RevokeDelivering(_, _) => Deliver(id)
    case FindAnswering(_, _, _) => CallBack(id)
    case RevokeAnswering(_, _, _) => CallBack(id)
    case _ => Begin
  }

  predicate CanMove(w: World, id: nat) { id in w.ops && Enabled(w, OwnEvent(id, w.ops[id])) }

  lemma OwnEventEnabled(w: World, id: nat)
    requires QueueAccounted(w) && id in w.ops && !Done(w.ops[id]) && (Queued(w.ops[id]) ==> WorkerFree(w))
    ensures CanMove(w, id)
  {
    hide WorkerFree;
    assert multiset(w.queue)[id] == if Queued(w.ops[id]) then 1 else 0;
    if w.queue != [] { HeadIsQueued(w); }
  }

  /** While no worker is free, some operation inside a task can move. */
  lemma BusyMoves(w: World)
    requires QueueAccounted(w) && Occupied(w) && w.queue != [] && !WorkerFree(w)
    ensures exists id :: id in Busy(w.ops) && CanMove(w, id)
  {
    var id :| id in Busy(w.ops);
    OwnEventEnabled(w, id);
  }

  /** In every run, with shutdown at any point and any submission refused: the callback of an
      operation has been invoked once if the operation is over and not at all before; an
      unfinished operation has a step to take, or waits in a queue whose head can be taken, or
      waits for workers of which one can move; and each of its steps leaves it fewer stages. */
  lemma CallbackExactlyOnce(ws: seq<World>, es: seq<Event>, k: nat, id: nat)
    requires Run(ws, es) && k < |ws| && id in ws[k].ops
    ensures multiset(ws[k].replies)[id] == if Done(ws[k].ops[id]) then 1 else 0
    ensures || Done(ws[k].ops[id]) || CanMove(ws[k], id)
            || (Queued(ws[k].ops[id]) && exists b :: b in Busy(ws[k].ops) && CanMove(ws[k], b))
    ensures Queued(ws[k].ops[id]) <==> id in ws[k].queue
    ensures k < |es| ==> id in ws[k + 1].ops
    ensures k < |es| && Subject(ws[k], es[k]) == Some(id) ==> Rank(ws[k + 1].ops[id]) < Rank(ws[k].ops[id])
    ensures k < |es| && Subject(ws[k], es[k]) != Some(id) ==> ws[k + 1].ops[id] == ws[k].ops[id]
  {
    AccountedRun(ws, es, k);
    var w := ws[k];
    assert multiset(w.queue)[id] == if Queued(w.ops[id]) then 1 else 0;
    if Queued(w.ops[id]) && !WorkerFree(w) {
      BusyMoves(w);
    } else if !Done(w.ops[id]) {
      OwnEventEnabled(w, id);
    }
    if k < |es| {
      OthersKeep(w, es[k]);
      if Subject(w, es[k]) == Some(id) { OnlyBeginDequeues(w, es[k], id); }
    }
  }
}
