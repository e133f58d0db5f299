/** Timers of one event loop: an ordered set driven by a single timerfd. The wall clock and the
    timerfd move by events of their own, also between two actions of one handler. */
module TimerQueue {
  import opened Wrappers

  /** id is the object's identity; step is the repeat interval in microseconds. */
  datatype Timer = Timer(id: int, expiration: int, step: int, repeats: bool)

  /** One callback: which timer, when it was due, and the reading that found it due. */
  datatype Call = Call(id: int, due: int, at: int)

  /** Reading is between the clock reading and the read of the timerfd in its handler. */
  datatype Phase = Idle | Reading | Calling | Resetting

  /** created maps each timer ever added to whether it repeats. armed is the expiry the timerfd was
      last set for and rings the moment it is due to go off, ready whether it has gone off since,
      signalled whether poll has reported it. now is the handler's clock reading, time the clock. */
  datatype State = State(phase: Phase, queue: seq<Timer>, expired: seq<Timer>, pos: nat, now: int,
                         freed: set<int>, created: map<int, bool>, ran: seq<Call>,
                         armed: Option<int>, rings: int, ready: bool, signalled: bool, time: int)

  // ---------- the ordered set ----------

  predicate Less(a: Timer, b: Timer) { a.expiration < b.expiration || (a.expiration == b.expiration && a.id < b.id) }

  predicate Sorted(q: seq<Timer>) { forall i, j :: 0 <= i < j < |q| ==> Less(q[i], q[j]) }

  function Position(q: seq<Timer>, t: Timer): (i: nat)
    ensures i <= |q| && (forall j :: 0 <= j < i ==> Less(q[j], t)) && (i < |q| ==> !Less(q[i], t))
  {
    if q != [] && Less(q[0], t) then 1 + Position(q[1..], t) else 0
  }

  function Insert(q: seq<Timer>, t: Timer): seq<Timer> { q[..Position(q, t)] + [t] + q[Position(q, t)..] }

  /** How many timers precede the sentry (now, highest address). */
  function DueCount(q: seq<Timer>, now: int): (n: nat)
    ensures n <= |q| && (forall j :: 0 <= j < n ==> q[j].expiration <= now) && (n < |q| ==> q[n].expiration > now)
  {
    if q != [] && q[0].expiration <= now then 1 + DueCount(q[1..], now) else 0
  }

  function First(q: seq<Timer>): Option<int> { if q == [] then None else Some(q[0].expiration) }

  // ---------- steps ----------

  datatype Event = Tick(to: int) | Ring | Notify | Add(timer: Timer)
                 | TakeClock | ReadFd | RunOne | EndCalls | ResetOne | EndReset

  predicate Enabled(s: State, e: Event) {
    match e
    case Add(t) => t.id !in s.created && (s.phase.Idle? || (s.phase.Calling? && s.pos > 0))
    case Ring => s.armed.Some?
    case Notify => s.phase.Idle? && s.ready
    case Tick(_) => true
    case TakeClock => s.phase.Idle? && s.signalled
    case ReadFd => s.phase.Reading?
    case RunOne => s.phase.Calling? && s.pos < |s.expired|
    case EndCalls => s.phase.Calling? && s.pos == |s.expired|
    case ResetOne => s.phase.Resetting? && s.pos < |s.expired|
    case EndReset => s.phase.Resetting? && s.pos == |s.expired|
  }

  const FLOOR := 100  // microseconds

  /** The timerfd is never set for less than the floor. */
  function RingsAt(expiration: int, time: int): int {
    if expiration - time < FLOOR then time + FLOOR else expiration
  }

  function Settime(s: State, expiration: Option<int>): State {
    if expiration.Some? then s.(armed := expiration, rings := RingsAt(expiration.value, s.time), ready := false) else s
  }

  function Added(s: State, t: Timer): State {
    var d := s.(queue := Insert(s.queue, t), created := s.created[t.id := t.repeats]);
    if s.queue == [] || t.expiration < s.queue[0].expiration then Settime(d, Some(t.expiration)) else d
  }

  /** A ready timerfd is drained and thereby disarmed; otherwise the read fails and changes nothing. */
  function Taken(s: State, now: int): State {
    var n := DueCount(s.queue, now);
    s.(phase := Calling, queue := s.queue[n..], expired := s.queue[..n], pos := 0, now := now, signalled := false,
       armed := if s.ready then None else s.armed, ready := false)
  }

  function Called(s: State): State
    requires s.pos < |s.expired|
  {
    var t := s.expired[s.pos];
    s.(pos := s.pos + 1, ran := s.ran + [Call(t.id, t.expiration, s.now)])
  }

  function Reseated(s: State, now: int): State
    requires s.pos < |s.expired|
  {
    var d := if s.expired[s.pos].repeats then Requeued(s, now) else Deleted(s);
    Settime(d, First(d.queue))
  }

  function Requeued(s: State, now: int): State
    requires s.pos < |s.expired|
  {
    var t := s.expired[s.pos];
    s.(queue := Insert(s.queue, t.(expiration := now + t.step)), pos := s.pos + 1)
  }

  function Deleted(s: State): State
    requires s.pos < |s.expired|
  {
    s.(freed := s.freed + {s.expired[s.pos].id}, pos := s.pos + 1)
  }

  function Apply(s: State, e: Event): State
    requires Enabled(s, e)
  {
    match e
    case Add(t) => Added(s, t)
    case Ring => s.(ready := true)
    case Notify => s.(signalled := true)
    case Tick(to) => s.(time := to)
    case TakeClock => s.(phase := Reading, now := s.time, signalled := false)
    case ReadFd => Taken(s, s.now)
    case RunOne => Called(s)
    case EndCalls => s.(phase := Resetting, pos := 0)
    case ResetOne => Reseated(s, s.time)
    case EndReset => s.(phase := Idle, expired := [], pos := 0)
  }

  function Initial(): State { State(Idle, [], [], 0, 0, {}, map[], [], None, 0, false, false, 0) }

  predicate Run(ss: seq<State>, es: seq<Event>) {
    && |ss| == |es| + 1 && ss[0] == Initial()
    && forall i :: 0 <= i < |es| ==> Enabled(ss[i], es[i]) && ss[i + 1] == Apply(ss[i], es[i])
  }

  // ---------- where a timer is ----------

  /** Taken from the queue and not yet re-queued or freed. */
  function Held(s: State): seq<Timer> {
    match s.phase
    case Idle => []
    case Reading => []
    case Calling => s.expired
    case Resetting => if s.pos <= |s.expired| then s.expired[s.pos..] else []
  }

  /** Held and not yet called. */
  function Waiting(s: State): seq<Timer> {
    if s.phase.Calling? && s.pos <= |s.expired| then s.expired[s.pos..] else []
  }

  function Count(q: seq<Timer>, id: int): nat {
    if q == [] then 0 else (if q[0].id == id then 1 else 0) + Count(q[1..], id)
  }

  function Calls(r: seq<Call>, id: int): nat {
    if r == [] then 0 else Calls(r[..|r| - 1], id) + if r[|r| - 1].id == id then 1 else 0
  }

  function One(b: bool): nat { if b then 1 else 0 }

  lemma {:induction false} CountConcat(p: seq<Timer>, q: seq<Timer>, id: int)
    ensures Count(p + q, id) == Count(p, id) + Count(q, id)
  {
    if p == [] {
      assert p + q == q;
    } else {
      assert (p + q)[1..] == p[1..] + q;
      CountConcat(p[1..], q, id);
    }
  }

  lemma CountSplit(q: seq<Timer>, n: nat, id: int)
    requires n <= |q|
    ensures Count(q, id) == Count(q[..n], id) + Count(q[n..], id)
  {
    assert q == q[..n] + q[n..];
    CountConcat(q[..n], q[n..], id);
  }

  lemma CountInsert(q: seq<Timer>, t: Timer, id: int)
    ensures Count(Insert(q, t), id) == Count(q, id) + One(t.id == id)
  {
    var i := Position(q, t);
    CountConcat(q[..i] + [t], q[i..], id);
    CountConcat(q[..i], [t], id);
    CountSplit(q, i, id);
    assert Count([t], id) == One(t.id == id);
  }

  lemma {:induction false} CountMember(q: seq<Timer>, i: nat)
    requires i < |q|
    ensures Count(q, q[i].id) > 0
  {
    if i > 0 { CountMember(q[1..], i - 1); }
  }

  /** A timer is in exactly one of queue, batch and freed, once it has been added. */
  predicate Owned(s: State, id: int) {
    Count(s.queue, id) + Count(Held(s), id) + One(id in s.freed) == One(id in s.created)
  }

  /** A one-shot has been called or is still to be called, never both. */
  predicate OneShot(s: State, id: int) {
    id in s.created && !s.created[id] ==> Calls(s.ran, id) + Count(s.queue, id) + Count(Waiting(s), id) == 1
  }

  predicate Untouched(s: State, id: int) { id !in s.created ==> Calls(s.ran, id) == 0 }

  lemma CountFrom(q: seq<Timer>, n: nat, id: int)
    requires n <= |q|
    ensures n < |q| ==> Count(q[n..], id) == One(q[n].id == id) + Count(q[n + 1..], id)
    ensures n == |q| ==> Count(q[n..], id) == 0
    ensures Count([], id) == 0
  {
    if n < |q| { assert q[n..][0] == q[n] && q[n..][1..] == q[n + 1..]; }
  }

  lemma OwnedAdd(s: State, t: Timer, id: int)
    requires Owned(s, id) && t.id !in s.created
    ensures Owned(Added(s, t), id)
  {
    hide Insert, Count;
    CountInsert(s.queue, t, id);
    assert Held(Added(s, t)) == Held(s);
  }

  lemma OwnedTake(s: State, now: int, id: int)
    requires Owned(s, id) && s.phase.Reading?
    ensures Owned(Taken(s, now), id)
  {
    hide DueCount;
    CountSplit(s.queue, DueCount(s.queue, now), id);
  }

  lemma OwnedReset(s: State, now: int, id: int)
    requires Owned(s, id) && s.phase.Resetting? && s.pos < |s.expired|
    ensures Owned(Reseated(s, now), id)
  {
    hide Insert, Count;
    var t := s.expired[s.pos];
    CountFrom(s.expired, s.pos, id);
    CountInsert(s.queue, t.(expiration := now + t.step), id);
  }

  lemma OwnedStep(s: State, e: Event, id: int)
    requires Owned(s, id) && Enabled(s, e) && s.pos <= |s.expired|
    ensures Owned(Apply(s, e), id)
  {
    match e
    case Add(t) => OwnedAdd(s, t, id);
    case ReadFd => OwnedTake(s, s.now, id);
    case ResetOne => OwnedReset(s, s.time, id);
    case EndCalls => assert s.expired[0..] == s.expired;
    case EndReset => CountFrom(s.expired, s.pos, id);
    case _ =>
  }

  /** What the entries of queue and batch look like. */
  predicate Kinds(created: map<int, bool>, q: seq<Timer>) {
    forall i :: 0 <= i < |q| ==> q[i].id in created && created[q[i].id] == q[i].repeats
  }

  /** Callbacks run for timers that were due, and only one-shots are freed. */
  predicate Proper(s: State) {
    && s.pos <= |s.expired| && (s.phase.Idle? || s.phase.Reading? ==> s.expired == [])
    && Sorted(s.queue) && Kinds(s.created, s.queue) && Kinds(s.created, s.expired)
    && AllDue(s.expired, s.now) && NoneEarly(s.ran) && OnlyOneShots(s.freed, s.created)
  }

  predicate AllDue(q: seq<Timer>, now: int) { forall i :: 0 <= i < |q| ==> q[i].expiration <= now }

  predicate NoneEarly(ran: seq<Call>) { forall c :: c in ran ==> c.due <= c.at }

  predicate OnlyOneShots(freed: set<int>, created: map<int, bool>) {
    forall id :: id in freed ==> id in created && !created[id]
  }

  lemma InsertSorted(q: seq<Timer>, t: Timer)
    requires Sorted(q) && NotQueued(q, t.id)
    ensures Sorted(Insert(q, t))
  {
    var p := Position(q, t);
    var r := Insert(q, t);
    forall i, j | 0 <= i < j < |r|
      ensures Less(r[i], r[j])
    {
      assert i < p ==> r[i] == q[i];
      assert j > p ==> r[j] == q[j - 1];
      assert p < |q| ==> Less(t, q[p]);
    }
  }

  lemma InsertMembers(q: seq<Timer>, t: Timer, i: nat)
    requires i < |Insert(q, t)|
    ensures Insert(q, t)[i] == t || exists j :: 0 <= j < |q| && Insert(q, t)[i] == q[j]
  {
    var p := Position(q, t);
    if i < p { assert Insert(q, t)[i] == q[i]; } else if i > p { assert Insert(q, t)[i] == q[i - 1]; }
  }

  lemma KindsInsert(created: map<int, bool>, q: seq<Timer>, t: Timer)
    requires Kinds(created, q) && t.id in created && created[t.id] == t.repeats
    ensures Kinds(created, Insert(q, t))
  {
    forall i | 0 <= i < |Insert(q, t)|
      ensures Insert(q, t)[i].id in created && created[Insert(q, t)[i].id] == Insert(q, t)[i].repeats
    {
      InsertMembers(q, t, i);
    }
  }

  /** The timer being put back is in no queue position: it is owned once, and by the batch. */
  lemma HeldNotQueued(s: State)
    requires s.phase.Resetting? && s.pos < |s.expired| && Owned(s, s.expired[s.pos].id)
    ensures NotQueued(s.queue, s.expired[s.pos].id)
  {
    var t := s.expired[s.pos];
    assert Held(s)[0] == t;
    CountMember(Held(s), 0);
    forall i | 0 <= i < |s.queue|
      ensures s.queue[i].id != t.id
    {
      if s.queue[i].id == t.id { CountMember(s.queue, i); }
    }
  }

  lemma ProperAdd(s: State, t: Timer)
    requires Proper(s) && t.id !in s.created
    ensures Proper(Added(s, t))
  {
    var created := s.created[t.id := t.repeats];
    InsertSorted(s.queue, t);
    assert Kinds(created, s.queue) && Kinds(created, s.expired);
    KindsInsert(created, s.queue, t);
    hide Insert, Sorted, Kinds;
  }

  lemma ProperTake(s: State, now: int)
    requires Proper(s)
    ensures Proper(Taken(s, now))
  {
    var n := DueCount(s.queue, now);
    SplitSorted(s.queue, n);
    assert Kinds(s.created, s.queue[n..]) && Kinds(s.created, s.queue[..n]);
    hide DueCount, Sorted;
  }

  lemma KindsAt(created: map<int, bool>, q: seq<Timer>, i: nat)
    requires Kinds(created, q) && i < |q|
    ensures q[i].id in created && created[q[i].id] == q[i].repeats
  {
  }

  predicate NotQueued(q: seq<Timer>, id: int) { forall i :: 0 <= i < |q| ==> q[i].id != id }

  lemma RequeuedProper(s: State, now: int)
    requires Proper(s) && s.phase.Resetting? && s.pos < |s.expired| && Owned(s, s.expired[s.pos].id)
    ensures Proper(Requeued(s, now))
  {
    hide Insert, Sorted, Owned, Kinds, AllDue, NoneEarly, OnlyOneShots, NotQueued;
    var t := s.expired[s.pos];
    var u := t.(expiration := now + t.step);
    KindsAt(s.created, s.expired, s.pos);
    HeldNotQueued(s);
    InsertSorted(s.queue, u);
    KindsInsert(s.created, s.queue, u);
  }

  lemma DeletedProper(s: State)
    requires Proper(s) && s.pos < |s.expired| && !s.expired[s.pos].repeats
    ensures Proper(Deleted(s))
  {
    hide Sorted, Kinds, AllDue, NoneEarly, OnlyOneShots;
    KindsAt(s.created, s.expired, s.pos);
    OneMoreFreed(s.freed, s.created, s.expired[s.pos].id);
  }

  lemma ProperReset(s: State, now: int)
    requires Proper(s) && s.phase.Resetting? && s.pos < |s.expired| && Owned(s, s.expired[s.pos].id)
    ensures Proper(Reseated(s, now))
  {
    hide Owned, Sorted, Kinds, AllDue, NoneEarly, OnlyOneShots, Requeued, Deleted;
    if s.expired[s.pos].repeats { RequeuedProper(s, now); } else { DeletedProper(s); }
  }

  lemma OneMoreFreed(freed: set<int>, created: map<int, bool>, id: int)
    requires OnlyOneShots(freed, created) && id in created && !created[id]
    ensures OnlyOneShots(freed + {id}, created)
  {
  }

  lemma ProperStep(s: State, e: Event)
    requires Proper(s) && Enabled(s, e) && (forall id :: Owned(s, id))
    ensures Proper(Apply(s, e))
  {
    if s.pos < |s.expired| { assert Owned(s, s.expired[s.pos].id); }
    hide Sorted, Owned;
    match e
    case Add(t) => ProperAdd(s, t);
    case ReadFd => ProperTake(s, s.now);
    case ResetOne => ProperReset(s, s.time);
    case _ =>
  }

  lemma SplitSorted(q: seq<Timer>, n: nat)
    requires Sorted(q) && n <= |q|
    ensures Sorted(q[n..])
  {
  }

  lemma CallsSnoc(r: seq<Call>, c: Call, id: int)
    ensures Calls(r + [c], id) == Calls(r, id) + One(c.id == id)
  {
    assert (r + [c])[..|r|] == r;
  }

  lemma OneShotAdd(s: State, t: Timer, id: int)
    requires Owned(s, id) && OneShot(s, id) && Untouched(s, id) && t.id !in s.created
    ensures OneShot(Added(s, t), id) && Untouched(Added(s, t), id)
  {
    hide Insert, Count, Calls;
    CountInsert(s.queue, t, id);
    assert Waiting(Added(s, t)) == Waiting(s);
    assert Added(s, t).ran == s.ran;
    if s.phase.Calling? && s.pos <= |s.expired| {
      CountSplit(s.expired, s.pos, id);
    } else {
      CountFrom([], 0, id);
    }
  }

  lemma OneShotTake(s: State, now: int, id: int)
    requires OneShot(s, id) && Untouched(s, id) && s.phase.Reading?
    ensures OneShot(Taken(s, now), id) && Untouched(Taken(s, now), id)
  {
    hide DueCount, Calls;
    var n := DueCount(s.queue, now);
    CountSplit(s.queue, n, id);
    assert s.queue[..n][0..] == s.queue[..n];
  }

  lemma OneShotReset(s: State, now: int, id: int)
    requires OneShot(s, id) && Untouched(s, id) && Kinds(s.created, s.expired) && s.phase.Resetting?
             && s.pos < |s.expired|
    ensures OneShot(Reseated(s, now), id) && Untouched(Reseated(s, now), id)
  {
    hide Insert, Count, Calls;
    var t := s.expired[s.pos];
    CountInsert(s.queue, t.(expiration := now + t.step), id);
  }

  lemma OneShotRun(s: State, id: int)
    requires Enabled(s, RunOne) && OneShot(s, id) && Untouched(s, id) && Kinds(s.created, s.expired)
    ensures OneShot(Apply(s, RunOne), id) && Untouched(Apply(s, RunOne), id)
  {
    hide Calls, Count;
    var t := s.expired[s.pos];
    assert t.id in s.created;
    CallsSnoc(s.ran, Call(t.id, t.expiration, s.now), id);
    CountFrom(s.expired, s.pos, id);
    assert Waiting(Apply(s, RunOne)) == s.expired[s.pos + 1..];
  }

  /** Untouched and OneShot together say what has been called. */
  lemma OneShotStep(s: State, e: Event, id: int)
    requires Proper(s) && Enabled(s, e) && Owned(s, id) && OneShot(s, id) && Untouched(s, id)
    ensures OneShot(Apply(s, e), id) && Untouched(Apply(s, e), id)
  {
    assert s.pos <= |s.expired| && Kinds(s.created, s.expired);
    hide Proper, Owned, Kinds, Calls, Count;
    match e
    case Add(t) => OneShotAdd(s, t, id);
    case ReadFd => OneShotTake(s, s.now, id);
    case RunOne => OneShotRun(s, id);
    case ResetOne => OneShotReset(s, s.time, id);
    case EndCalls => CountFrom(s.expired, s.pos, id);
    case _ =>
  }

  ghost predicate Inv(s: State) {
    Proper(s) && forall id :: Owned(s, id) && OneShot(s, id) && Untouched(s, id)
  }

  lemma InvStep(s: State, e: Event)
    requires Inv(s) && Enabled(s, e)
    ensures Inv(Apply(s, e))
  {
    assert forall id :: Owned(s, id);
    assert s.pos <= |s.expired|;
    ProperStep(s, e);
    hide Proper, Owned, OneShot, Untouched, Apply, Enabled;
    forall id
      ensures Owned(Apply(s, e), id) && OneShot(Apply(s, e), id) && Untouched(Apply(s, e), id)
    {
      OwnedStep(s, e, id);
      OneShotStep(s, e, id);
    }
  }

  lemma {:induction false} InvRun(ss: seq<State>, es: seq<Event>, i: nat)
    requires Run(ss, es) && i < |ss|
    ensures Inv(ss[i])
  {
    if i > 0 {
      InvRun(ss, es, i - 1);
      hide Inv, Apply, Enabled;
      InvStep(ss[i - 1], es[i - 1]);
    }
  }

  /** In every reachable state: every added timer is in exactly one of queue, batch and freed;
      freed timers are one-shots that were called exactly once; no one-shot is ever called twice;
      no callback runs before its timer is due; between batches every repeating timer is queued. */
  lemma TimersAreNeverLost(ss: seq<State>, es: seq<Event>, i: nat, id: int)
    requires Run(ss, es) && i < |ss|
    ensures var s := ss[i];
            && Count(s.queue, id) + Count(Held(s), id) + One(id in s.freed) == One(id in s.created)
            && (id in s.freed ==> !s.created[id] && Calls(s.ran, id) == 1)
            && (id in s.created && !s.created[id] ==> Calls(s.ran, id) <= 1)
            && (id in s.created && s.created[id] && s.phase.Idle? ==> Count(s.queue, id) == 1)
            && (forall c :: c in s.ran ==> c.due <= c.at)
  {
    InvRun(ss, es, i);
    var s := ss[i];
    assert Owned(s, id) && OneShot(s, id);
    if s.phase.Calling? { CountSplit(s.expired, s.pos, id); }
  }

  /** getExpired takes exactly the timers due at or before now and leaves the others in order. */
  lemma TakenExactlyDue(s: State, now: int, t: Timer)
    requires Sorted(s.queue)
    ensures Taken(s, now).expired + Taken(s, now).queue == s.queue
    ensures t in Taken(s, now).expired <==> t in s.queue && t.expiration <= now
    ensures t in Taken(s, now).queue <==> t in s.queue && t.expiration > now
  {
    var n := DueCount(s.queue, now);
    assert s.queue == s.queue[..n] + s.queue[n..];
    LaterNotDue(s.queue, now);
    hide DueCount, Sorted;
  }

  lemma LaterNotDue(q: seq<Timer>, now: int)
    requires Sorted(q)
    ensures forall t :: t in q[DueCount(q, now)..] ==> t.expiration > now
    ensures forall t :: t in q[..DueCount(q, now)] ==> t.expiration <= now
  {
    var n := DueCount(q, now);
    hide DueCount;
    forall j | n <= j < |q|
      ensures q[j].expiration > now
    {
      assert j > n ==> Less(q[n], q[j]);
    }
  }

  // ---------- arming ----------

  /** The timerfd is set for the earliest queued timer, or the batch at hand will set it. */
  predicate ArmedRight(s: State) {
    || s.queue == [] || s.armed == Some(s.queue[0].expiration)
    || (s.expired != [] && (s.phase.Calling? || (s.phase.Resetting? && s.pos == 0)))
  }

  /** The timerfd that the handler drains has gone off for a time later than the handler's reading of
      the clock. */
  predicate Loses(s: State, e: Event) { e.ReadFd? && s.ready && s.armed.Some? && s.now < s.armed.value }

  predicate Armable(s: State) { ArmedRight(s) && (s.ready ==> s.armed.Some?) }

  lemma InsertFirst(q: seq<Timer>, t: Timer)
    requires Sorted(q)
    ensures Insert(q, t) != []
    ensures Insert(q, t)[0].expiration ==
            if q == [] || t.expiration < q[0].expiration then t.expiration else q[0].expiration
  {
  }

  lemma ArmedStep(s: State, e: Event)
    requires Armable(s) && Proper(s) && Enabled(s, e) && !Loses(s, e)
    ensures Armable(Apply(s, e))
  {
    if e.Add? { InsertFirst(s.queue, e.timer); hide Insert; }
  }

  lemma {:induction false} ArmedRun(ss: seq<State>, es: seq<Event>, i: nat)
    requires Run(ss, es) && i < |ss| && forall j :: 0 <= j < i ==> !Loses(ss[j], es[j])
    ensures Armable(ss[i])
  {
    if i > 0 {
      ArmedRun(ss, es, i - 1);
      InvRun(ss, es, i - 1);
      assert !Loses(ss[i - 1], es[i - 1]) && Enabled(ss[i - 1], es[i - 1]) && Proper(ss[i - 1]);
      hide Inv, Proper, Armable, Loses, Enabled, Apply;
      ArmedStep(ss[i - 1], es[i - 1]);
    }
  }

  /** As long as no handler drains the timerfd for a time later than its reading of the clock, a queue
      that is not empty is armed for its earliest expiry whenever the loop is back to waiting. */
  lemma QueueStaysArmed(ss: seq<State>, es: seq<Event>, i: nat)
    requires Run(ss, es) && i < |ss| && forall j :: 0 <= j < i ==> !Loses(ss[j], es[j])
    ensures ss[i].phase.Idle? && ss[i].queue != [] ==> ss[i].armed == Some(ss[i].queue[0].expiration)
  {
    ArmedRun(ss, es, i);
    InvRun(ss, es, i);
  }

  /** The rest of a handler whose batch is empty. */
  function EmptyTurn(s: State): State
    requires s.phase.Reading? && DueCount(s.queue, s.now) == 0
  {
    Apply(Apply(Apply(s, ReadFd), EndCalls), EndReset)
  }

  /** An armed queue loses its arming in a handler exactly then; its batch is empty, and nothing later
      in the handler sets the timerfd again. */
  lemma ArmingLostExactly(s: State)
    requires Armable(s) && s.phase.Reading? && s.queue != []
    ensures ArmedRight(Apply(s, ReadFd)) <==> !Loses(s, ReadFd)
    ensures Loses(s, ReadFd) ==>
              DueCount(s.queue, s.now) == 0 && EmptyTurn(s).armed == None && EmptyTurn(s).queue == s.queue
  {
    var n := DueCount(s.queue, s.now);
    assert n == 0 ==> s.queue[n..] == s.queue;
  }

  // ---------- clocks ----------

  /** The timerfd goes off no earlier than the moment it was set for, and the clock does not go back. */
  predicate Punctual(s: State, e: Event) {
    (e.Ring? && s.armed.Some? ==> s.rings <= s.time) && (e.Tick? ==> s.time <= e.to)
  }

  predicate RangInTime(s: State) {
    (s.armed.Some? ==> s.armed.value <= s.rings) && (s.ready ==> s.armed.Some? && s.rings <= s.time)
  }

  lemma RangInTimeStep(s: State, e: Event)
    requires RangInTime(s) && Enabled(s, e) && Punctual(s, e)
    ensures RangInTime(Apply(s, e))
  {
    hide Insert, DueCount;
  }

  lemma StepAt(ss: seq<State>, es: seq<Event>, i: nat)
    requires Run(ss, es) && i < |es|
    ensures |ss| == |es| + 1 && Enabled(ss[i], es[i]) && ss[i + 1] == Apply(ss[i], es[i])
  {
    hide Apply, Enabled;
  }

  lemma {:induction false} RangInTimeRun(ss: seq<State>, es: seq<Event>, i: nat)
    requires Run(ss, es) && |ss| == |es| + 1 && i < |ss| && forall j :: 0 <= j < i ==> Punctual(ss[j], es[j])
    ensures RangInTime(ss[i])
  {
    if i > 0 {
      hide Run, Punctual, RangInTime, Apply, Enabled;
      RangInTimeRun(ss, es, i - 1);
      StepAt(ss, es, i - 1);
      RangInTimeStep(ss[i - 1], es[i - 1]);
    }
  }

  /** Inside the handler, between its clock reading and its read, only clock and timerfd move. */
  lemma ReadingStep(s: State, e: Event)
    requires Enabled(s, e) && Apply(s, e).phase.Reading?
    ensures var v := Apply(s, e);
            && v.armed == s.armed && (e.TakeClock? || e.Ring? || e.Tick?)
            && (e.TakeClock? ==> v.now == s.time && v.ready == s.ready)
            && (!e.TakeClock? ==>
                  && s.phase.Reading? && v.now == s.now && (s.ready ==> v.ready)
                  && (e.Tick? ==> v.ready == s.ready))
  {
    hide Insert, DueCount;
  }

  /** At k the timerfd goes off, for a time later than the clock reading of the handler that reads the
      timerfd at j: both happen inside that handler. */
  predicate RaceAt(ss: seq<State>, es: seq<Event>, k: nat, j: nat) {
    && k < j < |es| && j < |ss| && es[j].ReadFd? && es[k].Ring?
    && (forall i :: k <= i <= j ==> ss[i].phase.Reading? && ss[i].now == ss[j].now && ss[i].armed == ss[j].armed)
    && ss[k].armed.Some? && ss[k].now < ss[k].armed.value
  }

  ghost predicate Race(ss: seq<State>, es: seq<Event>, j: nat) { exists k: nat :: RaceAt(ss, es, k, j) }

  lemma {:induction false} LossIsARace(ss: seq<State>, es: seq<Event>, m: nat, j: nat) returns (k: nat)
    requires Run(ss, es) && m <= j < |es| && es[j].ReadFd? && forall i :: 0 <= i < j ==> Punctual(ss[i], es[i])
    requires forall i :: m <= i <= j ==> ss[i].phase.Reading? && ss[i].now == ss[j].now && ss[i].armed == ss[j].armed
    requires ss[m].ready && ss[m].armed.Some? && ss[m].now < ss[m].armed.value
    ensures RaceAt(ss, es, k, j)
    decreases m
  {
    assert m > 0;
    hide Run, Apply, Enabled, Punctual;
    StepAt(ss, es, m - 1);
    RangInTimeRun(ss, es, m - 1);
    ReadingStep(ss[m - 1], es[m - 1]);
    if es[m - 1].Ring? {
      k := m - 1;
    } else {
      k := LossIsARace(ss, es, m - 1, j);
    }
  }

  /** With a timerfd that is never early and a clock that does not go back, the arming is lost in
      exactly one way: the timerfd goes off on time between the handler's clock reading and its read. */
  lemma PunctualLossIsExactlyTheRace(ss: seq<State>, es: seq<Event>, j: nat)
    requires Run(ss, es) && j < |es| && forall i :: 0 <= i < j ==> Punctual(ss[i], es[i])
    ensures Loses(ss[j], es[j]) <==> Race(ss, es, j)
  {
    if Loses(ss[j], es[j]) {
      var k := LossIsARace(ss, es, j, j);
    }
    if Race(ss, es, j) {
      var k: nat :| RaceAt(ss, es, k, j);
      ReadyStays(ss, es, k + 1, j);
    }
  }

  lemma {:induction false} ReadyStays(ss: seq<State>, es: seq<Event>, i: nat, j: nat)
    requires Run(ss, es) && i <= j < |ss| && ss[i].ready && forall m :: i <= m <= j ==> ss[m].phase.Reading?
    ensures ss[j].ready
    decreases j
  {
    if i < j {
      hide Run, Apply, Enabled;
      ReadyStays(ss, es, i, j - 1);
      StepAt(ss, es, j - 1);
      ReadingStep(ss[j - 1], es[j - 1]);
    }
  }

  // ---------- the object ----------

  /** A timer added by a callback, and the clock at that moment. */
  datatype Addition = Addition(timer: Timer, clock: int)

  function AddedAll(s: State, ts: seq<Addition>, n: nat): (r: State)
    requires n <= |ts|
    ensures r.expired == s.expired && r.pos == s.pos && r.phase == s.phase
  {
    if n == 0 then s else Added(AddedAll(s, ts, n - 1).(time := ts[n - 1].clock), ts[n - 1].timer)
  }

  /** The first n callbacks; the i-th adds the timers adds[i]. */
  function CalledAll(s: State, adds: seq<seq<Addition>>, n: nat): (r: State)
    requires s.pos == 0 && n <= |s.expired| && n <= |adds|
    ensures r.expired == s.expired && r.pos == n && r.phase == s.phase
  {
    if n == 0 then s else AddedAll(Called(CalledAll(s, adds, n - 1)), adds[n - 1], |adds[n - 1]|)
  }

  /** The first n timers put back or freed; clocks[i] is the clock at the i-th. */
  function ResetAll(s: State, clocks: seq<int>, n: nat): (r: State)
    requires s.pos == 0 && n <= |s.expired| && n <= |clocks|
    ensures r.expired == s.expired && r.pos == n && r.phase == s.phase
  {
    if n == 0 then s else Reseated(ResetAll(s, clocks, n - 1).(time := clocks[n - 1]), clocks[n - 1])
  }

  function Turn(s: State, now: int, adds: seq<seq<Addition>>, clocks: seq<int>): State
    requires var n := DueCount(s.queue, now); n <= |adds| && n <= |clocks|
  {
    var n := DueCount(s.queue, now);
    var called := CalledAll(Taken(s, now).(time := now), adds, n);
    ResetAll(called.(phase := Resetting, pos := 0), clocks, n).(phase := Idle, expired := [], pos := 0)
  }

  /** Each added timer is a new object when it is added. */
  predicate NewObjects(s: State, ts: seq<Addition>) {
    forall k :: 0 <= k < |ts| ==> ts[k].timer.id !in AddedAll(s, ts, k).created
  }

  predicate CallbacksAddNew(s: State, adds: seq<seq<Addition>>, n: nat)
    requires s.pos == 0 && n <= |s.expired| && n <= |adds|
  {
    forall i :: 0 <= i < n ==> NewObjects(Called(CalledAll(s, adds, i)), adds[i])
  }

  /** What a turn keeps, at every moment of it. */
  ghost predicate Kept(s: State) { Inv(s) && Armable(s) }

  lemma KeptStep(s: State, e: Event)
    requires Kept(s) && Enabled(s, e) && !Loses(s, e)
    ensures Kept(Apply(s, e))
  {
    assert Proper(s);
    hide Proper, Armable, Loses, Enabled, Apply;
    InvStep(s, e);
    ArmedStep(s, e);
  }

  lemma AddKept(s: State, t: Timer)
    requires Kept(s) && Enabled(s, Add(t))
    ensures Kept(Added(s, t))
  {
    hide Kept, Added;
    KeptStep(s, Add(t));
  }

  lemma TickKept(s: State, to: int)
    requires Kept(s)
    ensures Kept(s.(time := to))
  {
    hide Kept;
    KeptStep(s, Tick(to));
  }

  lemma AdditionKept(s: State, a: Addition)
    requires Kept(s) && s.phase.Calling? && s.pos > 0 && a.timer.id !in s.created
    ensures Kept(Added(s.(time := a.clock), a.timer))
  {
    hide Kept, Added;
    TickKept(s, a.clock);
    AddKept(s.(time := a.clock), a.timer);
  }

  /** The handler up to its batch: clock, timerfd, due timers. */
  lemma TakeKept(s: State, now: int)
    requires Kept(s) && Enabled(s, TakeClock) && (s.ready && s.armed.Some? ==> s.armed.value <= now)
    ensures var t := Taken(s, now).(time := now);
            Kept(t) && t.phase.Calling? && t.pos == 0 && |t.expired| == DueCount(s.queue, now)
  {
    hide Kept, DueCount;
    var a := s.(time := now);
    TickKept(s, now);
    KeptStep(a, TakeClock);
    var b := Apply(a, TakeClock);
    KeptStep(b, ReadFd);
    assert Apply(b, ReadFd) == Taken(s, now).(time := now);
  }

  lemma EndCallsKept(s: State)
    requires Kept(s) && Enabled(s, EndCalls)
    ensures Kept(s.(phase := Resetting, pos := 0))
  {
    hide Kept;
    KeptStep(s, EndCalls);
  }

  lemma EndResetKept(s: State)
    requires Kept(s) && Enabled(s, EndReset)
    ensures Kept(s.(phase := Idle, expired := [], pos := 0))
  {
    hide Kept;
    KeptStep(s, EndReset);
  }

  lemma PutBackKept(s: State, clock: int)
    requires Kept(s) && Enabled(s, ResetOne)
    ensures Kept(Reseated(s.(time := clock), clock))
  {
    hide Kept, Reseated;
    TickKept(s, clock);
    KeptStep(s.(time := clock), ResetOne);
  }

  lemma NewAt(s: State, ts: seq<Addition>, k: nat)
    requires NewObjects(s, ts) && k < |ts|
    ensures ts[k].timer.id !in AddedAll(s, ts, k).created
  {
    hide Added;
  }

  lemma {:induction false} AddedAllKept(s: State, ts: seq<Addition>, n: nat)
    requires Kept(s) && s.phase.Calling? && s.pos > 0 && n <= |ts| && NewObjects(s, ts)
    ensures Kept(AddedAll(s, ts, n))
  {
    hide Kept, Added, NewObjects;
    if n > 0 {
      AddedAllKept(s, ts, n - 1);
      NewAt(s, ts, n - 1);
      AdditionKept(AddedAll(s, ts, n - 1), ts[n - 1]);
    }
  }

  lemma CallKept(s: State)
    requires Kept(s) && Enabled(s, RunOne)
    ensures Kept(Called(s)) && Called(s).phase == s.phase && Called(s).pos == s.pos + 1
  {
    hide Kept;
    KeptStep(s, RunOne);
  }

  lemma {:induction false} CalledAllKept(s: State, adds: seq<seq<Addition>>, n: nat)
    requires Kept(s) && s.phase.Calling? && s.pos == 0 && n <= |s.expired| && n <= |adds| && CallbacksAddNew(s, adds, n)
    ensures Kept(CalledAll(s, adds, n))
  {
    hide Kept, AddedAll, NewObjects, Called;
    if n > 0 {
      CalledAllKept(s, adds, n - 1);
      CallKept(CalledAll(s, adds, n - 1));
      AddedAllKept(Called(CalledAll(s, adds, n - 1)), adds[n - 1], |adds[n - 1]|);
    }
  }

  lemma {:induction false} ResetAllKept(s: State, clocks: seq<int>, n: nat)
    requires Kept(s) && s.phase.Resetting? && s.pos == 0 && n <= |s.expired| && n <= |clocks|
    ensures Kept(ResetAll(s, clocks, n))
  {
    hide Kept, Reseated;
    if n > 0 {
      ResetAllKept(s, clocks, n - 1);
      PutBackKept(ResetAll(s, clocks, n - 1), clocks[n - 1]);
    }
  }

  /** A whole turn, callbacks adding timers included, keeps every timer owned exactly once and the
      queue armed for its earliest expiry, unless the timerfd was drained for a later time. */
  lemma TurnKeeps(s: State, now: int, adds: seq<seq<Addition>>, clocks: seq<int>)
    requires Kept(s) && Enabled(s, TakeClock) && (s.ready && s.armed.Some? ==> s.armed.value <= now)
    requires var n := DueCount(s.queue, now);
             n <= |adds| && n <= |clocks| && CallbacksAddNew(Taken(s, now).(time := now), adds, n)
    ensures Kept(Turn(s, now, adds, clocks))
    ensures var t := Turn(s, now, adds, clocks); t.queue != [] ==> t.armed == Some(t.queue[0].expiration)
  {
    hide DueCount, CalledAll, ResetAll, Kept, Taken, CallbacksAddNew;
    var n := DueCount(s.queue, now);
    TakeKept(s, now);
    CalledAllKept(Taken(s, now).(time := now), adds, n);
    var called := CalledAll(Taken(s, now).(time := now), adds, n);
    EndCallsKept(called);
    ResetAllKept(called.(phase := Resetting, pos := 0), clocks, n);
    EndResetKept(ResetAll(called.(phase := Resetting, pos := 0), clocks, n));
    KeptIdleArmed(Turn(s, now, adds, clocks));
  }

  lemma KeptIdleArmed(s: State)
    requires Kept(s) && s.phase.Idle?
    ensures s.queue != [] ==> s.armed == Some(s.queue[0].expiration)
  {
  }

  /** rest is the state apart from the queue and the timerfd. */
  class Timers {
    var timers: seq<Timer>
    var callingExpiredTimers: bool
    var armed: Option<int>
    var rings: int
    var ready: bool
    ghost var rest: State

    ghost function View(): State
      reads this
    {
      rest.(queue := timers, armed := armed, rings := rings, ready := ready)
    }

    constructor ()
      ensures View() == Initial()
    {
      timers, callingExpiredTimers, armed, rings, ready := [], false, None, 0, false;
      rest := Initial();
    }

    /** The position in the ordered set, found by walking it. */
    method InsertTimer(t: Timer) returns (earliestChanged: bool)
      modifies `timers
      ensures timers == Insert(old(timers), t)
      ensures earliestChanged <==> old(timers) == [] || t.expiration < old(timers)[0].expiration
    {
      earliestChanged := timers == [] || t.expiration < timers[0].expiration;
      var i := 0;
      while i < |timers| && Less(timers[i], t)
        invariant 0 <= i <= |timers| && Position(timers, t) == i + Position(timers[i..], t)
        modifies {}
      {
        assert timers[i..][1..] == timers[i + 1..];
        i := i + 1;
      }
      timers := timers[..i] + [t] + timers[i..];
    }

    /** Sets the timerfd for the time left, or for the floor. */
    method ResetTimerfd(expiration: int, clock: int)
      modifies `armed, `rings, `ready
      ensures armed == Some(expiration) && rings == RingsAt(expiration, clock) && !ready
    {
      var difference := expiration - clock;
      if difference < FLOOR {
        difference := FLOOR;
      }
      armed, rings, ready := Some(expiration), clock + difference, false;
    }

    method AddTimerInLoop(t: Timer, clock: int)
      modifies `timers, `armed, `rings, `ready, `rest
      ensures View() == Added(old(View()).(time := clock), t)
    {
      hide Insert;
      var earliestChanged := InsertTimer(t);
      rest := rest.(created := rest.created[t.id := t.repeats], time := clock);
      if earliestChanged {
        ResetTimerfd(t.expiration, clock);
      }
    }

    method GetExpired(at: int) returns (expired: seq<Timer>)
      modifies `timers
      ensures var n := DueCount(old(timers), at); expired == old(timers)[..n] && timers == old(timers)[n..]
    {
      var i := 0;
      while i < |timers| && timers[i].expiration <= at
        invariant 0 <= i <= |timers| && DueCount(timers, at) == i + DueCount(timers[i..], at)
        modifies {}
      {
        assert timers[i..][1..] == timers[i + 1..];
        i := i + 1;
      }
      expired, timers := timers[..i], timers[i..];
    }

    /** Read the clock, then the timerfd, then take what is due. */
    method Take(at: int) returns (expired: seq<Timer>)
      modifies this
      ensures View() == Taken(old(View()), at).(time := at) && expired == rest.expired && rest.pos == 0
      ensures |expired| == DueCount(old(timers), at)
    {
      hide DueCount;
      rest := Taken(View(), at).(time := at);
      if ready {
        armed := None;
      }
      ready := false;
      expired := GetExpired(at);
    }

    /** One callback, which adds the given timers on the loop thread. */
    method CallBack(t: Timer, adds: seq<Addition>)
      requires rest.pos < |rest.expired| && t == rest.expired[rest.pos]
      modifies `timers, `armed, `rings, `ready, `rest
      ensures View() == AddedAll(Called(old(View())), adds, |adds|)
    {
      rest := Called(View());
      ghost var s := View();
      hide Added, Called;
      var j := 0;
      while j < |adds|
        invariant 0 <= j <= |adds| && View() == AddedAll(s, adds, j)
        modifies `timers, `armed, `rings, `ready, `rest
      {
        AddTimerInLoop(adds[j].timer, adds[j].clock);
        j := j + 1;
      }
    }

    method CallExpired(expired: seq<Timer>, adds: seq<seq<Addition>>)
      requires rest.pos == 0 && expired == rest.expired && |expired| <= |adds|
      modifies `timers, `armed, `rings, `ready, `rest, `callingExpiredTimers
      ensures View() == CalledAll(old(View()), adds, |expired|)
    {
      ghost var s := View();
      hide AddedAll, Called;
      callingExpiredTimers := true;
      var i := 0;
      while i < |expired|
        invariant 0 <= i <= |expired| && View() == CalledAll(s, adds, i)
        modifies `timers, `armed, `rings, `ready, `rest
      {
        CallBack(expired[i], adds[i]);
        i := i + 1;
      }
      callingExpiredTimers := false;
    }

    /** One timer of the batch: re-queued or freed, and the timerfd set for the earliest one. */
    method PutBack(t: Timer, clock: int)
      requires rest.pos < |rest.expired| && t == rest.expired[rest.pos]
      modifies `timers, `armed, `rings, `ready, `rest
      ensures View() == Reseated(old(View()).(time := clock), clock)
    {
      hide Insert;
      rest := rest.(time := clock, pos := rest.pos + 1, freed := if t.repeats then rest.freed else rest.freed + {t.id});
      if t.repeats {
        var earliestChanged := InsertTimer(t.(expiration := clock + t.step));
      }
      if timers != [] {
        ResetTimerfd(timers[0].expiration, clock);
      }
    }

    method Reset(expired: seq<Timer>, clocks: seq<int>)
      requires rest.pos == 0 && expired == rest.expired && |expired| <= |clocks|
      modifies `timers, `armed, `rings, `ready, `rest
      ensures View() == ResetAll(old(View()), clocks, |expired|)
    {
      ghost var s := View();
      hide Reseated;
      var i := 0;
      while i < |expired|
        invariant 0 <= i <= |expired| && View() == ResetAll(s, clocks, i)
        modifies `timers, `armed, `rings, `ready, `rest
      {
        PutBack(expired[i], clocks[i]);
        i := i + 1;
      }
    }

    /** The timerfd's handler: a whole turn. */
    method HandleTimerfd(at: int, adds: seq<seq<Addition>>, clocks: seq<int>)
      requires Enabled(View(), TakeClock)
      requires DueCount(timers, at) <= |adds| && DueCount(timers, at) <= |clocks|
      modifies this
      ensures View() == Turn(old(View()), at, adds, clocks)
    {
      hide DueCount, CalledAll, ResetAll, Taken;
      var expired := Take(at);
      CallExpired(expired, adds);
      rest := rest.(phase := Resetting, pos := 0);
      Reset(expired, clocks);
      rest := rest.(phase := Idle, expired := [], pos := 0);
    }
  }
}
