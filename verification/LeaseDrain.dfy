/** The lifetime that an interaction service shares with its requests: leases on the DAO, the
    liveness check of completions, and the destructor that drains the leases. Each critical section
    and each DAO call boundary is one event. */
module LeaseDrain {
  import opened Wrappers

  type Id = nat

  datatype Status = Success | Unavailable | Unauthorized | BadRequest | NotFound

  /** A request's place: waiting for its session, about to take a lease, holding one before, during
      and after the DAO call, done with it. */
  datatype Place = AwaitSession | Ready | Leased | InDao | DaoReturned | Finished

  /** outstanding says that a DAO completion is still to come. */
  datatype Request = Request(place: Place, outstanding: bool, result: Option<Status>)

  /** The destructor: not begun, waiting on the condition variable, returned. */
  datatype Destructor = NotBegun | Asleep(notified: bool) | Returned

  datatype World = World(valid: bool, activeCalls: int, dao: bool, dtor: Destructor, requests: map<Id, Request>)

  datatype Event =
    | Begin(id: Id, needsSession: bool) | Reject(id: Id, status: Status) | SessionDone(id: Id, active: bool)
    | Acquire(id: Id) | EnterDao(id: Id) | LeaveDao(id: Id) | Release(id: Id) | Complete(id: Id, ok: bool)
    | Invalidate | Recheck

  predicate At(w: World, id: Id, p: Place) { id in w.requests && w.requests[id].place == p }

  predicate Enabled(w: World, e: Event) {
    match e
    case Begin(id, _) => id !in w.requests
    case Reject(id, s) => (At(w, id, AwaitSession) || At(w, id, Ready)) && s != Success
    case SessionDone(id, _) => At(w, id, AwaitSession)
    case Acquire(id) => At(w, id, Ready)
    case EnterDao(id) => At(w, id, Leased)
    case LeaveDao(id) => At(w, id, InDao)
    case Release(id) => At(w, id, DaoReturned)
    case Complete(id, _) => id in w.requests && w.requests[id].outstanding
    case Invalidate => w.dtor.NotBegun?
    case Recheck => w.dtor.Asleep?
  }

  function Moved(r: Request, p: Place): Request { r.(place := p) }

  function Reported(r: Request, s: Status): Request { r.(result := Some(s)) }

  /** What an event does to its own request. */
  function NextRequest(w: World, e: Event): Request
    requires Enabled(w, e) && !e.Invalidate? && !e.Recheck?
  {
    match e
    case Begin(_, needsSession) => Request(if needsSession then AwaitSession else Ready, false, None)
    case Reject(id, s) => Reported(Moved(w.requests[id], Finished), s)
    case SessionDone(id, active) =>
      if !w.valid then Reported(Moved(w.requests[id], Finished), Unavailable)
      else if !active then Reported(Moved(w.requests[id], Finished), Unauthorized)
      else Moved(w.requests[id], Ready)
    case Acquire(id) =>
      if w.valid && w.dao then Moved(w.requests[id], Leased) else Reported(Moved(w.requests[id], Finished), Unavailable)
    case EnterDao(id) => Moved(w.requests[id], InDao).(outstanding := true)
    case LeaveDao(id) => Moved(w.requests[id], DaoReturned)
    case Release(id) => Moved(w.requests[id], Finished)
    case Complete(id, ok) =>
      Reported(w.requests[id].(outstanding := false), if !w.valid || !ok then Unavailable else Success)
  }

  function NextCalls(w: World, e: Event): int {
    match e
    case Acquire(_) => if w.valid && w.dao then w.activeCalls + 1 else w.activeCalls
    case Release(_) => w.activeCalls - 1
    case _ => w.activeCalls
  }

  /** The destructor takes the mutex: it leaves when no call is active, and sleeps otherwise. */
  function Drain(w: World): World {
    if w.activeCalls == 0 then w.(valid := false, dao := false, dtor := Returned)
    else w.(valid := false, dtor := Asleep(false))
  }

  function NextDtor(w: World, e: Event): Destructor {
    if e.Release? && w.activeCalls == 1 && w.dtor.Asleep? then Asleep(true) else w.dtor
  }

  function Apply(w: World, e: Event): World
    requires Enabled(w, e)
  {
    if e.Invalidate? || e.Recheck? then Drain(w)
    else World(w.valid, NextCalls(w, e), w.dao, NextDtor(w, e), w.requests[e.id := NextRequest(w, e)])
  }

  function Initial(dao: bool): World { World(true, 0, dao, NotBegun, map[]) }

  predicate Run(ws: seq<World>, es: seq<Event>) {
    && |ws| == |es| + 1 && (ws[0] == Initial(true) || ws[0] == Initial(false))
    && forall i :: 0 <= i < |es| ==> Enabled(ws[i], es[i]) && ws[i + 1] == Apply(ws[i], es[i])
  }

  // ---------- leases are counted ----------

  predicate Holds(r: Request) { r.place.Leased? || r.place.InDao? || r.place.DaoReturned? }

  function Leases(w: World): set<Id> { set id | id in w.requests && Holds(w.requests[id]) }

  predicate Counted(w: World) { w.activeCalls == |Leases(w)| }

  /** Only Acquire and Release change the set of leases, each by its own request. */
  lemma LeasesStep(w: World, e: Event)
    requires Enabled(w, e)
    ensures Leases(Apply(w, e)) ==
            if e.Acquire? && w.valid && w.dao then Leases(w) + {e.id}
            else if e.Release? then Leases(w) - {e.id} else Leases(w)
    ensures e.Acquire? ==> e.id !in Leases(w)
    ensures e.Release? ==> e.id in Leases(w)
  {
    var v := Apply(w, e);
    if !e.Invalidate? && !e.Recheck? {
      assert forall id :: id != e.id ==> (id in v.requests <==> id in w.requests);
      assert forall id :: id != e.id && id in w.requests ==> v.requests[id] == w.requests[id];
    }
  }

  /** The destructor's state and the service's flags; a sleeper that could leave has been notified. */
  predicate Guarded(w: World) {
    && (w.valid <==> w.dtor.NotBegun?)
    && (w.dtor.Returned? ==> w.activeCalls == 0 && !w.dao)
    && (w.dtor.Asleep? ==> (w.dtor.notified <==> w.activeCalls == 0))
  }

  ghost predicate Inv(w: World) { Counted(w) && Guarded(w) }

  lemma InvStep(w: World, e: Event)
    requires Inv(w) && Enabled(w, e)
    ensures Inv(Apply(w, e))
  {
    LeasesStep(w, e);
    if e.Release? {
      assert |Leases(w) - {e.id}| == |Leases(w)| - 1;
    }
    hide Leases, NextRequest;
  }

  lemma {:induction false} InvRun(ws: seq<World>, es: seq<Event>, i: nat)
    requires Run(ws, es) && i < |ws|
    ensures Inv(ws[i])
  {
    if i > 0 {
      hide Inv, Apply, Enabled;
      InvRun(ws, es, i - 1);
      InvStep(ws[i - 1], es[i - 1]);
    } else {
      assert Leases(ws[0]) == {};
    }
  }

  // ---------- main results ----------

  /** In every reachable state activeCalls is exactly the number of live leases; once the destructor
      has returned there is none, so no DAO call is in progress and none can start. */
  lemma NoCallOutlivesService(ws: seq<World>, es: seq<Event>, i: nat)
    requires Run(ws, es) && i < |ws|
    ensures ws[i].activeCalls == |Leases(ws[i])|
    ensures ws[i].dtor.Returned? ==>
              forall id :: id in ws[i].requests ==> !Holds(ws[i].requests[id]) && !Enabled(ws[i], EnterDao(id))
  {
    InvRun(ws, es, i);
    var w := ws[i];
    if w.dtor.Returned? {
      assert |Leases(w)| == 0;
      assert forall id :: id in w.requests && Holds(w.requests[id]) ==> id in Leases(w);
    }
  }

  lemma {:induction false} StaysReturned(ws: seq<World>, es: seq<Event>, i: nat, j: nat)
    requires Run(ws, es) && i <= j < |ws|
    ensures ws[i].dtor.Returned? ==> ws[j].dtor.Returned?
    ensures !ws[i].valid ==> !ws[j].valid
    decreases j
  {
    if i < j { StaysReturned(ws, es, i, j - 1); }
  }

  /** No DAO call overlaps or follows the destructor's return, at any later point of the run. */
  lemma NoCallAfterReturn(ws: seq<World>, es: seq<Event>, i: nat, j: nat)
    requires Run(ws, es) && i <= j < |es| && ws[i].dtor.Returned?
    ensures !es[j].EnterDao? && !es[j].LeaveDao?
    ensures forall id :: !At(ws[j], id, InDao)
  {
    StaysReturned(ws, es, i, j);
    NoCallOutlivesService(ws, es, j);
    assert Enabled(ws[j], es[j]);
    hide Run;
  }

  /** Whatever checks liveness after the destructor began reports Unavailable: session answers,
      lease attempts and DAO completions alike. */
  lemma LateChecksReportUnavailable(ws: seq<World>, es: seq<Event>, i: nat, j: nat)
    requires Run(ws, es) && i < j < |es| && es[i].Invalidate?
    requires es[j].SessionDone? || es[j].Acquire? || es[j].Complete?
    ensures es[j].id in ws[j + 1].requests && ws[j + 1].requests[es[j].id].result == Some(Unavailable)
  {
    assert !ws[i + 1].valid;
    StaysReturned(ws, es, i + 1, j);
    assert Enabled(ws[j], es[j]) && ws[j + 1] == Apply(ws[j], es[j]);
    hide Run;
  }

  /** After invalidation leases only go away: the destructor waits for those it found, no more. */
  lemma {:induction false} DrainOnlyShrinks(ws: seq<World>, es: seq<Event>, i: nat, j: nat)
    requires Run(ws, es) && i <= j < |ws| && !ws[i].valid
    ensures Leases(ws[j]) <= Leases(ws[i])
    decreases j
  {
    if i < j {
      DrainOnlyShrinks(ws, es, i, j - 1);
      StaysReturned(ws, es, i, j - 1);
      LeasesStep(ws[j - 1], es[j - 1]);
      hide Leases;
    }
  }

  /** The drain misses no wake-up and gets no other: a sleeping destructor has been notified exactly when
      no lease is left, and its next look at the counter lets it return exactly then. */
  lemma DrainNeverStuck(ws: seq<World>, es: seq<Event>, i: nat)
    requires Run(ws, es) && i < |ws| && ws[i].dtor.Asleep?
    ensures ws[i].dtor.notified <==> Leases(ws[i]) == {}
    ensures Enabled(ws[i], Recheck) && (Apply(ws[i], Recheck).dtor.Returned? <==> Leases(ws[i]) == {})
  {
    InvRun(ws, es, i);
  }

  // ---------- every request is answered at most once ----------

  /** A request is answered exactly when nothing more is to come for it. */
  predicate Answered(r: Request) {
    match r.place
    case AwaitSession => r.result.None? && !r.outstanding
    case Ready => r.result.None? && !r.outstanding
    case Leased => r.result.None? && !r.outstanding
    case _ => r.outstanding <==> r.result.None?
  }

  lemma {:induction false} AnsweredOnce(ws: seq<World>, es: seq<Event>, i: nat, id: Id)
    requires Run(ws, es) && i < |ws| && id in ws[i].requests
    ensures Answered(ws[i].requests[id])
    ensures i > 0 && id in ws[i - 1].requests && ws[i - 1].requests[id].result.Some? ==>
              ws[i].requests[id].result == ws[i - 1].requests[id].result
  {
    if i > 0 {
      if id in ws[i - 1].requests { AnsweredOnce(ws, es, i - 1, id); }
      assert Enabled(ws[i - 1], es[i - 1]) && ws[i] == Apply(ws[i - 1], es[i - 1]);
      hide Run;
    }
  }

  // ---------- what a request is told, and who may use the DAO ----------

  /** The step is the reason for this answer: a refusal before the lease, a session found inactive, an
      end of the service seen by one of the checks, or the DAO's completion. */
  predicate Decides(w: World, e: Event, id: Id, s: Status) {
    match e
    case Reject(i, status) => i == id && s == status
    case SessionDone(i, active) =>
      i == id && ((!w.valid && s == Unavailable) || (w.valid && !active && s == Unauthorized))
    case Acquire(i) => i == id && !(w.valid && w.dao) && s == Unavailable
    case Complete(i, ok) => i == id && s == (if ok && w.valid then Success else Unavailable)
    case _ => false
  }

  lemma DecidedStep(w: World, e: Event, id: Id, s: Status)
    requires Enabled(w, e) && (id in w.requests ==> Answered(w.requests[id]))
    ensures (id in Apply(w, e).requests && Apply(w, e).requests[id].result == Some(s)) <==>
            (id in w.requests && w.requests[id].result == Some(s)) || Decides(w, e, id, s)
  {
  }

  /** A request is told an answer exactly when some step was the reason for it; so Success means that the
      DAO succeeded while the service was valid, and an active session is never called unauthorized. */
  lemma {:induction false} AnsweredExactly(ws: seq<World>, es: seq<Event>, i: nat, id: Id, s: Status)
    requires Run(ws, es) && i < |ws|
    ensures (id in ws[i].requests && ws[i].requests[id].result == Some(s)) <==>
            exists j :: 0 <= j < i && Decides(ws[j], es[j], id, s)
  {
    if i > 0 {
      AnsweredExactly(ws, es, i - 1, id, s);
      if id in ws[i - 1].requests { AnsweredOnce(ws, es, i - 1, id); }
      hide Apply, Enabled, Decides;
      DecidedStep(ws[i - 1], es[i - 1], id, s);
    }
  }

  /** Past the check of its session. */
  predicate Admitted(r: Request) { r.place.Ready? || Holds(r) || r.outstanding || r.result == Some(Success) }

  lemma AdmittedStep(w: World, e: Event, id: Id)
    requires Enabled(w, e) && id in Apply(w, e).requests && Admitted(Apply(w, e).requests[id])
    ensures (id in w.requests && Admitted(w.requests[id])) || e == SessionDone(id, true) || e == Begin(id, false)
    ensures e == Begin(id, false) ==> id !in w.requests
  {
  }

  lemma BegunStep(w: World, e: Event, id: Id)
    requires Enabled(w, e)
    ensures id in Apply(w, e).requests <==> id in w.requests || (e.Begin? && e.id == id)
    ensures e.Begin? && e.id == id ==> id !in w.requests
  {
  }

  /** A request begins once. */
  lemma {:induction false} BegunOnce(ws: seq<World>, es: seq<Event>, i: nat, id: Id)
    requires Run(ws, es) && i < |ws| && |ws| == |es| + 1
    ensures id in ws[i].requests <==> Begin(id, true) in es[..i] || Begin(id, false) in es[..i]
    ensures !(Begin(id, true) in es[..i] && Begin(id, false) in es[..i])
  {
    if i > 0 {
      BegunOnce(ws, es, i - 1, id);
      hide Apply, Enabled;
      assert es[..i] == es[..i - 1] + [es[i - 1]];
      BegunStep(ws[i - 1], es[i - 1], id);
    }
  }

  /** A request that needs a session takes a lease, calls the DAO and succeeds only after that session was
      found active. */
  lemma {:induction false} SessionBeforeLease(ws: seq<World>, es: seq<Event>, i: nat, id: Id)
    requires Run(ws, es) && i < |ws| && |ws| == |es| + 1 && id in ws[i].requests && Admitted(ws[i].requests[id])
    ensures Begin(id, true) in es[..i] ==> SessionDone(id, true) in es[..i]
  {
    if i > 0 {
      hide Apply, Enabled, Admitted;
      assert es[..i] == es[..i - 1] + [es[i - 1]];
      AdmittedStep(ws[i - 1], es[i - 1], id);
      BegunOnce(ws, es, i, id);
      if id in ws[i - 1].requests && Admitted(ws[i - 1].requests[id]) {
        SessionBeforeLease(ws, es, i - 1, id);
        BegunStep(ws[i - 1], es[i - 1], id);
      }
    }
  }

  /** The step is the answer that a request waits for before its session is known. */
  predicate EndsWait(e: Event, id: Id) { (e.SessionDone? || e.Reject?) && e.id == id }

  lemma WaitStep(w: World, e: Event, id: Id)
    requires Enabled(w, e)
    ensures At(Apply(w, e), id, AwaitSession) <==> e == Begin(id, true) || (At(w, id, AwaitSession) && !EndsWait(e, id))
    ensures id !in Apply(w, e).requests ==> !EndsWait(e, id)
  {
  }

  lemma {:induction false} NoEndBeforeBegin(ws: seq<World>, es: seq<Event>, i: nat, id: Id)
    requires Run(ws, es) && i < |ws| && id !in ws[i].requests
    ensures forall j :: 0 <= j < i ==> !EndsWait(es[j], id)
  {
    if i > 0 {
      hide Apply, Enabled, EndsWait;
      WaitStep(ws[i - 1], es[i - 1], id);
      BegunStep(ws[i - 1], es[i - 1], id);
      NoEndBeforeBegin(ws, es, i - 1, id);
    }
  }

  /** A request waits for its session exactly from its begin until the session's answer, found active or
      not, or a refusal. */
  lemma {:induction false} WaitsExactly(ws: seq<World>, es: seq<Event>, i: nat, id: Id)
    requires Run(ws, es) && |ws| == |es| + 1 && i < |ws|
    ensures At(ws[i], id, AwaitSession) <==>
            Begin(id, true) in es[..i] && forall j :: 0 <= j < i ==> !EndsWait(es[j], id)
  {
    if i > 0 {
      hide Apply, Enabled, EndsWait, At;
      WaitsExactly(ws, es, i - 1, id);
      WaitStep(ws[i - 1], es[i - 1], id);
      BegunOnce(ws, es, i - 1, id);
      BegunStep(ws[i - 1], es[i - 1], id);
      if id !in ws[i - 1].requests { NoEndBeforeBegin(ws, es, i - 1, id); }
      assert es[..i] == es[..i - 1] + [es[i - 1]];
      BeginEndsNothing(id);
    }
  }

  lemma BeginEndsNothing(id: Id)
    ensures forall needs :: !EndsWait(Begin(id, needs), id)
  {
  }

  // ---------- the object ----------

  /** The shared lifetime under its mutex; world adds the requests and the destructor's state. */
  class Lifetime {
    var valid: bool
    var activeCalls: int
    var dao: bool
    ghost var world: World

    ghost predicate Valid()
      reads this
    {
      world.valid == valid && world.activeCalls == activeCalls && world.dao == dao && Inv(world)
    }

    constructor (dao: bool)
      ensures Valid() && world == Initial(dao)
    {
      valid, activeCalls, this.dao := true, 0, dao;
      world := Initial(dao);
      new;
      assert Leases(world) == {};
    }

    /** DaoCallLease's constructor. */
    method TakeLease(id: Id) returns (leased: bool)
      requires Valid() && Enabled(world, Acquire(id))
      modifies this
      ensures Valid() && world == Apply(old(world), Acquire(id))
      ensures leased <==> id in Leases(world)
    {
      InvStep(world, Acquire(id));
      LeasesStep(world, Acquire(id));
      hide Inv, Leases;
      world := Apply(world, Acquire(id));
      leased := false;
      if !valid || !dao {
        return;
      }
      activeCalls := activeCalls + 1;
      leased := true;
    }

    /** DaoCallLease's destructor; notify says that drained was signalled. */
    method DropLease(id: Id) returns (notify: bool)
      requires Valid() && Enabled(world, Release(id))
      modifies this
      ensures Valid() && world == Apply(old(world), Release(id)) && id !in Leases(world)
      ensures notify <==> Leases(world) == {}
    {
      InvStep(world, Release(id));
      LeasesStep(world, Release(id));
      world := Apply(world, Release(id));
      activeCalls := activeCalls - 1;
      notify := activeCalls == 0;
      hide Leases, Apply;
      assert activeCalls == |Leases(world)|;
    }

    /** The destructor's critical section, each time it gets the mutex: done lets it return. */
    method TryDrain() returns (done: bool)
      requires Valid() && !world.dtor.Returned?
      modifies this
      ensures Valid() && world == Apply(old(world), if old(world).dtor.NotBegun? then Invalidate else Recheck)
      ensures done == world.dtor.Returned? && (done <==> Leases(old(world)) == {})
    {
      ghost var e: Event := if world.dtor.NotBegun? then Invalidate else Recheck;
      InvStep(world, e);
      assert activeCalls == |Leases(world)|;
      hide Leases, Guarded;
      world := Apply(world, e);
      valid := false;
      done := activeCalls == 0;
      if done {
        dao := false;
      }
    }
  }
}
