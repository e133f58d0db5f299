/** When timers are called, over every run: a timer is first due when it was added for, and again its
    interval after the moment it was put back; with a clock that does not go back, two calls of a timer
    are at least its interval apart. */
module TimerIntervals {
  import opened Wrappers
  import opened TimerQueue

  /** The step puts back the timer, or frees it. */
  predicate PutsBack(s: State, e: Event, id: int) { e.ResetOne? && s.pos < |s.expired| && s.expired[s.pos].id == id }

  /** The step calls the timer. */
  predicate CallsTimer(s: State, e: Event, id: int) { e.RunOne? && s.pos < |s.expired| && s.expired[s.pos].id == id }

  /** The timer as it stands at k, told by the events: as added, and due its interval after each time it
      was put back. */
  ghost function Entry(ss: seq<State>, es: seq<Event>, k: nat, id: int): Option<Timer>
    requires k <= |es| < |ss|
  {
    if k == 0 then None
    else
      var s, e, before := ss[k - 1], es[k - 1], Entry(ss, es, k - 1, id);
      if e.Add? && e.timer.id == id then Some(e.timer)
      else if PutsBack(s, e, id) && before.Some? then
        Some(Timer(id, s.time + before.value.step, before.value.step, before.value.repeats))
      else before
  }

  ghost predicate Follow(ss: seq<State>, es: seq<Event>, k: nat, q: seq<Timer>)
    requires k <= |es| < |ss|
  {
    forall i :: 0 <= i < |q| ==> Entry(ss, es, k, q[i].id) == Some(q[i])
  }

  /** Unaffected timers stand as they stood. */
  lemma FollowOthers(ss: seq<State>, es: seq<Event>, k: nat, q: seq<Timer>)
    requires 0 < k <= |es| < |ss| && Follow(ss, es, k - 1, q)
    requires forall i :: 0 <= i < |q| ==> !(es[k - 1].Add? && es[k - 1].timer.id == q[i].id)
    requires forall i :: 0 <= i < |q| ==> !PutsBack(ss[k - 1], es[k - 1], q[i].id)
    ensures Follow(ss, es, k, q)
  {
  }

  lemma FollowInsert(ss: seq<State>, es: seq<Event>, k: nat, q: seq<Timer>, t: Timer)
    requires k <= |es| < |ss| && Follow(ss, es, k, q) && Entry(ss, es, k, t.id) == Some(t)
    ensures Follow(ss, es, k, Insert(q, t))
  {
    hide Insert, Entry;
    forall i | 0 <= i < |Insert(q, t)|
      ensures Entry(ss, es, k, Insert(q, t)[i].id) == Some(Insert(q, t)[i])
    {
      InsertMembers(q, t, i);
    }
  }

  lemma NewNotIn(created: map<int, bool>, q: seq<Timer>, id: int)
    requires Kinds(created, q) && id !in created
    ensures NotQueued(q, id)
  {
  }

  /** The rest of a batch does not hold the timer being put back. */
  lemma RestIsOthers(s: State)
    requires s.phase.Resetting? && s.pos < |s.expired| && Owned(s, s.expired[s.pos].id)
    ensures NotQueued(s.expired[s.pos + 1..], s.expired[s.pos].id)
  {
    var id := s.expired[s.pos].id;
    CountFrom(s.expired, s.pos, id);
    var rest := s.expired[s.pos + 1..];
    forall i | 0 <= i < |rest|
      ensures rest[i].id != id
    {
      if rest[i].id == id { CountMember(rest, i); }
    }
  }

  lemma FollowAdd(ss: seq<State>, es: seq<Event>, k: nat)
    requires 0 < k <= |es| < |ss| && es[k - 1].Add? && Enabled(ss[k - 1], es[k - 1]) && Inv(ss[k - 1])
    requires Follow(ss, es, k - 1, ss[k - 1].queue) && Follow(ss, es, k - 1, Held(ss[k - 1]))
    ensures var s := Apply(ss[k - 1], es[k - 1]); Follow(ss, es, k, s.queue) && Follow(ss, es, k, Held(s))
  {
    hide Insert, Owned, OneShot, Untouched;
    var s, t := ss[k - 1], es[k - 1].timer;
    NewNotIn(s.created, s.queue, t.id);
    NewNotIn(s.created, s.expired, t.id);
    assert NotQueued(Held(s), t.id);
    FollowOthers(ss, es, k, s.queue);
    FollowOthers(ss, es, k, Held(s));
    FollowInsert(ss, es, k, s.queue, t);
    assert Held(Added(s, t)) == Held(s);
  }

  lemma FollowReset(ss: seq<State>, es: seq<Event>, k: nat)
    requires 0 < k <= |es| < |ss| && es[k - 1].ResetOne? && Enabled(ss[k - 1], es[k - 1]) && Inv(ss[k - 1])
    requires Follow(ss, es, k - 1, ss[k - 1].queue) && Follow(ss, es, k - 1, Held(ss[k - 1]))
    ensures var s := Apply(ss[k - 1], es[k - 1]); Follow(ss, es, k, s.queue) && Follow(ss, es, k, Held(s))
  {
    var s := ss[k - 1];
    var t := s.expired[s.pos];
    assert Owned(s, t.id);
    hide Insert, Owned, OneShot, Untouched, Proper;
    HeldNotQueued(s);
    RestIsOthers(s);
    assert Held(s)[0] == t && Held(s)[1..] == s.expired[s.pos + 1..];
    assert Entry(ss, es, k - 1, t.id) == Some(t);
    FollowTail(ss, es, k - 1, Held(s));
    FollowOthers(ss, es, k, s.queue);
    FollowOthers(ss, es, k, s.expired[s.pos + 1..]);
    var u := Timer(t.id, s.time + t.step, t.step, t.repeats);
    assert Entry(ss, es, k, t.id) == Some(u);
    FollowInsert(ss, es, k, s.queue, u);
    assert t.(expiration := s.time + t.step) == u;
  }

  lemma FollowTail(ss: seq<State>, es: seq<Event>, k: nat, q: seq<Timer>)
    requires k <= |es| < |ss| && Follow(ss, es, k, q) && q != []
    ensures Follow(ss, es, k, q[1..])
  {
    hide Entry;
  }

  lemma FollowTake(ss: seq<State>, es: seq<Event>, k: nat)
    requires 0 < k <= |es| < |ss| && es[k - 1].ReadFd? && Enabled(ss[k - 1], es[k - 1])
    requires Follow(ss, es, k - 1, ss[k - 1].queue)
    ensures var s := Apply(ss[k - 1], es[k - 1]); Follow(ss, es, k, s.queue) && Follow(ss, es, k, Held(s))
  {
    hide DueCount;
  }

  lemma FollowStep(ss: seq<State>, es: seq<Event>, k: nat)
    requires 0 < k <= |es| < |ss| && Enabled(ss[k - 1], es[k - 1]) && Inv(ss[k - 1])
    requires Follow(ss, es, k - 1, ss[k - 1].queue) && Follow(ss, es, k - 1, Held(ss[k - 1]))
    ensures var s := Apply(ss[k - 1], es[k - 1]); Follow(ss, es, k, s.queue) && Follow(ss, es, k, Held(s))
  {
    hide Inv, Insert, DueCount;
    var s, e := ss[k - 1], es[k - 1];
    match e
    case Add(_) => FollowAdd(ss, es, k);
    case ResetOne => FollowReset(ss, es, k);
    case ReadFd => FollowTake(ss, es, k);
    case EndCalls => assert s.expired[0..] == s.expired;
    case _ =>
  }

  lemma {:induction false} FollowRun(ss: seq<State>, es: seq<Event>, k: nat)
    requires Run(ss, es) && |ss| == |es| + 1 && k < |ss|
    ensures Follow(ss, es, k, ss[k].queue) && Follow(ss, es, k, Held(ss[k]))
  {
    if k > 0 {
      hide Run, Follow, Inv, Enabled, Apply;
      FollowRun(ss, es, k - 1);
      InvRun(ss, es, k - 1);
      StepAt(ss, es, k - 1);
      FollowStep(ss, es, k);
    }
  }

  /** A callback runs for the timer as it stands: due when it was added for, or its interval after the
      moment it was last put back. */
  lemma CalledWhenDue(ss: seq<State>, es: seq<Event>, k: nat, id: int)
    requires Run(ss, es) && |ss| == |es| + 1 && k < |es| && CallsTimer(ss[k], es[k], id)
    ensures Entry(ss, es, k, id).Some?
    ensures ss[k + 1].ran == ss[k].ran + [Call(id, Entry(ss, es, k, id).value.expiration, ss[k].now)]
    ensures Entry(ss, es, k, id).value.expiration <= ss[k].now
  {
    StepAt(ss, es, k);
    FollowRun(ss, es, k);
    InvRun(ss, es, k);
    hide Run, Entry;
    var s := ss[k];
    assert Held(s)[s.pos] == s.expired[s.pos];
  }

  // ---------- between two calls ----------

  /** Called in the batch at hand and not yet put back. */
  predicate Served(s: State, id: int) { Count(Held(s), id) == 1 && Count(Waiting(s), id) == 0 && id in s.created }

  lemma ServedAfterCall(s: State, id: int)
    requires Enabled(s, RunOne) && CallsTimer(s, RunOne, id) && Inv(s)
    ensures Served(Apply(s, RunOne), id)
  {
    assert Owned(s, id) && Kinds(s.created, s.expired);
    hide Count, Owned, OneShot, Untouched;
    CountSplit(s.expired, s.pos, id);
    CountFrom(s.expired, s.pos, id);
    OwnedAtMostOnce(s, id);
    OwnedAtMostOnce(Apply(s, RunOne), id);
  }

  lemma OwnedAtMostOnce(s: State, id: int)
    requires Owned(s, id)
    ensures Count(Held(s), id) <= 1
  {
  }

  lemma ServedStep(s: State, e: Event, id: int)
    requires Served(s, id) && Enabled(s, e) && Inv(s) && !PutsBack(s, e, id)
    ensures Served(Apply(s, e), id) && !CallsTimer(s, e, id)
  {
    assert s.pos <= |s.expired|;
    hide Insert, DueCount, Inv, Count;
    CountFrom(s.expired, s.pos, id);
    match e
    case RunOne => ServedCall(s, id);
    case ResetOne => ServedReset(s, id);
    case EndCalls => assert s.expired[0..] == s.expired;
    case _ => ServedOther(s, e, id);
  }

  lemma ServedCall(s: State, id: int)
    requires Served(s, id) && Enabled(s, RunOne)
    ensures Served(Apply(s, RunOne), id) && !CallsTimer(s, RunOne, id)
  {
    hide Count;
    CountFrom(s.expired, s.pos, id);
  }

  lemma ServedReset(s: State, id: int)
    requires Served(s, id) && Enabled(s, ResetOne) && !PutsBack(s, ResetOne, id)
    ensures Served(Apply(s, ResetOne), id)
  {
    hide Count, Insert;
    CountFrom(s.expired, s.pos, id);
    assert Apply(s, ResetOne).expired == s.expired;
  }

  lemma ServedOther(s: State, e: Event, id: int)
    requires Served(s, id) && Enabled(s, e) && s.pos <= |s.expired|
    requires !e.RunOne? && !e.ResetOne? && !e.EndCalls?
    ensures Served(Apply(s, e), id)
  {
    hide Count, Insert, DueCount;
    CountFrom(s.expired, s.pos, id);
    if e.Add? { assert Held(Added(s, e.timer)) == Held(s) && Waiting(Added(s, e.timer)) == Waiting(s); }
  }

  lemma {:induction false} ServedUntilPutBack(ss: seq<State>, es: seq<Event>, j: nat, k: nat, id: int)
    requires Run(ss, es) && |ss| == |es| + 1 && j < k <= |es| && CallsTimer(ss[j], es[j], id)
    requires forall m :: j < m < k ==> !PutsBack(ss[m], es[m], id)
    ensures Served(ss[k], id)
    decreases k
  {
    hide Run, Enabled, Apply, Inv, Served, PutsBack;
    StepAt(ss, es, k - 1);
    InvRun(ss, es, k - 1);
    if j == k - 1 {
      ServedAfterCall(ss[j], id);
    } else {
      ServedUntilPutBack(ss, es, j, k - 1, id);
      ServedStep(ss[k - 1], es[k - 1], id);
    }
  }

  /** The timer as it stands changes only when it is put back, once it is there. */
  lemma EntryKept(ss: seq<State>, es: seq<Event>, k: nat, id: int)
    requires k < |es| < |ss| && Enabled(ss[k], es[k]) && id in ss[k].created && !PutsBack(ss[k], es[k], id)
    ensures Entry(ss, es, k + 1, id) == Entry(ss, es, k, id) && id in Apply(ss[k], es[k]).created
  {
    hide Insert, DueCount;
  }

  /** The last time before k that the timer was put back, which decides when it is due at k. */
  lemma {:induction false} LastPutBack(ss: seq<State>, es: seq<Event>, m: nat, k: nat, id: int) returns (n: nat)
    requires Run(ss, es) && |ss| == |es| + 1 && m < k < |ss| && PutsBack(ss[m], es[m], id)
    ensures m <= n < k && PutsBack(ss[n], es[n], id) && Entry(ss, es, n, id).Some? && id in ss[k].created
    ensures Entry(ss, es, k, id) == Entry(ss, es, n + 1, id)
    decreases k
  {
    hide Run, Enabled, Apply, Inv, Entry;
    StepAt(ss, es, k - 1);
    if PutsBack(ss[k - 1], es[k - 1], id) {
      n := k - 1;
      StandsWhenPutBack(ss, es, n, id);
    } else {
      n := LastPutBack(ss, es, m, k - 1, id);
      EntryKept(ss, es, k - 1, id);
    }
  }

  lemma StandsWhenPutBack(ss: seq<State>, es: seq<Event>, n: nat, id: int)
    requires Run(ss, es) && |ss| == |es| + 1 && n < |es| && PutsBack(ss[n], es[n], id)
    ensures Entry(ss, es, n, id).Some? && id in ss[n + 1].created
  {
    StepAt(ss, es, n);
    FollowRun(ss, es, n);
    InvRun(ss, es, n);
    hide Run, Entry, Insert, Owned, OneShot, Untouched;
    var s := ss[n];
    assert Held(s)[0] == s.expired[s.pos];
    assert Kinds(s.created, s.expired);
  }

  /** Between two calls of a timer it is put back, and then due its interval after that. */
  lemma {:induction false} PutBackBetween(ss: seq<State>, es: seq<Event>, j: nat, k: nat, id: int) returns (m: nat)
    requires Run(ss, es) && |ss| == |es| + 1 && j < k < |es|
    requires CallsTimer(ss[j], es[j], id) && CallsTimer(ss[k], es[k], id)
    ensures j < m < k && PutsBack(ss[m], es[m], id) && Entry(ss, es, m, id).Some? && Entry(ss, es, k, id).Some?
    ensures Entry(ss, es, k, id).value.expiration == ss[m].time + Entry(ss, es, m, id).value.step
    ensures Entry(ss, es, k, id).value.step == Entry(ss, es, m, id).value.step
  {
    hide Run, Enabled, Apply, Inv, PutsBack, CallsTimer, Entry;
    if forall m :: j < m < k ==> !PutsBack(ss[m], es[m], id) {
      ServedUntilPutBack(ss, es, j, k, id);
      StepAt(ss, es, k);
      InvRun(ss, es, k);
      ResetIsNoCall(ss[k], es[k], id);
      ServedStep(ss[k], es[k], id);
    }
    m :| j < m < k && PutsBack(ss[m], es[m], id);
    m := LastPutBack(ss, es, m, k, id);
    EntryPutBack(ss, es, m, id);
  }

  lemma EntryPutBack(ss: seq<State>, es: seq<Event>, m: nat, id: int)
    requires m < |es| < |ss| && PutsBack(ss[m], es[m], id) && Entry(ss, es, m, id).Some?
    ensures var t := Entry(ss, es, m, id).value;
            Entry(ss, es, m + 1, id) == Some(Timer(id, ss[m].time + t.step, t.step, t.repeats))
  {
  }

  lemma ResetIsNoCall(s: State, e: Event, id: int)
    requires CallsTimer(s, e, id)
    ensures !PutsBack(s, e, id)
  {
  }

  /** A timer keeps the interval and the kind that it was added with. */
  lemma {:induction false} EntryAsAdded(ss: seq<State>, es: seq<Event>, k: nat, id: int)
    requires k <= |es| < |ss| && Entry(ss, es, k, id).Some?
    ensures exists i :: 0 <= i < k && es[i].Add? && es[i].timer.id == id
                        && es[i].timer.step == Entry(ss, es, k, id).value.step
                        && es[i].timer.repeats == Entry(ss, es, k, id).value.repeats
  {
    if !(es[k - 1].Add? && es[k - 1].timer.id == id) { EntryAsAdded(ss, es, k - 1, id); }
  }

  // ---------- with a clock that does not go back ----------

  predicate ClockForward(ss: seq<State>, es: seq<Event>) {
    |ss| == |es| + 1 && forall i :: 0 <= i < |es| && es[i].Tick? ==> ss[i].time <= es[i].to
  }

  lemma ClockStep(s: State, e: Event)
    requires Enabled(s, e) && s.now <= s.time && (e.Tick? ==> s.time <= e.to)
    ensures s.time <= Apply(s, e).time && Apply(s, e).now <= Apply(s, e).time
  {
    hide Insert, DueCount;
  }

  lemma {:induction false} ClockRun(ss: seq<State>, es: seq<Event>, i: nat, j: nat)
    requires Run(ss, es) && ClockForward(ss, es) && i <= j < |ss|
    ensures ss[i].now <= ss[i].time <= ss[j].time && ss[j].now <= ss[j].time
    decreases j
  {
    hide Run, Enabled, Apply;
    if j > 0 {
      StepAt(ss, es, j - 1);
      ClockRun(ss, es, if i < j then i else j - 1, j - 1);
      ClockStep(ss[j - 1], es[j - 1]);
    } else {
      ClockStart(ss, es);
    }
  }

  lemma ClockStart(ss: seq<State>, es: seq<Event>)
    requires Run(ss, es)
    ensures ss[0].now <= ss[0].time
  {
    hide Enabled, Apply;
  }

  /** Two calls of a timer are at least the interval apart that it was added with: the second is due that
      long after the moment it was put back, which is not before the first. */
  lemma CallsAreSpaced(ss: seq<State>, es: seq<Event>, j: nat, k: nat, id: int)
    requires Run(ss, es) && ClockForward(ss, es) && j < k < |es|
    requires CallsTimer(ss[j], es[j], id) && CallsTimer(ss[k], es[k], id)
    ensures exists i :: 0 <= i < k && es[i].Add? && es[i].timer.id == id
                        && ss[k].now >= ss[j].now + es[i].timer.step
  {
    hide Run, CallsTimer, Entry, PutsBack;
    var m := PutBackBetween(ss, es, j, k, id);
    CalledWhenDue(ss, es, k, id);
    ClockRun(ss, es, j, m);
    EntryAsAdded(ss, es, k, id);
  }
}
