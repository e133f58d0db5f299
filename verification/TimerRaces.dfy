/** Runs of the timer queue that end with a waiting timer and an unarmed timerfd: one with a timerfd
    that goes off early, one with a punctual timerfd and a clock that never goes back. Times are in
    microseconds. */
module TimerRaces {
  import opened Wrappers
  import opened TimerQueue

  lemma StepTo(ss: seq<State>, es: seq<Event>, e: Event, v: State) returns (ss2: seq<State>, es2: seq<Event>)
    requires Run(ss, es) && |ss| == |es| + 1 && Enabled(ss[|es|], e) && Apply(ss[|es|], e) == v
    requires forall i :: 0 <= i < |es| ==> Punctual(ss[i], es[i])
    ensures Run(ss2, es2) && ss2 == ss + [v] && es2 == es + [e] && |ss2| == |es2| + 1
    ensures Punctual(ss[|es|], e) ==> forall i :: 0 <= i < |es2| ==> Punctual(ss2[i], es2[i])
  {
    ss2, es2 := Then(ss, es, e, v);
    hide Apply, Enabled, Punctual;
  }

  /** The loop waits for a timer that nothing will announce. */
  predicate Forgotten(s: State) { s.phase.Idle? && s.queue != [] && s.armed.None? && !s.ready && !s.signalled }

  function T1(): Timer { Timer(1, 1000, 0, false) }
  function T2(): Timer { Timer(2, 900, 0, false) }
  function T3(): Timer { Timer(3, 2000, 0, false) }

  // ---------- early ----------

  lemma EarlyInsert()
    ensures Insert([], T1()) == [T1()] && DueCount([T1()], 0) == 0
    ensures [T1()][0..] == [T1()] && [T1()][..0] == []
  {
  }

  function Early(phase: Phase, armed: Option<int>, ready: bool, signalled: bool): State {
    State(phase, [T1()], [], 0, 0, {}, map[1 := false], [], armed, 1000, ready, signalled, 0)
  }

  lemma EarlyReported() returns (ss: seq<State>, es: seq<Event>)
    ensures Run(ss, es) && es == [Add(T1()), Ring, Notify] && |ss| == 4 && ss[3] == Early(Idle, Some(1000), true, true)
  {
    EarlyInsert();
    TimerOne();
    hide Insert, DueCount, T1, Run;
    ss, es := [Initial()], [];
    FirstRun();
    ss, es := Then(ss, es, Add(T1()), Early(Idle, Some(1000), false, false));
    ss, es := Then(ss, es, Ring, Early(Idle, Some(1000), true, false));
    ss, es := Then(ss, es, Notify, Early(Idle, Some(1000), true, true));
  }

  /** The timerfd goes off before its time; its handler finds nothing due and leaves it unarmed. */
  lemma EarlyRingForgets() returns (ss: seq<State>, es: seq<Event>)
    ensures Run(ss, es) && es == [Add(T1()), Ring, Notify, TakeClock, ReadFd, EndCalls, EndReset]
    ensures |ss| == 8 && Forgotten(ss[7])
  {
    EarlyInsert();
    ss, es := EarlyReported();
    hide Insert, DueCount, T1, Run;
    ss, es := Then(ss, es, TakeClock, Early(Reading, Some(1000), true, false));
    ss, es := Then(ss, es, ReadFd, Early(Calling, None, false, false));
    ss, es := Then(ss, es, EndCalls, Early(Resetting, None, false, false));
    ss, es := Then(ss, es, EndReset, Early(Idle, None, false, false));
  }

  lemma TimerOne()
    ensures T1() == Timer(1, 1000, 0, false)
  {
  }

  lemma Then(ss: seq<State>, es: seq<Event>, e: Event, v: State) returns (ss2: seq<State>, es2: seq<Event>)
    requires Run(ss, es) && |ss| == |es| + 1 && Enabled(ss[|es|], e) && Apply(ss[|es|], e) == v
    ensures Run(ss2, es2) && ss2 == ss + [v] && es2 == es + [e] && |ss2| == |es2| + 1
  {
    ss2, es2 := ss + [v], es + [e];
    hide Apply, Enabled;
  }

  // ---------- on time ----------

  const ONE := map[1 := false]
  const TWO := map[1 := false, 2 := false]
  const THREE := map[1 := false, 2 := false, 3 := false]

  /** Between two handlers, with the timerfd set for a timer and due to go off. */
  datatype Fd = Fd(armed: Option<int>, rings: int, ready: bool, signalled: bool)

  function Waiting(q: seq<Timer>, created: map<int, bool>, freed: set<int>, ran: seq<Call>, fd: Fd,
                   now: int, time: int): State {
    State(Idle, q, [], 0, now, freed, created, ran, fd.armed, fd.rings, fd.ready, fd.signalled, time)
  }

  lemma InsertSteps()
    ensures Insert([], T1()) == [T1()] && Insert([T1()], T2()) == [T2(), T1()] && Insert([], T3()) == [T3()]
    ensures DueCount([T2(), T1()], 1000) == 2 && DueCount([T3()], 1100) == 0
  {
    assert [T2(), T1()][1..] == [T1()] && [T1()][1..] == [];
    assert DueCount([T1()], 1000) == 1;
  }

  /** One timer goes off and is reported; before its handler runs, another handler adds an earlier one
      and thereby sets the timerfd anew, for the floor. */
  lemma SetAnew() returns (ss: seq<State>, es: seq<Event>)
    ensures Run(ss, es) && |es| == 5 && |ss| == 6 && forall i :: 0 <= i < |es| ==> Punctual(ss[i], es[i])
    ensures ss[5] == Waiting([T2(), T1()], TWO, {}, [], Fd(Some(900), 1100, false, true), 0, 1000)
  {
    InsertSteps();
    hide Insert, DueCount, Run;
    ss, es := [Initial()], [];
    FirstRun();
    var fd := Fd(Some(1000), 1000, false, false);
    ss, es := StepTo(ss, es, Add(T1()), Waiting([T1()], ONE, {}, [], fd, 0, 0));
    ss, es := StepTo(ss, es, Tick(1000), Waiting([T1()], ONE, {}, [], fd, 0, 1000));
    ss, es := StepTo(ss, es, Ring, Waiting([T1()], ONE, {}, [], fd.(ready := true), 0, 1000));
    ss, es := StepTo(ss, es, Notify, Waiting([T1()], ONE, {}, [], fd.(ready := true, signalled := true), 0, 1000));
    ss, es := StepTo(ss, es, Add(T2()),
                     Waiting([T2(), T1()], TWO, {}, [], Fd(Some(900), 1100, false, true), 0, 1000));
  }

  lemma FirstRun()
    ensures Run([Initial()], [])
  {
  }

  function Batch(phase: Phase, pos: nat, ran: seq<Call>, freed: set<int>): State {
    State(phase, [], [T2(), T1()], pos, 1000, freed, TWO, ran, Some(900), 1100, false, false, 1000)
  }

  const CALLS := [Call(2, 900, 1000), Call(1, 1000, 1000)]

  /** The handler's read finds nothing yet, but both timers are due; it serves them and leaves the
      timerfd set although the queue is empty. */
  lemma LeftSet() returns (ss: seq<State>, es: seq<Event>)
    ensures Run(ss, es) && |es| == 10 && |ss| == 11 && forall i :: 0 <= i < |es| ==> Punctual(ss[i], es[i])
    ensures ss[10] == Batch(Resetting, 0, CALLS, {})
  {
    InsertSteps();
    ss, es := SetAnew();
    hide Insert, DueCount, Run;
    ss, es := StepTo(ss, es, TakeClock, ss[5].(phase := Reading, now := 1000, signalled := false));
    assert [T2(), T1()][2..] == [] && [T2(), T1()][..2] == [T2(), T1()];
    ss, es := StepTo(ss, es, ReadFd, Batch(Calling, 0, [], {}));
    ss, es := StepTo(ss, es, RunOne, Batch(Calling, 1, [Call(2, 900, 1000)], {}));
    ss, es := StepTo(ss, es, RunOne, Batch(Calling, 2, CALLS, {}));
    ss, es := StepTo(ss, es, EndCalls, Batch(Resetting, 0, CALLS, {}));
  }

  function Served(fd: Fd, time: int): State { Waiting([], TWO, {1, 2}, CALLS, fd, 1000, time) }

  /** The left-over setting goes off with an empty queue, 100 microseconds after it was made. */
  lemma RingsAgain() returns (ss: seq<State>, es: seq<Event>)
    ensures Run(ss, es) && |es| == 16 && |ss| == 17 && forall i :: 0 <= i < |es| ==> Punctual(ss[i], es[i])
    ensures ss[16] == Served(Fd(Some(900), 1100, true, true), 1100)
  {
    ss, es := LeftSet();
    hide Insert, DueCount, Run;
    var fd := Fd(Some(900), 1100, false, false);
    ss, es := StepTo(ss, es, ResetOne, Batch(Resetting, 1, CALLS, {2}));
    ss, es := StepTo(ss, es, ResetOne, Batch(Resetting, 2, CALLS, {1, 2}));
    ss, es := StepTo(ss, es, EndReset, Served(fd, 1000));
    ss, es := StepTo(ss, es, Tick(1100), Served(fd, 1100));
    ss, es := StepTo(ss, es, Ring, Served(fd.(ready := true), 1100));
    ss, es := StepTo(ss, es, Notify, Served(fd.(ready := true, signalled := true), 1100));
  }

  /** A timer added before the handler runs sets the timerfd once more. */
  lemma Reported() returns (ss: seq<State>, es: seq<Event>)
    ensures Run(ss, es) && |es| == 17 && |ss| == 18 && forall i :: 0 <= i < |es| ==> Punctual(ss[i], es[i])
    ensures ss[17] == Waiting([T3()], THREE, {1, 2}, CALLS, Fd(Some(2000), 2000, false, true), 1000, 1100)
  {
    InsertSteps();
    ss, es := RingsAgain();
    hide Insert, DueCount, Run;
    ss, es := StepTo(ss, es, Add(T3()),
                     Waiting([T3()], THREE, {1, 2}, CALLS, Fd(Some(2000), 2000, false, true), 1000, 1100));
  }

  /** The handler reads the clock, the timerfd goes off on time, the handler drains it, finds nothing
      due at its reading, and leaves the timer waiting with the timerfd unarmed. */
  lemma PunctualRaceForgets() returns (ss: seq<State>, es: seq<Event>)
    ensures Run(ss, es) && |es| == 23 && |ss| == 24 && forall i :: 0 <= i < |es| ==> Punctual(ss[i], es[i])
    ensures Race(ss, es, 20) && Forgotten(ss[23])
  {
    InsertSteps();
    ss, es := Reported();
    hide Insert, DueCount, Run;
    var r := ss[17].(phase := Reading, now := 1100, signalled := false);
    ss, es := StepTo(ss, es, TakeClock, r);
    ss, es := StepTo(ss, es, Tick(2000), r.(time := 2000));
    ss, es := StepTo(ss, es, Ring, r.(time := 2000, ready := true));
    assert [T3()][0..] == [T3()] && [T3()][..0] == [];
    var c := r.(time := 2000, phase := Calling, armed := None);
    ss, es := StepTo(ss, es, ReadFd, c);
    ss, es := StepTo(ss, es, EndCalls, c.(phase := Resetting));
    ss, es := StepTo(ss, es, EndReset, c.(phase := Idle));
    assert ss[19] == r.(time := 2000) && ss[20] == r.(time := 2000, ready := true);
    assert RaceAt(ss, es, 19, 20);
  }
}
