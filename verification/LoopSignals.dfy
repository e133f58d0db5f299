/** What the loop's signals say, over every run: the eventfd counter is positive exactly when a wake-up was
    written and not read since, quit is set exactly when somebody asked for it since the loop was started,
    and the loop returns exactly at a test that finds it set. */
module LoopSignals {
  import opened EventLoop

  // ---------- wake-ups ----------

  predicate Wakes<T>(e: Event<T>) { e.Wakeup? || e.OwnWakeup? }

  /** A wake-up was there at the start, or written since, and has not been read. */
  ghost predicate Signalled<T>(cs: seq<Loop<T>>, es: seq<Event<T>>, i: nat)
    requires i <= |es| && |cs| > 0
  {
    if i == 0 then cs[0].counter > 0
    else !es[i - 1].HandleRead? && (Wakes(es[i - 1]) || Signalled(cs, es, i - 1))
  }

  lemma CounterStep<T>(c: Loop<T>, e: Event<T>)
    requires Enabled(c, e)
    ensures Apply(c, e).counter > 0 <==> !e.HandleRead? && (Wakes(e) || c.counter > 0)
    ensures c.counter <= COUNTER_MAX ==> Apply(c, e).counter <= COUNTER_MAX
    ensures Apply(c, e).counter <= c.counter + if Wakes(e) then 1 else 0
  {
  }

  /** Poll is made to return by the eventfd exactly while a wake-up is unread; a counter that is full stays
      within what an eventfd holds. */
  lemma {:induction false} CounterExactly<T>(cs: seq<Loop<T>>, es: seq<Event<T>>, i: nat)
    requires Run(cs, es) && |cs| == |es| + 1 && i < |cs|
    ensures cs[i].counter > 0 <==> Signalled(cs, es, i)
    ensures cs[0].counter <= COUNTER_MAX ==> cs[i].counter <= COUNTER_MAX
  {
    if i > 0 {
      StepAt(cs, es, i - 1);
      CounterExactly(cs, es, i - 1);
      hide Run, Apply, Enabled, Wakes;
      CounterStep(cs[i - 1], es[i - 1]);
    }
  }

  /** The loop's thread writes the eventfd only for what it queues while it calls functors. */
  lemma OwnWakeupsOnlyWhileCalling<T>(cs: seq<Loop<T>>, es: seq<Event<T>>, i: nat)
    requires Run(cs, es) && i < |es| && es[i].OwnWakeup?
    ensures cs[i].phase.Running?
  {
    StepAt(cs, es, i);
    InOrderRun(cs, es, i);
  }

  // ---------- quit ----------

  /** Somebody asked the loop to quit, and it has not been started since. */
  ghost predicate Asked<T>(cs: seq<Loop<T>>, es: seq<Event<T>>, i: nat)
    requires i <= |es| && |cs| > 0
  {
    if i == 0 then cs[0].quit
    else !es[i - 1].Start? && (es[i - 1].Quit? || es[i - 1].OwnQuit? || Asked(cs, es, i - 1))
  }

  lemma QuitStep<T>(c: Loop<T>, e: Event<T>)
    requires Enabled(c, e)
    ensures Apply(c, e).quit <==> !e.Start? && (e.Quit? || e.OwnQuit? || c.quit)
    ensures Apply(c, e).phase.Stopped? <==> c.phase.Stopped? || (e.Test? && c.quit)
    ensures e.Test? && !c.quit ==> Apply(c, e).phase.Polling?
  {
  }

  /** The loop has returned exactly if some test found that it was asked to quit since its start; so a quit
      asked for before loop() is called is lost, and one asked for later never is. */
  lemma {:induction false} StopsExactly<T>(cs: seq<Loop<T>>, es: seq<Event<T>>, i: nat)
    requires Run(cs, es) && |cs| == |es| + 1 && i < |cs|
    ensures cs[i].quit <==> Asked(cs, es, i)
    ensures cs[i].phase.Stopped? <==> exists j :: 0 <= j < i && es[j].Test? && Asked(cs, es, j)
    ensures i < |es| && es[i].Test? ==> (cs[i + 1].phase.Stopped? <==> Asked(cs, es, i))
    ensures i < |es| && es[i].Test? ==> (cs[i + 1].phase.Polling? <==> !Asked(cs, es, i))
  {
    if i < |es| {
      StepAt(cs, es, i);
      QuitStep(cs[i], es[i]);
      if es[i].Test? { TestsWhileTesting(cs[i]); }
    }
    if i > 0 {
      StepAt(cs, es, i - 1);
      StopsExactly(cs, es, i - 1);
      QuitStep(cs[i - 1], es[i - 1]);
    }
    hide Run, Apply, Enabled;
  }

  lemma TestsWhileTesting<T>(c: Loop<T>)
    requires Enabled(c, Event<T>.Test)
    ensures !c.phase.Stopped?
  {
  }

  /** A quit before the start is lost: the loop starts, tests and polls. */
  lemma EarlyQuitIsLost<T>(start: Loop<T>) returns (cs: seq<Loop<T>>, es: seq<Event<T>>)
    requires Startable(start)
    ensures Run(cs, es) && cs[0] == start && es == [Event<T>.Quit, Start, Test] && cs[3].phase.Polling? && !cs[3].quit
  {
    var c1 := Apply(start, Event<T>.Quit);
    var c2 := Apply(c1, Start);
    cs, es := [start, c1, c2, Apply(c2, Test)], [Event<T>.Quit, Start, Test];
  }
}
