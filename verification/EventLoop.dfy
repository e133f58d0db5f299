/** The reactor's cross-thread functor queue with its eventfd wake-up. Every atomic action of the
    loop thread and of the posting threads is one event; a run interleaves them freely. */
module EventLoop {
  // Largest value an eventfd counter holds; a write that would pass it is refused.
  const COUNTER_MAX := 0xFFFF_FFFF_FFFF_FFFE

  /** Where the loop thread stands: before loop(), at the quit test, at or in poll, dispatching channels
      (the eventfd possibly among them), in doPendingFunctors before and after the swap, returned. */
  datatype Phase = Idle | Testing | Polling | Handling(readDue: bool) | Swapping | Running | Stopped

  /** owing counts other threads between their push or quit and their wakeup; selfOwing says the same of the
      loop thread. posted and ran record every functor ever queued and every functor started. */
  datatype Loop<T> = Loop(phase: Phase, queue: seq<T>, batch: seq<T>, owing: nat, selfOwing: bool,
                          counter: nat, quit: bool, posted: seq<T>, ran: seq<T>)

  datatype Event<T> =
    // loop thread
    | Start | Test | PollReturn(sawWakeup: bool) | HandleRead | BeginCalling | Swap | RunOne | EndCalling
    | OwnPost(f: T) | OwnWakeup | OwnQuit
    // any other thread
    | Post(f: T) | Quit | Wakeup

  predicate Calling<T>(c: Loop<T>) { c.phase.Swapping? || c.phase.Running? }

  predicate InUserCode<T>(c: Loop<T>) { (c.phase.Handling? || c.phase.Running?) && !c.selfOwing }

  predicate Enabled<T>(c: Loop<T>, e: Event<T>) {
    match e
    case Start => c.phase.Idle?
    case Test => c.phase.Testing?
    case PollReturn(saw) => c.phase.Polling? && (saw ==> c.counter > 0)
    case HandleRead => c.phase.Handling? && c.phase.readDue && !c.selfOwing
    case BeginCalling => c.phase.Handling? && !c.phase.readDue && !c.selfOwing
    case Swap => c.phase.Swapping?
    case RunOne => c.phase.Running? && !c.selfOwing && c.batch != []
    case EndCalling => c.phase.Running? && !c.selfOwing && c.batch == []
    case OwnPost(_) => InUserCode(c)
    case OwnWakeup => c.selfOwing
    case OwnQuit => InUserCode(c)
    case Post(_) => true
    case Quit => true
    case Wakeup => c.owing > 0
  }

  function Written(counter: nat): nat { if counter < COUNTER_MAX then counter + 1 else counter }

  function Apply<T>(c: Loop<T>, e: Event<T>): Loop<T>
    requires Enabled(c, e)
  {
    match e
    case Start => c.(phase := Testing, quit := false)
    case Test => c.(phase := if c.quit then Stopped else Polling)
    case PollReturn(saw) => c.(phase := Handling(saw))
    case HandleRead => c.(phase := Handling(false), counter := 0)
    case BeginCalling => c.(phase := Swapping)
    case Swap => c.(phase := Running, batch := c.queue, queue := [])
    case RunOne => c.(ran := c.ran + [c.batch[0]], batch := c.batch[1..])
    case EndCalling => c.(phase := Testing)
    case OwnPost(f) => c.(queue := c.queue + [f], posted := c.posted + [f], selfOwing := Calling(c))
    case OwnWakeup => c.(selfOwing := false, counter := Written(c.counter))
    case OwnQuit => c.(quit := true)
    case Post(f) => c.(queue := c.queue + [f], posted := c.posted + [f], owing := c.owing + 1)
    case Quit => c.(quit := true, owing := c.owing + 1)
    case Wakeup => c.(owing := c.owing - 1, counter := Written(c.counter))
  }

  /** A loop about to be started: nothing has run yet. */
  ghost predicate Startable<T>(c: Loop<T>) {
    c.phase.Idle? && c.batch == [] && !c.selfOwing && c.posted == c.queue && c.ran == []
  }

  ghost predicate Run<T>(cs: seq<Loop<T>>, es: seq<Event<T>>) {
    && |cs| == |es| + 1 && Startable(cs[0])
    && forall i :: 0 <= i < |es| ==> Enabled(cs[i], es[i]) && cs[i + 1] == Apply(cs[i], es[i])
  }

  // ---------- order and at most once ----------

  /** Started, swapped-out and queued functors are the posted ones, in post order. */
  ghost predicate InOrder<T>(c: Loop<T>) { c.ran + c.batch + c.queue == c.posted }

  predicate Settled<T>(c: Loop<T>) {
    && (c.batch != [] ==> c.phase.Running?)
    && (c.selfOwing ==> c.phase.Running?)
  }

  lemma InOrderStep<T>(c: Loop<T>, e: Event<T>)
    requires InOrder(c) && Settled(c) && Enabled(c, e)
    ensures InOrder(Apply(c, e)) && Settled(Apply(c, e))
  {
    match e {
      case Swap => assert c.ran + [] + c.queue == c.ran + c.queue + [];
      case RunOne => assert c.batch == [c.batch[0]] + c.batch[1..];
      case OwnPost(f) => assert c.ran + c.batch + (c.queue + [f]) == c.ran + c.batch + c.queue + [f];
      case Post(f) => assert c.ran + c.batch + (c.queue + [f]) == c.ran + c.batch + c.queue + [f];
      case _ =>
    }
  }

  lemma {:induction false} InOrderRun<T>(cs: seq<Loop<T>>, es: seq<Event<T>>, i: nat)
    requires Run(cs, es) && i < |cs|
    ensures InOrder(cs[i]) && Settled(cs[i])
  {
    if i > 0 {
      hide Apply, Enabled;
      InOrderRun(cs, es, i - 1);
      InOrderStep(cs[i - 1], es[i - 1]);
    }
  }

  /** Functors start in post order and at most once: whatever has started is a prefix of what was
      posted, position by position, and the rest still waits. */
  lemma RunsInPostOrder<T>(cs: seq<Loop<T>>, es: seq<Event<T>>, i: nat)
    requires Run(cs, es) && i < |cs|
    ensures var c := cs[i];
            |c.ran| <= |c.posted| && c.ran == c.posted[..|c.ran|] && c.batch + c.queue == c.posted[|c.ran|..]
  {
    InOrderRun(cs, es, i);
    var c := cs[i];
    assert c.ran + c.batch + c.queue == c.ran + (c.batch + c.queue);
  }

  // ---------- no lost wake-up ----------

  /** Someone will make poll return: the counter is positive or a thread is about to write it. */
  predicate Woken<T>(c: Loop<T>) { c.counter > 0 || c.owing > 0 || c.selfOwing }

  /** Past the swap and until poll returns, queued functors and quit requests have a wake-up. */
  predicate Awake<T>(c: Loop<T>) {
    && (c.phase.Running? || c.phase.Testing? || c.phase.Polling? ==> c.queue == [] || Woken(c))
    && (c.phase.Polling? && c.quit ==> Woken(c))
  }

  lemma AwakeStep<T>(c: Loop<T>, e: Event<T>)
    requires Awake(c) && Settled(c) && Enabled(c, e) && !e.Start?
    ensures Awake(Apply(c, e))
  {
  }

  lemma {:induction false} AwakeRun<T>(cs: seq<Loop<T>>, es: seq<Event<T>>, i: nat)
    requires Run(cs, es) && i < |cs| && (cs[0].queue == [] || Woken(cs[0]))
    ensures cs[i].phase.Idle? ==> cs[i].queue == [] || Woken(cs[i])
    ensures Awake(cs[i])
  {
    if i > 0 {
      AwakeRun(cs, es, i - 1);
      InOrderRun(cs, es, i - 1);
      hide Run, InOrder;
      if !es[i - 1].Start? { AwakeStep(cs[i - 1], es[i - 1]); }
    }
  }

  /** The loop is about to block with work it will not be told about. */
  predicate Stranded<T>(c: Loop<T>) { c.phase.Polling? && c.queue != [] && c.counter == 0 && c.owing == 0 }

  ghost predicate NeverStranded<T(!new)>(start: Loop<T>) {
    forall cs: seq<Loop<T>>, es: seq<Event<T>>, i :: Run(cs, es) && cs[0] == start && 0 <= i < |cs| ==> !Stranded(cs[i])
  }

  /** In every interleaving no wake-up is lost, precisely when the queue is empty as loop() is
      called or somebody has woken, or is about to wake, the eventfd. What the loop's own thread
      queues before loop() does neither. */
  lemma NoLostWakeupExactly<T(!new)>(start: Loop<T>)
    requires Startable(start)
    ensures NeverStranded(start) <==> start.queue == [] || start.counter > 0 || start.owing > 0
  {
    if start.queue == [] || Woken(start) {
      forall cs: seq<Loop<T>>, es: seq<Event<T>>, i | Run(cs, es) && cs[0] == start && 0 <= i < |cs|
        ensures !Stranded(cs[i])
      {
        AwakeRun(cs, es, i);
        InOrderRun(cs, es, i);
      }
    } else {
      var s1 := Apply(start, Start);
      var cs, es := [start, s1, Apply(s1, Test)], [Event<T>.Start, Test];
      assert Run(cs, es) && Stranded(cs[2]);
    }
  }

  /** A quit asked for while the loop runs is noticed: the loop never blocks on it. */
  lemma QuitIsNoticed<T>(cs: seq<Loop<T>>, es: seq<Event<T>>, i: nat)
    requires Run(cs, es) && i < |cs| && (cs[0].queue == [] || Woken(cs[0]))
    ensures cs[i].phase.Polling? && cs[i].quit ==> cs[i].counter > 0 || cs[i].owing > 0
  {
    AwakeRun(cs, es, i);
    InOrderRun(cs, es, i);
  }

  /** One state leads to the next by each event. */
  ghost predicate Leads<T>(cs: seq<Loop<T>>, es: seq<Event<T>>) {
    |cs| == |es| + 1 && forall i :: 0 <= i < |es| ==> Enabled(cs[i], es[i]) && cs[i + 1] == Apply(cs[i], es[i])
  }

  lemma ThenStep<T>(cs: seq<Loop<T>>, es: seq<Event<T>>, e: Event<T>) returns (cs2: seq<Loop<T>>, es2: seq<Event<T>>)
    requires Leads(cs, es) && |cs| == |es| + 1 && Enabled(cs[|es|], e)
    ensures Leads(cs2, es2) && |cs2| == |es2| + 1 && cs2[0] == cs[0] && es2 == es + [e]
            && cs2[|es2|] == Apply(cs[|es|], e)
  {
    hide Apply, Enabled;
    cs2, es2 := cs + [Apply(cs[|es|], e)], es + [e];
  }

  /** No other thread posts and poll does not time out in these events. */
  predicate Undisturbed<T>(es: seq<Event<T>>) {
    forall i :: 0 <= i < |es| ==> !es[i].Post? && !es[i].OwnPost? && !es[i].Quit? && es[i] != PollReturn(false)
  }

  lemma {:induction false} BatchCanRun<T>(cs: seq<Loop<T>>, es: seq<Event<T>>)
    returns (cs2: seq<Loop<T>>, es2: seq<Event<T>>)
    requires Leads(cs, es) && |cs| == |es| + 1 && Undisturbed(es) && cs[|es|].phase.Running? && !cs[|es|].selfOwing
    ensures Leads(cs2, es2) && Undisturbed(es2) && |cs2| == |es2| + 1 && cs2[0] == cs[0]
    ensures cs2[|es2|] == cs[|es|].(ran := cs[|es|].ran + cs[|es|].batch, batch := [])
    decreases |cs[|es|].batch|
  {
    var c := cs[|es|];
    if c.batch == [] {
      cs2, es2 := cs, es;
      assert c.ran + [] == c.ran;
    } else {
      cs2, es2 := ThenStep(cs, es, RunOne);
      hide Leads;
      assert c.ran + [c.batch[0]] + c.batch[1..] == c.ran + c.batch;
      cs2, es2 := BatchCanRun(cs2, es2);
    }
  }

  /** A wake-up is enough: from any poll with one written or owed, the threads' own steps, without a
      timeout and without further posts, start everything queued, in order. */
  lemma WokenQueueCanRun<T>(c: Loop<T>) returns (cs: seq<Loop<T>>, es: seq<Event<T>>)
    requires c.phase.Polling? && Woken(c) && Settled(c)
    ensures Leads(cs, es) && Undisturbed(es) && cs[0] == c
    ensures cs[|es|].phase.Testing? && cs[|es|].queue == [] && cs[|es|].ran == c.ran + c.queue
  {
    hide Leads;
    cs, es := StartLeads(c);
    if c.counter == 0 {
      cs, es := ThenStep(cs, es, Wakeup);
    }
    cs, es := ThenStep(cs, es, PollReturn(true));
    cs, es := ThenStep(cs, es, HandleRead);
    cs, es := ThenStep(cs, es, BeginCalling);
    cs, es := ThenStep(cs, es, Swap);
    assert cs[|es|].batch == c.queue && cs[|es|].ran == c.ran;
    cs, es := BatchCanRun(cs, es);
    cs, es := ThenStep(cs, es, EndCalling);
  }

  lemma StartLeads<T>(c: Loop<T>) returns (cs: seq<Loop<T>>, es: seq<Event<T>>)
    ensures Leads(cs, es) && cs == [c] && es == []
  {
    cs, es := [c], [];
  }

  // ---------- one turn runs everything queued ----------

  /** Once poll has returned, the turn leads to the swap or has already taken the first m posts. */
  predicate Owed<T>(c: Loop<T>, m: nat) {
    m <= |c.posted| && (c.phase.Handling? || c.phase.Swapping? || |c.ran| + |c.batch| >= m)
  }

  lemma OwedStep<T>(c: Loop<T>, e: Event<T>, m: nat)
    requires Owed(c, m) && InOrder(c) && Settled(c) && Enabled(c, e)
    ensures Owed(Apply(c, e), m)
  {
    assert |c.ran + c.batch + c.queue| == |c.ran| + |c.batch| + |c.queue|;
  }

  lemma StepAt<T>(cs: seq<Loop<T>>, es: seq<Event<T>>, i: nat)
    requires Run(cs, es) && i < |es|
    ensures |cs| == |es| + 1 && Enabled(cs[i], es[i]) && cs[i + 1] == Apply(cs[i], es[i])
  {
    hide Apply, Enabled;
  }

  lemma {:induction false} OwedRun<T>(cs: seq<Loop<T>>, es: seq<Event<T>>, i: nat, j: nat)
    requires Run(cs, es) && |cs| == |es| + 1 && i < j < |cs| && es[i].PollReturn?
    ensures Owed(cs[j], |cs[i].posted|)
    decreases j
  {
    StepAt(cs, es, j - 1);
    if j > i + 1 {
      hide Run, Apply, Enabled, Owed, InOrder, Settled;
      OwedRun(cs, es, i, j - 1);
      InOrderRun(cs, es, j - 1);
      OwedStep(cs[j - 1], es[j - 1], |cs[i].posted|);
    } else {
      hide Run;
    }
  }

  lemma {:induction false} PostedGrows<T>(cs: seq<Loop<T>>, es: seq<Event<T>>, i: nat, j: nat)
    requires Run(cs, es) && i <= j < |cs|
    ensures |cs[i].posted| <= |cs[j].posted| && cs[i].posted == cs[j].posted[..|cs[i].posted|]
    decreases j
  {
    if i < j { PostedGrows(cs, es, i, j - 1); }
  }

  /** Everything queued when poll returns has been started when the loop next polls or stops. */
  lemma OneTurnRunsAll<T>(cs: seq<Loop<T>>, es: seq<Event<T>>, i: nat, j: nat)
    requires Run(cs, es) && i < j < |cs| && es[i].PollReturn?
    requires cs[j].phase.Polling? || cs[j].phase.Testing? || cs[j].phase.Stopped?
    ensures cs[i].posted <= cs[j].ran
  {
    OwedRun(cs, es, i, j);
    PostedGrows(cs, es, i, j);
    InOrderRun(cs, es, j);
    RunsInPostOrder(cs, es, j);
  }

  // ---------- the object ----------

  /** What a functor does when called: it may queue further functors from the loop thread. */
  datatype Functor = Functor(id: nat, posts: seq<Functor>)

  class Reactor {
    var phase: Phase
    var quit: bool
    var callingPendingFunctors: bool
    var pendingFunctors: seq<Functor>
    var counter: nat
    ghost var batch: seq<Functor>
    ghost var owing: nat
    ghost var selfOwing: bool
    ghost var posted: seq<Functor>
    ghost var ran: seq<Functor>

    ghost function View(): Loop<Functor>
      reads this
    {
      Loop(phase, pendingFunctors, batch, owing, selfOwing, counter, quit, posted, ran)
    }

    ghost predicate Valid()
      reads this
    {
      InOrder(View()) && Settled(View()) && callingPendingFunctors == Calling(View())
    }

    constructor ()
      ensures Valid() && View() == Loop(Idle, [], [], 0, false, 0, false, [], [])
    {
      phase, quit, callingPendingFunctors, pendingFunctors, counter := Idle, false, false, [], 0;
      batch, owing, selfOwing, posted, ran := [], 0, false, [], [];
    }

    /** The eventfd write; ofLoop tells whose debt it settles. */
    method WakeupFd(ofLoop: bool)
      requires Valid() && Enabled(View(), if ofLoop then OwnWakeup else Wakeup)
      modifies this
      ensures Valid() && View() == Apply(old(View()), if ofLoop then OwnWakeup else Wakeup)
    {
      if counter < COUNTER_MAX {
        counter := counter + 1;
      }
      if ofLoop { selfOwing := false; } else { owing := owing - 1; }
    }

    /** queueInLoop called by another thread, undisturbed between its two steps. */
    method QueueFromOutside(f: Functor)
      requires Valid()
      modifies this
      ensures Valid() && View() == Apply(Apply(old(View()), Post(f)), Wakeup)
      ensures counter > 0
    {
      InOrderStep(View(), Post(f));
      pendingFunctors := pendingFunctors + [f];
      posted, owing := posted + [f], owing + 1;
      WakeupFd(false);
    }

    /** queueInLoop called by the loop thread. */
    method QueueInLoop(f: Functor)
      requires Valid() && InUserCode(View())
      modifies this
      ensures Valid() && InUserCode(View())
      ensures var c := Apply(old(View()), OwnPost(f)); View() == if c.selfOwing then Apply(c, OwnWakeup) else c
      ensures phase == old(phase) && batch == old(batch) && ran == old(ran)
      ensures pendingFunctors == old(pendingFunctors) + [f] && (callingPendingFunctors ==> counter > 0)
      ensures posted == old(posted) + [f] && owing == old(owing) && counter >= old(counter)
      ensures quit == old(quit) && callingPendingFunctors == old(callingPendingFunctors)
    {
      InOrderStep(View(), OwnPost(f));
      pendingFunctors := pendingFunctors + [f];
      posted, selfOwing := posted + [f], callingPendingFunctors;
      if callingPendingFunctors {
        WakeupFd(true);
      }
    }

    method ReadWakeupFd()
      requires Valid() && Enabled(View(), HandleRead)
      modifies this
      ensures Valid() && View() == Apply(old(View()), HandleRead)
    {
      counter := 0;
      phase := Handling(false);
    }

    /** Calling one functor from the batch: it queues what it posts. */
    method Call(f: Functor)
      requires Valid() && phase.Running? && !selfOwing && batch != [] && f == batch[0]
      modifies this
      ensures Valid() && phase.Running? && !selfOwing && owing == old(owing) && quit == old(quit)
              && callingPendingFunctors
      ensures ran == old(ran) + [f] && batch == old(batch)[1..]
      ensures pendingFunctors == old(pendingFunctors) + f.posts && posted == old(posted) + f.posts
      ensures (f.posts != [] ==> counter > 0) && counter >= old(counter)
    {
      InOrderStep(View(), RunOne);
      ran, batch := ran + [f], batch[1..];
      var i := 0;
      while i < |f.posts|
        modifies this
        invariant 0 <= i <= |f.posts|
        invariant Valid() && phase.Running? && !selfOwing && owing == old(owing) && quit == old(quit)
                  && callingPendingFunctors
        invariant ran == old(ran) + [f] && batch == old(batch)[1..]
        invariant pendingFunctors == old(pendingFunctors) + f.posts[..i] && posted == old(posted) + f.posts[..i]
        invariant (i > 0 ==> counter > 0) && counter >= old(counter)
      {
        QueueInLoop(f.posts[i]);
        assert f.posts[..i + 1] == f.posts[..i] + [f.posts[i]];
        i := i + 1;
      }
      assert f.posts[..i] == f.posts;
    }

    /** The flag, then the swap under the lock. */
    method SwapOut() returns (functors: seq<Functor>)
      requires Valid() && Enabled(View(), BeginCalling)
      modifies this
      ensures Valid() && View() == Apply(Apply(old(View()), BeginCalling), Swap)
      ensures functors == batch == old(pendingFunctors)
    {
      InOrderStep(View(), BeginCalling);
      callingPendingFunctors := true;
      phase := Swapping;
      InOrderStep(View(), Swap);
      functors := [];
      functors, pendingFunctors := pendingFunctors, functors;
      phase, batch := Running, functors;
    }

    method CallAll(functors: seq<Functor>)
      requires Valid() && phase.Running? && !selfOwing && batch == functors && pendingFunctors == []
      modifies this
      ensures Valid() && phase.Running? && !selfOwing && owing == old(owing) && quit == old(quit)
      ensures batch == [] && ran == old(ran) + functors
      ensures pendingFunctors == AllPosts(functors) && posted == old(posted) + AllPosts(functors)
      ensures pendingFunctors != [] ==> counter > 0
    {
      hide InOrder, Settled, AllPosts;
      NoPosts();
      var i := 0;
      while i < |functors|
        modifies this
        invariant 0 <= i <= |functors| && batch == functors[i..]
        invariant Valid() && phase.Running? && !selfOwing && owing == old(owing) && quit == old(quit)
        invariant ran == old(ran) + functors[..i]
        invariant pendingFunctors == AllPosts(functors[..i]) && posted == old(posted) + AllPosts(functors[..i])
        invariant pendingFunctors != [] ==> counter > 0
      {
        PostsNext(functors, i);
        RanNext(old(ran), functors, i);
        PostedNext(old(posted), functors, i);
        Call(functors[i]);
        i := i + 1;
      }
      assert functors[..i] == functors;
    }

    /** doPendingFunctors: exactly the functors queued at the swap are called, in order; what they
        queue stays for the next turn, with the eventfd written. */
    method DoPendingFunctors()
      requires Valid() && Enabled(View(), BeginCalling)
      modifies this
      ensures Valid() && phase.Testing? && batch == [] && owing == old(owing) && quit == old(quit)
      ensures ran == old(ran) + old(pendingFunctors)
      ensures pendingFunctors == AllPosts(old(pendingFunctors))
              && posted == old(posted) + AllPosts(old(pendingFunctors))
      ensures pendingFunctors != [] ==> counter > 0
    {
      var functors := SwapOut();
      CallAll(functors);
      InOrderStep(View(), EndCalling);
      callingPendingFunctors := false;
      phase := Testing;
    }
  }

  ghost function AllPosts(fs: seq<Functor>): seq<Functor> {
    if fs == [] then [] else fs[0].posts + AllPosts(fs[1..])
  }

  lemma NoPosts()
    ensures AllPosts([]) == []
  {
  }

  lemma PostsNext(fs: seq<Functor>, i: nat)
    requires i < |fs|
    ensures AllPosts(fs[..i + 1]) == AllPosts(fs[..i]) + fs[i].posts
    ensures fs[i..][0] == fs[i] && fs[i..][1..] == fs[i + 1..]
  {
    assert fs[..i + 1] == fs[..i] + [fs[i]];
    AllPostsSnoc(fs[..i], fs[i]);
  }

  lemma RanNext(ran: seq<Functor>, fs: seq<Functor>, i: nat)
    requires i < |fs|
    ensures ran + fs[..i + 1] == ran + fs[..i] + [fs[i]]
  {
    assert fs[..i + 1] == fs[..i] + [fs[i]];
  }

  lemma PostedNext(posted: seq<Functor>, fs: seq<Functor>, i: nat)
    requires i < |fs|
    ensures posted + AllPosts(fs[..i + 1]) == posted + AllPosts(fs[..i]) + fs[i].posts
  {
    PostsNext(fs, i);
  }

  lemma {:induction false} AllPostsSnoc(fs: seq<Functor>, f: Functor)
    ensures AllPosts(fs + [f]) == AllPosts(fs) + f.posts
  {
    if fs == [] {
      assert (fs + [f])[1..] == [];
    } else {
      assert (fs + [f])[1..] == fs[1..] + [f];
      AllPostsSnoc(fs[1..], f);
    }
  }
}
