/** What the LFU cache keeps for every aging limit that is not negative, with or without a right
    minimum: placement, size and running total; and from 2 on the bound on frequencies. */
module LfuCounts {
  import opened Wrappers
  import opened Lfu
  import opened LfuInvariant

  ghost predicate Counts<K, V>(c: Cache<K, V>) {
    && Placed(c.nodes, c.lists) && |c.nodes| <= c.capacity && Sum(c.nodes) <= c.total
    && (c.maxAverage >= 2 ==> Below(c.nodes, Bound(c.maxAverage, c.capacity)))
  }

  ghost predicate Below<K, V>(nodes: map<K, Node<V>>, bound: int) { forall k :: k in nodes ==> nodes[k].freq < bound }

  /** The same just before an access is counted: one frequency may have reached the bound. */
  ghost predicate Ready<K, V>(d: Cache<K, V>) {
    && |d.nodes| > 0 && Placed(d.nodes, d.lists) && |d.nodes| <= d.capacity && Sum(d.nodes) <= d.total + 1
    && (d.maxAverage >= 2 ==> Below(d.nodes, Bound(d.maxAverage, d.capacity) + 1))
  }

  lemma SomeNodes<K, V>(nodes: map<K, Node<V>>, k: K)
    requires k in nodes
    ensures |nodes| > 0
  {
    assert |nodes.Keys| > 0;
  }

  lemma TouchedReady<K, V>(c: Cache<K, V>, k: K)
    requires Counts(c) && k in c.nodes
    ensures Ready(Touched(c, k))
  {
    hide Placed, Sum, Bound, Touched;
    SomeNodes(c.nodes, k);
    TouchedShape(c, k);
    TouchedPlaced(c, k);
    TouchedSum(c, k);
  }

  lemma AddedReady<K, V>(d: Cache<K, V>, k: K, v: V)
    requires Placed(d.nodes, d.lists) && |d.nodes| < d.capacity && Sum(d.nodes) <= d.total && k !in d.nodes
    requires d.maxAverage >= 2 ==> Below(d.nodes, Bound(d.maxAverage, d.capacity))
    ensures Ready(d.(nodes := d.nodes[k := Node(1, v)], lists := Attach(d.lists, 1, k)))
  {
    var n := Node(1, v);
    AddedPlaced(d.nodes, d.lists, k, n);
    if d.maxAverage >= 2 { BoundAtLeast(d); }
    hide Placed, Attach, Bound, Sum;
    SumSet(d.nodes, k, n);
    SizeSet(d.nodes, k, n);
  }

  lemma InsertedReady<K, V>(c: Cache<K, V>, k: K, v: V)
    requires Counts(c) && c.capacity > 0 && k !in c.nodes && (|c.nodes| == c.capacity ==> CanKickOut(c))
    ensures Ready(Inserted(c, k, v))
  {
    hide Placed, Sum, Bound, Attach;
    if |c.nodes| == c.capacity {
      KickedOutKeeps(c);
      AddedReady(KickedOut(c), k, v);
    } else {
      AddedReady(c, k, v);
    }
  }

  lemma CountedKeeps<K, V>(d: Cache<K, V>, o: Orders<K>)
    requires Ready(d) && d.maxAverage >= 0 && OrdersFit(d.(total := d.total + 1), o)
    ensures Counts(Counted(d, o))
  {
    hide Placed, Sum, Bound, OrdersFit, Aged, Ages;
    var e := d.(total := d.total + 1);
    if Ages(e) {
      AgedShape(e, o);
      AgedSum(e, o);
      if e.maxAverage >= 2 { AgedBelow(e, o); }
    } else if e.maxAverage >= 2 {
      var m := LeastExists(e.nodes);
      BelowAverage(e, m);
    }
  }

  lemma RevaluedCounts<K, V>(c: Cache<K, V>, k: K, v: V)
    requires Counts(c) && k in c.nodes
    ensures Counts(Revalued(c, k, v)) && k in Revalued(c, k, v).nodes
  {
    hide Sum, Bound;
    RevaluedShape(c, k, v);
  }

  lemma CountsStep<K, V>(c: Cache<K, V>, e: Event<K, V>)
    requires Counts(c) && c.maxAverage >= 0 && Enabled(c, e)
    ensures Counts(Apply(c, e))
  {
    hide Counts, Enabled;
    StepConstants(c, e);
    match e
    case Purge => PurgeCounts(c);
    case Get(k, o) => if k in c.nodes { GetCounts(c, k, o); }
    case Put(k, v, o) =>
      if c.capacity > 0 && k in c.nodes {
        UpdateCounts(c, k, v, o);
      } else if c.capacity > 0 && (|c.nodes| == c.capacity ==> CanKickOut(c)) {
        InsertCounts(c, k, v, o);
      }
  }

  lemma PurgeCounts<K, V>(c: Cache<K, V>)
    requires Counts(c)
    ensures Counts(Apply(c, Event.Purge))
  {
    hide Bound;
    SumAtLeastZero(c);
    EmptyIsPlaced<K, V>();
  }

  lemma GetCounts<K, V>(c: Cache<K, V>, k: K, o: Orders<K>)
    requires Counts(c) && c.maxAverage >= 0 && k in c.nodes && Enabled(c, Get(k, o))
    ensures Counts(Apply(c, Get(k, o)))
  {
    hide Counts, Counted, Touched, OrdersFit, Ready;
    TouchedReady(c, k);
    TouchedConstants(c, k);
    CountedKeeps(Touched(c, k), o);
  }

  lemma UpdateCounts<K, V>(c: Cache<K, V>, k: K, v: V, o: Orders<K>)
    requires Counts(c) && c.maxAverage >= 0 && c.capacity > 0 && k in c.nodes && Enabled(c, Put(k, v, o))
    ensures Counts(Apply(c, Put(k, v, o)))
  {
    hide Counts, Counted, Touched, OrdersFit, Ready, Revalued;
    RevaluedCounts(c, k, v);
    RevaluedKeys(c, k, v);
    TouchedReady(Revalued(c, k, v), k);
    TouchedConstants(Revalued(c, k, v), k);
    CountedKeeps(Touched(Revalued(c, k, v), k), o);
  }

  lemma InsertCounts<K, V>(c: Cache<K, V>, k: K, v: V, o: Orders<K>)
    requires Counts(c) && c.maxAverage >= 0 && c.capacity > 0 && k !in c.nodes
             && (|c.nodes| == c.capacity ==> CanKickOut(c))
    requires Enabled(c, Put(k, v, o))
    ensures Counts(Apply(c, Put(k, v, o)))
  {
    hide Counted, Inserted, OrdersFit, Ready, CanKickOut, Placed, Sum, Bound, Below;
    InsertedReady(c, k, v);
    InsertedShape(c, k, v);
    CountedKeeps(Inserted(c, k, v), o);
  }

  lemma TouchedConstants<K, V>(c: Cache<K, V>, k: K)
    requires k in c.nodes
    ensures Touched(c, k).maxAverage == c.maxAverage && Touched(c, k).total == c.total
  {
  }

  lemma SumAtLeastZero<K, V>(c: Cache<K, V>)
    requires Placed(c.nodes, c.lists)
    ensures Sum(c.nodes) >= 0
  {
    SumAtLeast(c.nodes, 0);
  }

  lemma {:induction false} CountsRun<K, V>(cs: seq<Cache<K, V>>, es: seq<Event<K, V>>, capacity: nat,
                                           maxAverage: int, i: nat)
    requires Run(cs, es, capacity, maxAverage) && i < |cs| && maxAverage >= 0
    ensures Counts(cs[i]) && cs[i].capacity == capacity && cs[i].maxAverage == maxAverage
  {
    hide Counts, Apply, Enabled;
    if i > 0 {
      CountsRun(cs, es, capacity, maxAverage, i - 1);
      CountsStep(cs[i - 1], es[i - 1]);
      StepConstants(cs[i - 1], es[i - 1]);
    } else {
      StartCounts<K, V>(capacity, maxAverage);
    }
  }

  lemma StartCounts<K, V>(capacity: nat, maxAverage: int)
    ensures Counts<K, V>(Initial(capacity, maxAverage))
  {
  }

  /** For every limit that is not negative, in every state that the cache reaches before an eviction
      that finds no victim: each key stands exactly in the list of its frequency, the size respects the
      capacity, and the running total is an upper bound of the sum of frequencies and so never negative;
      for limits of at least 2 no frequency ever reaches (limit + 1) * capacity. */
  lemma CountsForEveryLimit<K, V>(cs: seq<Cache<K, V>>, es: seq<Event<K, V>>, capacity: nat, maxAverage: int, i: nat)
    requires Run(cs, es, capacity, maxAverage) && i < |cs| && maxAverage >= 0
    ensures var c := cs[i];
            && Placed(c.nodes, c.lists) && |c.nodes| <= capacity && 0 <= Sum(c.nodes) <= c.total
            && forall k :: k in c.nodes ==>
                 1 <= c.nodes[k].freq && (maxAverage >= 2 ==> c.nodes[k].freq < (maxAverage + 1) * capacity)
  {
    CountsRun(cs, es, capacity, maxAverage, i);
    SumAtLeastZero(cs[i]);
  }

  /** Both hash tables can be walked in some order. */
  lemma SomeOrders<K, V>(d: Cache<K, V>) returns (o: Orders<K>)
    ensures OrdersFit(d, o)
  {
    var keys := Enumeration(d.nodes.Keys);
    var freqs := Enumeration(AgeLoop(d.nodes, d.lists, keys, Half(d.maxAverage)).1.Keys);
    o := Orders(keys, freqs);
    hide AgeLoop, Enumerates;
  }

  /** Only a put that has to evict and finds no victim stops the cache: a run can go on with a put in
      exactly the other cases, and with a get always. */
  lemma StoppedExactlyByEviction<K, V>(c: Cache<K, V>, k: K, v: V)
    ensures (exists o :: Enabled(c, Put(k, v, o))) <==>
            c.capacity == 0 || k in c.nodes || |c.nodes| != c.capacity || CanKickOut(c)
    ensures exists o :: Enabled(c, Event<K, V>.Get(k, o))
  {
    hide OrdersFit, Touched, Inserted, Revalued, CanKickOut;
    var put, get := BeforeCount(c, Put(k, v, Orders([], []))), BeforeCount(c, Event<K, V>.Get(k, Orders([], [])));
    var d := if put.Some? then put.value else c;
    var o := SomeOrders(d.(total := d.total + 1));
    assert !Stuck(c, Put(k, v, o)) ==> Enabled(c, Put(k, v, o));
    d := if get.Some? then get.value else c;
    o := SomeOrders(d.(total := d.total + 1));
    assert Enabled(c, Event<K, V>.Get(k, o));
  }
}
