/** What the LFU cache stores, for every aging limit: the last value put under a key, from the put on
    and until the key is evicted or the cache purged. */
module LfuValues {
  import opened Wrappers
  import opened Lfu
  import opened LfuInvariant

  /** The value of the last put of the key, read off the events alone. */
  ghost function LastPut<K, V>(es: seq<Event<K, V>>, k: K): Option<V> {
    if es == [] then None
    else
      var e := es[|es| - 1];
      if e.Put? && e.key == k then Some(e.value) else LastPut(es[..|es| - 1], k)
  }

  /** The step stores the key. */
  predicate Stores<K(==), V>(c: Cache<K, V>, e: Event<K, V>, k: K) { e.Put? && e.key == k && c.capacity > 0 }

  /** The step makes room in a full cache for a new key. */
  predicate Evicts<K(==), V>(c: Cache<K, V>, e: Event<K, V>) {
    e.Put? && c.capacity > 0 && e.key !in c.nodes && |c.nodes| == c.capacity
  }

  /** The step removes the key: it is the first at the least frequency when room is made, or the cache is
      emptied. */
  predicate Drops<K(==), V>(c: Cache<K, V>, e: Event<K, V>, k: K) {
    e.Purge? || (Evicts(c, e) && c.minFreq in c.lists && c.lists[c.minFreq] != [] && c.lists[c.minFreq][0] == k)
  }

  lemma {:induction false} AgeLoopValues<K, V>(nodes: map<K, Node<V>>, lists: map<int, seq<K>>, order: seq<K>,
                                               half: int)
    requires forall k :: k in order ==> k in nodes
    ensures var aged := AgeLoop(nodes, lists, order, half).0;
            aged.Keys == nodes.Keys && forall k :: k in nodes ==> aged[k].value == nodes[k].value
    decreases |order|
  {
    if order != [] {
      var k := order[0];
      var g := Lowered(nodes[k].freq, half);
      AgeLoopValues(nodes[k := nodes[k].(freq := g)], Relinked(lists, k, nodes[k].freq, g), order[1..], half);
    }
  }

  lemma CountedValues<K, V>(d: Cache<K, V>, o: Orders<K>)
    requires OrdersFit(d.(total := d.total + 1), o)
    ensures var c := Counted(d, o);
            c.nodes.Keys == d.nodes.Keys && forall k :: k in d.nodes ==> c.nodes[k].value == d.nodes[k].value
  {
    AgeLoopValues(d.nodes, d.lists, o.keys, Half(d.maxAverage));
    hide AgeLoop, ScannedMin;
  }

  lemma BeforeCountValues<K, V>(c: Cache<K, V>, e: Event<K, V>, k: K)
    requires Enabled(c, e) && BeforeCount(c, e).Some?
    ensures var d := BeforeCount(c, e).value;
            && (k in d.nodes <==> Stores(c, e, k) || (k in c.nodes && !Drops(c, e, k)))
            && (k in d.nodes ==> d.nodes[k].value == if Stores(c, e, k) then e.value else c.nodes[k].value)
  {
    hide OrdersFit, Relinked, Detach, Attach;
  }

  /** What a step does to the entry of a key. */
  lemma StoredStep<K, V>(c: Cache<K, V>, e: Event<K, V>, k: K)
    requires Enabled(c, e)
    ensures var d := Apply(c, e);
            && (k in d.nodes <==> Stores(c, e, k) || (k in c.nodes && !Drops(c, e, k)))
            && (k in d.nodes ==> d.nodes[k].value == if Stores(c, e, k) then e.value else c.nodes[k].value)
  {
    hide OrdersFit, Counted, Touched, Inserted, Revalued, CanKickOut, Drops;
    match BeforeCount(c, e)
    case None => NothingCounted(c, e, k);
    case Some(d) =>
      BeforeCountValues(c, e, k);
      CountedValues(d, e.orders);
  }

  lemma NothingCounted<K, V>(c: Cache<K, V>, e: Event<K, V>, k: K)
    requires Enabled(c, e) && BeforeCount(c, e).None?
    ensures var d := Apply(c, e);
            && (k in d.nodes <==> Stores(c, e, k) || (k in c.nodes && !Drops(c, e, k)))
            && (k in d.nodes ==> d.nodes[k].value == if Stores(c, e, k) then e.value else c.nodes[k].value)
  {
    hide OrdersFit, Touched, Inserted, Revalued;
  }

  /** The key was stored before i and has not been dropped since. */
  ghost predicate Kept<K, V>(cs: seq<Cache<K, V>>, es: seq<Event<K, V>>, i: nat, k: K)
    requires i <= |es| < |cs|
  {
    exists j :: 0 <= j < i && Stores(cs[j], es[j], k) && forall m :: j < m < i ==> !Drops(cs[m], es[m], k)
  }

  lemma KeptStep<K, V>(cs: seq<Cache<K, V>>, es: seq<Event<K, V>>, i: nat, k: K)
    requires 0 < i <= |es| < |cs|
    ensures Kept(cs, es, i, k) <==>
            Stores(cs[i - 1], es[i - 1], k) || (Kept(cs, es, i - 1, k) && !Drops(cs[i - 1], es[i - 1], k))
  {
    hide Stores, Drops;
    if Kept(cs, es, i - 1, k) && !Drops(cs[i - 1], es[i - 1], k) {
      var j :| 0 <= j < i - 1 && Stores(cs[j], es[j], k) && forall m :: j < m < i - 1 ==> !Drops(cs[m], es[m], k);
      assert forall m :: j < m < i ==> !Drops(cs[m], es[m], k);
    }
  }

  /** In every run: a key is stored exactly from its put until it is evicted or the cache purged, and what
      is stored under it is the last value put. */
  lemma {:induction false} StoredIsLastPut<K, V>(cs: seq<Cache<K, V>>, es: seq<Event<K, V>>, capacity: nat,
                                                 maxAverage: int, i: nat, k: K)
    requires Run(cs, es, capacity, maxAverage) && i <= |es|
    ensures k in cs[i].nodes <==> Kept(cs, es, i, k)
    ensures k in cs[i].nodes ==> LastPut(es[..i], k) == Some(cs[i].nodes[k].value)
    ensures cs[i].capacity == capacity && (k in cs[i].nodes ==> capacity > 0)
  {
    hide Apply, Enabled, Drops, Kept;
    if i == 0 {
      NothingKept(cs, es, k);
    } else {
      StepConstants(cs[i - 1], es[i - 1]);
      StoredIsLastPut(cs, es, capacity, maxAverage, i - 1, k);
      StoredStep(cs[i - 1], es[i - 1], k);
      KeptStep(cs, es, i, k);
      LastPutStep(es, i, k);
    }
  }

  lemma NothingKept<K, V>(cs: seq<Cache<K, V>>, es: seq<Event<K, V>>, k: K)
    requires |es| < |cs|
    ensures !Kept(cs, es, 0, k)
  {
  }

  lemma LastPutStep<K, V>(es: seq<Event<K, V>>, i: nat, k: K)
    requires 0 < i <= |es|
    ensures LastPut(es[..i], k) ==
            if es[i - 1].Put? && es[i - 1].key == k then Some(es[i - 1].value) else LastPut(es[..i - 1], k)
  {
    assert es[..i][..i - 1] == es[..i - 1];
  }
}
