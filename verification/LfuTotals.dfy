/** What the LFU cache counts, over every run: the frequency of a stored key is the number of its accesses,
    lowered by each aging, and the running total is the sum of the frequencies until something is aged or
    purged, whatever is evicted. */
module LfuTotals {
  import opened Wrappers
  import opened Lfu
  import opened LfuInvariant
  import opened LfuCounts
  import opened LfuOrder
  import opened LfuValues

  /** The step reads or writes the stored key. */
  predicate Touches<K(==), V>(c: Cache<K, V>, e: Event<K, V>, k: K) {
    k in c.nodes && ((e.Get? && e.key == k) || Stores(c, e, k))
  }

  /** What aging leaves of a frequency: half the limit less, and at least one. */
  function Older(freq: int, maxAverage: nat): int {
    if freq <= maxAverage / 2 then 1 else freq - maxAverage / 2
  }

  /** How often the key was accessed since it was stored, lowered by each aging since. */
  ghost function Uses<K, V>(cs: seq<Cache<K, V>>, es: seq<Event<K, V>>, i: nat, k: K): int
    requires i <= |es| < |cs|
  {
    if i == 0 then 0
    else
      var c, e, before := cs[i - 1], es[i - 1], Uses(cs, es, i - 1, k);
      var now := if Touches(c, e, k) then before + 1 else if Stores(c, e, k) then 1 else before;
      if c.maxAverage >= 0 && Aging(c, e) then Older(now, c.maxAverage) else now
  }

  lemma BeforeCountFreq<K, V>(c: Cache<K, V>, e: Event<K, V>, k: K)
    requires Enabled(c, e) && BeforeCount(c, e).Some? && k in BeforeCount(c, e).value.nodes
    ensures k in c.nodes || Stores(c, e, k)
    ensures BeforeCount(c, e).value.nodes[k].freq ==
            if Touches(c, e, k) then c.nodes[k].freq + 1 else if Stores(c, e, k) then 1 else c.nodes[k].freq
    ensures BeforeCount(c, e).value.maxAverage == c.maxAverage
  {
    hide OrdersFit, Relinked, Detach, Attach;
  }

  lemma AgedFreq<K, V>(c: Cache<K, V>, o: Orders<K>, k: K)
    requires Placed(c.nodes, c.lists) && OrdersFit(c, o) && c.maxAverage >= 0 && k in c.nodes
    ensures k in Aged(c, o).nodes && Aged(c, o).nodes[k].freq == Older(c.nodes[k].freq, c.maxAverage)
  {
    AgeLoopEffect(c.nodes, c.lists, o.keys, Half(c.maxAverage));
    hide AgeLoop, ScannedMin, Placed;
  }

  lemma FreqStep<K, V>(c: Cache<K, V>, e: Event<K, V>, k: K)
    requires Counts(c) && c.maxAverage >= 0 && Enabled(c, e) && k in Apply(c, e).nodes
    ensures k in c.nodes || Stores(c, e, k)
    ensures var now := if Touches(c, e, k) then c.nodes[k].freq + 1 else if Stores(c, e, k) then 1 else c.nodes[k].freq;
            Apply(c, e).nodes[k].freq == if Aging(c, e) then Older(now, c.maxAverage) else now
  {
    hide Counts, OrdersFit, Ages, Aged, Touches, Stores, CanKickOut, Touched, Inserted, Revalued;
    match BeforeCount(c, e)
    case None => NothingTouched(c, e, k);
    case Some(d) =>
      StoredStep(c, e, k);
      BeforeCountValues(c, e, k);
      BeforeCountFreq(c, e, k);
      if Aging(c, e) {
        CountingPlaced(c, e);
        AgedFreq(d.(total := d.total + 1), e.orders, k);
      }
  }

  lemma NothingTouched<K, V>(c: Cache<K, V>, e: Event<K, V>, k: K)
    requires Enabled(c, e) && BeforeCount(c, e).None? && k in Apply(c, e).nodes
    ensures k in c.nodes && Apply(c, e).nodes[k] == c.nodes[k] && !Touches(c, e, k) && !Stores(c, e, k)
  {
    hide CanKickOut;
  }

  /** In every run the frequency of a stored key is what its accesses and the agings since make it. */
  lemma {:induction false} FrequencyIsUses<K, V>(cs: seq<Cache<K, V>>, es: seq<Event<K, V>>, capacity: nat,
                                                 maxAverage: int, i: nat, k: K)
    requires Run(cs, es, capacity, maxAverage) && maxAverage >= 0 && i <= |es| && k in cs[i].nodes
    ensures cs[i].nodes[k].freq == Uses(cs, es, i, k)
  {
    hide Apply, Enabled, Counts, Touches, Stores, Aging;
    if i > 0 {
      CountsRun(cs, es, capacity, maxAverage, i - 1);
      FreqStep(cs[i - 1], es[i - 1], k);
      if k in cs[i - 1].nodes { FrequencyIsUses(cs, es, capacity, maxAverage, i - 1, k); }
      TouchesStored(cs[i - 1], es[i - 1], k);
    }
  }

  lemma TouchesStored<K, V>(c: Cache<K, V>, e: Event<K, V>, k: K)
    ensures Touches(c, e, k) ==> k in c.nodes
  {
  }

  // ---------- the total ----------

  /** By how much the running total is ahead of the frequencies. */
  ghost function Excess<K, V>(c: Cache<K, V>): int { c.total - Sum(c.nodes) }

  lemma KickedOutExcess<K, V>(c: Cache<K, V>)
    requires CanKickOut(c)
    ensures Excess(KickedOut(c)) == Excess(c)
  {
    var victim := c.lists[c.minFreq][0];
    hide Sum, Detach;
    SumSplit(c.nodes, victim);
  }

  lemma InsertedExcess<K, V>(c: Cache<K, V>, k: K, v: V)
    requires k !in c.nodes && (|c.nodes| == c.capacity ==> CanKickOut(c))
    ensures Excess(Inserted(c, k, v)) == Excess(c) - 1
  {
    var d := if |c.nodes| == c.capacity then KickedOut(c) else c;
    if |c.nodes| == c.capacity { KickedOutExcess(c); }
    assert k !in d.nodes;
    hide Sum, KickedOut, Attach;
    SumSet(d.nodes, k, Node(1, v));
  }

  lemma BeforeCountExcess<K, V>(c: Cache<K, V>, e: Event<K, V>)
    requires Enabled(c, e) && BeforeCount(c, e).Some?
    ensures Excess(BeforeCount(c, e).value) == Excess(c) - 1
  {
    hide Sum, OrdersFit, Touched, Inserted, CanKickOut;
    match e
    case Get(k, _) => TouchedSum(c, k); TouchedTotal(c, k);
    case Put(k, v, _) =>
      if k in c.nodes {
        RevaluedShape(c, k, v);
        RevaluedKeys(c, k, v);
        TouchedSum(Revalued(c, k, v), k);
      } else {
        InsertedExcess(c, k, v);
      }
  }

  lemma TouchedTotal<K, V>(c: Cache<K, V>, k: K)
    requires k in c.nodes
    ensures Touched(c, k).total == c.total
  {
  }

  /** Neither an access nor an eviction moves the total away from the frequencies: only aging, which lowers
      them alone, and a purge, which drops them alone and leaves minFreq_ as it is. */
  lemma ExcessStep<K, V>(c: Cache<K, V>, e: Event<K, V>)
    requires Enabled(c, e)
    ensures !Aging(c, e) && !e.Purge? ==> Excess(Apply(c, e)) == Excess(c)
    ensures e.Purge? ==> Apply(c, e).total == c.total && Apply(c, e).minFreq == c.minFreq
    ensures Aging(c, e) ==> Apply(c, e).total == BeforeCount(c, e).value.total + 1
  {
    if BeforeCount(c, e).Some? { BeforeCountExcess(c, e); }
    hide Sum, OrdersFit, Touched, Inserted, Revalued, Ages, AgeLoop, ScannedMin, CanKickOut;
  }

  /** Until something is aged or purged, the running total is exactly the sum of the frequencies. */
  lemma {:induction false} TotalIsSum<K, V>(cs: seq<Cache<K, V>>, es: seq<Event<K, V>>, capacity: nat, maxAverage: int,
                                            i: nat)
    requires Run(cs, es, capacity, maxAverage) && i <= |es|
    requires forall j :: 0 <= j < i ==> !Aging(cs[j], es[j]) && !es[j].Purge?
    ensures cs[i].total == Sum(cs[i].nodes)
  {
    hide Apply, Enabled, Aging;
    if i > 0 {
      TotalIsSum(cs, es, capacity, maxAverage, i - 1);
      ExcessStep(cs[i - 1], es[i - 1]);
    }
  }
}
