/** The sliced LFU cache: a fixed number of independent caches, each key always served by the slice
    its hash selects. */
module HashLfu {
  import opened Lfu
  import opened LfuInvariant
  import opened LfuCounts
  import opened LfuLimits
  import opened LfuValues
  import opened Wrappers

  /** Capacity of one slice: the total divided by the number of slices, rounded up. */
  function SliceSize(capacity: nat, slices: nat): nat
    requires slices > 0
  {
    (capacity + slices - 1) / slices
  }

  /** The slices together hold at least the requested capacity, and less than one more per slice. */
  lemma SlicesCoverCapacity(capacity: nat, slices: nat)
    requires slices > 0
    ensures capacity <= slices * SliceSize(capacity, slices) < capacity + slices
  {
    var x := capacity + slices - 1;
    assert x == slices * (x / slices) + x % slices;
  }

  function SliceOf<K>(hash: K -> nat, slices: nat, k: K): (i: nat)
    requires slices > 0
    ensures i < slices
  {
    hash(k) % slices
  }

  /** Whether an event concerns slice i: its key's slice, or any slice for a purge. */
  predicate Concerns<K, V>(hash: K -> nat, slices: nat, e: Event<K, V>, i: nat)
    requires slices > 0
  {
    e.Purge? || SliceOf(hash, slices, e.key) == i
  }

  ghost predicate SliceStep<K, V>(hash: K -> nat, cs: seq<Cache<K, V>>, e: Event<K, V>, ds: seq<Cache<K, V>>)
    requires |cs| > 0
  {
    |ds| == |cs| &&
    forall i :: 0 <= i < |cs| ==>
      if Concerns(hash, |cs|, e, i) then Enabled(cs[i], e) && ds[i] == Apply(cs[i], e) else ds[i] == cs[i]
  }

  ghost predicate SlicedRun<K, V>(hash: K -> nat, slices: nat, capacity: nat, maxAverage: int,
                                  states: seq<seq<Cache<K, V>>>, es: seq<Event<K, V>>)
    requires slices > 0
  {
    && |states| == |es| + 1
    && (forall t :: 0 <= t < |states| ==> |states[t]| == slices)
    && (forall i :: 0 <= i < slices ==> states[0][i] == Initial(SliceSize(capacity, slices), maxAverage))
    && forall t :: 0 <= t < |es| ==> SliceStep(hash, states[t], es[t], states[t + 1])
  }

  /** The events that reach slice i, in order. */
  ghost function Project<K, V>(hash: K -> nat, slices: nat, es: seq<Event<K, V>>, i: nat): seq<Event<K, V>>
    requires slices > 0
  {
    if es == [] then []
    else
      var e := es[|es| - 1];
      Project(hash, slices, es[..|es| - 1], i) + if Concerns(hash, slices, e, i) then [e] else []
  }

  /** A slice is a cache of its own: its state is reached by exactly the events sent to it. */
  lemma {:induction false} SliceIsACache<K, V>(hash: K -> nat, slices: nat, capacity: nat, maxAverage: int,
                                               states: seq<seq<Cache<K, V>>>, es: seq<Event<K, V>>, t: nat, i: nat)
    returns (cs: seq<Cache<K, V>>)
    requires slices > 0 && SlicedRun(hash, slices, capacity, maxAverage, states, es) && t < |states| && i < slices
    ensures var own := Project(hash, slices, es[..t], i);
            Run(cs, own, SliceSize(capacity, slices), maxAverage) && cs[|own|] == states[t][i]
    decreases t
  {
    hide Apply, Enabled, SliceSize, Initial, SliceOf;
    if t == 0 {
      cs := [Initial(SliceSize(capacity, slices), maxAverage)];
      StartOfRun<K, V>(SliceSize(capacity, slices), maxAverage);
    } else {
      cs := SliceIsACache(hash, slices, capacity, maxAverage, states, es, t - 1, i);
      assert es[..t][..t - 1] == es[..t - 1] && es[..t][t - 1] == es[t - 1];
      var own, e := Project(hash, slices, es[..t - 1], i), es[t - 1];
      assert SliceStep(hash, states[t - 1], e, states[t]);
      if Concerns(hash, slices, e, i) {
        Extended(cs, own, SliceSize(capacity, slices), maxAverage, e);
        cs := cs + [Apply(cs[|own|], e)];
      } else {
        assert own + [] == own;
      }
    }
  }

  /** So every slice keeps what a single cache keeps, its own capacity included. */
  lemma SlicesStaySound<K, V>(hash: K -> nat, slices: nat, capacity: nat, maxAverage: int,
                              states: seq<seq<Cache<K, V>>>, es: seq<Event<K, V>>, t: nat, i: nat)
    requires slices > 0 && SlicedRun(hash, slices, capacity, maxAverage, states, es) && t < |states| && i < slices
    requires maxAverage >= 0
    ensures Counts(states[t][i]) && |states[t][i].nodes| <= SliceSize(capacity, slices)
    ensures 2 <= maxAverage <= 250 ==> Inv(states[t][i])
  {
    var cs := SliceIsACache(hash, slices, capacity, maxAverage, states, es, t, i);
    var own := Project(hash, slices, es[..t], i);
    hide SlicedRun, Project, Inv;
    CountsRun(cs, own, SliceSize(capacity, slices), maxAverage, |own|);
    if 2 <= maxAverage <= 250 { InvRun(cs, own, SliceSize(capacity, slices), maxAverage, |own|); }
  }

  ghost function Total<K, V>(cs: seq<Cache<K, V>>): nat {
    if cs == [] then 0 else Total(cs[..|cs| - 1]) + |cs[|cs| - 1].nodes|
  }

  lemma {:induction false} TotalAtMost<K, V>(cs: seq<Cache<K, V>>, each: nat)
    requires forall i :: 0 <= i < |cs| ==> |cs[i].nodes| <= each
    ensures Total(cs) <= |cs| * each
  {
    if cs != [] {
      TotalAtMost(cs[..|cs| - 1], each);
      assert |cs| * each == (|cs| - 1) * each + each;
    }
  }

  lemma TotalStaysBelow<K, V>(hash: K -> nat, slices: nat, capacity: nat, maxAverage: int,
                              states: seq<seq<Cache<K, V>>>, es: seq<Event<K, V>>, t: nat)
    requires slices > 0 && SlicedRun(hash, slices, capacity, maxAverage, states, es) && t < |states|
    requires maxAverage >= 0
    ensures Total(states[t]) < capacity + slices
  {
    assert |states[t]| == slices;
    forall i | 0 <= i < slices
      ensures |states[t][i].nodes| <= SliceSize(capacity, slices)
    {
      SlicesStaySound(hash, slices, capacity, maxAverage, states, es, t, i);
    }
    hide SlicedRun;
    TotalAtMost(states[t], SliceSize(capacity, slices));
    SlicesCoverCapacity(capacity, slices);
  }

  /** A put is the last of its key in the whole run exactly when it is in its key's slice. */
  lemma {:induction false} LastPutOfSlice<K, V>(hash: K -> nat, slices: nat, es: seq<Event<K, V>>, k: K)
    requires slices > 0
    ensures LastPut(Project(hash, slices, es, SliceOf(hash, slices, k)), k) == LastPut(es, k)
  {
    if es != [] {
      var e, i := es[|es| - 1], SliceOf(hash, slices, k);
      var before := Project(hash, slices, es[..|es| - 1], i);
      LastPutOfSlice(hash, slices, es[..|es| - 1], k);
      if Concerns(hash, slices, e, i) {
        assert (before + [e])[..|before|] == before;
      } else {
        assert before + [] == before;
      }
    }
  }

  lemma {:induction false} NeverInAnotherSlice<K, V>(hash: K -> nat, slices: nat, es: seq<Event<K, V>>, i: nat, k: K)
    requires slices > 0 && i != SliceOf(hash, slices, k)
    ensures LastPut(Project(hash, slices, es, i), k) == None
  {
    if es != [] {
      var e := es[|es| - 1];
      var before := Project(hash, slices, es[..|es| - 1], i);
      NeverInAnotherSlice(hash, slices, es[..|es| - 1], i, k);
      if Concerns(hash, slices, e, i) {
        assert (before + [e])[..|before|] == before;
      } else {
        assert before + [] == before;
      }
    }
  }

  /** Over all slices: a key is stored in its own slice only, and there with the last value put. */
  lemma SlicesHoldLastPut<K, V>(hash: K -> nat, slices: nat, capacity: nat, maxAverage: int,
                                states: seq<seq<Cache<K, V>>>, es: seq<Event<K, V>>, t: nat, i: nat, k: K)
    requires slices > 0 && SlicedRun(hash, slices, capacity, maxAverage, states, es) && t < |states| && i < slices
    ensures k in states[t][i].nodes ==>
              i == SliceOf(hash, slices, k) && LastPut(es[..t], k) == Some(states[t][i].nodes[k].value)
  {
    var cs := SliceIsACache(hash, slices, capacity, maxAverage, states, es, t, i);
    var own := Project(hash, slices, es[..t], i);
    hide SlicedRun, Project, SliceOf;
    StoredIsLastPut(cs, own, SliceSize(capacity, slices), maxAverage, |own|, k);
    assert own[..|own|] == own;
    if i == SliceOf(hash, slices, k) {
      LastPutOfSlice(hash, slices, es[..t], k);
    } else {
      NeverInAnotherSlice(hash, slices, es[..t], i, k);
    }
  }
}
