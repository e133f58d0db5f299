/** Which aging limits keep the LFU cache sound: exactly those from 2 to 250. */
module LfuLimits {
  import opened Lfu
  import opened LfuInvariant

  /** In every reachable state that stores something, minFreq_ is the least frequency. */
  ghost predicate MinFreqSound<K(!new), V(!new)>(capacity: nat, maxAverage: int) {
    forall cs: seq<Cache<K, V>>, es: seq<Event<K, V>>, i ::
      Run(cs, es, capacity, maxAverage) && 0 <= i < |cs| && |cs[i].nodes| > 0 ==> IsLeast(cs[i].nodes, cs[i].minFreq)
  }

  /** Only k is stored, at frequency f. */
  ghost predicate Solo<K, V>(c: Cache<K, V>, k: K, f: int) {
    && k in c.nodes && c.nodes.Keys == {k} && c.nodes[k].freq == f && Placed(c.nodes, c.lists)
  }

  lemma SoloSize<K, V>(c: Cache<K, V>, k: K, f: int)
    requires Solo(c, k, f)
    ensures |c.nodes| == 1 && Enumerates([k], c.nodes.Keys) && IsLeast(c.nodes, f)
  {
    assert |c.nodes.Keys| == 1;
    assert c.nodes[k].freq == f;
    assert [k][0] == k;
  }

  /** Counting an access in a cache of one key. */
  lemma SoloCounted<K, V>(d: Cache<K, V>, k: K, f: int) returns (o: Orders<K>)
    requires Solo(d, k, f) && f >= 1 && d.total >= 0
    ensures OrdersFit(d.(total := d.total + 1), o)
    ensures var c := Counted(d, o);
            var g := if d.total + 1 > d.maxAverage then Lowered(f, Half(d.maxAverage)) else f;
            && Solo(c, k, g) && c.total == d.total + 1 && c.capacity == d.capacity && c.maxAverage == d.maxAverage
            && c.minFreq == if d.total + 1 > d.maxAverage then (if g < NO_FREQ then g else 1) else d.minFreq
  {
    var e := d.(total := d.total + 1);
    SoloSize(d, k, f);
    var half := Half(d.maxAverage);
    AgeLoopEffect(e.nodes, e.lists, [k], half);
    var freqs := Enumeration(AgeLoop(e.nodes, e.lists, [k], half).1.Keys);
    o := Orders([k], freqs);
    hide AgeLoop, Placed, ScannedMin, Enumerates;
    if d.total + 1 > d.maxAverage {
      var c := Aged(e, o);
      AgedShape(e, o);
      SoloSize(c, k, Lowered(f, half));
      ScanFindsLeast(c.nodes, c.lists, o.freqs, Lowered(f, half));
    }
  }

  lemma ApplyGet<K, V>(c: Cache<K, V>, k: K, o: Orders<K>)
    requires k in c.nodes && OrdersFit(Touched(c, k).(total := Touched(c, k).total + 1), o)
    ensures Enabled(c, Get(k, o)) && Apply(c, Get(k, o)) == Counted(Touched(c, k), o)
  {
  }

  lemma ApplyPut<K, V>(c: Cache<K, V>, k: K, v: V, o: Orders<K>)
    requires c.capacity > 0 && |c.nodes| == 0 && OrdersFit(Inserted(c, k, v).(total := Inserted(c, k, v).total + 1), o)
    ensures Enabled(c, Put(k, v, o))
    ensures var d := Counted(Inserted(c, k, v), o);
            Apply(c, Put(k, v, o)) == d.(minFreq := if d.minFreq < 1 then d.minFreq else 1)
  {
  }

  lemma Extended<K, V>(cs: seq<Cache<K, V>>, es: seq<Event<K, V>>, capacity: nat, maxAverage: int, e: Event<K, V>)
    requires Run(cs, es, capacity, maxAverage) && Enabled(cs[|es|], e)
    ensures Run(cs + [Apply(cs[|es|], e)], es + [e], capacity, maxAverage)
  {
    hide Apply, Enabled;
  }

  lemma FirstPut<K, V>(capacity: nat, maxAverage: int, k: K, v: V) returns (o: Orders<K>)
    requires capacity > 0
    ensures var c: Cache<K, V> := Initial(capacity, maxAverage);
            && Enabled(c, Put(k, v, o)) && Apply(c, Put(k, v, o)).total == 1
            && Apply(c, Put(k, v, o)).maxAverage == maxAverage
            && Solo(Apply(c, Put(k, v, o)), k, if 1 > maxAverage then Lowered(1, Half(maxAverage)) else 1)
  {
    var c: Cache<K, V> := Initial(capacity, maxAverage);
    var i := Inserted(c, k, v);
    AddedPlaced(c.nodes, c.lists, k, Node(1, v));
    assert Solo(i, k, 1) && i.total == 0 && i.maxAverage == maxAverage;
    hide Inserted, Placed, OrdersFit;
    o := SoloCounted(i, k, 1);
    ApplyPut(c, k, v, o);
    hide Counted, Apply, Enabled;
  }

  /** One more access to the only key. */
  lemma NextGet<K, V>(c: Cache<K, V>, k: K, f: int) returns (o: Orders<K>)
    requires Solo(c, k, f) && f >= 1 && c.total >= 0
    ensures Enabled(c, Get(k, o))
    ensures var d, n := Apply(c, Get(k, o)), c.total + 1;
            var g := if n > c.maxAverage then Lowered(f + 1, Half(c.maxAverage)) else f + 1;
            && Solo(d, k, g) && d.total == n && d.maxAverage == c.maxAverage
            && (n > c.maxAverage ==> d.minFreq == if g < NO_FREQ then g else 1)
  {
    var d := Touched(c, k);
    TouchedShape(c, k);
    TouchedPlaced(c, k);
    assert Solo(d, k, f + 1) && d.total == c.total && d.maxAverage == c.maxAverage;
    hide Touched, Solo, OrdersFit;
    o := SoloCounted(d, k, f + 1);
    ApplyGet(c, k, o);
    hide Counted, Apply, Enabled;
  }

  /** n accesses to a single key: before the limit its frequency is n; with a limit below 2, where
      aging lowers nothing, it is at least n. */
  lemma {:induction false} SoloRun<K, V>(capacity: nat, maxAverage: int, k: K, v: V, n: nat)
    returns (cs: seq<Cache<K, V>>, es: seq<Event<K, V>>, f: int)
    requires capacity > 0 && n >= 1
    ensures Run(cs, es, capacity, maxAverage) && |es| == n
    ensures cs[n].total == n && cs[n].maxAverage == maxAverage && f >= 1 && Solo(cs[n], k, f)
    ensures n <= maxAverage ==> f == n
    ensures maxAverage < 2 ==> f >= n
    decreases n
  {
    hide Apply, Enabled, Solo, Initial;
    if n == 1 {
      var o := FirstPut(capacity, maxAverage, k, v);
      StartOfRun<K, V>(capacity, maxAverage);
      cs, es := [Initial(capacity, maxAverage)], [];
      Extended(cs, es, capacity, maxAverage, Put(k, v, o));
      cs, es := cs + [Apply(cs[0], Put(k, v, o))], es + [Put(k, v, o)];
      f := if 1 > maxAverage then Lowered(1, Half(maxAverage)) else 1;
    } else {
      cs, es, f := SoloRun(capacity, maxAverage, k, v, n - 1);
      var o := NextGet(cs[n - 1], k, f);
      Extended(cs, es, capacity, maxAverage, Get(k, o));
      cs, es := cs + [Apply(cs[n - 1], Get(k, o))], es + [Get(k, o)];
      f := if n > maxAverage then Lowered(f + 1, Half(maxAverage)) else f + 1;
    }
  }

  lemma StartOfRun<K, V>(capacity: nat, maxAverage: int)
    ensures Run<K, V>([Initial(capacity, maxAverage)], [], capacity, maxAverage)
  {
  }

  /** Outside the range one key accessed often enough gets past the marker 127 when it ages, and
      the scan then reports 1. */
  lemma UnsoundOutside<K, V>(capacity: nat, maxAverage: int, k: K, v: V)
    returns (cs: seq<Cache<K, V>>, es: seq<Event<K, V>>)
    requires capacity > 0 && !(2 <= maxAverage <= 250)
    ensures Run(cs, es, capacity, maxAverage)
    ensures |cs[|es|].nodes| > 0 && !IsLeast(cs[|es|].nodes, cs[|es|].minFreq)
    ensures |cs[|es|].nodes| == 1 && !CanKickOut(cs[|es|])
  {
    var n := if maxAverage < 2 then NO_FREQ - 1 else maxAverage;
    var f;
    cs, es, f := SoloRun(capacity, maxAverage, k, v, n);
    var o := NextGet(cs[n], k, f);
    Extended(cs, es, capacity, maxAverage, Get(k, o));
    hide Apply, Enabled;
    cs, es := cs + [Apply(cs[n], Get(k, o))], es + [Get(k, o)];
    var g := Lowered(f + 1, Half(maxAverage));
    assert g >= NO_FREQ;
    SoloSize(cs[n + 1], k, g);
    NothingAt(cs[n + 1], k, g);
  }

  /** The only key is not in the list at frequency 1. */
  lemma NothingAt<K, V>(c: Cache<K, V>, k: K, g: int)
    requires Solo(c, k, g) && g > 1 && c.minFreq == 1
    ensures !CanKickOut(c)
  {
    FirstOfList(c.nodes, c.lists, 1);
  }

  lemma FirstOfList<K, V>(nodes: map<K, Node<V>>, lists: map<int, seq<K>>, f: int)
    requires Placed(nodes, lists)
    ensures var s := ListAt(lists, f); s != [] ==> s[0] in nodes && nodes[s[0]].freq == f
  {
    var s := ListAt(lists, f);
    if s != [] { assert s[0] in lists[f]; }
  }

  /** With room for one entry the cache is then full, and its next insertion finds no victim. */
  lemma EvictionWithoutVictim<K, V>(maxAverage: int, k: K, v: V) returns (cs: seq<Cache<K, V>>, es: seq<Event<K, V>>)
    requires !(2 <= maxAverage <= 250)
    ensures Run(cs, es, 1, maxAverage) && |cs[|es|].nodes| == cs[|es|].capacity && !CanKickOut(cs[|es|])
    ensures forall j, w, o :: j !in cs[|es|].nodes ==> Stuck(cs[|es|], Put(j, w, o))
  {
    cs, es := UnsoundOutside(1, maxAverage, k, v);
    SameCapacity(cs, es, 1, maxAverage, |es|);
    hide Run, CanKickOut;
  }

  /** No run comes to an eviction that finds no victim. */
  ghost predicate NeverStuck<K(!new), V(!new)>(capacity: nat, maxAverage: int) {
    forall cs: seq<Cache<K, V>>, es: seq<Event<K, V>>, i, e ::
      Run(cs, es, capacity, maxAverage) && 0 <= i < |cs| ==> !Stuck(cs[i], e)
  }

  /** From 2 to 250 every eviction finds its victim. */
  lemma EvictionsSucceed<K(!new), V(!new)>(capacity: nat, maxAverage: int)
    requires 2 <= maxAverage <= 250
    ensures NeverStuck<K, V>(capacity, maxAverage)
  {
    forall cs: seq<Cache<K, V>>, es: seq<Event<K, V>>, i, e | Run(cs, es, capacity, maxAverage) && 0 <= i < |cs|
      ensures !Stuck(cs[i], e)
    {
      InvRun(cs, es, capacity, maxAverage, i);
      hide Run, Inv;
      if |cs[i].nodes| > 0 { EvictionFindsLeast(cs[i]); }
    }
  }

  /** With room for one entry and two keys to store, exactly for these limits. */
  lemma EvictionsSucceedExactly<K(!new), V(!new)>(maxAverage: int, k: K, j: K, v: V)
    requires k != j
    ensures NeverStuck<K, V>(1, maxAverage) <==> 2 <= maxAverage <= 250
  {
    if 2 <= maxAverage <= 250 {
      EvictionsSucceed<K, V>(1, maxAverage);
    } else {
      var cs, es := EvictionWithoutVictim(maxAverage, k, v);
      var c := cs[|es|];
      SameCapacity(cs, es, 1, maxAverage, |es|);
      assert |c.nodes.Keys| == 1;
      assert k in c.nodes && j in c.nodes ==> |c.nodes.Keys - {k}| == 0;
      var other := if k in c.nodes then j else k;
      assert Stuck(c, Put(other, v, Orders([], [])));
    }
  }

  lemma {:induction false} SameCapacity<K, V>(cs: seq<Cache<K, V>>, es: seq<Event<K, V>>, capacity: nat,
                                              maxAverage: int, i: nat)
    requires Run(cs, es, capacity, maxAverage) && i < |cs|
    ensures cs[i].capacity == capacity
  {
    hide Apply, Enabled;
    if i > 0 {
      SameCapacity(cs, es, capacity, maxAverage, i - 1);
      StepConstants(cs[i - 1], es[i - 1]);
    }
  }

  /** The exact range: for any positive capacity, minFreq_ is right in every reachable state
      precisely when the aging limit is between 2 and 250. */
  lemma SoundExactlyBetween2And250<K(!new), V(!new)>(capacity: nat, maxAverage: int, k: K, v: V)
    requires capacity > 0
    ensures MinFreqSound<K, V>(capacity, maxAverage) <==> 2 <= maxAverage <= 250
  {
    if 2 <= maxAverage <= 250 {
      forall cs: seq<Cache<K, V>>, es: seq<Event<K, V>>, i |
        Run(cs, es, capacity, maxAverage) && 0 <= i < |cs| && |cs[i].nodes| > 0
        ensures IsLeast(cs[i].nodes, cs[i].minFreq)
      {
        InvRun(cs, es, capacity, maxAverage, i);
      }
    } else {
      var cs, es := UnsoundOutside(capacity, maxAverage, k, v);
      assert |cs[|es|].nodes| > 0;
    }
  }
}
