/** KLfuCache as an object over nodes in memory: linked lists relinked and counters updated in place,
    with the aging and scanning loops. Each public method is one step of the Lfu model. */
module LfuCache {
  import opened Wrappers
  import opened Lfu
  import opened LfuInvariant
  import opened LfuCounts
  import opened LfuNodes

  // ---------- loops take their next element at the end ----------

  lemma {:induction false} AgeLoopSnoc<K, V>(nodes: map<K, Node<V>>, lists: map<int, seq<K>>, order: seq<K>, k: K,
                                             half: int)
    requires (forall j :: j in order ==> j in nodes) && k in nodes
    requires k in AgeLoop(nodes, lists, order, half).0
    ensures var (n, l) := AgeLoop(nodes, lists, order, half);
            var f := n[k].freq;
            AgeLoop(nodes, lists, order + [k], half) ==
            (n[k := n[k].(freq := Lowered(f, half))], Relinked(l, k, f, Lowered(f, half)))
    decreases |order|
  {
    if order == [] {
      assert (order + [k])[1..] == [];
    } else {
      var j := order[0];
      var g := Lowered(nodes[j].freq, half);
      assert (order + [k])[1..] == order[1..] + [k];
      AgeLoopSnoc(nodes[j := nodes[j].(freq := g)], Relinked(lists, j, nodes[j].freq, g), order[1..], k, half);
    }
  }

  lemma {:induction false} ScanLoopSnoc<K>(lists: map<int, seq<K>>, freqs: seq<int>, f: int, least: int)
    ensures var m := ScanLoop(lists, freqs, least);
            ScanLoop(lists, freqs + [f], least) == if ListAt(lists, f) != [] && f < m then f else m
    decreases |freqs|
  {
    if freqs == [] {
      assert (freqs + [f])[1..] == [];
    } else {
      var h := freqs[0];
      assert (freqs + [f])[1..] == freqs[1..] + [f];
      ScanLoopSnoc(lists, freqs[1..], f, if ListAt(lists, h) != [] && h < least then h else least);
    }
  }

  /** Walking one more element of s. */
  lemma EnumeratesNext<T>(order: seq<T>, s: set<T>, todo: set<T>, x: T)
    requires todo <= s && Enumerates(order, s - todo) && x in todo
    ensures Enumerates(order + [x], s - (todo - {x}))
  {
    assert s - (todo - {x}) == (s - todo) + {x};
    assert x !in order;
  }

  lemma EnumeratesAll<T>(order: seq<T>, s: set<T>, todo: set<T>)
    requires Enumerates(order, s - todo) && |todo| == 0
    ensures Enumerates(order, s)
  {
    assert s - todo == s;
  }

  /** The next element an iteration comes to. */
  method Next<T(==)>(s: set<T>) returns (x: T)
    requires |s| > 0
    ensures x in s
  {
    x :| x in s;
  }

  class KLfuCache<K(==), V> {
    const capacity: nat
    const maxAverage: int
    const store: NodeTable<K, V>
    var minFreq: int
    var curAverage: int
    var curTotal: int

    ghost function View(): Cache<K, V>
      reads this, store
    {
      Cache(capacity, maxAverage, store.nodes, store.lists, minFreq, curTotal)
    }

    ghost predicate Held()
      reads this, store, store.Repr
    {
      store.Valid() && this !in store.Repr && store !in store.Repr
    }

    ghost predicate Sound()
      reads this, store, store.Repr
    {
      Held() && Placed(store.nodes, store.lists)
    }

    ghost predicate Valid()
      reads this, store, store.Repr
    {
      Held() && maxAverage >= 0 && Counts(View()) && (2 <= maxAverage <= 250 ==> Inv(View()))
    }

    /** Storing the key is possible: outside 2 to 250 an eviction may be due that finds no victim. */
    ghost predicate HasRoomFor(k: K)
      reads this, store
    {
      2 <= maxAverage <= 250 || capacity == 0 || k in store.nodes || |store.nodes| != capacity || CanKickOut(View())
    }

    constructor (capacity: nat, maxAverage: int)
      requires maxAverage >= 0
      ensures Valid() && View() == Initial(capacity, maxAverage) && fresh(store) && fresh(store.Repr)
    {
      this.capacity, this.maxAverage := capacity, maxAverage;
      minFreq, curAverage, curTotal := NO_FREQ, 0, 0;
      store := new NodeTable();
      new;
      EmptyInv<K, V>(capacity, maxAverage);
      StartCounts<K, V>(capacity, maxAverage);
    }

    /** A node out of its list, to another frequency, into that list. */
    method Move(k: K, freq: int)
      requires Sound() && k in store.nodes
      modifies store, store.Repr
      ensures Held() && fresh(store.Repr - old(store.Repr)) && old(store.Repr) <= store.Repr
      ensures var f := old(store.nodes)[k].freq;
              && store.nodes == old(store.nodes)[k := old(store.nodes)[k].(freq := freq)]
              && store.lists == Relinked(old(store.lists), k, f, freq)
    {
      hide NodeTable.Valid, Detach, Attach, Placed;
      ListedAt(store.nodes, store.lists, k);
      store.Remove(k);
      store.SetFreq(k, freq);
      store.Add(k);
    }

    method UpdateMinFreq() returns (ghost freqs: seq<int>)
      requires Held()
      modifies `minFreq
      ensures Enumerates(freqs, store.lists.Keys) && minFreq == ScannedMin(store.lists, freqs)
    {
      hide NodeTable.Valid;
      minFreq := NO_FREQ;
      freqs := [];
      store.SameKeys();
      var todo := store.table.Keys;
      while |todo| > 0
        modifies `minFreq
        invariant todo <= store.lists.Keys && Enumerates(freqs, store.lists.Keys - todo)
        invariant minFreq == ScanLoop(store.lists, freqs, NO_FREQ)
        decreases |todo|
      {
        hide Enumerates, ScanLoop;
        var f := Next(todo);
        EnumeratesNext(freqs, store.lists.Keys, todo, f);
        todo := todo - {f};
        ScanLoopSnoc(store.lists, freqs, f, NO_FREQ);
        freqs := freqs + [f];
        var empty := store.EmptyAt(f);
        if !empty && f < minFreq {
          minFreq := f;
        }
      }
      EnumeratesAll(freqs, store.lists.Keys, todo);
      if minFreq == NO_FREQ {
        minFreq := 1;
      }
    }

    /** Lower one key on the way through the table. */
    method AgeOne(k: K)
      requires Sound() && k in store.nodes
      modifies store, store.Repr
      ensures Held() && fresh(store.Repr - old(store.Repr)) && old(store.Repr) <= store.Repr
      ensures var f := old(store.nodes)[k].freq;
              var g := Lowered(f, Half(maxAverage));
              && store.nodes == old(store.nodes)[k := old(store.nodes)[k].(freq := g)]
              && store.lists == Relinked(old(store.lists), k, f, g)
    {
      hide NodeTable.Valid, Placed, Relinked;
      store.NodeAt(k);
      var f := store.nodeMap[k].freq - Half(maxAverage);
      if f < 1 {
        f := 1;
      }
      Move(k, f);
    }

    method AgeAll() returns (ghost order: seq<K>)
      requires Sound()
      modifies store, store.Repr
      ensures Sound() && fresh(store.Repr - old(store.Repr)) && old(store.Repr) <= store.Repr
      ensures Enumerates(order, old(store.nodes).Keys)
      ensures (store.nodes, store.lists) == AgeLoop(old(store.nodes), old(store.lists), order, Half(maxAverage))
    {
      hide NodeTable.Valid, Placed, AgedSoFar, AgeLoop, Enumerates;
      ghost var half := Half(maxAverage);
      order := [];
      ghost var nodes0, lists0 := store.nodes, store.lists;
      store.SameKeys();
      var todo := store.nodeMap.Keys;
      AgingStarts(nodes0, lists0, half);
      while |todo| > 0
        modifies store, store.Repr
        invariant Sound() && fresh(store.Repr - old(store.Repr)) && old(store.Repr) <= store.Repr
        invariant AgedSoFar(nodes0, lists0, half, order, todo, store.nodes, store.lists)
        decreases |todo|
      {
        hide Relinked, Lowered, Half;
        var k := Next(todo);
        AgingNext(nodes0, lists0, half, order, todo, store.nodes, store.lists, k);
        AgeOne(k);
        order := order + [k];
        todo := todo - {k};
      }
      AgingEnds(nodes0, lists0, half, order, todo, store.nodes, store.lists);
    }

    method HandleOverMaxAverageNum() returns (ghost o: Orders<K>)
      requires Sound()
      modifies `minFreq, store, store.Repr
      ensures Held() && fresh(store.Repr - old(store.Repr)) && old(store.Repr) <= store.Repr
      ensures OrdersFit(old(View()), o) && View() == Aged(old(View()), o)
    {
      hide NodeTable.Valid, AgeLoop, Enumerates, Placed;
      ghost var order := AgeAll();
      ghost var freqs := UpdateMinFreq();
      o := Orders(order, freqs);
    }

    method AddFreqNum() returns (ghost o: Orders<K>)
      requires Sound()
      modifies `minFreq, `curTotal, `curAverage, store, store.Repr
      ensures Held() && fresh(store.Repr - old(store.Repr)) && old(store.Repr) <= store.Repr
      ensures OrdersFit(old(View()).(total := old(curTotal) + 1), o)
      ensures View() == Counted(old(View()), o)
    {
      hide NodeTable.Valid, OrdersFit, Placed, Aged;
      store.SameSize();
      curTotal := curTotal + 1;
      curAverage := if |store.nodeMap| == 0 then 0 else curTotal / |store.nodeMap|;
      ghost var e := View();
      if |store.nodeMap| > 0 && curAverage > maxAverage {
        o := HandleOverMaxAverageNum();
      } else {
        o := SomeOrders(e);
      }
    }

    /** Relink the node one frequency up. */
    method Touch(k: K)
      requires Sound() && k in store.nodes
      modifies `minFreq, store, store.Repr
      ensures Sound() && fresh(store.Repr - old(store.Repr)) && old(store.Repr) <= store.Repr
      ensures View() == Touched(old(View()), k)
    {
      hide NodeTable.Valid, Placed, Relinked;
      TouchedPlaced(View(), k);
      store.NodeAt(k);
      var left := store.nodeMap[k].freq;
      Move(k, left + 1);
      var empty := store.EmptyAt(left);
      if left == minFreq && empty {
        minFreq := minFreq + 1;
      }
    }

    method GetInternal(k: K) returns (ghost o: Orders<K>)
      requires Sound() && k in store.nodes
      modifies `minFreq, `curTotal, `curAverage, store, store.Repr
      ensures Held() && fresh(store.Repr - old(store.Repr)) && old(store.Repr) <= store.Repr
      ensures OrdersFit(Touched(old(View()), k).(total := old(curTotal) + 1), o)
      ensures View() == Counted(Touched(old(View()), k), o)
    {
      hide NodeTable.Valid, Touched, Counted, OrdersFit, Placed;
      Touch(k);
      o := AddFreqNum();
    }

    method Get(k: K) returns (found: Option<V>, ghost o: Orders<K>)
      requires Valid()
      modifies this, store, store.Repr
      ensures Valid() && fresh(store.Repr - old(store.Repr)) && old(store.Repr) <= store.Repr
      ensures Enabled(old(View()), Event.Get(k, o)) && View() == Apply(old(View()), Event.Get(k, o))
      ensures found == if k in old(store.nodes) then Some(old(store.nodes)[k].value) else None
    {
      hide NodeTable.Valid, Inv, Counts, OrdersFit, Counted, Touched, Placed;
      ghost var c := View();
      CountsPlaced(c);
      if k in store.nodes { TouchedConstants(c, k); }
      store.SameKeys();
      if k !in store.nodeMap {
        found, o := None, Orders([], []);
      } else {
        store.NodeAt(k);
        found := Some(store.nodeMap[k].value);
        o := GetInternal(k);
      }
      BothStep(c, Event.Get(k, o));
    }

    /** A node leaves its list and the key table. */
    method Evict(k: K)
      requires Sound() && k in store.nodes
      modifies store, store.Repr
      ensures Held() && store.Repr == old(store.Repr) && store.nodes == old(store.nodes) - {k}
      ensures store.lists == Detach(old(store.lists), old(store.nodes)[k].freq, k)
    {
      hide NodeTable.Valid, Placed, Detach;
      ListedAt(store.nodes, store.lists, k);
      store.Remove(k);
      store.Erase(k);
    }

    /** The victim is the first key of the list at minFreq. */
    method KickOut()
      requires Valid() && |store.nodes| > 0 && (2 <= maxAverage <= 250 || CanKickOut(View()))
      modifies `curTotal, `curAverage, store, store.Repr
      ensures Held() && fresh(store.Repr - old(store.Repr)) && old(store.Repr) <= store.Repr
      ensures CanKickOut(old(View())) && View() == KickedOut(old(View()))
    {
      hide NodeTable.Valid, Inv, Counts, Placed, Detach;
      VictimFound(View());
      var victim := store.FirstKey(minFreq);
      store.NodeAt(victim);
      var freq := store.nodeMap[victim].freq;
      Evict(victim);
      store.SameSize();
      curTotal := curTotal - freq;
      curAverage := if |store.nodeMap| == 0 then 0 else curTotal / |store.nodeMap|;
    }

    /** The new node, after making room for it. */
    method InsertNode(k: K, v: V)
      requires Valid() && k !in store.nodes && capacity > 0 && HasRoomFor(k)
      modifies `curTotal, `curAverage, store, store.Repr
      ensures Held() && fresh(store.Repr - old(store.Repr)) && old(store.Repr) <= store.Repr
      ensures |old(store.nodes)| == capacity ==> CanKickOut(old(View()))
      ensures View() == Inserted(old(View()), k, v)
    {
      hide NodeTable.Valid, Inv, Counts, CanKickOut, KickedOut, Attach, Detach;
      store.SameSize();
      if |store.nodeMap| == capacity {
        KickOut();
        KickedKeys(old(View()), k);
      }
      store.NewNode(k, v);
      store.Add(k);
    }

    method PutInternal(k: K, v: V) returns (ghost o: Orders<K>)
      requires Valid() && k !in store.nodes && capacity > 0 && HasRoomFor(k)
      modifies this, store, store.Repr
      ensures Held() && fresh(store.Repr - old(store.Repr)) && old(store.Repr) <= store.Repr
      ensures Enabled(old(View()), Event.Put(k, v, o)) && View() == Apply(old(View()), Event.Put(k, v, o))
    {
      hide NodeTable.Valid, Inv, Counts, OrdersFit, Counted, Inserted, Placed, CanKickOut;
      ghost var c := View();
      InsertNode(k, v);
      InsertedSound(c, k, v);
      o := AddFreqNum();
      minFreq := if minFreq < 1 then minFreq else 1;
    }

    method Put(k: K, v: V) returns (ghost o: Orders<K>)
      requires Valid() && HasRoomFor(k)
      modifies this, store, store.Repr
      ensures Valid() && fresh(store.Repr - old(store.Repr)) && old(store.Repr) <= store.Repr
      ensures Enabled(old(View()), Event.Put(k, v, o)) && View() == Apply(old(View()), Event.Put(k, v, o))
    {
      hide NodeTable.Valid, Inv, Counts, OrdersFit, Counted, Inserted, Touched, Revalued, CanKickOut;
      ghost var c := View();
      store.SameKeys();
      if capacity == 0 {
        o := Orders([], []);
      } else if k in store.nodeMap {
        o := Update(k, v);
      } else {
        o := PutInternal(k, v);
      }
      BothStep(c, Event.Put(k, v, o));
    }

    method Update(k: K, v: V) returns (ghost o: Orders<K>)
      requires Valid() && k in store.nodes && capacity > 0
      modifies this, store, store.Repr
      ensures Held() && fresh(store.Repr - old(store.Repr)) && old(store.Repr) <= store.Repr
      ensures Enabled(old(View()), Event.Put(k, v, o)) && View() == Apply(old(View()), Event.Put(k, v, o))
    {
      hide NodeTable.Valid, Inv, Counts, OrdersFit, Counted, Touched, Placed;
      ghost var c := View();
      RevaluedCounts(c, k, v);
      RevaluedKeys(c, k, v);
      CountsPlaced(Revalued(c, k, v));
      store.SetValue(k, v);
      assert View() == Revalued(c, k, v);
      hide Revalued;
      o := GetInternal(k);
    }

    method Clear()
      requires Valid()
      modifies store
      ensures Valid() && View() == old(View()).(nodes := map[], lists := map[])
    {
      hide NodeTable.Valid, Inv, Counts;
      BothStep(View(), Event.Purge);
      store.Clear();
    }
  }

  /** The aging loop in the middle: keys in order are done, those in todo are not. */
  ghost predicate AgedSoFar<K, V>(nodes0: map<K, Node<V>>, lists0: map<int, seq<K>>, half: int, order: seq<K>,
                                  todo: set<K>,
                                  nodes: map<K, Node<V>>, lists: map<int, seq<K>>) {
    && todo <= nodes0.Keys && Enumerates(order, nodes0.Keys - todo) && (forall k :: k in order ==> k in nodes0)
    && (nodes, lists) == AgeLoop(nodes0, lists0, order, half) && nodes.Keys == nodes0.Keys
  }

  lemma AgingStarts<K, V>(nodes0: map<K, Node<V>>, lists0: map<int, seq<K>>, half: int)
    ensures AgedSoFar(nodes0, lists0, half, [], nodes0.Keys, nodes0, lists0)
  {
  }

  lemma AgingNext<K, V>(nodes0: map<K, Node<V>>, lists0: map<int, seq<K>>, half: int, order: seq<K>, todo: set<K>,
                        nodes: map<K, Node<V>>, lists: map<int, seq<K>>, k: K)
    requires AgedSoFar(nodes0, lists0, half, order, todo, nodes, lists) && k in todo && Placed(nodes, lists)
    ensures k in nodes
    ensures var f := nodes[k].freq; var g := Lowered(f, half);
            var aged, relisted := nodes[k := nodes[k].(freq := g)], Relinked(lists, k, f, g);
            AgedSoFar(nodes0, lists0, half, order + [k], todo - {k}, aged, relisted) && Placed(aged, relisted)
  {
    hide AgeLoop, Relinked, Lowered, Enumerates, Placed;
    EnumeratesNext(order, nodes0.Keys, todo, k);
    AgeLoopSnoc(nodes0, lists0, order, k, half);
    AgedPlaced(nodes, lists, k, half);
  }

  lemma AgingEnds<K, V>(nodes0: map<K, Node<V>>, lists0: map<int, seq<K>>, half: int, order: seq<K>, todo: set<K>,
                        nodes: map<K, Node<V>>, lists: map<int, seq<K>>)
    requires AgedSoFar(nodes0, lists0, half, order, todo, nodes, lists) && |todo| == 0
    ensures Enumerates(order, nodes0.Keys) && (nodes, lists) == AgeLoop(nodes0, lists0, order, half)
  {
    hide AgeLoop, Enumerates;
    EnumeratesAll(order, nodes0.Keys, todo);
  }

  lemma ListedAt<K, V>(nodes: map<K, Node<V>>, lists: map<int, seq<K>>, k: K)
    requires Placed(nodes, lists) && k in nodes
    ensures nodes[k].freq in lists && k in lists[nodes[k].freq]
  {
  }

  lemma CountsPlaced<K, V>(c: Cache<K, V>)
    requires Counts(c)
    ensures Placed(c.nodes, c.lists)
  {
  }

  lemma VictimFound<K, V>(c: Cache<K, V>)
    requires Counts(c) && |c.nodes| > 0 && (Inv(c) || CanKickOut(c))
    ensures Placed(c.nodes, c.lists) && CanKickOut(c)
  {
    hide Placed, Inv, CanKickOut;
    if Inv(c) { EvictionFindsLeast(c); }
  }

  lemma BothStep<K, V>(c: Cache<K, V>, e: Event<K, V>)
    requires Counts(c) && c.maxAverage >= 0 && Enabled(c, e) && (2 <= c.maxAverage <= 250 ==> Inv(c))
    ensures Counts(Apply(c, e)) && (2 <= c.maxAverage <= 250 ==> Inv(Apply(c, e)))
  {
    hide Counts, Inv, Enabled, Apply;
    CountsStep(c, e);
    if 2 <= c.maxAverage <= 250 { InvStep(c, e); }
  }

  lemma InsertedSound<K, V>(c: Cache<K, V>, k: K, v: V)
    requires Counts(c) && c.capacity > 0 && k !in c.nodes && (|c.nodes| == c.capacity ==> CanKickOut(c))
    ensures Placed(Inserted(c, k, v).nodes, Inserted(c, k, v).lists)
  {
    hide Counts, Placed, CanKickOut;
    InsertedReady(c, k, v);
  }

  lemma KickedKeys<K, V>(c: Cache<K, V>, k: K)
    requires CanKickOut(c) && k !in c.nodes
    ensures k !in KickedOut(c).nodes
  {
  }

  lemma AgedPlaced<K, V>(nodes: map<K, Node<V>>, lists: map<int, seq<K>>, k: K, half: int)
    requires Placed(nodes, lists) && k in nodes
    ensures var f := nodes[k].freq; var g := Lowered(f, half);
            Placed(nodes[k := nodes[k].(freq := g)], Relinked(lists, k, f, g))
  {
    hide Placed, Relinked;
    RelinkedPlaced(nodes, lists, k, Lowered(nodes[k].freq, half));
  }
}
