/** The order of the LFU cache's lists: whoever came to a list earlier stands further front, and an
    aging pass lists the keys anew in the order in which it walks the key table. */
module LfuOrder {
  import opened Wrappers
  import opened Lfu
  import opened LfuInvariant
  import opened LfuCounts

  // ---------- the lists keep the order of arrival ----------

  /** The step puts key k at the tail of a list. */
  ghost predicate Moves<K, V>(c: Cache<K, V>, e: Event<K, V>, k: K) {
    match BeforeCount(c, e)
    case None => false
    case Some(d) => e.key == k || Ages(d.(total := d.total + 1))
  }

  /** When a key last came to its list: the step, counted from 1, and its place in the walk over the
      key table if that step aged the cache. */
  datatype Moment = Moment(step: nat, place: nat)

  predicate Earlier(a: Moment, b: Moment) { a.step < b.step || (a.step == b.step && a.place < b.place) }

  function Place<K(==)>(order: seq<K>, k: K): nat {
    if order == [] || order[0] == k then 0 else 1 + Place(order[1..], k)
  }

  ghost predicate Aging<K, V>(c: Cache<K, V>, e: Event<K, V>) {
    match BeforeCount(c, e)
    case None => false
    case Some(d) => Ages(d.(total := d.total + 1))
  }

  ghost function Arrival<K, V>(cs: seq<Cache<K, V>>, es: seq<Event<K, V>>, i: nat, k: K): Moment
    requires i <= |es| && |cs| == |es| + 1
  {
    if i == 0 then Moment(0, 0)
    else if Moves(cs[i - 1], es[i - 1], k) then
      Moment(i, if Aging(cs[i - 1], es[i - 1]) then Place(es[i - 1].orders.keys, k) else 0)
    else Arrival(cs, es, i - 1, k)
  }

  lemma {:induction false} ArrivalSoFar<K, V>(cs: seq<Cache<K, V>>, es: seq<Event<K, V>>, i: nat, k: K)
    requires i <= |es| && |cs| == |es| + 1
    ensures Arrival(cs, es, i, k).step <= i
  {
    if i > 0 { ArrivalSoFar(cs, es, i - 1, k); }
  }

  ghost predicate Before<T>(s: seq<T>, x: T, y: T) { exists i, j :: 0 <= i < j < |s| && s[i] == x && s[j] == y }

  lemma {:induction false} WithoutOrder<T>(s: seq<T>, z: T, x: T, y: T)
    requires Before(Without(s, z), x, y)
    ensures Before(s, x, y)
  {
    var r := Without(s, z);
    var i, j :| 0 <= i < j < |r| && r[i] == x && r[j] == y;
    if s[0] == z {
      assert s[i + 1] == x && s[j + 1] == y;
    } else {
      var t := Without(s[1..], z);
      assert r == [s[0]] + t;
      if i == 0 {
        assert y in t;
        var q :| 0 <= q < |s[1..]| && s[1..][q] == y;
        assert s[q + 1] == y;
      } else {
        assert t[i - 1] == x && t[j - 1] == y;
        assert Before(t, x, y);
        WithoutOrder(s[1..], z, x, y);
        var p, q :| 0 <= p < q < |s[1..]| && s[1..][p] == x && s[1..][q] == y;
        assert s[p + 1] == x && s[q + 1] == y;
      }
    }
  }

  lemma AppendedOrder<T>(s: seq<T>, z: T, x: T, y: T)
    requires Before(s + [z], x, y)
    ensures Before(s, x, y) || y == z
  {
    var r := s + [z];
    var i, j :| 0 <= i < j < |r| && r[i] == x && r[j] == y;
    if j < |s| { assert s[i] == x && s[j] == y; }
  }

  /** In a step that does not age, two keys of a list were there before in that order, unless the
      second has just been put there. */
  lemma OrderBefore<K, V>(c: Cache<K, V>, e: Event<K, V>, f: int, x: K, y: K)
    requires Counts(c) && Enabled(c, e) && f in Apply(c, e).lists && Before(Apply(c, e).lists[f], x, y)
    requires !Moves(c, e, y)
    ensures f in c.lists && Before(c.lists[f], x, y)
  {
    hide OrdersFit, Aged, Placed;
    match BeforeCount(c, e)
    case None =>
    case Some(d) =>
      assert Apply(c, e).lists == d.lists;
      match e {
        case Get(k, _) =>
          RelinkedOrder(c.lists, k, c.nodes[k].freq, c.nodes[k].freq + 1, f, x, y);
        case Put(k, v, _) =>
          if k in c.nodes {
            RelinkedOrder(c.lists, k, c.nodes[k].freq, c.nodes[k].freq + 1, f, x, y);
          } else {
            InsertedOrder(c, k, v, f, x, y);
          }
      }
  }

  lemma RelinkedOrder<K>(lists: map<int, seq<K>>, k: K, from: int, to: int, f: int, x: K, y: K)
    requires f in Relinked(lists, k, from, to) && Before(Relinked(lists, k, from, to)[f], x, y) && y != k
    ensures f in lists && Before(lists[f], x, y)
  {
    var detached := Detach(lists, from, k);
    if f == to { AppendedOrder(ListAt(detached, f), k, x, y); }
    assert Before(ListAt(detached, f), x, y);
    if f == from { WithoutOrder(ListAt(lists, f), k, x, y); }
  }

  lemma InsertedOrder<K, V>(c: Cache<K, V>, k: K, v: V, f: int, x: K, y: K)
    requires |c.nodes| == c.capacity ==> CanKickOut(c)
    requires f in Inserted(c, k, v).lists && Before(Inserted(c, k, v).lists[f], x, y) && y != k
    ensures f in c.lists && Before(c.lists[f], x, y)
  {
    var d := if |c.nodes| == c.capacity then KickedOut(c) else c;
    if f == 1 { AppendedOrder(ListAt(d.lists, f), k, x, y); }
    assert Before(ListAt(d.lists, f), x, y);
    if |c.nodes| == c.capacity {
      var victim := c.lists[c.minFreq][0];
      if f == c.nodes[victim].freq { WithoutOrder(ListAt(c.lists, f), victim, x, y); }
    }
  }

  // ---------- aging lists the keys in the order of its walk ----------

  /** What the lists say of two keys after the rest of the walk: if the second is still to be walked,
      the first is not or comes before it; otherwise they stand as they stood, and neither moves. */
  ghost predicate WalkOrder<K>(lists: map<int, seq<K>>, order: seq<K>, f: int, x: K, y: K) {
    if y in order then x in order ==> Place(order, x) < Place(order, y)
    else x !in order && f in lists && Before(lists[f], x, y)
  }

  lemma {:induction false} AgeLoopOrder<K, V>(nodes: map<K, Node<V>>, lists: map<int, seq<K>>, order: seq<K>, half: int,
                                              f: int, x: K, y: K)
    requires Placed(nodes, lists) && Distinct(order) && forall k :: k in order ==> k in nodes
    requires var r := AgeLoop(nodes, lists, order, half).1; f in r && Before(r[f], x, y)
    ensures WalkOrder(lists, order, f, x, y)
    decreases |order|
  {
    hide Placed;
    if order != [] {
      var k := order[0];
      var g := Lowered(nodes[k].freq, half);
      var relisted := Relinked(lists, k, nodes[k].freq, g);
      var relowered := nodes[k := nodes[k].(freq := g)];
      RelinkedPlaced(nodes, lists, k, g);
      AgeLoopOrder(relowered, relisted, order[1..], half, f, x, y);
      RelinkedIsLast(nodes, lists, k, g);
      hide AgeLoop, Relinked, StandsLast;
      WalkedOne(relowered, lists, relisted, order, nodes[k].freq, g, f, x, y);
    }
  }

  lemma RelinkedIsLast<K, V>(nodes: map<K, Node<V>>, lists: map<int, seq<K>>, k: K, g: int)
    requires k in nodes
    ensures StandsLast(nodes[k := nodes[k].(freq := g)], Relinked(lists, k, nodes[k].freq, g), k)
  {
    hide Detach;
  }

  /** One key of the walk. */
  lemma WalkedOne<K, V>(nodes: map<K, Node<V>>, lists: map<int, seq<K>>, relisted: map<int, seq<K>>, order: seq<K>,
                        from: int, to: int, f: int, x: K, y: K)
    requires Distinct(order) && order != [] && relisted == Relinked(lists, order[0], from, to)
    requires Placed(nodes, relisted) && StandsLast(nodes, relisted, order[0])
    requires WalkOrder(relisted, order[1..], f, x, y)
    ensures WalkOrder(lists, order, f, x, y)
  {
    hide Relinked, Placed, StandsLast;
    var k := order[0];
    assert k !in order[1..];
    if y !in order[1..] {
      if x == k { NotBeforeIfLast(nodes, relisted, f, x, y); }
      if y != k { RelinkedOrder(lists, k, from, to, f, x, y); }
    }
  }

  /** After an aging pass the lists are in the order of the walk. */
  lemma AgedOrder<K, V>(c: Cache<K, V>, o: Orders<K>, f: int, x: K, y: K)
    requires Placed(c.nodes, c.lists) && OrdersFit(c, o) && f in Aged(c, o).lists && Before(Aged(c, o).lists[f], x, y)
    ensures Place(o.keys, x) < Place(o.keys, y)
  {
    AgedShape(c, o);
    BeforeStored(Aged(c, o).nodes, Aged(c, o).lists, f, x, y);
    AgeLoopOrder(c.nodes, c.lists, o.keys, Half(c.maxAverage), f, x, y);
    hide AgeLoop, ScannedMin, Before, Placed, Place;
  }

  lemma BeforeStored<K, V>(nodes: map<K, Node<V>>, lists: map<int, seq<K>>, f: int, x: K, y: K)
    requires Placed(nodes, lists) && f in lists && Before(lists[f], x, y)
    ensures x in nodes && y in nodes && x != y
  {
  }

  /** In a step that ages, the whole cache is listed anew. */
  lemma AgingOrder<K, V>(c: Cache<K, V>, e: Event<K, V>, f: int, x: K, y: K)
    requires Counts(c) && c.maxAverage >= 0 && Enabled(c, e) && Aging(c, e)
    requires f in Apply(c, e).lists && Before(Apply(c, e).lists[f], x, y)
    ensures !e.Purge? && Place(e.orders.keys, x) < Place(e.orders.keys, y)
  {
    hide Counts, OrdersFit, Placed, Ages, Place, Before, Apply, Enabled, Aged, BeforeCount;
    var d := BeforeCount(c, e).value;
    AgingLists(c, e);
    CountingPlaced(c, e);
    AgedOrder(d.(total := d.total + 1), e.orders, f, x, y);
  }

  lemma AgingLists<K, V>(c: Cache<K, V>, e: Event<K, V>)
    requires Enabled(c, e) && Aging(c, e)
    ensures !e.Purge?
    ensures var d := BeforeCount(c, e).value.(total := BeforeCount(c, e).value.total + 1);
            OrdersFit(d, e.orders) && Apply(c, e).lists == Aged(d, e.orders).lists
  {
    hide OrdersFit, Aged, Ages, Touched, Inserted, Revalued, CanKickOut;
  }

  lemma CountingPlaced<K, V>(c: Cache<K, V>, e: Event<K, V>)
    requires Counts(c) && c.maxAverage >= 0 && BeforeCount(c, e).Some?
    ensures Placed(BeforeCount(c, e).value.nodes, BeforeCount(c, e).value.lists)
  {
    hide Counts, Sum, Bound, Touched, Inserted, Revalued, CanKickOut;
    match e
    case Get(k, _) => TouchedReady(c, k);
    case Put(k, v, _) =>
      if k in c.nodes {
        RevaluedCounts(c, k, v);
        TouchedReady(Revalued(c, k, v), k);
      } else {
        InsertedReady(c, k, v);
      }
  }

  /** Within a list, whoever stands further front came earlier. */
  lemma {:induction false} FrontCameFirst<K, V>(cs: seq<Cache<K, V>>, es: seq<Event<K, V>>, capacity: nat,
                                                maxAverage: int, i: nat, f: int, x: K, y: K)
    requires Run(cs, es, capacity, maxAverage) && maxAverage >= 0 && i <= |es|
    requires f in cs[i].lists && Before(cs[i].lists[f], x, y)
    ensures Earlier(Arrival(cs, es, i, x), Arrival(cs, es, i, y))
  {
    hide Apply, Enabled, Counts, Moves, Aging, Place, Before;
    if i > 0 {
      var c, e := cs[i - 1], es[i - 1];
      CountsRun(cs, es, capacity, maxAverage, i - 1);
      ArrivalSoFar(cs, es, i - 1, x);
      MovedTogether(c, e, x, y);
      if Aging(c, e) {
        AgingOrder(c, e, f, x, y);
      } else if !Moves(c, e, y) {
        OrderBefore(c, e, f, x, y);
        FrontCameFirst(cs, es, capacity, maxAverage, i - 1, f, x, y);
        NotMoved(c, e, f, x, y);
      } else {
        CountsStep(c, e);
        PlacedCounts(cs[i]);
        BeforeStored(cs[i].nodes, cs[i].lists, f, x, y);
      }
    }
  }

  lemma PlacedCounts<K, V>(c: Cache<K, V>)
    requires Counts(c)
    ensures Placed(c.nodes, c.lists)
  {
  }

  /** An aging step moves every key, any other at most one. */
  lemma MovedTogether<K, V>(c: Cache<K, V>, e: Event<K, V>, x: K, y: K)
    ensures Aging(c, e) ==> Moves(c, e, x) && Moves(c, e, y)
    ensures !Aging(c, e) && Moves(c, e, x) && Moves(c, e, y) ==> x == y
  {
    hide Ages;
  }

  /** The key stands last in the list of its frequency. */
  ghost predicate StandsLast<K, V>(nodes: map<K, Node<V>>, lists: map<int, seq<K>>, k: K) {
    k in nodes && var f := nodes[k].freq; f in lists && lists[f] != [] && lists[f][|lists[f]| - 1] == k
  }

  lemma TouchedLast<K, V>(c: Cache<K, V>, k: K)
    requires k in c.nodes
    ensures StandsLast(Touched(c, k).nodes, Touched(c, k).lists, k)
  {
    hide Detach;
  }

  lemma InsertedLast<K, V>(c: Cache<K, V>, k: K, v: V)
    requires |c.nodes| == c.capacity ==> CanKickOut(c)
    ensures StandsLast(Inserted(c, k, v).nodes, Inserted(c, k, v).lists, k)
  {
    hide KickedOut;
  }

  /** A key that is moved alone stands last in its list. */
  lemma MovedIsLast<K, V>(c: Cache<K, V>, e: Event<K, V>, k: K)
    requires Enabled(c, e) && BeforeCount(c, e).Some? && e.key == k
    requires var d := BeforeCount(c, e).value; !Ages(d.(total := d.total + 1))
    ensures StandsLast(Apply(c, e).nodes, Apply(c, e).lists, k)
  {
    hide OrdersFit, Aged, Touched, Inserted, Revalued, StandsLast, Ages, CanKickOut;
    match e
    case Get(_, _) => TouchedLast(c, k);
    case Put(_, v, _) =>
      if k in c.nodes {
        RevaluedKeys(c, k, v);
        TouchedLast(Revalued(c, k, v), k);
      } else {
        InsertedLast(c, k, v);
      }
  }

  /** If the second of two keys of a list was not moved, neither was the first. */
  lemma NotMoved<K, V>(c: Cache<K, V>, e: Event<K, V>, f: int, x: K, y: K)
    requires Counts(c) && c.maxAverage >= 0 && Enabled(c, e)
    requires f in Apply(c, e).lists && Before(Apply(c, e).lists[f], x, y) && !Moves(c, e, y)
    ensures !Moves(c, e, x)
  {
    CountsStep(c, e);
    if Moves(c, e, x) {
      MovedIsLast(c, e, x);
      var v := Apply(c, e);
      hide Apply, Enabled, BeforeCount, Sum, StandsLast;
      NotBeforeIfLast(v.nodes, v.lists, f, x, y);
    }
  }

  lemma NotBeforeIfLast<K, V>(nodes: map<K, Node<V>>, lists: map<int, seq<K>>, f: int, x: K, y: K)
    requires Placed(nodes, lists) && StandsLast(nodes, lists, x) && f in lists
    ensures !Before(lists[f], x, y)
  {
  }

  /** Two keys of one list: the one further front is the one that came earlier. */
  lemma ListOrderExactly<K, V>(cs: seq<Cache<K, V>>, es: seq<Event<K, V>>, capacity: nat, maxAverage: int,
                               i: nat, x: K, y: K)
    requires Run(cs, es, capacity, maxAverage) && maxAverage >= 0 && i <= |es| && x != y
    requires x in cs[i].nodes && y in cs[i].nodes && cs[i].nodes[x].freq == cs[i].nodes[y].freq
    ensures var f := cs[i].nodes[x].freq;
            && f in cs[i].lists
            && (Before(cs[i].lists[f], x, y) <==> Earlier(Arrival(cs, es, i, x), Arrival(cs, es, i, y)))
  {
    var c, f := cs[i], cs[i].nodes[x].freq;
    CountsRun(cs, es, capacity, maxAverage, i);
    EitherBefore(c.nodes, c.lists, x, y);
    hide Before, Arrival, Counts, Apply, Enabled;
    if Before(c.lists[f], x, y) {
      FrontCameFirst(cs, es, capacity, maxAverage, i, f, x, y);
    } else {
      FrontCameFirst(cs, es, capacity, maxAverage, i, f, y, x);
    }
  }

  lemma EitherBefore<K, V>(nodes: map<K, Node<V>>, lists: map<int, seq<K>>, x: K, y: K)
    requires Placed(nodes, lists) && x in nodes && y in nodes && x != y && nodes[x].freq == nodes[y].freq
    ensures var f := nodes[x].freq; f in lists && (Before(lists[f], x, y) || Before(lists[f], y, x))
  {
    var s := lists[nodes[x].freq];
    var i :| 0 <= i < |s| && s[i] == x;
    var j :| 0 <= j < |s| && s[j] == y;
  }

  /** The key that an eviction takes is a least-frequently used one, and of those the one that came to
      its list earliest, where an aging pass lists all keys anew in the order of its walk. */
  lemma VictimIsOldest<K, V>(cs: seq<Cache<K, V>>, es: seq<Event<K, V>>, capacity: nat, maxAverage: int, i: nat)
    requires Run(cs, es, capacity, maxAverage) && i <= |es| && 2 <= maxAverage <= 250 && |cs[i].nodes| > 0
    ensures var c := cs[i];
            && CanKickOut(c)
            && forall k :: k in c.nodes && k != c.lists[c.minFreq][0] ==>
                 var victim := c.lists[c.minFreq][0];
                 || c.nodes[victim].freq < c.nodes[k].freq
                 || (c.nodes[victim].freq == c.nodes[k].freq
                     && Earlier(Arrival(cs, es, i, victim), Arrival(cs, es, i, k)))
  {
    var c := cs[i];
    InvRun(cs, es, capacity, maxAverage, i);
    EvictionFindsLeast(c);
    var victim := c.lists[c.minFreq][0];
    hide Run, Arrival, Sum, Bound;
    forall k | k in c.nodes && k != victim && c.nodes[k].freq == c.nodes[victim].freq
      ensures Earlier(Arrival(cs, es, i, victim), Arrival(cs, es, i, k))
    {
      FirstIsBefore(c, k);
      FrontCameFirst(cs, es, capacity, maxAverage, i, c.minFreq, victim, k);
    }
  }

  lemma FirstIsBefore<K, V>(c: Cache<K, V>, k: K)
    requires Placed(c.nodes, c.lists) && CanKickOut(c) && k in c.nodes && k != c.lists[c.minFreq][0]
    requires c.nodes[k].freq == c.nodes[c.lists[c.minFreq][0]].freq
    ensures c.minFreq in c.lists && Before(c.lists[c.minFreq], c.lists[c.minFreq][0], k)
  {
    var s := c.lists[c.minFreq];
    assert s[0] in s;
    assert k in s;
    var j :| 0 <= j < |s| && s[j] == k;
  }
}
