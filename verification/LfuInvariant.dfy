/** What every reachable state of the LFU cache keeps, for aging limits from 2 to 250. */
module LfuInvariant {
  import opened Wrappers
  import opened Lfu

  // ---------- the invariant ----------

  /** Each key stands exactly once, in the list of its own frequency, and nothing else does. */
  ghost predicate Placed<K, V>(nodes: map<K, Node<V>>, lists: map<int, seq<K>>) {
    && (forall f :: f in lists ==> Distinct(lists[f]))
    && (forall f, k :: f in lists && k in lists[f] ==> k in nodes && nodes[k].freq == f)
    && (forall k :: k in nodes ==> nodes[k].freq in lists && k in lists[nodes[k].freq])
    && (forall k :: k in nodes ==> nodes[k].freq >= 1)
  }

  /** m is the least frequency of any stored key. */
  ghost predicate IsLeast<K, V>(nodes: map<K, Node<V>>, m: int) {
    (exists k :: k in nodes && nodes[k].freq == m) && forall k :: k in nodes ==> m <= nodes[k].freq
  }

  ghost function Pick<K, V>(nodes: map<K, Node<V>>): (k: K)
    requires |nodes| > 0
    ensures k in nodes
  {
    assert |nodes.Keys| > 0;
    var k :| k in nodes.Keys; k
  }

  ghost function Sum<K, V>(nodes: map<K, Node<V>>): int
    decreases |nodes|
  {
    if |nodes| == 0 then 0
    else
      var k := Pick(nodes);
      assert |nodes - {k}| < |nodes| by { assert (nodes - {k}).Keys == nodes.Keys - {k}; }
      nodes[k].freq + Sum(nodes - {k})
  }

  /** No key's frequency reaches this bound. */
  function Bound(maxAverage: int, capacity: nat): int { (maxAverage + 1) * capacity }

  ghost predicate Inv<K, V>(c: Cache<K, V>) {
    && Placed(c.nodes, c.lists)
    && |c.nodes| <= c.capacity
    && Sum(c.nodes) <= c.total
    && 1 <= c.minFreq
    && (|c.nodes| > 0 ==> IsLeast(c.nodes, c.minFreq) && c.minFreq <= c.maxAverage)
    && (forall k :: k in c.nodes ==> c.nodes[k].freq < Bound(c.maxAverage, c.capacity))
  }

  // ---------- sums ----------

  lemma {:induction false} SumSplit<K, V>(nodes: map<K, Node<V>>, k: K)
    requires k in nodes
    ensures Sum(nodes) == nodes[k].freq + Sum(nodes - {k})
    decreases |nodes|
  {
    var p := Pick(nodes);
    if p != k {
      assert (nodes - {p}).Keys == nodes.Keys - {p};
      assert (nodes - {k}).Keys == nodes.Keys - {k};
      SumSplit(nodes - {p}, k);
      SumSplit(nodes - {k}, p);
      assert nodes - {p} - {k} == nodes - {k} - {p};
    }
  }

  lemma SumSet<K, V>(nodes: map<K, Node<V>>, k: K, n: Node<V>)
    ensures k in nodes ==> Sum(nodes[k := n]) == Sum(nodes) - nodes[k].freq + n.freq
    ensures k !in nodes ==> Sum(nodes[k := n]) == Sum(nodes) + n.freq
  {
    SumSplit(nodes[k := n], k);
    assert nodes[k := n] - {k} == nodes - {k};
    if k in nodes { SumSplit(nodes, k); } else { assert nodes - {k} == nodes; }
  }

  lemma SizeSet<K, V>(nodes: map<K, Node<V>>, k: K, n: Node<V>)
    ensures |nodes[k := n]| == |nodes| + if k in nodes then 0 else 1
    ensures k in nodes ==> nodes[k := n].Keys == nodes.Keys
  {
    var m := nodes[k := n];
    assert m.Keys == nodes.Keys + {k};
    assert |m| == |m.Keys| && |nodes| == |nodes.Keys|;
  }

  lemma SameSize<K, V>(a: map<K, Node<V>>, b: map<K, Node<V>>)
    requires a.Keys == b.Keys
    ensures |a| == |b|
  {
    assert |a.Keys| == |b.Keys|;
  }

  /** All frequencies at least m: the sum is at least m per key. */
  lemma {:induction false} SumAtLeast<K, V>(nodes: map<K, Node<V>>, m: int)
    requires forall k :: k in nodes ==> nodes[k].freq >= m
    ensures Sum(nodes) >= m * |nodes|
    decreases |nodes|
  {
    if |nodes| > 0 {
      var p := Pick(nodes);
      assert (nodes - {p}).Keys == nodes.Keys - {p};
      SumAtLeast(nodes - {p}, m);
      var n := |nodes - {p}|;
      assert |nodes| == n + 1;
      Distribute(m, n);
    }
  }

  lemma Distribute(m: int, n: int)
    ensures m * (n + 1) == m * n + m
  {
  }

  lemma SumMember<K, V>(nodes: map<K, Node<V>>, k: K)
    requires k in nodes && forall j :: j in nodes ==> nodes[j].freq >= 0
    ensures nodes[k].freq <= Sum(nodes)
  {
    SumSplit(nodes, k);
    SumAtLeast(nodes - {k}, 0);
  }

  // ---------- moving one key ----------

  lemma RemovedPlaced<K, V>(nodes: map<K, Node<V>>, lists: map<int, seq<K>>, k: K)
    requires Placed(nodes, lists) && k in nodes
    ensures Placed(nodes - {k}, Detach(lists, nodes[k].freq, k))
  {
    var f := nodes[k].freq;
    var detached := Detach(lists, f, k);
    assert Distinct(lists[f]) && detached[f] == Without(lists[f], k);
    forall h, j | h in detached && j in detached[h]
      ensures j in (nodes - {k}) && nodes[j].freq == h
    {
      assert j in lists[h];
    }
  }

  lemma AddedPlaced<K, V>(nodes: map<K, Node<V>>, lists: map<int, seq<K>>, k: K, n: Node<V>)
    requires Placed(nodes, lists) && k !in nodes && n.freq >= 1
    ensures Placed(nodes[k := n], Attach(lists, n.freq, k))
  {
    var attached := Attach(lists, n.freq, k);
    assert k !in ListAt(lists, n.freq);
    assert attached[n.freq] == ListAt(lists, n.freq) + [k];
  }

  lemma RelinkedPlaced<K, V>(nodes: map<K, Node<V>>, lists: map<int, seq<K>>, k: K, g: int)
    requires Placed(nodes, lists) && k in nodes && g >= 1
    ensures Placed(nodes[k := nodes[k].(freq := g)], Relinked(lists, k, nodes[k].freq, g))
  {
    hide Placed;
    var n := nodes[k].(freq := g);
    RemovedPlaced(nodes, lists, k);
    AddedPlaced(nodes - {k}, Detach(lists, nodes[k].freq, k), k, n);
    assert (nodes - {k})[k := n] == nodes[k := n];
  }

  // ---------- aging ----------

  /** Aging lowers every key on the way and keeps the lists right. */
  lemma {:induction false} AgeLoopEffect<K, V>(nodes: map<K, Node<V>>, lists: map<int, seq<K>>, order: seq<K>,
                                               half: int)
    requires Placed(nodes, lists) && Distinct(order) && forall k :: k in order ==> k in nodes
    ensures var (aged, relisted) := AgeLoop(nodes, lists, order, half);
            && Placed(aged, relisted) && aged.Keys == nodes.Keys
            && (forall k :: k in nodes ==>
                  aged[k] == if k in order then nodes[k].(freq := Lowered(nodes[k].freq, half)) else nodes[k])
    decreases |order|
  {
    if order != [] {
      var k := order[0];
      var g := Lowered(nodes[k].freq, half);
      RelinkedPlaced(nodes, lists, k, g);
      assert k !in order[1..];
      AgeLoopEffect(nodes[k := nodes[k].(freq := g)], Relinked(lists, k, nodes[k].freq, g), order[1..], half);
    }
  }

  lemma {:induction false} ScanLoopEffect<K>(lists: map<int, seq<K>>, freqs: seq<int>, least: int)
    ensures var m := ScanLoop(lists, freqs, least);
            && m <= least && (m == least || (m in freqs && ListAt(lists, m) != []))
            && forall f :: f in freqs && ListAt(lists, f) != [] ==> m <= f
    decreases |freqs|
  {
    if freqs != [] {
      var f := freqs[0];
      ScanLoopEffect(lists, freqs[1..], if ListAt(lists, f) != [] && f < least then f else least);
    }
  }

  /** updateMinFreq finds the least frequency as long as that is below its "none" marker, and
      answers 1 otherwise. */
  lemma ScanFindsLeast<K, V>(nodes: map<K, Node<V>>, lists: map<int, seq<K>>, freqs: seq<int>, m: int)
    requires Placed(nodes, lists) && Enumerates(freqs, lists.Keys) && IsLeast(nodes, m)
    ensures ScannedMin(lists, freqs) == if m < NO_FREQ then m else 1
  {
    ScanLoopEffect(lists, freqs, NO_FREQ);
    hide ScanLoop, Distinct;
    var s := ScanLoop(lists, freqs, NO_FREQ);
    var k :| k in nodes && nodes[k].freq == m;
    assert m in lists.Keys && m in freqs && k in ListAt(lists, m);
    assert ListAt(lists, m) != [];
    assert s <= m;
    if s != NO_FREQ {
      assert s in lists.Keys;
      var first := lists[s][0];
      assert first in lists[s];
      assert nodes[first].freq == s;
    }
    assert s == NO_FREQ || s == m;
  }

  lemma LeastExists<K, V>(nodes: map<K, Node<V>>) returns (m: int)
    requires |nodes| > 0
    ensures IsLeast(nodes, m)
    decreases |nodes|
  {
    var p := Pick(nodes);
    m := nodes[p].freq;
    var rest := nodes - {p};
    assert rest.Keys == nodes.Keys - {p};
    if |rest| > 0 {
      var n := LeastExists(rest);
      var q :| q in rest && rest[q].freq == n;
      assert nodes[q].freq == n;
      m := if n < m then n else m;
    }
    assert forall k :: k in nodes ==> k == p || k in rest;
  }

  // ---------- steps ----------

  /** What a step has established just before it counts its access. Over is the bound the
      frequencies may have reached by the increment. */
  ghost predicate Pending<K, V>(d: Cache<K, V>) {
    && |d.nodes| > 0 && Placed(d.nodes, d.lists) && |d.nodes| <= d.capacity
    && Sum(d.nodes) <= d.total + 1
    && (forall k :: k in d.nodes ==> d.nodes[k].freq <= Bound(d.maxAverage, d.capacity))
    && (exists k :: k in d.nodes && d.nodes[k].freq <= d.maxAverage + 1)
  }

  /** A touch raises one frequency by one and nothing else. */
  lemma TouchedShape<K, V>(c: Cache<K, V>, k: K)
    requires k in c.nodes
    ensures var d := Touched(c, k);
            && d.nodes.Keys == c.nodes.Keys && |d.nodes| == |c.nodes|
            && d.capacity == c.capacity && d.maxAverage == c.maxAverage && d.total == c.total
            && forall j :: j in c.nodes ==> d.nodes[j].freq == c.nodes[j].freq + if j == k then 1 else 0
  {
    hide Relinked;
    SizeSet(c.nodes, k, c.nodes[k].(freq := c.nodes[k].freq + 1));
  }

  lemma TouchedPlaced<K, V>(c: Cache<K, V>, k: K)
    requires Placed(c.nodes, c.lists) && k in c.nodes
    ensures Placed(Touched(c, k).nodes, Touched(c, k).lists)
  {
    assert c.nodes[k].freq >= 1;
    hide Placed, Relinked;
    RelinkedPlaced(c.nodes, c.lists, k, c.nodes[k].freq + 1);
  }

  lemma TouchedSum<K, V>(c: Cache<K, V>, k: K)
    requires k in c.nodes
    ensures Sum(Touched(c, k).nodes) == Sum(c.nodes) + 1
  {
    hide Sum, Relinked;
    SumSet(c.nodes, k, c.nodes[k].(freq := c.nodes[k].freq + 1));
  }

  lemma TouchedPending<K, V>(c: Cache<K, V>, k: K)
    requires Inv(c) && c.maxAverage >= 2 && k in c.nodes
    ensures Pending(Touched(c, k)) && IsLeast(Touched(c, k).nodes, Touched(c, k).minFreq)
  {
    hide Placed, Sum, Bound, Touched;
    TouchedShape(c, k);
    TouchedPlaced(c, k);
    TouchedSum(c, k);
    TouchedLeast(c, k);
    var least :| least in c.nodes && c.nodes[least].freq == c.minFreq;
    assert Touched(c, k).nodes[least].freq <= c.maxAverage + 1;
  }

  lemma TouchedLeast<K, V>(c: Cache<K, V>, k: K)
    requires Placed(c.nodes, c.lists) && k in c.nodes && IsLeast(c.nodes, c.minFreq)
    ensures IsLeast(Touched(c, k).nodes, Touched(c, k).minFreq)
  {
    var d := Touched(c, k);
    var f := c.nodes[k].freq;
    var left := Without(c.lists[f], k);
    assert ListAt(d.lists, f) == left;
    RelinkedPlaced(c.nodes, c.lists, k, f + 1);
    if f == c.minFreq {
      if left == [] {
        assert forall j :: j in c.nodes && j != k ==> c.nodes[j].freq != f by {
          forall j | j in c.nodes && j != k && c.nodes[j].freq == f
            ensures j in left
          {
            assert j in c.lists[f];
          }
        }
        assert d.nodes[k].freq == d.minFreq;
      } else {
        assert left[0] in c.lists[f];
        assert left[0] != k;
        assert d.nodes[left[0]].freq == f;
      }
    } else {
      var j :| j in c.nodes && c.nodes[j].freq == c.minFreq;
      assert d.nodes[j].freq == c.minFreq;
    }
  }

  /** Eviction always finds a victim; it is a least-frequently used key. */
  lemma EvictionFindsLeast<K, V>(c: Cache<K, V>)
    requires Inv(c) && |c.nodes| > 0
    ensures CanKickOut(c)
    ensures var victim := c.lists[c.minFreq][0];
            && (forall k :: k in c.nodes ==> c.nodes[victim].freq <= c.nodes[k].freq)
            && KickedOut(c).nodes == c.nodes - {victim}
  {
    var k :| k in c.nodes && c.nodes[k].freq == c.minFreq;
    assert k in c.lists[c.minFreq];
    assert c.lists[c.minFreq][0] in c.lists[c.minFreq];
  }

  lemma KickedOutKeeps<K, V>(c: Cache<K, V>)
    requires Placed(c.nodes, c.lists) && Sum(c.nodes) <= c.total && CanKickOut(c)
    ensures var d := KickedOut(c);
            && Placed(d.nodes, d.lists) && |d.nodes| == |c.nodes| - 1 && Sum(d.nodes) <= d.total
            && forall k :: k in d.nodes ==> k in c.nodes && d.nodes[k] == c.nodes[k]
  {
    var victim := c.lists[c.minFreq][0];
    RemovedPlaced(c.nodes, c.lists, victim);
    SumSplit(c.nodes, victim);
    assert (c.nodes - {victim}).Keys == c.nodes.Keys - {victim};
  }

  lemma BoundAtLeast<K, V>(c: Cache<K, V>)
    requires c.maxAverage >= 2 && c.capacity >= 1
    ensures Bound(c.maxAverage, c.capacity) >= 3
  {
    Scale(1, c.capacity, c.maxAverage + 1);
  }

  lemma InsertedPending<K, V>(c: Cache<K, V>, k: K, v: V)
    requires Inv(c) && c.maxAverage >= 2 && c.capacity > 0 && k !in c.nodes
    ensures |c.nodes| == c.capacity ==> CanKickOut(c)
    ensures Pending(Inserted(c, k, v)) && IsLeast(Inserted(c, k, v).nodes, 1)
  {
    BoundAtLeast(c);
    if |c.nodes| == c.capacity {
      assert |c.nodes| > 0;
      EvictionFindsLeast(c);
      KickedOutKeeps(c);
      AddedPending(KickedOut(c), k, v);
    } else {
      AddedPending(c, k, v);
    }
  }

  lemma AddedPending<K, V>(d: Cache<K, V>, k: K, v: V)
    requires Placed(d.nodes, d.lists) && |d.nodes| < d.capacity && Sum(d.nodes) <= d.total && k !in d.nodes
    requires forall j :: j in d.nodes ==> d.nodes[j].freq < Bound(d.maxAverage, d.capacity)
    requires Bound(d.maxAverage, d.capacity) >= 1 && d.maxAverage >= 0
    ensures var i := d.(nodes := d.nodes[k := Node(1, v)], lists := Attach(d.lists, 1, k));
            Pending(i) && IsLeast(i.nodes, 1)
  {
    var n := Node(1, v);
    var nodes := d.nodes[k := n];
    AddedPlaced(d.nodes, d.lists, k, n);
    assert forall j :: j in nodes ==> nodes[j].freq >= 1;
    hide Placed, Attach, Bound, Sum;
    SumSet(d.nodes, k, n);
    SizeSet(d.nodes, k, n);
    assert nodes[k].freq == 1;
  }

  /** Under the limit, the average bounds the least frequency and every frequency. */
  lemma BelowAverage<K, V>(d: Cache<K, V>, m: int)
    requires |d.nodes| > 0 && Placed(d.nodes, d.lists) && |d.nodes| <= d.capacity && d.maxAverage >= 2
    requires Sum(d.nodes) <= d.total && !Ages(d) && IsLeast(d.nodes, m)
    ensures m <= d.maxAverage && forall k :: k in d.nodes ==> d.nodes[k].freq < Bound(d.maxAverage, d.capacity)
  {
    var n := |d.nodes|;
    assert n > 0;
    assert d.total < (d.maxAverage + 1) * n by {
      assert d.total / n <= d.maxAverage;
      Division(d.total, n, d.maxAverage);
    }
    SumAtLeast(d.nodes, m);
    forall k | k in d.nodes ensures d.nodes[k].freq <= Sum(d.nodes) { SumMember(d.nodes, k); }
    assert m * n < (d.maxAverage + 1) * n;
    if m > d.maxAverage { Scale(d.maxAverage + 1, m, n); }
    Scale(n, d.capacity, d.maxAverage + 1);
    assert (d.maxAverage + 1) * n <= Bound(d.maxAverage, d.capacity);
  }

  lemma Division(t: int, n: int, a: int)
    requires n > 0 && t / n <= a
    ensures t < (a + 1) * n
  {
    assert t == n * (t / n) + t % n;
    Scale(t / n, a, n);
  }

  lemma Scale(a: int, b: int, n: int)
    requires a <= b && n >= 0
    ensures a * n <= b * n && n * a <= n * b
  {
  }

  /** Aging lowers every key, keeps the lists right, and leaves the rest to the scan. */
  lemma AgedShape<K, V>(e: Cache<K, V>, o: Orders<K>)
    requires Placed(e.nodes, e.lists) && OrdersFit(e, o)
    ensures var c := Aged(e, o);
            && Placed(c.nodes, c.lists) && c.nodes.Keys == e.nodes.Keys && |c.nodes| == |e.nodes|
            && (forall k :: k in e.nodes ==> c.nodes[k].freq == Lowered(e.nodes[k].freq, Half(e.maxAverage)))
            && Enumerates(o.freqs, c.lists.Keys) && c.minFreq == ScannedMin(c.lists, o.freqs)
            && c.capacity == e.capacity && c.maxAverage == e.maxAverage && c.total == e.total
  {
    hide Placed, AgeLoop, ScannedMin;
    AgeLoopEffect(e.nodes, e.lists, o.keys, Half(e.maxAverage));
    SameSize(Aged(e, o).nodes, e.nodes);
  }

  lemma AgedSum<K, V>(e: Cache<K, V>, o: Orders<K>)
    requires Placed(e.nodes, e.lists) && OrdersFit(e, o) && e.maxAverage >= 0
    ensures Sum(Aged(e, o).nodes) <= Sum(e.nodes)
  {
    AgedShape(e, o);
    hide Sum, Aged, OrdersFit;
    SumMonotone(Aged(e, o).nodes, e.nodes);
  }

  lemma AgedBelow<K, V>(e: Cache<K, V>, o: Orders<K>)
    requires Placed(e.nodes, e.lists) && OrdersFit(e, o) && 2 <= e.maxAverage && e.capacity >= 1
    requires forall k :: k in e.nodes ==> e.nodes[k].freq <= Bound(e.maxAverage, e.capacity)
    ensures forall k :: k in Aged(e, o).nodes ==> Aged(e, o).nodes[k].freq < Bound(e.maxAverage, e.capacity)
  {
    AgedShape(e, o);
    BoundAtLeast(e);
    hide Aged, OrdersFit, Placed, Bound;
  }

  lemma AgedKeeps<K, V>(e: Cache<K, V>, o: Orders<K>)
    requires |e.nodes| > 0 && Placed(e.nodes, e.lists) && |e.nodes| <= e.capacity && Sum(e.nodes) <= e.total
    requires 2 <= e.maxAverage <= 250 && OrdersFit(e, o)
    requires forall k :: k in e.nodes ==> e.nodes[k].freq <= Bound(e.maxAverage, e.capacity)
    requires exists k :: k in e.nodes && e.nodes[k].freq <= e.maxAverage + 1
    ensures Inv(Aged(e, o))
  {
    hide Sum, Placed, Bound, OrdersFit, Aged, IsLeast, Enumerates;
    AgedShape(e, o);
    AgedSum(e, o);
    AgedBelow(e, o);
    AgedLeast(e, o);
  }

  lemma AgedLeast<K, V>(e: Cache<K, V>, o: Orders<K>)
    requires |e.nodes| > 0 && Placed(e.nodes, e.lists)
    requires 2 <= e.maxAverage <= 250 && OrdersFit(e, o)
    requires exists k :: k in e.nodes && e.nodes[k].freq <= e.maxAverage + 1
    ensures var c := Aged(e, o); IsLeast(c.nodes, c.minFreq) && 1 <= c.minFreq <= c.maxAverage
  {
    var c := Aged(e, o);
    AgedShape(e, o);
    hide Placed, OrdersFit, ScannedMin, Aged, Enumerates;
    var m := LeastExists(c.nodes);
    var low :| low in e.nodes && e.nodes[low].freq <= e.maxAverage + 1;
    assert m <= c.nodes[low].freq;
    ScanFindsLeast(c.nodes, c.lists, o.freqs, m);
  }

  lemma {:induction false} SumMonotone<K, V>(a: map<K, Node<V>>, b: map<K, Node<V>>)
    requires a.Keys == b.Keys && forall k :: k in a ==> a[k].freq <= b[k].freq
    ensures Sum(a) <= Sum(b)
    decreases |b|
  {
    SameSize(a, b);
    if |b| > 0 {
      var p := Pick(b);
      SumSplit(a, p);
      SumSplit(b, p);
      assert (b - {p}).Keys == b.Keys - {p};
      SumMonotone(a - {p}, b - {p});
    }
  }

  /** Counting an access, with the minimum that holds if the cache does not age. */
  ghost function Settled<K, V>(d: Cache<K, V>, o: Orders<K>, m: int): Cache<K, V>
    requires OrdersFit(d.(total := d.total + 1), o)
  {
    var e := d.(total := d.total + 1);
    if Ages(e) then Aged(e, o) else e.(minFreq := m)
  }

  lemma PlainKeeps<K, V>(d: Cache<K, V>, m: int)
    requires Pending(d) && IsLeast(d.nodes, m) && 2 <= d.maxAverage && !Ages(d.(total := d.total + 1))
    ensures Inv(d.(total := d.total + 1, minFreq := m))
  {
    assert m >= 1;
    hide Sum, Bound, Placed, Ages;
    BelowAverage(d.(total := d.total + 1), m);
  }

  lemma AgedCaseKeeps<K, V>(d: Cache<K, V>, o: Orders<K>)
    requires Pending(d) && 2 <= d.maxAverage <= 250 && OrdersFit(d.(total := d.total + 1), o)
    ensures Inv(Aged(d.(total := d.total + 1), o))
  {
    hide Sum, Bound, Placed, OrdersFit, Aged, Inv;
    AgedKeeps(d.(total := d.total + 1), o);
  }

  lemma SettledKeeps<K, V>(d: Cache<K, V>, o: Orders<K>, m: int)
    requires Pending(d) && IsLeast(d.nodes, m) && 2 <= d.maxAverage <= 250
    requires OrdersFit(d.(total := d.total + 1), o)
    ensures Inv(Settled(d, o, m))
  {
    hide Inv, Pending, OrdersFit, Aged, Ages, IsLeast;
    if Ages(d.(total := d.total + 1)) { AgedCaseKeeps(d, o); } else { PlainKeeps(d, m); }
  }

  lemma LeastIsOne<K, V>(c: Cache<K, V>, k: K)
    requires Inv(c) && k in c.nodes && c.nodes[k].freq == 1
    ensures c.minFreq == 1
  {
    hide Placed, Sum, Bound;
    assert |c.nodes.Keys| > 0;
  }

  /** A key at frequency 1 stays there when the cache ages. */
  lemma FreshStays<K, V>(d: Cache<K, V>, o: Orders<K>, k: K, m: int)
    requires Placed(d.nodes, d.lists) && k in d.nodes && d.nodes[k].freq == 1 && 2 <= d.maxAverage
    requires OrdersFit(d.(total := d.total + 1), o)
    ensures k in Settled(d, o, m).nodes && Settled(d, o, m).nodes[k].freq == 1
  {
    var e := d.(total := d.total + 1);
    if Ages(e) {
      AgedShape(e, o);
      hide Aged, Placed, OrdersFit;
    }
  }

  lemma TouchKeeps<K, V>(c: Cache<K, V>, k: K, o: Orders<K>)
    requires Inv(c) && 2 <= c.maxAverage <= 250 && k in c.nodes
    requires OrdersFit(Touched(c, k).(total := c.total + 1), o)
    ensures Inv(Counted(Touched(c, k), o))
  {
    var d := Touched(c, k);
    assert d.maxAverage == c.maxAverage && d.total == c.total;
    hide Sum, Placed, Bound, OrdersFit, Aged, Touched, Inv;
    TouchedPending(c, k);
    SettledKeeps(d, o, d.minFreq);
    assert Counted(d, o) == Settled(d, o, d.minFreq);
  }

  lemma InsertedShape<K, V>(c: Cache<K, V>, k: K, v: V)
    requires |c.nodes| == c.capacity ==> CanKickOut(c)
    ensures var i := Inserted(c, k, v);
            && k in i.nodes && i.nodes[k] == Node(1, v) && i.maxAverage == c.maxAverage && i.minFreq == c.minFreq
  {
  }

  lemma InsertKeeps<K, V>(c: Cache<K, V>, k: K, v: V, o: Orders<K>)
    requires Inv(c) && 2 <= c.maxAverage <= 250 && k !in c.nodes && c.capacity > 0
    requires |c.nodes| == c.capacity ==> CanKickOut(c)
    requires OrdersFit(Inserted(c, k, v).(total := Inserted(c, k, v).total + 1), o)
    ensures var d := Counted(Inserted(c, k, v), o); Inv(d.(minFreq := if d.minFreq < 1 then d.minFreq else 1))
  {
    var i := Inserted(c, k, v);
    InsertedPending(c, k, v);
    InsertedShape(c, k, v);
    assert c.minFreq >= 1;
    hide Placed, OrdersFit, Inserted, Aged, Inv, Ages;
    SettledKeeps(i, o, 1);
    FreshStays(i, o, k, 1);
    LeastIsOne(Settled(i, o, 1), k);
    var d := Counted(i, o);
    assert d.(minFreq := 1) == Settled(i, o, 1);
  }

  lemma InvStep<K, V>(c: Cache<K, V>, e: Event<K, V>)
    requires Inv(c) && 2 <= c.maxAverage <= 250 && Enabled(c, e)
    ensures Inv(Apply(c, e))
    ensures Apply(c, e).capacity == c.capacity && Apply(c, e).maxAverage == c.maxAverage
  {
    StepConstants(c, e);
    match e
    case Get(k, o) =>
      hide Sum, Placed, Bound, Counted, OrdersFit, Touched, Inserted, Revalued;
      if k in c.nodes { TouchKeeps(c, k, o); }
    case Put(k, v, o) =>
      if k in c.nodes { RevaluedInv(c, k, v); RevaluedKeys(c, k, v); }
      if |c.nodes| == c.capacity && c.capacity > 0 { EvictionFindsLeast(c); }
      hide Sum, Placed, Bound, Counted, OrdersFit, Touched, Inserted, Revalued, CanKickOut;
      if c.capacity > 0 {
        if k in c.nodes { TouchKeeps(Revalued(c, k, v), k, o); } else { InsertKeeps(c, k, v, o); }
      }
    case Purge =>
      SumAtLeast(c.nodes, 0);
      EmptyIsPlaced<K, V>();
  }

  lemma EmptyIsPlaced<K, V>()
    ensures Placed<K, V>(map[], map[]) && Sum<K, V>(map[]) == 0
  {
  }

  lemma RevaluedKeys<K, V>(c: Cache<K, V>, k: K, v: V)
    requires k in c.nodes
    ensures var r := Revalued(c, k, v);
            k in r.nodes && r.maxAverage == c.maxAverage && r.capacity == c.capacity && r.total == c.total
            && Touched(r, k).total == c.total
  {
  }

  lemma StepConstants<K, V>(c: Cache<K, V>, e: Event<K, V>)
    requires Enabled(c, e)
    ensures Apply(c, e).capacity == c.capacity && Apply(c, e).maxAverage == c.maxAverage
  {
    hide AgeLoop, Relinked, Attach, Detach;
  }

  lemma RevaluedShape<K, V>(c: Cache<K, V>, k: K, v: V)
    requires k in c.nodes
    ensures var r := Revalued(c, k, v);
            && |r.nodes| == |c.nodes| && r.nodes.Keys == c.nodes.Keys && Sum(r.nodes) == Sum(c.nodes)
            && (forall j :: j in c.nodes ==> r.nodes[j].freq == c.nodes[j].freq)
  {
    hide Sum;
    SumSet(c.nodes, k, c.nodes[k].(value := v));
    SizeSet(c.nodes, k, c.nodes[k].(value := v));
  }

  lemma RevaluedInv<K, V>(c: Cache<K, V>, k: K, v: V)
    requires Inv(c) && k in c.nodes
    ensures Inv(Revalued(c, k, v))
  {
    hide Bound, Sum;
    RevaluedShape(c, k, v);
    if |c.nodes| > 0 {
      var j :| j in c.nodes && c.nodes[j].freq == c.minFreq;
      assert Revalued(c, k, v).nodes[j].freq == c.minFreq;
    }
  }

  lemma EmptyInv<K, V>(capacity: nat, maxAverage: int)
    ensures Inv<K, V>(Initial(capacity, maxAverage))
  {
  }

  lemma {:induction false} InvRun<K, V>(cs: seq<Cache<K, V>>, es: seq<Event<K, V>>, capacity: nat, maxAverage: int,
                                        i: nat)
    requires Run(cs, es, capacity, maxAverage) && i < |cs| && 2 <= maxAverage <= 250
    ensures Inv(cs[i]) && cs[i].capacity == capacity && cs[i].maxAverage == maxAverage
  {
    hide Sum, Placed, Bound, Counted, BeforeCount, OrdersFit;
    if i > 0 {
      InvRun(cs, es, capacity, maxAverage, i - 1);
      InvStep(cs[i - 1], es[i - 1]);
    } else {
      EmptyInv<K, V>(capacity, maxAverage);
    }
  }

  // ---------- main result ----------

  /** In every reachable state, for aging limits from 2 to 250: each key stands exactly in the list
      of its frequency, the size respects the capacity, the running total is an upper bound of the
      frequencies, none of which reaches its own bound, and while anything is stored minFreq_ is
      exactly the least frequency and the key that would be evicted is one of the least used. */
  lemma EveryReachableState<K, V>(cs: seq<Cache<K, V>>, es: seq<Event<K, V>>, capacity: nat, maxAverage: int, i: nat)
    requires Run(cs, es, capacity, maxAverage) && i < |cs| && 2 <= maxAverage <= 250
    ensures var c := cs[i];
            && Placed(c.nodes, c.lists) && |c.nodes| <= capacity && 0 <= Sum(c.nodes) <= c.total
            && (forall k :: k in c.nodes ==> 1 <= c.nodes[k].freq < (maxAverage + 1) * capacity)
            && (|c.nodes| > 0 ==>
                  && IsLeast(c.nodes, c.minFreq) && CanKickOut(c)
                  && (forall k :: k in c.nodes ==> c.nodes[c.lists[c.minFreq][0]].freq <= c.nodes[k].freq)
                  && KickedOut(c).nodes == c.nodes - {c.lists[c.minFreq][0]})
  {
    var c := cs[i];
    InvRun(cs, es, capacity, maxAverage, i);
    SumAtLeast(c.nodes, 0);
    if |c.nodes| > 0 { EvictionFindsLeast(c); }
  }
}
