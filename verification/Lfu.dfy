/** The LFU cache with aging (KLfuCache): key table, one list of keys per access frequency, cached
    minimum frequency, and running total. Map iteration order is a parameter of every step. */
module Lfu {
  import opened Wrappers

  datatype Node<V> = Node(freq: int, value: V)

  datatype Cache<K, V> = Cache(capacity: nat, maxAverage: int, nodes: map<K, Node<V>>,
                               lists: map<int, seq<K>>, minFreq: int, total: int)

  // INT8_MAX: the "no frequency" marker of minFreq_.
  const NO_FREQ := 127

  // ---------- lists ----------

  predicate Distinct<T(==)>(s: seq<T>) { forall i, j :: 0 <= i < j < |s| ==> s[i] != s[j] }

  /** Unlinking one node keeps the order of the others. */
  function Without<T(==)>(s: seq<T>, x: T): (r: seq<T>)
    ensures forall y :: y in r ==> y in s
    ensures forall y :: y in s && y != x ==> y in r
    ensures Distinct(s) ==> Distinct(r) && x !in r
  {
    if s == [] then []
    else if s[0] == x then
      assert Distinct(s) ==> x !in s[1..];
      s[1..]
    else
      var r := Without(s[1..], x);
      assert Distinct(s) ==> s[0] !in s[1..] && Distinct(s[1..]);
      [s[0]] + r
  }

  function ListAt<K>(lists: map<int, seq<K>>, f: int): seq<K> { if f in lists then lists[f] else [] }

  function Detach<K(==)>(lists: map<int, seq<K>>, f: int, k: K): map<int, seq<K>> {
    lists[f := Without(ListAt(lists, f), k)]
  }

  function Attach<K>(lists: map<int, seq<K>>, f: int, k: K): map<int, seq<K>> {
    lists[f := ListAt(lists, f) + [k]]
  }

  function Relinked<K(==)>(lists: map<int, seq<K>>, k: K, from: int, to: int): map<int, seq<K>> {
    Attach(Detach(lists, from, k), to, k)
  }

  // ---------- aging ----------

  /** maxAverageNum_ / 2, which truncates toward zero. */
  function Half(maxAverage: int): int { if maxAverage >= 0 then maxAverage / 2 else -((-maxAverage) / 2) }

  function Lowered(freq: int, half: int): int { if freq - half < 1 then 1 else freq - half }

  /** The aging loop over the key table in the given order. */
  function AgeLoop<K(==), V>(nodes: map<K, Node<V>>, lists: map<int, seq<K>>, order: seq<K>, half: int)
    : (map<K, Node<V>>, map<int, seq<K>>)
    requires forall k :: k in order ==> k in nodes
    decreases |order|
  {
    if order == [] then (nodes, lists)
    else
      var k := order[0];
      var f := nodes[k].freq;
      var g := Lowered(f, half);
      AgeLoop(nodes[k := nodes[k].(freq := g)], Relinked(lists, k, f, g), order[1..], half)
  }

  /** The scan of updateMinFreq over the frequency table in the given order. */
  function ScanLoop<K>(lists: map<int, seq<K>>, freqs: seq<int>, least: int): int
    decreases |freqs|
  {
    if freqs == [] then least
    else
      var f := freqs[0];
      ScanLoop(lists, freqs[1..], if ListAt(lists, f) != [] && f < least then f else least)
  }

  function ScannedMin<K>(lists: map<int, seq<K>>, freqs: seq<int>): int {
    var m := ScanLoop(lists, freqs, NO_FREQ);
    if m == NO_FREQ then 1 else m
  }

  // ---------- steps ----------

  /** The orders in which the two hash tables are walked, should the step age the cache. */
  datatype Orders<K> = Orders(keys: seq<K>, freqs: seq<int>)

  ghost predicate Enumerates<T>(order: seq<T>, s: set<T>) {
    Distinct(order) && (forall x :: x in s ==> x in order) && (forall i :: 0 <= i < |order| ==> order[i] in s)
  }

  /** Every set can be walked. */
  lemma {:induction false} Enumeration<T>(s: set<T>) returns (order: seq<T>)
    ensures Enumerates(order, s)
    decreases |s|
  {
    order := [];
    if x :| x in s {
      var rest := Enumeration(s - {x});
      order := [x] + rest;
    }
  }

  predicate Ages<K, V>(c: Cache<K, V>) { |c.nodes| > 0 && c.total / |c.nodes| > c.maxAverage }

  ghost predicate OrdersFit<K, V>(c: Cache<K, V>, o: Orders<K>) {
    && Enumerates(o.keys, c.nodes.Keys)
    && Enumerates(o.freqs, AgeLoop(c.nodes, c.lists, o.keys, Half(c.maxAverage)).1.Keys)
  }

  ghost function Aged<K, V>(c: Cache<K, V>, o: Orders<K>): Cache<K, V>
    requires OrdersFit(c, o)
  {
    var (nodes, lists) := AgeLoop(c.nodes, c.lists, o.keys, Half(c.maxAverage));
    c.(nodes := nodes, lists := lists, minFreq := ScannedMin(lists, o.freqs))
  }

  /** addFreqNum: the total grows by one and the cache ages when the average is too high. */
  ghost function Counted<K, V>(c: Cache<K, V>, o: Orders<K>): Cache<K, V>
    requires OrdersFit(c.(total := c.total + 1), o)
  {
    var d := c.(total := c.total + 1);
    if Ages(d) then Aged(d, o) else d
  }

  /** getInternal before the total is counted. */
  function Touched<K(==), V>(c: Cache<K, V>, k: K): Cache<K, V>
    requires k in c.nodes
  {
    var f := c.nodes[k].freq;
    var lists := Relinked(c.lists, k, f, f + 1);
    c.(nodes := c.nodes[k := c.nodes[k].(freq := f + 1)], lists := lists,
       minFreq := if f == c.minFreq && ListAt(lists, f) == [] then c.minFreq + 1 else c.minFreq)
  }

  /** kickOut: the first key of the list at minFreq_ goes. */
  function KickedOut<K(==), V>(c: Cache<K, V>): Cache<K, V>
    requires ListAt(c.lists, c.minFreq) != [] && ListAt(c.lists, c.minFreq)[0] in c.nodes
  {
    var victim := c.lists[c.minFreq][0];
    var f := c.nodes[victim].freq;
    c.(nodes := c.nodes - {victim}, lists := Detach(c.lists, f, victim), total := c.total - f)
  }

  predicate CanKickOut<K, V>(c: Cache<K, V>) {
    ListAt(c.lists, c.minFreq) != [] && ListAt(c.lists, c.minFreq)[0] in c.nodes
  }

  /** putInternal before the total is counted. */
  function Inserted<K(==), V>(c: Cache<K, V>, k: K, v: V): Cache<K, V>
    requires |c.nodes| == c.capacity ==> CanKickOut(c)
  {
    var d := if |c.nodes| == c.capacity then KickedOut(c) else c;
    d.(nodes := d.nodes[k := Node(1, v)], lists := Attach(d.lists, 1, k))
  }

  function Revalued<K(==), V>(c: Cache<K, V>, k: K, v: V): Cache<K, V>
    requires k in c.nodes
  {
    c.(nodes := c.nodes[k := c.nodes[k].(value := v)])
  }

  datatype Event<K, V> = Put(key: K, value: V, orders: Orders<K>) | Get(key: K, orders: Orders<K>) | Purge

  /** A put has to evict and finds no victim; the source would run off its list here. */
  predicate Stuck<K(==), V>(c: Cache<K, V>, e: Event<K, V>) {
    e.Put? && c.capacity > 0 && e.key !in c.nodes && |c.nodes| == c.capacity && !CanKickOut(c)
  }

  /** The state in which a step that is not stuck counts its access, if it does. */
  ghost function BeforeCount<K, V>(c: Cache<K, V>, e: Event<K, V>): Option<Cache<K, V>> {
    match e
    case Put(k, v, _) =>
      if c.capacity == 0 then None
      else if k in c.nodes then Some(Touched(Revalued(c, k, v), k))
      else if Stuck(c, e) then None
      else Some(Inserted(c, k, v))
    case Get(k, _) => if k in c.nodes then Some(Touched(c, k)) else None
    case Purge => None
  }

  ghost predicate Enabled<K, V>(c: Cache<K, V>, e: Event<K, V>) {
    && !Stuck(c, e)
    && match BeforeCount(c, e)
       case None => true
       case Some(d) => OrdersFit(d.(total := d.total + 1), e.orders)
  }

  ghost function Apply<K, V>(c: Cache<K, V>, e: Event<K, V>): Cache<K, V>
    requires Enabled(c, e)
  {
    match BeforeCount(c, e)
    case None => if e.Purge? then c.(nodes := map[], lists := map[]) else c
    case Some(d) =>
      var counted := Counted(d, e.orders);
      if e.Put? && e.key !in c.nodes
      then counted.(minFreq := if counted.minFreq < 1 then counted.minFreq else 1)
      else counted
  }

  function Initial<K, V>(capacity: nat, maxAverage: int): Cache<K, V> {
    Cache(capacity, maxAverage, map[], map[], NO_FREQ, 0)
  }

  ghost predicate Run<K, V>(cs: seq<Cache<K, V>>, es: seq<Event<K, V>>, capacity: nat, maxAverage: int) {
    && |cs| == |es| + 1 && cs[0] == Initial(capacity, maxAverage)
    && forall i :: 0 <= i < |es| ==> Enabled(cs[i], es[i]) && cs[i + 1] == Apply(cs[i], es[i])
  }
}
