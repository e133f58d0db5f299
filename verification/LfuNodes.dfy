/** The nodes of the LFU cache in memory: the key table points at nodes, and each frequency's linked
    list threads some of them. To its user it is the key table and the sequences of the Lfu model. */
module LfuNodes {
  import opened Lfu
  import opened FreqList

  function KeysOf<K, V>(ns: seq<ListNode<K, V>>): (ks: seq<K>)
    ensures |ks| == |ns| && forall i :: 0 <= i < |ns| ==> ks[i] == ns[i].key
  {
    seq(|ns|, i requires 0 <= i < |ns| => ns[i].key)
  }

  /** No two nodes share a key. */
  ghost predicate OneNodePerKey<K, V>(ns: seq<ListNode<K, V>>, owner: map<K, ListNode<K, V>>) {
    forall i :: 0 <= i < |ns| ==> ns[i].key in owner && owner[ns[i].key] == ns[i]
  }

  lemma {:induction false} KeysWithout<K, V>(ns: seq<ListNode<K, V>>, owner: map<K, ListNode<K, V>>, n: ListNode<K, V>)
    requires OneNodePerKey(ns, owner) && n.key in owner && owner[n.key] == n
    ensures KeysOf(Without(ns, n)) == Without(KeysOf(ns), n.key)
    ensures OneNodePerKey(Without(ns, n), owner)
  {
    if ns != [] {
      assert KeysOf(ns)[1..] == KeysOf(ns[1..]);
      if ns[0] != n {
        KeysWithout(ns[1..], owner, n);
        assert KeysOf([ns[0]] + Without(ns[1..], n)) == [ns[0].key] + KeysOf(Without(ns[1..], n));
      }
    }
  }

  /** One list's nodes: no repeats, the right keys, nodes of the key table only, and sentinels that
      belong to no key. */
  ghost predicate SpineOk<K, V>(spine: seq<ListNode<K, V>>, keys: seq<K>, owner: map<K, ListNode<K, V>>) {
    && |spine| >= 2 && Distinct(spine) && keys == KeysOf(Inner(spine)) && OneNodePerKey(Inner(spine), owner)
    && forall k :: k in owner ==> owner[k] != spine[0] && owner[k] != spine[|spine| - 1]
  }

  /** No node is in two lists: each has one home. */
  ghost predicate Homed<K, V>(spines: map<int, seq<ListNode<K, V>>>, home: map<ListNode<K, V>, int>) {
    forall f, n :: f in spines && n in spines[f] ==> n in home && home[n] == f
  }

  ghost predicate Layout<K, V>(spines: map<int, seq<ListNode<K, V>>>, lists: map<int, seq<K>>,
                               owner: map<K, ListNode<K, V>>) {
    spines.Keys == lists.Keys && forall f :: f in spines ==> SpineOk(spines[f], lists[f], owner)
  }

  lemma SpineRemoved<K, V>(spine: seq<ListNode<K, V>>, keys: seq<K>, owner: map<K, ListNode<K, V>>, k: K)
    requires SpineOk(spine, keys, owner) && k in keys && k in owner && owner[k].key == k
    ensures owner[k] in Inner(spine) && SpineOk(Without(spine, owner[k]), Without(keys, k), owner)
  {
    var n := owner[k];
    var i := KeyAt(spine, keys, owner, k);
    hide KeysOf, Without, OneNodePerKey, Distinct, Inner;
    InnerWithout(spine, i + 1);
    KeysWithout(Inner(spine), owner, n);
    EndsKept(spine, i + 1);
  }

  lemma KeyAt<K, V>(spine: seq<ListNode<K, V>>, keys: seq<K>, owner: map<K, ListNode<K, V>>, k: K) returns (i: nat)
    requires SpineOk(spine, keys, owner) && k in keys && k in owner && owner[k].key == k
    ensures i < |spine| - 2 && spine[i + 1] == owner[k] && owner[k] in Inner(spine)
  {
    i :| 0 <= i < |keys| && keys[i] == k;
    assert Inner(spine)[i] == spine[i + 1];
  }

  lemma EndsKept<T>(s: seq<T>, k: nat)
    requires 0 < k < |s| - 1
    ensures var r := s[..k] + s[k + 1..]; |r| >= 2 && r[0] == s[0] && r[|r| - 1] == s[|s| - 1]
  {
  }

  lemma LayoutRemoved<K, V>(spines: map<int, seq<ListNode<K, V>>>, lists: map<int, seq<K>>,
                             owner: map<K, ListNode<K, V>>, f: int, k: K)
    requires Layout(spines, lists, owner) && f in spines && k in lists[f] && k in owner && owner[k].key == k
    ensures |spines[f]| >= 2 && owner[k] in Inner(spines[f])
    ensures Layout(spines[f := Without(spines[f], owner[k])], Detach(lists, f, k), owner)
    ensures owner[k] !in Without(spines[f], owner[k])
  {
    assert SpineOk(spines[f], lists[f], owner) && Distinct(spines[f]);
    hide SpineOk, Without, Distinct;
    SpineRemoved(spines[f], lists[f], owner, k);
  }

  /** Threading a node at the end of a list, just before its tail sentinel. */
  function Threaded<T>(spine: seq<T>, n: T): seq<T>
    requires |spine| >= 2
  {
    spine[..|spine| - 1] + [n, spine[|spine| - 1]]
  }

  lemma ThreadedMembers<T>(spine: seq<T>, n: T)
    requires |spine| >= 2
    ensures forall x :: x in Threaded(spine, n) <==> x == n || x in spine
  {
    var r := Threaded(spine, n);
    assert forall i :: 0 <= i < |spine| - 1 ==> r[i] == spine[i];
    assert r[|spine| - 1] == n && r[|spine|] == spine[|spine| - 1];
  }

  lemma SpineAdded<K, V>(spine: seq<ListNode<K, V>>, keys: seq<K>, owner: map<K, ListNode<K, V>>, k: K)
    requires SpineOk(spine, keys, owner) && k in owner && owner[k].key == k && owner[k] !in spine
    ensures SpineOk(Threaded(spine, owner[k]), keys + [k], owner)
  {
    var n, r := owner[k], Threaded(spine, owner[k]);
    assert Inner(r) == Inner(spine) + [n];
    assert KeysOf(Inner(r)) == keys + [k];
    assert forall i :: 0 <= i < |spine| - 1 ==> r[i] == spine[i];
  }

  lemma LayoutAdded<K, V>(spines: map<int, seq<ListNode<K, V>>>, lists: map<int, seq<K>>,
                          owner: map<K, ListNode<K, V>>, f: int, k: K)
    requires Layout(spines, lists, owner) && f in spines && k in owner && owner[k].key == k && owner[k] !in spines[f]
    ensures |spines[f]| >= 2 && Layout(spines[f := Threaded(spines[f], owner[k])], Attach(lists, f, k), owner)
  {
    assert SpineOk(spines[f], lists[f], owner);
    SpineAdded(spines[f], lists[f], owner, k);
    hide SpineOk, Threaded;
  }

  lemma AttachNew<K>(lists: map<int, seq<K>>, f: int, k: K)
    requires f !in lists
    ensures Attach(lists[f := []], f, k) == Attach(lists, f, k)
  {
  }

  lemma LayoutNew<K, V>(spines: map<int, seq<ListNode<K, V>>>, lists: map<int, seq<K>>, owner: map<K, ListNode<K, V>>,
                        f: int, h: ListNode<K, V>, t: ListNode<K, V>)
    requires Layout(spines, lists, owner) && f !in spines && h != t
    requires forall k :: k in owner ==> owner[k] != h && owner[k] != t
    ensures Layout(spines[f := [h, t]], lists[f := []], owner)
  {
    assert Inner([h, t]) == [];
    assert SpineOk([h, t], [], owner);
    hide SpineOk;
  }

  lemma HomedNew<K, V>(spines: map<int, seq<ListNode<K, V>>>, home: map<ListNode<K, V>, int>,
                        f: int, h: ListNode<K, V>, t: ListNode<K, V>)
    requires Homed(spines, home) && forall g, n :: g in spines && n in spines[g] ==> n != h && n != t
    ensures Homed(spines[f := [h, t]], home[h := f][t := f])
  {
  }

  lemma HomedLess<K, V>(spines: map<int, seq<ListNode<K, V>>>, home: map<ListNode<K, V>, int>, f: int,
                        n: ListNode<K, V>)
    requires Homed(spines, home) && f in spines
    ensures Homed(spines[f := Without(spines[f], n)], home)
  {
    hide Without;
  }

  lemma HomedThreaded<K, V>(spines: map<int, seq<ListNode<K, V>>>, home: map<ListNode<K, V>, int>, f: int,
                            n: ListNode<K, V>)
    requires Homed(spines, home) && f in spines && |spines[f]| >= 2 && forall g :: g in spines ==> n !in spines[g]
    ensures Homed(spines[f := Threaded(spines[f], n)], home[n := f])
  {
    ThreadedMembers(spines[f], n);
    hide Threaded;
  }

  lemma OwnerAdded<K, V>(spines: map<int, seq<ListNode<K, V>>>, lists: map<int, seq<K>>,
                          owner: map<K, ListNode<K, V>>, k: K, n: ListNode<K, V>)
    requires Layout(spines, lists, owner) && k !in owner && forall g :: g in spines ==> n !in spines[g]
    ensures Layout(spines, lists, owner[k := n])
  {
    forall f | f in spines
      ensures SpineOk(spines[f], lists[f], owner[k := n])
    {
      assert SpineOk(spines[f], lists[f], owner);
    }
  }

  lemma OwnerErased<K, V>(spines: map<int, seq<ListNode<K, V>>>, lists: map<int, seq<K>>,
                          owner: map<K, ListNode<K, V>>, k: K)
    requires Layout(spines, lists, owner) && k in owner && forall g :: g in spines ==> owner[k] !in spines[g]
    ensures Layout(spines, lists, owner - {k})
  {
    forall f | f in spines
      ensures SpineOk(spines[f], lists[f], owner - {k})
    {
      assert SpineOk(spines[f], lists[f], owner);
      assert forall i :: 0 <= i < |Inner(spines[f])| ==> Inner(spines[f])[i] == spines[f][i + 1];
    }
  }

  lemma FirstIsFirst<K, V>(spine: seq<ListNode<K, V>>, keys: seq<K>, owner: map<K, ListNode<K, V>>)
    requires SpineOk(spine, keys, owner) && keys != []
    ensures Inner(spine) != [] && Inner(spine)[0].key == keys[0]
  {
  }

  class NodeTable<K(==), V> {
    var nodeMap: map<K, ListNode<K, V>>
    var table: map<int, LinkedList<K, V>>
    ghost var nodes: map<K, Node<V>>
    ghost var lists: map<int, seq<K>>
    ghost var spines: map<int, seq<ListNode<K, V>>>
    ghost var home: map<ListNode<K, V>, int>
    ghost var Repr: set<object>

    ghost predicate InRepr()
      reads `table, `spines, `nodeMap, `Repr
    {
      && this !in Repr
      && (forall f :: f in table ==> table[f] in Repr)
      && (forall f, n :: f in spines && n in spines[f] ==> n in Repr)
      && (forall k :: k in nodeMap ==> nodeMap[k] in Repr)
    }

    /** Each list threads its spine, and no two frequencies share a list. */
    ghost predicate WellThreaded()
      requires InRepr()
      reads `table, `spines, `nodeMap, `home, `Repr, Repr
    {
      && table.Keys == spines.Keys && Homed(spines, home)
      && (forall f :: f in table ==> table[f].spine == spines[f] && table[f].Valid())
      && (forall f, g :: f in table && g in table && f != g ==> table[f] != table[g])
    }

    ghost predicate NodesOk()
      requires InRepr()
      reads `table, `spines, `nodeMap, `nodes, `Repr, Repr
    {
      && nodes.Keys == nodeMap.Keys
      && forall k :: k in nodeMap ==> nodeMap[k].key == k && nodes[k] == Node(nodeMap[k].freq, nodeMap[k].value)
    }

    ghost predicate Valid()
      reads this, Repr
    {
      InRepr() && WellThreaded() && NodesOk() && Layout(spines, lists, nodeMap)
    }

    /** The node of this key is in no list. */
    ghost predicate Loose(k: K)
      reads this, Repr
    {
      && InRepr() && k in nodeMap && nodeMap[k].pre == null && nodeMap[k].next == null
      && forall f :: f in spines ==> nodeMap[k] !in spines[f]
    }

    constructor ()
      ensures Valid() && nodes == map[] && lists == map[] && fresh(Repr)
    {
      nodeMap, table, nodes, lists, spines, home, Repr := map[], map[], map[], map[], map[], map[], {};
    }

    /** Take a node out of its list; no other list notices. */
    method UnlinkFrom(f: int, list: LinkedList<K, V>, node: ListNode<K, V>)
      requires InRepr() && WellThreaded() && f in table && table[f] == list && node in list.Contents()
      modifies list`spine, list.spine`next, list.spine`pre
      ensures list.Valid() && list.spine == Without(old(list.spine), node)
      ensures forall g :: g in table && g != f ==> table[g].spine == old(table[g].spine) && table[g].Valid()
      ensures node.pre == null && node.next == null
    {
      hide Without, Distinct, Homed;
      forall g | g in table && g != f
        ensures forall n :: n in table[g].spine ==> n !in list.spine
      {
        Elsewhere(f, g);
      }
      hide InRepr;
      list.RemoveNode(node);
      forall g | g in table && g != f
        ensures table[g].spine == old(table[g].spine) && table[g].Valid()
      {
        assert old(table[g].Valid());
        assert forall i :: 0 <= i < |table[g].spine| ==> table[g].spine[i] in table[g].spine;
      }
    }

    /** The lists after one of them has changed. */
    ghost predicate Changed(f: int, spine: seq<ListNode<K, V>>)
      requires InRepr()
      reads `table, `spines, `nodeMap, `Repr, Repr, spine`next, spine`pre
    {
      && f in table && table.Keys == spines.Keys && table[f].spine == spine && table[f].Valid()
      && (forall g :: g in table && g != f ==> table[g].spine == spines[g] && table[g].Valid())
      && (forall g, h :: g in table && h in table && g != h ==> table[g] != table[h])
    }

    ghost method Respine(f: int, spine: seq<ListNode<K, V>>, homes: map<ListNode<K, V>, int>)
      requires InRepr() && Changed(f, spine) && Homed(spines[f := spine], homes) && forall n :: n in spine ==> n in Repr
      modifies `spines, `home
      ensures InRepr() && WellThreaded() && spines == old(spines)[f := spine]
    {
      hide Homed, FreqList.Linked, Distinct;
      spines, home := spines[f := spine], homes;
    }

    method Unthread(f: int, node: ListNode<K, V>)
      requires InRepr() && WellThreaded() && f in table && node in table[f].Contents()
      modifies `spines, `home, Repr
      ensures InRepr() && WellThreaded() && spines == old(spines)[f := Without(old(spines)[f], node)]
      ensures node.pre == null && node.next == null
      ensures forall k :: k in nodeMap ==>
                nodeMap[k].freq == old(nodeMap[k].freq) && nodeMap[k].value == old(nodeMap[k].value)
    {
      hide Without, Distinct, FreqList.Linked, Homed;
      HomedLess(spines, home, f, node);
      UnlinkFrom(f, table[f], node);
      Respine(f, Without(spines[f], node), home);
    }

    /** removeFromFreqList. */
    method Remove(k: K)
      requires Valid() && k in nodes && nodes[k].freq in lists && k in lists[nodes[k].freq]
      modifies `lists, `spines, `home, Repr
      ensures Valid() && Loose(k) && lists == Detach(old(lists), nodes[k].freq, k)
    {
      hide Without, Distinct, Layout, Detach, FreqList.Linked, WellThreaded;
      var node := nodeMap[k];
      var f := node.freq;
      SameKeys();
      LayoutRemoved(spines, lists, nodeMap, f, k);
      InList(f, node);
      OnlyThere(f, node);
      Unthread(f, node);
      lists := Detach(lists, f, k);
    }

    method LinkInto(f: int, list: LinkedList<K, V>, node: ListNode<K, V>)
      requires InRepr() && WellThreaded() && f in table && table[f] == list
      requires forall g :: g in spines ==> node !in spines[g]
      modifies list`spine, list.spine`next, list.spine`pre, node`next, node`pre
      ensures list.Valid() && |old(list.spine)| >= 2 && list.spine == Threaded(old(list.spine), node)
      ensures forall g :: g in table && g != f ==> table[g].spine == old(table[g].spine) && table[g].Valid()
    {
      hide Distinct, Homed;
      forall g | g in table && g != f
        ensures forall n :: n in table[g].spine ==> n !in list.spine && n != node
      {
        Elsewhere(f, g);
      }
      hide InRepr;
      list.AddNode(node);
      forall g | g in table && g != f
        ensures table[g].spine == old(table[g].spine) && table[g].Valid()
      {
        assert old(table[g].Valid());
        assert forall i :: 0 <= i < |table[g].spine| ==> table[g].spine[i] in table[g].spine;
      }
    }

    method Thread(f: int, node: ListNode<K, V>)
      requires InRepr() && WellThreaded() && f in table && node in Repr
      requires forall g :: g in spines ==> node !in spines[g]
      modifies `spines, `home, Repr
      ensures InRepr() && WellThreaded()
      ensures f in old(spines) && |old(spines)[f]| >= 2 && spines == old(spines)[f := Threaded(old(spines)[f], node)]
      ensures forall k :: k in nodeMap ==>
                nodeMap[k].freq == old(nodeMap[k].freq) && nodeMap[k].value == old(nodeMap[k].value)
    {
      hide Distinct, FreqList.Linked, Homed, Threaded;
      ghost var spine := spines[f];
      assert |spine| >= 2;
      HomedThreaded(spines, home, f, node);
      ThreadedMembers(spine, node);
      ThreadedInRepr(f, node);
      LinkInto(f, table[f], node);
      Respine(f, Threaded(spine, node), home[node := f]);
    }

    lemma ThreadedInRepr(f: int, node: ListNode<K, V>)
      requires InRepr() && f in spines && |spines[f]| >= 2 && node in Repr
      ensures forall n :: n in Threaded(spines[f], node) ==> n in Repr
    {
      ThreadedMembers(spines[f], node);
    }

    /** A new, empty list for a frequency without one. */
    method NewList(f: int, k: K)
      requires Valid() && k in nodeMap && f !in table
      modifies `table, `lists, `spines, `home, `Repr
      ensures Valid() && table.Keys == old(table.Keys) + {f} && lists == old(lists)[f := []]
      ensures fresh(Repr - old(Repr)) && old(Repr) <= Repr && (old(Loose(k)) ==> Loose(k))
    {
      hide Layout;
      SameKeys();
      var list := new LinkedList(k, nodeMap[k].value);
      ghost var h, t := list.head, list.tail;
      LayoutNew(spines, lists, nodeMap, f, h, t);
      lists := lists[f := []];
      Register(f, list);
    }

    /** The new list joins the table. */
    method Register(f: int, list: LinkedList<K, V>)
      requires InRepr() && WellThreaded() && f !in table && list.Valid() && list.spine == [list.head, list.tail]
      requires list !in Repr && list.head !in Repr && list.tail !in Repr
               && this !in {list as object, list.head, list.tail}
      modifies `table, `spines, `home, `Repr
      ensures InRepr() && WellThreaded() && table == old(table)[f := list]
              && spines == old(spines)[f := [list.head, list.tail]]
      ensures Repr == old(Repr) + {list, list.head, list.tail}
    {
      ghost var h, t := list.head, list.tail;
      assert forall g, n :: g in spines && n in spines[g] ==> n != h && n != t;
      HomedNew(spines, home, f, h, t);
      hide Homed, Distinct, FreqList.Linked;
      table := table[f := list];
      spines := spines[f := [h, t]];
      home := home[h := f][t := f];
      Repr := Repr + {list, h, t};
    }

    /** addToFreqList. */
    method Add(k: K)
      requires Valid() && Loose(k)
      modifies this, Repr
      ensures Valid() && k in nodes && lists == Attach(old(lists), nodes[k].freq, k)
      ensures nodeMap == old(nodeMap) && nodes == old(nodes) && fresh(Repr - old(Repr)) && old(Repr) <= Repr
    {
      hide Layout, FreqList.Linked, Threaded, WellThreaded, Attach;
      var node := nodeMap[k];
      var f := node.freq;
      SameKeys();
      if f !in table {
        AttachNew(lists, f, k);
        NewList(f, k);
      }
      AddTo(f, k);
    }

    method AddTo(f: int, k: K)
      requires Valid() && Loose(k) && f in table
      modifies `lists, `spines, `home, Repr
      ensures Valid() && lists == Attach(old(lists), f, k)
    {
      hide Layout, FreqList.Linked, Threaded, WellThreaded, Attach;
      SameKeys();
      LayoutAdded(spines, lists, nodeMap, f, k);
      Thread(f, nodeMap[k]);
      lists := Attach(lists, f, k);
    }

    method SetFreq(k: K, freq: int)
      requires Valid() && k in nodes
      modifies `nodes, Repr
      ensures Valid() && nodes == old(nodes)[k := old(nodes)[k].(freq := freq)] && (old(Loose(k)) ==> Loose(k))
    {
      hide Layout, Homed, Distinct;
      var node := nodeMap[k];
      node.freq := freq;
      nodes := nodes[k := nodes[k].(freq := freq)];
    }

    method SetValue(k: K, value: V)
      requires Valid() && k in nodes
      modifies `nodes, Repr
      ensures Valid() && nodes == old(nodes)[k := old(nodes)[k].(value := value)]
    {
      hide Layout, Homed, Distinct;
      var node := nodeMap[k];
      node.value := value;
      nodes := nodes[k := nodes[k].(value := value)];
    }

    /** A node for a new key, in no list yet. */
    method NewNode(k: K, v: V)
      requires Valid() && k !in nodes
      modifies `nodeMap, `nodes, `Repr
      ensures Valid() && Loose(k) && nodes == old(nodes)[k := Node(1, v)] && fresh(Repr - old(Repr))
              && old(Repr) <= Repr
    {
      hide Layout, Homed, Distinct, FreqList.Linked;
      var node := new ListNode(k, v);
      OwnerAdded(spines, lists, nodeMap, k, node);
      nodeMap := nodeMap[k := node];
      nodes := nodes[k := Node(1, v)];
      Repr := Repr + {node};
    }

    /** The key table forgets a node that is in no list. */
    method Erase(k: K)
      requires Valid() && Loose(k)
      modifies `nodeMap, `nodes
      ensures Valid() && nodes == old(nodes) - {k}
    {
      hide Layout, Homed, Distinct, FreqList.Linked;
      OwnerErased(spines, lists, nodeMap, k);
      nodeMap := nodeMap - {k};
      nodes := nodes - {k};
    }

    method FirstKey(f: int) returns (k: K)
      requires Valid() && f in lists && lists[f] != []
      ensures k == lists[f][0]
    {
      SameKeys();
      var node := table[f].GetFirstNode();
      FirstIsFirst(spines[f], lists[f], nodeMap);
      k := node.key;
    }

    method EmptyAt(f: int) returns (empty: bool)
      requires Valid()
      ensures empty <==> ListAt(lists, f) == []
    {
      SameKeys();
      if f !in table {
        return true;
      }
      empty := table[f].IsEmpty();
      assert SpineOk(spines[f], lists[f], nodeMap);
    }

    method Clear()
      requires Valid()
      modifies `nodeMap, `table, `nodes, `lists, `spines, `home
      ensures Valid() && nodes == map[] && lists == map[]
    {
      nodeMap, table, nodes, lists, spines, home := map[], map[], map[], map[], map[], map[];
    }

    lemma InList(f: int, node: ListNode<K, V>)
      requires Valid() && f in table && f in spines && |spines[f]| >= 2 && node in Inner(spines[f])
      ensures node in table[f].Contents()
    {
    }

    /** A node of one list is in no other. */
    lemma OnlyThere(f: int, node: ListNode<K, V>)
      requires InRepr() && WellThreaded() && f in spines && node in spines[f]
      ensures forall g :: g in spines && g != f ==> node !in spines[g]
    {
      assert home[node] == f;
      forall g | g in spines && node in spines[g]
        ensures g == f
      {
        assert home[node] == g;
      }
    }

    lemma Elsewhere(f: int, g: int)
      requires InRepr() && WellThreaded() && f in spines && g in spines && g != f
      ensures forall n :: n in spines[g] ==> n !in spines[f]
    {
      forall n | n in spines[g]
        ensures n !in spines[f]
      {
        OnlyThere(g, n);
      }
    }

    lemma NodeAt(k: K)
      requires Valid() && k in nodes
      ensures k in nodeMap && nodeMap[k].freq == nodes[k].freq && nodeMap[k].value == nodes[k].value
    {
    }

    lemma SameKeys()
      requires Valid()
      ensures table.Keys == spines.Keys == lists.Keys && nodeMap.Keys == nodes.Keys
    {
    }

    lemma SameSize()
      requires Valid()
      ensures |nodeMap| == |nodes|
    {
      assert |nodeMap| == |nodeMap.Keys| && |nodes| == |nodes.Keys|;
    }
  }
}
