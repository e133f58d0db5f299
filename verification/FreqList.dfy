/** The doubly linked list behind one access frequency: two sentinels, insertion at the tail,
    unlinking anywhere, and the oldest node at the front. Its contents are the sequences that the
    Lfu model works on. */
module FreqList {
  import opened Lfu

  class ListNode<K, V> {
    const key: K
    var value: V
    var freq: int
    var pre: ListNode?<K, V>
    var next: ListNode?<K, V>

    constructor (key: K, value: V)
      ensures this.key == key && this.value == value && freq == 1 && pre == null && next == null
    {
      this.key, this.value, freq, pre, next := key, value, 1, null, null;
    }
  }

  /** Neighbours point at each other, ends included. */
  ghost predicate Linked<K, V>(spine: seq<ListNode<K, V>>)
    reads spine`next, spine`pre
  {
    && (forall i :: 0 <= i < |spine| - 1 ==> spine[i].next == spine[i + 1])
    && (forall i :: 0 < i < |spine| ==> spine[i].pre == spine[i - 1])
  }

  class LinkedList<K, V> {
    const head: ListNode<K, V>
    const tail: ListNode<K, V>
    ghost var spine: seq<ListNode<K, V>>

    ghost predicate Valid()
      reads this, spine`next, spine`pre
    {
      && |spine| >= 2 && spine[0] == head && spine[|spine| - 1] == tail
      && Distinct(spine) && Linked(spine)
    }

    ghost function Contents(): seq<ListNode<K, V>>
      reads this
      requires |spine| >= 2
    {
      Inner(spine)
    }

    constructor (someKey: K, someValue: V)
      ensures Valid() && Contents() == [] && spine == [head, tail]
      ensures fresh(head) && fresh(tail)
    {
      var h := new ListNode(someKey, someValue);
      var t := new ListNode(someKey, someValue);
      head, tail := h, t;
      spine := [h, t];
      new;
      h.next := t;
      t.pre := h;
    }

    method IsEmpty() returns (empty: bool)
      requires Valid()
      ensures empty <==> Contents() == []
    {
      empty := head.next == tail;
      assert head.next == spine[1];
      if |spine| > 2 { assert spine[1] != spine[|spine| - 1]; }
    }

    /** Tail insertion. */
    method AddNode(node: ListNode<K, V>)
      requires Valid() && node !in spine
      modifies this`spine, spine`next, spine`pre, node`next, node`pre
      ensures Valid() && Contents() == old(Contents()) + [node]
      ensures spine == old(spine[..|spine| - 1]) + [node, tail]
    {
      ghost var n := |spine|;
      ghost var was := spine;
      var last := tail.pre;
      assert last == spine[n - 2];
      node.pre := last;
      node.next := tail;
      last.next := node;
      tail.pre := node;
      spine := spine[..n - 1] + [node, tail];
      assert forall i :: 0 <= i < n - 1 ==> spine[i] == was[i];
    }

    /** The pointer surgery for the inner node at place k of the spine. */
    method Unlink(node: ListNode<K, V>, ghost k: nat)
      requires Valid() && 0 < k < |spine| - 1 && spine[k] == node
      modifies this`spine, spine`next, spine`pre
      ensures Valid() && spine == old(spine)[..k] + old(spine)[k + 1..] && node.pre == null && node.next == null
    {
      ghost var was := spine;
      ghost var b, a := was[k - 1], was[k + 1];
      assert node.pre == b && node.next == a;
      assert forall i :: 0 <= i < |was| ==>
          (was[i] == b <==> i == k - 1) && (was[i] == a <==> i == k + 1) && (was[i] == node <==> i == k);
      node.pre.next := node.next;
      node.next.pre := node.pre;
      node.pre := null;
      node.next := null;
      spine := was[..k] + was[k + 1..];
      assert forall i :: 0 <= i < |spine| ==> spine[i] == was[if i < k then i else i + 1];
      assert Distinct(spine);
      forall i | 0 <= i < |spine| - 1
        ensures spine[i].next == spine[i + 1]
      {
        assert i < k - 1 ==> was[i].next == was[i + 1];
        assert i >= k ==> was[i + 1].next == was[i + 2];
      }
      forall i | 0 < i < |spine|
        ensures spine[i].pre == spine[i - 1]
      {
        assert i < k ==> was[i].pre == was[i - 1];
        assert i > k ==> was[i + 1].pre == was[i];
      }
    }

    /** Unlinking keeps the others in order; a node that is in no list is left alone. */
    method RemoveNode(node: ListNode<K, V>)
      requires Valid() && (node in Contents() || (node.pre == null && node.next == null && node !in spine))
      modifies this`spine, spine`next, spine`pre
      ensures Valid() && spine == Without(old(spine), node) && node.pre == null && node.next == null
      ensures Contents() == Without(old(Contents()), node)
    {
      ghost var k := Place(node);
      if node.pre == null || node.next == null {
        WithoutAbsent(spine, node);
        WithoutAbsent(Contents(), node);
        return;
      }
      InnerWithout(spine, k);
      WithoutAt(spine, k);
      hide Without, Linked, Distinct;
      Unlink(node, k);
    }

    /** Where an inner node stands; it has both neighbours. */
    ghost method Place(node: ListNode<K, V>) returns (k: nat)
      requires Valid()
      ensures node in Contents() ==> 0 < k < |spine| - 1 && spine[k] == node && node.pre != null && node.next != null
    {
      k := 0;
      if node in Contents() {
        var j :| 0 <= j < |Contents()| && Contents()[j] == node;
        k := j + 1;
        assert node == spine[k] && spine[k].pre == spine[k - 1] && spine[k].next == spine[k + 1];
      }
    }

    /** The next victim: the node that has been in the list longest, or the tail sentinel. */
    method GetFirstNode() returns (node: ListNode<K, V>)
      requires Valid()
      ensures node == if Contents() == [] then tail else Contents()[0]
    {
      assert spine[0].next == spine[1];
      node := head.next;
    }
  }

  lemma {:induction false} WithoutAbsent<T>(s: seq<T>, x: T)
    requires x !in s
    ensures Without(s, x) == s
  {
    if s != [] {
      WithoutAbsent(s[1..], x);
      assert s == [s[0]] + s[1..];
    }
  }

  lemma {:induction false} WithoutAt<T>(s: seq<T>, k: nat)
    requires Distinct(s) && k < |s|
    ensures Without(s, s[k]) == s[..k] + s[k + 1..]
  {
    if k > 0 {
      assert s[1..][k - 1] == s[k];
      WithoutAt(s[1..], k - 1);
      assert s[..k] + s[k + 1..] == [s[0]] + (s[1..][..k - 1] + s[1..][k..]);
    }
  }

  /** What stands between the two sentinels. */
  function Inner<T>(spine: seq<T>): (r: seq<T>)
    requires |spine| >= 2
    ensures |r| == |spine| - 2
  {
    spine[1..|spine| - 1]
  }

  lemma InnerAt<T>(spine: seq<T>, k: nat)
    requires 0 < k < |spine| - 1
    ensures Inner(spine)[k - 1] == spine[k]
    ensures Inner(spine[..k] + spine[k + 1..]) == Inner(spine)[..k - 1] + Inner(spine)[k..]
  {
  }

  lemma InnerDistinct<T>(s: seq<T>)
    requires Distinct(s) && |s| >= 2
    ensures Distinct(Inner(s))
  {
  }

  /** Taking an inner node off the spine takes it off the contents. */
  lemma InnerWithout<T>(spine: seq<T>, k: nat)
    requires Distinct(spine) && 0 < k < |spine| - 1
    ensures var r := Without(spine, spine[k]);
            r == spine[..k] + spine[k + 1..] && Inner(r) == Without(Inner(spine), spine[k])
  {
    hide Without, Distinct, Inner;
    InnerDistinct(spine);
    InnerAt(spine, k);
    WithoutAt(spine, k);
    WithoutAt(Inner(spine), k - 1);
  }
}
