/** The growable byte queue under a connection (Buffer): an array with a read and a write index,
    refined by the sequence of its unread bytes. */
module ByteBuffer {
  // Space kept free in front of the data.
  const CHEAP_PREPEND := 8

  /** The first i bytes of the data have been written from position w on. */
  ghost predicate FilledUpTo(before: string, now: string, w: nat, data: string, i: nat) {
    && w + |data| <= |now| == |before| && i <= |data|
    && (forall k :: 0 <= k < w ==> now[k] == before[k])
    && (forall k :: w <= k < w + i ==> now[k] == data[k - w])
  }

  lemma FillOne(before: string, now: string, w: nat, data: string, i: nat)
    requires FilledUpTo(before, now, w, data, i) && i < |data|
    ensures FilledUpTo(before, now[w + i := data[i]], w, data, i + 1)
  {
  }

  lemma Appended(before: string, now: string, r: nat, w: nat, data: string)
    requires r <= w && FilledUpTo(before, now, w, data, |data|)
    ensures now[r..w + |data|] == before[r..w] + data
  {
  }

  /** The first i of the bytes r..w have been copied down to position to. */
  ghost predicate MovedUpTo(before: string, now: string, r: nat, w: nat, to: nat, i: nat) {
    && to <= r && r + i <= w <= |now| == |before|
    && (forall k :: to <= k < to + i ==> now[k] == before[k - to + r])
    && (forall k :: r + i <= k < w ==> now[k] == before[k])
  }

  lemma MoveOne(before: string, now: string, r: nat, w: nat, to: nat, i: nat)
    requires MovedUpTo(before, now, r, w, to, i) && r + i < w
    ensures MovedUpTo(before, now[to + i := now[r + i]], r, w, to, i + 1)
  {
  }

  lemma Moved(before: string, now: string, r: nat, w: nat, to: nat)
    requires r <= w && MovedUpTo(before, now, r, w, to, w - r)
    ensures now[to..to + w - r] == before[r..w]
  {
  }

  class Buffer {
    var store: array<char>
    var reader: nat
    var writer: nat

    ghost predicate Valid()
      reads this
    {
      CHEAP_PREPEND <= reader <= writer <= store.Length
    }

    /** The bytes appended and not yet retrieved. */
    function Peek(): (s: string)
      requires Valid()
      reads this, store
    {
      store[reader..writer]
    }

    function ReadableBytes(): nat
      requires Valid()
      reads this
    {
      writer - reader
    }

    constructor (initialSize: nat)
      ensures Valid() && Peek() == "" && fresh(store) && store.Length == CHEAP_PREPEND + initialSize
    {
      store := new char[CHEAP_PREPEND + initialSize];
      reader, writer := CHEAP_PREPEND, CHEAP_PREPEND;
    }

    method RetrieveAll()
      requires Valid()
      modifies `reader, `writer
      ensures Valid() && Peek() == "" && reader == CHEAP_PREPEND
    {
      reader := CHEAP_PREPEND;
      writer := CHEAP_PREPEND;
    }

    method Retrieve(len: nat)
      requires Valid()
      modifies `reader, `writer
      ensures Valid()
      ensures Peek() == if len < |old(Peek())| then old(Peek())[len..] else ""
      ensures Peek() == "" ==> reader == CHEAP_PREPEND
    {
      if len < writer - reader {
        reader := reader + len;
      } else {
        RetrieveAll();
      }
    }

    /** The resize branch of makeSpace. */
    method Grow(size: nat)
      requires Valid() && store.Length <= size
      modifies `store
      ensures Valid() && Peek() == old(Peek()) && store.Length == size && fresh(store)
    {
      var grown := new char[size];
      var i := 0;
      while i < store.Length
        modifies grown
        invariant 0 <= i <= store.Length <= grown.Length
        invariant forall j :: 0 <= j < i ==> grown[j] == store[j]
      {
        grown[i] := store[i];
        i := i + 1;
      }
      assert grown[reader..writer] == store[reader..writer];
      store := grown;
    }

    /** The other branch: the unread bytes move to the front, over bytes already read. */
    method MoveToFront()
      requires Valid()
      modifies `reader, `writer, store
      ensures Valid() && Peek() == old(Peek()) && reader == CHEAP_PREPEND
      ensures writer == CHEAP_PREPEND + old(ReadableBytes())
    {
      var readable := writer - reader;
      assert MovedUpTo(store[..], store[..], reader, writer, CHEAP_PREPEND, 0);
      hide MovedUpTo;
      ghost var before := store[..];
      var i := 0;
      while i < readable
        modifies store
        invariant 0 <= i <= readable
        invariant MovedUpTo(before, store[..], reader, writer, CHEAP_PREPEND, i)
      {
        ghost var now := store[..];
        store[CHEAP_PREPEND + i] := store[reader + i];
        assert store[..] == now[CHEAP_PREPEND + i := now[reader + i]];
        MoveOne(before, now, reader, writer, CHEAP_PREPEND, i);
        i := i + 1;
      }
      Moved(before, store[..], reader, writer, CHEAP_PREPEND);
      assert store[CHEAP_PREPEND..CHEAP_PREPEND + readable] == store[..][CHEAP_PREPEND..CHEAP_PREPEND + readable];
      reader := CHEAP_PREPEND;
      writer := reader + readable;
    }

    /** Grow the array, or move the unread bytes to the front, so that len bytes fit. */
    method MakeSpace(len: nat)
      requires Valid() && store.Length - writer < len
      modifies this, store
      ensures Valid() && Peek() == old(Peek()) && writer + len <= store.Length
      ensures store == old(store) || fresh(store)
      ensures store == old(store) <==> CHEAP_PREPEND + |old(Peek())| + len <= old(store.Length)
      ensures store.Length <= old(store.Length) + len
    {
      if (store.Length - writer) + reader < len + CHEAP_PREPEND {
        Grow(writer + len);
      } else {
        MoveToFront();
      }
    }

    /** Copies the data behind the unread bytes. */
    method CopyIn(data: string)
      requires Valid() && writer + |data| <= store.Length
      modifies store
      ensures store[reader..writer + |data|] == old(Peek()) + data
    {
      assert FilledUpTo(store[..], store[..], writer, data, 0);
      hide FilledUpTo;
      ghost var before := store[..];
      var i := 0;
      while i < |data|
        modifies store
        invariant 0 <= i <= |data| && writer + |data| <= store.Length
        invariant FilledUpTo(before, store[..], writer, data, i)
      {
        ghost var now := store[..];
        store[writer + i] := data[i];
        assert store[..] == now[writer + i := data[i]];
        FillOne(before, now, writer, data, i);
        i := i + 1;
      }
      Appended(before, store[..], reader, writer, data);
      assert store[reader..writer + |data|] == store[..][reader..writer + |data|];
    }

    /** The array is replaced exactly when the unread bytes and the new ones do not fit in it, wherever
        they stand, and by one that is longer by no more than the new bytes. */
    method Append(data: string)
      requires Valid()
      modifies this, store
      ensures Valid() && Peek() == old(Peek()) + data
      ensures store == old(store) || fresh(store)
      ensures store == old(store) <==> CHEAP_PREPEND + |old(Peek())| + |data| <= old(store.Length)
      ensures store.Length <= old(store.Length) + |data|
    {
      if store.Length - writer < |data| {
        MakeSpace(|data|);
      }
      CopyIn(data);
      writer := writer + |data|;
    }
  }
}
