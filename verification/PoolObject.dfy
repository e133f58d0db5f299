/** The pool as an object over real memory words: the free list and the block list are threaded
    through the slots and the block headers themselves. */
module PoolObject {
  import opened SlotAlignment
  import opened MemoryPool

  /** Following the links from head visits exactly s and ends at null. */
  predicate Chain(words: map<nat, nat>, head: nat, s: seq<nat>)
    decreases |s|
  {
    if s == [] then head == 0 else head == s[0] && head > 0 && head in words && Chain(words, words[head], s[1..])
  }

  lemma {:induction false} ChainFrame(words: map<nat, nat>, head: nat, s: seq<nat>, x: nat, v: nat)
    requires Chain(words, head, s) && x !in s
    ensures Chain(words[x := v], head, s)
    decreases |s|
  {
    if s != [] { ChainFrame(words, words[head], s[1..], x, v); }
  }

  function Bases(blocks: seq<Block>): seq<nat> { seq(|blocks|, i requires 0 <= i < |blocks| => blocks[i].base) }

  /** A word inside a slot in use is no link: not in a free slot, not a block header. */
  lemma SlotWordsAreNoLinks(p: Pool, a: nat, w: nat)
    requires Inv(p) && a in p.live && a <= w && w + WORD <= a + p.slot
    ensures w !in p.free && w !in Bases(p.blocks)
  {
    assert Carved(p, a);
    CarvedInside(p, a);
    forall b | b in p.free
      ensures w != b
    {
      assert Carved(p, b);
      CarvedApart(p, a, b);
    }
    hide Carved, SoundCursor;
  }

  class PoolMemory {
    const slotSize: nat
    const blockSize: nat
    var firstBlock: nat
    var curSlot: nat
    var freeList: nat
    var lastSlot: nat
    var words: map<nat, nat>
    ghost var pool: Pool

    ghost predicate Valid()
      reads this
    {
      && Inv(pool) && pool.slot == slotSize && pool.blockSize == blockSize
      && pool.cur == curSlot && pool.last == lastSlot
      && Chain(words, freeList, pool.free) && Chain(words, firstBlock, Bases(pool.blocks))
    }

    constructor (slotSize: nat, blockSize: nat)
      requires Configured(slotSize, blockSize)
      ensures Valid() && pool == Initial(slotSize, blockSize)
    {
      this.slotSize, this.blockSize := slotSize, blockSize;
      firstBlock, curSlot, freeList, lastSlot, words := 0, 0, 0, 0, map[];
      pool := Initial(slotSize, blockSize);
      new;
      InitialInv(slotSize, blockSize);
    }

    /** Only the header of the new block is written. */
    method AllocateNewBlock(base: nat)
      requires Valid() && NeedsBlock(pool) && FreshBlock(pool, base)
      modifies this
      ensures Valid() && pool == NewBlock(old(pool), base) && curSlot < lastSlot
      ensures words == old(words)[base := old(firstBlock)]
    {
      NewBlockKeeps(pool, base);
      hide Inv, NewBlock;
      assert base !in Bases(pool.blocks);
      ChainFrame(words, firstBlock, Bases(pool.blocks), base, firstBlock);
      NewBlockFields(pool, base);
      words := words[base := firstBlock];
      firstBlock := base;
      var body := base + WORD;
      var paddingSize := PadPointer(body, slotSize);
      curSlot := body + paddingSize;
      lastSlot := base + blockSize - slotSize + 1;
      freeList := 0;
      pool := NewBlock(pool, base);
      assert Bases(pool.blocks)[1..] == Bases(old(pool).blocks);
    }

    /** base is the system allocator's answer, should a block be needed. No word of a live slot
        changes. */
    method TakeSlot(base: nat) returns (a: nat)
      requires Valid() && (NeedsBlock(pool) ==> FreshBlock(pool, base))
      modifies this
      ensures Valid() && (a, pool) == Allocate(old(pool), base)
      ensures a !in old(pool).live && pool.live == old(pool).live + {a}
      ensures words == if NeedsBlock(old(pool)) then old(words)[base := old(firstBlock)] else old(words)
    {
      AllocateKeeps(pool, base);
      hide Inv, FreshBlock;
      if freeList != 0 {
        a := freeList;
        freeList := words[freeList];
        pool := Reuse(pool);
        return;
      }
      if curSlot >= lastSlot {
        AllocateNewBlock(base);
      }
      a := curSlot;
      CarveBases(pool);
      curSlot := curSlot + slotSize;
      pool := Carve(pool);
    }

    method GiveBack(a: nat)
      requires Valid() && (a == 0 || a in pool.live)
      modifies this
      ensures Valid() && pool == Deallocate(old(pool), a)
      ensures words == if a == 0 then old(words) else old(words)[a := old(freeList)]
    {
      DeallocateKeeps(pool, a);
      if a != 0 {
        SlotWordsAreNoLinks(pool, a, a);
        hide Inv;
        ChainFrame(words, freeList, pool.free, a, freeList);
        ChainFrame(words, firstBlock, Bases(pool.blocks), a, freeList);
        words := words[a := freeList];
        freeList := a;
        pool := Deallocate(pool, a);
        assert pool.free[1..] == old(pool).free;
      }
    }

    /** The owner of a live slot may write any word of it: the pool does not notice. */
    method UserWrite(a: nat, w: nat, v: nat)
      requires Valid() && a in pool.live && a <= w && w + WORD <= a + slotSize
      modifies `words
      ensures Valid() && words == old(words)[w := v]
    {
      SlotWordsAreNoLinks(pool, a, w);
      hide Inv;
      ChainFrame(words, freeList, pool.free, w, v);
      ChainFrame(words, firstBlock, Bases(pool.blocks), w, v);
      words := words[w := v];
    }
  }

  lemma NewBlockFields(p: Pool, base: nat)
    requires Configured(p.slot, p.blockSize) && FreshBlock(p, base)
    ensures var q := NewBlock(p, base);
            && q.slot == p.slot && q.blockSize == p.blockSize && q.free == [] && q.blocks == [Block(base, 0)] + p.blocks
            && q.cur == Start(base, p.slot) && q.last == base + p.blockSize - p.slot + 1
  {
  }

  lemma CarveBases(p: Pool)
    requires |p.blocks| > 0
    ensures Bases(Carve(p).blocks) == Bases(p.blocks)
  {
  }
}
