/** The sixty-four size classes over the slot pools, with large objects going to the system
    allocator. */
module HashBucket {
  import opened SlotAlignment
  import opened MemoryPool

  const POOLS := 64
  const BASE_SIZE := 8
  const MAX_SLOT := 512
  const BLOCK_SIZE := 4096

  /** The pool for objects of this size. */
  function ClassOf(size: nat): (index: int) { (size + 7) / BASE_SIZE - 1 }

  function SlotSize(index: nat): nat { (index + 1) * BASE_SIZE }

  /** The chosen class exists, is big enough, and no smaller class is. */
  lemma ClassFits(size: nat)
    requires 0 < size <= MAX_SLOT
    ensures 0 <= ClassOf(size) < POOLS && SlotSize(ClassOf(size)) >= size
    ensures forall k: nat :: SlotSize(k) >= size ==> k >= ClassOf(size)
    ensures Configured(SlotSize(ClassOf(size)), BLOCK_SIZE)
  {
  }

  /** big maps the address of each large object to its size. */
  datatype Heap = Heap(pools: seq<Pool>, big: map<nat, nat>)

  // ---------- steps ----------

  /** Memory the system allocator may return: apart from every block and large object. */
  predicate Unused(h: Heap, a: nat, n: nat) {
    && (forall i, k :: 0 <= i < |h.pools| && 0 <= k < |h.pools[i].blocks| ==>
          Apart(a, n, h.pools[i].blocks[k].base, BLOCK_SIZE))
    && (forall b :: b in h.big ==> Apart(a, n, b, h.big[b]))
  }

  datatype Event = Use(size: nat, base: nat) | Release(address: nat, size: nat)

  predicate Shape(h: Heap) {
    && |h.pools| == POOLS
    && forall i :: 0 <= i < POOLS ==>
         h.pools[i].slot == SlotSize(i) && h.pools[i].blockSize == BLOCK_SIZE && Ready(h.pools[i])
  }

  /** The system allocator answers properly, and objects are released with the size of their class. */
  predicate Enabled(h: Heap, e: Event) {
    Shape(h) &&
    match e
    case Use(size, base) =>
      if size == 0 then true
      else if size > MAX_SLOT then base > 0 && Unused(h, base, size)
      else NeedsBlock(h.pools[ClassOf(size)]) ==>
             base > 0 && base % 8 == 0 && base + BLOCK_SIZE < WORDS && Unused(h, base, BLOCK_SIZE)
    case Release(a, size) =>
      || a == 0
      || (if size > MAX_SLOT then a in h.big && h.big[a] == size else size > 0 && a in h.pools[ClassOf(size)].live)
  }

  /** The address handed out (0 for nothing) and the heap after it. */
  function Apply(h: Heap, e: Event): (nat, Heap)
    requires Enabled(h, e)
  {
    match e
    case Use(size, base) =>
      if size == 0 then (0, h)
      else if size > MAX_SLOT then (base, h.(big := h.big[base := size]))
      else
        var (a, q) := Allocate(h.pools[ClassOf(size)], base);
        (a, h.(pools := h.pools[ClassOf(size) := q]))
    case Release(a, size) =>
      if a == 0 then (0, h)
      else if size > MAX_SLOT then (0, h.(big := h.big - {a}))
      else (0, h.(pools := h.pools[ClassOf(size) := Deallocate(h.pools[ClassOf(size)], a)]))
  }

  // ---------- invariant ----------

  ghost predicate PoolsInv(h: Heap) {
    Shape(h) && forall i :: 0 <= i < POOLS ==> Inv(h.pools[i])
  }

  /** Blocks of different pools do not overlap. */
  predicate BlocksApart(h: Heap) {
    forall i, j, k, l :: 0 <= i < j < |h.pools| && 0 <= k < |h.pools[i].blocks| && 0 <= l < |h.pools[j].blocks| ==>
      Apart(h.pools[i].blocks[k].base, BLOCK_SIZE, h.pools[j].blocks[l].base, BLOCK_SIZE)
  }

  predicate BigApart(h: Heap) {
    && (forall b, i, k :: b in h.big && 0 <= i < |h.pools| && 0 <= k < |h.pools[i].blocks| ==>
          Apart(b, h.big[b], h.pools[i].blocks[k].base, BLOCK_SIZE))
    && (forall b, c :: b in h.big && c in h.big && b != c ==> Apart(b, h.big[b], c, h.big[c]))
  }

  ghost predicate HeapInv(h: Heap) { PoolsInv(h) && BlocksApart(h) && BigApart(h) }

  /** A pool step keeps its block addresses, except for at most one new block in front. */
  predicate SameBases(p: Pool, q: Pool) {
    |p.blocks| == |q.blocks| && forall k :: 0 <= k < |p.blocks| ==> q.blocks[k].base == p.blocks[k].base
  }

  predicate OneMore(p: Pool, q: Pool, base: nat) {
    && |q.blocks| == |p.blocks| + 1 && q.blocks[0].base == base
    && forall k :: 0 <= k < |p.blocks| ==> q.blocks[k + 1].base == p.blocks[k].base
  }

  lemma AllocateBlocks(p: Pool, base: nat)
    requires Inv(p) && Ready(p) && (NeedsBlock(p) ==> FreshBlock(p, base))
    ensures var q := Allocate(p, base).1; if NeedsBlock(p) then OneMore(p, q, base) else SameBases(p, q)
  {
    hide Inv, Start;
  }

  predicate HasBase(p: Pool, base: nat) { exists l :: 0 <= l < |p.blocks| && p.blocks[l].base == base }

  /** Where the blocks of a pool that replaces pool i come from. */
  predicate Comes(h: Heap, i: nat, q: Pool, base: nat)
    requires i < |h.pools|
  {
    forall k :: 0 <= k < |q.blocks| ==>
      HasBase(h.pools[i], q.blocks[k].base) || (q.blocks[k].base == base && Unused(h, base, BLOCK_SIZE))
  }

  lemma ReplacedComes(h: Heap, i: nat, q: Pool, base: nat)
    requires i < |h.pools|
    requires SameBases(h.pools[i], q) || (OneMore(h.pools[i], q, base) && Unused(h, base, BLOCK_SIZE))
    ensures Comes(h, i, q, base)
  {
    hide Unused;
    var p := h.pools[i];
    forall k | 0 <= k < |q.blocks|
      ensures HasBase(p, q.blocks[k].base) || (q.blocks[k].base == base && Unused(h, base, BLOCK_SIZE))
    {
      if SameBases(p, q) {
        assert p.blocks[k].base == q.blocks[k].base;
      } else if k > 0 {
        var l := k - 1;
        assert q.blocks[l + 1].base == p.blocks[l].base;
      }
    }
  }

  /** Replacing pool i by one with the same blocks, or one unused block more. */
  lemma ReplacedApart(h: Heap, i: nat, q: Pool, base: nat)
    requires i < |h.pools| && BlocksApart(h) && BigApart(h)
    requires SameBases(h.pools[i], q) || (OneMore(h.pools[i], q, base) && Unused(h, base, BLOCK_SIZE))
    ensures var g := h.(pools := h.pools[i := q]); BlocksApart(g) && BigApart(g)
  {
    ReplacedComes(h, i, q, base);
    hide SameBases, OneMore;
  }

  lemma UsePoolKeeps(h: Heap, size: nat, base: nat)
    requires HeapInv(h) && Enabled(h, Use(size, base)) && 0 < size <= MAX_SLOT
    ensures HeapInv(Apply(h, Use(size, base)).1)
    ensures var (a, g) := Apply(h, Use(size, base)); var i := ClassOf(size);
            a > 0 && a !in h.pools[i].live && g.pools[i].live == h.pools[i].live + {a}
  {
    ClassFits(size);
    var i := ClassOf(size);
    var p := h.pools[i];
    assert NeedsBlock(p) ==> FreshBlock(p, base);
    hide Inv, BlocksApart, BigApart, Unused, Allocate, ClassOf, SlotSize, FreshBlock, NeedsBlock;
    AllocateKeeps(p, base);
    AllocateBlocks(p, base);
    ReplacedApart(h, i, Allocate(p, base).1, base);
    hide SameBases, OneMore;
  }

  lemma ReleaseKeeps(h: Heap, a: nat, size: nat)
    requires HeapInv(h) && Enabled(h, Release(a, size)) && 0 < size <= MAX_SLOT && a > 0
    ensures HeapInv(Apply(h, Release(a, size)).1)
  {
    ClassFits(size);
    var i := ClassOf(size);
    var p := h.pools[i];
    hide Inv, BlocksApart, BigApart, ClassOf, SlotSize;
    DeallocateKeeps(p, a);
    ReplacedApart(h, i, Deallocate(p, a), 0);
  }

  lemma BigKeeps(h: Heap, e: Event)
    requires HeapInv(h) && Enabled(h, e)
             && (e.size > MAX_SLOT || (e.Use? && e.size == 0) || (e.Release? && e.address == 0))
    ensures HeapInv(Apply(h, e).1)
  {
    hide Inv, ClassOf, SlotSize;
  }

  lemma HeapStep(h: Heap, e: Event)
    requires HeapInv(h) && Enabled(h, e)
    ensures HeapInv(Apply(h, e).1)
  {
    hide HeapInv, Apply, ClassOf;
    if e.size > MAX_SLOT || (e.Use? && e.size == 0) || (e.Release? && e.address == 0) {
      BigKeeps(h, e);
    } else if e.Use? {
      UsePoolKeeps(h, e.size, e.base);
    } else {
      ReleaseKeeps(h, e.address, e.size);
    }
  }

  // ---------- runs ----------

  function Initial(): Heap {
    Heap(seq(POOLS, i requires 0 <= i < POOLS => MemoryPool.Initial(SlotSize(i), BLOCK_SIZE)), map[])
  }

  predicate Run(hs: seq<Heap>, es: seq<Event>) {
    && |hs| == |es| + 1 && hs[0] == Initial()
    && forall i :: 0 <= i < |es| ==> Enabled(hs[i], es[i]) && hs[i + 1] == Apply(hs[i], es[i]).1
  }

  lemma StartInv()
    ensures HeapInv(Initial())
  {
    hide Inv;
    forall i | 0 <= i < POOLS
      ensures Inv(Initial().pools[i])
    {
      InitialInv(SlotSize(i), BLOCK_SIZE);
    }
  }

  lemma {:induction false} HeapRun(hs: seq<Heap>, es: seq<Event>, i: nat)
    requires Run(hs, es) && i < |hs|
    ensures HeapInv(hs[i])
  {
    hide HeapInv, Apply, Enabled, Initial;
    StartInv();
    if i > 0 {
      HeapRun(hs, es, i - 1);
      HeapStep(hs[i - 1], es[i - 1]);
    }
  }

  // ---------- main result ----------

  lemma PoolSlotsApart(h: Heap, i: nat, a: nat, j: nat, b: nat)
    requires HeapInv(h) && i < POOLS && j < POOLS && a in h.pools[i].live && b in h.pools[j].live && (i, a) != (j, b)
    ensures Apart(a, SlotSize(i), b, SlotSize(j))
  {
    hide SlotSize;
    assert Carved(h.pools[i], a) && Carved(h.pools[j], b);
    if i == j {
      CarvedApart(h.pools[i], a, b);
    } else {
      CarvedInside(h.pools[i], a);
      CarvedInside(h.pools[j], b);
      hide Inv;
    }
  }

  lemma BigApartFromSlots(h: Heap, i: nat, a: nat, b: nat)
    requires HeapInv(h) && i < POOLS && a in h.pools[i].live && b in h.big
    ensures Apart(a, SlotSize(i), b, h.big[b])
  {
    hide SlotSize;
    assert Carved(h.pools[i], a);
    CarvedInside(h.pools[i], a);
    hide Inv;
  }

  /** In every run, across all size classes and large objects: an object just handed out has room
      for its size, and overlaps no other slot or large object in use. */
  lemma ObjectsNeverOverlap(hs: seq<Heap>, es: seq<Event>, t: nat)
    requires Run(hs, es) && t < |es| && es[t].Use? && es[t].size > 0
    ensures var (a, g) := Apply(hs[t], es[t]); var size := es[t].size; var own := ClassOf(size);
            && g == hs[t + 1] && a > 0
            && (forall i, b :: 0 <= i < POOLS && b in g.pools[i].live && !(size <= MAX_SLOT && i == own && b == a) ==>
                  Apart(a, size, b, SlotSize(i)))
            && (forall b :: b in g.big && !(size > MAX_SLOT && b == a) ==> Apart(a, size, b, g.big[b]))
  {
    HeapRun(hs, es, t);
    HeapRun(hs, es, t + 1);
    var (a, g) := Apply(hs[t], es[t]);
    var size, own := es[t].size, ClassOf(es[t].size);
    assert Enabled(hs[t], es[t]);
    hide Run, HeapInv;
    if size <= MAX_SLOT {
      ClassFits(size);
      UsePoolKeeps(hs[t], size, es[t].base);
    }
    hide Apply, ClassOf;
    forall i, b | 0 <= i < POOLS && b in g.pools[i].live && !(size <= MAX_SLOT && i == own && b == a)
      ensures Apart(a, size, b, SlotSize(i))
    {
      if size <= MAX_SLOT { PoolSlotsApart(g, own, a, i, b); } else { BigApartFromSlots(g, i, b, a); }
    }
    forall b | b in g.big && !(size > MAX_SLOT && b == a)
      ensures Apart(a, size, b, g.big[b])
    {
      if size <= MAX_SLOT { BigApartFromSlots(g, own, a, b); } else { BigPairApart(g, a, b); }
    }
  }

  lemma BigPairApart(h: Heap, a: nat, b: nat)
    requires HeapInv(h) && a in h.big && b in h.big && a != b
    ensures Apart(a, h.big[a], b, h.big[b])
  {
  }

  /** What a step leaves of the heap: objects of up to 512 bytes live in the smallest class that fits them,
      larger ones in memory of their own, and a release takes each from where it was put. */
  ghost predicate WhereItFits(h: Heap, e: Event, a: nat, g: Heap) {
    |h.pools| == POOLS && |g.pools| == POOLS &&
    if e.size > MAX_SLOT then
      g.pools == h.pools
      && g.big == if e.Use? then h.big[a := e.size] else if e.address == 0 then h.big else h.big - {e.address}
    else if e.size == 0 || (e.Release? && e.address == 0) then g == h
    else
      exists own :: 0 <= own < POOLS && Fits(e.size, own) && g.big == h.big && OnlyIn(h, own, e, a, g)
  }

  predicate Fits(size: nat, own: int) { 8 * own < size <= 8 * own + 8 }

  predicate OnlyIn(h: Heap, own: int, e: Event, a: nat, g: Heap)
    requires |h.pools| == |g.pools| == POOLS && 0 <= own < POOLS
  {
    && (forall i :: 0 <= i < POOLS && i != own ==> g.pools[i] == h.pools[i])
    && if e.Use? then a > 0 && a !in h.pools[own].live && g.pools[own].live == h.pools[own].live + {a}
       else e.address in h.pools[own].live && g.pools[own].live == h.pools[own].live - {e.address}
  }

  lemma StepFits(h: Heap, e: Event)
    requires HeapInv(h) && Enabled(h, e)
    ensures WhereItFits(h, e, Apply(h, e).0, Apply(h, e).1)
  {
    if 0 < e.size <= MAX_SLOT && !(e.Release? && e.address == 0) {
      ClassFits(e.size);
      var own := ClassOf(e.size);
      assert Fits(e.size, own);
      if e.Use? { UsePoolKeeps(h, e.size, e.base); }
      hide Inv, ClassOf, Allocate, BlocksApart, BigApart, Ready;
      assert OnlyIn(h, own, e, Apply(h, e).0, Apply(h, e).1);
    }
  }

  /** In every run each object is put, and found again, where its size belongs, and no other pool or
      object is touched. */
  lemma ObjectsGoWhereTheyFit(hs: seq<Heap>, es: seq<Event>, t: nat)
    requires Run(hs, es) && t < |es|
    ensures WhereItFits(hs[t], es[t], Apply(hs[t], es[t]).0, hs[t + 1])
  {
    HeapRun(hs, es, t);
    assert Enabled(hs[t], es[t]) && hs[t + 1] == Apply(hs[t], es[t]).1;
    hide Run, HeapInv, Enabled, Apply, WhereItFits;
    StepFits(hs[t], es[t]);
  }
}
