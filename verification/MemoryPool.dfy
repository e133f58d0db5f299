/** The fixed-slot memory pool: blocks carved into slots, freed slots reused first. Addresses are
    numbers; what the system allocator returns is a parameter. Pool calls are atomic. */
module MemoryPool {
  import opened SlotAlignment

  // sizeof(Slot): the block header, and the link kept in a free slot.
  const WORD := 8

  /** used counts the slots carved from this block so far. */
  datatype Block = Block(base: nat, used: nat)

  /** blocks newest first; free is the free list, head first; live the slots handed out. */
  datatype Pool = Pool(slot: nat, blockSize: nat, blocks: seq<Block>, cur: nat, last: nat,
                       free: seq<nat>, live: set<nat>)

  /** Slot sizes are multiples of 8, and a padded block has room for a slot. */
  predicate Configured(slot: nat, blockSize: nat) {
    slot > 0 && slot % 8 == 0 && 2 * slot <= blockSize && blockSize < WORDS
  }

  predicate Apart(a: nat, m: nat, b: nat, n: nat) { a + m <= b || b + n <= a }

  /** What operator new promises: word-aligned memory, apart from every block in use. */
  predicate FreshBlock(p: Pool, base: nat) {
    && base > 0 && base % 8 == 0 && base + p.blockSize < WORDS
    && forall i :: 0 <= i < |p.blocks| ==> Apart(base, p.blockSize, p.blocks[i].base, p.blockSize)
  }

  function Start(base: nat, slot: nat): nat
    requires 0 < slot < WORDS && base + WORD < WORDS
  {
    base + WORD + PadPointer(base + WORD, slot)
  }

  // ---------- operations ----------

  function NewBlock(p: Pool, base: nat): Pool
    requires Configured(p.slot, p.blockSize) && base + p.blockSize < WORDS
  {
    p.(blocks := [Block(base, 0)] + p.blocks, cur := Start(base, p.slot),
       last := base + p.blockSize - p.slot + 1, free := [])
  }

  /** The next slot of the current block. */
  function Carve(p: Pool): Pool
    requires |p.blocks| > 0
  {
    p.(blocks := p.blocks[0 := p.blocks[0].(used := p.blocks[0].used + 1)], cur := p.cur + p.slot,
       live := p.live + {p.cur})
  }

  function Reuse(p: Pool): Pool
    requires p.free != []
  {
    p.(free := p.free[1..], live := p.live + {p.free[0]})
  }

  predicate NeedsBlock(p: Pool) { p.free == [] && p.cur >= p.last }

  /** base is used only when a block is needed. */
  function Allocate(p: Pool, base: nat): (nat, Pool)
    requires Configured(p.slot, p.blockSize) && (NeedsBlock(p) ==> base + p.blockSize < WORDS)
    requires |p.blocks| > 0 || p.cur >= p.last
  {
    if p.free != [] then (p.free[0], Reuse(p))
    else if p.cur >= p.last then var q := NewBlock(p, base); (q.cur, Carve(q))
    else (p.cur, Carve(p))
  }

  /** Null pointers are ignored. */
  function Deallocate(p: Pool, a: nat): Pool {
    if a == 0 then p else p.(free := [a] + p.free, live := p.live - {a})
  }

  // ---------- geometry ----------

  /** The k-th slot of a block. */
  function SlotAt(base: nat, slot: nat, k: nat): nat
    requires 0 < slot < WORDS && base + WORD < WORDS
  {
    Start(base, slot) + k * slot
  }

  lemma {:induction false} Steps(slot: nat, j: nat, k: nat)
    ensures j < k ==> j * slot + slot <= k * slot
    ensures (j + 1) * slot == j * slot + slot
    decreases k
  {
    if j + 1 < k {
      Steps(slot, j, k - 1);
      assert k * slot == (k - 1) * slot + slot;
    }
  }

  predicate SoundBlocks(p: Pool) {
    && Configured(p.slot, p.blockSize)
    && (forall i :: 0 <= i < |p.blocks| ==>
          p.blocks[i].base > 0 && p.blocks[i].base % 8 == 0 && p.blocks[i].base + p.blockSize < WORDS)
    && (forall i, j :: 0 <= i < j < |p.blocks| ==> Apart(p.blocks[i].base, p.blockSize, p.blocks[j].base, p.blockSize))
  }

  /** cur and last describe the newest block; older blocks are used up. */
  predicate SoundCursor(p: Pool)
    requires SoundBlocks(p)
  {
    if |p.blocks| == 0 then p.cur == 0 && p.last == 0
    else
      && p.cur == SlotAt(p.blocks[0].base, p.slot, p.blocks[0].used)
      && p.last == p.blocks[0].base + p.blockSize - p.slot + 1
      && (forall i :: 0 <= i < |p.blocks| ==>
            SlotAt(p.blocks[i].base, p.slot, p.blocks[i].used) <= p.blocks[i].base + p.blockSize)
      && (forall i :: 1 <= i < |p.blocks| ==>
            SlotAt(p.blocks[i].base, p.slot, p.blocks[i].used) + p.slot > p.blocks[i].base + p.blockSize)
  }

  /** a is the k-th slot carved from block i. */
  predicate CarvedAt(p: Pool, a: nat, i: nat, k: nat)
    requires SoundBlocks(p)
  {
    i < |p.blocks| && k < p.blocks[i].used && a == SlotAt(p.blocks[i].base, p.slot, k)
  }

  ghost predicate Carved(p: Pool, a: nat)
    requires SoundBlocks(p)
  {
    exists i: nat, k: nat :: CarvedAt(p, a, i, k)
  }

  predicate NoRepeats(s: seq<nat>) { forall i, j :: 0 <= i < j < |s| ==> s[i] != s[j] }

  /** Every carved slot is live or free, never both, and the free list has no repeats. */
  ghost predicate Conserved(p: Pool)
    requires SoundBlocks(p)
  {
    && (forall a :: Carved(p, a) <==> a in p.live || a in p.free)
    && (forall a :: a in p.live ==> a !in p.free)
    && NoRepeats(p.free)
  }

  ghost predicate Inv(p: Pool) { SoundBlocks(p) && SoundCursor(p) && Conserved(p) }

  // ---------- the steps keep it ----------

  lemma StartBounds(base: nat, slot: nat, blockSize: nat)
    requires Configured(slot, blockSize) && base % 8 == 0 && base + blockSize < WORDS
    ensures base + WORD <= Start(base, slot) && Start(base, slot) + slot <= base + blockSize
            && Start(base, slot) % 8 == 0
  {
    PaddingKeepsEight(base + WORD, slot);
  }

  lemma NewBlockKeeps(p: Pool, base: nat)
    requires Inv(p) && NeedsBlock(p) && FreshBlock(p, base)
    ensures Inv(NewBlock(p, base)) && NewBlock(p, base).cur < NewBlock(p, base).last
  {
    var q := NewBlock(p, base);
    StartBounds(base, p.slot, p.blockSize);
    hide Start;
    NewBlockCursor(p, base);
    NewBlockCarved(p, base);
  }

  lemma NewBlockBlocks(p: Pool, base: nat)
    requires SoundBlocks(p) && FreshBlock(p, base)
    ensures SoundBlocks(NewBlock(p, base))
  {
  }

  lemma NewBlockCursor(p: Pool, base: nat)
    requires SoundBlocks(p) && SoundCursor(p) && p.cur >= p.last && FreshBlock(p, base)
    ensures SoundBlocks(NewBlock(p, base)) && SoundCursor(NewBlock(p, base))
  {
    NewBlockBlocks(p, base);
    StartBounds(base, p.slot, p.blockSize);
    hide Start;
    var q := NewBlock(p, base);
    forall i | 1 <= i < |q.blocks|
      ensures SlotAt(q.blocks[i].base, q.slot, q.blocks[i].used) + q.slot > q.blocks[i].base + q.blockSize
    {
      assert q.blocks[i] == p.blocks[i - 1];
    }
  }

  /** Opening a block carves nothing. */
  lemma NewBlockCarved(p: Pool, base: nat)
    requires SoundBlocks(p) && FreshBlock(p, base) && SoundBlocks(NewBlock(p, base))
    ensures forall a :: Carved(NewBlock(p, base), a) <==> Carved(p, a)
  {
    hide Start;
    var q := NewBlock(p, base);
    forall a
      ensures Carved(q, a) <==> Carved(p, a)
    {
      if Carved(p, a) {
        var i: nat, k: nat :| CarvedAt(p, a, i, k);
        assert CarvedAt(q, a, i + 1, k);
      }
      if Carved(q, a) {
        var i: nat, k: nat :| CarvedAt(q, a, i, k);
        assert CarvedAt(p, a, i - 1, k);
      }
    }
  }

  lemma CarveCursor(p: Pool)
    requires SoundBlocks(p) && SoundCursor(p) && |p.blocks| > 0 && p.cur < p.last
    ensures SoundBlocks(Carve(p)) && SoundCursor(Carve(p))
  {
    hide Start;
    Steps(p.slot, p.blocks[0].used, 0);
  }

  lemma CarveCarved(p: Pool)
    requires SoundBlocks(p) && SoundCursor(p) && |p.blocks| > 0 && SoundBlocks(Carve(p))
    ensures forall a :: Carved(Carve(p), a) <==> Carved(p, a) || a == p.cur
  {
    hide Start;
    var q := Carve(p);
    forall a
      ensures Carved(q, a) <==> Carved(p, a) || a == p.cur
    {
      if Carved(p, a) {
        var i: nat, k: nat :| CarvedAt(p, a, i, k);
        assert CarvedAt(q, a, i, k);
      }
      if a == p.cur { assert CarvedAt(q, a, 0, p.blocks[0].used); }
      if Carved(q, a) {
        var i: nat, k: nat :| CarvedAt(q, a, i, k);
        assert CarvedAt(p, a, i, k) || a == p.cur;
      }
    }
  }

  /** Where a carved slot lies: inside its block, past the header, before the cursor. */
  lemma CarvedBounds(p: Pool, a: nat, i: nat, k: nat)
    requires SoundBlocks(p) && SoundCursor(p) && CarvedAt(p, a, i, k)
    ensures p.blocks[i].base + WORD <= a && a + p.slot <= p.blocks[i].base + p.blockSize && a % 8 == 0
    ensures a + p.slot <= SlotAt(p.blocks[i].base, p.slot, p.blocks[i].used)
  {
    StartBounds(p.blocks[i].base, p.slot, p.blockSize);
    Steps(p.slot, k, p.blocks[i].used);
    hide Start;
    MultipleOfEight(k, p.slot);
    SumEight(Start(p.blocks[i].base, p.slot), k * p.slot);
  }

  lemma MultipleOfEight(k: nat, slot: nat)
    requires slot % 8 == 0
    ensures (k * slot) % 8 == 0
  {
    assert slot == 8 * (slot / 8);
    assert k * slot == (k * (slot / 8)) * 8;
    ModShift(0, k * (slot / 8), 8);
  }

  lemma CursorIsFresh(p: Pool)
    requires SoundBlocks(p) && SoundCursor(p) && |p.blocks| > 0 && p.cur < p.last
    ensures !Carved(p, p.cur) && p.cur > 0
  {
    StartBounds(p.blocks[0].base, p.slot, p.blockSize);
    hide Start;
    assert forall i :: 0 < i < |p.blocks| ==> Apart(p.blocks[0].base, p.blockSize, p.blocks[i].base, p.blockSize);
    if Carved(p, p.cur) {
      var i: nat, k: nat :| CarvedAt(p, p.cur, i, k);
      CarvedBounds(p, p.cur, i, k);
    }
  }

  lemma CarveKeeps(p: Pool)
    requires Inv(p) && |p.blocks| > 0 && p.cur < p.last
    ensures Inv(Carve(p)) && p.cur !in p.live && p.cur !in p.free
  {
    hide Start, Carved, SoundBlocks, SoundCursor, SlotAt;
    CursorIsFresh(p);
    CarveCursor(p);
    CarveCarved(p);
  }

  lemma ReuseKeeps(p: Pool)
    requires Inv(p) && p.free != []
    ensures Inv(Reuse(p))
  {
    var q := Reuse(p);
    assert forall a, i: nat, k: nat :: CarvedAt(p, a, i, k) <==> CarvedAt(q, a, i, k);
    assert forall a :: Carved(p, a) <==> Carved(q, a);
    hide Start, Carved, SlotAt;
  }

  lemma DeallocateKeeps(p: Pool, a: nat)
    requires Inv(p) && (a == 0 || a in p.live)
    ensures Inv(Deallocate(p, a))
  {
    var q := Deallocate(p, a);
    assert forall b, i: nat, k: nat :: CarvedAt(p, b, i, k) <==> CarvedAt(q, b, i, k);
    assert forall b :: Carved(p, b) <==> Carved(q, b);
    hide Start, Carved, SlotAt;
  }

  /** allocate hands out a slot that was not live, and changes nothing else about the live ones.
      The free list it discards with a new block is empty. */
  lemma AllocateKeeps(p: Pool, base: nat)
    requires Inv(p) && (NeedsBlock(p) ==> FreshBlock(p, base))
    ensures var (a, q) := Allocate(p, base);
            && Inv(q) && a !in p.live && q.live == p.live + {a} && a > 0
            && q.slot == p.slot && q.blockSize == p.blockSize
  {
    hide Start, SlotAt, Carved;
    if p.free != [] {
      ReuseKeeps(p);
      assert Carved(p, p.free[0]);
      CarvedPositive(p, p.free[0]);
    } else if p.cur >= p.last {
      NewBlockKeeps(p, base);
      CursorIsFresh(NewBlock(p, base));
      CarveKeeps(NewBlock(p, base));
    } else {
      CursorIsFresh(p);
      CarveKeeps(p);
    }
  }

  lemma CarvedPositive(p: Pool, a: nat)
    requires SoundBlocks(p) && SoundCursor(p) && Carved(p, a)
    ensures a > 0
  {
    var i: nat, k: nat :| CarvedAt(p, a, i, k);
    CarvedBounds(p, a, i, k);
  }

  // ---------- runs ----------

  datatype Event = Alloc(base: nat) | Free(address: nat)

  /** Ready always holds in a sound pool. */
  predicate Ready(p: Pool) { Configured(p.slot, p.blockSize) && (|p.blocks| > 0 || p.cur >= p.last) }

  /** The system allocator answers, and only live slots are freed. */
  predicate Enabled(p: Pool, e: Event) {
    match e
    case Alloc(base) => Ready(p) && (NeedsBlock(p) ==> FreshBlock(p, base))
    case Free(a) => a == 0 || a in p.live
  }

  function Apply(p: Pool, e: Event): Pool
    requires Enabled(p, e)
  {
    match e
    case Alloc(base) => Allocate(p, base).1
    case Free(a) => Deallocate(p, a)
  }

  function Initial(slot: nat, blockSize: nat): Pool { Pool(slot, blockSize, [], 0, 0, [], {}) }

  predicate Run(ps: seq<Pool>, es: seq<Event>, slot: nat, blockSize: nat) {
    && |ps| == |es| + 1 && ps[0] == Initial(slot, blockSize)
    && forall i :: 0 <= i < |es| ==> Enabled(ps[i], es[i]) && ps[i + 1] == Apply(ps[i], es[i])
  }

  lemma InitialInv(slot: nat, blockSize: nat)
    requires Configured(slot, blockSize)
    ensures Inv(Initial(slot, blockSize))
  {
    var p := Initial(slot, blockSize);
    assert forall a, i: nat, k: nat :: !CarvedAt(p, a, i, k);
  }

  lemma {:induction false} InvRun(ps: seq<Pool>, es: seq<Event>, slot: nat, blockSize: nat, i: nat)
    requires Configured(slot, blockSize) && Run(ps, es, slot, blockSize) && i < |ps|
    ensures Inv(ps[i]) && ps[i].slot == slot && ps[i].blockSize == blockSize
  {
    hide Inv;
    InitialInv(slot, blockSize);
    if i > 0 {
      InvRun(ps, es, slot, blockSize, i - 1);
      var p := ps[i - 1];
      match es[i - 1]
      case Alloc(base) => AllocateKeeps(p, base);
      case Free(a) => DeallocateKeeps(p, a);
    }
  }

  // ---------- main results ----------

  lemma CarvedApart(p: Pool, a: nat, b: nat)
    requires SoundBlocks(p) && SoundCursor(p) && Carved(p, a) && Carved(p, b) && a != b
    ensures Apart(a, p.slot, b, p.slot)
  {
    var i: nat, k: nat :| CarvedAt(p, a, i, k);
    var j: nat, l: nat :| CarvedAt(p, b, j, l);
    CarvedBounds(p, a, i, k);
    CarvedBounds(p, b, j, l);
    if i == j {
      Steps(p.slot, k, l);
      Steps(p.slot, l, k);
    } else {
      assert i < j ==> Apart(p.blocks[i].base, p.blockSize, p.blocks[j].base, p.blockSize);
      assert j < i ==> Apart(p.blocks[j].base, p.blockSize, p.blocks[i].base, p.blockSize);
    }
    hide Start;
  }

  lemma CarvedInside(p: Pool, a: nat)
    requires SoundBlocks(p) && SoundCursor(p) && Carved(p, a)
    ensures a % 8 == 0
    ensures exists i :: 0 <= i < |p.blocks| &&
                        p.blocks[i].base + WORD <= a && a + p.slot <= p.blocks[i].base + p.blockSize
    ensures forall j :: 0 <= j < |p.blocks| ==> Apart(p.blocks[j].base, WORD, a, p.slot)
  {
    var i: nat, k: nat :| CarvedAt(p, a, i, k);
    CarvedBounds(p, a, i, k);
    assert forall j :: 0 <= j < i ==> Apart(p.blocks[j].base, p.blockSize, p.blocks[i].base, p.blockSize);
    assert forall j :: i < j < |p.blocks| ==> Apart(p.blocks[i].base, p.blockSize, p.blocks[j].base, p.blockSize);
    hide Start, SlotAt;
  }

  /** After any sequence of allocations and matching frees: slots in use are 8-aligned, pairwise
      disjoint, each inside one block and clear of every block header; and the slots carved so far
      are exactly the live ones and the free ones, without overlap. */
  lemma PoolIsSound(ps: seq<Pool>, es: seq<Event>, slot: nat, blockSize: nat, i: nat, a: nat)
    requires Configured(slot, blockSize) && Run(ps, es, slot, blockSize) && i < |ps| && a in ps[i].live
    ensures var p := ps[i];
            && a % 8 == 0
            && (forall b :: b in p.live && b != a ==> Apart(a, slot, b, slot))
            && (forall b :: b in p.free ==> Apart(a, slot, b, slot))
            && (exists j :: 0 <= j < |p.blocks| &&
                            p.blocks[j].base + WORD <= a && a + slot <= p.blocks[j].base + blockSize)
            && (forall j :: 0 <= j < |p.blocks| ==> Apart(p.blocks[j].base, WORD, a, slot))
            && SoundBlocks(p) && Conserved(p)
            && Ready(p)
  {
    InvRun(ps, es, slot, blockSize, i);
    var p := ps[i];
    hide Run;
    assert Carved(p, a);
    CarvedInside(p, a);
    forall b | b != a && (b in p.live || b in p.free)
      ensures Apart(a, slot, b, slot)
    {
      assert Carved(p, b);
      CarvedApart(p, a, b);
    }
    assert SoundBlocks(p) && Conserved(p) && Ready(p);
    hide Carved, SoundBlocks, SoundCursor;
  }

  /** Beyond 8 bytes: in a block past the first slot size, slots are aligned to their own size
      exactly for power-of-two sizes. */
  lemma FullyAlignedExactly(p: Pool, a: nat, i: nat, k: nat)
    requires SoundBlocks(p) && CarvedAt(p, a, i, k) && p.blocks[i].base + WORD > p.slot
    ensures a % p.slot == 0 <==> PowerOfTwo(p.slot)
  {
    var base := p.blocks[i].base;
    WordsIsPower();
    hide PowerOfTwo;
    AlignedExactly(base + WORD, p.slot);
    ModShift(Start(base, p.slot), k, p.slot);
    if PowerOfTwo(p.slot) { PowerDivides(p.slot, WORDS); }
    if WORDS % p.slot == 0 { DivisorIsPower(p.slot, WORDS); }
    hide PadPointer;
  }

  // ---------- memory is used before more is asked for ----------

  /** What was freed last is handed out next. */
  lemma FreedIsReusedFirst(p: Pool, a: nat, base: nat)
    requires Inv(p) && a in p.live && a > 0
    ensures Allocate(Deallocate(p, a), base).0 == a
    ensures var q := Allocate(Deallocate(p, a), base).1; q == p.(live := q.live) && q.live == p.live
  {
    hide Inv;
    assert ([a] + p.free)[1..] == p.free;
    assert p.live - {a} + {a} == p.live;
  }

  /** A further block is asked for only when every slot carved so far is in use and no block has room for
      another. */
  lemma NewBlockOnlyWhenFull(ps: seq<Pool>, es: seq<Event>, slot: nat, blockSize: nat, i: nat, a: nat)
    requires Configured(slot, blockSize) && Run(ps, es, slot, blockSize) && i < |es|
    requires |ps[i + 1].blocks| != |ps[i].blocks|
    ensures SoundBlocks(ps[i]) && (Carved(ps[i], a) ==> a in ps[i].live)
    ensures forall k :: 0 <= k < |ps[i].blocks| ==> !HasRoom(ps[i], k)
  {
    InvRun(ps, es, slot, blockSize, i);
    assert Enabled(ps[i], es[i]) && ps[i + 1] == Apply(ps[i], es[i]);
    hide Run, Carved, Apply, Enabled;
    BlocksGrow(ps[i], es[i]);
    LastBlockIsFull(ps[i]);
  }

  /** Another slot fits behind those already carved from the block. */
  predicate HasRoom(p: Pool, k: nat)
    requires SoundBlocks(p) && k < |p.blocks|
  {
    SlotAt(p.blocks[k].base, p.slot, p.blocks[k].used) + p.slot <= p.blocks[k].base + p.blockSize
  }

  lemma BlocksGrow(p: Pool, e: Event)
    requires Inv(p) && Enabled(p, e) && |Apply(p, e).blocks| != |p.blocks|
    ensures NeedsBlock(p)
  {
    hide Inv, Start;
  }

  lemma LastBlockIsFull(p: Pool)
    requires SoundBlocks(p) && SoundCursor(p) && p.cur >= p.last
    ensures forall k :: 0 <= k < |p.blocks| ==> !HasRoom(p, k)
  {
    hide SlotAt;
  }
}
