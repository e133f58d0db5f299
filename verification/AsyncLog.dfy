/** The double-buffered asynchronous log: front-end threads append lines under a lock, the back-end
    thread exchanges buffers, writes a batch and recycles two of its buffers. */
module AsyncLog {
  import opened Wrappers

  type Byte = bv8

  // kLargeBufferSize
  const CAPACITY := 4_000_000

  /** Where the back-end thread stands. */
  datatype Phase = AtLock | Writing(done: nat) | Recycling | Testing | Exited

  /** Owned buffers are Some; a moved-from pointer is None. accepted records the bytes appended so
      far, in lock order. */
  datatype Log = Log(current: Option<seq<Byte>>, next: Option<seq<Byte>>, buffers: seq<seq<Byte>>,
                     new1: Option<seq<Byte>>, new2: Option<seq<Byte>>, batch: seq<seq<Byte>>,
                     phase: Phase, running: bool, output: seq<Byte>, accepted: seq<Byte>)

  function Concat(bs: seq<seq<Byte>>): seq<Byte> { if bs == [] then [] else Concat(bs[..|bs| - 1]) + bs[|bs| - 1] }

  lemma {:induction false} ConcatSplit(a: seq<seq<Byte>>, b: seq<seq<Byte>>)
    ensures Concat(a + b) == Concat(a) + Concat(b)
  {
    if b == [] {
      assert a + b == a;
    } else {
      assert (a + b)[..|a + b| - 1] == a + b[..|b| - 1];
      ConcatSplit(a, b[..|b| - 1]);
    }
  }

  // ---------- steps ----------

  /** FixedBuffer::append: a line that does not fit is silently dropped. */
  function Put(buffer: seq<Byte>, line: seq<Byte>): seq<Byte> {
    if CAPACITY - |buffer| > |line| then buffer + line else buffer
  }

  /** The bytes of a line that reach the log: all, or none for a line of CAPACITY bytes or more. */
  function Kept(line: seq<Byte>): seq<Byte> { if |line| < CAPACITY then line else [] }

  datatype Event = Append(line: seq<Byte>) | Stop | Swap | WriteOne | EndWriting | Recycle | Test

  /** The two pops take an element each time. */
  predicate PopsSafe(c: Log) {
    var n := (if |c.batch| > 2 then 2 else |c.batch|);
    n >= (if c.new1.None? then 1 else 0) + if c.new2.None? then 1 else 0
  }

  /** A step that would dereference a missing buffer is not enabled; BuffersAreThere shows that none
      ever would. */
  predicate Enabled(c: Log, e: Event) {
    match e
    case Append(_) => c.current.Some?
    case Stop => true
    case Swap => c.phase.AtLock? && c.current.Some? && c.new1.Some?
    case WriteOne => c.phase.Writing? && c.phase.done < |c.batch|
    case EndWriting => c.phase.Writing? && c.phase.done == |c.batch|
    case Recycle => c.phase.Recycling? && PopsSafe(c)
    case Test => c.phase.Testing?
  }

  function Appended(c: Log, line: seq<Byte>): Log
    requires c.current.Some?
  {
    var d := c.(accepted := c.accepted + Kept(line));
    if CAPACITY - |c.current.value| > |line| then d.(current := Some(Put(c.current.value, line)))
    else d.(buffers := c.buffers + [c.current.value], next := None,
            current := Some(Put(if c.next.Some? then c.next.value else [], line)))
  }

  function Swapped(c: Log): Log
    requires c.current.Some?
  {
    c.(batch := c.buffers + [c.current.value], buffers := [], current := c.new1, new1 := None,
       next := if c.next.None? then c.new2 else c.next, new2 := if c.next.None? then None else c.new2,
       phase := Writing(0))
  }

  function Apply(c: Log, e: Event): Log
    requires Enabled(c, e)
  {
    match e
    case Append(line) => Appended(c, line)
    case Stop => c.(running := false)
    case Swap => Swapped(c)
    case WriteOne => c.(output := c.output + c.batch[c.phase.done], phase := Writing(c.phase.done + 1))
    case EndWriting => c.(phase := Recycling)
    case Recycle =>
      c.(new1 := if c.new1.None? then Some([]) else c.new1, new2 := if c.new2.None? then Some([]) else c.new2,
         batch := [], phase := Testing)
    case Test => c.(phase := if c.running then AtLock else Exited)
  }

  function Initial(): Log { Log(Some([]), Some([]), [], Some([]), Some([]), [], AtLock, true, [], []) }

  predicate Run(cs: seq<Log>, es: seq<Event>) {
    && |cs| == |es| + 1 && cs[0] == Initial()
    && forall i :: 0 <= i < |es| ==> Enabled(cs[i], es[i]) && cs[i + 1] == Apply(cs[i], es[i])
  }

  // ---------- buffers ----------

  predicate Empty(b: Option<seq<Byte>>) { b.Some? ==> b.value == [] }

  /** Who owns what in each phase; spare buffers are empty. */
  predicate Owned(c: Log) {
    && c.current.Some? && |c.current.value| < CAPACITY
    && (c.next.None? ==> |c.buffers| > 0)
    && Empty(c.next) && Empty(c.new1) && Empty(c.new2)
    && match c.phase
       case Writing(done) => c.new1.None? && done <= |c.batch| && |c.batch| >= 1 && (c.new2.None? ==> |c.batch| >= 2)
       case Recycling => c.new1.None? && |c.batch| >= 1 && (c.new2.None? ==> |c.batch| >= 2)
       case _ => c.new1.Some? && c.new2.Some? && c.batch == []
  }

  lemma OwnedStep(c: Log, e: Event)
    requires Owned(c) && Enabled(c, e)
    ensures Owned(Apply(c, e))
  {
  }

  lemma {:induction false} OwnedRun(cs: seq<Log>, es: seq<Event>, i: nat)
    requires Run(cs, es) && i < |cs|
    ensures Owned(cs[i])
  {
    if i > 0 {
      hide Owned, Apply, Enabled;
      OwnedRun(cs, es, i - 1);
      OwnedStep(cs[i - 1], es[i - 1]);
    }
  }

  /** In every reachable state the front end owns a current buffer, the back end has its replacement
      ready at the exchange, and both pops from the batch find a buffer. */
  lemma BuffersAreThere(cs: seq<Log>, es: seq<Event>, i: nat)
    requires Run(cs, es) && i < |cs|
    ensures cs[i].current.Some?
    ensures cs[i].phase.AtLock? ==> Enabled(cs[i], Swap)
    ensures cs[i].phase.Recycling? ==> PopsSafe(cs[i])
  {
    OwnedRun(cs, es, i);
  }

  // ---------- conservation ----------

  function Unwritten(c: Log): seq<seq<Byte>> {
    if c.phase.Writing? && c.phase.done <= |c.batch| then c.batch[c.phase.done..] else []
  }

  /** Written, in the batch, in filled buffers and in the current buffer: everything accepted, in
      order. */
  predicate Conserved(c: Log) {
    c.current.Some? && c.output + Concat(Unwritten(c)) + Concat(c.buffers) + c.current.value == c.accepted
  }

  lemma Regroup(a: seq<Byte>, b: seq<Byte>, c: seq<Byte>, d: seq<Byte>)
    ensures a + b + (c + d) == a + b + c + d
    ensures a + (b + c) + d == a + b + c + d
  {
  }

  lemma ConcatOne(bs: seq<seq<Byte>>, b: seq<Byte>)
    ensures Concat(bs + [b]) == Concat(bs) + b
  {
    assert (bs + [b])[..|bs|] == bs;
  }

  lemma AppendConserves(c: Log, line: seq<Byte>)
    requires Owned(c) && Conserved(c)
    ensures Conserved(Appended(c, line))
  {
    hide Concat, Unwritten;
    var d := Appended(c, line);
    var before := c.output + Concat(Unwritten(c));
    SameUnwritten(c, d);
    ConcatOne(c.buffers, c.current.value);
    Regroup(before, Concat(c.buffers), c.current.value, Kept(line));
    assert [] + Kept(line) == Kept(line);
  }

  lemma SameUnwritten(c: Log, d: Log)
    requires c.phase == d.phase && c.batch == d.batch
    ensures Unwritten(c) == Unwritten(d)
  {
  }

  lemma SwapConserves(c: Log)
    requires Owned(c) && Conserved(c) && c.phase.AtLock?
    ensures Conserved(Swapped(c))
  {
    var d := Swapped(c);
    ConcatSplit(c.buffers, [c.current.value]);
    assert Concat([c.current.value]) == c.current.value;
    assert d.batch[0..] == d.batch;
    assert c.output + [] + Concat(c.buffers) + c.current.value ==
           c.output + (Concat(c.buffers) + c.current.value) + [] + [];
  }

  lemma ConcatTail(bs: seq<seq<Byte>>, k: nat)
    requires k < |bs|
    ensures Concat(bs[k..]) == bs[k] + Concat(bs[k + 1..])
  {
    assert bs[k..] == [bs[k]] + bs[k + 1..];
    ConcatSplit([bs[k]], bs[k + 1..]);
    assert Concat([bs[k]]) == bs[k];
  }

  lemma WriteConserves(c: Log)
    requires Conserved(c) && Enabled(c, WriteOne)
    ensures Conserved(Apply(c, WriteOne))
  {
    hide Concat;
    var k := c.phase.done;
    ConcatTail(c.batch, k);
    assert c.output + (c.batch[k] + Concat(c.batch[k + 1..])) == c.output + c.batch[k] + Concat(c.batch[k + 1..]);
  }

  lemma ConservedStep(c: Log, e: Event)
    requires Owned(c) && Conserved(c) && Enabled(c, e)
    ensures Conserved(Apply(c, e))
  {
    hide Appended, Swapped;
    match e
    case Append(line) => AppendConserves(c, line);
    case Swap => SwapConserves(c);
    case WriteOne => WriteConserves(c);
    case EndWriting => assert Unwritten(c) == [];
    case _ =>
  }

  lemma {:induction false} ConservedRun(cs: seq<Log>, es: seq<Event>, i: nat)
    requires Run(cs, es) && i < |cs|
    ensures Conserved(cs[i])
  {
    if i > 0 {
      hide Owned, Conserved, Apply, Enabled;
      ConservedRun(cs, es, i - 1);
      OwnedRun(cs, es, i - 1);
      ConservedStep(cs[i - 1], es[i - 1]);
    }
  }

  /** What reached the log, from the run's appends. */
  function AcceptedBy(es: seq<Event>): seq<Byte> {
    if es == [] then [] else AcceptedBy(es[..|es| - 1]) + if es[|es| - 1].Append? then Kept(es[|es| - 1].line) else []
  }

  lemma {:induction false} AcceptedRun(cs: seq<Log>, es: seq<Event>, i: nat)
    requires Run(cs, es) && i < |cs|
    ensures cs[i].accepted == AcceptedBy(es[..i])
  {
    if i > 0 {
      AcceptedRun(cs, es, i - 1);
      assert es[..i][..i - 1] == es[..i - 1];
      hide Kept, Put;
    }
  }

  /** In every interleaving: written output, batch, filled buffers and current buffer together are
      the appended lines in lock order; so the output is a prefix of them. */
  lemma NothingLostWhileRunning(cs: seq<Log>, es: seq<Event>, i: nat)
    requires Run(cs, es) && i < |cs|
    ensures var c := cs[i];
            && c.current.Some?
            && c.output + Concat(Unwritten(c)) + Concat(c.buffers) + c.current.value == AcceptedBy(es[..i])
            && c.output <= AcceptedBy(es[..i])
  {
    ConservedRun(cs, es, i);
    AcceptedRun(cs, es, i);
    var c := cs[i];
    assert c.output <= c.output + (Concat(Unwritten(c)) + Concat(c.buffers) + c.current.value);
    assert c.output + (Concat(Unwritten(c)) + Concat(c.buffers) + c.current.value)
        == c.output + Concat(Unwritten(c)) + Concat(c.buffers) + c.current.value;
  }

  // ---------- what is lost at exit ----------

  /** Since the swap at i: what had been accepted then is written or in the batch. */
  lemma {:induction false} SinceSwap(cs: seq<Log>, es: seq<Event>, i: nat, j: nat)
    requires Run(cs, es) && i < j < |cs| && es[i].Swap? && forall k :: i < k < j ==> !es[k].Swap?
    ensures cs[j].output + Concat(Unwritten(cs[j])) == cs[i].accepted
    decreases j
  {
    ConservedRun(cs, es, i);
    OwnedRun(cs, es, i);
    ConservedRun(cs, es, j);
    if j == i + 1 {
      SwapConserves(cs[i]);
      var d := cs[j];
      assert d.output + Concat(Unwritten(d)) + [] + [] == d.output + Concat(Unwritten(d));
    } else {
      SinceSwap(cs, es, i, j - 1);
      var c, e := cs[j - 1], es[j - 1];
      hide Run, Conserved, Owned;
      assert Enabled(c, e) && cs[j] == Apply(c, e) by { assert !es[j - 1].Swap?; StepAt(cs, es, j - 1); }
      OutputStep(c, e);
    }
  }

  lemma StepAt(cs: seq<Log>, es: seq<Event>, i: nat)
    requires Run(cs, es) && i < |es|
    ensures Enabled(cs[i], es[i]) && cs[i + 1] == Apply(cs[i], es[i])
  {
  }

  lemma OutputStep(c: Log, e: Event)
    requires Enabled(c, e) && !e.Swap?
    ensures var d := Apply(c, e); d.output + Concat(Unwritten(d)) == c.output + Concat(Unwritten(c))
  {
    hide Concat, Kept, Put;
    match e
    case WriteOne =>
      var k := c.phase.done;
      ConcatTail(c.batch, k);
      assert c.output + (c.batch[k] + Concat(c.batch[k + 1..])) == c.output + c.batch[k] + Concat(c.batch[k + 1..]);
    case EndWriting => assert Unwritten(c) == [];
    case _ =>
  }

  lemma {:induction false} AcceptedSince(es: seq<Event>, i: nat, j: nat)
    requires i <= j <= |es|
    ensures |AcceptedBy(es[..i])| <= |AcceptedBy(es[..j])|
    ensures AcceptedBy(es[..i]) == AcceptedBy(es[..j]) <==>
            forall k :: i <= k < j && es[k].Append? ==> Kept(es[k].line) == []
    decreases j
  {
    if i < j {
      AcceptedSince(es, i, j - 1);
      assert es[..j][..j - 1] == es[..j - 1] && es[..j][j - 1] == es[j - 1];
      hide Kept;
    }
  }

  /** Exactly what was appended after the last exchange is missing from the finished log; it is
      complete just when nothing that fits a buffer was appended after it. */
  lemma LostExactlySinceLastSwap(cs: seq<Log>, es: seq<Event>, i: nat, j: nat)
    requires Run(cs, es) && i < j < |cs| && es[i].Swap? && (forall k :: i < k < j ==> !es[k].Swap?)
    requires cs[j].phase.Exited?
    ensures cs[j].output == AcceptedBy(es[..i])
    ensures cs[j].output == AcceptedBy(es[..j]) <==> forall k :: i <= k < j && es[k].Append? ==> Kept(es[k].line) == []
  {
    assert j <= |es|;
    hide Run, AcceptedBy, Kept;
    SinceSwap(cs, es, i, j);
    AcceptedRun(cs, es, i);
    AcceptedSince(es, i, j);
  }

  /** The back end was still to make an exchange, and this is its last one. */
  lemma {:induction false} LastSwap(cs: seq<Log>, es: seq<Event>, i: nat, j: nat) returns (k: nat)
    requires Run(cs, es) && i <= j < |cs| && cs[i].phase.AtLock? && !cs[j].phase.AtLock?
    ensures i <= k < j && es[k].Swap? && forall m :: k < m < j ==> !es[m].Swap?
    decreases j
  {
    StepAt(cs, es, j - 1);
    hide Run;
    if es[j - 1].Swap? {
      k := j - 1;
    } else {
      k := LastSwap(cs, es, i, j - 1);
    }
  }

  lemma {:induction false} AcceptedGrows(cs: seq<Log>, es: seq<Event>, i: nat, j: nat)
    requires Run(cs, es) && i <= j < |cs|
    ensures cs[i].accepted <= cs[j].accepted
    decreases j
  {
    if i < j { AcceptedGrows(cs, es, i, j - 1); }
  }

  /** A stop that finds the back end waiting for its next exchange loses nothing appended before it. */
  lemma StopWhileWaitingDelivers(cs: seq<Log>, es: seq<Event>, i: nat, j: nat)
    requires Run(cs, es) && i < j < |cs| && es[i].Stop? && cs[i].phase.AtLock? && cs[j].phase.Exited?
    ensures AcceptedBy(es[..i]) <= cs[j].output
  {
    var k := LastSwap(cs, es, i, j);
    LostExactlySinceLastSwap(cs, es, k, j);
    AcceptedRun(cs, es, i);
    AcceptedRun(cs, es, k);
    AcceptedGrows(cs, es, i, k);
  }

  /** A stop during a write can lose a line appended before it. */
  lemma StopWhileWritingLoses(line: seq<Byte>) returns (cs: seq<Log>, es: seq<Event>)
    requires 0 < |line| < CAPACITY
    ensures Run(cs, es) && |es| == 7 && es[1] == Append(line) && es[2].Stop?
    ensures cs[7].phase.Exited? && cs[7].output == [] && AcceptedBy(es) == line
  {
    es := [Swap, Append(line), Stop, WriteOne, EndWriting, Recycle, Test];
    var c0 := Initial();
    var c1 := Apply(c0, Swap);
    var c2 := Apply(c1, Append(line));
    assert [] + line == line;
    assert c2 == Log(Some(line), Some([]), [], None, Some([]), [[]], Writing(0), true, [], line);
    var c3 := c2.(running := false);
    var c4 := c3.(phase := Writing(1));
    var c5 := c4.(phase := Recycling);
    var c6 := Apply(c5, Recycle);
    cs := [c0, c1, c2, c3, c4, c5, c6, c6.(phase := Exited)];
    AcceptedRun(cs, es, 7);
    assert es[..7] == es;
  }

  // ---------- the end of the thread, and the spare buffer ----------

  /** The back-end thread is past its last test exactly when that test came after a stop: it never gives up
      before, and never goes on after. */
  lemma {:induction false} ExitsExactly(cs: seq<Log>, es: seq<Event>, i: nat)
    requires Run(cs, es) && |cs| == |es| + 1 && i < |cs|
    ensures cs[i].running <==> Stop !in es[..i]
    ensures i > 0 && es[i - 1].Test? ==> (cs[i].phase.Exited? <==> Stop in es[..i - 1])
    ensures cs[i].phase.Exited? ==> Stop in es[..i]
  {
    if i > 0 {
      ExitsExactly(cs, es, i - 1);
      StepAt(cs, es, i - 1);
      assert es[..i] == es[..i - 1] + [es[i - 1]];
      hide Run, Swapped, Appended;
      assert Stop in es[..i - 1] ==> Stop in es[..i];
    }
  }

  /** The front end's spare buffer is gone exactly while a filled buffer waits for the exchange: it is used
      for the first line that does not fit, once, and each exchange brings another. */
  lemma {:induction false} SpareUsedOnce(cs: seq<Log>, es: seq<Event>, i: nat)
    requires Run(cs, es) && i < |cs|
    ensures cs[i].next.Some? <==> cs[i].buffers == []
  {
    if i > 0 {
      SpareUsedOnce(cs, es, i - 1);
      OwnedRun(cs, es, i - 1);
      StepAt(cs, es, i - 1);
      hide Run, Put, Kept, Concat;
    }
  }

  // ---------- the object ----------

  /** The file after the first i buffers of a batch. */
  ghost function Written(output: seq<Byte>, batch: seq<seq<Byte>>, i: nat): seq<Byte>
    requires i <= |batch|
  {
    output + Concat(batch[..i])
  }

  lemma WrittenEnds(output: seq<Byte>, batch: seq<seq<Byte>>)
    ensures Written(output, batch, 0) == output && Written(output, batch, |batch|) == output + Concat(batch)
  {
    assert batch[..|batch|] == batch;
  }

  lemma WrittenNext(output: seq<Byte>, batch: seq<seq<Byte>>, i: nat)
    requires i < |batch|
    ensures Written(output, batch, i + 1) == Written(output, batch, i) + batch[i]
  {
    hide Concat;
    assert batch[..i + 1] == batch[..i] + [batch[i]];
    ConcatOne(batch[..i], batch[i]);
    assert output + (Concat(batch[..i]) + batch[i]) == output + Concat(batch[..i]) + batch[i];
  }

  /** The logger's buffers, moved between the front-end members, the back-end thread's locals and
      its batch. */
  class AsyncLogging {
    var currentBuffer: Option<seq<Byte>>
    var nextBuffer: Option<seq<Byte>>
    var buffers: seq<seq<Byte>>
    var newBuffer1: Option<seq<Byte>>
    var newBuffer2: Option<seq<Byte>>
    var buffersToWrite: seq<seq<Byte>>
    var running: bool
    var output: seq<Byte>
    ghost var phase: Phase
    ghost var accepted: seq<Byte>

    ghost function View(): Log
      reads this
    {
      Log(currentBuffer, nextBuffer, buffers, newBuffer1, newBuffer2, buffersToWrite, phase, running, output, accepted)
    }

    ghost predicate Valid()
      reads this
    {
      Owned(View()) && Conserved(View())
    }

    constructor ()
      ensures Valid() && View() == Initial()
    {
      currentBuffer, nextBuffer, buffers, newBuffer1, newBuffer2 := Some([]), Some([]), [], Some([]), Some([]);
      buffersToWrite, running, output, phase, accepted := [], true, [], AtLock, [];
    }

    method AppendLine(line: seq<Byte>)
      requires Valid()
      modifies this
      ensures Valid() && View() == Appended(old(View()), line)
    {
      OwnedStep(View(), Append(line));
      AppendConserves(View(), line);
      hide Owned, Conserved;
      accepted := accepted + Kept(line);
      if CAPACITY - |currentBuffer.value| > |line| {
        currentBuffer := Some(Put(currentBuffer.value, line));
      } else {
        buffers := buffers + [currentBuffer.value];
        currentBuffer := None;
        if nextBuffer.Some? {
          currentBuffer, nextBuffer := nextBuffer, None;
        } else {
          currentBuffer := Some([]);
        }
        currentBuffer := Some(Put(currentBuffer.value, line));
      }
    }

    /** The exchange under the lock. */
    method Exchange()
      requires Valid() && phase.AtLock?
      modifies this
      ensures Valid() && View() == Swapped(old(View()))
    {
      OwnedStep(View(), Swap);
      SwapConserves(View());
      assert buffersToWrite == [];
      hide Owned, Conserved;
      buffers := buffers + [currentBuffer.value];
      currentBuffer, newBuffer1 := newBuffer1, None;
      if nextBuffer.None? {
        nextBuffer, newBuffer2 := newBuffer2, None;
      }
      buffersToWrite, buffers := buffers, buffersToWrite;
      phase := Writing(0);
    }

    method WriteBuffer(i: nat)
      requires Valid() && phase == Writing(i) && i < |buffersToWrite|
      modifies `output, `phase
      ensures Valid() && output == old(output) + buffersToWrite[i] && phase == Writing(i + 1)
    {
      hide Conserved, Concat;
      OwnedStep(View(), WriteOne);
      ConservedStep(View(), WriteOne);
      hide Owned;
      output := output + buffersToWrite[i];
      phase := Writing(i + 1);
    }

    /** The whole batch goes to the file, in order. */
    method WriteBatch()
      requires Valid() && phase == Writing(0)
      modifies `output, `phase
      ensures Valid() && output == old(output) + Concat(buffersToWrite) && phase == Recycling
    {
      WrittenEnds(output, buffersToWrite);
      hide Owned, Conserved, Concat, Written;
      var i := 0;
      while i < |buffersToWrite|
        invariant 0 <= i <= |buffersToWrite|
        invariant Valid() && output == Written(old(output), buffersToWrite, i) && phase == Writing(i)
        modifies `output, `phase
      {
        WrittenNext(old(output), buffersToWrite, i);
        WriteBuffer(i);
        i := i + 1;
      }
      FinishWriting();
    }

    ghost method FinishWriting()
      requires Valid() && phase == Writing(|buffersToWrite|)
      modifies `phase
      ensures Valid() && phase == Recycling
    {
      hide Conserved;
      OwnedStep(View(), EndWriting);
      ConservedStep(View(), EndWriting);
      hide Owned;
      phase := Recycling;
    }

    /** Both spare buffers are back, emptied, without popping from an empty batch. */
    method RecycleBuffers()
      requires Valid() && phase.Recycling?
      modifies this
      ensures Valid() && View() == Apply(old(View()), Recycle)
    {
      OwnedStep(View(), Recycle);
      ConservedStep(View(), Recycle);
      ghost var c := View();
      if |buffersToWrite| > 2 {
        buffersToWrite := buffersToWrite[..2];
      }
      if newBuffer1.None? {
        buffersToWrite := buffersToWrite[..|buffersToWrite| - 1];
        newBuffer1 := Some([]);
      }
      if newBuffer2.None? {
        buffersToWrite := buffersToWrite[..|buffersToWrite| - 1];
        newBuffer2 := Some([]);
      }
      hide Owned, Conserved;
      buffersToWrite := [];
      phase := Testing;
    }
  }
}
