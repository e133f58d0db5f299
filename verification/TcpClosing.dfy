/** When a connection half-closes, when it asks for writable events, and when bytes are lost: each
    exactly, over every run and every pattern of kernel answers. */
module TcpClosing {
  import opened Wrappers
  import opened TcpOutput

  // ---------- half-close is not forgotten ----------

  /** Shut down, with nothing on its way that would half-close it, and not half-closed. */
  predicate Overlooked(c: Conn) { c.status.Disconnecting? && !c.shutdownQueued && !c.writing && !c.halfClosed }

  /** A file that arrives after the shutdown takes the place of one that the socket had stalled, and is
      sent or given up on the spot. */
  predicate EndsOnArrival(w: World, e: Event) {
    && e.FileArrives? && w.conn.status.Disconnecting? && !w.conn.shutdownQueued && !w.conn.halfClosed
    && w.conn.writing && w.conn.out == []
    && (e.a.PipeError? || e.a.OtherError? || (if e.a.Took? then e.a.n else 0) >= e.file.left)
  }

  lemma OverlookedStep(w: World, e: Event)
    requires Enabled(w, e)
    ensures Overlooked(Apply(w, e).conn) ==> Overlooked(w.conn) || EndsOnArrival(w, e)
    ensures EndsOnArrival(w, e) ==> Overlooked(Apply(w, e).conn)
  {
  }

  /** A connection that is shut down, has no shutdown under way and no write interest is half-closed, as
      long as no file ended on its arrival; and every such file leaves it without. */
  lemma {:induction false} HalfClosedWhenIdle(ws: seq<World>, es: seq<Event>, i: nat)
    requires Run(ws, es) && i < |ws|
    ensures (forall j :: 0 <= j < i ==> !EndsOnArrival(ws[j], es[j])) ==> !Overlooked(ws[i].conn)
    ensures i > 0 && EndsOnArrival(ws[i - 1], es[i - 1]) ==> Overlooked(ws[i].conn)
  {
    hide Apply, Enabled, EndsOnArrival;
    if i > 0 {
      HalfClosedWhenIdle(ws, es, i - 1);
      OverlookedStep(ws[i - 1], es[i - 1]);
    }
  }

  /** The writable event that empties the output of a connection being shut down half-closes it, unless a
      file is still to be sent. */
  lemma DrainHalfCloses(w: World, a: Answer, fa: Answer)
    requires Enabled(w, Writable(a, fa)) && Interested(w.conn) && w.conn.status.Disconnecting? && w.conn.out != []
    requires var v := Apply(w, Writable(a, fa)); v.conn.out == [] && v.conn.file.None?
    ensures var v := Apply(w, Writable(a, fa)); v.conn.halfClosed && !v.conn.writing
  {
  }

  /** So it is in every run: the socket taking everything, what was shut down with output left ends
      half-closed in that very step. */
  lemma LastByteHalfCloses(ws: seq<World>, es: seq<Event>, i: nat)
    requires Run(ws, es) && i < |es| && es[i].Writable? && ws[i].conn.status.Disconnecting?
    requires ws[i].conn.out != [] && ws[i + 1].conn.out == [] && ws[i + 1].conn.file.None?
    ensures ws[i + 1].conn.halfClosed && !ws[i + 1].conn.writing
  {
    InterestedRun(ws, es, i);
    hide Interested;
    DrainHalfCloses(ws[i], es[i].a, es[i].fa);
  }

  /** A shutdown with nothing left to write half-closes at once, in the loop or on arrival. */
  lemma ShutdownHalfCloses(w: World)
    requires !w.conn.writing
    ensures w.conn.status.Connected? ==>
              Apply(w, Shutdown).conn.halfClosed && Apply(w, Shutdown).conn.status.Disconnecting?
    ensures w.conn.shutdownQueued ==> Apply(w, ShutdownArrives).conn.halfClosed
  {
  }

  /** The steps that half-close: the shutdown of a connected connection with nothing to write, here or on its
      arrival, and the writable event that leaves nothing to write after a shutdown. */
  predicate HalfCloses(w: World, e: Event)
    requires Enabled(w, e)
  {
    match e
    case Shutdown => w.conn.status.Connected? && !w.conn.writing
    case ShutdownArrives => !w.conn.writing
    case Writable(a, _) =>
      && w.conn.status.Disconnecting? && w.conn.writing && 0 < TookBytes(a) == |w.conn.out|
      && Apply(w, e).conn.file.None?
    case _ => false
  }

  lemma HalfCloseStep(w: World, e: Event)
    requires Enabled(w, e)
    ensures Apply(w, e).conn.halfClosed <==> w.conn.halfClosed || HalfCloses(w, e)
  {
    hide SendInLoop, SendFileInLoop, PendingSent;
    match e
    case SendCall(data, a) => SendKeeps(w, data, a);
    case SendArrives(data, a) => SendKeeps(w, data, a);
    case FileCall(f, a) => FileKeeps(w, f, a);
    case FileArrives(f, a) => FileKeeps(w, f, a);
    case Writable(a, fa) => if w.conn.writing && TookBytes(a) > 0 { SentKeeps(Drained(w, a.n), fa); }
    case _ =>
  }

  /** Sending leaves the state of the connection alone. */
  predicate SameState(c: Conn, d: Conn) {
    d.status == c.status && d.halfClosed == c.halfClosed && d.shutdownQueued == c.shutdownQueued
  }

  lemma SendKeeps(w: World, data: seq<Byte>, a: Answer)
    requires Possible(w, a, |data|)
    ensures SameState(w.conn, SendInLoop(w, data, a).conn)
  {
  }

  lemma SentKeeps(w: World, a: Answer)
    requires Possible(w, a, |FileData(w.conn)|)
    ensures SameState(w.conn, PendingSent(w, a).conn)
    ensures PendingSent(w, a).conn.out == w.conn.out
    ensures PendingSent(w, a).conn.file.Some? ==> PendingSent(w, a).conn.writing == w.conn.writing
  {
  }

  lemma FileKeeps(w: World, f: PendingFile, a: Answer)
    requires Possible(w, a, |f.data|)
    ensures SameState(w.conn, SendFileInLoop(w, f, a).conn)
  {
    SentKeeps(FileQueued(w, f), a);
    hide PendingSent;
  }

  /** The write side is half-closed exactly if one of those steps was taken. */
  lemma {:induction false} HalfClosedExactly(ws: seq<World>, es: seq<Event>, i: nat)
    requires Run(ws, es) && i < |ws|
    ensures ws[i].conn.halfClosed <==> exists j :: 0 <= j < i && HalfCloses(ws[j], es[j])
  {
    hide Apply, HalfCloses;
    if i > 0 {
      HalfClosedExactly(ws, es, i - 1);
      HalfCloseStep(ws[i - 1], es[i - 1]);
    }
  }

  /** It can be forgotten: a file stalls, the connection is shut down, and another file sent from a
      different thread before that arrives and is sent at once. */
  lemma HalfCloseForgotten(f: PendingFile, g: PendingFile) returns (ws: seq<World>, es: seq<Event>)
    requires f.fd != g.fd && |f.data| <= f.left && f.left > 0 && g.left == |g.data| > 0
    ensures Run(ws, es) && |es| == 3 && Overlooked(ws[3].conn) && ws[3].conn.file.None? && ws[3].conn.out == []
  {
    hide Apply, Enabled, Initial, Blocked, Overlooked, EndsOnArrival, SendFile;
    var e1, e2, e3 := FileCall(f, WouldBlock), Shutdown, FileArrives(g, Took(|g.data|));
    var w1, w2 := Blocked(f), Stalled(f);
    BlockedFirst(f);
    StalledNext(f, g);
    OverlookedStep(w2, e3);
    EndedFile(w2, g);
    var w3 := Apply(w2, e3);
    ws, es := [Initial(), w1, w2, w3], [e1, e2, e3];
    ThreeSteps(w1, w2, w3, e1, e2, e3);
  }

  /** Shut down with a stalled file. */
  function Stalled(f: PendingFile): World { Blocked(f).(conn := Blocked(f).conn.(status := Disconnecting)) }

  lemma BlockedFirst(f: PendingFile)
    requires |f.data| <= f.left && f.left > 0
    ensures Enabled(Initial(), FileCall(f, WouldBlock)) && Apply(Initial(), FileCall(f, WouldBlock)) == Blocked(f)
  {
    hide SendFile;
    BlockedIsReached(f);
  }

  lemma StalledNext(f: PendingFile, g: PendingFile)
    requires f.fd != g.fd && g.left == |g.data| > 0
    ensures Enabled(Blocked(f), Shutdown) && Apply(Blocked(f), Shutdown) == Stalled(f)
    ensures Enabled(Stalled(f), FileArrives(g, Took(|g.data|)))
    ensures EndsOnArrival(Stalled(f), FileArrives(g, Took(|g.data|)))
    ensures Stalled(f).conn.out == [] && !Stalled(f).conn.status.Disconnected?
  {
  }

  lemma EndedFile(w: World, g: PendingFile)
    requires w.conn.out == [] && !w.conn.status.Disconnected? && Enabled(w, FileArrives(g, Took(|g.data|)))
    requires g.left == |g.data| > 0
    ensures var v := Apply(w, FileArrives(g, Took(|g.data|))); v.conn.file.None? && v.conn.out == []
  {
  }

  // ---------- tear-down ----------

  predicate TearsDown(w: World, e: Event) { e.Close? || (e.Destroy? && w.conn.status.Connected?) }

  lemma StatusStep(w: World, e: Event)
    requires Enabled(w, e)
    ensures var v := Apply(w, e);
            && (v.conn.status.Disconnected? <==> w.conn.status.Disconnected? || TearsDown(w, e))
            && (v.conn.status.Connected? <==>
                  w.conn.status.Connected? && !TearsDown(w, e) && !e.Shutdown? && !e.ShutdownCall?)
            && (TearsDown(w, e) ==> !v.conn.writing) && (e.Close? || e.Destroy? ==> v.conn.file.None?)
            && (v.conn.shutdownQueued <==>
                  (w.conn.shutdownQueued && !e.ShutdownArrives?) || (e.ShutdownCall? && w.conn.status.Connected?))
  {
    hide SendInLoop, SendFileInLoop, PendingSent;
    match e
    case SendCall(data, a) => SendKeeps(w, data, a);
    case SendArrives(data, a) => SendKeeps(w, data, a);
    case FileCall(f, a) => FileKeeps(w, f, a);
    case FileArrives(f, a) => FileKeeps(w, f, a);
    case Writable(a, fa) => if w.conn.writing && TookBytes(a) > 0 { SentKeeps(Drained(w, a.n), fa); }
    case _ =>
  }

  /** A connection is down exactly once it was closed, or destroyed while connected; it leaves the connected
      state exactly at a shutdown or then; and tear-down leaves no write interest and no file. */
  lemma {:induction false} StatusExactly(ws: seq<World>, es: seq<Event>, i: nat)
    requires Run(ws, es) && |ws| == |es| + 1 && i < |ws|
    ensures ws[i].conn.status.Disconnected? <==> exists j :: 0 <= j < i && TearsDown(ws[j], es[j])
    ensures ws[i].conn.status.Connected? <==> forall j :: 0 <= j < i ==> !Leaves(es[j])
    ensures i > 0 && TearsDown(ws[i - 1], es[i - 1]) ==> !ws[i].conn.writing && ws[i].conn.file.None?
  {
    hide Run, Apply, Enabled;
    if i > 0 {
      StatusExactly(ws, es, i - 1);
      StepAt(ws, es, i - 1);
      StatusStep(ws[i - 1], es[i - 1]);
    } else {
      StartsConnected(ws, es);
    }
  }

  predicate Leaves(e: Event) { e.Close? || e.Destroy? || e.Shutdown? || e.ShutdownCall? }

  lemma StartsConnected(ws: seq<World>, es: seq<Event>)
    requires Run(ws, es)
    ensures ws[0].conn.status.Connected? && !ws[0].conn.shutdownQueued
  {
  }

  lemma StepAt(ws: seq<World>, es: seq<Event>, i: nat)
    requires Run(ws, es) && i < |es|
    ensures |ws| == |es| + 1 && Enabled(ws[i], es[i]) && ws[i + 1] == Apply(ws[i], es[i])
  {
    hide Apply, Enabled;
  }

  /** However often it is asked for, a shutdown reaches the loop once. */
  lemma {:induction false} ShutdownArrivesOnce(ws: seq<World>, es: seq<Event>, i: nat, j: nat)
    requires Run(ws, es) && |ws| == |es| + 1 && i < j < |ws| && es[i].ShutdownArrives?
    ensures !ws[j].conn.shutdownQueued && !ws[j].conn.status.Connected?
    ensures j < |es| ==> !es[j].ShutdownArrives?
    decreases j
  {
    hide Run, Apply;
    if j < |es| { StepAt(ws, es, j); }
    StepAt(ws, es, j - 1);
    if j > i + 1 {
      ShutdownArrivesOnce(ws, es, i, j - 1);
    } else {
      QueuedIsShutDown(ws, es, i);
    }
    StatusStep(ws[j - 1], es[j - 1]);
  }

  lemma {:induction false} QueuedIsShutDown(ws: seq<World>, es: seq<Event>, i: nat)
    requires Run(ws, es) && |ws| == |es| + 1 && i < |ws|
    ensures ws[i].conn.shutdownQueued ==> !ws[i].conn.status.Connected?
  {
    hide Run, Apply, Enabled;
    if i > 0 {
      QueuedIsShutDown(ws, es, i - 1);
      StepAt(ws, es, i - 1);
      StatusStep(ws[i - 1], es[i - 1]);
    } else {
      StartsConnected(ws, es);
    }
  }

  // ---------- write interest ends ----------

  /** Write interest is on only while something is left to write. */
  predicate Needed(c: Conn) { c.writing ==> c.out != [] || c.file.Some? }

  lemma NeededStep(w: World, e: Event)
    requires Needed(w.conn) && Enabled(w, e) && !e.Destroy?
    ensures Needed(Apply(w, e).conn)
  {
    match e
    case SendCall(data, a) => NeededSend(w, data, a);
    case SendArrives(data, a) => NeededSend(w, data, a);
    case _ =>
  }

  lemma NeededSend(w: World, data: seq<Byte>, a: Answer)
    requires Needed(w.conn) && Possible(w, a, |data|)
    ensures Needed(SendInLoop(w, data, a).conn)
  {
  }

  /** In every run up to destruction, the connection asks for writable events exactly while output or a
      file is left, until it is torn down; so an idle connection never keeps its loop busy. */
  lemma {:induction false} InterestExactly(ws: seq<World>, es: seq<Event>, i: nat)
    requires Run(ws, es) && i < |ws| && forall j :: 0 <= j < i ==> !es[j].Destroy?
    ensures Needed(ws[i].conn)
    ensures !ws[i].conn.status.Disconnected? ==> (ws[i].conn.writing <==> ws[i].conn.out != [] || ws[i].conn.file.Some?)
  {
    hide Apply, Enabled;
    InterestedRun(ws, es, i);
    if i > 0 {
      InterestExactly(ws, es, i - 1);
      NeededStep(ws[i - 1], es[i - 1]);
    }
  }

  // ---------- what is lost ----------

  /** The file asks for at least what it holds. */
  predicate Fits(c: Conn) { c.file.Some? ==> |c.file.value.data| <= c.file.value.left }

  predicate GivesUp(a: Answer) { a.PipeError? || a.OtherError? }

  /** Queueing the file discards the rest of another, or the attempt to send it fails. */
  predicate LosesFile(w: World, f: PendingFile, a: Answer) {
    FileData(w.conn) != [] || (w.conn.out == [] && f.data != [] && GivesUp(a))
  }

  /** The step throws bytes away: handed over when no longer connected, written to a broken pipe, in a
      file that is replaced or cannot be sent, or pending at the end. */
  predicate Loses(w: World, e: Event) {
    match e
    case SendCall(data, a) => data != [] && (!w.conn.status.Connected? || (WritesDirectly(w.conn) && a.PipeError?))
    case SendArrives(data, a) => data != [] && WritesDirectly(w.conn) && a.PipeError?
    case FileCall(f, a) => if w.conn.status.Connected? then LosesFile(w, f, a) else f.data != []
    case FileArrives(f, a) => if w.conn.status.Disconnected? then f.data != [] else LosesFile(w, f, a)
    case Writable(a, fa) =>
      w.conn.writing && a.Took? && 0 < a.n == |w.conn.out| && FileData(w.conn) != [] && GivesUp(fa)
    case Close => FileData(w.conn) != []
    case Destroy => FileData(w.conn) != []
    case _ => false
  }

  lemma LossStep(w: World, e: Event)
    requires Enabled(w, e) && Fits(w.conn)
    ensures Fits(Apply(w, e).conn)
    ensures Apply(w, e).past.dropped <==> w.past.dropped || Loses(w, e)
  {
    match e
    case FileCall(f, a) => FileLoss(w, f, a);
    case FileArrives(f, a) => FileLoss(w, f, a);
    case Writable(a, fa) => WriteLoss(w, a, fa);
    case _ =>
  }

  lemma SentLoss(w: World, a: Answer)
    requires Fits(w.conn) && Possible(w, a, |FileData(w.conn)|)
    ensures Fits(PendingSent(w, a).conn)
    ensures PendingSent(w, a).past.dropped <==>
            w.past.dropped || (w.conn.out == [] && FileData(w.conn) != [] && GivesUp(a))
  {
  }

  lemma FileLoss(w: World, f: PendingFile, a: Answer)
    requires Fits(w.conn) && Possible(w, a, |f.data|) && |f.data| <= f.left
    ensures Fits(SendFileInLoop(w, f, a).conn) && Fits(FileRefused(w, f).conn)
    ensures FileRefused(w, f).past.dropped <==> w.past.dropped || f.data != []
    ensures !w.conn.status.Disconnected? ==>
              (SendFileInLoop(w, f, a).past.dropped <==> w.past.dropped || LosesFile(w, f, a))
  {
    SentLoss(FileQueued(w, f), a);
    hide PendingSent;
  }

  lemma WriteLoss(w: World, a: Answer, fa: Answer)
    requires Fits(w.conn) && Possible(w, a, |w.conn.out|) && Possible(w, fa, |FileData(w.conn)|)
    ensures Fits(HandleWrite(w, a, fa).conn)
    ensures HandleWrite(w, a, fa).past.dropped <==> w.past.dropped || Loses(w, Writable(a, fa))
  {
    if w.conn.writing && a.Took? && a.n > 0 { SentLoss(Drained(w, a.n), fa); }
    hide PendingSent;
  }

  /** In every run, bytes that were handed over have been thrown away exactly if one of these steps did. */
  lemma {:induction false} LostExactly(ws: seq<World>, es: seq<Event>, i: nat)
    requires Run(ws, es) && i < |ws|
    ensures Fits(ws[i].conn)
    ensures ws[i].past.dropped <==> exists j :: 0 <= j < i && Loses(ws[j], es[j])
  {
    hide Apply, Enabled, Loses, Fits;
    if i > 0 {
      LostExactly(ws, es, i - 1);
      LossStep(ws[i - 1], es[i - 1]);
    } else {
      NoFileAtStart();
    }
  }

  lemma NoFileAtStart()
    ensures Fits(Initial().conn)
  {
  }

  // ---------- what the kernel has taken ----------

  function TookBytes(a: Answer): nat { if a.Took? then a.n else 0 }

  /** How many bytes the kernel takes in the step: a message is offered to it directly when nothing waits
      before it, a file when nothing is buffered, and a writable event offers the output and, once that
      is empty, the file. */
  function Taken(w: World, e: Event): nat {
    match e
    case SendCall(_, a) => if w.conn.status.Connected? && WritesDirectly(w.conn) then TookBytes(a) else 0
    case SendArrives(_, a) => if WritesDirectly(w.conn) then TookBytes(a) else 0
    case FileCall(_, a) => if w.conn.status.Connected? && w.conn.out == [] then TookBytes(a) else 0
    case FileArrives(_, a) => if !w.conn.status.Disconnected? && w.conn.out == [] then TookBytes(a) else 0
    case Writable(a, fa) =>
      if w.conn.writing then
        TookBytes(a) + if 0 < TookBytes(a) == |w.conn.out| && w.conn.file.Some? then TookBytes(fa) else 0
      else 0
    case _ => 0
  }

  function HandedOver(e: Event): seq<Byte> {
    match e
    case SendCall(data, _) => data
    case SendArrives(data, _) => data
    case FileCall(f, _) => f.data
    case FileArrives(f, _) => f.data
    case _ => []
  }

  lemma WireStep(w: World, e: Event)
    requires Enabled(w, e)
    ensures |Apply(w, e).past.wire| == |w.past.wire| + Taken(w, e)
    ensures Apply(w, e).past.intended == w.past.intended + HandedOver(e)
  {
    assert w.past.intended + [] == w.past.intended;
    match e
    case FileCall(f, a) => FileWire(w, f, a);
    case FileArrives(f, a) => FileWire(w, f, a);
    case Writable(a, fa) => if w.conn.writing && TookBytes(a) > 0 { SentWire(Drained(w, a.n), fa); } hide PendingSent;
    case _ =>
  }

  lemma ClosedWire(w: World)
    ensures CloseFile(w).past.wire == w.past.wire && CloseFile(w).past.intended == w.past.intended
  {
  }

  lemma FileSentWire(w: World, f: PendingFile, a: Answer)
    requires w.conn.file == Some(f) && Possible(w, a, |f.data|)
    ensures FileSent(w, f, a).past.wire == w.past.wire + f.data[..TookBytes(a)]
    ensures FileSent(w, f, a).past.intended == w.past.intended
  {
    hide CloseFile;
    var n := TookBytes(a);
    var g := f.(data := f.data[n..], left := if n <= f.left then f.left - n else 0);
    ClosedWire(World(w.conn.(file := Some(g)), Broke(w.past.(wire := w.past.wire + f.data[..n]), a)));
  }

  lemma SentWire(w: World, a: Answer)
    requires Possible(w, a, |FileData(w.conn)|)
    ensures |PendingSent(w, a).past.wire| ==
            |w.past.wire| + if w.conn.file.Some? && w.conn.out == [] then TookBytes(a) else 0
    ensures PendingSent(w, a).past.intended == w.past.intended
  {
    hide FileSent;
    if w.conn.file.Some? && w.conn.out == [] { FileSentWire(w, w.conn.file.value, a); }
  }

  lemma FileWire(w: World, f: PendingFile, a: Answer)
    requires Possible(w, a, |f.data|)
    ensures var v := SendFileInLoop(w, f, a);
            && |v.past.wire| ==
               |w.past.wire| + (if !w.conn.status.Disconnected? && w.conn.out == [] then TookBytes(a) else 0)
            && v.past.intended == w.past.intended + f.data
    ensures FileRefused(w, f).past.wire == w.past.wire && FileRefused(w, f).past.intended == w.past.intended + f.data
  {
    SentWire(FileQueued(w, f), a);
    hide PendingSent;
  }

  function TotalTaken(ws: seq<World>, es: seq<Event>, i: nat): nat
    requires i <= |es| < |ws|
  {
    if i == 0 then 0 else TotalTaken(ws, es, i - 1) + Taken(ws[i - 1], es[i - 1])
  }

  function AllHanded(es: seq<Event>): seq<Byte> {
    if es == [] then [] else AllHanded(es[..|es| - 1]) + HandedOver(es[|es| - 1])
  }

  /** One response at a time and with nothing thrown away: the wire carries exactly as many bytes as the
      kernel has taken, and those are the first of what the callers handed over. */
  lemma WireIsWhatWasTaken(ws: seq<World>, es: seq<Event>, i: nat)
    requires Run(ws, es) && |ws| == |es| + 1 && i < |ws| && forall j :: 0 <= j < i ==> Orderly(ws[j], es[j])
    ensures TotalTaken(ws, es, i) <= |AllHanded(es[..i])|
    ensures ws[i].past.wire == AllHanded(es[..i])[..TotalTaken(ws, es, i)]
  {
    WireIsPrefix(ws, es, i);
    WireRun(ws, es, i);
  }

  lemma {:induction false} WireRun(ws: seq<World>, es: seq<Event>, i: nat)
    requires Run(ws, es) && |ws| == |es| + 1 && i < |ws|
    ensures |ws[i].past.wire| == TotalTaken(ws, es, i) && ws[i].past.intended == AllHanded(es[..i])
  {
    hide Apply, Enabled, Taken, HandedOver;
    if i > 0 {
      WireRun(ws, es, i - 1);
      WireStep(ws[i - 1], es[i - 1]);
      assert es[..i][..i - 1] == es[..i - 1];
    }
  }
}
