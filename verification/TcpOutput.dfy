/** The output side of a TCP connection: direct and buffered writes, one pending file, half-close.
    What the kernel answers to each write and sendfile is a parameter of the step. */
module TcpOutput {
  import opened Wrappers

  type Byte = bv8

  datatype Status = Connected | Disconnecting | Disconnected

  /** data is what the file still holds of the slice; left is the byte count still asked for. */
  datatype PendingFile = PendingFile(fd: nat, data: seq<Byte>, left: nat)

  datatype Conn = Conn(status: Status, out: seq<Byte>, file: Option<PendingFile>, writing: bool,
                       halfClosed: bool, shutdownQueued: bool)

  /** What happened so far: bytes the kernel took, bytes callers handed over in order, whether some
      handed-over bytes were discarded, whether the peer is gone, descriptors taken over and closed. */
  datatype History = History(wire: seq<Byte>, intended: seq<Byte>, dropped: bool, broken: bool,
                             handed: set<nat>, closed: seq<nat>)

  datatype World = World(conn: Conn, past: History)

  // ---------- the kernel ----------

  datatype Answer = Took(n: nat) | WouldBlock | PipeError | OtherError

  predicate Live(w: World) { !w.conn.halfClosed && !w.past.broken }

  /** A kernel takes at most what it is offered, and nothing once the write side is gone. */
  predicate Possible(w: World, a: Answer, offered: nat) { a.Took? ==> a.n <= offered && (a.n > 0 ==> Live(w)) }

  function Broke(p: History, a: Answer): History { if a.PipeError? then p.(broken := true) else p }

  // ---------- pending file ----------

  function FileData(c: Conn): seq<Byte> { if c.file.Some? then c.file.value.data else [] }

  function CloseFile(w: World): World {
    match w.conn.file
    case None => w
    case Some(f) =>
      World(w.conn.(file := None), w.past.(closed := w.past.closed + [f.fd], dropped := w.past.dropped || f.data != []))
  }

  function DisableIfDone(w: World): World {
    if w.conn.file.None? && w.conn.out == [] then w.(conn := w.conn.(writing := false)) else w
  }

  /** One sendfile call; a finished or failed file is closed. */
  function FileSent(w: World, f: PendingFile, a: Answer): World
    requires w.conn.file == Some(f) && Possible(w, a, |f.data|)
  {
    var n := if a.Took? then a.n else 0;
    var g := f.(data := f.data[n..], left := if n <= f.left then f.left - n else 0);
    var v := World(w.conn.(file := Some(g)), Broke(w.past.(wire := w.past.wire + f.data[..n]), a));
    if g.left == 0 || a.PipeError? || a.OtherError? then CloseFile(v) else v
  }

  function PendingSent(w: World, a: Answer): World
    requires Possible(w, a, |FileData(w.conn)|)
  {
    if w.conn.file.None? || w.conn.out != [] then w else DisableIfDone(FileSent(w, w.conn.file.value, a))
  }

  // ---------- operations ----------

  /** Bytes handed over and thrown away. */
  function Refused(w: World, data: seq<Byte>): World {
    w.(past := w.past.(intended := w.past.intended + data, dropped := w.past.dropped || data != []))
  }

  /** Bytes handed over of which the kernel took the first n; the rest is buffered. */
  function Buffered(w: World, data: seq<Byte>, n: nat): World
    requires n <= |data|
  {
    var c := w.conn.(out := w.conn.out + data[n..], writing := w.conn.writing || n < |data|);
    World(c, w.past.(wire := w.past.wire + data[..n], intended := w.past.intended + data))
  }

  predicate WritesDirectly(c: Conn) { !c.writing && c.out == [] }

  function SendInLoop(w: World, data: seq<Byte>, a: Answer): World
    requires Possible(w, a, |data|)
  {
    if !WritesDirectly(w.conn) then Buffered(w, data, 0)
    else if a.Took? then Buffered(w, data, a.n)
    else if a.PipeError? then Refused(w.(past := Broke(w.past, a)), data)
    else Buffered(w, data, 0)
  }

  function Send(w: World, data: seq<Byte>, a: Answer): World
    requires Possible(w, a, |data|)
  {
    if w.conn.status.Connected? then SendInLoop(w, data, a) else Refused(w, data)
  }

  function Handed(w: World, f: PendingFile): World { w.(past := w.past.(handed := w.past.handed + {f.fd})) }

  function FileRefused(w: World, f: PendingFile): World {
    var v := Refused(Handed(w, f), f.data);
    v.(past := v.past.(closed := v.past.closed + [f.fd]))
  }

  /** The new file replaces the pending one, which is closed. */
  function FileQueued(w: World, f: PendingFile): World {
    var v := Handed(CloseFile(w), f);
    World(v.conn.(file := Some(f), writing := true), v.past.(intended := v.past.intended + f.data))
  }

  function SendFileInLoop(w: World, f: PendingFile, a: Answer): World
    requires Possible(w, a, |f.data|)
  {
    if w.conn.status.Disconnected? then FileRefused(w, f) else PendingSent(FileQueued(w, f), a)
  }

  function SendFile(w: World, f: PendingFile, a: Answer): World
    requires Possible(w, a, |f.data|)
  {
    if w.conn.status.Connected? then SendFileInLoop(w, f, a) else FileRefused(w, f)
  }

  function ShutdownInLoop(w: World): World {
    if w.conn.writing then w else w.(conn := w.conn.(halfClosed := true))
  }

  /** handleWrite once the kernel has taken n > 0 bytes of the output buffer. */
  function Drained(w: World, n: nat): World
    requires n <= |w.conn.out|
  {
    World(w.conn.(out := w.conn.out[n..]), w.past.(wire := w.past.wire + w.conn.out[..n]))
  }

  function AfterDrain(w: World, fa: Answer): World
    requires Possible(w, fa, |FileData(w.conn)|)
  {
    if w.conn.out != [] then w
    else
      var v := DisableIfDone(PendingSent(w, fa));
      if v.conn.status.Disconnecting? then ShutdownInLoop(v) else v
  }

  function HandleWrite(w: World, a: Answer, fa: Answer): World
    requires Possible(w, a, |w.conn.out|) && Possible(w, fa, |FileData(w.conn)|)
  {
    if !w.conn.writing then w
    else if a.Took? && a.n > 0 then AfterDrain(Drained(w, a.n), fa)
    else w.(past := Broke(w.past, a))
  }

  function HandleClose(w: World): World {
    var v := CloseFile(w);
    v.(conn := v.conn.(status := Disconnected, writing := false))
  }

  function Destroyed(w: World): World {
    var v := CloseFile(w);
    if v.conn.status.Connected? then v.(conn := v.conn.(status := Disconnected, writing := false)) else v
  }

  // ---------- runs ----------

  /** Queued events are calls another thread made earlier, arriving in the loop. */
  datatype Event = SendCall(data: seq<Byte>, a: Answer) | SendArrives(data: seq<Byte>, a: Answer)
                 | FileCall(file: PendingFile, a: Answer) | FileArrives(file: PendingFile, a: Answer)
                 | Writable(a: Answer, fa: Answer)
                 | Shutdown | ShutdownCall | ShutdownArrives | Close | Destroy

  predicate FreshFile(w: World, f: PendingFile) { f.fd !in w.past.handed && |f.data| <= f.left }

  predicate Enabled(w: World, e: Event) {
    match e
    case SendCall(data, a) => Possible(w, a, |data|)
    case SendArrives(data, a) => Possible(w, a, |data|)
    case FileCall(f, a) => Possible(w, a, |f.data|) && FreshFile(w, f)
    case FileArrives(f, a) => Possible(w, a, |f.data|) && FreshFile(w, f)
    case Writable(a, fa) => Possible(w, a, |w.conn.out|) && Possible(w, fa, |FileData(w.conn)|)
    case ShutdownArrives => w.conn.shutdownQueued
    case _ => true
  }

  function ShutdownStep(w: World, inLoop: bool): World {
    if !w.conn.status.Connected? then w
    else if inLoop then ShutdownInLoop(w.(conn := w.conn.(status := Disconnecting)))
    else w.(conn := w.conn.(status := Disconnecting, shutdownQueued := true))
  }

  function Apply(w: World, e: Event): World
    requires Enabled(w, e)
  {
    match e
    case SendCall(data, a) => Send(w, data, a)
    case SendArrives(data, a) => SendInLoop(w, data, a)
    case FileCall(f, a) => SendFile(w, f, a)
    case FileArrives(f, a) => SendFileInLoop(w, f, a)
    case Writable(a, fa) => HandleWrite(w, a, fa)
    case Shutdown => ShutdownStep(w, true)
    case ShutdownCall => ShutdownStep(w, false)
    case ShutdownArrives => ShutdownInLoop(w.(conn := w.conn.(shutdownQueued := false)))
    case Close => HandleClose(w)
    case Destroy => Destroyed(w)
  }

  function Initial(): World {
    World(Conn(Connected, [], None, false, false, false), History([], [], false, false, {}, []))
  }

  predicate Run(ws: seq<World>, es: seq<Event>) {
    && |ws| == |es| + 1 && ws[0] == Initial()
    && forall i :: 0 <= i < |es| ==> Enabled(ws[i], es[i]) && ws[i + 1] == Apply(ws[i], es[i])
  }

  predicate HandsOver(e: Event) { e.SendCall? || e.SendArrives? || e.FileCall? || e.FileArrives? }

  /** One response at a time: nothing is handed over behind a pending file, nor after output was
      discarded. */
  predicate Orderly(w: World, e: Event) { HandsOver(e) ==> w.conn.file.None? && !w.past.dropped }

  // ---------- the wire carries a prefix ----------

  /** Nothing lost: what is on the wire, buffered and pending is what was handed over. Otherwise the
      wire still carries a prefix of it. */
  predicate InStep(w: World) {
    && w.past.wire <= w.past.intended
    && (!w.past.dropped ==> w.past.wire + w.conn.out + FileData(w.conn) == w.past.intended)
    && (w.past.dropped ==> w.past.wire + w.conn.out <= w.past.intended)
    && (w.past.dropped && w.conn.file.Some? ==> FileData(w.conn) == [])
  }

  lemma CloseFileInStep(w: World)
    requires InStep(w)
    ensures InStep(CloseFile(w))
  {
  }

  /** Bytes moving from the front of the output, or of a file with nothing buffered, to the wire. */
  lemma Shifted(w: World, v: World)
    requires InStep(w) && v.past.intended == w.past.intended && v.past.dropped == w.past.dropped
    requires v.past.wire + v.conn.out + FileData(v.conn) == w.past.wire + w.conn.out + FileData(w.conn)
    requires v.conn.file.Some? ==> w.conn.file.Some? && |FileData(v.conn)| <= |FileData(w.conn)|
    requires w.conn.file.Some? && FileData(w.conn) == [] ==> FileData(v.conn) == []
    ensures InStep(v)
  {
    var s := v.past.wire + v.conn.out + FileData(v.conn);
    assert v.past.wire <= s && v.past.wire + v.conn.out <= s;
    if w.past.dropped {
      assert FileData(w.conn) == [] && FileData(v.conn) == [];
      assert s == v.past.wire + v.conn.out == w.past.wire + w.conn.out;
    }
  }

  lemma FileSentInStep(w: World, f: PendingFile, a: Answer)
    requires InStep(w) && w.conn.file == Some(f) && w.conn.out == [] && Possible(w, a, |f.data|)
    ensures InStep(FileSent(w, f, a))
  {
    hide InStep, CloseFile;
    var n := if a.Took? then a.n else 0;
    var g := f.(data := f.data[n..], left := if n <= f.left then f.left - n else 0);
    var v := World(w.conn.(file := Some(g)), Broke(w.past.(wire := w.past.wire + f.data[..n]), a));
    Moved(w.past.wire, f.data, n);
    Shifted(w, v);
    CloseFileInStep(v);
  }

  lemma Moved(wire: seq<Byte>, data: seq<Byte>, n: nat)
    requires n <= |data|
    ensures wire + data[..n] + [] + data[n..] == wire + [] + data
    ensures (wire + data[..n]) + data[n..] == wire + data
  {
    assert data == data[..n] + data[n..];
  }

  lemma PendingSentInStep(w: World, a: Answer)
    requires InStep(w) && Possible(w, a, |FileData(w.conn)|)
    ensures InStep(PendingSent(w, a))
  {
    hide InStep, FileSent;
    if w.conn.file.Some? && w.conn.out == [] {
      FileSentInStep(w, w.conn.file.value, a);
      ConnOnly(FileSent(w, w.conn.file.value, a), PendingSent(w, a));
    }
  }

  lemma BufferedInStep(w: World, data: seq<Byte>, n: nat)
    requires InStep(w) && n <= |data| && (n > 0 ==> w.conn.out == []) && w.conn.file.None? && !w.past.dropped
    ensures InStep(Buffered(w, data, n))
  {
    assert data == data[..n] + data[n..];
    var v := Buffered(w, data, n);
    assert v.past.wire + v.conn.out + [] == w.past.wire + w.conn.out + [] + data;
  }

  lemma SendInStep(w: World, data: seq<Byte>, a: Answer)
    requires InStep(w) && Possible(w, a, |data|) && w.conn.file.None? && !w.past.dropped
    ensures InStep(SendInLoop(w, data, a)) && InStep(Refused(w, data))
  {
    hide Buffered;
    if WritesDirectly(w.conn) && a.Took? { BufferedInStep(w, data, a.n); } else { BufferedInStep(w, data, 0); }
    hide Possible;
    assert w.past.wire + w.conn.out + [] == w.past.intended;
  }

  lemma FileInStep(w: World, f: PendingFile, a: Answer)
    requires InStep(w) && Possible(w, a, |f.data|) && w.conn.file.None? && !w.past.dropped
    ensures InStep(SendFileInLoop(w, f, a)) && InStep(FileRefused(w, f))
  {
    var v := FileQueued(w, f);
    assert w.past.wire + w.conn.out + [] == w.past.intended;
    assert v.past.wire + v.conn.out + f.data == v.past.intended;
    PendingSentInStep(v, a);
    hide Possible, PendingSent;
  }

  lemma WriteInStep(w: World, a: Answer, fa: Answer)
    requires InStep(w) && Possible(w, a, |w.conn.out|) && Possible(w, fa, |FileData(w.conn)|)
    ensures InStep(HandleWrite(w, a, fa))
  {
    hide InStep, PendingSent;
    if w.conn.writing && a.Took? && a.n > 0 {
      var v := Drained(w, a.n);
      Moved(w.past.wire, w.conn.out, a.n);
      Shifted(w, v);
      if v.conn.out == [] {
        PendingSentInStep(v, fa);
        ConnOnly(PendingSent(v, fa), AfterDrain(v, fa));
      }
    } else {
      Shifted(w, HandleWrite(w, a, fa));
    }
  }

  lemma InStepStep(w: World, e: Event)
    requires InStep(w) && Enabled(w, e) && Orderly(w, e)
    ensures InStep(Apply(w, e))
  {
    hide InStep, SendInLoop, SendFileInLoop, HandleWrite, CloseFile, Refused, FileRefused;
    match e
    case SendCall(data, a) => SendInStep(w, data, a);
    case SendArrives(data, a) => SendInStep(w, data, a);
    case FileCall(f, a) => FileInStep(w, f, a);
    case FileArrives(f, a) => FileInStep(w, f, a);
    case Writable(a, fa) => WriteInStep(w, a, fa);
    case Close => CloseFileInStep(w); ConnOnly(CloseFile(w), HandleClose(w));
    case Destroy => CloseFileInStep(w); ConnOnly(CloseFile(w), Destroyed(w));
    case _ => ConnOnly(w, Apply(w, e));
  }

  lemma ConnOnly(w: World, v: World)
    requires InStep(w) && v.past == w.past && v.conn.out == w.conn.out && v.conn.file == w.conn.file
    ensures InStep(v)
  {
  }

  lemma {:induction false} InStepRun(ws: seq<World>, es: seq<Event>, i: nat)
    requires Run(ws, es) && i < |ws| && forall j :: 0 <= j < i ==> Orderly(ws[j], es[j])
    ensures InStep(ws[i])
  {
    if i > 0 {
      InStepRun(ws, es, i - 1);
      assert Orderly(ws[i - 1], es[i - 1]);
      hide InStep, Orderly, Apply, Enabled;
      InStepStep(ws[i - 1], es[i - 1]);
    }
  }

  /** Under every pattern of kernel answers, one response at a time: the bytes on the wire are a
      prefix of what was handed over, and nothing is missing or repeated while nothing was
      discarded. */
  lemma WireIsPrefix(ws: seq<World>, es: seq<Event>, i: nat)
    requires Run(ws, es) && i < |ws| && forall j :: 0 <= j < i ==> Orderly(ws[j], es[j])
    ensures var w := ws[i];
            && w.past.wire <= w.past.intended
            && (!w.past.dropped ==> w.past.wire + w.conn.out + FileData(w.conn) == w.past.intended)
  {
    InStepRun(ws, es, i);
  }

  // ---------- half-close ----------

  /** Write interest is on whenever output is left, until the connection is torn down. */
  predicate Interested(c: Conn) { c.status.Disconnected? || c.writing || (c.out == [] && c.file.None?) }

  lemma SendInterested(w: World, data: seq<Byte>, a: Answer)
    requires Interested(w.conn) && Possible(w, a, |data|)
    ensures Interested(SendInLoop(w, data, a).conn)
    ensures SendInLoop(w, data, a).conn.halfClosed == w.conn.halfClosed
  {
    assert |data[|data|..]| == 0;
  }

  lemma FileInterested(w: World, f: PendingFile, a: Answer)
    requires Interested(w.conn) && Possible(w, a, |f.data|)
    ensures Interested(SendFileInLoop(w, f, a).conn)
    ensures SendFileInLoop(w, f, a).conn.halfClosed == w.conn.halfClosed
  {
  }

  lemma InterestedStep(w: World, e: Event)
    requires Interested(w.conn) && Enabled(w, e)
    ensures Interested(Apply(w, e).conn)
    ensures Apply(w, e).conn.halfClosed && !w.conn.halfClosed ==>
              var c := Apply(w, e).conn; c.status.Disconnected? || (c.out == [] && c.file.None?)
  {
    hide SendInLoop, SendFileInLoop;
    match e
    case SendCall(data, a) => SendInterested(w, data, a);
    case SendArrives(data, a) => SendInterested(w, data, a);
    case FileCall(f, a) => FileInterested(w, f, a);
    case FileArrives(f, a) => FileInterested(w, f, a);
    case _ =>
  }

  lemma {:induction false} InterestedRun(ws: seq<World>, es: seq<Event>, i: nat)
    requires Run(ws, es) && i < |ws|
    ensures Interested(ws[i].conn)
  {
    if i > 0 {
      InterestedRun(ws, es, i - 1);
      hide Interested, Apply, Enabled;
      InterestedStep(ws[i - 1], es[i - 1]);
    }
  }

  /** The write side is half-closed only when no output and no file is left, unless the connection
      had already been torn down; one response at a time and with nothing discarded, everything
      handed over is then on the wire. */
  lemma HalfCloseOnlyWhenDone(ws: seq<World>, es: seq<Event>, i: nat)
    requires Run(ws, es) && i < |es| && ws[i + 1].conn.halfClosed && !ws[i].conn.halfClosed
    ensures var w := ws[i + 1];
            && (w.conn.status.Disconnected? || (w.conn.out == [] && w.conn.file.None?))
            && ((forall j :: 0 <= j <= i ==> Orderly(ws[j], es[j])) && !w.conn.status.Disconnected? && !w.past.dropped
                ==> w.past.wire == w.past.intended)
  {
    InterestedRun(ws, es, i);
    hide Interested, InStep, Orderly;
    InterestedStep(ws[i], es[i]);
    if forall j :: 0 <= j <= i ==> Orderly(ws[j], es[j]) { WireIsPrefix(ws, es, i + 1); }
  }

  // ---------- descriptors ----------

  function Closings(s: seq<nat>, fd: nat): nat {
    if s == [] then 0 else Closings(s[..|s| - 1], fd) + if s[|s| - 1] == fd then 1 else 0
  }

  lemma ClosingsSnoc(s: seq<nat>, x: nat, fd: nat)
    ensures Closings(s + [x], fd) == Closings(s, fd) + if x == fd then 1 else 0
  {
    assert (s + [x])[..|s|] == s;
  }

  predicate Pending(c: Conn, fd: nat) { c.file.Some? && c.file.value.fd == fd }

  /** A descriptor taken over is either still pending or closed exactly once. */
  predicate Accounted(w: World, fd: nat) {
    Closings(w.past.closed, fd) + (if Pending(w.conn, fd) then 1 else 0) == if fd in w.past.handed then 1 else 0
  }

  lemma CloseFileAccounted(w: World, fd: nat)
    requires Accounted(w, fd)
    ensures Accounted(CloseFile(w), fd)
  {
    hide Closings;
    if w.conn.file.Some? { ClosingsSnoc(w.past.closed, w.conn.file.value.fd, fd); }
  }

  lemma FileSentAccounted(w: World, f: PendingFile, a: Answer, fd: nat)
    requires Accounted(w, fd) && w.conn.file == Some(f) && Possible(w, a, |f.data|)
    ensures Accounted(FileSent(w, f, a), fd)
  {
    hide Closings, CloseFile;
    var n := if a.Took? then a.n else 0;
    var g := f.(data := f.data[n..], left := if n <= f.left then f.left - n else 0);
    var v := World(w.conn.(file := Some(g)), Broke(w.past.(wire := w.past.wire + f.data[..n]), a));
    CloseFileAccounted(v, fd);
  }

  lemma PendingSentAccounted(w: World, a: Answer, fd: nat)
    requires Accounted(w, fd) && Possible(w, a, |FileData(w.conn)|)
    ensures Accounted(PendingSent(w, a), fd)
  {
    hide Closings, FileSent;
    if w.conn.file.Some? && w.conn.out == [] { FileSentAccounted(w, w.conn.file.value, a, fd); }
  }

  lemma FileAccounted(w: World, f: PendingFile, a: Answer, fd: nat)
    requires Accounted(w, fd) && Possible(w, a, |f.data|) && f.fd !in w.past.handed
    ensures Accounted(SendFileInLoop(w, f, a), fd) && Accounted(FileRefused(w, f), fd)
  {
    hide Closings;
    ClosingsSnoc(w.past.closed, f.fd, fd);
    CloseFileAccounted(w, fd);
    PendingSentAccounted(FileQueued(w, f), a, fd);
    hide PendingSent;
  }

  lemma AccountedStep(w: World, e: Event, fd: nat)
    requires Accounted(w, fd) && Enabled(w, e)
    ensures Accounted(Apply(w, e), fd)
  {
    hide Closings;
    match e
    case FileCall(f, a) => FileAccounted(w, f, a, fd); hide SendFileInLoop, FileRefused;
    case FileArrives(f, a) => FileAccounted(w, f, a, fd); hide SendFileInLoop;
    case Writable(a, fa) =>
      if w.conn.writing && a.Took? && a.n > 0 { PendingSentAccounted(Drained(w, a.n), fa, fd); }
      hide PendingSent;
    case Close => CloseFileAccounted(w, fd); hide CloseFile;
    case Destroy => CloseFileAccounted(w, fd); hide CloseFile;
    case _ =>
  }

  /** Every descriptor ever taken over is closed exactly once or is the pending one; descriptors
      not taken over are left alone. In particular none is closed twice, and none leaks past
      destruction. */
  lemma {:induction false} DescriptorsClosedOnce(ws: seq<World>, es: seq<Event>, i: nat, fd: nat)
    requires Run(ws, es) && i < |ws|
    ensures Accounted(ws[i], fd)
    ensures i > 0 && es[i - 1].Destroy? ==> Closings(ws[i].past.closed, fd) == if fd in ws[i].past.handed then 1 else 0
  {
    if i > 0 {
      DescriptorsClosedOnce(ws, es, i - 1, fd);
      hide Closings;
      AccountedStep(ws[i - 1], es[i - 1], fd);
    }
  }

  // ---------- what the guard is for ----------

  /** A message sent behind a pending file on a live connection overtakes it: with the socket
      accepting everything, the message comes out before the rest of the file. The stream is
      intact exactly when the two byte strings commute. */
  lemma SendOvertakesFile(w: World, data: seq<Byte>)
    requires InStep(w) && !w.past.dropped && Live(w) && w.conn.status.Connected? && Interested(w.conn) && data != []
    requires w.conn.file.Some? && w.conn.file.value.left == |FileData(w.conn)|
    ensures var rest := FileData(w.conn);
            var sent := Send(w, data, WouldBlock);
            var done := HandleWrite(sent, Took(|sent.conn.out|), Took(|rest|));
            && done.past.wire == w.past.wire + w.conn.out + data + rest
            && (done.past.wire <= done.past.intended <==> data + rest == rest + data)
  {
    var rest := FileData(w.conn);
    var sent := Send(w, data, WouldBlock);
    assert sent == Buffered(w, data, 0) && data[0..] == data && data[..0] == [];
    assert sent.conn.out == w.conn.out + data && sent.past.wire == w.past.wire;
    assert sent.past.intended == w.past.wire + w.conn.out + rest + data;
    var n := |sent.conn.out|;
    var v := Drained(sent, n);
    assert v.conn.out == [] && v.past.wire == w.past.wire + (w.conn.out + data);
    assert rest[|rest|..] == [] && rest[..|rest|] == rest;
    var done := HandleWrite(sent, Took(n), Took(|rest|));
    assert done.past.wire == v.past.wire + rest;
    var base := w.past.wire + w.conn.out;
    assert done.past.wire == base + (data + rest) && done.past.intended == base + (rest + data);
    Cancel(base, data + rest, rest + data);
  }

  /** Such a run exists: a file that would block, then a message, then a writable socket. */
  lemma OvertakingHappens(rest: seq<Byte>, data: seq<Byte>) returns (ws: seq<World>, es: seq<Event>)
    requires rest != [] && data != [] && data + rest != rest + data
    ensures Run(ws, es) && |es| == 3 && ws[3].past.wire == data + rest && ws[3].past.intended == rest + data
    ensures ws[3].past.wire != ws[3].past.intended && |ws[3].past.wire| == |ws[3].past.intended|
  {
    var f := PendingFile(3, rest, |rest|);
    var w0, w1 := Initial(), Blocked(f);
    var e1, e2, e3 := FileCall(f, WouldBlock), SendCall(data, WouldBlock), Writable(Took(|data|), Took(|rest|));
    BlockedIsReached(f);
    OvertakesBlocked(f, data);
    assert Enabled(w0, e1);
    hide HandleWrite, Send, SendFile, Enabled, Blocked, Initial;
    var w2 := Send(w1, data, WouldBlock);
    var w3 := HandleWrite(w2, Took(|data|), Took(|rest|));
    ws, es := [w0, w1, w2, w3], [e1, e2, e3];
    ThreeSteps(w1, w2, w3, e1, e2, e3);
  }

  /** From that state a message and a writable socket. */
  lemma OvertakesBlocked(f: PendingFile, data: seq<Byte>)
    requires f.data != [] && f.left == |f.data| && data != []
    ensures var w1 := Blocked(f); var w2 := Send(w1, data, WouldBlock);
            && Enabled(w1, SendCall(data, WouldBlock)) && Enabled(w2, Writable(Took(|data|), Took(|f.data|)))
            && var w3 := HandleWrite(w2, Took(|data|), Took(|f.data|));
               w3.past.wire == data + f.data && w3.past.intended == f.data + data
  {
    hide InStep, Interested, Send, HandleWrite;
    var w1 := Blocked(f);
    BlockedInStep(f);
    BlockedSend(f, data);
    SendOvertakesFile(w1, data);
    Joined(data, f.data);
    KeepsIntended(Send(w1, data, WouldBlock), Took(|data|), Took(|f.data|));
  }

  lemma Joined(a: seq<Byte>, b: seq<Byte>)
    ensures [] + [] + a + b == a + b
  {
  }

  lemma BlockedInStep(f: PendingFile)
    ensures InStep(Blocked(f)) && Interested(Blocked(f).conn)
  {
    assert [] + [] + f.data == f.data;
  }

  lemma BlockedSend(f: PendingFile, data: seq<Byte>)
    ensures var w := Send(Blocked(f), data, WouldBlock);
            && w.conn.out == data && w.conn.file == Some(f) && w.past.intended == f.data + data && Live(w)
  {
    assert [] + data == data && data[0..] == data;
  }

  lemma ThreeSteps(w1: World, w2: World, w3: World, e1: Event, e2: Event, e3: Event)
    requires Enabled(Initial(), e1) && w1 == Apply(Initial(), e1)
    requires Enabled(w1, e2) && w2 == Apply(w1, e2) && Enabled(w2, e3) && w3 == Apply(w2, e3)
    ensures Run([Initial(), w1, w2, w3], [e1, e2, e3])
  {
    hide Apply, Enabled, Initial;
  }

  /** Writing changes nothing of what was handed over. */
  lemma KeepsIntended(w: World, a: Answer, fa: Answer)
    requires Possible(w, a, |w.conn.out|) && Possible(w, fa, |FileData(w.conn)|)
    ensures HandleWrite(w, a, fa).past.intended == w.past.intended
  {
  }

  /** A first file that could not be sent at once. */
  function Blocked(f: PendingFile): World {
    World(Conn(Connected, [], Some(f), true, false, false), History([], f.data, false, false, {f.fd}, []))
  }

  lemma BlockedIsReached(f: PendingFile)
    requires |f.data| <= f.left && f.left > 0
    ensures SendFile(Initial(), f, WouldBlock) == Blocked(f)
  {
    assert f.data[0..] == f.data && f.data[..0] == [] && [] + f.data == f.data;
  }

  lemma Cancel(base: seq<Byte>, x: seq<Byte>, y: seq<Byte>)
    requires |x| == |y|
    ensures base + x <= base + y <==> x == y
  {
    assert (base + x)[|base|..] == x && (base + y)[|base|..] == y;
  }

  /** With the output buffer empty a writable event does nothing, whatever is pending. */
  lemma EmptyBufferIgnoresWritable(w: World, a: Answer, fa: Answer)
    requires Enabled(w, Writable(a, fa)) && w.conn.out == []
    ensures HandleWrite(w, a, fa).conn == w.conn && HandleWrite(w, a, fa).past.wire == w.past.wire
  {
  }

  /** So a file that would-block with nothing buffered is never resumed: whatever the socket does,
      it stays pending until a new hand-over or tear-down. */
  lemma {:induction false} StalledFileStays(ws: seq<World>, es: seq<Event>, i: nat, j: nat)
    requires Run(ws, es) && i <= j < |ws| && ws[i].conn.file.Some? && ws[i].conn.out == []
    requires ws[i].conn.writing
    requires forall k :: i <= k < j ==> !HandsOver(es[k]) && !es[k].Close? && !es[k].Destroy?
    ensures ws[j].conn.file == ws[i].conn.file && ws[j].conn.out == [] && ws[j].conn.writing
    ensures ws[j].past.wire == ws[i].past.wire && ws[j].conn.halfClosed == ws[i].conn.halfClosed
    decreases j
  {
    if i < j {
      StalledFileStays(ws, es, i, j - 1);
      var w, e := ws[j - 1], es[j - 1];
      assert !HandsOver(e) && !e.Close? && !e.Destroy?;
      if e.Writable? { EmptyBufferIgnoresWritable(w, e.a, e.fa); }
    }
  }

  // ---------- the object ----------

  /** The connection's output members, updated in place. Each method takes the kernel's answers and
      is the step of the same name. */
  class TcpConnection {
    var status: Status
    var outputBuffer: seq<Byte>
    var pendingFile: Option<PendingFile>
    var writing: bool
    ghost var halfClosed: bool
    ghost var shutdownQueued: bool
    ghost var past: History

    ghost function View(): World
      reads this
    {
      World(Conn(status, outputBuffer, pendingFile, writing, halfClosed, shutdownQueued), past)
    }

    constructor ()
      ensures View() == Initial()
    {
      status, outputBuffer, pendingFile, writing := Connected, [], None, false;
      halfClosed, shutdownQueued, past := false, false, History([], [], false, false, {}, []);
    }

    method ClosePendingFile()
      modifies `pendingFile, `past
      ensures View() == CloseFile(old(View())) && pendingFile.None?
    {
      if pendingFile.Some? {
        past := past.(closed := past.closed + [pendingFile.value.fd],
                      dropped := past.dropped || pendingFile.value.data != []);
        pendingFile := None;
      }
    }

    method SendPendingFile(a: Answer)
      requires Possible(View(), a, |FileData(View().conn)|)
      modifies `pendingFile, `past, `writing
      ensures View() == PendingSent(old(View()), a)
    {
      if pendingFile.None? || outputBuffer != [] {
        return;
      }
      var file := pendingFile.value;
      var sent := if a.Took? then a.n else 0;
      past := Broke(past.(wire := past.wire + file.data[..sent]), a);
      file := file.(data := file.data[sent..], left := if sent <= file.left then file.left - sent else 0);
      pendingFile := Some(file);
      if file.left == 0 {
        ClosePendingFile();
      } else if a.PipeError? || a.OtherError? {
        ClosePendingFile();
      }
      if pendingFile.None? && outputBuffer == [] && writing {
        writing := false;
      }
    }

    method WriteInLoop(data: seq<Byte>, a: Answer)
      requires Possible(View(), a, |data|)
      modifies `outputBuffer, `writing, `past
      ensures View() == SendInLoop(old(View()), data, a)
    {
      var nwrote, faultError := 0, false;
      if !writing && outputBuffer == [] {
        if a.Took? {
          nwrote := a.n;
        } else {
          faultError := a.PipeError?;
        }
        past := Broke(past, a);
      }
      var remaining := |data| - nwrote;
      past := past.(wire := past.wire + data[..nwrote], intended := past.intended + data,
                    dropped := past.dropped || (faultError && data != []));
      assert data[..0] == [] && past.wire + [] == past.wire;
      if !faultError && remaining > 0 {
        outputBuffer := outputBuffer + data[nwrote..];
        if !writing {
          writing := true;
        }
      }
    }

    method FileInLoop(file: PendingFile, a: Answer)
      requires Possible(View(), a, |file.data|)
      modifies `pendingFile, `past, `writing
      ensures View() == SendFileInLoop(old(View()), file, a)
    {
      if status.Disconnected? {
        past := FileRefused(View(), file).past;
        return;
      }
      ClosePendingFile();
      pendingFile := Some(file);
      past := past.(handed := past.handed + {file.fd}, intended := past.intended + file.data);
      if !writing {
        writing := true;
      }
      assert View() == FileQueued(old(View()), file);
      if outputBuffer == [] {
        SendPendingFile(a);
      }
    }

    method CloseWriteSide()
      modifies `halfClosed
      ensures View() == ShutdownInLoop(old(View()))
    {
      if !writing {
        halfClosed := true;
      }
    }

    method Shut()
      modifies `status, `halfClosed
      ensures View() == ShutdownStep(old(View()), true)
    {
      if status.Connected? {
        status := Disconnecting;
        CloseWriteSide();
      }
    }

    method OnWritable(a: Answer, fa: Answer)
      requires Enabled(View(), Writable(a, fa))
      modifies this
      ensures View() == HandleWrite(old(View()), a, fa)
    {
      hide PendingSent;
      if writing {
        if a.Took? && a.n > 0 {
          past := past.(wire := past.wire + outputBuffer[..a.n]);
          outputBuffer := outputBuffer[a.n..];
          assert View() == Drained(old(View()), a.n);
          if outputBuffer == [] {
            SendPendingFile(fa);
            if outputBuffer == [] && pendingFile.None? {
              writing := false;
            }
            if status.Disconnecting? {
              CloseWriteSide();
            }
          }
        } else {
          past := Broke(past, a);
        }
      }
    }

    method OnClose()
      modifies this
      ensures View() == HandleClose(old(View()))
    {
      ClosePendingFile();
      status, writing := Disconnected, false;
    }
  }
}
