/** HttpServer's message callback: no memory of a refusal, and no parsing past a request whose
    handler closes the connection or answers later. Built on the documented parseRequest. */
module HttpServing {
  import opened Wrappers
  import opened Decimal
  import opened HttpSyntax
  import opened HttpStream
  import opened HttpRoundTrip

  /** What the handler of a request decides: answered, answered with a close, or still to answer. */
  datatype Reply = KeepOpen | CloseAfter | Later

  datatype Server = Server(context: Context, unread: string, requests: seq<Request>)

  const IDLE := Server(FRESH, "", [])

  /** The loop of the callback. After a close the finished context stays; after a handler that
      answers later the unread bytes stay. */
  function Serve(l: Limits, reply: Request -> Reply, s: Server): Server
    decreases |s.unread|, Rank(s.context.state)
  {
    if s.unread == "" then s
    else
      var o := ParseRequest(l, s.context, s.unread);
      var t := s.(context := o.context, unread := o.unread);
      if !o.ok || o.context.state != GotCompleteRequest then t
      else
        var u := t.(requests := s.requests + [o.context.request]);
        match reply(o.context.request)
        case KeepOpen =>
          CompletedShrinks(l, s.context, s.unread);
          Serve(l, reply, u.(context := FRESH))
        case CloseAfter => u
        case Later => u.(context := FRESH)
  }

  function More(s: Server, bytes: string): Server { s.(unread := s.unread + bytes) }

  /** The callback runs when bytes have arrived. */
  function Arrive(l: Limits, reply: Request -> Reply, s: Server, bytes: string): Server {
    Serve(l, reply, More(s, bytes))
  }

  function ArriveAll(l: Limits, reply: Request -> Reply, s: Server, fragments: seq<string>): Server
    decreases |fragments|
  {
    if fragments == [] then s
    else Arrive(l, reply, ArriveAll(l, reply, s, fragments[..|fragments| - 1]), fragments[|fragments| - 1])
  }

  // ---------- refusals ----------

  /** The call is refused at the blank line, which is then already consumed. */
  predicate BlankRefusal(l: Limits, c: Context, buf: string)
    decreases |buf|, Rank(c.state)
  {
    c.state != GotCompleteRequest &&
    match Advance(l, c, buf)
    case Wait => false
    case Fail(_, rest) => rest != buf
    case Go(d, rest) =>
      GoShrinks(l, c, buf);
      BlankRefusal(l, d, rest)
  }

  /** A refusing step consumes nothing, except at the blank line that ends the headers. */
  lemma RefusalConsumes(l: Limits, c: Context, buf: string)
    requires c.state != GotCompleteRequest && Advance(l, c, buf).Fail?
    ensures var s := Advance(l, c, buf);
            s.rest == buf || (c.state == ExpectHeaders && CrlfAt(buf, 0) && s.rest == buf[2..])
    ensures Advance(l, c, buf).context.state == c.state && c.state != ExpectBody
  {
    hide FindCrlf, ParseRequestLine, ParseHeaderLine;
  }

  /** A refusal that consumed nothing is repeated. */
  lemma RefusalRepeats(l: Limits, c: Context, buf: string, more: string)
    requires c.state != GotCompleteRequest && Advance(l, c, buf).Fail? && Advance(l, c, buf).rest == buf
    ensures var d := Advance(l, c, buf).context;
            d.state != GotCompleteRequest && Advance(l, d, buf + more) == Fail(d, buf + more)
  {
    RefusalConsumes(l, c, buf);
    var d := Advance(l, c, buf).context;
    AdvanceExtended(l, d, buf, more);
    hide FindCrlf, ParseRequestLine, ParseHeaderLine;
  }

  /** Where a call that is refused stops. */
  lemma {:induction false} RefusedAt(l: Limits, c: Context, buf: string)
    requires !ParseRequest(l, c, buf).ok
    ensures var o := ParseRequest(l, c, buf);
            && o.context.state != GotCompleteRequest && o.context.state != ExpectBody
            && (!BlankRefusal(l, c, buf) ==>
                  forall more :: Advance(l, o.context, o.unread + more) == Fail(o.context, o.unread + more))
            && (BlankRefusal(l, c, buf) ==> |o.unread| < |buf| && o.context.state == ExpectHeaders)
    decreases |buf|, Rank(c.state)
  {
    var s := Advance(l, c, buf);
    if s.Go? {
      GoShrinks(l, c, buf);
      hide Advance;
      RefusedAt(l, s.context, s.rest);
    } else {
      hide Advance;
      RefusalConsumes(l, c, buf);
      if s.rest == buf {
        forall more
          ensures Advance(l, s.context, buf + more) == Fail(s.context, buf + more)
        {
          RefusalRepeats(l, c, buf, more);
        }
      }
    }
  }

  ghost predicate RepeatsForever(l: Limits, c: Context, buf: string) {
    forall more :: ParseRequest(l, c, buf + more) == Outcome(false, c, buf + more)
  }

  lemma {:induction false} ParseShrinks(l: Limits, c: Context, buf: string)
    ensures |ParseRequest(l, c, buf).unread| <= |buf|
    decreases |buf|, Rank(c.state)
  {
    if c.state != GotCompleteRequest {
      var s := Advance(l, c, buf);
      if s.Fail? {
        RefusalConsumes(l, c, buf);
      } else if s.Go? {
        GoShrinks(l, c, buf);
        hide Advance;
        ParseShrinks(l, s.context, s.rest);
      }
    }
  }

  /** After a refusal every later call is refused again, with the same error and the same bytes in
      front, exactly when the refusal was not taken at the blank line, or the bytes after that blank
      line are refused for the same reason by themselves. */
  lemma RefusalRepeatsExactly(l: Limits, c: Context, buf: string)
    requires !ParseRequest(l, c, buf).ok
    ensures var o := ParseRequest(l, c, buf);
            && o.context.state != GotCompleteRequest
            && (RepeatsForever(l, o.context, o.unread) <==>
                  !BlankRefusal(l, c, buf) || Advance(l, o.context, o.unread) == Fail(o.context, o.unread))
  {
    RefusedAt(l, c, buf);
    var o := ParseRequest(l, c, buf);
    var d, rest := o.context, o.unread;
    hide Advance, BlankRefusal;
    assert rest + "" == rest;
    if Advance(l, d, rest) == Fail(d, rest) {
      forall more
        ensures ParseRequest(l, d, rest + more) == Outcome(false, d, rest + more)
      {
        AdvanceExtended(l, d, rest, more);
      }
    } else if RepeatsForever(l, d, rest) {
      assert ParseRequest(l, d, rest + "") == Outcome(false, d, rest + "");
      if Advance(l, d, rest).Go? {
        GoShrinks(l, d, rest);
        ParseShrinks(l, Advance(l, d, rest).context, Advance(l, d, rest).rest);
      }
    }
  }

  // ---------- a call and the bytes after it ----------

  lemma {:induction false} ParseExtended(l: Limits, c: Context, buf: string, more: string)
    ensures var o := ParseRequest(l, c, buf);
            ParseRequest(l, c, buf + more) ==
              if !o.ok || o.context.state == GotCompleteRequest then o.(unread := o.unread + more)
              else ParseRequest(l, o.context, o.unread + more)
    ensures BlankRefusal(l, c, buf) ==> BlankRefusal(l, c, buf + more)
    decreases |buf|, Rank(c.state)
  {
    if c.state != GotCompleteRequest {
      AdvanceExtended(l, c, buf, more);
      var s := Advance(l, c, buf);
      if s.Go? {
        GoShrinks(l, c, buf);
        hide Advance;
        ParseExtended(l, s.context, s.rest, more);
      }
    }
  }

  /** A waiting call leaves a context that waits. */
  lemma {:induction false} WaitsAt(l: Limits, c: Context, buf: string)
    requires var o := ParseRequest(l, c, buf); o.ok && o.context.state != GotCompleteRequest
    ensures var o := ParseRequest(l, c, buf); Advance(l, o.context, o.unread) == Wait
    decreases |buf|, Rank(c.state)
  {
    var s := Advance(l, c, buf);
    if s.Go? {
      GoShrinks(l, c, buf);
      hide Advance;
      WaitsAt(l, s.context, s.rest);
    }
  }

  /** The bytes behind the point where a step stopped played no part in it. */
  lemma AdvanceShortened(l: Limits, c: Context, buf: string, more: string)
    requires c.state != GotCompleteRequest
    requires var s := Advance(l, c, buf + more);
             (s.Go? || (s.Fail? && s.rest != buf + more)) && |s.rest| >= |more|
    ensures var s, t := Advance(l, c, buf + more), Advance(l, c, buf);
            && (if s.Go? then t.Go? else t.Fail? && t.rest != buf) && t.context == s.context && s.rest == t.rest + more
  {
    var s := Advance(l, c, buf + more);
    if c.state == ExpectBody {
      TakesAndDrops(buf, more, c.contentLength);
    } else {
      if s.Fail? { RefusalConsumes(l, c, buf + more); }
      var i := FindCrlf(buf + more).value;
      CrlfShortened(buf, more, i);
      TakesAndDrops(buf, more, i);
      TakesAndDrops(buf, more, i + 2);
      AdvanceExtended(l, c, buf, more);
      hide FindCrlf, ParseRequestLine, ParseHeaderLine;
    }
  }

  lemma CrlfShortened(buf: string, more: string, i: nat)
    requires FindCrlf(buf + more) == Some(i) && i + 2 <= |buf|
    ensures FindCrlf(buf) == Some(i)
  {
    assert forall j :: 0 <= j && j + 1 < |buf| ==> (CrlfAt(buf, j) <==> CrlfAt(buf + more, j));
  }

  /** The call ends in a request or in a refusal at the blank line. */
  predicate Decided(l: Limits, c: Context, buf: string) {
    || BlankRefusal(l, c, buf)
    || (ParseRequest(l, c, buf).ok && ParseRequest(l, c, buf).context.state == GotCompleteRequest)
  }

  lemma {:induction false} ParseShortened(l: Limits, c: Context, buf: string, more: string)
    requires Decided(l, c, buf + more) && |ParseRequest(l, c, buf + more).unread| >= |more|
    ensures Decided(l, c, buf)
    ensures var o, p := ParseRequest(l, c, buf), ParseRequest(l, c, buf + more);
            p == o.(unread := o.unread + more)
    decreases |buf|, Rank(c.state)
  {
    if c.state != GotCompleteRequest {
      var s := Advance(l, c, buf + more);
      if s.Go? {
        GoShrinks(l, c, buf + more);
        ParseShrinks(l, s.context, s.rest);
        AdvanceShortened(l, c, buf, more);
        GoShrinks(l, c, buf);
        hide Advance;
        ParseShortened(l, Advance(l, c, buf).context, Advance(l, c, buf).rest, more);
      } else {
        AdvanceShortened(l, c, buf, more);
        hide Advance;
      }
    }
  }

  // ---------- stopping ----------

  /** The callback returned at a blank-line refusal, a close or a late answer, not for want of bytes
      or at a refusal that repeats. */
  predicate Halted(l: Limits, reply: Request -> Reply, s: Server)
    decreases |s.unread|, Rank(s.context.state)
  {
    if s.unread == "" then false
    else
      var o := ParseRequest(l, s.context, s.unread);
      if !o.ok || o.context.state != GotCompleteRequest then BlankRefusal(l, s.context, s.unread)
      else
        reply(o.context.request) != KeepOpen ||
        (CompletedShrinks(l, s.context, s.unread);
         Halted(l, reply, Server(FRESH, o.unread, s.requests + [o.context.request])))
  }

  /** Looking at the bytes once more would change nothing: there are none, they lack an end, or
      they are refused as before. */
  predicate Inert(l: Limits, c: Context, buf: string) {
    buf == "" || (c.state != GotCompleteRequest && (Advance(l, c, buf) == Wait || Advance(l, c, buf) == Fail(c, buf)))
  }

  lemma InertPrefix(l: Limits, c: Context, buf: string, more: string)
    requires Inert(l, c, buf + more)
    ensures Inert(l, c, buf)
  {
    hide Advance;
    if buf != "" {
      AdvanceExtended(l, c, buf, more);
      if Advance(l, c, buf).Fail? { SameFront(Advance(l, c, buf).rest, buf, more); }
    }
  }

  lemma SameFront(a: string, b: string, more: string)
    ensures a + more == b + more ==> a == b
  {
    assert (a + more)[..|a|] == a && (b + more)[..|b|] == b;
    assert a + more == b + more ==> |a| == |b|;
  }

  lemma InertStays(l: Limits, reply: Request -> Reply, s: Server)
    requires Inert(l, s.context, s.unread)
    ensures Serve(l, reply, s) == s
  {
    hide Advance;
  }

  lemma {:induction false} ServeShrinks(l: Limits, reply: Request -> Reply, s: Server)
    ensures |Serve(l, reply, s).unread| <= |s.unread|
    decreases |s.unread|, Rank(s.context.state)
  {
    if s.unread != "" {
      ParseShrinks(l, s.context, s.unread);
      CompletedShrinks(l, s.context, s.unread);
      hide ParseRequest;
      var o := ParseRequest(l, s.context, s.unread);
      if o.ok && o.context.state == GotCompleteRequest && reply(o.context.request) == KeepOpen {
        ServeShrinks(l, reply, Server(FRESH, o.unread, s.requests + [o.context.request]));
      }
    }
  }

  /** Calls with the same outcome lead to the same place. */
  lemma SameOutcome(l: Limits, reply: Request -> Reply, s: Server, t: Server)
    requires s.requests == t.requests && s.unread != ""
    requires ParseRequest(l, s.context, s.unread) == ParseRequest(l, t.context, t.unread)
    requires t.unread == "" ==>
               && ParseRequest(l, t.context, t.unread) == Outcome(true, t.context, "")
               && t.context.state != GotCompleteRequest
    ensures Serve(l, reply, s) == Serve(l, reply, t)
  {
    hide ParseRequest;
  }

  /** More bytes after a call: taken up where it waits, left alone where it halted. */
  lemma {:induction false} ServeMore(l: Limits, reply: Request -> Reply, s: Server, more: string)
    ensures var v := Serve(l, reply, s);
            if Halted(l, reply, s) then Serve(l, reply, More(s, more)) == More(v, more)
            else Serve(l, reply, More(s, more)) == Serve(l, reply, More(v, more)) && Inert(l, v.context, v.unread)
    decreases |s.unread|, Rank(s.context.state)
  {
    hide ParseRequest, Advance, BlankRefusal;
    if s.unread != "" {
      var o := ParseRequest(l, s.context, s.unread);
      ParseExtended(l, s.context, s.unread, more);
      if !o.ok || o.context.state != GotCompleteRequest {
        StoppedMore(l, reply, s, more);
      } else {
        CompletedShrinks(l, s.context, s.unread);
        if reply(o.context.request) == KeepOpen {
          ServeMore(l, reply, Server(FRESH, o.unread, s.requests + [o.context.request]), more);
        }
      }
    }
  }

  lemma StoppedMore(l: Limits, reply: Request -> Reply, s: Server, more: string)
    requires s.unread != ""
    requires var o := ParseRequest(l, s.context, s.unread); !o.ok || o.context.state != GotCompleteRequest
    ensures var v := Serve(l, reply, s);
            if BlankRefusal(l, s.context, s.unread) then Serve(l, reply, More(s, more)) == More(v, more)
            else Serve(l, reply, More(s, more)) == Serve(l, reply, More(v, more)) && Inert(l, v.context, v.unread)
  {
    hide ParseRequest, Advance, BlankRefusal;
    var o := ParseRequest(l, s.context, s.unread);
    var v := s.(context := o.context, unread := o.unread);
    ParseExtended(l, s.context, s.unread, more);
    assert o.unread + "" == o.unread;
    if o.ok {
      NoRefusal(l, s.context, s.unread);
      WaitsAt(l, s.context, s.unread);
      WaitingParse(l, o.context, o.unread);
      SameOutcome(l, reply, More(s, more), More(v, more));
    } else {
      RefusedAt(l, s.context, s.unread);
      if !BlankRefusal(l, s.context, s.unread) {
        assert Advance(l, o.context, o.unread + more) == Fail(o.context, o.unread + more);
        assert Advance(l, o.context, o.unread + "") == Fail(o.context, o.unread + "");
        InertStays(l, reply, More(v, more));
      }
    }
  }

  lemma WaitingParse(l: Limits, c: Context, buf: string)
    requires c.state != GotCompleteRequest && Advance(l, c, buf) == Wait
    ensures ParseRequest(l, c, buf) == Outcome(true, c, buf)
  {
  }

  lemma {:induction false} NoRefusal(l: Limits, c: Context, buf: string)
    requires ParseRequest(l, c, buf).ok
    ensures !BlankRefusal(l, c, buf)
    decreases |buf|, Rank(c.state)
  {
    if c.state != GotCompleteRequest && Advance(l, c, buf).Go? {
      GoShrinks(l, c, buf);
      hide Advance;
      NoRefusal(l, Advance(l, c, buf).context, Advance(l, c, buf).rest);
    }
  }

  // ---------- cutting the stream ----------

  predicate Cuts(fragments: seq<string>, stream: string) {
    Concat(fragments) == stream && forall i :: 0 <= i < |fragments| ==> fragments[i] != ""
  }

  /** However the stream arrives, requests, context with its error, and unread bytes are the same. */
  ghost predicate CutIndependent(l: Limits, reply: Request -> Reply, stream: string) {
    forall fs, gs :: Cuts(fs, stream) && Cuts(gs, stream) ==>
      ArriveAll(l, reply, IDLE, fs) == ArriveAll(l, reply, IDLE, gs)
  }

  lemma {:induction false} ConcatSnoc(fs: seq<string>, f: string)
    ensures Concat(fs + [f]) == Concat(fs) + f
  {
    if fs == [] {
      assert (fs + [f])[1..] == [];
      assert f + "" == "" + f;
    } else {
      assert (fs + [f])[1..] == fs[1..] + [f];
      ConcatSnoc(fs[1..], f);
    }
  }

  /** If nothing of the stream is left unattended at once, no cutting leaves anything. */
  lemma {:induction false} CutAsWhole(l: Limits, reply: Request -> Reply, fs: seq<string>)
    requires var w := Arrive(l, reply, IDLE, Concat(fs)); Inert(l, w.context, w.unread)
    ensures ArriveAll(l, reply, IDLE, fs) == Arrive(l, reply, IDLE, Concat(fs))
    decreases |fs|
  {
    hide Serve, Inert, Halted;
    if fs == [] {
      NothingServed(l, reply);
    } else {
      var n := |fs| - 1;
      var p, q := Concat(fs[..n]), fs[n];
      assert fs == fs[..n] + [q];
      ConcatSnoc(fs[..n], q);
      assert IDLE.unread + (p + q) == IDLE.unread + p + q;
      var s := More(IDLE, p);
      assert More(s, q) == More(IDLE, p + q);
      var v, w := Serve(l, reply, s), Serve(l, reply, More(s, q));
      ServeMore(l, reply, s, q);
      if Halted(l, reply, s) {
        InertPrefix(l, v.context, v.unread, q);
        InertStays(l, reply, w);
      }
      CutAsWhole(l, reply, fs[..n]);
    }
  }

  lemma NothingServed(l: Limits, reply: Request -> Reply)
    ensures Arrive(l, reply, IDLE, "") == IDLE
  {
  }

  /** A halted call had the bytes up to its halt, and would have halted on them alone. */
  lemma {:induction false} HaltShortened(l: Limits, reply: Request -> Reply, s: Server, more: string)
    requires s.context == FRESH && Halted(l, reply, More(s, more)) && |Serve(l, reply, More(s, more)).unread| >= |more|
    ensures s.unread != "" && Halted(l, reply, s) && More(Serve(l, reply, s), more) == Serve(l, reply, More(s, more))
    decreases |s.unread|
  {
    hide ParseRequest, Advance, BlankRefusal;
    var c, buf := s.context, s.unread + more;
    var p := ParseRequest(l, c, buf);
    if p.ok { NoRefusal(l, c, buf); } else { RefusedAt(l, c, buf); }
    CompletedShrinks(l, c, buf);
    if p.ok && p.context.state == GotCompleteRequest && reply(p.context.request) == KeepOpen {
      ServeShrinks(l, reply, Server(FRESH, p.unread, s.requests + [p.context.request]));
    }
    ParseShortened(l, c, s.unread, more);
    var o := ParseRequest(l, c, s.unread);
    if p.ok && p.context.state == GotCompleteRequest && reply(p.context.request) == KeepOpen {
      CompletedShrinks(l, c, s.unread);
      HaltShortened(l, reply, Server(FRESH, o.unread, s.requests + [o.context.request]), more);
    }
  }

  /** Bytes left unattended by a halt are acted on when the callback next runs. */
  lemma LeftoverIsActedOn(l: Limits, reply: Request -> Reply, s: Server)
    requires !Inert(l, s.context, s.unread) && s.context.state != ExpectBody
    ensures Serve(l, reply, s) != s
  {
    var c, buf := s.context, s.unread;
    if c.state == GotCompleteRequest {
      RequestsGrow(l, reply, s.(context := FRESH, requests := s.requests + [c.request]));
    } else if Advance(l, c, buf).Go? {
      GoShrinks(l, c, buf);
      var d := Advance(l, c, buf);
      ParseGoesOn(l, c, buf, d.context, d.rest);
      ParseShrinks(l, d.context, d.rest);
      hide ParseRequest, Advance;
      var o := ParseRequest(l, c, buf);
      ServeShrinks(l, reply, Server(FRESH, o.unread, s.requests + [o.context.request]));
    }
  }

  lemma {:induction false} RequestsGrow(l: Limits, reply: Request -> Reply, s: Server)
    ensures |s.requests| <= |Serve(l, reply, s).requests|
    decreases |s.unread|, Rank(s.context.state)
  {
    if s.unread != "" {
      CompletedShrinks(l, s.context, s.unread);
      hide ParseRequest;
      var o := ParseRequest(l, s.context, s.unread);
      if o.ok && o.context.state == GotCompleteRequest && reply(o.context.request) == KeepOpen {
        RequestsGrow(l, reply, Server(FRESH, o.unread, s.requests + [o.context.request]));
      }
    }
  }

  /** Where a halt leaves the context. */
  lemma {:induction false} HaltedContext(l: Limits, reply: Request -> Reply, s: Server)
    requires Halted(l, reply, s)
    ensures Serve(l, reply, s).context.state != ExpectBody
    decreases |s.unread|, Rank(s.context.state)
  {
    hide ParseRequest, BlankRefusal, Advance;
    CompletedShrinks(l, s.context, s.unread);
    var o := ParseRequest(l, s.context, s.unread);
    if !o.ok {
      RefusedAt(l, s.context, s.unread);
    } else if o.context.state != GotCompleteRequest {
      NoRefusal(l, s.context, s.unread);
    } else if reply(o.context.request) == KeepOpen {
      HaltedContext(l, reply, Server(FRESH, o.unread, s.requests + [o.context.request]));
    }
  }

  lemma {:induction false} UnreadIsSuffix(l: Limits, reply: Request -> Reply, s: Server)
    ensures IsSuffix(Serve(l, reply, s).unread, s.unread)
    decreases |s.unread|, Rank(s.context.state)
  {
    hide ParseRequest, IsSuffix;
    WholeSuffix(s.unread);
    if s.unread != "" {
      ParseSuffix(l, s.context, s.unread);
      CompletedShrinks(l, s.context, s.unread);
      var o := ParseRequest(l, s.context, s.unread);
      if o.ok && o.context.state == GotCompleteRequest && reply(o.context.request) == KeepOpen {
        UnreadIsSuffix(l, reply, Server(FRESH, o.unread, s.requests + [o.context.request]));
        SuffixOfSuffix(s.unread, o.unread, Serve(l, reply, s).unread);
      }
    }
  }

  predicate IsSuffix(b: string, a: string) { |b| <= |a| && a[|a| - |b|..] == b }

  lemma WholeSuffix(a: string)
    ensures IsSuffix(a, a)
  {
  }

  lemma SuffixOfSuffix(a: string, b: string, c: string)
    requires IsSuffix(b, a) && IsSuffix(c, b)
    ensures IsSuffix(c, a)
  {
  }

  lemma {:induction false} ParseSuffix(l: Limits, c: Context, buf: string)
    ensures IsSuffix(ParseRequest(l, c, buf).unread, buf)
    decreases |buf|, Rank(c.state)
  {
    if c.state != GotCompleteRequest {
      var s := Advance(l, c, buf);
      if s.Fail? { RefusalConsumes(l, c, buf); }
      if s.Go? {
        GoShrinks(l, c, buf);
        AdvanceSuffix(l, c, buf);
        hide Advance;
        ParseSuffix(l, s.context, s.rest);
        SuffixOfSuffix(buf, s.rest, ParseRequest(l, c, buf).unread);
      }
    }
  }

  lemma AdvanceSuffix(l: Limits, c: Context, buf: string)
    requires c.state != GotCompleteRequest && Advance(l, c, buf).Go?
    ensures IsSuffix(Advance(l, c, buf).rest, buf)
  {
    hide FindCrlf, ParseRequestLine, ParseHeaderLine;
  }

  /** When the server's answer does not depend on how a stream is cut: exactly when, parsed at once,
      it leaves nothing behind that would be acted on later. */
  lemma CutIndependentExactly(l: Limits, reply: Request -> Reply, stream: string)
    ensures var w := Arrive(l, reply, IDLE, stream);
            CutIndependent(l, reply, stream) <==> Inert(l, w.context, w.unread)
  {
    hide Serve, Inert, Halted;
    var w := Arrive(l, reply, IDLE, stream);
    if Inert(l, w.context, w.unread) {
      forall fs | Cuts(fs, stream)
        ensures ArriveAll(l, reply, IDLE, fs) == w
      {
        CutAsWhole(l, reply, fs);
      }
    } else {
      var fs, gs := TellingCuts(l, reply, stream);
    }
  }

  /** The cut after the halt tells the difference. */
  lemma TellingCuts(l: Limits, reply: Request -> Reply, stream: string) returns (fs: seq<string>, gs: seq<string>)
    requires var w := Arrive(l, reply, IDLE, stream); !Inert(l, w.context, w.unread)
    ensures Cuts(fs, stream) && Cuts(gs, stream) && ArriveAll(l, reply, IDLE, fs) != ArriveAll(l, reply, IDLE, gs)
  {
    var w := Arrive(l, reply, IDLE, stream);
    assert w.unread != "";
    hide Serve, Inert, Halted;
    assert "" + stream == stream;
    UnreadIsSuffix(l, reply, More(IDLE, stream));
    var used, left := stream[..|stream| - |w.unread|], w.unread;
    assert stream == used + left && "" + used == used;
    ServeMore(l, reply, More(IDLE, stream), "");
    var s := More(IDLE, used);
    assert More(s, left) == More(IDLE, stream);
    HaltShortened(l, reply, s, left);
    HaltedContext(l, reply, More(IDLE, stream));
    LeftoverIsActedOn(l, reply, w);
    fs, gs := [stream], [used, left];
    TwoCuts(l, reply, stream, used, left);
  }

  lemma TwoCuts(l: Limits, reply: Request -> Reply, stream: string, used: string, left: string)
    requires stream == used + left && used != "" && left != ""
    ensures Cuts([stream], stream) && Cuts([used, left], stream)
    ensures ArriveAll(l, reply, IDLE, [stream]) == Arrive(l, reply, IDLE, stream)
    ensures ArriveAll(l, reply, IDLE, [used, left]) == Arrive(l, reply, Arrive(l, reply, IDLE, used), left)
  {
    hide Serve;
    assert [used, left][1..] == [left] && [left][1..] == [] && [stream][1..] == [];
    assert Concat([left]) == left && Concat([stream]) == stream;
    assert [used, left][..1] == [used] && [used][..0] == [] && [stream][..0] == [];
  }

  // ---------- against the documented driver ----------

  function Shown(p: Parser): Server { Server(p.context, p.unread, p.requests) }

  /** Handlers that all keep the connection open: one callback on a stream is the documented
      driver on it. */
  lemma {:induction false} ServesAsDocumented(l: Limits, reply: Request -> Reply, s: Server)
    requires (forall r :: reply(r) == KeepOpen) && (s.unread == "" ==> s.context == FRESH)
    ensures Serve(l, reply, s) == Shown(Drain(l, Parser(s.context, s.unread, false, s.requests)))
    decreases |s.unread|, Rank(s.context.state)
  {
    hide Drain, ParseRequest;
    var p := Parser(s.context, s.unread, false, s.requests);
    if s.unread == "" {
      SettledFresh(l, p);
    } else {
      DrainByCalls(l, p);
      CompletedShrinks(l, s.context, s.unread);
      var o := ParseRequest(l, s.context, s.unread);
      if o.ok && o.context.state == GotCompleteRequest {
        ServesAsDocumented(l, reply, Server(FRESH, o.unread, s.requests + [o.context.request]));
      }
    }
  }

  /** With such handlers every cutting of a stream that meets no blank-line refusal gives what the
      documented driver gives; the one that does is the only exception. */
  lemma KeptOpenIsDocumented(l: Limits, reply: Request -> Reply, fragments: seq<string>)
    requires (forall r :: reply(r) == KeepOpen) && !Halted(l, reply, More(IDLE, Concat(fragments)))
    ensures ArriveAll(l, reply, IDLE, fragments) == Shown(FeedAll(l, START, fragments))
    ensures CutIndependent(l, reply, Concat(fragments))
  {
    hide Drain, Serve, Halted, Inert;
    var stream := Concat(fragments);
    ServeMore(l, reply, More(IDLE, stream), "");
    CutAsWhole(l, reply, fragments);
    CutIndependentExactly(l, reply, stream);
    ServesAsDocumented(l, reply, More(IDLE, stream));
    FragmentIndependence(l, fragments, fragments);
  }

  /** Well-formed requests, written one after the other and cut anywhere, are handed out as sent. */
  lemma ServedAsSent(l: Limits, reply: Request -> Reply, ms: seq<Message>, fragments: seq<string>)
    requires (forall r :: reply(r) == KeepOpen) && forall i :: 0 <= i < |ms| ==> Sendable(l, ms[i])
    requires Concat(fragments) == RenderAll(ms)
    ensures ArriveAll(l, reply, IDLE, fragments) == Server(FRESH, "", RequestsOf(ms))
  {
    hide Serve, Drain, Sendable;
    assert "" + RenderAll(ms) == RenderAll(ms);
    ServesAsDocumented(l, reply, More(IDLE, RenderAll(ms)));
    MessagesDrained(l, ms, []);
    assert [] + RequestsOf(ms) == RequestsOf(ms);
    CutAsWhole(l, reply, fragments);
  }

  /** A request whose handler closed the connection is handed out again whenever bytes follow. */
  lemma ClosedRequestServedAgain(l: Limits, reply: Request -> Reply, s: Server, bytes: string)
    requires s.context.state == GotCompleteRequest && reply(s.context.request) == CloseAfter && bytes != ""
    ensures Arrive(l, reply, s, bytes) == More(s, bytes).(requests := s.requests + [s.context.request])
  {
  }

  /** A request whose handler answers later is handed out, and the bytes behind it wait, to be parsed from
      the start when more arrive. */
  lemma LaterWaits(l: Limits, reply: Request -> Reply, done: seq<Request>, m: Message, rest: string)
    requires Sendable(l, m) && reply(RequestOf(m)) == Later
    ensures Serve(l, reply, Server(FRESH, Render(m) + rest, done)) == Server(FRESH, rest, done + [RequestOf(m)])
  {
    hide Sendable, Advance;
    MessageRead(l, m, rest);
    RenderedNotEmpty(m);
  }

  lemma RenderedNotEmpty(m: Message)
    ensures Render(m) != ""
  {
    hide VerbText, RenderHeaders;
  }

  function Rendered(ms: seq<Message>): seq<string> { seq(|ms|, i requires 0 <= i < |ms| => Render(ms[i])) }

  lemma {:induction false} OneMoreRequest(ms: seq<Message>, m: Message)
    ensures RequestsOf(ms + [m]) == RequestsOf(ms) + [RequestOf(m)]
  {
    if ms == [] {
      assert ([] + [m])[1..] == [];
    } else {
      assert (ms + [m])[1..] == ms[1..] + [m];
      OneMoreRequest(ms[1..], m);
    }
  }

  lemma KeptOpen(l: Limits, reply: Request -> Reply, done: seq<Request>, m: Message)
    requires Sendable(l, m) && reply(RequestOf(m)) == KeepOpen
    ensures Serve(l, reply, Server(FRESH, Render(m), done)) == Server(FRESH, "", done + [RequestOf(m)])
  {
    hide Sendable, Advance;
    assert Render(m) + "" == Render(m);
    MessageRead(l, m, "");
    RenderedNotEmpty(m);
  }

  /** Requests that arrive one at a time are each handed out once, in order, whether their handlers answer
      at once or later. */
  lemma {:induction false} ServedOneByOne(l: Limits, reply: Request -> Reply, ms: seq<Message>)
    requires (forall r :: reply(r) != CloseAfter) && forall i :: 0 <= i < |ms| ==> Sendable(l, ms[i])
    ensures ArriveAll(l, reply, IDLE, Rendered(ms)) == Server(FRESH, "", RequestsOf(ms))
    decreases |ms|
  {
    hide Serve, Sendable, Render;
    if ms != [] {
      var n := |ms| - 1;
      var m, fs := ms[n], Rendered(ms);
      assert fs[..n] == Rendered(ms[..n]) && fs[n] == Render(m) && ms[..n] + [m] == ms;
      ServedOneByOne(l, reply, ms[..n]);
      OneMoreRequest(ms[..n], m);
      var done := RequestsOf(ms[..n]);
      assert "" + Render(m) == Render(m) && Render(m) + "" == Render(m);
      if reply(RequestOf(m)) == Later { LaterWaits(l, reply, done, m, ""); } else { KeptOpen(l, reply, done, m); }
    }
  }

  // ---------- a request after a refusal ----------

  lemma {:induction false} ParseIgnoresError(l: Limits, c: Context, e: ParseError, buf: string)
    requires ParseRequest(l, c, buf).ok
    ensures var o := ParseRequest(l, c, buf);
            ParseRequest(l, c.(error := e), buf) == o.(context := o.context.(error := e))
    decreases |buf|, Rank(c.state)
  {
    var d := c.(error := e);
    if c.state != GotCompleteRequest {
      AdvanceIgnoresError(l, c, e, buf);
      var s := Advance(l, c, buf);
      if s.Go? {
        GoShrinks(l, c, buf);
        hide Advance;
        ParseIgnoresError(l, s.context, e, s.rest);
      }
    }
  }

  lemma AdvanceIgnoresError(l: Limits, c: Context, e: ParseError, buf: string)
    requires c.state != GotCompleteRequest && !Advance(l, c, buf).Fail?
    ensures var s := Advance(l, c, buf);
            Advance(l, c.(error := e), buf) == if s.Go? then Go(s.context.(error := e), s.rest) else Wait
  {
    hide FindCrlf, ParseRequestLine, ParseHeaderLine;
  }

  /** A header line that gives the length zero, and the blank line. */
  predicate GivesZero(h: Header) { PlainHeader(h) && Lower(h.key) == CONTENT_LENGTH && ReadSize(h.value) == Size(0) }

  function LastHeader(h: Header): string { HeaderLine(h) + "\r\n" + "\r\n" }

  /** The head of a message whose length header is not a number, with room for one more line. */
  predicate BadLength(l: Limits, m: Message, h: Header) {
    && HeadSendable(l, m) && m.body == "" && |RenderHeaders(m.headers)| + |LastHeader(h)| <= l.maxHeader
    && var hs := RequestOf(m).headers; CONTENT_LENGTH in hs && ReadSize(hs[CONTENT_LENGTH]) == NotANumber
  }

  function AtBlank(m: Message): Context { InHeaders(RequestOf(m), |RenderHeaders(m.headers)|).(error := BadRequest) }

  lemma RefusedAtBlank(l: Limits, m: Message, h: Header, rest: string)
    requires BadLength(l, m, h)
    ensures ParseRequest(l, FRESH, Render(m) + rest) == Outcome(false, AtBlank(m), rest)
    ensures !Encoded(RequestOf(m).headers)
  {
    hide HeadSendable, Advance, ReadSize, RequestLine, RenderHeaders;
    var n := |RenderHeaders(m.headers)|;
    RenderedHead(m, rest);
    assert RequestOf(m).(body := "") == RequestOf(m);
    HeadRead(l, m, rest);
    BlankLine(l, RequestOf(m), n - 2, rest);
  }

  lemma RenderedHead(m: Message, rest: string)
    requires m.body == ""
    ensures Render(m) + rest == RequestLine(m) + "\r\n" + (RenderHeaders(m.headers) + rest)
  {
    hide RequestLine, RenderHeaders;
    assert RenderHeaders(m.headers) + "" == RenderHeaders(m.headers);
  }

  lemma ZeroEnds(l: Limits, r: Request, counted: nat)
    requires CONTENT_LENGTH in r.headers && ReadSize(r.headers[CONTENT_LENGTH]) == Size(0) && !Encoded(r.headers)
    ensures EndOfHeaders(l, InHeaders(r, counted), "") == Go(Finished(r, 0, counted), "")
  {
    hide ReadSize;
  }

  lemma CompletedBy(l: Limits, r: Request, n: nat, h: Header)
    requires GivesZero(h) && !Encoded(r.headers) && n + |LastHeader(h)| <= l.maxHeader
    ensures ParseRequest(l, InHeaders(r, n), LastHeader(h)) ==
            Outcome(true, Finished(r.(headers := r.headers[CONTENT_LENGTH := h.value]), 0, n + |LastHeader(h)|), "")
  {
    hide Advance, ReadSize, PlainHeader, Lower, EndOfHeaders;
    var again := r.(headers := r.headers[CONTENT_LENGTH := h.value]);
    var counted := n + |HeaderLine(h)| + 2;
    assert |LastHeader(h)| == |HeaderLine(h)| + 4;
    OneHeader(l, r, n, h, "\r\n");
    ParseGoesOn(l, InHeaders(r, n), LastHeader(h), InHeaders(again, counted), "\r\n");
    BlankLine(l, again, counted, "");
    assert "\r\n" + "" == "\r\n";
    assert !Encoded(again.headers) by { assert CONTENT_LENGTH != TRANSFER_ENCODING; }
    ZeroEnds(l, again, counted + 2);
    ParseGoesOn(l, InHeaders(again, counted), "\r\n", Finished(again, 0, counted + 2), "");
  }

  /** So the server hands out a request that it has refused: its head with a bad length, then, in a
      later fragment, a length of zero and a blank line. At once, the same bytes hand out nothing. */
  lemma ServedAfterRefusal(l: Limits, reply: Request -> Reply, m: Message, h: Header)
    requires BadLength(l, m, h) && GivesZero(h)
    ensures var more := LastHeader(h);
            && Arrive(l, reply, IDLE, Render(m) + more) == Server(AtBlank(m), more, [])
            && |ArriveAll(l, reply, IDLE, [Render(m), more]).requests| == 1
            && !CutIndependent(l, reply, Render(m) + more)
  {
    hide ParseRequest, ReadSize, HeadSendable, Render, PlainHeader, GivesZero, HeaderLine;
    var more, r, n := LastHeader(h), RequestOf(m), |RenderHeaders(m.headers)|;
    RefusedAtBlank(l, m, h, more);
    RefusedAtBlank(l, m, h, "");
    CompletedBy(l, r, n, h);
    ParseIgnoresError(l, InHeaders(r, n), BadRequest, more);
    RenderedIsSome(m);
    assert Render(m) + "" == Render(m);
    hide BadLength, LastHeader, RequestOf;
    HandsOutLater(l, reply, Render(m), more, AtBlank(m));
  }

  lemma RenderedIsSome(m: Message)
    ensures Render(m) != ""
  {
  }

  /** From what two calls do to what the server does. */
  lemma HandsOutLater(l: Limits, reply: Request -> Reply, first: string, more: string, c: Context)
    requires first != "" && more != "" && ParseRequest(l, FRESH, first + more) == Outcome(false, c, more)
    requires ParseRequest(l, FRESH, first) == Outcome(false, c, "")
    requires var o := ParseRequest(l, c, more); o.ok && o.context.state == GotCompleteRequest && o.unread == ""
    ensures Arrive(l, reply, IDLE, first + more) == Server(c, more, [])
    ensures |ArriveAll(l, reply, IDLE, [first, more]).requests| == 1
    ensures !CutIndependent(l, reply, first + more)
  {
    hide ParseRequest;
    assert "" + first == first && "" + (first + more) == first + more && "" + more == more;
    TwoCuts(l, reply, first + more, first, more);
    assert Arrive(l, reply, IDLE, first) == Server(c, "", []);
    var r := ParseRequest(l, c, more).context.request;
    assert [] + [r] == [r];
    assert Serve(l, reply, Server(FRESH, "", [r])) == Server(FRESH, "", [r]);
  }

  const BAD := Header("Content-Length", "x")
  const ZERO := Header("Content-Length", "0")

  lemma LengthKey()
    ensures Lower("Content-Length") == CONTENT_LENGTH
  {
    assert |CONTENT_LENGTH| == 14;
  }

  lemma ReadLengths()
    ensures ReadSize("0") == Size(0) && ReadSize("x") == NotANumber
  {
    assert DigitPrefix("0") == "0" && DigitPrefix("x") == "";
    assert "0"[..0] == "";
  }

  const EXAMPLE := Message(Get, "/", None, "HTTP/1.1", [BAD], "")

  lemma ExampleText()
    ensures RequestLine(EXAMPLE) == "GET / HTTP/1.1"
    ensures RenderHeaders(EXAMPLE.headers) == "Content-Length: x\r\n\r\n"
    ensures LastHeader(ZERO) == "Content-Length: 0\r\n\r\n"
    ensures Render(EXAMPLE) == "GET / HTTP/1.1\r\nContent-Length: x\r\n\r\n"
  {
    assert HeaderLine(BAD) == "Content-Length: x" && HeaderLine(ZERO) == "Content-Length: 0";
    assert EXAMPLE.headers[1..] == [];
  }

  lemma ExampleHeaders()
    ensures PlainHeader(BAD) && GivesZero(ZERO)
    ensures RequestOf(EXAMPLE).headers == map[CONTENT_LENGTH := "x"] && ReadSize("x") == NotANumber
  {
    hide ReadSize, Lower;
    LengthKey();
    ReadLengths();
    assert HeaderLine(BAD) == "Content-Length: x" && HeaderLine(ZERO) == "Content-Length: 0";
    assert CONTENT_LENGTH != TRANSFER_ENCODING;
    var none: map<string, string> := map[];
    assert EXAMPLE.headers[1..] == [];
    assert Collect(none, EXAMPLE.headers) == Collect(none[CONTENT_LENGTH := "x"], []);
  }

  /** For instance GET / with length x, and then length 0, under any limits that admit them. */
  lemma RefusedThenServedExample(l: Limits, reply: Request -> Reply)
    requires l.maxRequestLine >= 16 && l.maxHeader >= 42
    ensures |ArriveAll(l, reply, IDLE,
                       ["GET / HTTP/1.1\r\nContent-Length: x\r\n\r\n", "Content-Length: 0\r\n\r\n"]).requests| == 1
    ensures Arrive(l, reply, IDLE,
                   "GET / HTTP/1.1\r\nContent-Length: x\r\n\r\n" + "Content-Length: 0\r\n\r\n").requests == []
  {
    hide ReadSize, Lower, Serve, PlainHeader, GivesZero, Render, RenderHeaders, Collect, LastHeader;
    ExampleText();
    ExampleHeaders();
    assert BadLength(l, EXAMPLE, ZERO);
    ServedAfterRefusal(l, reply, EXAMPLE, ZERO);
  }
}
