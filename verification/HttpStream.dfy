/** Parsing a byte stream that arrives in pieces: the documented driver, which returns and waits
    on incomplete input, and the loop as it is written, which does not. */
module HttpStream {
  import opened Wrappers
  import opened HttpSyntax

  // ---------- the documented driver ----------

  /** A connection's parser: unread bytes, the requests handed out, and whether it has refused. */
  datatype Parser = Parser(context: Context, unread: string, refused: bool, requests: seq<Request>)

  const START := Parser(FRESH, "", false, [])

  /** Parse as far as the bytes allow, handing out each complete request and resetting for the next. */
  function Drain(l: Limits, p: Parser): Parser
    decreases |p.unread|, Rank(p.context.state)
  {
    if p.refused then p
    else if p.context.state == GotCompleteRequest then
      Drain(l, p.(context := FRESH, requests := p.requests + [p.context.request]))
    else
      match Advance(l, p.context, p.unread)
      case Wait => p
      case Fail(c, rest) => p.(context := c, unread := rest, refused := true)
      case Go(c, rest) =>
        GoShrinks(l, p.context, p.unread);
        Drain(l, p.(context := c, unread := rest))
  }

  function Feed(l: Limits, p: Parser, bytes: string): Parser { Drain(l, p.(unread := p.unread + bytes)) }

  function FeedAll(l: Limits, p: Parser, fragments: seq<string>): Parser
    decreases |fragments|
  {
    if fragments == [] then p else FeedAll(l, Feed(l, p, fragments[0]), fragments[1..])
  }

  function Concat(fragments: seq<string>): string {
    if fragments == [] then "" else fragments[0] + Concat(fragments[1..])
  }

  lemma {:induction false} DrainThenMore(l: Limits, p: Parser, more: string)
    ensures Drain(l, p.(unread := p.unread + more)) == Feed(l, Drain(l, p), more)
    decreases |p.unread|, Rank(p.context.state)
  {
    var q := p.(unread := p.unread + more);
    if p.refused {
    } else if p.context.state == GotCompleteRequest {
      var next := p.(context := FRESH, requests := p.requests + [p.context.request]);
      DrainThenMore(l, next, more);
      assert next.(unread := next.unread + more) == q.(context := FRESH, requests := q.requests + [q.context.request]);
    } else {
      AdvanceExtended(l, p.context, p.unread, more);
      match Advance(l, p.context, p.unread)
      case Wait =>
      case Fail(c, rest) =>
      case Go(c, rest) =>
        GoShrinks(l, p.context, p.unread);
        var next := p.(context := c, unread := rest);
        DrainThenMore(l, next, more);
        assert next.(unread := next.unread + more) == q.(context := c, unread := rest + more);
    }
  }

  lemma {:induction false} FeedAllIsOneFeed(l: Limits, p: Parser, fragments: seq<string>)
    requires p == Drain(l, p)
    ensures FeedAll(l, p, fragments) == Feed(l, p, Concat(fragments))
    decreases |fragments|
  {
    if fragments == [] {
      FeedNothing(l, p);
    } else {
      var a := p.(unread := p.unread + fragments[0]);
      var d := Feed(l, p, fragments[0]);
      DrainIdempotent(l, a);
      FeedAllIsOneFeed(l, d, fragments[1..]);
      TwoFeeds(l, p, fragments[0], Concat(fragments[1..]));
    }
  }

  lemma FeedNothing(l: Limits, p: Parser)
    ensures Feed(l, p, "") == Drain(l, p)
  {
    assert p.unread + "" == p.unread;
    assert p.(unread := p.unread) == p;
  }

  lemma TwoFeeds(l: Limits, p: Parser, first: string, rest: string)
    ensures Feed(l, Feed(l, p, first), rest) == Feed(l, p, first + rest)
  {
    hide Advance;
    var a := p.(unread := p.unread + first);
    DrainThenMore(l, a, rest);
    assert a.unread + rest == p.unread + (first + rest);
  }

  lemma DrainIdempotent(l: Limits, p: Parser)
    ensures Drain(l, Drain(l, p)) == Drain(l, p)
  {
    DrainThenMore(l, p, "");
    FeedNothing(l, Drain(l, p));
    assert p.unread + "" == p.unread && p.(unread := p.unread) == p;
  }

  /** For every byte stream, every limits setting and every way of cutting the stream, the
      requests, the error kind, the state and the unread bytes are those of parsing the whole
      stream at once. */
  lemma FragmentIndependence(l: Limits, fragments: seq<string>, others: seq<string>)
    requires Concat(fragments) == Concat(others)
    ensures FeedAll(l, START, fragments) == FeedAll(l, START, others)
    ensures FeedAll(l, START, fragments) == Feed(l, START, Concat(fragments))
  {
    FeedAllIsOneFeed(l, START, fragments);
    FeedAllIsOneFeed(l, START, others);
  }

  lemma SettledFresh(l: Limits, p: Parser)
    ensures p.context == FRESH && p.unread == "" ==> Drain(l, p) == p
  {
    assert FindCrlf("") == None;
  }

  // ---------- one call of parseRequest ----------

  /** What a call leaves behind; ok is its return value. */
  datatype Outcome = Outcome(ok: bool, context: Context, unread: string)

  /** The documented parseRequest: return true and wait when bytes are missing. */
  function ParseRequest(l: Limits, c: Context, buf: string): Outcome
    decreases |buf|, Rank(c.state)
  {
    if c.state == GotCompleteRequest then Outcome(true, c, buf)
    else
      match Advance(l, c, buf)
      case Wait => Outcome(true, c, buf)
      case Fail(d, rest) => Outcome(false, d, rest)
      case Go(d, rest) =>
        GoShrinks(l, c, buf);
        ParseRequest(l, d, rest)
  }

  lemma ParseGoesOn(l: Limits, c: Context, buf: string, d: Context, rest: string)
    requires c.state != GotCompleteRequest && Advance(l, c, buf) == Go(d, rest)
    ensures ParseRequest(l, c, buf) == ParseRequest(l, d, rest)
  {
  }

  /** A call that ends in a complete request has consumed bytes, or started from one. */
  lemma {:induction false} CompletedShrinks(l: Limits, c: Context, buf: string)
    ensures var o := ParseRequest(l, c, buf);
            o.ok && o.context.state == GotCompleteRequest ==>
              |o.unread| < |buf| || (|o.unread| == |buf| && Rank(c.state) >= 1)
    decreases |buf|, Rank(c.state)
  {
    if c.state != GotCompleteRequest && Advance(l, c, buf).Go? {
      GoShrinks(l, c, buf);
      CompletedShrinks(l, Advance(l, c, buf).context, Advance(l, c, buf).rest);
    }
  }

  /** Calling parseRequest and handing out what it completes is what Drain does. */
  lemma {:induction false} DrainByCalls(l: Limits, p: Parser)
    requires !p.refused
    ensures var o := ParseRequest(l, p.context, p.unread);
            Drain(l, p) == if o.ok && o.context.state == GotCompleteRequest
                           then Drain(l, p.(context := FRESH, unread := o.unread,
                                            requests := p.requests + [o.context.request]))
                           else p.(context := o.context, unread := o.unread, refused := !o.ok)
    decreases |p.unread|, Rank(p.context.state)
  {
    if p.context.state != GotCompleteRequest && Advance(l, p.context, p.unread).Go? {
      GoShrinks(l, p.context, p.unread);
      var s := Advance(l, p.context, p.unread);
      DrainByCalls(l, p.(context := s.context, unread := s.rest));
    }
  }

  // ---------- the loop as written ----------

  /** One turn of the switch in parseRequest either returns or goes round again. */
  datatype Turn = Return(outcome: Outcome) | Again(context: Context, unread: string)

  /** parseHeaders: consumes header lines until one is missing or the headers are over; in both
      cases it returns true. */
  function HeadersTurn(l: Limits, c: Context, buf: string): Turn
    decreases |buf|
  {
    if c.state != ExpectHeaders then Again(c, buf)
    else
      match Advance(l, c, buf)
      case Wait => Again(c, buf)
      case Fail(d, rest) => Return(Outcome(false, d, rest))
      case Go(d, rest) => HeadersTurn(l, d, rest)
  }

  function TurnOf(l: Limits, c: Context, buf: string): Turn
    requires c.state != GotCompleteRequest
  {
    if c.state == ExpectHeaders then HeadersTurn(l, c, buf)
    else
      match Advance(l, c, buf)
      case Wait => if c.state == ExpectRequestLine then Return(Outcome(true, c, buf)) else Again(c, buf)
      case Fail(d, rest) => Return(Outcome(false, d, rest))
      case Go(d, rest) => Again(d, rest)
  }

  lemma {:induction false} HeadersTurnProgress(l: Limits, c: Context, buf: string)
    requires c.state == ExpectHeaders && HeadersTurn(l, c, buf).Again?
    ensures var t := HeadersTurn(l, c, buf);
            |t.unread| < |buf| || (t == Again(c, buf) && Advance(l, c, buf) == Wait)
    ensures Advance(l, c, buf) == Wait ==> HeadersTurn(l, c, buf) == Again(c, buf)
    decreases |buf|
  {
    var s := Advance(l, c, buf);
    if s.Go? && s.context.state == ExpectHeaders {
      HeadersTurnProgress(l, s.context, s.rest);
    }
  }

  /** parseHeaders returns from the loop only to fail; when the headers are not over after a
      turn, more bytes are needed. */
  lemma {:induction false} HeadersTurnStops(l: Limits, c: Context, buf: string)
    ensures var t := HeadersTurn(l, c, buf);
            if t.Return? then !t.outcome.ok
            else t.context.state == ExpectHeaders ==> Advance(l, t.context, t.unread) == Wait
    decreases |buf|
  {
    if c.state == ExpectHeaders && Advance(l, c, buf).Go? {
      HeadersTurnStops(l, Advance(l, c, buf).context, Advance(l, c, buf).rest);
    }
  }

  /** Each turn returns, or strictly decreases unread bytes and remaining states, or changes
      nothing at all; and it changes nothing exactly when the buffer ends inside the headers or
      the body. */
  lemma TurnProgress(l: Limits, c: Context, buf: string)
    requires c.state != GotCompleteRequest && TurnOf(l, c, buf).Again?
    ensures var t := TurnOf(l, c, buf);
            || |t.unread| < |buf|
            || (|t.unread| == |buf| && Rank(t.context.state) < Rank(c.state))
            || t == Again(c, buf)
    ensures TurnOf(l, c, buf) == Again(c, buf) <==>
            c.state in {ExpectHeaders, ExpectBody} && Advance(l, c, buf) == Wait
  {
    if c.state == ExpectHeaders {
      HeadersTurnProgress(l, c, buf);
    } else if Advance(l, c, buf).Go? {
      GoShrinks(l, c, buf);
    }
  }

  /** The loop has returned after at most n turns, with this outcome. */
  predicate ReturnsWithin(l: Limits, c: Context, buf: string, n: nat, o: Outcome)
    decreases n
  {
    if c.state == GotCompleteRequest then o == Outcome(true, c, buf)
    else
      match TurnOf(l, c, buf)
      case Return(r) => n > 0 && o == r
      case Again(d, rest) => n > 0 && ReturnsWithin(l, d, rest, n - 1, o)
  }

  ghost predicate Terminates(l: Limits, c: Context, buf: string) {
    exists n: nat, o :: ReturnsWithin(l, c, buf, n, o)
  }

  /** The bytes run out inside the headers or the body. */
  predicate EndsInside(l: Limits, c: Context, buf: string) {
    var o := ParseRequest(l, c, buf);
    o.ok && o.context.state in {ExpectHeaders, ExpectBody}
  }

  lemma {:induction false} HeadersTurnIsParse(l: Limits, c: Context, buf: string)
    requires c.state != GotCompleteRequest
    ensures match HeadersTurn(l, c, buf)
            case Return(r) => r == ParseRequest(l, c, buf) && !r.ok
            case Again(d, rest) => ParseRequest(l, d, rest) == ParseRequest(l, c, buf)
    decreases |buf|
  {
    if c.state == ExpectHeaders && Advance(l, c, buf).Go? {
      var s := Advance(l, c, buf);
      if s.context.state != GotCompleteRequest { HeadersTurnIsParse(l, s.context, s.rest); }
    }
  }

  lemma TurnIsParse(l: Limits, c: Context, buf: string)
    requires c.state != GotCompleteRequest
    ensures match TurnOf(l, c, buf)
            case Return(r) => r == ParseRequest(l, c, buf) && (r.ok ==> r.context.state == ExpectRequestLine)
            case Again(d, rest) => ParseRequest(l, d, rest) == ParseRequest(l, c, buf)
  {
    if c.state == ExpectHeaders { HeadersTurnIsParse(l, c, buf); }
  }

  lemma {:induction false} ReturnsTheParse(l: Limits, c: Context, buf: string, n: nat, o: Outcome)
    requires ReturnsWithin(l, c, buf, n, o)
    ensures o == ParseRequest(l, c, buf) && !EndsInside(l, c, buf)
    decreases n
  {
    hide Advance, TurnOf;
    if c.state != GotCompleteRequest {
      TurnIsParse(l, c, buf);
      match TurnOf(l, c, buf)
      case Return(_) =>
      case Again(d, rest) => ReturnsTheParse(l, d, rest, n - 1, o);
    }
  }

  lemma {:induction false} ReturnsEventually(l: Limits, c: Context, buf: string) returns (n: nat)
    requires !EndsInside(l, c, buf)
    ensures ReturnsWithin(l, c, buf, n, ParseRequest(l, c, buf))
    decreases |buf|, Rank(c.state)
  {
    hide Advance, TurnOf;
    n := 0;
    if c.state != GotCompleteRequest {
      TurnIsParse(l, c, buf);
      match TurnOf(l, c, buf)
      case Return(_) => n := 1;
      case Again(d, rest) =>
        TurnProgress(l, c, buf);
        n := ReturnsEventually(l, d, rest);
        n := n + 1;
    }
  }

  /** The loop as written returns exactly when the buffer does not end inside the headers or the
      body, and then it returns what the documented call does. On every other input it spins. */
  lemma WrittenLoopTerminatesExactly(l: Limits, c: Context, buf: string)
    ensures Terminates(l, c, buf) <==> !EndsInside(l, c, buf)
    ensures forall n: nat, o :: ReturnsWithin(l, c, buf, n, o) ==> o == ParseRequest(l, c, buf)
  {
    forall n: nat, o | ReturnsWithin(l, c, buf, n, o)
      ensures o == ParseRequest(l, c, buf) && !EndsInside(l, c, buf)
    {
      ReturnsTheParse(l, c, buf, n, o);
    }
    if !EndsInside(l, c, buf) {
      var n := ReturnsEventually(l, c, buf);
    }
  }
}
