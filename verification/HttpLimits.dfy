/** The limits hold for everything the server hands out or waits for, also across refusals, closed
    connections and any cutting; and whatever exceeds them is refused with its own reason. */
module HttpLimits {
  import opened Wrappers
  import opened Decimal
  import opened HttpSyntax
  import opened HttpStream
  import opened HttpRoundTrip
  import opened HttpServing
  import opened HttpGrammar

  // ---------- requests that may be handed out ----------

  /** The request's line and headers are these, up to the body. */
  ghost predicate HeadIs(l: Limits, r: Request, bytes: nat, line: string, target: string, first: Request,
                         lines: seq<string>, hs: seq<Header>) {
    && |line| + 2 <= l.maxRequestLine && LineSays(line, target, first)
    && HeaderSection(lines, hs) && |JoinLines(lines)| <= bytes <= l.maxHeader
    && r.(body := "") == first.(headers := Collect(map[], hs))
  }

  /** The request was written with a request line and header lines within their limits. */
  ghost predicate HeadPermitted(l: Limits, r: Request, bytes: nat) {
    exists line, target, first, lines, hs :: HeadIs(l, r, bytes, line, target, first, lines, hs)
  }

  /** Request line, headers and body are within their limits, and the body is as long as the length header
      says. */
  ghost predicate Permitted(l: Limits, r: Request) {
    l.maxHeader >= 2 && HeadPermitted(l, r, l.maxHeader - 2) && |r.body| <= l.maxBody && LengthIs(r.headers, |r.body|)
  }

  /** What a context has taken so far is within the limits, and a body it waits for is. */
  ghost predicate Within(l: Limits, c: Context) {
    match c.state
    case ExpectRequestLine => c.request == EMPTY_REQUEST && c.headerBytes == 0
    case ExpectHeaders => c.request.body == "" && HeadPermitted(l, c.request, c.headerBytes)
    case ExpectBody =>
      && c.request.body == "" && c.headerBytes >= 2 && HeadPermitted(l, c.request, c.headerBytes - 2)
      && c.headerBytes <= l.maxHeader && 0 < c.contentLength <= l.maxBody
      && LengthIs(c.request.headers, c.contentLength)
    case GotCompleteRequest => Permitted(l, c.request)
  }

  lemma HeadLater(l: Limits, r: Request, q: Request, bytes: nat, more: nat)
    requires HeadPermitted(l, r, bytes) && bytes <= more <= l.maxHeader && q.(body := "") == r.(body := "")
    ensures HeadPermitted(l, q, more)
  {
    var line, target, first, lines, hs :| HeadIs(l, r, bytes, line, target, first, lines, hs);
    assert HeadIs(l, q, more, line, target, first, lines, hs);
  }

  lemma HeadBegins(l: Limits, line: string, r: Request)
    requires |line| + 2 <= l.maxRequestLine && ParseRequestLine(line, EMPTY_REQUEST) == Some(r)
    ensures r.body == "" && HeadPermitted(l, r, 0)
  {
    LineWritten(line);
    var target :| LineSays(line, target, r);
    hide ParseRequestLine;
    assert r.(body := "") == r.(headers := Collect(map[], []));
    assert HeadIs(l, r, 0, line, target, r, [], []);
  }

  lemma {:induction false} JoinOneMore(lines: seq<string>, line: string)
    ensures JoinLines(lines + [line]) == JoinLines(lines) + line + "\r\n"
  {
    if lines == [] {
      assert JoinLines([line]) == line + "\r\n" + JoinLines([line][1..]);
    } else {
      assert (lines + [line])[1..] == lines[1..] + [line];
      JoinOneMore(lines[1..], line);
    }
  }

  lemma {:induction false} CollectOneMore(known: map<string, string>, hs: seq<Header>, h: Header)
    ensures Collect(known, hs + [h]) == Collect(known, hs)[Lower(h.key) := h.value]
    decreases |hs|
  {
    if hs == [] {
      assert (hs + [h])[1..] == [];
    } else {
      assert (hs + [h])[1..] == hs[1..] + [h];
      CollectOneMore(known[Lower(hs[0].key) := hs[0].value], hs[1..], h);
    }
  }

  lemma HeadGrows(l: Limits, r: Request, bytes: nat, line: string, h: Header)
    requires HeadPermitted(l, r, bytes) && r.body == "" && NoCrlf(line) && SaysHeader(line, h) && !Encodes(h)
    requires bytes + |line| + 2 <= l.maxHeader
    ensures HeadPermitted(l, r.(headers := r.headers[Lower(h.key) := h.value]), bytes + |line| + 2)
  {
    hide Lower, LineSays, SaysHeader, Encodes, NoCrlf;
    var reqLine, target, first, lines, hs :| HeadIs(l, r, bytes, reqLine, target, first, lines, hs);
    JoinOneMore(lines, line);
    CollectOneMore(map[], hs, h);
    assert HeadIs(l, r.(headers := r.headers[Lower(h.key) := h.value]), bytes + |line| + 2, reqLine, target, first,
                  lines + [line], hs + [h]);
  }

  // ---------- every step stays within ----------

  lemma LineStepWithin(l: Limits, c: Context, buf: string)
    requires Within(l, c) && c.state == ExpectRequestLine
    ensures var s := Advance(l, c, buf); !s.Wait? ==> Within(l, s.context)
  {
    if Advance(l, c, buf).Go? {
      HeadBegins(l, buf[..FindCrlf(buf).value], Advance(l, c, buf).context.request);
    }
    hide FindCrlf, ParseRequestLine, HeadPermitted;
  }

  lemma HeaderStepWithin(l: Limits, c: Context, buf: string)
    requires Within(l, c) && c.state == ExpectHeaders && !CrlfAt(buf, 0)
    ensures var s := Advance(l, c, buf); !s.Wait? ==> Within(l, s.context)
  {
    if Advance(l, c, buf).Go? {
      var i := FindCrlf(buf).value;
      FirstLineEnds(buf);
      var line := buf[..i];
      HeaderWritten(line);
      var h := Header(line[..IndexOf(line, ':')], ParseHeaderLine(line).value.value);
      hide FindCrlf, ParseHeaderLine, HeadPermitted, SaysHeader, Lower;
      HeadGrows(l, c.request, c.headerBytes, line, h);
    }
    hide FindCrlf, ParseHeaderLine, HeadPermitted;
  }

  lemma SizeIsLength(headers: map<string, string>)
    requires CONTENT_LENGTH in headers && ReadSize(headers[CONTENT_LENGTH]).Size?
    ensures LengthIs(headers, ReadSize(headers[CONTENT_LENGTH]).value)
  {
  }

  lemma BlankStepWithin(l: Limits, c: Context, buf: string)
    requires Within(l, c) && c.state == ExpectHeaders && CrlfAt(buf, 0)
    ensures var s := Advance(l, c, buf); !s.Wait? ==> Within(l, s.context)
  {
    assert FindCrlf(buf) == Some(0);
    var hs := c.request.headers;
    var s := Advance(l, c, buf);
    if CONTENT_LENGTH in hs && ReadSize(hs[CONTENT_LENGTH]).Size? { SizeIsLength(hs); }
    hide FindCrlf, HeadPermitted, ReadSize;
    if c.headerBytes + 2 <= l.maxHeader {
      HeadLater(l, c.request, c.request, c.headerBytes, c.headerBytes + 2);
      HeadLater(l, c.request, c.request, c.headerBytes, l.maxHeader - 2);
    }
  }

  lemma BodyStepWithin(l: Limits, c: Context, buf: string)
    requires Within(l, c) && c.state == ExpectBody
    ensures var s := Advance(l, c, buf); !s.Wait? ==> Within(l, s.context)
  {
    if Advance(l, c, buf).Go? {
      HeadLater(l, c.request, Advance(l, c, buf).context.request, c.headerBytes - 2, l.maxHeader - 2);
    }
    hide HeadPermitted, LengthIs;
  }

  lemma StepWithin(l: Limits, c: Context, buf: string)
    requires Within(l, c) && c.state != GotCompleteRequest
    ensures var s := Advance(l, c, buf); !s.Wait? ==> Within(l, s.context)
  {
    hide Within, Advance;
    match c.state
    case ExpectRequestLine => LineStepWithin(l, c, buf);
    case ExpectHeaders => if CrlfAt(buf, 0) { BlankStepWithin(l, c, buf); } else { HeaderStepWithin(l, c, buf); }
    case ExpectBody => BodyStepWithin(l, c, buf);
  }

  lemma {:induction false} ParseWithin(l: Limits, c: Context, buf: string)
    requires Within(l, c)
    ensures Within(l, ParseRequest(l, c, buf).context)
    decreases |buf|, Rank(c.state)
  {
    hide Within;
    if c.state != GotCompleteRequest {
      StepWithin(l, c, buf);
      if Advance(l, c, buf).Go? {
        GoShrinks(l, c, buf);
        hide Advance;
        ParseWithin(l, Advance(l, c, buf).context, Advance(l, c, buf).rest);
      }
    }
  }

  // ---------- the server ----------

  ghost predicate ServesWithin(l: Limits, s: Server) {
    Within(l, s.context) && forall i :: 0 <= i < |s.requests| ==> Permitted(l, s.requests[i])
  }

  lemma FreshWithin(l: Limits)
    ensures Within(l, FRESH)
  {
  }

  lemma PermittedWhenComplete(l: Limits, c: Context)
    requires Within(l, c) && c.state == GotCompleteRequest
    ensures Permitted(l, c.request)
  {
  }

  lemma {:induction false} ServeWithin(l: Limits, reply: Request -> Reply, s: Server)
    requires ServesWithin(l, s)
    ensures ServesWithin(l, Serve(l, reply, s))
    decreases |s.unread|, Rank(s.context.state)
  {
    hide Within, Permitted;
    if s.unread != "" {
      ParseWithin(l, s.context, s.unread);
      FreshWithin(l);
      var o := ParseRequest(l, s.context, s.unread);
      if o.ok && o.context.state == GotCompleteRequest {
        PermittedWhenComplete(l, o.context);
        if reply(o.context.request).KeepOpen? {
          CompletedShrinks(l, s.context, s.unread);
          ServeWithin(l, reply, Server(FRESH, o.unread, s.requests + [o.context.request]));
        }
      }
    }
  }

  lemma {:induction false} ArriveAllWithin(l: Limits, reply: Request -> Reply, fragments: seq<string>)
    ensures ServesWithin(l, ArriveAll(l, reply, IDLE, fragments))
    decreases |fragments|
  {
    hide Within, Permitted;
    if fragments == [] {
      FreshWithin(l);
    } else {
      ArriveAllWithin(l, reply, fragments[..|fragments| - 1]);
      ServeWithin(l, reply, More(ArriveAll(l, reply, IDLE, fragments[..|fragments| - 1]), fragments[|fragments| - 1]));
    }
  }

  /** Whatever arrives, however it is cut, whatever the handlers decide and whatever has been refused
      before: every request handed out has its request line, its headers and its body within the limits,
      and no context waits for a body above its limit. */
  lemma HandedOutWithinLimits(l: Limits, reply: Request -> Reply, fragments: seq<string>)
    ensures var s := ArriveAll(l, reply, IDLE, fragments);
            && (forall i :: 0 <= i < |s.requests| ==> Permitted(l, s.requests[i]))
            && (s.context.state == ExpectBody ==> s.context.contentLength <= l.maxBody)
  {
    ArriveAllWithin(l, reply, fragments);
    hide Permitted, HeadPermitted;
  }

  // ---------- what is kept unread ----------

  /** A call that waits leaves no more unread than its limit allows at that point. */
  lemma {:induction false} WaitsWithinLimits(l: Limits, c: Context, buf: string)
    requires c.state != GotCompleteRequest
    ensures var o := ParseRequest(l, c, buf);
            o.ok ==> match o.context.state
                     case ExpectRequestLine => |o.unread| <= l.maxRequestLine
                     case ExpectHeaders => o.context.headerBytes + |o.unread| <= l.maxHeader
                     case ExpectBody => |o.unread| < o.context.contentLength
                     case GotCompleteRequest => true
    decreases |buf|, Rank(c.state)
  {
    if Advance(l, c, buf).Go? {
      GoShrinks(l, c, buf);
      var s := Advance(l, c, buf);
      hide Advance;
      if s.context.state != GotCompleteRequest { WaitsWithinLimits(l, s.context, s.rest); }
    } else {
      hide FindCrlf, ParseRequestLine, ParseHeaderLine;
    }
  }

  // ---------- the documented driver ----------

  ghost predicate DrivesWithin(l: Limits, p: Parser) {
    Within(l, p.context) && forall i :: 0 <= i < |p.requests| ==> Permitted(l, p.requests[i])
  }

  lemma {:induction false} DrainWithin(l: Limits, p: Parser)
    requires DrivesWithin(l, p)
    ensures DrivesWithin(l, Drain(l, p))
    decreases |p.unread|, Rank(p.context.state)
  {
    hide Within, Permitted, Advance;
    if p.refused {
    } else if p.context.state == GotCompleteRequest {
      FreshWithin(l);
      PermittedWhenComplete(l, p.context);
      DrainWithin(l, p.(context := FRESH, requests := p.requests + [p.context.request]));
    } else {
      StepWithin(l, p.context, p.unread);
      var s := Advance(l, p.context, p.unread);
      if s.Go? {
        GoShrinks(l, p.context, p.unread);
        DrainWithin(l, p.(context := s.context, unread := s.rest));
      }
    }
  }

  /** The documented driver hands out nothing beyond the limits either. */
  lemma {:induction false} DrivenWithinLimits(l: Limits, p: Parser, fragments: seq<string>)
    requires DrivesWithin(l, p)
    ensures DrivesWithin(l, FeedAll(l, p, fragments))
    decreases |fragments|
  {
    hide Within, Permitted;
    if fragments != [] {
      DrainWithin(l, p.(unread := p.unread + fragments[0]));
      DrivenWithinLimits(l, Feed(l, p, fragments[0]), fragments[1..]);
    }
  }

  // ---------- each excess has its own refusal ----------

  /** A stream that reads as refused makes the idle server refuse with that reason and hand out nothing. */
  lemma RefusedAsWritten(l: Limits, reply: Request -> Reply, s: string, v: Reading)
    requires Reads(l, s, v) && VerdictOf(s, v).Refuses? && s != ""
    ensures var t := Arrive(l, reply, IDLE, s);
            && t.requests == [] && t.context.state != GotCompleteRequest
            && t.context.error == VerdictOf(s, v).error && t.unread == VerdictOf(s, v).unread
    ensures !ParseRequest(l, FRESH, s).ok
  {
    ParsedAsWritten(l, s, v);
    hide Reads, VerdictOf;
    assert "" + s == s;
    var o := ParseRequest(l, FRESH, s);
    if o.context.state == GotCompleteRequest { RefusedIsOpen(l, FRESH, s); }
  }

  lemma {:induction false} RefusedIsOpen(l: Limits, c: Context, buf: string)
    requires !ParseRequest(l, c, buf).ok
    ensures ParseRequest(l, c, buf).context.state != GotCompleteRequest
  {
    RefusedAt(l, c, buf);
  }

  function LinesOf(hs: seq<Header>): seq<string> { seq(|hs|, i requires 0 <= i < |hs| => HeaderLine(hs[i])) }

  lemma {:induction false} RenderedLines(hs: seq<Header>)
    ensures RenderHeaders(hs) == JoinLines(LinesOf(hs)) + "\r\n"
    decreases |hs|
  {
    if hs != [] {
      RenderedLines(hs[1..]);
      assert LinesOf(hs)[1..] == LinesOf(hs[1..]);
    }
  }

  predicate PlainHeaders(hs: seq<Header>) { forall i :: 0 <= i < |hs| ==> PlainHeader(hs[i]) }

  lemma PlainSection(hs: seq<Header>)
    requires PlainHeaders(hs)
    ensures HeaderSection(LinesOf(hs), hs)
  {
    forall i | 0 <= i < |hs|
      ensures NoCrlf(LinesOf(hs)[i]) && SaysHeader(LinesOf(hs)[i], hs[i]) && !Encodes(hs[i])
    {
      OneBlank(hs[i]);
    }
  }

  lemma OneBlank(h: Header)
    requires ':' !in h.key && (h.value != "" ==> h.value[0] != ' ')
    ensures SaysHeader(HeaderLine(h), h)
  {
    assert Blanks(1) == " ";
    assert HeaderSays(HeaderLine(h), 1, h);
  }

  /** A well-formed request line. */
  predicate PlainLine(m: Message) {
    m.verb != Invalid && ' ' !in Target(m) && '?' !in m.path && NoCrlf(RequestLine(m))
  }

  function FirstOf(m: Message): Request { RequestOf(m).(headers := map[], body := "") }

  lemma PlainLineSays(m: Message)
    requires PlainLine(m)
    ensures LineSays(RequestLine(m), Target(m), FirstOf(m))
  {
  }

  /** The reading of a rendered head that goes on like this. */
  function Rendered(m: Message, tail: string, end: HeadEnd): Reading {
    Reading.Head(RequestLine(m), Target(m), FirstOf(m), LinesOf(m.headers), m.headers, tail, end)
  }

  lemma RenderedReads(l: Limits, m: Message, tail: string, end: HeadEnd)
    requires PlainLine(m) && |RequestLine(m)| + 2 <= l.maxRequestLine && PlainHeaders(m.headers)
    requires |JoinLines(LinesOf(m.headers))| <= l.maxHeader
    requires EndReads(l, Collect(map[], m.headers), tail, l.maxHeader - |JoinLines(LinesOf(m.headers))|, end)
    ensures Reads(l, RequestLine(m) + "\r\n" + (JoinLines(LinesOf(m.headers)) + tail), Rendered(m, tail, end))
  {
    PlainLineSays(m);
    PlainSection(m.headers);
    hide LineSays, HeaderSection, EndReads;
  }

  /** A body longer than its limit is announced: refused as too large at the blank line. */
  lemma LongBodyRefused(l: Limits, reply: Request -> Reply, m: Message, n: nat, after: string)
    requires HeadSendable(l, m) && LengthIs(Collect(map[], m.headers), n) && n > l.maxBody
    ensures var t := Arrive(l, reply, IDLE, RequestLine(m) + "\r\n" + (RenderHeaders(m.headers) + after));
            t.requests == [] && t.context.error == BodyTooLarge && t.unread == after
  {
    RenderedLines(m.headers);
    var head, tail := JoinLines(LinesOf(m.headers)), "\r\n" + after;
    assert RenderHeaders(m.headers) + after == head + tail;
    RenderedReads(l, m, tail, LengthTooLarge(after));
    hide Reads, HeadSendable, LengthIs, Rendered, Arrive;
    RefusedAsWritten(l, reply, RequestLine(m) + "\r\n" + (head + tail), Rendered(m, tail, LengthTooLarge(after)));
    RenderedVerdict(m, tail, LengthTooLarge(after));
  }

  lemma RenderedVerdict(m: Message, tail: string, end: HeadEnd)
    ensures forall s :: VerdictOf(s, Rendered(m, tail, end)) ==
                        EndVerdict(FirstOf(m).(headers := Collect(map[], m.headers)), tail, end)
  {
  }

  /** A request line longer than its limit is refused, whether it has ended yet or not. */
  lemma LongLineRefused(l: Limits, reply: Request -> Reply, line: string, more: string)
    requires NoCrlf(line) && |line| + 2 > l.maxRequestLine
    ensures var t := Arrive(l, reply, IDLE, line + "\r\n" + more);
            t.requests == [] && t.context.error == RequestLineTooLarge && t.unread == line + "\r\n" + more
    ensures |line| > l.maxRequestLine ==>
              var t := Arrive(l, reply, IDLE, line);
              t.requests == [] && t.context.error == RequestLineTooLarge && t.unread == line
  {
    FindCrlfIs(line, more);
    hide Arrive;
    RefusedAsWritten(l, reply, line + "\r\n" + more, LineTooLong);
    if |line| > l.maxRequestLine { RefusedAsWritten(l, reply, line, LineTooLong); }
  }

  /** Headers that go beyond their limit are refused, at the line that does or before it has ended. */
  lemma LongHeadersRefused(l: Limits, reply: Request -> Reply, m: Message, tail: string)
    requires PlainLine(m) && |RequestLine(m)| + 2 <= l.maxRequestLine && PlainHeaders(m.headers)
    requires var room := l.maxHeader - |JoinLines(LinesOf(m.headers))|;
             0 <= room < |tail| && NoLineWithin(tail, room)
    ensures var t := Arrive(l, reply, IDLE, RequestLine(m) + "\r\n" + (JoinLines(LinesOf(m.headers)) + tail));
            t.requests == [] && t.context.error == HeadersTooLarge && t.unread == tail
  {
    RenderedReads(l, m, tail, HeadersTooLong);
    hide Reads, Rendered, Arrive;
    RefusedAsWritten(l, reply, RequestLine(m) + "\r\n" + (JoinLines(LinesOf(m.headers)) + tail),
                     Rendered(m, tail, HeadersTooLong));
    RenderedVerdict(m, tail, HeadersTooLong);
  }

  /** A transfer coding is refused, wherever it stands among the headers and however it is spelt. */
  lemma CodingRefused(l: Limits, reply: Request -> Reply, m: Message, h: Header, more: string)
    requires PlainLine(m) && |RequestLine(m)| + 2 <= l.maxRequestLine && PlainHeaders(m.headers)
    requires ':' !in h.key && h.value != "" && h.value[0] != ' ' && Lower(h.key) == TRANSFER_ENCODING
    requires NoCrlf(HeaderLine(h)) && |JoinLines(LinesOf(m.headers))| + |HeaderLine(h)| + 2 <= l.maxHeader
    ensures var tail := HeaderLine(h) + "\r\n" + more;
            var t := Arrive(l, reply, IDLE, RequestLine(m) + "\r\n" + (JoinLines(LinesOf(m.headers)) + tail));
            t.requests == [] && t.context.error == UnsupportedTransferEncoding && t.unread == tail
  {
    OneBlank(h);
    var tail := HeaderLine(h) + "\r\n" + more;
    var end := HeaderEncoded(HeaderLine(h), h);
    assert Begins(tail, HeaderLine(h), more);
    RenderedReads(l, m, tail, end);
    hide Reads, Rendered, Arrive, HeaderLine;
    RefusedAsWritten(l, reply, RequestLine(m) + "\r\n" + (JoinLines(LinesOf(m.headers)) + tail),
                     Rendered(m, tail, end));
    RenderedVerdict(m, tail, end);
  }

  /** A refusal keeps its reason: after one at the blank line, a later line that is no header is refused
      for the earlier reason, and as a bad request only if there was none. */
  lemma ReasonKept(l: Limits, reply: Request -> Reply, s: Server, line: string, more: string)
    requires s.context.state == ExpectHeaders && s.unread == "" && line != "" && NoCrlf(line) && ':' !in line
    requires s.context.headerBytes + |line| + 2 <= l.maxHeader
    ensures var t := Arrive(l, reply, s, line + "\r\n" + more);
            && t.requests == s.requests && t.unread == line + "\r\n" + more
            && t.context == s.context.(error := if s.context.error == ParseOk then BadRequest else s.context.error)
  {
    var bytes := line + "\r\n" + more;
    assert "" + bytes == bytes;
    NotAHeader(l, s.context, line, more);
    hide Advance;
  }

  lemma NotAHeader(l: Limits, c: Context, line: string, more: string)
    requires c.state == ExpectHeaders && line != "" && NoCrlf(line) && ':' !in line
    requires c.headerBytes + |line| + 2 <= l.maxHeader
    ensures var bytes := line + "\r\n" + more;
            Advance(l, c, bytes) == Refused(c, if c.error == ParseOk then BadRequest else c.error, bytes)
  {
    FindCrlfIs(line, more);
    NoColon(line);
    hide FindCrlf, ParseHeaderLine;
  }

  // ---------- names without case ----------

  /** The same letter in either case, or the same character. */
  predicate SameLetter(a: char, b: char) {
    || a == b
    || ('A' <= a <= 'Z' && b as int == a as int + 32)
    || ('A' <= b <= 'Z' && a as int == b as int + 32)
  }

  /** Two header names are one name to the parser exactly when they differ in the case of letters only. */
  lemma NamesWithoutCase(a: string, b: string)
    ensures Lower(a) == Lower(b) <==> |a| == |b| && forall i :: 0 <= i < |a| ==> SameLetter(a[i], b[i])
  {
    if Lower(a) == Lower(b) {
      assert |Lower(a)| == |Lower(b)|;
      assert forall i :: 0 <= i < |a| ==> Lower(a)[i] == Lower(b)[i];
    }
  }

  /** The names that frame a message, as they are commonly written. */
  lemma FramingNames()
    ensures Lower("Content-Length") == CONTENT_LENGTH && Lower("Transfer-Encoding") == TRANSFER_ENCODING
  {
    assert Lower("Content-Length") == "content-length";
    assert Lower("Transfer-Encoding") == "transfer-encoding";
  }
}
