/** Requests written in the grammar of sections 3.1.1, 3.2 and 3.3.2 of RFC 7230 come out of the
    parser as they went in, however the bytes are cut. */
module HttpRoundTrip {
  import opened Wrappers
  import opened Decimal
  import opened HttpSyntax
  import opened HttpStream

  /** A request before it is written: header names keep their case and their order. */
  datatype Message = Message(verb: Method, path: string, query: Option<string>, version: string,
                             headers: seq<Header>, body: string)

  function VerbText(m: Method): string {
    match m
    case Get => "GET" case Post => "POST" case Head => "HEAD"
    case Put => "PUT" case Delete => "DELETE" case Options => "OPTIONS"
    case Invalid => "UNKNOWN"
  }

  function Target(m: Message): string {
    if m.query.Some? then m.path + "?" + m.query.value else m.path
  }

  function RequestLine(m: Message): string { VerbText(m.verb) + " " + (Target(m) + " " + m.version) }

  function HeaderLine(h: Header): string { h.key + ":" + (" " + h.value) }

  function RenderHeaders(hs: seq<Header>): string {
    if hs == [] then "\r\n" else HeaderLine(hs[0]) + "\r\n" + RenderHeaders(hs[1..])
  }

  function Render(m: Message): string {
    RequestLine(m) + "\r\n" + (RenderHeaders(m.headers) + m.body)
  }

  function RenderAll(ms: seq<Message>): string {
    if ms == [] then "" else Render(ms[0]) + RenderAll(ms[1..])
  }

  /** Names are case-insensitive and the last occurrence of a name counts. */
  function Collect(known: map<string, string>, hs: seq<Header>): map<string, string>
    decreases |hs|
  {
    if hs == [] then known else Collect(known[Lower(hs[0].key) := hs[0].value], hs[1..])
  }

  function RequestOf(m: Message): Request {
    Request(m.verb, m.path, if m.query.Some? then m.query.value else "", m.version,
            Collect(map[], m.headers), m.body)
  }

  function RequestsOf(ms: seq<Message>): seq<Request> {
    if ms == [] then [] else [RequestOf(ms[0])] + RequestsOf(ms[1..])
  }

  // ---------- what may be sent ----------

  predicate NoCrlf(s: string) { forall j :: 0 <= j < |s| ==> !CrlfAt(s, j) }

  predicate PlainHeader(h: Header) {
    && ':' !in h.key && NoCrlf(HeaderLine(h))
    && (h.value != "" ==> h.value[0] != ' ')
    && (Lower(h.key) == TRANSFER_ENCODING ==> h.value == "")
  }

  /** The length header agrees with the body, and there is none only when there is no body. */
  predicate Framed(l: Limits, m: Message) {
    var hs := Collect(map[], m.headers);
    if CONTENT_LENGTH in hs then ReadSize(hs[CONTENT_LENGTH]) == Size(|m.body|) && |m.body| <= l.maxBody
    else m.body == ""
  }

  /** Request line and headers are well-formed and within their limits. */
  predicate HeadSendable(l: Limits, m: Message) {
    && m.verb != Invalid && ' ' !in Target(m) && '?' !in m.path && NoCrlf(RequestLine(m))
    && (forall i :: 0 <= i < |m.headers| ==> PlainHeader(m.headers[i]))
    && |RequestLine(m)| + 2 <= l.maxRequestLine && |RenderHeaders(m.headers)| <= l.maxHeader
  }

  predicate Sendable(l: Limits, m: Message) { HeadSendable(l, m) && Framed(l, m) }

  // ---------- scanning what was written ----------

  lemma IndexOfIs(a: string, c: char, b: string)
    requires c !in a
    ensures IndexOf(a + [c] + b, c) == |a| && IndexOf(a, c) == |a|
    ensures (a + [c] + b)[..|a|] == a && (a + [c] + b)[|a| + 1..] == b
  {
    var s := a + [c] + b;
    assert s[|a|] == c && forall j :: 0 <= j < |a| ==> s[j] == a[j];
    assert forall j :: 0 <= j < |a| ==> a[j] in a;
  }

  lemma FindCrlfIs(line: string, rest: string)
    requires NoCrlf(line)
    ensures FindCrlf(line + "\r\n" + rest) == Some(|line|)
    ensures (line + "\r\n" + rest)[..|line|] == line && (line + "\r\n" + rest)[|line| + 2..] == rest
  {
    var s := line + "\r\n" + rest;
    assert CrlfAt(s, |line|);
    assert forall j :: 0 <= j < |line| ==> s[j] == line[j];
    assert forall j :: 0 <= j < |line| ==> (CrlfAt(s, j) <==> CrlfAt(line, j));
  }

  lemma VerbRead(v: Method)
    ensures v != Invalid ==> MethodOf(VerbText(v)) == v
    ensures ' ' !in VerbText(v)
  {
  }

  lemma TargetRead(m: Message)
    requires '?' !in m.path
    ensures var q := IndexOf(Target(m), '?');
            && Target(m)[..q] == m.path
            && (if q < |Target(m)| then Target(m)[q + 1..] else "") == (if m.query.Some? then m.query.value else "")
  {
    IndexOfIs(m.path, '?', if m.query.Some? then m.query.value else "");
    assert m.path[..|m.path|] == m.path;
  }

  lemma RequestLineRead(m: Message)
    requires m.verb != Invalid && ' ' !in Target(m) && '?' !in m.path
    ensures ParseRequestLine(RequestLine(m), EMPTY_REQUEST) ==
            Some(RequestOf(m).(headers := map[], body := ""))
  {
    var verb, after := VerbText(m.verb), Target(m) + " " + m.version;
    VerbRead(m.verb);
    IndexOfIs(verb, ' ', after);
    IndexOfIs(Target(m), ' ', m.version);
    TargetRead(m);
  }

  lemma HeaderLineRead(h: Header)
    requires PlainHeader(h)
    ensures ParseHeaderLine(HeaderLine(h)) == Some(Header(Lower(h.key), h.value))
  {
    var after := " " + h.value;
    IndexOfIs(h.key, ':', after);
    assert HeaderLine(h) == h.key + [':'] + after;
    assert after[1..] == h.value;
    assert SkipBlanks(h.value) == h.value;
  }

  // ---------- parsing what was written ----------

  /** The context in the middle of the headers. */
  function InHeaders(r: Request, counted: nat): Context { Context(ExpectHeaders, r, 0, counted, ParseOk) }

  /** One rendered header line is consumed into the header map. */
  lemma OneHeader(l: Limits, r: Request, counted: nat, h: Header, rest: string)
    requires PlainHeader(h) && counted + |HeaderLine(h)| + 2 <= l.maxHeader
    ensures Advance(l, InHeaders(r, counted), HeaderLine(h) + "\r\n" + rest) ==
            Go(InHeaders(r.(headers := r.headers[Lower(h.key) := h.value]), counted + |HeaderLine(h)| + 2), rest)
  {
    FindCrlfIs(HeaderLine(h), rest);
    HeaderLineRead(h);
  }

  lemma {:induction false} HeadersRead(l: Limits, r: Request, counted: nat, hs: seq<Header>, rest: string)
    requires !Encoded(r.headers)
    requires forall i :: 0 <= i < |hs| ==> PlainHeader(hs[i])
    requires counted + |RenderHeaders(hs)| <= l.maxHeader
    ensures !Encoded(Collect(r.headers, hs)) && |RenderHeaders(hs)| >= 2
    ensures ParseRequest(l, InHeaders(r, counted), RenderHeaders(hs) + rest) ==
            ParseRequest(l, InHeaders(r.(headers := Collect(r.headers, hs)), counted + |RenderHeaders(hs)| - 2),
                         "\r\n" + rest)
    decreases |hs|
  {
    hide Advance;
    if hs != [] {
      var h, more := hs[0], RenderHeaders(hs[1..]) + rest;
      var next := r.(headers := r.headers[Lower(h.key) := h.value]);
      var upTo := counted + |HeaderLine(h)| + 2;
      HeadersRead(l, next, upTo, hs[1..], rest);
      assert RenderHeaders(hs) + rest == HeaderLine(h) + "\r\n" + more;
      OneHeader(l, r, counted, h, more);
      ParseGoesOn(l, InHeaders(r, counted), RenderHeaders(hs) + rest, InHeaders(next, upTo), more);
    }
  }

  lemma BlankLine(l: Limits, r: Request, counted: nat, rest: string)
    requires counted + 2 <= l.maxHeader
    ensures Advance(l, InHeaders(r, counted), "\r\n" + rest) == EndOfHeaders(l, InHeaders(r, counted + 2), rest)
  {
    var buf := "\r\n" + rest;
    assert CrlfAt(buf, 0) && buf[2..] == rest;
    assert FindCrlf(buf) == Some(0);
  }

  function Finished(r: Request, length: nat, counted: nat): Context {
    Context(GotCompleteRequest, r, length, counted, ParseOk)
  }

  lemma BodyTaken(l: Limits, r: Request, counted: nat, body: string, rest: string)
    ensures Advance(l, Context(ExpectBody, r, |body|, counted, ParseOk), body + rest) ==
            Go(Finished(r.(body := body), |body|, counted), rest)
  {
    assert (body + rest)[..|body|] == body && (body + rest)[|body|..] == rest;
  }

  /** The blank line and the body that follows it complete the request. */
  lemma BodyRead(l: Limits, m: Message, counted: nat, rest: string)
    requires counted + 2 <= l.maxHeader && Framed(l, m) && !Encoded(RequestOf(m).headers)
    ensures ParseRequest(l, InHeaders(RequestOf(m).(body := ""), counted), "\r\n" + (m.body + rest)) ==
            Outcome(true, Finished(RequestOf(m), |m.body|, counted + 2), rest)
  {
    var r := RequestOf(m).(body := "");
    var c := InHeaders(r, counted);
    var tail := m.body + rest;
    BlankLine(l, r, counted, tail);
    if m.body == "" {
      assert tail == rest && r == RequestOf(m);
      ParseGoesOn(l, c, "\r\n" + tail, Finished(r, 0, counted + 2), tail);
    } else {
      var d := Context(ExpectBody, r, |m.body|, counted + 2, ParseOk);
      ParseGoesOn(l, c, "\r\n" + tail, d, tail);
      BodyTaken(l, r, counted + 2, m.body, rest);
      ParseGoesOn(l, d, tail, Finished(RequestOf(m), |m.body|, counted + 2), rest);
    }
  }

  lemma FirstLineRead(l: Limits, m: Message, rest: string)
    requires HeadSendable(l, m)
    ensures Advance(l, FRESH, RequestLine(m) + "\r\n" + rest) ==
            Go(InHeaders(RequestOf(m).(headers := map[], body := ""), 0), rest)
  {
    FindCrlfIs(RequestLine(m), rest);
    RequestLineRead(m);
  }

  /** Parsing comes to the blank line with all headers collected. */
  lemma HeadRead(l: Limits, m: Message, rest: string)
    requires HeadSendable(l, m)
    ensures !Encoded(RequestOf(m).headers) && |RenderHeaders(m.headers)| >= 2
    ensures ParseRequest(l, FRESH, RequestLine(m) + "\r\n" + (RenderHeaders(m.headers) + rest)) ==
            ParseRequest(l, InHeaders(RequestOf(m).(body := ""), |RenderHeaders(m.headers)| - 2), "\r\n" + rest)
  {
    hide Advance;
    var after := RenderHeaders(m.headers) + rest;
    var r := RequestOf(m).(headers := map[], body := "");
    FirstLineRead(l, m, after);
    ParseGoesOn(l, FRESH, RequestLine(m) + "\r\n" + after, InHeaders(r, 0), after);
    HeadersRead(l, r, 0, m.headers, rest);
  }

  lemma MessageRead(l: Limits, m: Message, rest: string)
    requires Sendable(l, m)
    ensures ParseRequest(l, FRESH, Render(m) + rest) ==
            Outcome(true, Finished(RequestOf(m), |m.body|, |RenderHeaders(m.headers)|), rest)
  {
    hide Advance;
    var tail := m.body + rest;
    assert Render(m) + rest == RequestLine(m) + "\r\n" + (RenderHeaders(m.headers) + tail);
    HeadRead(l, m, tail);
    BodyRead(l, m, |RenderHeaders(m.headers)| - 2, rest);
  }

  lemma NothingToParse(l: Limits)
    ensures ParseRequest(l, FRESH, "") == Outcome(true, FRESH, "")
  {
    assert FindCrlf("") == None;
  }

  lemma {:induction false} MessagesDrained(l: Limits, ms: seq<Message>, done: seq<Request>)
    requires forall i :: 0 <= i < |ms| ==> Sendable(l, ms[i])
    ensures Drain(l, Parser(FRESH, RenderAll(ms), false, done)) == Parser(FRESH, "", false, done + RequestsOf(ms))
    decreases |ms|
  {
    hide Advance;
    DrainByCalls(l, Parser(FRESH, RenderAll(ms), false, done));
    if ms == [] {
      NothingToParse(l);
      assert done + [] == done;
    } else {
      MessageRead(l, ms[0], RenderAll(ms[1..]));
      MessagesDrained(l, ms[1..], done + [RequestOf(ms[0])]);
      assert done + [RequestOf(ms[0])] + RequestsOf(ms[1..]) == done + RequestsOf(ms);
    }
  }

  /** Any sequence of well-formed requests, written one after the other and cut anywhere, is
      parsed into exactly those requests, with nothing left unread. */
  lemma ParsedAsSent(l: Limits, ms: seq<Message>, fragments: seq<string>)
    requires forall i :: 0 <= i < |ms| ==> Sendable(l, ms[i])
    requires Concat(fragments) == RenderAll(ms)
    ensures FeedAll(l, START, fragments) == Parser(FRESH, "", false, RequestsOf(ms))
  {
    FragmentIndependence(l, fragments, fragments);
    assert "" + RenderAll(ms) == RenderAll(ms);
    MessagesDrained(l, ms, []);
  }
}
