/** What a byte stream says, written as a grammar, independently of the parser: a request line, header
    lines, a blank line and a body within their limits, or the first thing that is wrong with them.
    Every stream has a reading, and the parser's outcome is that of any of its readings. */
module HttpGrammar {
  import opened Wrappers
  import opened Decimal
  import opened HttpSyntax
  import opened HttpStream
  import opened HttpRoundTrip

  // ---------- lines ----------

  /** METHOD SP target SP version; a question mark ends the path and begins the query. */
  predicate LineSays(line: string, target: string, r: Request) {
    && r.verb != Invalid && line == VerbText(r.verb) + " " + (target + " " + r.version)
    && ' ' !in target && '?' !in r.path
    && ((target == r.path && r.query == "") || target == r.path + "?" + r.query)
    && r.headers == map[] && r.body == ""
  }

  function Blanks(n: nat): string { seq(n, _ => ' ') }

  /** name ":" any number of blanks, value. */
  predicate HeaderSays(line: string, blanks: nat, h: Header) {
    ':' !in h.key && (h.value != "" ==> h.value[0] != ' ') && line == h.key + ":" + (Blanks(blanks) + h.value)
  }

  ghost predicate SaysHeader(line: string, h: Header) { exists n: nat :: HeaderSays(line, n, h) }

  predicate Encodes(h: Header) { Lower(h.key) == TRANSFER_ENCODING && h.value != "" }

  ghost predicate HeaderSection(lines: seq<string>, hs: seq<Header>) {
    && |lines| == |hs|
    && forall i :: 0 <= i < |hs| ==> NoCrlf(lines[i]) && SaysHeader(lines[i], hs[i]) && !Encodes(hs[i])
  }

  function JoinLines(lines: seq<string>): string {
    if lines == [] then "" else lines[0] + "\r\n" + JoinLines(lines[1..])
  }

  /** No line ends within that many bytes. */
  predicate NoLineWithin(s: string, room: int) { forall i :: 0 <= i && i + 2 <= room ==> !CrlfAt(s, i) }

  // ---------- readings ----------

  /** How the part behind the header lines goes on. */
  datatype HeadEnd =
    | HeadersOpen                                // the next line is not complete yet
    | HeadersTooLong
    | HeaderBad(bad: string)                     // a line without a colon
    | HeaderEncoded(coded: string, h: Header)    // a transfer coding
    | LengthBad(after: string)
    | LengthTooLarge(after: string)
    | BodyOpen(after: string)
    | Whole(body: string, rest: string)

  datatype Reading =
    | LineOpen
    | LineTooLong
    | LineBad(line: string, more: string)
    | Head(line: string, target: string, request: Request, lines: seq<string>, hs: seq<Header>, tail: string,
           end: HeadEnd)

  predicate Begins(s: string, line: string, more: string) { NoCrlf(line) && s == line + "\r\n" + more }

  /** The length header as far as it can be read: no header at all means no body. */
  predicate LengthIs(headers: map<string, string>, n: nat) {
    if CONTENT_LENGTH in headers then
      var t := headers[CONTENT_LENGTH]; t != "" && AllDigits(t) && Value(t) == n && n < SIZE_LIMIT
    else n == 0
  }

  /** The digits at the front of the length header are a number that no size can hold. */
  predicate LengthOverflows(headers: map<string, string>) {
    CONTENT_LENGTH in headers &&
    exists k :: 0 <= k <= |headers[CONTENT_LENGTH]| && Overflows(headers[CONTENT_LENGTH][..k])
  }

  predicate Overflows(t: string) { AllDigits(t) && Value(t) >= SIZE_LIMIT }

  predicate LengthUnreadable(headers: map<string, string>) {
    CONTENT_LENGTH in headers && var t := headers[CONTENT_LENGTH]; t == "" || !AllDigits(t)
  }

  ghost predicate EndReads(l: Limits, headers: map<string, string>, tail: string, room: int, end: HeadEnd) {
    match end
    case HeadersOpen => NoCrlf(tail) && |tail| <= room
    case HeadersTooLong => |tail| > room && NoLineWithin(tail, room)
    case HeaderBad(bad) => bad != "" && ':' !in bad && |bad| + 2 <= room && exists more :: Begins(tail, bad, more)
    case HeaderEncoded(line, h) =>
      SaysHeader(line, h) && Encodes(h) && |line| + 2 <= room && exists more :: Begins(tail, line, more)
    case LengthBad(after) =>
      2 <= room && tail == "\r\n" + after && LengthUnreadable(headers) && !LengthOverflows(headers)
    case LengthTooLarge(after) =>
      && 2 <= room && tail == "\r\n" + after
      && (LengthOverflows(headers) || exists n :: n > l.maxBody && LengthIs(headers, n))
    case BodyOpen(after) =>
      2 <= room && tail == "\r\n" + after && exists n :: |after| < n <= l.maxBody && LengthIs(headers, n)
    case Whole(body, rest) =>
      2 <= room && tail == "\r\n" + (body + rest) && |body| <= l.maxBody && LengthIs(headers, |body|)
  }

  ghost predicate Reads(l: Limits, s: string, v: Reading) {
    match v
    case LineOpen => NoCrlf(s) && |s| <= l.maxRequestLine
    case LineTooLong => |s| > l.maxRequestLine && NoLineWithin(s, l.maxRequestLine)
    case LineBad(line, more) =>
      Begins(s, line, more) && |line| + 2 <= l.maxRequestLine && forall t, r :: !LineSays(line, t, r)
    case Head(line, target, r, lines, hs, tail, end) =>
      && Begins(s, line, JoinLines(lines) + tail) && |line| + 2 <= l.maxRequestLine && LineSays(line, target, r)
      && HeaderSection(lines, hs) && |JoinLines(lines)| <= l.maxHeader
      && EndReads(l, Collect(map[], hs), tail, l.maxHeader - |JoinLines(lines)|, end)
  }

  /** What the parser makes of it. */
  datatype Verdict = Wants | Refuses(error: ParseError, unread: string) | Completes(request: Request, unread: string)

  function EndVerdict(r: Request, tail: string, end: HeadEnd): Verdict {
    match end
    case HeadersOpen => Wants
    case HeadersTooLong => Refuses(HeadersTooLarge, tail)
    case HeaderBad(_) => Refuses(BadRequest, tail)
    case HeaderEncoded(_, _) => Refuses(UnsupportedTransferEncoding, tail)
    case LengthBad(after) => Refuses(BadRequest, after)
    case LengthTooLarge(after) => Refuses(BodyTooLarge, after)
    case BodyOpen(_) => Wants
    case Whole(body, rest) => Completes(r.(body := body), rest)
  }

  function VerdictOf(s: string, v: Reading): Verdict {
    match v
    case LineOpen => Wants
    case LineTooLong => Refuses(RequestLineTooLarge, s)
    case LineBad(_, _) => Refuses(BadRequest, s)
    case Head(_, _, r, _, hs, tail, end) => EndVerdict(r.(headers := Collect(map[], hs)), tail, end)
  }

  predicate Agrees(o: Outcome, v: Verdict) {
    match v
    case Wants => o.ok && o.context.state != GotCompleteRequest
    case Refuses(e, unread) => !o.ok && o.context.error == e && o.unread == unread
    case Completes(r, unread) =>
      o.ok && o.context.state == GotCompleteRequest && o.context.request == r && o.unread == unread
  }

  // ---------- request lines ----------

  lemma LineRead(line: string, target: string, r: Request)
    requires LineSays(line, target, r)
    ensures ParseRequestLine(line, EMPTY_REQUEST) == Some(r)
  {
    var m := Message(r.verb, r.path, if target == r.path then None else Some(r.query), r.version, [], "");
    if target == r.path + "?" + r.query { assert |target| > |r.path|; }
    assert RequestLine(m) == line;
    RequestLineRead(m);
  }

  lemma CutAt(s: string, c: char)
    ensures var i := IndexOf(s, c);
            && c !in s[..i]
            && if i < |s| then s == s[..i] + [c] + s[i + 1..] else s == s[..i]
  {
  }

  lemma VerbWritten(m: string)
    requires MethodOf(m) != Invalid
    ensures VerbText(MethodOf(m)) == m
  {
  }

  lemma TargetWritten(target: string)
    ensures var q := IndexOf(target, '?');
            var path, query := target[..q], if q < |target| then target[q + 1..] else "";
            '?' !in path && ((target == path && query == "") || target == path + "?" + query)
  {
    CutAt(target, '?');
    hide IndexOf;
  }

  /** The converse: what is read as a request line says so. */
  lemma LineWritten(line: string)
    requires ParseRequestLine(line, EMPTY_REQUEST).Some?
    ensures exists target :: LineSays(line, target, ParseRequestLine(line, EMPTY_REQUEST).value)
  {
    var r := ParseRequestLine(line, EMPTY_REQUEST).value;
    hide IndexOf, MethodOf;
    var s1 := IndexOf(line, ' ');
    CutAt(line, ' ');
    var after := line[s1 + 1..];
    var s2 := IndexOf(after, ' ');
    CutAt(after, ' ');
    var target := after[..s2];
    TargetWritten(target);
    VerbWritten(line[..s1]);
    Reassembled(line, s1, after, s2, r.version);
    assert LineSays(line, target, r);
  }

  lemma Reassembled(line: string, s1: nat, after: string, s2: nat, version: string)
    requires s1 < |line| && line == line[..s1] + [' '] + line[s1 + 1..] && after == line[s1 + 1..]
    requires s2 < |after| && after == after[..s2] + [' '] + after[s2 + 1..] && version == after[s2 + 1..]
    ensures line == line[..s1] + " " + (after[..s2] + " " + version)
  {
  }

  // ---------- header lines ----------

  lemma {:induction false} BlanksSkipped(n: nat, v: string)
    requires v != "" ==> v[0] != ' '
    ensures SkipBlanks(Blanks(n) + v) == v
  {
    if n > 0 {
      assert (Blanks(n) + v)[1..] == Blanks(n - 1) + v;
      BlanksSkipped(n - 1, v);
    } else {
      assert Blanks(0) + v == v;
    }
  }

  lemma HeaderRead(line: string, h: Header)
    requires SaysHeader(line, h)
    ensures line != "" && ParseHeaderLine(line) == Some(Header(Lower(h.key), h.value))
  {
    var n: nat :| HeaderSays(line, n, h);
    IndexOfIs(h.key, ':', Blanks(n) + h.value);
    BlanksSkipped(n, h.value);
  }

  lemma {:induction false} BlanksFound(s: string)
    ensures exists n: nat :: s == Blanks(n) + SkipBlanks(s)
    ensures SkipBlanks(s) != "" ==> SkipBlanks(s)[0] != ' '
  {
    if s != "" && s[0] == ' ' {
      BlanksFound(s[1..]);
      var n: nat :| s[1..] == Blanks(n) + SkipBlanks(s[1..]);
      assert s == [' '] + s[1..];
      assert s == Blanks(n + 1) + SkipBlanks(s);
    } else {
      assert s == Blanks(0) + s;
    }
  }

  lemma HeaderWritten(line: string)
    requires ParseHeaderLine(line).Some?
    ensures var h := Header(line[..IndexOf(line, ':')], ParseHeaderLine(line).value.value);
            SaysHeader(line, h) && Lower(h.key) == ParseHeaderLine(line).value.key
  {
    var colon := IndexOf(line, ':');
    var after := line[colon + 1..];
    BlanksFound(after);
    var n: nat :| after == Blanks(n) + SkipBlanks(after);
    var h := Header(line[..colon], SkipBlanks(after));
    assert line == line[..colon] + ":" + after;
    assert HeaderSays(line, n, h);
  }

  lemma NoColon(line: string)
    ensures ParseHeaderLine(line).None? <==> ':' !in line
  {
    var colon := IndexOf(line, ':');
    if colon < |line| { assert line[colon] in line; }
  }

  // ---------- the header section ----------

  lemma NoLineHere(s: string, room: int)
    requires NoLineWithin(s, room)
    ensures FindCrlf(s).Some? ==> FindCrlf(s).value + 2 > room
  {
  }

  lemma NoLineAnywhere(s: string)
    ensures FindCrlf(s).None? <==> NoCrlf(s)
  {
  }

  lemma FirstLineEnds(s: string)
    requires FindCrlf(s).Some?
    ensures var i := FindCrlf(s).value;
            i + 2 <= |s| && NoCrlf(s[..i]) && s == s[..i] + "\r\n" + s[i + 2..] && NoLineWithin(s, i + 1)
  {
    var i := FindCrlf(s).value;
    assert CrlfAt(s, i) && forall j :: 0 <= j < i ==> !CrlfAt(s, j);
    hide FindCrlf, NoCrlf;
    PrefixWithoutCrlf(s, i);
    SplitAtCrlf(s, i);
  }

  lemma SplitAtCrlf(s: string, i: nat)
    requires CrlfAt(s, i)
    ensures s == s[..i] + "\r\n" + s[i + 2..]
  {
    assert s == s[..i] + [s[i], s[i + 1]] + s[i + 2..];
  }

  lemma PrefixWithoutCrlf(s: string, i: nat)
    requires i <= |s| && forall j :: 0 <= j < i ==> !CrlfAt(s, j)
    ensures NoCrlf(s[..i])
  {
    assert forall j: nat :: CrlfAt(s[..i], j) ==> CrlfAt(s, j);
  }

  function After(c: Context, hs: seq<Header>, bytes: nat): Context {
    c.(request := c.request.(headers := Collect(c.request.headers, hs)), headerBytes := c.headerBytes + bytes)
  }

  /** One header line. */
  lemma LineTaken(l: Limits, c: Context, line: string, h: Header, more: string)
    requires c.state == ExpectHeaders && NoCrlf(line) && SaysHeader(line, h) && !Encodes(h)
    requires c.headerBytes + |line| + 2 <= l.maxHeader
    ensures Advance(l, c, line + "\r\n" + more) ==
            Go(c.(request := c.request.(headers := c.request.headers[Lower(h.key) := h.value]),
                  headerBytes := c.headerBytes + (|line| + 2)), more)
  {
    FindCrlfIs(line, more);
    HeaderRead(line, h);
    hide FindCrlf, ParseHeaderLine, Lower;
  }

  lemma {:induction false} SectionRead(l: Limits, c: Context, lines: seq<string>, hs: seq<Header>, tail: string)
    requires c.state == ExpectHeaders && HeaderSection(lines, hs) && c.headerBytes + |JoinLines(lines)| <= l.maxHeader
    ensures ParseRequest(l, c, JoinLines(lines) + tail) == ParseRequest(l, After(c, hs, |JoinLines(lines)|), tail)
    decreases |lines|
  {
    hide Advance, Lower, SaysHeader, Encodes;
    if lines == [] {
      assert JoinLines(lines) + tail == tail;
      assert After(c, hs, 0) == c;
    } else {
      var h, more := hs[0], JoinLines(lines[1..]) + tail;
      assert JoinLines(lines) + tail == lines[0] + "\r\n" + more;
      LineTaken(l, c, lines[0], h, more);
      var d := c.(request := c.request.(headers := c.request.headers[Lower(h.key) := h.value]),
                  headerBytes := c.headerBytes + (|lines[0]| + 2));
      ParseGoesOn(l, c, JoinLines(lines) + tail, d, more);
      SectionRead(l, d, lines[1..], hs[1..], tail);
      assert After(d, hs[1..], |JoinLines(lines[1..])|) == After(c, hs, |JoinLines(lines)|);
    }
  }

  /** Every header section has its lines, up to the first that is not a complete header line within the
      limit. */
  lemma {:induction false} SectionFound(l: Limits, c: Context, buf: string)
    returns (lines: seq<string>, hs: seq<Header>, tail: string)
    requires c.state == ExpectHeaders && c.headerBytes <= l.maxHeader
    ensures buf == JoinLines(lines) + tail && HeaderSection(lines, hs)
    ensures c.headerBytes + |JoinLines(lines)| <= l.maxHeader
    ensures var d := After(c, hs, |JoinLines(lines)|); !Advance(l, d, tail).Go? || CrlfAt(tail, 0)
    decreases |buf|
  {
    hide SaysHeader, Lower, ParseHeaderLine;
    if Advance(l, c, buf).Go? && !CrlfAt(buf, 0) {
      var i := FindCrlf(buf).value;
      FirstLineEnds(buf);
      var line, more := buf[..i], buf[i + 2..];
      HeaderWritten(line);
      var h := Header(line[..IndexOf(line, ':')], ParseHeaderLine(line).value.value);
      var d := c.(request := c.request.(headers := c.request.headers[Lower(h.key) := h.value]),
                  headerBytes := c.headerBytes + (|line| + 2));
      hide FindCrlf, IndexOf;
      var rest, others, t := SectionFound(l, d, more);
      lines, hs, tail := [line] + rest, [h] + others, t;
      assert JoinLines(lines) == line + "\r\n" + JoinLines(rest);
      hide Advance;
      assert lines[1..] == rest && hs[1..] == others;
      AfterBoth(c, d, h, others, |line| + 2, |JoinLines(rest)|);
    } else {
      lines, hs, tail := [], [], buf;
      assert JoinLines(lines) + tail == buf;
      assert After(c, hs, 0) == c;
    }
  }

  lemma AfterBoth(c: Context, d: Context, h: Header, others: seq<Header>, a: nat, b: nat)
    requires d == c.(request := c.request.(headers := c.request.headers[Lower(h.key) := h.value]),
                     headerBytes := c.headerBytes + a)
    ensures After(d, others, b) == After(c, [h] + others, a + b)
  {
    hide Lower;
    assert ([h] + others)[1..] == others;
  }

  // ---------- the length ----------

  lemma LengthRead(headers: map<string, string>, n: nat)
    requires CONTENT_LENGTH in headers && LengthIs(headers, n)
    ensures ReadSize(headers[CONTENT_LENGTH]) == Size(n)
  {
    var t := headers[CONTENT_LENGTH];
    assert t[..|t|] == t;
    DigitPrefixUnique(t, |t|);
  }

  lemma OverflowRead(headers: map<string, string>)
    requires LengthOverflows(headers)
    ensures ReadSize(headers[CONTENT_LENGTH]) == TooBig
  {
    var t := headers[CONTENT_LENGTH];
    var k :| 0 <= k <= |t| && Overflows(t[..k]);
    var p := DigitPrefix(t);
    assert t[..|p|] == p;
    assert forall i :: 0 <= i < k ==> t[..k][i] == t[i];
    assert p[..k] == t[..k];
    ValueMonotone(p, k);
  }

  lemma UnreadableRead(headers: map<string, string>)
    requires LengthUnreadable(headers) && !LengthOverflows(headers)
    ensures ReadSize(headers[CONTENT_LENGTH]) == NotANumber
  {
    var t := headers[CONTENT_LENGTH];
    var p := DigitPrefix(t);
    assert t[..|p|] == p;
    assert !Overflows(t[..|p|]);
  }

  lemma LengthFound(headers: map<string, string>)
    ensures || (LengthUnreadable(headers) && !LengthOverflows(headers)) || LengthOverflows(headers)
            || exists n: nat :: LengthIs(headers, n)
  {
    if CONTENT_LENGTH in headers {
      var t := headers[CONTENT_LENGTH];
      if t != "" && AllDigits(t) {
        assert t[..|t|] == t;
        assert Overflows(t[..|t|]) || LengthIs(headers, Value(t));
      }
    } else {
      assert LengthIs(headers, 0);
    }
  }

  // ---------- behind the header lines ----------

  predicate InSection(c: Context) {
    c.state == ExpectHeaders && c.error == ParseOk && c.request.body == "" && !Encoded(c.request.headers)
  }

  lemma LineEndAgrees(l: Limits, c: Context, tail: string, end: HeadEnd)
    requires InSection(c) && EndReads(l, c.request.headers, tail, l.maxHeader - c.headerBytes, end)
    requires end.HeadersOpen? || end.HeadersTooLong? || end.HeaderBad? || end.HeaderEncoded?
    ensures Agrees(ParseRequest(l, c, tail), EndVerdict(c.request, tail, end))
  {
    match end
    case HeadersOpen => NoLineAnywhere(tail);
    case HeadersTooLong => NoLineHere(tail, l.maxHeader - c.headerBytes);
    case HeaderBad(bad) =>
      var more :| Begins(tail, bad, more);
      FindCrlfIs(bad, more);
      NoColon(bad);
    case HeaderEncoded(coded, h) =>
      var more :| Begins(tail, coded, more);
      FindCrlfIs(coded, more);
      HeaderRead(coded, h);
  }

  lemma AtBlankLine(l: Limits, c: Context, after: string)
    requires InSection(c) && c.headerBytes + 2 <= l.maxHeader
    ensures Advance(l, c, "\r\n" + after) == EndOfHeaders(l, c.(headerBytes := c.headerBytes + 2), after)
  {
    var buf := "\r\n" + after;
    assert CrlfAt(buf, 0) && buf[2..] == after;
    assert FindCrlf(buf) == Some(0);
  }

  lemma RefusedLengthAgrees(l: Limits, c: Context, tail: string, end: HeadEnd)
    requires InSection(c) && EndReads(l, c.request.headers, tail, l.maxHeader - c.headerBytes, end)
    requires end.LengthBad? || end.LengthTooLarge?
    ensures Agrees(ParseRequest(l, c, tail), EndVerdict(c.request, tail, end))
  {
    var hs := c.request.headers;
    AtBlankLine(l, c, end.after);
    if end.LengthBad? {
      UnreadableRead(hs);
    } else if LengthOverflows(hs) {
      OverflowRead(hs);
    } else {
      var n :| n > l.maxBody && LengthIs(hs, n);
      LengthRead(hs, n);
    }
    hide ReadSize, LengthIs, LengthOverflows, LengthUnreadable, FindCrlf;
  }

  lemma BodyOpenAgrees(l: Limits, c: Context, tail: string, after: string)
    requires InSection(c) && EndReads(l, c.request.headers, tail, l.maxHeader - c.headerBytes, BodyOpen(after))
    ensures Agrees(ParseRequest(l, c, tail), Wants)
  {
    AtBlankLine(l, c, after);
    var n :| |after| < n <= l.maxBody && LengthIs(c.request.headers, n);
    LengthRead(c.request.headers, n);
    hide ReadSize, LengthIs;
    var d := c.(headerBytes := c.headerBytes + 2, contentLength := n, state := ExpectBody);
    ParseGoesOn(l, c, tail, d, after);
  }

  lemma WholeAgrees(l: Limits, c: Context, tail: string, body: string, rest: string)
    requires InSection(c) && EndReads(l, c.request.headers, tail, l.maxHeader - c.headerBytes, Whole(body, rest))
    ensures Agrees(ParseRequest(l, c, tail), Completes(c.request.(body := body), rest))
  {
    AtBlankLine(l, c, body + rest);
    var hs := c.request.headers;
    var counted := c.(headerBytes := c.headerBytes + 2);
    if CONTENT_LENGTH in hs { LengthRead(hs, |body|); }
    hide ReadSize;
    if body == "" {
      assert body + rest == rest;
      var length := if CONTENT_LENGTH in hs then 0 else c.contentLength;
      var d := counted.(state := GotCompleteRequest, contentLength := length);
      ParseGoesOn(l, c, tail, d, rest);
    } else {
      var d := counted.(contentLength := |body|, state := ExpectBody);
      ParseGoesOn(l, c, tail, d, body + rest);
      assert (body + rest)[..|body|] == body && (body + rest)[|body|..] == rest;
      ParseGoesOn(l, d, body + rest, d.(request := d.request.(body := body), state := GotCompleteRequest), rest);
    }
  }

  lemma EndAgrees(l: Limits, c: Context, tail: string, end: HeadEnd)
    requires InSection(c) && EndReads(l, c.request.headers, tail, l.maxHeader - c.headerBytes, end)
    ensures Agrees(ParseRequest(l, c, tail), EndVerdict(c.request, tail, end))
  {
    hide InSection, EndReads, Agrees;
    match end
    case LengthBad(_) => RefusedLengthAgrees(l, c, tail, end);
    case LengthTooLarge(_) => RefusedLengthAgrees(l, c, tail, end);
    case BodyOpen(after) => BodyOpenAgrees(l, c, tail, after);
    case Whole(body, rest) => WholeAgrees(l, c, tail, body, rest);
    case _ => LineEndAgrees(l, c, tail, end);
  }

  // ---------- every stream ----------

  lemma {:induction false} NothingEncoded(known: map<string, string>, hs: seq<Header>)
    requires !Encoded(known) && forall i :: 0 <= i < |hs| ==> !Encodes(hs[i])
    ensures !Encoded(Collect(known, hs))
    decreases |hs|
  {
    if hs != [] { NothingEncoded(known[Lower(hs[0].key) := hs[0].value], hs[1..]); }
  }

  lemma FirstLineAgrees(l: Limits, s: string, v: Reading)
    requires Reads(l, s, v) && !v.Head?
    ensures Agrees(ParseRequest(l, FRESH, s), VerdictOf(s, v))
  {
    match v
    case LineOpen => NoLineAnywhere(s);
    case LineTooLong => NoLineHere(s, l.maxRequestLine);
    case LineBad(line, more) =>
      FindCrlfIs(line, more);
      if ParseRequestLine(line, EMPTY_REQUEST).Some? {
        LineWritten(line);
      }
      hide ParseRequestLine, LineSays;
  }

  /** The parser in the header section of a request whose line has been read. */
  function InHead(r: Request): Context { FRESH.(request := r, state := ExpectHeaders) }

  lemma LineConsumed(l: Limits, line: string, target: string, r: Request, more: string)
    requires NoCrlf(line) && |line| + 2 <= l.maxRequestLine && LineSays(line, target, r)
    ensures ParseRequest(l, FRESH, line + "\r\n" + more) == ParseRequest(l, InHead(r), more)
  {
    FindCrlfIs(line, more);
    LineRead(line, target, r);
    hide FindCrlf, ParseRequestLine, LineSays;
    ParseGoesOn(l, FRESH, line + "\r\n" + more, InHead(r), more);
  }

  lemma HeadAgrees(l: Limits, s: string, v: Reading)
    requires Reads(l, s, v) && v.Head?
    ensures Agrees(ParseRequest(l, FRESH, s), VerdictOf(s, v))
  {
    var c := InHead(v.request);
    var d := After(c, v.hs, |JoinLines(v.lines)|);
    assert v.request.headers == map[] && v.request.body == "";
    assert forall i :: 0 <= i < |v.hs| ==> !Encodes(v.hs[i]);
    NothingEncoded(map[], v.hs);
    hide LineSays, HeaderSection, EndReads, Agrees, Encodes;
    LineConsumed(l, v.line, v.target, v.request, JoinLines(v.lines) + v.tail);
    SectionRead(l, c, v.lines, v.hs, v.tail);
    EndAgrees(l, d, v.tail, v.end);
  }

  /** The parser does with a stream what any reading of it says: it hands out exactly the request that is
      written there, refuses what is wrong first with the reason that it has, or waits for more. */
  lemma ParsedAsWritten(l: Limits, s: string, v: Reading)
    requires Reads(l, s, v)
    ensures Agrees(ParseRequest(l, FRESH, s), VerdictOf(s, v))
  {
    hide Reads, Agrees;
    if v.Head? { HeadAgrees(l, s, v); } else { FirstLineAgrees(l, s, v); }
  }

  lemma EndFound(l: Limits, c: Context, tail: string) returns (end: HeadEnd)
    requires InSection(c) && c.headerBytes <= l.maxHeader && (!Advance(l, c, tail).Go? || CrlfAt(tail, 0))
    ensures EndReads(l, c.request.headers, tail, l.maxHeader - c.headerBytes, end)
  {
    var room := l.maxHeader - c.headerBytes;
    NoLineAnywhere(tail);
    if FindCrlf(tail).None? {
      end := if |tail| <= room then HeadersOpen else HeadersTooLong;
    } else {
      var i := FindCrlf(tail).value;
      FirstLineEnds(tail);
      if i + 2 > room {
        end := HeadersTooLong;
      } else if i > 0 {
        end := BadLineFound(l, c, tail);
      } else {
        assert tail == "\r\n" + tail[2..];
        end := LengthEnd(l, c, tail, tail[2..]);
      }
    }
  }

  lemma BadLineFound(l: Limits, c: Context, tail: string) returns (end: HeadEnd)
    requires InSection(c) && !Advance(l, c, tail).Go?
    requires FindCrlf(tail).Some? && 0 < FindCrlf(tail).value <= l.maxHeader - c.headerBytes - 2
    ensures EndReads(l, c.request.headers, tail, l.maxHeader - c.headerBytes, end)
  {
    var i := FindCrlf(tail).value;
    FirstLineEnds(tail);
    var line := tail[..i];
    assert Begins(tail, line, tail[i + 2..]);
    NoColon(line);
    if ':' !in line {
      end := HeaderBad(line);
    } else {
      HeaderWritten(line);
      end := HeaderEncoded(line, Header(line[..IndexOf(line, ':')], ParseHeaderLine(line).value.value));
    }
    hide FindCrlf, ParseHeaderLine, SaysHeader;
  }

  lemma LengthEnd(l: Limits, c: Context, tail: string, after: string) returns (end: HeadEnd)
    requires tail == "\r\n" + after && c.headerBytes + 2 <= l.maxHeader
    ensures EndReads(l, c.request.headers, tail, l.maxHeader - c.headerBytes, end)
  {
    var hs := c.request.headers;
    LengthFound(hs);
    hide LengthIs, LengthOverflows, LengthUnreadable;
    if LengthOverflows(hs) {
      end := LengthTooLarge(after);
    } else if LengthUnreadable(hs) {
      end := LengthBad(after);
    } else {
      var n: nat :| LengthIs(hs, n);
      if n > l.maxBody {
        end := LengthTooLarge(after);
      } else if |after| < n {
        end := BodyOpen(after);
      } else {
        end := Whole(after[..n], after[n..]);
        assert after == after[..n] + after[n..];
      }
    }
  }

  /** Every stream has a reading, and so exactly one outcome. */
  lemma EveryStreamReads(l: Limits, s: string) returns (v: Reading)
    ensures Reads(l, s, v)
  {
    NoLineAnywhere(s);
    if FindCrlf(s).None? {
      v := if |s| <= l.maxRequestLine then LineOpen else LineTooLong;
    } else {
      var i := FindCrlf(s).value;
      FirstLineEnds(s);
      var line, more := s[..i], s[i + 2..];
      if i + 2 > l.maxRequestLine {
        v := LineTooLong;
      } else if ParseRequestLine(line, EMPTY_REQUEST).None? {
        NotALine(line);
        hide LineSays;
        v := LineBad(line, more);
      } else {
        v := HeadFound(l, s, line, more);
      }
    }
  }

  lemma NotALine(line: string)
    requires ParseRequestLine(line, EMPTY_REQUEST).None?
    ensures forall t, r :: !LineSays(line, t, r)
  {
    forall t, r
      ensures !LineSays(line, t, r)
    {
      if LineSays(line, t, r) { LineRead(line, t, r); }
    }
  }

  lemma HeadFound(l: Limits, s: string, line: string, more: string) returns (v: Reading)
    requires Begins(s, line, more) && |line| + 2 <= l.maxRequestLine && ParseRequestLine(line, EMPTY_REQUEST).Some?
    ensures Reads(l, s, v)
  {
    LineWritten(line);
    var r := ParseRequestLine(line, EMPTY_REQUEST).value;
    var target :| LineSays(line, target, r);
    assert r.headers == map[] && r.body == "";
    hide ParseRequestLine, LineSays, EndReads, Advance, NoCrlf, SaysHeader;
    var c := InHead(r);
    var lines, hs, tail := SectionFound(l, c, more);
    NothingEncoded(map[], hs);
    var end := EndFound(l, After(c, hs, |JoinLines(lines)|), tail);
    v := Reading.Head(line, target, r, lines, hs, tail, end);
  }
}
