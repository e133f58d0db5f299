/** The HTTP/1.x parser of HttpContext as a transition function: one call of Advance is one
    request line, one header line, the blank line, or the body. */
module HttpSyntax {
  import opened Wrappers
  import opened Decimal

  datatype Limits = Limits(maxRequestLine: nat, maxHeader: nat, maxBody: nat)

  datatype Method = Invalid | Get | Post | Head | Put | Delete | Options

  datatype ParseState = ExpectRequestLine | ExpectHeaders | ExpectBody | GotCompleteRequest

  datatype ParseError = ParseOk | BadRequest | RequestLineTooLarge | HeadersTooLarge | BodyTooLarge
                      | UnsupportedTransferEncoding

  datatype Request = Request(verb: Method, path: string, query: string, version: string,
                             headers: map<string, string>, body: string)

  datatype Context = Context(state: ParseState, request: Request, contentLength: nat,
                             headerBytes: nat, error: ParseError)

  const EMPTY_REQUEST := Request(Invalid, "", "", "", map[], "")

  /** The context after construction and after reset. */
  const FRESH := Context(ExpectRequestLine, EMPTY_REQUEST, 0, 0, ParseOk)

  // ---------- scanning ----------

  predicate CrlfAt(s: string, i: nat) { i + 1 < |s| && s[i] == '\r' && s[i + 1] == '\n' }

  function FindCrlf(s: string): (r: Option<nat>)
    ensures r.Some? ==> CrlfAt(s, r.value)
    ensures forall j :: 0 <= j < (if r.Some? then r.value else |s|) ==> !CrlfAt(s, j)
  {
    if |s| < 2 then None
    else if CrlfAt(s, 0) then Some(0)
    else
      var r := FindCrlf(s[1..]);
      assert forall j :: 0 < j ==> (CrlfAt(s, j) <==> CrlfAt(s[1..], j - 1));
      match r case None => None case Some(i) => Some(i + 1)
  }

  /** The first occurrence of a character, or the length of the text. */
  function IndexOf(s: string, c: char): (i: nat)
    ensures i <= |s| && (i < |s| ==> s[i] == c)
    ensures forall j :: 0 <= j < i ==> s[j] != c
  {
    if s == "" || s[0] == c then 0 else IndexOf(s[1..], c) + 1
  }

  function SkipBlanks(s: string): string { if s != "" && s[0] == ' ' then SkipBlanks(s[1..]) else s }

  function LowerChar(c: char): char { if 'A' <= c <= 'Z' then c - 'A' + 'a' else c }

  function Lower(s: string): (t: string)
    ensures |t| == |s| && forall i :: 0 <= i < |s| ==> t[i] == LowerChar(s[i])
  {
    seq(|s|, i requires 0 <= i < |s| => LowerChar(s[i]))
  }

  function MethodOf(m: string): Method {
    if m == "GET" then Get else if m == "POST" then Post else if m == "HEAD" then Head
    else if m == "PUT" then Put else if m == "DELETE" then Delete else if m == "OPTIONS" then Options
    else Invalid
  }

  predicate ExceedsLimit(current: nat, additional: nat, limit: nat) {
    current > limit || additional > limit - current
  }

  // ---------- lines ----------

  /** METHOD SP target SP version, where the version is everything after the second space. */
  function ParseRequestLine(line: string, request: Request): Option<Request> {
    var s1 := IndexOf(line, ' ');
    if s1 == |line| then None
    else
      var afterMethod := line[s1 + 1..];
      var s2 := IndexOf(afterMethod, ' ');
      if s2 == |afterMethod| || MethodOf(line[..s1]) == Invalid then None
      else
        var url := afterMethod[..s2];
        var q := IndexOf(url, '?');
        Some(request.(verb := MethodOf(line[..s1]), path := url[..q],
                      query := if q < |url| then url[q + 1..] else request.query,
                      version := afterMethod[s2 + 1..]))
  }

  datatype Header = Header(key: string, value: string)

  function ParseHeaderLine(line: string): Option<Header> {
    var colon := IndexOf(line, ':');
    if colon == |line| then None else Some(Header(Lower(line[..colon]), SkipBlanks(line[colon + 1..])))
  }

  const TRANSFER_ENCODING := "transfer-encoding"
  const CONTENT_LENGTH := "content-length"

  predicate Encoded(headers: map<string, string>) {
    TRANSFER_ENCODING in headers && headers[TRANSFER_ENCODING] != ""
  }

  // ---------- one step ----------

  /** Wait: more bytes are needed. Fail: the request is refused, with what is left unread.
      Go: a line or the body was consumed. */
  datatype Step = Wait | Fail(context: Context, rest: string) | Go(context: Context, rest: string)

  function Refused(c: Context, e: ParseError, rest: string): Step { Fail(c.(error := e), rest) }

  /** A failure the header parser reports without a reason of its own. */
  function Malformed(c: Context): ParseError { if c.error == ParseOk then BadRequest else c.error }

  function AdvanceRequestLine(l: Limits, c: Context, buf: string): Step {
    match FindCrlf(buf)
    case None => if |buf| > l.maxRequestLine then Refused(c, RequestLineTooLarge, buf) else Wait
    case Some(i) =>
      if i + 2 > l.maxRequestLine then Refused(c, RequestLineTooLarge, buf)
      else
        match ParseRequestLine(buf[..i], c.request)
        case None => Refused(c, BadRequest, buf)
        case Some(r) => Go(c.(request := r, state := ExpectHeaders), buf[i + 2..])
  }

  /** The decision at the blank line that ends the headers. */
  function EndOfHeaders(l: Limits, c: Context, rest: string): Step {
    if Encoded(c.request.headers) then Refused(c, UnsupportedTransferEncoding, rest)
    else if CONTENT_LENGTH !in c.request.headers then Go(c.(state := GotCompleteRequest), rest)
    else
      match ReadSize(c.request.headers[CONTENT_LENGTH])
      case NotANumber => Refused(c, BadRequest, rest)
      case TooBig => Refused(c, BodyTooLarge, rest)
      case Size(n) =>
        var d := c.(contentLength := n);
        if n > l.maxBody then Refused(d, BodyTooLarge, rest)
        else Go(d.(state := if n > 0 then ExpectBody else GotCompleteRequest), rest)
  }

  /** A header line of i bytes; it is counted only once it is accepted. */
  function TakeHeaderLine(c: Context, counted: Context, buf: string, i: nat): Step
    requires i + 2 <= |buf|
  {
    match ParseHeaderLine(buf[..i])
    case None => Refused(c, Malformed(c), buf)
    case Some(h) =>
      if h.key == TRANSFER_ENCODING && h.value != "" then Refused(c, UnsupportedTransferEncoding, buf)
      else Go(counted.(request := c.request.(headers := c.request.headers[h.key := h.value])), buf[i + 2..])
  }

  function AdvanceHeaders(l: Limits, c: Context, buf: string): Step {
    match FindCrlf(buf)
    case None => if ExceedsLimit(c.headerBytes, |buf|, l.maxHeader) then Refused(c, HeadersTooLarge, buf) else Wait
    case Some(i) =>
      if ExceedsLimit(c.headerBytes, i + 2, l.maxHeader) then Refused(c, HeadersTooLarge, buf)
      else
        var counted := c.(headerBytes := c.headerBytes + i + 2);
        if i == 0 then EndOfHeaders(l, counted, buf[2..]) else TakeHeaderLine(c, counted, buf, i)
  }

  function AdvanceBody(c: Context, buf: string): Step {
    if |buf| < c.contentLength then Wait
    else Go(c.(request := c.request.(body := buf[..c.contentLength]), state := GotCompleteRequest),
            buf[c.contentLength..])
  }

  function Advance(l: Limits, c: Context, buf: string): Step
    requires c.state != GotCompleteRequest
  {
    match c.state
    case ExpectRequestLine => AdvanceRequestLine(l, c, buf)
    case ExpectHeaders => AdvanceHeaders(l, c, buf)
    case ExpectBody => AdvanceBody(c, buf)
  }

  function Rank(s: ParseState): nat {
    match s case ExpectBody => 2 case GotCompleteRequest => 1 case _ => 0
  }

  /** Every consuming step shortens the unread bytes, or leaves the body state on an empty body. */
  lemma GoShrinks(l: Limits, c: Context, buf: string)
    requires c.state != GotCompleteRequest && Advance(l, c, buf).Go?
    ensures var s := Advance(l, c, buf);
            |s.rest| < |buf| || (|s.rest| == |buf| && Rank(s.context.state) < Rank(c.state))
    ensures Advance(l, c, buf).context.error == c.error
  {
  }

  // ---------- more bytes do not change a decision ----------

  lemma CrlfExtended(buf: string, more: string)
    ensures FindCrlf(buf).Some? ==> FindCrlf(buf + more) == FindCrlf(buf)
    ensures FindCrlf(buf).None? && FindCrlf(buf + more).Some? ==> FindCrlf(buf + more).value + 1 >= |buf|
  {
    assert forall j :: 0 <= j && j + 1 < |buf| ==> (CrlfAt(buf, j) <==> CrlfAt(buf + more, j));
  }

  lemma TakesAndDrops(buf: string, more: string, k: nat)
    requires k <= |buf|
    ensures (buf + more)[..k] == buf[..k] && (buf + more)[k..] == buf[k..] + more
  {
  }

  /** A step decided on the bytes at hand is decided the same way when more bytes follow. */
  lemma AdvanceExtended(l: Limits, c: Context, buf: string, more: string)
    requires c.state != GotCompleteRequest
    ensures Advance(l, c, buf).Go? ==>
              Advance(l, c, buf + more) == Go(Advance(l, c, buf).context, Advance(l, c, buf).rest + more)
    ensures Advance(l, c, buf).Fail? ==>
              Advance(l, c, buf + more) == Fail(Advance(l, c, buf).context, Advance(l, c, buf).rest + more)
  {
    hide FindCrlf, ParseRequestLine, ParseHeaderLine;
    CrlfExtended(buf, more);
    if c.state == ExpectBody {
      if c.contentLength <= |buf| { TakesAndDrops(buf, more, c.contentLength); }
    } else if FindCrlf(buf).Some? {
      var i := FindCrlf(buf).value;
      TakesAndDrops(buf, more, i);
      TakesAndDrops(buf, more, i + 2);
    }
  }
}
