/** HttpContext as the object it is: fields updated in place while lines are taken off a Buffer.
    Its methods are proved against the transition function of HttpSyntax. */
module HttpParser {
  import opened Wrappers
  import opened Decimal
  import opened HttpSyntax
  import opened HttpStream
  import opened HttpServing
  import opened ByteBuffer

  method FindCRLF(text: string) returns (r: Option<nat>)
    ensures r == FindCrlf(text)
  {
    var p := 0;
    while p + 1 < |text|
      invariant 0 <= p && (p <= |text| || |text| == 0)
      invariant forall j :: 0 <= j < p ==> !CrlfAt(text, j)
    {
      if text[p] == '\r' && text[p + 1] == '\n' {
        assert CrlfAt(text, p);
        return Some(p);
      }
      p := p + 1;
    }
    return None;
  }

  method FindChar(text: string, c: char) returns (i: nat)
    ensures i == IndexOf(text, c)
  {
    i := 0;
    while i < |text| && text[i] != c
      invariant 0 <= i <= |text|
      invariant forall j :: 0 <= j < i ==> text[j] != c
    {
      i := i + 1;
    }
  }

  class HttpContext {
    var state: ParseState
    var request: Request
    var contentLength: nat
    var headerBytes: nat
    var limits: Limits
    var error: ParseError

    function View(): Context
      reads this
    {
      Context(state, request, contentLength, headerBytes, error)
    }

    constructor (limits: Limits)
      ensures View() == FRESH && this.limits == limits
    {
      state, request, contentLength, headerBytes := ExpectRequestLine, EMPTY_REQUEST, 0, 0;
      this.limits, error := limits, ParseOk;
    }

    method Reset()
      modifies this
      ensures View() == FRESH && limits == old(limits)
    {
      request := EMPTY_REQUEST;
      state := ExpectRequestLine;
      contentLength := 0;
      headerBytes := 0;
      error := ParseOk;
    }

    method ProcessRequestLine(line: string) returns (ok: bool)
      modifies `request
      ensures match ParseRequestLine(line, old(request))
              case None => !ok && request == old(request)
              case Some(r) => ok && request == r
    {
      var space1 := FindChar(line, ' ');
      if space1 == |line| {
        return false;
      }
      var afterMethod := line[space1 + 1..];
      var space2 := FindChar(afterMethod, ' ');
      if space2 == |afterMethod| {
        return false;
      }
      var verb := MethodOf(line[..space1]);
      if verb == Invalid {
        return false;
      }
      request := request.(verb := verb);
      var url := afterMethod[..space2];
      var question := FindChar(url, '?');
      if question < |url| {
        request := request.(path := url[..question], query := url[question + 1..]);
      } else {
        request := request.(path := url);
      }
      request := request.(version := afterMethod[space2 + 1..]);
      return true;
    }

    method ProcessHeaderLine(line: string) returns (ok: bool)
      modifies `request, `error
      ensures match ParseHeaderLine(line)
              case None => !ok && request == old(request) && error == old(error)
              case Some(h) =>
                if h.key == TRANSFER_ENCODING && h.value != ""
                then !ok && request == old(request) && error == UnsupportedTransferEncoding
                else ok && error == old(error)
                     && request == old(request).(headers := old(request).headers[h.key := h.value])
    {
      var colon := FindChar(line, ':');
      if colon == |line| {
        return false;
      }
      var key, value := line[..colon], line[colon + 1..];
      while value != "" && value[0] == ' '
        invariant SkipBlanks(value) == SkipBlanks(line[colon + 1..])
        decreases |value|
      {
        value := value[1..];
      }
      var lowerKey := Lower(key);
      if lowerKey == TRANSFER_ENCODING && value != "" {
        error := UnsupportedTransferEncoding;
        return false;
      }
      request := request.(headers := request.headers[lowerKey := value]);
      return true;
    }

    /** The blank line: decide whether a body follows. */
    method FinishHeaders() returns (ok: bool)
      modifies `state, `contentLength, `error
      ensures forall rest ::
                EndOfHeaders(limits, old(View()), rest) == if ok then Go(View(), rest) else Fail(View(), rest)
      ensures if ok then state != ExpectHeaders else error != ParseOk
    {
      if Encoded(request.headers) {
        error := UnsupportedTransferEncoding;
        return false;
      }
      if CONTENT_LENGTH !in request.headers {
        state := GotCompleteRequest;
        return true;
      }
      var length := ParseSize(request.headers[CONTENT_LENGTH]);
      match length {
        case NotANumber =>
          error := BadRequest;
          return false;
        case TooBig =>
          error := BodyTooLarge;
          return false;
        case Size(n) =>
          contentLength := n;
          if n > limits.maxBody {
            error := BodyTooLarge;
            return false;
          }
          state := if n > 0 then ExpectBody else GotCompleteRequest;
          return true;
      }
    }

    /** One header line or the blank line; more tells whether the loop of parseHeaders goes on. */
    method ParseHeader(buf: Buffer) returns (ok: bool, more: bool)
      requires buf.Valid() && state == ExpectHeaders
      modifies this, buf`reader, buf`writer
      ensures buf.Valid() && limits == old(limits)
      ensures match AdvanceHeaders(limits, old(View()), old(buf.Peek()))
              case Wait => ok && !more && View() == old(View()) && buf.Peek() == old(buf.Peek())
              case Fail(c, rest) =>
                !ok && buf.Peek() == rest && View().(error := if error == ParseOk then BadRequest else error) == c
              case Go(c, rest) => ok && View() == c && buf.Peek() == rest && more == (state == ExpectHeaders)
    {
      hide FindCrlf, EndOfHeaders, TakeHeaderLine;
      var text := buf.Peek();
      var crlf := FindCRLF(text);
      if crlf == None {
        if ExceedsLimit(headerBytes, |text|, limits.maxHeader) {
          error := HeadersTooLarge;
          return false, false;
        }
        return true, false;
      }
      var lineBytes := crlf.value + 2;
      if ExceedsLimit(headerBytes, lineBytes, limits.maxHeader) {
        error := HeadersTooLarge;
        return false, false;
      }
      if crlf.value == 0 {
        headerBytes := headerBytes + lineBytes;
        buf.Retrieve(2);
        assert buf.Peek() == text[2..];
        ghost var decision := EndOfHeaders(limits, View(), text[2..]);
        ok := FinishHeaders();
        assert decision == if ok then Go(View(), text[2..]) else Fail(View(), text[2..]);
        return ok, false;
      }
      ok := AcceptHeaderLine(buf, text, crlf.value);
      return ok, ok;
    }

    method AcceptHeaderLine(buf: Buffer, text: string, length: nat) returns (ok: bool)
      requires buf.Valid() && state == ExpectHeaders && text == buf.Peek() && length + 2 <= |text|
      modifies this, buf`reader, buf`writer
      ensures buf.Valid() && limits == old(limits)
      ensures var counted := old(View()).(headerBytes := old(headerBytes) + length + 2);
              match TakeHeaderLine(old(View()), counted, text, length)
              case Wait => false
              case Fail(c, rest) =>
                !ok && buf.Peek() == rest && View().(error := if error == ParseOk then BadRequest else error) == c
              case Go(c, rest) => ok && View() == c && buf.Peek() == rest && state == ExpectHeaders
    {
      hide ParseHeaderLine;
      ok := ProcessHeaderLine(text[..length]);
      if !ok {
        return false;
      }
      headerBytes := headerBytes + length + 2;
      buf.Retrieve(length + 2);
    }

    method ParseHeaders(buf: Buffer) returns (ok: bool)
      requires buf.Valid() && state == ExpectHeaders
      modifies this, buf`reader, buf`writer
      ensures buf.Valid() && limits == old(limits)
      ensures match HeadersTurn(limits, old(View()), old(buf.Peek()))
              case Return(o) =>
                !ok && buf.Peek() == o.unread
                && View().(error := if error == ParseOk then BadRequest else error) == o.context
              case Again(c, rest) => ok && View() == c && buf.Peek() == rest
    {
      ghost var start := HeadersTurn(limits, View(), buf.Peek());
      var more := true;
      ok := true;
      while more
        invariant ok && buf.Valid() && limits == old(limits)
        invariant more ==> state == ExpectHeaders
        invariant if more then HeadersTurn(limits, View(), buf.Peek()) == start else start == Again(View(), buf.Peek())
        decreases |buf.Peek()|, more
      {
        ghost var c, text := View(), buf.Peek();
        if Advance(limits, c, text).Go? { GoShrinks(limits, c, text); }
        ok, more := ParseHeader(buf);
        if !ok {
          return;
        }
      }
    }

    method ParseBody(buf: Buffer) returns (ok: bool)
      requires buf.Valid() && state == ExpectBody
      modifies this, buf`reader, buf`writer
      ensures ok && buf.Valid() && limits == old(limits)
      ensures match AdvanceBody(old(View()), old(buf.Peek()))
              case Wait => View() == old(View()) && buf.Peek() == old(buf.Peek())
              case Go(c, rest) => View() == c && buf.Peek() == rest
    {
      if buf.ReadableBytes() < contentLength {
        return true;
      }
      var text := buf.Peek();
      request := request.(body := text[..contentLength]);
      buf.Retrieve(contentLength);
      state := GotCompleteRequest;
      return true;
    }

    method ParseFirstLine(buf: Buffer) returns (ok: bool, more: bool)
      requires buf.Valid() && state == ExpectRequestLine
      modifies this, buf`reader, buf`writer
      ensures buf.Valid() && limits == old(limits)
      ensures match AdvanceRequestLine(limits, old(View()), old(buf.Peek()))
              case Wait => ok && !more && View() == old(View()) && buf.Peek() == old(buf.Peek())
              case Fail(c, rest) => !ok && View() == c && buf.Peek() == rest
              case Go(c, rest) => ok && more && View() == c && buf.Peek() == rest
    {
      var text := buf.Peek();
      var crlf := FindCRLF(text);
      if crlf == None {
        if |text| > limits.maxRequestLine {
          error := RequestLineTooLarge;
          return false, false;
        }
        return true, false;
      }
      if crlf.value + 2 > limits.maxRequestLine {
        error := RequestLineTooLarge;
        return false, false;
      }
      ok := ProcessRequestLine(text[..crlf.value]);
      if !ok {
        error := BadRequest;
        return false, false;
      }
      buf.Retrieve(crlf.value + 2);
      state := ExpectHeaders;
      return true, true;
    }

    /** The documented parseRequest. The source's loop has no exit where this one returns true
        on missing header or body bytes. */
    method ParseRequest(buf: Buffer) returns (ok: bool)
      requires buf.Valid()
      modifies this, buf`reader, buf`writer
      ensures buf.Valid() && limits == old(limits)
      ensures Outcome(ok, View(), buf.Peek()) == HttpStream.ParseRequest(limits, old(View()), old(buf.Peek()))
    {
      hide AdvanceRequestLine, AdvanceHeaders;
      ghost var result := HttpStream.ParseRequest(limits, View(), buf.Peek());
      while state != GotCompleteRequest
        invariant buf.Valid() && limits == old(limits)
        invariant HttpStream.ParseRequest(limits, View(), buf.Peek()) == result
        decreases |buf.Peek()|, Rank(state)
      {
        ghost var c, text := View(), buf.Peek();
        TurnIsParse(limits, c, text);
        if TurnOf(limits, c, text).Again? { TurnProgress(limits, c, text); }
        HeadersTurnStops(limits, c, text);
        match state {
          case ExpectRequestLine =>
            var more;
            ok, more := ParseFirstLine(buf);
            if !ok || !more {
              return;
            }
          case ExpectHeaders =>
            ok := ParseHeaders(buf);
            if !ok {
              if error == ParseOk {
                error := BadRequest;
              }
              return;
            }
            if state == ExpectHeaders {
              return true;
            }
          case ExpectBody =>
            ok := ParseBody(buf);
            if state == ExpectBody {
              return true;
            }
        }
      }
      return true;
    }
  }

  /** The parsing side of a connection: HttpServer's message callback over the input buffer. reply
      stands for the handlers' decisions. */
  class HttpConnection {
    const context: HttpContext
    const input: Buffer
    const reply: Request -> Reply
    var requests: seq<Request>

    ghost predicate Valid()
      reads this, input, input.store
    {
      input.Valid()
    }

    ghost function Progress(): Server
      requires input.Valid()
      reads this, context, input, input.store
    {
      Server(context.View(), input.Peek(), requests)
    }

    constructor (limits: Limits, initialSize: nat, reply: Request -> Reply)
      ensures Valid() && Progress() == IDLE && context.limits == limits && this.reply == reply
      ensures fresh(context) && fresh(input) && fresh(input.store)
    {
      context := new HttpContext(limits);
      input := new Buffer(initialSize);
      this.reply := reply;
      requests := [];
    }

    /** Bytes arrive: whatever the buffer does with its array, the server has moved as if the bytes
        had been given to the specification. */
    method OnMessage(data: string)
      requires Valid()
      modifies this, context, input, input.store
      ensures Valid() && Progress() == Arrive(old(context.limits), reply, old(Progress()), data)
      ensures context.limits == old(context.limits)
      ensures input.store == old(input.store) || fresh(input.store)
    {
      hide HttpStream.ParseRequest;
      ghost var l := context.limits;
      ghost var settled := Arrive(l, reply, Progress(), data);
      input.Append(data);
      while input.ReadableBytes() > 0
        modifies this, context, input`reader, input`writer
        invariant input.Valid() && context.limits == l
        invariant Serve(l, reply, Progress()) == settled
        decreases |input.Peek()|, Rank(context.state)
      {
        ghost var s := Progress();
        CompletedShrinks(l, s.context, s.unread);
        var ok := context.ParseRequest(input);
        if !ok {
          return;
        }
        if context.state != GotCompleteRequest {
          return;
        }
        requests := requests + [context.request];
        match reply(context.request) {
          case KeepOpen =>
            context.Reset();
          case CloseAfter =>
            return;
          case Later =>
            context.Reset();
            return;
        }
      }
    }
  }
}
