/** The HTTP client's request object: its handlers, first as functions on its state, then as the
    methods of the object, and the whole exchange with an arbitrary network. */
module HttpClient {
  import opened Streams
  import opened Decimal
  import opened StatusLines
  import opened HeaderBlocks

  // ------------------------------------------------------------------ state

  /** A response as the callback sees it; the code is absent until a status line has been parsed. */
  datatype Response = Response(statusCode: Option<nat>, statusMessage: string, headers: Headers, buf: string)

  const EMPTY_RESPONSE := Response(None, "", map[], "")

  /** The asynchronous operations of one request, in the order they are started. */
  datatype Stage = Resolve | Connect | SendRequest | ReadStatus | ReadHeaders | ReadBody

  /** `finished` records the calls of the user's callback; `spinning` marks a header loop that never ends. */
  datatype Request = Request(
    host: string, uri: string, requestBuf: string, response: Response,
    cancelled: bool, pending: Option<Stage>, finished: seq<ErrorCode>, spinning: bool)

  function RequestLine(uri: string): string {
    "GET " + uri + " HTTP/1.1"
  }

  function HostLine(host: string): string {
    "Host: " + host
  }

  function RequestText(host: string, uri: string): string {
    RequestLine(uri) + CRLF + (HostLine(host) + BLANK)
  }

  // ------------------------------------------------------------------ handlers

  /** What a handler does before it takes the cancel lock: go on to a next stage, finish with a code
      without taking the lock, or loop for ever. */
  datatype Prelude =
    | Proceeds(request: Request, next: Stage)
    | Finishes(request: Request, ec: ErrorCode)
    | Loops(request: Request)

  function BeforeLock(q: Request, stage: Stage, ec: ErrorCode): Prelude {
    if stage == ReadBody then Finishes(q, if ec == Eof then Success else ec)
    else if ec.Failed() then Finishes(q, ec)
    else
      match stage
      case Resolve => Proceeds(q, Connect)
      case Connect => Proceeds(q.(requestBuf := q.requestBuf + RequestText(q.host, q.uri)), SendRequest)
      case SendRequest => Proceeds(q, ReadStatus)
      case ReadStatus =>
        (match ParseStatusLine(q.response.buf)
         case Malformed(stream) =>
           Finishes(q.(response := q.response.(buf := stream.rest)), InvalidResponse)
         case Parsed(code, message, stream) =>
           Proceeds(q.(response := Response(Some(code), message, q.response.headers, stream.rest)), ReadHeaders))
      case _ =>
        (match ScanBlock(q.response.buf, q.response.headers)
         case Stopped(headers, rest) =>
           Proceeds(q.(response := q.response.(headers := headers, buf := rest)), ReadBody)
         case Spins(headers) =>
           Loops(q.(response := q.response.(headers := headers, buf := ""))))
  }

  function Finish(q: Request, ec: ErrorCode): Request {
    q.(finished := q.finished + [ec])
  }

  /** What happens under the cancel lock: start the next stage, or give up if the request was cancelled. */
  function StartUnlessCancelled(q: Request, next: Stage): Request {
    if q.cancelled then Finish(q, OperationAborted) else q.(pending := Some(next))
  }

  /** The handler of a completed stage, run without interference. */
  function Handle(q: Request, stage: Stage, ec: ErrorCode): Request {
    match BeforeLock(q.(pending := None), stage, ec)
    case Proceeds(r, next) => StartUnlessCancelled(r, next)
    case Finishes(r, e) => Finish(r, e)
    case Loops(r) => r.(spinning := true)
  }

  // ------------------------------------------------------------------ the objects

  class HTTPResponse {
    var statusCode: Option<nat>
    var statusMessage: string
    var headers: Headers
    var buf: string

    constructor ()
      ensures Value() == EMPTY_RESPONSE
    {
      statusCode, statusMessage, headers, buf := None, "", map[], "";
    }

    function Value(): Response
      reads this
    {
      Response(statusCode, statusMessage, headers, buf)
    }

    method SetStatusCode(code: nat)
      modifies this`statusCode
      ensures Value() == old(Value()).(statusCode := Some(code))
    {
      statusCode := Some(code);
    }

    method SetStatusMessage(message: string)
      modifies this`statusMessage
      ensures Value() == old(Value()).(statusMessage := message)
    {
      statusMessage := message;
    }

    method AddHeader(name: string, value: string)
      modifies this`headers
      ensures Value() == old(Value()).(headers := old(headers)[name := value])
    {
      headers := headers[name := value];
    }
  }

  class HTTPRequest {
    const response: HTTPResponse
    var host: string
    var port: nat
    var uri: string
    var requestBuf: string
    var wasCancelled: bool
    var pending: Option<Stage>
    var finished: seq<ErrorCode>
    var spinning: bool

    constructor ()
      ensures Value() == Request("", "", "", EMPTY_RESPONSE, false, None, [], false)
      ensures port == 80 && fresh(response)
    {
      response := new HTTPResponse();
      host, port, uri, requestBuf := "", 80, "", "";
      wasCancelled, pending, finished, spinning := false, None, [], false;
    }

    function Value(): Request
      reads this, response
    {
      Request(host, uri, requestBuf, response.Value(), wasCancelled, pending, finished, spinning)
    }

    method Execute()
      requires port > 0 && host != "" && uri != ""
      modifies this`pending, this`finished
      ensures Value() == StartUnlessCancelled(old(Value()), Resolve)
    {
      if wasCancelled {
        OnFinish(OperationAborted);
        return;
      }
      pending := Some(Resolve);
    }

    method Cancel()
      modifies this`wasCancelled
      ensures Value() == old(Value()).(cancelled := true)
    {
      wasCancelled := true;
    }

    method OnFinish(ec: ErrorCode)
      modifies this`finished
      ensures Value() == Finish(old(Value()), ec)
    {
      finished := finished + [ec];
    }

    method OnHostNameResolved(ec: ErrorCode)
      requires pending == Some(Resolve)
      modifies this
      ensures Value() == Handle(old(Value()), Resolve, ec)
    {
      pending := None;
      if ec.Failed() {
        OnFinish(ec);
        return;
      }
      if wasCancelled {
        OnFinish(OperationAborted);
        return;
      }
      pending := Some(Connect);
    }

    method OnConnectionEstablished(ec: ErrorCode)
      requires pending == Some(Connect)
      modifies this
      ensures Value() == Handle(old(Value()), Connect, ec)
      ensures requestBuf == if ec.Failed() then old(requestBuf)
                            else old(requestBuf) + ("GET " + uri + " HTTP/1.1\r\n" + "Host: " + host + "\r\n" + "\r\n")
    {
      pending := None;
      if ec.Failed() {
        OnFinish(ec);
        return;
      }
      var text := "GET " + uri + " HTTP/1.1\r\n";
      text := text + "Host: " + host + "\r\n";
      text := text + "\r\n";
      assert text == RequestText(host, uri);
      requestBuf := requestBuf + text;
      if wasCancelled {
        OnFinish(OperationAborted);
        return;
      }
      pending := Some(SendRequest);
    }

    /** The shutdown of the sending side may throw; the exception then leaves the handler. */
    method OnRequestSent(ec: ErrorCode, shutdownFails: bool) returns (thrown: bool)
      requires pending == Some(SendRequest)
      modifies this
      ensures thrown == (!ec.Failed() && shutdownFails)
      ensures Value() == if thrown then old(Value()).(pending := None) else Handle(old(Value()), SendRequest, ec)
    {
      pending := None;
      if ec.Failed() {
        OnFinish(ec);
        return false;
      }
      if shutdownFails {
        return true;
      }
      if wasCancelled {
        OnFinish(OperationAborted);
        return false;
      }
      pending := Some(ReadStatus);
      return false;
    }

    method OnStatusLineReceived(ec: ErrorCode)
      requires pending == Some(ReadStatus)
      modifies this, response
      ensures Value() == Handle(old(Value()), ReadStatus, ec)
    {
      hide Stoul, IStream.Extract, IStream.Getline, IStream.Get;
      pending := None;
      if ec.Failed() {
        OnFinish(ec);
        return;
      }
      var (afterVersion, version) := Open(response.buf).Extract("");
      if version != HTTP_VERSION {
        response.buf := afterVersion.rest;
        OnFinish(InvalidResponse);
        return;
      }
      var (afterCode, text) := afterVersion.Extract("");
      var value := Stoul(text);
      if value == None {
        response.buf := afterCode.rest;
        OnFinish(InvalidResponse);
        return;
      }
      var (afterMessage, message) := afterCode.Getline("", CR);
      response.buf := afterMessage.Get().rest;
      response.SetStatusCode(value.value % UINT_RANGE);
      response.SetStatusMessage(message);
      if wasCancelled {
        OnFinish(OperationAborted);
        return;
      }
      pending := Some(ReadHeaders);
    }

    method OnHeadersReceived(ec: ErrorCode)
      requires pending == Some(ReadHeaders)
      modifies this, response
      ensures Value() == Handle(old(Value()), ReadHeaders, ec)
    {
      pending := None;
      if ec.Failed() {
        OnFinish(ec);
        return;
      }
      var stops := ParseHeaders();
      if !stops {
        spinning := true;
        return;
      }
      if wasCancelled {
        OnFinish(OperationAborted);
        return;
      }
      pending := Some(ReadBody);
    }

    /** The header loop. The source's `while (true)` has no other exit than an empty header; here it
        is also left, with `stops` false, when the stream is no longer good after a non-empty header,
        because from then on no turn changes the header any more (`StuckTurns`). */
    method ParseHeaders() returns (stops: bool)
      modifies response`headers, response`buf
      ensures match ScanBlock(old(response.buf), old(response.headers))
              case Stopped(headers, rest) =>
                stops && response.Value() == old(response.Value()).(headers := headers, buf := rest)
              case Spins(headers) =>
                !stops && response.Value() == old(response.Value()).(headers := headers, buf := "")
    {
      hide ScanBlock, IStream.Getline, IStream.Get;
      var header := "";
      var stream := Open(response.buf);
      ghost var scan := ScanBlock(response.buf, response.headers);
      while true
        invariant stream.Good() && ScanBlock(stream.rest, response.headers) == scan
        decreases |stream.rest|
      {
        ScanStep(stream.rest, header, response.headers);
        ghost var turn := NextTurn(Turn(stream, header, response.headers));
        var (afterLine, line) := stream.Getline(header, CR);
        stream, header := afterLine.Get(), line;
        if header == "" {
          stops := true;
          break;
        }
        var colon := IndexOf(header, ':');
        if colon < |header| {
          response.AddHeader(header[..colon], header[colon + 1..]);
        }
        assert turn == Turn(stream, header, response.headers);
        if !stream.Good() {
          stops := false;
          break;
        }
      }
      response.buf := stream.rest;
    }

    method OnResponseBodyReceived(ec: ErrorCode)
      requires pending == Some(ReadBody)
      modifies this
      ensures Value() == Handle(old(Value()), ReadBody, ec)
    {
      pending := None;
      if ec == Eof {
        OnFinish(Success);
      } else {
        OnFinish(ec);
      }
    }
  }
}
