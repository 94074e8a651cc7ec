/** The HTTP server's per-connection service: its handlers as functions, the self-deleting object,
    and the whole service against an arbitrary network. */
module HttpServer {
  import opened Streams
  import opened Decimal
  import opened StatusLines
  import opened HeaderBlocks

  // ------------------------------------------------------------------ state

  /** The keys of the table of status lines. */
  predicate Known(code: nat) {
    code == 200 || code == 404 || code == 413 || code == 500 || code == 501 || code == 505
  }

  /** `http_status_table.at(code)`. */
  function StatusEntry(code: nat): string
    requires Known(code)
  {
    match code
    case 200 => "200 OK"
    case 404 => "404 Not Found"
    case 413 => "413 Request Entity Too Large"
    case 500 => "500 Server Error"
    case 501 => "501 Not Implemented"
    case 505 => "505 HTTP Version Not Supported"
  }

  const BUFFER_SIZE: nat := 4096

  /** What the file system says about a path. */
  datatype Lookup = Missing | Unopenable | Content(bytes: string)

  type FileSystem = string -> Lookup

  datatype Operation = ReadRequestLine | ReadRequestHeaders | SendResponse(wire: string)

  datatype Service = Service(
    request: string, requestHeaders: Headers, requestedResource: string, statusCode: nat,
    resource: string, responseHeaders: string, pending: Option<Operation>, deleted: bool)

  const NEW_SERVICE := Service("", map[], "", 200, "", "", None, false)

  // ------------------------------------------------------------------ handlers

  function StatusLineText(code: nat): string
    requires Known(code)
  {
    HTTP_VERSION + " " + StatusEntry(code) + CRLF
  }

  function Respond(s: Service): Service
    requires Known(s.statusCode)
  {
    s.(responseHeaders := s.responseHeaders + CRLF,
       pending := Some(SendResponse(StatusLineText(s.statusCode) + (s.responseHeaders + CRLF) + s.resource)))
  }

  function RespondWith(s: Service, code: nat): Service
    requires Known(code)
  {
    Respond(s.(statusCode := code))
  }

  function Delete(s: Service): Service {
    s.(deleted := true)
  }

  function OnRequestLine(s: Service, ec: ErrorCode): Service {
    if ec == NotFound then RespondWith(s, 413)
    else if ec.Failed() then Delete(s)
    else
      var (afterLine, line) := Open(s.request).Getline("", CR);
      var s1 := s.(request := afterLine.Get().rest);
      var (afterMethod, method_) := Open(line).Extract("");
      if method_ != "GET" then RespondWith(s1, 501)
      else
        var (afterResource, resource) := afterMethod.Extract(s.requestedResource);
        var (_, version) := afterResource.Extract("");
        var s2 := s1.(requestedResource := resource);
        if version != HTTP_VERSION then RespondWith(s2, 505)
        else s2.(pending := Some(ReadRequestHeaders))
  }

  function LengthLine(size: nat): string {
    "content-length" + ": " + Print(size)
  }

  function Process(s: Service, files: FileSystem): Service {
    match files("http_root" + s.requestedResource)
    case Missing => s.(statusCode := 404)
    case Unopenable => s.(statusCode := 500)
    case Content(bytes) =>
      s.(resource := bytes, responseHeaders := s.responseHeaders + (LengthLine(|bytes|) + CRLF))
  }

  function OnHeaders(s: Service, ec: ErrorCode, files: FileSystem): Service
    requires Known(s.statusCode)
  {
    if ec == NotFound then RespondWith(s, 413)
    else if ec.Failed() then Delete(s)
    else
      Respond(Process(s.(request := "", requestHeaders := ServerScan(s.request, s.requestHeaders)), files))
  }

  /** The handler of a completed operation. */
  function Handle(s: Service, op: Operation, ec: ErrorCode, files: FileSystem): Service
    requires Known(s.statusCode)
  {
    match op
    case ReadRequestLine => OnRequestLine(s.(pending := None), ec)
    case ReadRequestHeaders => OnHeaders(s.(pending := None), ec, files)
    case SendResponse(_) => Delete(s.(pending := None))
  }

  /** A handler that leads to this state has shut down the receiving side of its socket. */
  predicate Responds(s: Service) {
    s.pending.Some? && s.pending.value.SendResponse?
  }

  // ------------------------------------------------------------------ the object

  /** A shutdown of the socket may throw; the exception then leaves the handler, and the service is
      neither deleted nor does it wait for anything. */
  class HTTPService {
    var request: string
    var requestHeaders: Headers
    var requestedResource: string
    var statusCode: nat
    var resource: string
    var responseHeaders: string
    var pending: Option<Operation>
    var deleted: bool

    function Value(): Service
      reads this
    {
      Service(request, requestHeaders, requestedResource, statusCode, resource, responseHeaders, pending, deleted)
    }

    constructor ()
      ensures Value() == NEW_SERVICE
    {
      request, requestHeaders, requestedResource := "", map[], "";
      statusCode, resource, responseHeaders := 200, "", "";
      pending, deleted := None, false;
    }

    method StartHandling()
      requires !deleted && pending == None
      modifies this`pending
      ensures Value() == old(Value()).(pending := Some(ReadRequestLine))
    {
      pending := Some(ReadRequestLine);
    }

    method OnRequestLineReceived(ec: ErrorCode, shutdownFails: bool, ghost files: FileSystem) returns (thrown: bool)
      requires !deleted && pending == Some(ReadRequestLine) && Known(statusCode)
      modifies this
      ensures var s := Handle(old(Value()), ReadRequestLine, ec, files);
              && thrown == (shutdownFails && Responds(s))
              && if thrown then !deleted && pending == None else Value() == s
    {
      hide StatusEntry, IStream.Extract, IStream.Getline, IStream.Get;
      thrown := false;
      pending := None;
      if ec.Failed() {
        if ec == NotFound {
          statusCode := 413;
          thrown := SendResponse(shutdownFails);
        } else {
          OnFinish();
        }
        return;
      }
      var (afterLine, line) := Open(request).Getline("", CR);
      request := afterLine.Get().rest;
      var (afterMethod, requestMethod) := Open(line).Extract("");
      if requestMethod != "GET" {
        statusCode := 501;
        thrown := SendResponse(shutdownFails);
        return;
      }
      var (afterResource, target) := afterMethod.Extract(requestedResource);
      requestedResource := target;
      var (_, version) := afterResource.Extract("");
      if version != HTTP_VERSION {
        statusCode := 505;
        thrown := SendResponse(shutdownFails);
        return;
      }
      pending := Some(ReadRequestHeaders);
    }

    method OnHeadersReceived(ec: ErrorCode, shutdownFails: bool, files: FileSystem) returns (thrown: bool)
      requires !deleted && pending == Some(ReadRequestHeaders) && Known(statusCode)
      modifies this
      ensures var s := Handle(old(Value()), ReadRequestHeaders, ec, files);
              && thrown == (shutdownFails && Responds(s))
              && if thrown then !deleted && pending == None else Value() == s
    {
      hide StatusEntry;
      thrown := false;
      pending := None;
      if ec.Failed() {
        if ec == NotFound {
          statusCode := 413;
          thrown := SendResponse(shutdownFails);
        } else {
          OnFinish();
        }
        return;
      }
      ParseHeaders();
      ProcessRequest(files);
      thrown := SendResponse(shutdownFails);
    }

    /** The header loop; it ends on every buffer. */
    method ParseHeaders()
      modifies this`request, this`requestHeaders
      ensures request == "" && requestHeaders == ServerScan(old(request), old(requestHeaders))
    {
      var stream := Open(request);
      var name, value := "", "";
      ghost var headers := ServerScan(request, requestHeaders);
      while !stream.eof
        invariant stream.eof ==> stream.rest == "" && requestHeaders == headers
        invariant !stream.eof ==> stream.Good() && ServerScan(stream.rest, requestHeaders) == headers
        decreases if stream.eof then 0 else 1, |stream.rest|
      {
        ServerTurn(stream.rest, name, value, requestHeaders);
        var (afterName, newName) := stream.Getline(name, ':');
        stream, name := afterName, newName;
        if !stream.eof {
          var (afterValue, newValue) := stream.Getline(value, CR);
          stream, value := afterValue.Get(), newValue;
          requestHeaders := requestHeaders[name := value];
          ServerScanEmpty(requestHeaders);
        }
      }
      request := stream.rest;
    }

    method ProcessRequest(files: FileSystem)
      modifies this`statusCode, this`resource, this`responseHeaders
      ensures Value() == Process(old(Value()), files)
    {
      match files("http_root" + requestedResource) {
        case Missing =>
          statusCode := 404;
        case Unopenable =>
          statusCode := 500;
        case Content(bytes) =>
          resource := bytes;
          responseHeaders := responseHeaders + ("content-length" + ": " + Print(|bytes|) + "\r\n");
      }
    }

    method SendResponse(shutdownFails: bool) returns (thrown: bool)
      requires Known(statusCode)
      modifies this`responseHeaders, this`pending
      ensures thrown == shutdownFails
      ensures Value() == if thrown then old(Value()) else Respond(old(Value()))
    {
      if shutdownFails {
        return true;
      }
      var statusLine := "HTTP/1.1 " + StatusEntry(statusCode) + "\r\n";
      assert statusLine == StatusLineText(statusCode);
      responseHeaders := responseHeaders + "\r\n";
      var buffers := statusLine;
      if |responseHeaders| > 0 {
        buffers := buffers + responseHeaders;
      }
      if |resource| > 0 {
        buffers := buffers + resource;
      }
      assert buffers == statusLine + responseHeaders + resource;
      pending := Some(Operation.SendResponse(buffers));
      return false;
    }

    method OnResponseSent(ec: ErrorCode, shutdownFails: bool, ghost files: FileSystem) returns (thrown: bool)
      requires !deleted && pending.Some? && pending.value.SendResponse? && Known(statusCode)
      modifies this
      ensures thrown == shutdownFails
      ensures Value() == if thrown then old(Value()).(pending := None) else Handle(old(Value()), old(pending).value, ec, files)
    {
      pending := None;
      if shutdownFails {
        return true;
      }
      OnFinish();
      return false;
    }

    method OnFinish()
      requires !deleted
      modifies this`deleted
      ensures Value() == Delete(old(Value()))
    {
      deleted := true;
    }
  }

  lemma {:induction false} ValueTurn(v: string, value: string)
    ensures var (afterValue, x) := Open(v).Getline(value, CR);
            var s := afterValue.Get();
            var j := IndexOf(v, CR);
            && x == v[..j] && s.rest == v[Min(j + 2, |v|)..] && (if s.eof then s.rest == "" else s.Good())
  {
    var j := IndexOf(v, CR);
    if j == |v| {
      assert v[..j] == v;
    } else if j + 1 < |v| {
      assert v[j + 1..][1..] == v[j + 2..];
    }
  }

  /** One turn of the server's header loop is one step of `ServerScan`. */
  lemma {:induction false} ServerTurn(buf: string, name: string, value: string, headers: Headers)
    ensures var (afterName, n) := Open(buf).Getline(name, ':');
            if afterName.eof then ServerScan(buf, headers) == headers && afterName.rest == ""
            else
              var (afterValue, v) := afterName.Getline(value, CR);
              var s := afterValue.Get();
              && ServerScan(buf, headers) == ServerScan(s.rest, headers[n := v])
              && (if s.eof then s.rest == "" else s.Good() && |s.rest| < |buf|)
  {
    var k := IndexOf(buf, ':');
    NameTurn(buf, name);
    if k < |buf| {
      var v := buf[k + 1..];
      ValueTurn(v, value);
      var j := IndexOf(v, CR);
      hide IStream.Getline, IStream.Get, IndexOf;
      assert ServerScan(buf, headers) == ServerScan(v[Min(j + 2, |v|)..], headers[buf[..k] := v[..j]]);
    }
  }

  lemma {:induction false} NameTurn(buf: string, name: string)
    ensures var (afterName, n) := Open(buf).Getline(name, ':');
            var k := IndexOf(buf, ':');
            && n == buf[..k]
            && if k == |buf| then afterName.eof && afterName.rest == "" else afterName == Open(buf[k + 1..])
  {
    var k := IndexOf(buf, ':');
    if k == |buf| {
      assert buf[..k] == buf;
    }
  }

  lemma {:induction false} ServerScanEmpty(headers: Headers)
    ensures ServerScan("", headers) == headers
  {
  }

  // ------------------------------------------------------------------ the service and the network

  /** The reads of a new service, completed by the network one after the other. */
  function Serve(wire: string, end: ErrorCode, files: FileSystem, pick: Chunking): Service {
    var r := ReadUntil("", wire, CRLF, AtMost(BUFFER_SIZE), end, pick);
    ServeOn(OnRequestLine(NEW_SERVICE.(request := r.buf), r.ec), r.wire, end, files, pick)
  }

  function ServeOn(s: Service, wire: string, end: ErrorCode, files: FileSystem, pick: Chunking): Service
    requires Known(s.statusCode)
  {
    if s.pending != Some(ReadRequestHeaders) then s else ServeHeaders(s, wire, end, files, pick)
  }

  function ServeHeaders(s: Service, wire: string, end: ErrorCode, files: FileSystem, pick: Chunking): Service
    requires Known(s.statusCode)
  {
    var r := ReadUntil(s.request, wire, BLANK, AtMost(BUFFER_SIZE), end, pick);
    OnHeaders(s.(request := r.buf, pending := None), r.ec, files)
  }
}
