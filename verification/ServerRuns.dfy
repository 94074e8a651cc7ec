/** The server against an arbitrary network: its reply is a function of the request bytes and the
    file system, whatever pieces the request arrives in. */
module ServerRuns {
  import opened Streams
  import opened StatusLines
  import opened HeaderBlocks
  import opened HttpServer

  const LIMIT := AtMost(BUFFER_SIZE)

  function ErrorReply(code: nat): string
    requires Known(code)
  {
    StatusLineText(code) + CRLF
  }

  function FileReply(bytes: string): string {
    StatusLineText(200) + (LengthLine(|bytes|) + BLANK) + bytes
  }

  function Fetch(path: string, files: FileSystem): string {
    match files("http_root" + path)
    case Missing => ErrorReply(404)
    case Unopenable => ErrorReply(500)
    case Content(bytes) => FileReply(bytes)
  }

  /** What becomes of a request: a file is looked up, an error is sent, or the connection just ends. */
  datatype Judgement = LookUp(path: string) | Refuse(code: nat) | Ignore

  /** The server's judgement, described on the whole request: 413 for 4096 bytes without the
      delimiter of the current phase, nothing for a request that ends before it, then 501 for
      a first word other than GET, 505 for a third word other than HTTP/1.1, and last the file. */
  function Judge(wire: string): (j: Judgement)
    ensures j.Refuse? ==> j.code == 413 || j.code == 501 || j.code == 505
  {
    if !Contains(LIMIT.Window(wire), CRLF) then
      if |wire| >= BUFFER_SIZE then Refuse(413) else Ignore
    else
      var k := IndexOf(wire, CR);
      JudgeLine(Words(wire[..k]), wire[Min(k + 2, |wire|)..])
  }

  function JudgeLine(words: seq<string>, rest: string): (j: Judgement)
    ensures j.Refuse? ==> j.code == 413 || j.code == 501 || j.code == 505
  {
    if |words| < 1 || words[0] != "GET" then Refuse(501)
    else if |words| < 3 || words[2] != HTTP_VERSION then Refuse(505)
    else JudgeHeaders(words[1], rest)
  }

  function JudgeHeaders(path: string, rest: string): (j: Judgement)
    ensures j.Refuse? ==> j.code == 413 || j.code == 501 || j.code == 505
  {
    if Contains(LIMIT.Window(rest), BLANK) then LookUp(path)
    else if |rest| >= BUFFER_SIZE then Refuse(413)
    else Ignore
  }

  function Carry(j: Judgement, files: FileSystem): Option<string>
    requires j.Refuse? ==> Known(j.code)
  {
    match j
    case LookUp(path) => Some(Fetch(path, files))
    case Refuse(code) => Some(ErrorReply(code))
    case Ignore => None
  }

  /** The reply of the server as a function of the request bytes and the file system. */
  function Reply(wire: string, files: FileSystem): Option<string> {
    Carry(Judge(wire), files)
  }

  /** What the service has come to: a response under way, or its own deletion. */
  ghost predicate CameTo(s: Service, reply: Option<string>) {
    match reply
    case Some(wire) => s.pending == Some(SendResponse(wire)) && !s.deleted
    case None => s.pending == None && s.deleted
  }

  // ------------------------------------------------------------------ words of the request line

  function WordAt(words: seq<string>, i: nat): string {
    if i < |words| then words[i] else ""
  }

  /** The three extractions of the request-line parser yield the first three words. */
  lemma {:induction false} ThreeWords(line: string)
    ensures var (s1, a) := Open(line).Extract("");
            var (s2, b) := s1.Extract("");
            var (_, c) := s2.Extract("");
            a == WordAt(Words(line), 0) && b == WordAt(Words(line), 1) && c == WordAt(Words(line), 2)
  {
    NextWord(Open(line));
    var (s1, _) := Open(line).Extract("");
    NextWord(s1);
    var (s2, _) := s1.Extract("");
    NextWord(s2);
  }

  /** A stream that failed has nothing left. */
  predicate Sound(s: IStream) {
    s.Good() || s.rest == ""
  }

  lemma {:induction false} NextWord(s: IStream)
    requires Sound(s)
    ensures var (t, word) := s.Extract("");
            && Sound(t)
            && word == WordAt(Words(s.rest), 0)
            && Words(t.rest) == if Words(s.rest) == [] then [] else Words(s.rest)[1..]
  {
    assert Words("") == [];
    if s.Good() {
      ExtractTakesWord(s.rest);
    }
  }

  // ------------------------------------------------------------------ the reply

  lemma {:induction false} ErrorResponse(s: Service, code: nat)
    requires s.responseHeaders == "" && s.resource == "" && !s.deleted && Known(code)
    ensures CameTo(RespondWith(s, code), Some(ErrorReply(code)))
  {
    assert StatusLineText(code) + ("" + CRLF) + "" == ErrorReply(code);
  }

  lemma {:induction false} FileResponse(s: Service, files: FileSystem)
    requires s.statusCode == 200 && s.responseHeaders == "" && s.resource == "" && !s.deleted
    ensures CameTo(Respond(Process(s, files)), Some(Fetch(s.requestedResource, files)))
  {
    match files("http_root" + s.requestedResource) {
      case Missing => ErrorResponse(s, 404);
      case Unopenable => ErrorResponse(s, 500);
      case Content(bytes) =>
        assert "" + (LengthLine(|bytes|) + CRLF) + CRLF == LengthLine(|bytes|) + BLANK;
    }
  }

  lemma {:induction false} HeadersReply(s: Service, wire: string, end: ErrorCode, files: FileSystem, pick: Chunking)
    requires s.statusCode == 200 && s.resource == "" && s.responseHeaders == "" && !s.deleted
    requires |s.request| <= BUFFER_SIZE && end.Failed() && end != NotFound
    ensures CameTo(ServeHeaders(s, wire, end, files, pick), Carry(JudgeHeaders(s.requestedResource, s.request + wire), files))
  {
    ReadUntilOutcome(s.request, wire, BLANK, LIMIT, end, pick);
    var r := ReadUntil(s.request, wire, BLANK, LIMIT, end, pick);
    var t := s.(request := r.buf, pending := None);
    if r.ec == Success {
      FileResponse(t.(request := "", requestHeaders := ServerScan(t.request, t.requestHeaders)), files);
    } else if r.ec == NotFound {
      ErrorResponse(t, 413);
    }
  }

  predicate Acceptable(words: seq<string>) {
    |words| >= 3 && words[0] == "GET" && words[2] == HTTP_VERSION
  }

  /** The service after an acceptable request line. */
  function ReadyForHeaders(words: seq<string>, rest: string): Service
    requires |words| >= 3
  {
    NEW_SERVICE.(request := rest, requestedResource := words[1], pending := Some(ReadRequestHeaders))
  }

  lemma {:induction false} RequestLineVerdict(s: Service, line: string, rest: string, files: FileSystem)
    requires Open(s.request).Getline("", CR).1 == line && Open(s.request).Getline("", CR).0.Get().rest == rest
    requires s == NEW_SERVICE.(request := s.request)
    ensures var t := OnRequestLine(s, Success);
            if Acceptable(Words(line)) then t == ReadyForHeaders(Words(line), rest)
            else CameTo(t, Carry(JudgeLine(Words(line), rest), files)) && t.pending != Some(ReadRequestHeaders)
  {
    ThreeWords(line);
    ErrorResponse(s.(request := rest), 501);
    ErrorResponse(s.(request := rest, requestedResource := WordAt(Words(line), 1)), 505);
  }

  /** A line within the buffer size is read, and the parser takes it off up to its first CR. */
  lemma {:induction false} LineRead(wire: string, end: ErrorCode, pick: Chunking)
    requires Contains(LIMIT.Window(wire), CRLF)
    ensures var r := ReadUntil("", wire, CRLF, LIMIT, end, pick);
            var k := IndexOf(wire, CR);
            && r.ec == Success && k + 2 <= |r.buf| <= BUFFER_SIZE && k + 2 <= |wire|
            && r.buf[k + 2..] + r.wire == wire[k + 2..]
            && Open(r.buf).Getline("", CR).1 == wire[..k]
            && Open(r.buf).Getline("", CR).0.Get().rest == r.buf[k + 2..]
  {
    assert "" + wire == wire;
    ReadUntilOutcome("", wire, CRLF, LIMIT, end, pick);
    ReadUntilConserves("", wire, CRLF, LIMIT, end, pick);
    var r := ReadUntil("", wire, CRLF, LIMIT, end, pick);
    LineTaken(r.buf, r.wire);
  }

  lemma {:induction false} NoLineRead(wire: string, end: ErrorCode, files: FileSystem, pick: Chunking)
    requires end.Failed() && end != NotFound && !Contains(LIMIT.Window(wire), CRLF)
    ensures CameTo(Serve(wire, end, files, pick), Reply(wire, files))
  {
    assert "" + wire == wire;
    ReadUntilOutcome("", wire, CRLF, LIMIT, end, pick);
    ErrorResponse(NEW_SERVICE.(request := ReadUntil("", wire, CRLF, LIMIT, end, pick).buf), 413);
  }

  lemma {:induction false} AfterLine(buf: string, line: string, rest: string, wire: string, end: ErrorCode, files: FileSystem, pick: Chunking)
    requires Open(buf).Getline("", CR).1 == line && Open(buf).Getline("", CR).0.Get().rest == rest
    requires |rest| <= BUFFER_SIZE && end.Failed() && end != NotFound
    ensures var t := OnRequestLine(NEW_SERVICE.(request := buf), Success);
            Known(t.statusCode) && CameTo(ServeOn(t, wire, end, files, pick), Carry(JudgeLine(Words(line), rest + wire), files))
  {
    RequestLineVerdict(NEW_SERVICE.(request := buf), line, rest, files);
    if Acceptable(Words(line)) {
      HeadersReply(ReadyForHeaders(Words(line), rest), wire, end, files, pick);
    } else {
      assert JudgeLine(Words(line), rest + wire) == JudgeLine(Words(line), rest);
    }
  }

  /** The server's reply depends on the request bytes and the file lookup alone. */
  lemma {:induction false} ServerReplies(wire: string, end: ErrorCode, files: FileSystem, pick: Chunking)
    requires end.Failed() && end != NotFound
    ensures CameTo(Serve(wire, end, files, pick), Reply(wire, files))
  {
    hide StatusLineText, StatusEntry, JudgeLine, Carry, OnRequestLine, ServeHeaders;
    if Contains(LIMIT.Window(wire), CRLF) {
      LineRead(wire, end, pick);
      var r := ReadUntil("", wire, CRLF, LIMIT, end, pick);
      var k := IndexOf(wire, CR);
      AfterLine(r.buf, wire[..k], r.buf[k + 2..], r.wire, end, files, pick);
    } else {
      NoLineRead(wire, end, files, pick);
    }
  }

  lemma {:induction false} LineTaken(buf: string, wire: string)
    requires Contains(buf, CRLF)
    ensures var k := IndexOf(buf + wire, CR);
            && k + 2 <= |buf| && (buf + wire)[..k] == buf[..k] && IndexOf(buf, CR) == k
            && buf[k + 2..] + wire == (buf + wire)[k + 2..]
            && Open(buf).Getline("", CR) == (Open(buf[k + 1..]), buf[..k])
            && Open(buf[k + 1..]).Get() == Open(buf[k + 2..])
  {
    var i: nat :| i <= |buf| && MatchAt(buf, CRLF, i);
    assert buf[i..i + 2][0] == buf[i] == CR;
    IndexOfBefore(buf, CR, i);
    var k := IndexOf(buf, CR);
    assert (buf + wire)[..k] == buf[..k];
    IndexOfIs(buf + wire, CR, k);
  }

  /** Whatever the chunking, the client of the server sees the same bytes. */
  lemma {:induction false} ReplyIndependent(wire: string, end: ErrorCode, files: FileSystem, f: Chunking, g: Chunking)
    requires end.Failed() && end != NotFound
    ensures Serve(wire, end, files, f).pending == Serve(wire, end, files, g).pending
    ensures Serve(wire, end, files, f).deleted == Serve(wire, end, files, g).deleted
  {
    ServerReplies(wire, end, files, f);
    ServerReplies(wire, end, files, g);
  }

  /** A reply is a status line of the table, then either the length and exactly the bytes of a file,
      for code 200, or a blank line and nothing else, for every other code. */
  ghost predicate Framed(reply: string, files: FileSystem, code: nat) {
    && Known(code)
    && if code == 200 then
         exists path, bytes ::
           files(path) == Content(bytes) && reply == StatusLineText(200) + (LengthLine(|bytes|) + BLANK) + bytes
       else reply == StatusLineText(code) + CRLF
  }

  lemma {:induction false} FetchFramed(path: string, files: FileSystem) returns (code: nat)
    ensures Framed(Fetch(path, files), files, code)
  {
    hide StatusLineText;
    match files("http_root" + path) {
      case Missing => code := 404;
      case Unopenable => code := 500;
      case Content(bytes) =>
        code := 200;
    }
  }

  /** Framing of every reply. */
  lemma {:induction false} ReplyFramed(wire: string, files: FileSystem) returns (code: nat)
    requires Reply(wire, files).Some?
    ensures Framed(Reply(wire, files).value, files, code)
  {
    hide StatusLineText, Fetch, Judge;
    match Judge(wire) {
      case LookUp(path) => code := FetchFramed(path, files);
      case Refuse(c) => code := c;
      case Ignore =>
    }
  }

  /** The replies are those of a path, for every file system, exactly if that path is looked up. */
  lemma {:induction false} OnlyLookUpServes(wire: string, path: string)
    ensures Judge(wire) == LookUp(path) <==> forall files :: Reply(wire, files) == Some(Fetch(path, files))
  {
    hide Judge, StatusLineText, LengthLine;
    if forall files :: Reply(wire, files) == Some(Fetch(path, files)) {
      var here: FileSystem := name => if name == "http_root" + path then Content("") else Missing;
      assert Reply(wire, here) == Some(FileReply(""));
      match Judge(wire) {
        case LookUp(other) =>
          if other != path {
            assert ("http_root" + other)[9..] == other && ("http_root" + path)[9..] == path;
            ErrorIsNoFile(404, "");
          }
        case Refuse(code) => ErrorIsNoFile(code, "");
        case Ignore =>
      }
    }
  }

  lemma {:induction false} ErrorIsNoFile(code: nat, bytes: string)
    requires Known(code) && code != 200
    ensures ErrorReply(code) != FileReply(bytes)
  {
    hide LengthLine;
    assert ErrorReply(code)[|HTTP_VERSION| + 1] == StatusEntry(code)[0] != '2';
    assert FileReply(bytes)[|HTTP_VERSION| + 1] == StatusEntry(200)[0] == '2';
  }
}
