/** The client against an arbitrary network: what a whole response does to a request, whatever the
    pieces it arrives in. */
module ClientRuns {
  import opened Streams
  import opened Decimal
  import opened StatusLines
  import opened HeaderBlocks
  import opened HttpClient

  function WithBuffer(q: Request, buf: string): Request {
    q.(response := q.response.(buf := buf))
  }

  /** The reads of an uncancelled request, completed by the network one after the other: `wire` is
      everything the server sends, `end` the code with which the connection then ends. */
  function Receive(q: Request, wire: string, end: ErrorCode, pick: Chunking): Request {
    var r := ReadUntil(q.response.buf, wire, CRLF, Unbounded, end, pick);
    var q1 := Handle(WithBuffer(q, r.buf), ReadStatus, r.ec);
    if q1.pending != Some(ReadHeaders) then q1 else ReceiveHeaders(q1, r.wire, end, pick)
  }

  function ReceiveHeaders(q: Request, wire: string, end: ErrorCode, pick: Chunking): Request {
    var r := ReadUntil(q.response.buf, wire, BLANK, Unbounded, end, pick);
    var q1 := Handle(WithBuffer(q, r.buf), ReadHeaders, r.ec);
    if q1.pending != Some(ReadBody) then q1 else ReceiveBody(q1, r.wire, end, pick)
  }

  function ReceiveBody(q: Request, wire: string, end: ErrorCode, pick: Chunking): Request {
    var r := ReadAll(q.response.buf, wire, end, pick);
    Handle(WithBuffer(q, r.buf), ReadBody, r.ec)
  }

  /** A request that has just been sent. */
  predicate Sent(q: Request) {
    q.pending == Some(ReadStatus) && q.response == EMPTY_RESPONSE && !q.cancelled && q.finished == [] && !q.spinning
  }

  /** The request after its callback has been called with `ec` and `response`. */
  function Answered(q: Request, ec: ErrorCode, response: Response): Request {
    q.(pending := None, finished := [ec], response := response)
  }

  /** The code the callback gets when the connection ends during the body. */
  function BodyCode(end: ErrorCode): ErrorCode {
    if end == Eof then Success else end
  }

  // ------------------------------------------------------------------ phase by phase

  lemma {:induction false} BodyPhase(q: Request, wire: string, end: ErrorCode, pick: Chunking)
    requires q.finished == [] && q.pending == Some(ReadBody)
    ensures ReceiveBody(q, wire, end, pick)
         == Answered(q, BodyCode(end), q.response.(buf := q.response.buf + wire))
  {
    ReadAllOutcome(q.response.buf, wire, end, pick);
  }

  /** A block with an empty line inside: everything after the empty line becomes the body. */
  lemma {:induction false} HeaderPhase(q: Request, wire: string, end: ErrorCode, pick: Chunking,
                                       block: string, lines: seq<Line>, tail: string, body: string)
    requires q.pending == Some(ReadHeaders) && !q.cancelled && q.finished == []
    requires |block| >= 4 && FirstMatch(block, BLANK, |block| - 4) && Splits(block, lines, tail) && |tail| >= 2
    requires q.response.buf + wire == block + body
    ensures ReceiveHeaders(q, wire, end, pick)
         == Answered(q, BodyCode(end),
                     q.response.(headers := StoreAll(q.response.headers, lines), buf := tail[2..] + body))
  {
    var buf := q.response.buf;
    var y := ReadsPastBlock(block, body, buf, wire, end, pick);
    ScanExtends(block, lines, tail, y, q.response.headers);
    var r := ReadUntil(buf, wire, BLANK, Unbounded, end, pick);
    var q1 := Handle(WithBuffer(q, r.buf), ReadHeaders, r.ec);
    BodyPhase(q1, r.wire, end, pick);
    ConcatAssoc(tail[2..], y, r.wire);
  }

  /** Without a blank line the request fails with the code that ended the connection. */
  lemma {:induction false} NoHeaders(q: Request, wire: string, end: ErrorCode, pick: Chunking)
    requires q.pending == Some(ReadHeaders) && q.finished == [] && end.Failed()
    requires !Contains(q.response.buf + wire, BLANK)
    ensures ReceiveHeaders(q, wire, end, pick) == Answered(q, end, q.response.(buf := q.response.buf + wire))
  {
    ReadUntilOutcome(q.response.buf, wire, BLANK, Unbounded, end, pick);
  }

  /** A deciding first line leads to the header phase with its code and message, or to a rejection. */
  lemma {:induction false} StatusPhase(q: Request, line: string, x: string, end: ErrorCode, pick: Chunking) returns (y: string, wire: string)
    requires Sent(q) && FirstMatch(line + CRLF, CRLF, |line|) && Decides(line)
    ensures y + wire == x
    ensures match ParseStatusLine(line + CRLF)
            case Malformed(s) =>
              Receive(q, line + CRLF + x, end, pick) == Answered(q, InvalidResponse, EMPTY_RESPONSE.(buf := s.rest + y))
            case Parsed(code, message, s) =>
              Receive(q, line + CRLF + x, end, pick)
              == ReceiveHeaders(q.(pending := Some(ReadHeaders), response := Response(Some(code), message, map[], s.rest + y)),
                                wire, end, pick)
  {
    y := ReadsPastLine(line + CRLF, x, |line|, end, pick);
    wire := ReadUntil("", line + CRLF + x, CRLF, Unbounded, end, pick).wire;
    StaysInLine(line);
    ParseExtends(line + CRLF, y);
  }

  lemma {:induction false} NoStatus(q: Request, wire: string, end: ErrorCode, pick: Chunking)
    requires Sent(q) && end.Failed() && !Contains(wire, CRLF)
    ensures Receive(q, wire, end, pick) == Answered(q, end, EMPTY_RESPONSE.(buf := wire))
  {
    assert "" + wire == wire;
    ReadUntilOutcome("", wire, CRLF, Unbounded, end, pick);
  }

  // ------------------------------------------------------------------ independence of the chunking

  /** From here on the header phase does not depend on the chunking: the block up to the first blank
      line, if there is one, has an empty line inside. */
  ghost predicate RegularHeaders(s: string) {
    Contains(s, BLANK) ==> exists block, body :: BlockSplit(s, block, body) && HasEmptyLine(block)
  }

  ghost predicate BlockSplit(s: string, block: string, body: string) {
    s == block + body && |block| >= 4 && FirstMatch(block, BLANK, |block| - 4)
  }

  /** A response whose first line decides the parse and whose header block has its empty line; a
      response that ends early is regular too. */
  ghost predicate RegularResponse(wire: string) {
    Contains(wire, CRLF) ==> exists line, x :: LineSplit(wire, line, x) && RegularFrom(line, x)
  }

  ghost predicate LineSplit(wire: string, line: string, x: string) {
    wire == line + CRLF + x && FirstMatch(line + CRLF, CRLF, |line|)
  }

  ghost predicate RegularFrom(line: string, x: string) {
    Decides(line) && HeadersRegularAfter(line, x)
  }

  ghost predicate HeadersRegularAfter(line: string, x: string) {
    var p := ParseStatusLine(line + CRLF);
    p.Parsed? ==> RegularHeaders(p.stream.rest + x)
  }

  /** What the callback can see: the code, the response without its raw buffer, and on success the body. */
  predicate SameAnswer(a: Request, b: Request) {
    && a.finished == b.finished && a.pending == b.pending && a.spinning == b.spinning
    && a.response.(buf := "") == b.response.(buf := "")
    && (Success in a.finished ==> a.response.buf == b.response.buf)
  }

  lemma {:induction false} HeadersIndependent(q: Request, p: Request, u: string, v: string, end: ErrorCode, f: Chunking, g: Chunking)
    requires q.pending == Some(ReadHeaders) && !q.cancelled && q.finished == [] && end.Failed()
    requires p == WithBuffer(q, p.response.buf) && q.response.buf + u == p.response.buf + v
    requires RegularHeaders(q.response.buf + u)
    ensures SameAnswer(ReceiveHeaders(q, u, end, f), ReceiveHeaders(p, v, end, g))
  {
    var s := q.response.buf + u;
    if Contains(s, BLANK) {
      var block, body :| BlockSplit(s, block, body) && HasEmptyLine(block);
      var lines, tail :| Splits(block, lines, tail) && |tail| >= 2;
      HeaderPhase(q, u, end, f, block, lines, tail, body);
      HeaderPhase(p, v, end, g, block, lines, tail, body);
    } else {
      NoHeaders(q, u, end, f);
      NoHeaders(p, v, end, g);
    }
  }

  lemma {:induction false} IndependentAfterLine(q: Request, line: string, x: string, end: ErrorCode, f: Chunking, g: Chunking)
    requires Sent(q) && end.Failed() && FirstMatch(line + CRLF, CRLF, |line|) && Decides(line)
    requires var p := ParseStatusLine(line + CRLF); p.Parsed? ==> RegularHeaders(p.stream.rest + x)
    ensures SameAnswer(Receive(q, line + CRLF + x, end, f), Receive(q, line + CRLF + x, end, g))
  {
    var y, u := StatusPhase(q, line, x, end, f);
    var z, v := StatusPhase(q, line, x, end, g);
    var p := ParseStatusLine(line + CRLF);
    if p.Parsed? {
      var s := p.stream.rest;
      var a := q.(pending := Some(ReadHeaders), response := Response(Some(p.code), p.message, map[], s + y));
      var b := q.(pending := Some(ReadHeaders), response := Response(Some(p.code), p.message, map[], s + z));
      ConcatAssoc(s, y, u);
      ConcatAssoc(s, z, v);
      HeadersIndependent(a, b, u, v, end, f, g);
    }
  }

  /** For a regular response every chunking gives the callback the same answer. */
  lemma {:induction false} ChunkingIndependent(q: Request, wire: string, end: ErrorCode, f: Chunking, g: Chunking)
    requires Sent(q) && end.Failed() && RegularResponse(wire)
    ensures SameAnswer(Receive(q, wire, end, f), Receive(q, wire, end, g))
  {
    if Contains(wire, CRLF) {
      var line, x :| LineSplit(wire, line, x) && RegularFrom(line, x);
      IndependentAfterLine(q, line, x, end, f, g);
    } else {
      NoStatus(q, wire, end, f);
      NoStatus(q, wire, end, g);
    }
  }

  /** A network that delivers a response in two pieces, the first of which holds a blank line after
      the status line: the header loop runs on just that piece. */
  lemma {:induction false} TwoPieces(q: Request, line: string, u: string, v: string)
    requires Sent(q) && FirstMatch(line + CRLF, CRLF, |line|) && Decides(line) && ParseStatusLine(line + CRLF).Parsed?
    requires Contains(ParseStatusLine(line + CRLF).stream.rest + u, BLANK)
    ensures var p := ParseStatusLine(line + CRLF);
            var wire := line + CRLF + (u + v);
            var a := Receive(q, wire, Eof, FirstPiece(wire, |line + CRLF + u|));
            match ScanBlock(p.stream.rest + u, map[])
            case Stopped(headers, rest) => a == Answered(q, Success, Response(Some(p.code), p.message, headers, rest + v))
            case Spins(_) => a.finished == []
  {
    hide ParseStatusLine, ScanBlock, Decides;
    var head := line + CRLF;
    var wire := head + (u + v);
    var f := FirstPiece(wire, |head + u|);
    FirstMatchExtends(head, u, CRLF, |line|);
    ConcatAssoc(head, u, v);
    FirstRead(head + u, v, CRLF, |line|);
    StaysInLine(line);
    ParseExtends(head, u);
    var p := ParseStatusLine(head);
    var q1 := q.(pending := Some(ReadHeaders), response := Response(Some(p.code), p.message, map[], p.stream.rest + u));
    assert Receive(q, wire, Eof, f) == ReceiveHeaders(q1, v, Eof, f);
    match ScanBlock(p.stream.rest + u, map[]) {
      case Stopped(headers, rest) =>
        BodyPhase(q1.(pending := Some(ReadBody), response := q1.response.(headers := headers, buf := rest)), v, Eof, f);
      case Spins(_) =>
    }
  }

  lemma {:induction false} FirstRead(head: string, x: string, delim: string, i: nat)
    requires delim != "" && FirstMatch(head, delim, i)
    ensures ReadUntil("", head + x, delim, Unbounded, Eof, FirstPiece(head + x, |head|)) == ReadResult(Success, head, x)
  {
    var total := head + x;
    assert !MatchAt("", delim, 0);
    assert "" + total[..|head|] == head && total[|head|..] == x;
  }

  /** Exactly when the answer to a whole response is independent of the chunking: for a first line
      that decides the parse, and whatever body follows, the header block has its empty line. */
  lemma {:induction false} ResponseIndependentIff(q: Request, line: string, tail: string)
    requires Sent(q) && FirstMatch(line + CRLF, CRLF, |line|) && Decides(line) && ParseStatusLine(line + CRLF).Parsed?
    requires var block := ParseStatusLine(line + CRLF).stream.rest + tail;
             |block| >= 4 && FirstMatch(block, BLANK, |block| - 4)
    ensures HasEmptyLine(ParseStatusLine(line + CRLF).stream.rest + tail) <==>
            forall body: string, f: Chunking, g: Chunking ::
              SameAnswer(Receive(q, line + CRLF + (tail + body), Eof, f), Receive(q, line + CRLF + (tail + body), Eof, g))
  {
    hide ParseStatusLine, Receive, SameAnswer, Decides;
    var rest := ParseStatusLine(line + CRLF).stream.rest;
    var block := rest + tail;
    if HasEmptyLine(block) {
      forall body: string, f: Chunking, g: Chunking
        ensures SameAnswer(Receive(q, line + CRLF + (tail + body), Eof, f), Receive(q, line + CRLF + (tail + body), Eof, g))
      {
        ConcatAssoc(rest, tail, body);
        assert BlockSplit(rest + (tail + body), block, body);
        IndependentAfterLine(q, line, tail + body, Eof, f, g);
      }
    } else {
      var body, f, g := ChanceResponse(q, line, tail);
      assert !SameAnswer(Receive(q, line + CRLF + (tail + body), Eof, f), Receive(q, line + CRLF + (tail + body), Eof, g));
    }
  }

  lemma {:induction false} ChanceResponse(q: Request, line: string, tail: string) returns (body: string, f: Chunking, g: Chunking)
    requires Sent(q) && FirstMatch(line + CRLF, CRLF, |line|) && Decides(line) && ParseStatusLine(line + CRLF).Parsed?
    requires var block := ParseStatusLine(line + CRLF).stream.rest + tail;
             |block| >= 4 && FirstMatch(block, BLANK, |block| - 4) && !HasEmptyLine(block)
    ensures !SameAnswer(Receive(q, line + CRLF + (tail + body), Eof, f), Receive(q, line + CRLF + (tail + body), Eof, g))
  {
    hide ParseStatusLine, Receive, Decides, ScanBlock;
    var rest := ParseStatusLine(line + CRLF).stream.rest;
    var block := rest + tail;
    assert block[|block| - 1] == block[|block| - 4..][3] == '\n';
    if ScanBlock(block, map[]).Stopped? {
      body := "x";
      StoppedAtEnd(block);
    } else {
      body := BLANK;
      SpunToEnd(block);
    }
    var wire := line + CRLF + (tail + body);
    ConcatAssoc(rest, tail, body);
    FirstMatchExtends(block, body, BLANK, |block| - 4);
    f, g := FirstPiece(wire, |line + CRLF + tail|), FirstPiece(wire, |line + CRLF + (tail + body)|);
    TwoPieces(q, line, tail, body);
    assert tail + body + "" == tail + body;
    TwoPieces(q, line, tail + body, "");
  }

  /** A status line that is rejected ends the request at once. */
  lemma {:induction false} RejectedAnswer(q: Request, wire: string, pick: Chunking)
    requires Sent(q) && Contains(wire, CRLF) && StatusSeen(wire, pick) == Rejected
    ensures Receive(q, wire, Eof, pick).finished == [InvalidResponse]
  {
    hide ParseStatusLine, ScanBlock, ReadUntil;
    assert "" + wire == wire;
    ReadUntilOutcome("", wire, CRLF, Unbounded, Eof, pick);
  }

  /** One that is accepted never ends it in that way. */
  lemma {:induction false} AcceptedAnswer(q: Request, wire: string, pick: Chunking)
    requires Sent(q) && Contains(wire, CRLF) && StatusSeen(wire, pick).Accepted?
    ensures InvalidResponse !in Receive(q, wire, Eof, pick).finished
  {
    hide ParseStatusLine, ScanBlock, ReadUntil, ReceiveHeaders;
    assert "" + wire == wire;
    ReadUntilOutcome("", wire, CRLF, Unbounded, Eof, pick);
    var r := ReadUntil("", wire, CRLF, Unbounded, Eof, pick);
    var p := ParseStatusLine(r.buf);
    var q1 := q.(pending := Some(ReadHeaders), response := Response(Some(p.code), p.message, map[], p.stream.rest));
    assert Receive(q, wire, Eof, pick) == ReceiveHeaders(q1, r.wire, Eof, pick);
    HeadersAccept(q1, r.wire, pick);
  }

  lemma {:induction false} HeadersAccept(q: Request, wire: string, pick: Chunking)
    requires q.pending == Some(ReadHeaders) && !q.cancelled && q.finished == []
    ensures InvalidResponse !in ReceiveHeaders(q, wire, Eof, pick).finished
  {
    hide ScanBlock, ReadUntil;
    ReadUntilOutcome(q.response.buf, wire, BLANK, Unbounded, Eof, pick);
    var r := ReadUntil(q.response.buf, wire, BLANK, Unbounded, Eof, pick);
    var q1 := Handle(WithBuffer(q, r.buf), ReadHeaders, r.ec);
    if q1.pending == Some(ReadBody) {
      BodyPhase(q1, r.wire, Eof, pick);
    }
  }

  /** A first line that does not decide the parse leaves the whole answer to chance. */
  lemma {:induction false} UndecidedResponse(q: Request, line: string) returns (x: string, f: Chunking, g: Chunking)
    requires Sent(q) && FirstMatch(line + CRLF, CRLF, |line|) && !Decides(line)
    ensures !SameAnswer(Receive(q, line + CRLF + x, Eof, f), Receive(q, line + CRLF + x, Eof, g))
  {
    hide Decides, Receive, StatusSeen;
    x, f, g := UndecidedStatus(line);
    FirstMatchExtends(line + CRLF, x, CRLF, |line|);
    RejectedAnswer(q, line + CRLF + x, f);
    AcceptedAnswer(q, line + CRLF + x, g);
  }

  /** For every first line: the answer is independent of the chunking, whatever follows with its empty
      line inside the header block, if and only if the first line decides the parse. */
  lemma {:induction false} FirstLineIndependentIff(q: Request, line: string)
    requires Sent(q) && FirstMatch(line + CRLF, CRLF, |line|)
    ensures Decides(line) <==>
            forall x: string, f: Chunking, g: Chunking | HeadersRegularAfter(line, x) ::
              SameAnswer(Receive(q, line + CRLF + x, Eof, f), Receive(q, line + CRLF + x, Eof, g))
  {
    hide Decides, Receive, ParseStatusLine, SameAnswer, RegularHeaders;
    if Decides(line) {
      forall x: string, f: Chunking, g: Chunking | HeadersRegularAfter(line, x)
        ensures SameAnswer(Receive(q, line + CRLF + x, Eof, f), Receive(q, line + CRLF + x, Eof, g))
      {
        IndependentAfterLine(q, line, x, Eof, f, g);
      }
    } else {
      var x, f, g := UndecidedResponse(q, line);
      UndecidedIsMalformed(line);
      assert HeadersRegularAfter(line, x);
    }
  }

  /** An ordinary response: a first line without CR that decides the parse, and every CR up to the
      first blank line after it followed by LF. */
  ghost predicate Conforming(wire: string) {
    Contains(wire, CRLF) ==>
      exists line, x :: wire == line + CRLF + x && CR !in line && Decides(line)
                        && forall block, body | BlockSplit(x, block, body) :: EveryCrHasLf(block)
  }

  lemma {:induction false} ExtractKeepsOutCr(line: string)
    requires CR !in line
    ensures CR !in Open(line).Extract("").0.rest
  {
  }

  /** A parsed line without CR is used up. */
  lemma {:induction false} ParsedLineIsUsedUp(line: string)
    requires CR !in line && Decides(line) && ParseStatusLine(line + CRLF).Parsed?
    ensures ParseStatusLine(line + CRLF).stream.rest == ""
  {
    ExtractInLine(line);
    ExtractKeepsOutCr(line);
    var rest := Open(line).Extract("").0.rest;
    ExtractInLine(rest);
    ExtractKeepsOutCr(rest);
    var (after, text) := Open(rest + CRLF).Extract("");
    if Stoul(text).Some? {
      ReadsMessage(Stoul(text).value, Open(rest).Extract("").0.rest);
    }
    hide IStream.Extract;
  }

  /** Ordinary responses are regular, so no chunking matters for them. */
  lemma {:induction false} ConformingIsRegular(wire: string)
    requires Conforming(wire)
    ensures RegularResponse(wire)
  {
    if Contains(wire, CRLF) {
      var line, x :| wire == line + CRLF + x && CR !in line && Decides(line)
                     && forall block, body | BlockSplit(x, block, body) :: EveryCrHasLf(block);
      LineEndsFirst(line);
      assert LineSplit(wire, line, x);
      if ParseStatusLine(line + CRLF).Parsed? {
        ParsedLineIsUsedUp(line);
        assert "" + x == x;
        EveryCrIsRegular(x);
      }
      assert RegularFrom(line, x);
    }
  }

  lemma {:induction false} EveryCrIsRegular(x: string)
    requires forall block, body | BlockSplit(x, block, body) :: EveryCrHasLf(block)
    ensures RegularHeaders(x)
  {
    if Contains(x, BLANK) {
      var block, body := FirstBlock(x);
      RegularBlockHasEmptyLine(block);
    }
  }

  // ------------------------------------------------------------------ when a response succeeds

  /** Exactly when an ordinary response succeeds: after the status line it needs a blank line somewhere,
      be it the end of its headers or not; then the code is that of the body, else that of the end. */
  lemma {:induction false} OrdinaryOutcome(q: Request, line: string, x: string, end: ErrorCode, pick: Chunking)
    requires Sent(q) && end.Failed() && CR !in line && Decides(line) && ParseStatusLine(line + CRLF).Parsed?
    requires forall block, body | BlockSplit(x, block, body) :: EveryCrHasLf(block)
    ensures Receive(q, line + CRLF + x, end, pick).finished == [if Contains(x, BLANK) then BodyCode(end) else end]
  {
    var p := ParseStatusLine(line + CRLF);
    LineEndsFirst(line);
    ParsedLineIsUsedUp(line);
    EveryCrIsRegular(x);
    var y, wire := StatusPhase(q, line, x, end, pick);
    assert "" + y == y;
    var q1 := q.(pending := Some(ReadHeaders), response := Response(Some(p.code), p.message, map[], y));
    hide ParseStatusLine, Decides, EveryCrHasLf;
    if Contains(x, BLANK) {
      var block, body :| BlockSplit(x, block, body) && HasEmptyLine(block);
      var lines, tail :| Splits(block, lines, tail) && |tail| >= 2;
      HeaderPhase(q1, wire, end, pick, block, lines, tail, body);
    } else {
      NoHeaders(q1, wire, end, pick);
    }
  }

  /** A response without headers, for every body: the client waits for a blank line although it has
      used up the first half of the only one, so that it succeeds if and only if the body begins with
      an empty line or holds a blank line; then the body is complete. Otherwise it fails with the end. */
  lemma {:induction false} HeaderlessOutcome(q: Request, line: string, body: string, end: ErrorCode, pick: Chunking)
    requires Sent(q) && end.Failed() && CR !in line && Decides(line) && ParseStatusLine(line + CRLF).Parsed?
    ensures var p := ParseStatusLine(line + CRLF);
            var r := Receive(q, line + CRLF + (CRLF + body), end, pick);
            if Contains(CRLF + body, BLANK) then r == Answered(q, BodyCode(end), Response(Some(p.code), p.message, map[], body))
            else r == Answered(q, end, Response(Some(p.code), p.message, map[], CRLF + body))
  {
    var p := ParseStatusLine(line + CRLF);
    var x := CRLF + body;
    LineEndsFirst(line);
    ParsedLineIsUsedUp(line);
    var y, wire := StatusPhase(q, line, x, end, pick);
    assert "" + y == y;
    var q1 := q.(pending := Some(ReadHeaders), response := Response(Some(p.code), p.message, map[], y));
    hide ParseStatusLine, Decides;
    if Contains(x, BLANK) {
      var block, rest := HeaderlessBlock(body);
      HeaderPhase(q1, wire, end, pick, block, [], block, rest);
    } else {
      NoHeaders(q1, wire, end, pick);
    }
  }

  /** What follows the status line up to the first blank line is a block whose first line is empty. */
  lemma {:induction false} HeaderlessBlock(body: string) returns (block: string, rest: string)
    requires Contains(CRLF + body, BLANK)
    ensures BlockSplit(CRLF + body, block, rest) && Splits(block, [], block) && block[2..] + rest == body
  {
    block, rest := FirstBlock(CRLF + body);
    hide FirstMatch, Contains;
    assert block[0] == (CRLF + body)[0] == CR;
    assert Text([]) + block == block;
    BehindTwo(block, rest, body);
  }

  lemma {:induction false} BehindTwo(block: string, rest: string, body: string)
    requires |block| >= 2 && block + rest == CRLF + body
    ensures block[2..] + rest == body
  {
    assert (block + rest)[2..] == block[2..] + rest;
    assert (CRLF + body)[2..] == body;
  }

  lemma {:induction false} FirstBlock(s: string) returns (block: string, body: string)
    requires Contains(s, BLANK)
    ensures BlockSplit(s, block, body)
  {
    var at: nat :| MatchAt(s, BLANK, at);
    var i := FirstMatchExists(s, BLANK, at);
    block, body := s[..i + 4], s[i + 4..];
    FirstMatchInPrefix(s, i + 4, BLANK, i);
  }

  /** Such a blank line begins with the body's first bytes, or lies within it. */
  lemma {:induction false} HeaderlessBlankLine(body: string)
    ensures Contains(CRLF + body, BLANK) <==> Contains(body, BLANK) || (|body| >= 2 && body[..2] == CRLF)
  {
    hide MatchAt;
    var x := CRLF + body;
    if i: nat :| i <= |x| && MatchAt(x, BLANK, i) {
      MatchBehindCrlf(body, i);
    }
    if j: nat :| j <= |body| && MatchAt(body, BLANK, j) {
      MatchInBody(body, j);
      assert j + 2 <= |x|;
    }
    if |body| >= 2 && body[..2] == CRLF {
      MatchAtStart(body);
      assert MatchAt(x, BLANK, 0) && 0 <= |x|;
    }
  }

  lemma {:induction false} MatchBehindCrlf(body: string, i: nat)
    requires MatchAt(CRLF + body, BLANK, i)
    ensures i == 0 ==> |body| >= 2 && body[..2] == CRLF
    ensures i > 0 ==> i >= 2 && i - 2 <= |body| && MatchAt(body, BLANK, i - 2)
  {
    var x := CRLF + body;
    assert x[i] == x[i..i + 4][0] == CR && x[1] == '\n';
    if i >= 2 {
      assert x[i..i + 4] == body[i - 2..i + 2];
    } else {
      assert body[..2] == x[0..4][2..];
    }
  }

  lemma {:induction false} MatchInBody(body: string, j: nat)
    requires MatchAt(body, BLANK, j)
    ensures MatchAt(CRLF + body, BLANK, j + 2)
  {
    assert (CRLF + body)[j + 2..j + 6] == body[j..j + 4];
  }

  lemma {:induction false} MatchAtStart(body: string)
    requires |body| >= 2 && body[..2] == CRLF
    ensures MatchAt(CRLF + body, BLANK, 0)
  {
    assert (CRLF + body)[0..4] == CRLF + body[..2];
  }

  // ------------------------------------------------------------------ conservation of bytes

  ghost predicate Suffix(s: string, t: string) {
    |s| <= |t| && s == t[|t| - |s|..]
  }

  lemma {:induction false} SuffixTrans(a: string, b: string, c: string)
    requires Suffix(a, b) && Suffix(b, c)
    ensures Suffix(a, c)
  {
  }

  lemma {:induction false} ExtractSuffix(s: IStream)
    ensures Suffix(s.Extract("").0.rest, s.rest)
  {
  }

  lemma {:induction false} MessageSuffix(value: nat, s: IStream)
    ensures Suffix(ParseMessage(value, s).stream.rest, s.rest)
  {
  }

  lemma {:induction false} CodeSuffix(s: IStream)
    ensures Suffix(ParseCode(s).stream.rest, s.rest)
  {
    var (after, text) := s.Extract("");
    ExtractSuffix(s);
    if Stoul(text).Some? {
      MessageSuffix(Stoul(text).value, after);
      SuffixTrans(ParseCode(s).stream.rest, after.rest, s.rest);
    }
  }

  lemma {:induction false} StatusSuffix(buf: string)
    ensures Suffix(ParseStatusLine(buf).stream.rest, buf)
  {
    var (after, version) := Open(buf).Extract("");
    ExtractSuffix(Open(buf));
    if version == HTTP_VERSION {
      CodeSuffix(after);
      SuffixTrans(ParseStatusLine(buf).stream.rest, after.rest, buf);
    }
  }

  lemma {:induction false} SuffixSplit(s: string, t: string) returns (consumed: string)
    requires Suffix(s, t)
    ensures t == consumed + s
  {
    consumed := t[..|t| - |s|];
  }

  /** The bytes a stopped header loop has taken: its lines and at most the empty line after them. */
  lemma {:induction false} LoopConsumes(buf: string) returns (lines: seq<Line>, gap: string)
    requires ScanBlock(buf, map[]).Stopped?
    ensures Proper(lines) && |gap| <= 2 && (gap != "" ==> gap[0] == CR)
    ensures ScanBlock(buf, map[]).headers == StoreAll(map[], lines)
    ensures buf == Text(lines) + gap + ScanBlock(buf, map[]).rest
  {
    var tail;
    lines, tail := StoppedLines(buf, map[]);
    ScanLines(lines, tail, map[]);
    var n := Min(2, |tail|);
    gap := tail[..n];
    assert tail == gap + tail[n..];
    ConcatAssoc(Text(lines), gap, tail[n..]);
  }

  lemma {:induction false} SuccessNeedsBody(q: Request, wire: string, end: ErrorCode, pick: Chunking)
    requires q.pending == Some(ReadHeaders) && !q.cancelled && q.finished == [] && end.Failed()
    requires Success in ReceiveHeaders(q, wire, end, pick).finished
    ensures end == Eof
    ensures var r := ReadUntil(q.response.buf, wire, BLANK, Unbounded, end, pick);
            var scan := ScanBlock(r.buf, q.response.headers);
            && Contains(r.buf, BLANK) && scan.Stopped?
            && ReceiveHeaders(q, wire, end, pick).response
            == q.response.(headers := scan.headers, buf := scan.rest + r.wire)
  {
    var r := ReadUntil(q.response.buf, wire, BLANK, Unbounded, end, pick);
    var q1 := Handle(WithBuffer(q, r.buf), ReadHeaders, r.ec);
    ReadUntilOutcome(q.response.buf, wire, BLANK, Unbounded, end, pick);
    if q1.pending == Some(ReadBody) {
      BodyPhase(q1, r.wire, end, pick);
    }
  }

  lemma {:induction false} SuccessNeedsHeaders(q: Request, wire: string, end: ErrorCode, pick: Chunking)
    requires Sent(q) && end.Failed() && Success in Receive(q, wire, end, pick).finished
    ensures var r := ReadUntil("", wire, CRLF, Unbounded, end, pick);
            var p := ParseStatusLine(r.buf);
            && p.Parsed?
            && Receive(q, wire, end, pick)
            == ReceiveHeaders(q.(pending := Some(ReadHeaders), response := Response(Some(p.code), p.message, map[], p.stream.rest)),
                              r.wire, end, pick)
  {
    hide ParseStatusLine, ScanBlock, ReadUntil;
  }

  /** Byte conservation, for every byte stream and every chunking: when the callback reports success,
      the bytes taken by the status line, the header lines, the bytes ending the block and the final
      buffer are all the bytes received, in order. The parts are what the two parsers took: the status
      parser, given `status` and the bytes `ahead` that had been read with it, recorded its code and
      message and left exactly `ahead`; the header loop, given a buffer `block` that begins with
      `ahead`, left exactly what is not in `lines` and `gap`. */
  lemma {:induction false} BytesConserved(q: Request, wire: string, end: ErrorCode, pick: Chunking)
    returns (status: string, ahead: string, block: string, later: string, lines: seq<Line>, gap: string)
    requires Sent(q) && end.Failed() && Success in Receive(q, wire, end, pick).finished
    ensures var r := Receive(q, wire, end, pick).response;
            && wire == status + (Text(lines) + gap + r.buf)
            && Proper(lines) && r.headers == StoreAll(map[], lines) && |gap| <= 2 && (gap != "" ==> gap[0] == CR)
    ensures var r := Receive(q, wire, end, pick).response;
            var p := ParseStatusLine(status + ahead);
            && p.Parsed? && p.stream.rest == ahead && r.statusCode == Some(p.code) && r.statusMessage == p.message
    ensures var r := Receive(q, wire, end, pick).response;
            var scan := ScanBlock(block, map[]);
            && wire == status + (block + later) && |ahead| <= |block| && ahead == block[..|ahead|] && Contains(block, BLANK)
            && scan.Stopped? && r.headers == scan.headers
            && block == Text(lines) + gap + scan.rest && r.buf == scan.rest + later
    ensures end == Eof
  {
    hide ParseStatusLine, ReadUntil, ScanBlock, Receive, ReceiveHeaders, Text, StoreAll, Contains, Proper;
    SuccessNeedsHeaders(q, wire, end, pick);
    var r := ReadUntil("", wire, CRLF, Unbounded, end, pick);
    var p := ParseStatusLine(r.buf);
    StatusSuffix(r.buf);
    ahead := p.stream.rest;
    status := SuffixSplit(ahead, r.buf);
    var q1 := q.(pending := Some(ReadHeaders), response := Response(Some(p.code), p.message, map[], ahead));
    SuccessNeedsBody(q1, r.wire, end, pick);
    var r1 := ReadUntil(ahead, r.wire, BLANK, Unbounded, end, pick);
    block, later := r1.buf, r1.wire;
    lines, gap := LoopConsumes(block);
    ReadUntilConserves("", wire, CRLF, Unbounded, end, pick);
    ReadUntilConserves(ahead, r.wire, BLANK, Unbounded, end, pick);
    Regroup(wire, status, ahead, r.wire, Text(lines) + gap, ScanBlock(block, map[]).rest, later);
    PrefixOf(ahead, r.wire, block, later);
  }

  lemma {:induction false} PrefixOf(a: string, b: string, c: string, d: string)
    requires a + b == c + d && |a| <= |c|
    ensures a == c[..|a|]
  {
    assert a == (a + b)[..|a|] == (c + d)[..|a|];
  }

  lemma {:induction false} Regroup(wire: string, a: string, b: string, u: string, c: string, d: string, v: string)
    requires "" + wire == a + b + u && b + u == c + d + v
    ensures wire == a + (c + (d + v)) && wire == a + (c + d + v)
  {
    ConcatAssoc(a, b, u);
    ConcatAssoc(c, d, v);
    assert "" + wire == wire;
  }
}
