/** The client and the server together: each side prints what the other side parses. */
module Conversation {
  import opened Streams
  import opened Decimal
  import opened StatusLines
  import opened HeaderBlocks
  import opened HttpClient
  import opened HttpServer
  import opened ClientRuns
  import opened ServerRuns

  // ------------------------------------------------------------------ the server's replies at the client

  /** What follows the code in the table of status lines. */
  function Reason(code: nat): string
    requires Known(code)
  {
    EntryDigits(code);
    StatusEntry(code)[3..]
  }

  lemma {:induction false} EntryDigits(code: nat)
    requires Known(code)
    ensures var entry := StatusEntry(code);
            |entry| > 3 && entry[0] == Digit(code / 100) && entry[1] == Digit(code / 10 % 10) && entry[2] == Digit(code % 10)
  {
  }

  lemma {:induction false} ThreeDigits(a: nat, b: nat, c: nat, entry: string)
    requires 1 <= a < 10 && b < 10 && c < 10 && |entry| >= 3
    requires entry[0] == Digit(a) && entry[1] == Digit(b) && entry[2] == Digit(c)
    ensures entry == Print(100 * a + 10 * b + c) + entry[3..]
  {
    assert Print(10 * a + b) == Print(a) + [Digit(b)];
    assert Print(100 * a + 10 * b + c) == Print(10 * a + b) + [Digit(c)];
  }

  lemma {:induction false} EntryIsCodeAndReason(code: nat)
    requires Known(code)
    ensures StatusEntry(code) == Print(code) + Reason(code)
  {
    hide Print, StatusEntry, Digit;
    EntryDigits(code);
    ThreeDigits(code / 100, code / 10 % 10, code % 10, StatusEntry(code));
  }

  lemma {:induction false} EntryIsClean(code: nat)
    requires Known(code)
    ensures |StatusEntry(code)| > 3 && StatusEntry(code)[3] == ' ' && CR !in StatusEntry(code)
  {
    if code < 500 {
      LowEntryIsClean(code);
    } else {
      HighEntryIsClean(code);
    }
  }

  lemma {:induction false} LowEntryIsClean(code: nat)
    requires Known(code) && code < 500
    ensures |StatusEntry(code)| > 3 && StatusEntry(code)[3] == ' ' && CR !in StatusEntry(code)
  {
  }

  lemma {:induction false} HighEntryIsClean(code: nat)
    requires Known(code) && code >= 500
    ensures |StatusEntry(code)| > 3 && StatusEntry(code)[3] == ' ' && CR !in StatusEntry(code)
  {
  }

  lemma {:induction false} ReasonIsClean(code: nat)
    requires Known(code)
    ensures Reason(code) != "" && Reason(code)[0] == ' ' && CR !in Reason(code)
  {
    hide StatusEntry;
    EntryIsClean(code);
  }

  lemma {:induction false} ReadsCodeLine(digits: string, reason: string)
    requires digits != "" && NoSpace(digits) && Stoul(digits).Some?
    requires reason != "" && reason[0] == ' ' && CR !in reason
    ensures var line := StatusText(digits, reason);
            && HTTP_VERSION + " " + (digits + reason) == line
            && ParseStatusLine(line + CRLF) == Parsed(Stoul(digits).value % UINT_RANGE, reason, Open(""))
            && FirstMatch(line + CRLF, CRLF, |line|) && Decides(line) && CR !in line
  {
    hide Stoul, ParseStatusLine, Decides;
    StatusTextIsLine(digits, reason);
    ReadsStatusLine(digits, reason);
    ConcatAssoc(HTTP_VERSION + " ", digits, reason);
  }

  /** The client reads every status line of the table as its code and reason. */
  lemma {:induction false} ReadsEntry(code: nat) returns (line: string)
    requires Known(code)
    ensures StatusLineText(code) == line + CRLF
    ensures ParseStatusLine(line + CRLF) == Parsed(code, Reason(code), Open(""))
    ensures FirstMatch(line + CRLF, CRLF, |line|) && Decides(line) && CR !in line
    ensures && (code == 200 ==> Reason(code) == " OK")
            && (code == 404 ==> Reason(code) == " Not Found")
            && (code == 413 ==> Reason(code) == " Request Entity Too Large")
            && (code == 500 ==> Reason(code) == " Server Error")
            && (code == 501 ==> Reason(code) == " Not Implemented")
            && (code == 505 ==> Reason(code) == " HTTP Version Not Supported")
  {
    hide StatusEntry, Reason, Print, AllDigits, ParseStatusLine, Stoul, Decides, FirstMatch, StatusText;
    OkReason();
    FileReasons();
    TooLargeReason();
    NotImplementedReason();
    VersionReason();
    EntryIsCodeAndReason(code);
    ReasonIsClean(code);
    PrintHasNoSpace(code);
    StoulOfPrint(code);
    ReadsCodeLine(Print(code), Reason(code));
    line := StatusText(Print(code), Reason(code));
  }

  /** A block of one header line. */
  lemma {:induction false} OneLineBlock(text: string)
    requires text != "" && CR !in text
    ensures FirstMatch(text + BLANK, BLANK, |text|)
    ensures Splits(text + BLANK, [Line(text, '\n')], CRLF)
  {
    var block := text + BLANK;
    forall j: nat | j < |text|
      ensures !MatchAt(block, BLANK, j)
    {
      assert block[j] == text[j] != CR;
    }
    assert Text([Line(text, '\n')]) == text + [CR, '\n'] + "";
    assert block == Text([Line(text, '\n')]) + CRLF;
  }

  /** A response of a status line, one header line and a body. */
  lemma {:induction false} OneHeaderResponse(q: Request, line: string, code: nat, message: string, text: string, body: string, pick: Chunking)
    requires Sent(q) && FirstMatch(line + CRLF, CRLF, |line|) && Decides(line)
    requires ParseStatusLine(line + CRLF) == Parsed(code, message, Open("")) && text != "" && CR !in text
    ensures Receive(q, line + CRLF + (text + BLANK + body), Eof, pick)
         == Answered(q, Success, Response(Some(code), message, StoreAll(map[], [Line(text, '\n')]), body))
  {
    hide ParseStatusLine, Receive, ReceiveHeaders, StoreAll, Decides, FirstMatch, Splits;
    var block := text + BLANK;
    OneLineBlock(text);
    var y, wire := StatusPhase(q, line, block + body, Eof, pick);
    assert "" + y == y && CRLF[2..] + body == body;
    var q1 := q.(pending := Some(ReadHeaders), response := Response(Some(code), message, map[], y));
    HeaderPhase(q1, wire, Eof, pick, block, [Line(text, '\n')], CRLF, body);
  }

  /** End-to-end response round trip: for every file content and every chunking the client reports
      success with code 200, the reason after its blank, the decimal length and the file's bytes. */
  lemma {:induction false} ResponseRoundTrip(q: Request, bytes: string, pick: Chunking)
    requires Sent(q)
    ensures Receive(q, FileReply(bytes), Eof, pick)
         == Answered(q, Success, Response(Some(200), " OK", map["content-length" := " " + Print(|bytes|)], bytes))
  {
    hide StatusEntry, Reason, StatusLineText, LengthLine, ParseStatusLine, Receive, StoreAll, Decides, FirstMatch;
    var line := ReadsEntry(200);
    SizeLine(|bytes|);
    OneHeaderResponse(q, line, 200, " OK", LengthLine(|bytes|), bytes, pick);
    ConcatAssoc(line + CRLF, LengthLine(|bytes|) + BLANK, bytes);
  }

  lemma OkReason()
    ensures Reason(200) == " OK"
  {
  }

  lemma {:induction false} FileReasons()
    ensures Reason(404) == " Not Found" && Reason(500) == " Server Error"
  {
  }

  lemma {:induction false} TooLargeReason()
    ensures Reason(413) == " Request Entity Too Large"
  {
    assert StatusEntry(413) == "413" + " Request Entity Too Large";
  }

  lemma {:induction false} NotImplementedReason()
    ensures Reason(501) == " Not Implemented"
  {
    assert StatusEntry(501) == "501" + " Not Implemented";
  }

  lemma {:induction false} VersionReason()
    ensures Reason(505) == " HTTP Version Not Supported"
  {
    assert StatusEntry(505) == "505" + " HTTP Version Not Supported";
  }

  lemma {:induction false} SizeLine(n: nat)
    ensures LengthLine(n) != "" && CR !in LengthLine(n)
    ensures StoreAll(map[], [Line(LengthLine(n), '\n')]) == map["content-length" := " " + Print(n)]
  {
    PrintHasNoSpace(n);
    hide Print, StoreAll;
    FieldLine("content-length", Print(n));
  }

  lemma {:induction false} FieldLine(name: string, value: string)
    requires ':' !in name
    ensures StoreAll(map[], [Line(name + ": " + value, '\n')]) == map[name := " " + value]
  {
    var text := name + ": " + value;
    var lines := [Line(text, '\n')];
    assert text == name + [':'] + (" " + value);
    SplitAt(name, ':', " " + value);
    assert StoreHeader(map[], text) == map[name := " " + value];
    hide StoreHeader;
    assert StoreAll(map[], lines) == StoreAll(map[name := " " + value], lines[1..]);
  }

  /** Every other reply of the server: the client records the code and reason, then fails with end
      of file, because the reply has neither headers nor a body that would bring another blank line. */
  lemma {:induction false} ErrorRoundTrip(q: Request, code: nat, pick: Chunking)
    requires Sent(q) && Known(code)
    ensures exists message :: Receive(q, ErrorReply(code), Eof, pick) == Answered(q, Eof, Response(Some(code), message, map[], CRLF))
    ensures var message := Receive(q, ErrorReply(code), Eof, pick).response.statusMessage;
            && (code == 200 ==> message == " OK")
            && (code == 404 ==> message == " Not Found")
            && (code == 413 ==> message == " Request Entity Too Large")
            && (code == 500 ==> message == " Server Error")
            && (code == 501 ==> message == " Not Implemented")
            && (code == 505 ==> message == " HTTP Version Not Supported")
  {
    var line := ReadsEntry(code);
    hide StatusEntry, StatusLineText, Reason, ParseStatusLine, Receive, Decides;
    HeaderlessOutcome(q, line, "", Eof, pick);
    HeaderlessBlankLine("");
    assert CRLF + "" == CRLF;
    assert !MatchAt("", BLANK, 0);
  }

  /** A connection closed without a reply. */
  lemma {:induction false} SilenceRoundTrip(q: Request, pick: Chunking)
    requires Sent(q)
    ensures Receive(q, "", Eof, pick) == Answered(q, Eof, EMPTY_RESPONSE)
  {
    NoStatus(q, "", Eof, pick);
  }

  // ------------------------------------------------------------------ the client's request at the server

  lemma {:induction false} WordsCons(blanks: string, word: string, t: string)
    requires AllSpace(blanks) && word != "" && NoSpace(word) && (t != "" ==> IsSpace(t[0]))
    ensures Words(blanks + word + t) == [word] + Words(t)
  {
    var s := blanks + word + t;
    assert s[..|blanks|] == blanks && s[|blanks|..] == word + t;
    SkipSpacesIs(s, |blanks|);
    assert (word + t)[..|word|] == word && (word + t)[|word|..] == t;
    TokenLengthIs(word + t, |word|);
  }

  lemma {:induction false} WordsOfOne(c: string)
    requires c != "" && NoSpace(c)
    ensures Words(" " + c) == [c]
  {
    WordsCons(" ", c, "");
    assert " " + c + "" == " " + c;
    assert Words("") == [];
  }

  lemma {:induction false} WordsOfThree(a: string, b: string, c: string)
    requires a != "" && b != "" && c != "" && NoSpace(a) && NoSpace(b) && NoSpace(c)
    ensures Words(a + (" " + b + (" " + c))) == [a, b, c]
  {
    hide Words, AllSpace, NoSpace;
    WordsOfOne(c);
    assert AllSpace(" ") && AllSpace("") by { Blanks(); }
    WordsCons(" ", b, " " + c);
    WordsCons("", a, " " + b + (" " + c));
    assert "" + a == a;
  }

  lemma Blanks()
    ensures AllSpace("") && AllSpace(" ")
  {
  }

  lemma {:induction false} RequestLineWords(uri: string)
    requires uri != "" && NoSpace(uri)
    ensures Words(RequestLine(uri)) == ["GET", uri, HTTP_VERSION]
  {
    hide Words;
    WordsOfThree("GET", uri, HTTP_VERSION);
    assert RequestLine(uri) == "GET" + (" " + uri + (" " + HTTP_VERSION));
  }

  /** Both parts of the request show their ends within the server's buffer. */
  predicate Fits(host: string, uri: string) {
    |RequestLine(uri) + CRLF| <= BUFFER_SIZE && Contains(LIMIT.Window(HostLine(host) + BLANK), BLANK)
  }

  /** For a host without CR the header block has to fit as a whole. */
  lemma {:induction false} FitsWhole(host: string, uri: string)
    requires CR !in host
    ensures Fits(host, uri) <==> |RequestLine(uri) + CRLF| <= BUFFER_SIZE && |HostLine(host) + BLANK| <= BUFFER_SIZE
  {
    hide Contains, FirstMatch, RequestLine, HostLine;
    HostLineIsClean(host);
    OneLineBlock(HostLine(host));
    WindowContains(HostLine(host) + BLANK, BLANK, |HostLine(host)|);
  }

  /** That is at most 4081 characters of a target, and 4086 of a host. */
  lemma {:induction false} FitsByLength(host: string, uri: string)
    requires CR !in host
    ensures Fits(host, uri) <==> |uri| + 15 <= 4096 && |host| + 10 <= 4096
  {
    FitsWhole(host, uri);
    hide Fits;
  }

  lemma {:induction false} RequestLineEnds(uri: string, rest: string)
    requires CR !in uri
    ensures var line := RequestLine(uri);
            && IndexOf(line + CRLF + rest, CR) == |line|
            && FirstMatch(line + CRLF + rest, CRLF, |line|)
  {
    var line := RequestLine(uri);
    assert CR !in "GET " && CR !in " HTTP/1.1";
    assert CR !in line;
    LineEndsFirst(line);
    FirstMatchExtends(line + CRLF, rest, CRLF, |line|);
    assert line + CRLF + rest == line + [CR] + ("\n" + rest);
    SplitAt(line, CR, "\n" + rest);
  }

  /** What the server makes of a target without white space. */
  lemma {:induction false} PlainTarget(host: string, uri: string)
    requires uri != "" && NoSpace(uri)
    ensures Judge(RequestText(host, uri)) == if Fits(host, uri) then LookUp(uri) else Refuse(413)
  {
    hide Words, Contains, FirstMatch, IndexOf, RequestLine, HostLine;
    var line, block := RequestLine(uri), HostLine(host) + BLANK;
    NoSpaceNoCr(uri);
    RequestLineEnds(uri, block);
    RequestLineWords(uri);
    WindowContains(line + CRLF + block, CRLF, |line|);
    LineParts(line, block);
    if !Contains(LIMIT.Window(block), BLANK) {
      BlankLineEnds(HostLine(host));
    }
  }

  /** A text that ends with a blank line and does not show it within the buffer is longer than that. */
  lemma {:induction false} BlankLineEnds(text: string)
    ensures Contains(LIMIT.Window(text + BLANK), BLANK) || |text + BLANK| >= BUFFER_SIZE
  {
    var block := text + BLANK;
    if |block| < BUFFER_SIZE {
      assert block[|text|..|text| + 4] == BLANK;
      assert MatchAt(block, BLANK, |text|);
    }
  }

  /** What is looked up is a word of the request line. */
  lemma {:induction false} LooksUpWords(wire: string)
    ensures Judge(wire).LookUp? ==> Judge(wire).path != "" && NoSpace(Judge(wire).path)
  {
    hide Contains, IndexOf, Words;
    WordsAreWords(wire[..IndexOf(wire, CR)]);
  }

  lemma {:induction false} WordsAreWords(s: string)
    ensures forall i | 0 <= i < |Words(s)| :: Words(s)[i] != "" && NoSpace(Words(s)[i])
    decreases |s|
  {
    var k := SkipSpaces(s);
    if k < |s| {
      WordsAreWords(s[k..][TokenLength(s[k..])..]);
    }
  }

  lemma {:induction false} NoSpaceMeans(s: string)
    ensures NoSpace(s) <==> forall c | c in s :: c !in [' ', '\t', '\n', '\U{0B}', '\U{0C}', '\r']
  {
    forall c
      ensures IsSpace(c) <==> c in [' ', '\t', '\n', '\U{0B}', '\U{0C}', '\r']
    {
    }
    if forall c | c in s :: !IsSpace(c) {
      forall i | 0 <= i < |s|
        ensures !IsSpace(s[i])
      {
        assert s[i] in s;
      }
    }
  }

  /** Request round trip, for every host and every target: the server replies with the file of exactly
      the target, for every file system, if and only if the target is not empty and has no white space,
      and the request line and the header block show their ends within its buffer. */
  lemma {:induction false} RequestRoundTrip(host: string, uri: string)
    ensures (forall files :: Reply(RequestText(host, uri), files) == Some(Fetch(uri, files)))
        <==> uri != "" && (forall c | c in uri :: c !in [' ', '\t', '\n', '\U{0B}', '\U{0C}', '\r']) && Fits(host, uri)
  {
    NoSpaceMeans(uri);
    hide Fetch, Reply, Judge, Fits, NoSpace;
    OnlyLookUpServes(RequestText(host, uri), uri);
    LooksUpWords(RequestText(host, uri));
    if uri != "" && NoSpace(uri) {
      PlainTarget(host, uri);
    }
  }

  /** A target of two words is not looked up: the second is taken for the version, so that the request
      is refused, or, if it is the accepted version, the first one is looked up instead. */
  lemma {:induction false} TwoWordTarget(host: string, first: string, second: string)
    requires first != "" && NoSpace(first) && second != "" && NoSpace(second)
    ensures Judge(RequestText(host, first + " " + second))
         == if |RequestLine(first + " " + second) + CRLF| > BUFFER_SIZE then Refuse(413)
            else if second != HTTP_VERSION then Refuse(505)
            else if Fits(host, first + " " + second) then LookUp(first)
            else Refuse(413)
  {
    hide Words, Contains, FirstMatch, IndexOf, RequestLine, HostLine;
    var uri := first + " " + second;
    var line, block := RequestLine(uri), HostLine(host) + BLANK;
    TwoWordLine(first, second);
    RequestLineEnds(uri, block);
    WindowContains(line + CRLF + block, CRLF, |line|);
    LineParts(line, block);
    BlankLineEnds(HostLine(host));
  }

  lemma {:induction false} TwoWordLine(first: string, second: string)
    requires first != "" && NoSpace(first) && second != "" && NoSpace(second)
    ensures CR !in first + " " + second
    ensures Words(RequestLine(first + " " + second)) == ["GET", first, second, HTTP_VERSION]
  {
    hide Words, NoSpace;
    NoSpaceNoCr(first);
    NoSpaceNoCr(second);
    assert NoSpace("GET") && NoSpace(HTTP_VERSION) by { OwnWords(); }
    WordsOfFour("GET", first, second, HTTP_VERSION);
    assert RequestLine(first + " " + second) == "GET" + (" " + first + (" " + second + (" " + HTTP_VERSION)));
  }

  lemma OwnWords()
    ensures NoSpace("GET") && NoSpace(HTTP_VERSION)
  {
  }

  lemma {:induction false} WordsOfFour(a: string, b: string, c: string, d: string)
    requires a != "" && b != "" && c != "" && d != "" && NoSpace(a) && NoSpace(b) && NoSpace(c) && NoSpace(d)
    ensures Words(a + (" " + b + (" " + c + (" " + d)))) == [a, b, c, d]
  {
    hide Words, AllSpace, NoSpace;
    WordsOfOne(d);
    assert AllSpace(" ") && AllSpace("") by { Blanks(); }
    WordsCons(" ", c, " " + d);
    WordsCons(" ", b, " " + c + (" " + d));
    WordsCons("", a, " " + b + (" " + c + (" " + d)));
    assert "" + a == a;
  }

  lemma {:induction false} NoSpaceNoCr(s: string)
    requires NoSpace(s)
    ensures CR !in s
  {
    forall i | 0 <= i < |s|
      ensures s[i] != CR
    {
      assert !IsSpace(s[i]);
    }
  }

  /** Whatever the target and the host, a request is answered. */
  lemma {:induction false} RequestIsAnswered(host: string, uri: string)
    ensures Judge(RequestText(host, uri)) != Ignore
  {
    hide Words;
    var wire := RequestText(host, uri);
    var line, block := RequestLine(uri), HostLine(host) + BLANK;
    assert wire == line + CRLF + block;
    assert wire[|line|..|line| + 2] == CRLF && wire[|line|] == CR;
    assert MatchAt(wire, CRLF, |line|);
    IndexOfBefore(wire, CR, |line|);
    var k := IndexOf(wire, CR);
    var text := wire[k + 2..|wire| - 4];
    assert wire[|wire| - 4..] == BLANK;
    assert wire[k + 2..] == text + BLANK;
    BlankLineEnds(text);
  }

  lemma {:induction false} HostLineIsClean(host: string)
    requires CR !in host
    ensures HostLine(host) != "" && CR !in HostLine(host)
  {
  }

  lemma {:induction false} LineParts(line: string, rest: string)
    ensures (line + CRLF + rest)[..|line|] == line && (line + CRLF + rest)[|line| + 2..] == rest
  {
  }

  lemma {:induction false} WindowContains(s: string, d: string, i: nat)
    requires FirstMatch(s, d, i)
    ensures Contains(LIMIT.Window(s), d) <==> i + |d| <= BUFFER_SIZE
  {
    var w := LIMIT.Window(s);
    assert w == s[..|w|];
    PrefixContains(s, |w|, d, i);
  }

  /** What the server has parsed when it processes a request: the target, for every chunking, and
      exactly the Host header if and only if the host has no CR. */
  lemma {:induction false} RequestParsed(host: string, uri: string, files: FileSystem, pick: Chunking)
    requires uri != "" && NoSpace(uri) && Fits(host, uri)
    ensures var s := Serve(RequestText(host, uri), Eof, files, pick);
            s.requestedResource == uri && (s.requestHeaders == map["Host" := " " + host] <==> CR !in host)
  {
    hide Fetch, ErrorReply, StatusLineText, Words, RequestLine, HostLine, Contains, ServeHeaders, FirstMatch;
    var line, block := RequestLine(uri), HostLine(host) + BLANK;
    var wire := RequestText(host, uri);
    NoSpaceNoCr(uri);
    RequestLineEnds(uri, block);
    RequestLineWords(uri);
    WindowContains(wire, CRLF, |line|);
    LineRead(wire, Eof, pick);
    var r := ReadUntil("", wire, CRLF, LIMIT, Eof, pick);
    var rest := r.buf[|line| + 2..];
    LineParts(line, block);
    RequestLineVerdict(NEW_SERVICE.(request := r.buf), line, rest, files);
    var s := ReadyForHeaders(Words(line), rest);
    KeepsTarget(s, r.wire, files, pick);
    if CR !in host {
      FitsWhole(host, uri);
      HostParsed(s, host, r.wire, files, pick);
    } else {
      HostWithCr(s, host, r.wire, files, pick);
    }
  }

  lemma {:induction false} HostParsed(s: Service, host: string, wire: string, files: FileSystem, pick: Chunking)
    requires s.requestHeaders == map[] && Known(s.statusCode) && |s.request| <= BUFFER_SIZE
    requires CR !in host && s.request + wire == HostLine(host) + BLANK && |HostLine(host) + BLANK| <= BUFFER_SIZE
    ensures ServeHeaders(s, wire, Eof, files, pick).requestHeaders == map["Host" := " " + host]
  {
    hide ServerScan, HostLine, FirstMatch, ReadUntil, OnHeaders;
    HostScanned(host);
    HostLineIsClean(host);
    OneLineBlock(HostLine(host));
    ReadUntilFinds(s.request, wire, BLANK, LIMIT, Eof, pick, |HostLine(host)|);
    var r := ReadUntil(s.request, wire, BLANK, LIMIT, Eof, pick);
    assert r.buf == HostLine(host) + BLANK;
    KeepsRequest(s.(request := r.buf, pending := None), Success, files);
  }

  /** A header value ends before the first CR, so a host with one is never read back. */
  lemma {:induction false} HostWithCr(s: Service, host: string, wire: string, files: FileSystem, pick: Chunking)
    requires s.requestHeaders == map[] && Known(s.statusCode) && CR in host
    ensures ServeHeaders(s, wire, Eof, files, pick).requestHeaders != map["Host" := " " + host]
  {
    hide ServerScan, ReadUntil, OnHeaders;
    var r := ReadUntil(s.request, wire, BLANK, LIMIT, Eof, pick);
    KeepsRequest(s.(request := r.buf, pending := None), r.ec, files);
    ValuesHaveNoCr(r.buf, map[]);
    var i :| 0 <= i < |host| && host[i] == CR;
    assert (" " + host)[i + 1] == CR;
    assert "Host" in map["Host" := " " + host];
  }

  predicate Clean(headers: Headers) {
    forall name | name in headers :: CR !in headers[name]
  }

  lemma {:induction false} ValuesHaveNoCr(buf: string, headers: Headers)
    requires Clean(headers)
    ensures Clean(ServerScan(buf, headers))
    decreases |buf|
  {
    ScannedOnce(buf, headers);
    hide Clean, ServerScan, IndexOf;
    var k := IndexOf(buf, ':');
    if k < |buf| {
      var v := buf[k + 1..];
      var j := IndexOf(v, CR);
      StaysClean(headers, buf[..k], v[..j]);
      ValuesHaveNoCr(v[Min(j + 2, |v|)..], headers[buf[..k] := v[..j]]);
    }
  }

  lemma {:induction false} StaysClean(headers: Headers, name: string, value: string)
    requires Clean(headers) && CR !in value
    ensures Clean(headers[name := value])
  {
  }

  lemma {:induction false} KeepsTarget(s: Service, wire: string, files: FileSystem, pick: Chunking)
    requires Known(s.statusCode)
    ensures ServeHeaders(s, wire, Eof, files, pick).requestedResource == s.requestedResource
  {
    hide OnHeaders, ReadUntil;
    var r := ReadUntil(s.request, wire, BLANK, LIMIT, Eof, pick);
    KeepsRequest(s.(request := r.buf, pending := None), r.ec, files);
  }

  lemma {:induction false} KeepsRequest(s: Service, ec: ErrorCode, files: FileSystem)
    requires Known(s.statusCode)
    ensures OnHeaders(s, ec, files).requestedResource == s.requestedResource
    ensures OnHeaders(s, ec, files).requestHeaders
         == if ec.Failed() then s.requestHeaders else ServerScan(s.request, s.requestHeaders)
  {
    hide StatusLineText, ServerScan, Process;
    ProcessKeeps(s.(request := "", requestHeaders := ServerScan(s.request, s.requestHeaders)), files);
  }

  lemma {:induction false} ProcessKeeps(s: Service, files: FileSystem)
    ensures Process(s, files).requestedResource == s.requestedResource
    ensures Process(s, files).requestHeaders == s.requestHeaders
  {
    hide LengthLine;
  }

  lemma {:induction false} HostScanned(host: string)
    requires CR !in host
    ensures ServerScan(HostLine(host) + BLANK, map[]) == map["Host" := " " + host]
  {
    ServerReadsField("Host", " " + host, CRLF, map[]);
    assert HostLine(host) + BLANK == "Host" + ":" + (" " + host + CRLF + CRLF);
    ServerReadsFields([], map["Host" := " " + host]);
    assert PrintFields([]) + CRLF == CRLF;
  }

  // ------------------------------------------------------------------ both together

  /** A request whose connection has just been established. */
  function Connected(host: string, uri: string): Request {
    Request(host, uri, "", EMPTY_RESPONSE, false, Some(Connect), [], false)
  }

  /** The request is written, the server serves it, and the client receives whatever comes back. */
  function Converse(q: Request, files: FileSystem, f: Chunking, g: Chunking): Request {
    var sending := HttpClient.Handle(q, Connect, Success);
    var s := Serve(sending.requestBuf, Eof, files, f);
    var reply := if s.pending.Some? && s.pending.value.SendResponse? then s.pending.value.wire else "";
    Receive(HttpClient.Handle(sending, Stage.SendRequest, Success), reply, Eof, g)
  }

  /** What the user's callback is told about a request: the error the server refuses it with, or the
      file of the path the server looks up; with the very words of the status lines. */
  function Outcome(host: string, uri: string, files: FileSystem): (ErrorCode, Response) {
    match Judge(RequestText(host, uri))
    case Refuse(code) =>
      if code == 413 then Failure(413, " Request Entity Too Large")
      else if code == 501 then Failure(501, " Not Implemented")
      else Failure(505, " HTTP Version Not Supported")
    case Ignore => (Eof, EMPTY_RESPONSE)
    case LookUp(path) =>
      match files("http_root" + path)
      case Missing => Failure(404, " Not Found")
      case Unopenable => Failure(500, " Server Error")
      case Content(bytes) =>
        (Success, Response(Some(200), " OK", map["content-length" := " " + Print(|bytes|)], bytes))
  }

  function Failure(code: nat, message: string): (ErrorCode, Response) {
    (Eof, Response(Some(code), message, map[], CRLF))
  }

  /** The client receives whatever the server's judgement comes to. */
  lemma {:induction false} JudgementReceived(q: Request, host: string, uri: string, files: FileSystem, reply: Option<string>, pick: Chunking)
    requires Sent(q) && reply == Reply(RequestText(host, uri), files)
    ensures var (ec, response) := Outcome(host, uri, files);
            Receive(q, if reply.Some? then reply.value else "", Eof, pick) == Answered(q, ec, response)
  {
    hide Judge, Receive, StatusLineText, Reason, ErrorReply, FileReply;
    match Judge(RequestText(host, uri)) {
      case Refuse(code) => ErrorRoundTrip(q, code, pick);
      case Ignore => SilenceRoundTrip(q, pick);
      case LookUp(path) =>
        match files("http_root" + path) {
          case Missing => ErrorRoundTrip(q, 404, pick);
          case Unopenable => ErrorRoundTrip(q, 500, pick);
          case Content(bytes) => ResponseRoundTrip(q, bytes, pick);
        }
    }
  }

  /** The whole conversation, for every target, every host, every file system, and every way the
      network cuts up either direction. */
  lemma {:induction false} ConversationOutcome(host: string, uri: string, files: FileSystem, f: Chunking, g: Chunking)
    ensures var q := Converse(Connected(host, uri), files, f, g);
            var (ec, response) := Outcome(host, uri, files);
            q.finished == [ec] && q.response == response && q.pending == None && !q.spinning
  {
    hide Outcome, Reply, Receive, Serve;
    var sending := HttpClient.Handle(Connected(host, uri), Connect, Success);
    assert sending.requestBuf == RequestText(host, uri);
    ServerReplies(RequestText(host, uri), Eof, files, f);
    var q := HttpClient.Handle(sending, Stage.SendRequest, Success);
    JudgementReceived(q, host, uri, files, Reply(RequestText(host, uri), files), g);
  }

  /** When the conversation succeeds: exactly if the server looks up a path that holds a file. For a
      plain target, that is exactly if the request fits and the target is a file. */
  lemma {:induction false} ConversationSucceeds(host: string, uri: string, files: FileSystem, f: Chunking, g: Chunking)
    ensures var q := Converse(Connected(host, uri), files, f, g);
            var j := Judge(RequestText(host, uri));
            && (q.finished == [Success] <==> j.LookUp? && files("http_root" + j.path).Content?)
            && (uri != "" && NoSpace(uri) ==>
                  (q.finished == [Success] <==> Fits(host, uri) && files("http_root" + uri).Content?))
  {
    hide Judge, Converse, Fits, Reason, NoSpace;
    ConversationOutcome(host, uri, files, f, g);
    if uri != "" && NoSpace(uri) {
      PlainTarget(host, uri);
    }
  }
}
