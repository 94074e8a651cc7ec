/** Which status lines the client accepts, and what it takes from them, said on the texts themselves. */
module StatusMeanings {
  import opened Streams
  import opened Decimal
  import opened StatusLines
  import opened HttpClient
  import opened ClientRuns

  /** The printed status line with any code, not only a number. */
  lemma {:induction false} ReadsAnyCode(code: string, message: string)
    requires code != "" && NoSpace(code) && message != "" && message[0] == ' ' && CR !in message
    ensures var p := ParseStatusLine("HTTP/1.1 " + code + message + "\r\n");
            match Stoul(code)
            case None => p.Malformed?
            case Some(value) => p == Parsed(value % 0x1_0000_0000, message, Open(""))
  {
    hide Stoul, IStream.Getline;
    var t := " " + code + (message + CRLF);
    assert "HTTP/1.1 " + code + message + "\r\n" == "" + HTTP_VERSION + t;
    ReadsVersion("", t);
    ExtractWord(" ", code, message + CRLF, "");
    if Stoul(code).Some? {
      ReadsMessage(Stoul(code).value, message);
    }
  }

  /** Exactly which codes the client accepts: those that begin, after at most one sign, with digits that
      denote less than 2^64. */
  lemma {:induction false} CodeAcceptedIff(code: string, message: string)
    requires code != "" && NoSpace(code) && message != "" && message[0] == ' ' && CR !in message
    ensures ParseStatusLine("HTTP/1.1 " + code + message + "\r\n").Parsed? <==>
            exists sign, digits, rest :: NumberParts(code, sign, digits, rest) && Value(digits) < 0x1_0000_0000_0000_0000
  {
    hide ParseStatusLine, Stoul, NumberParts, Value;
    ReadsAnyCode(code, message);
    StoulAcceptsIff(code);
  }

  /** What it takes from them: the number, negated modulo 2^64 after a minus, and narrowed to 32 bits;
      the message with its leading blank; and exactly the line. */
  lemma {:induction false} CodeMeans(code: string, message: string, sign: string, digits: string, rest: string)
    requires code != "" && NoSpace(code) && message != "" && message[0] == ' ' && CR !in message
    requires NumberParts(code, sign, digits, rest) && Value(digits) < 0x1_0000_0000_0000_0000
    ensures ParseStatusLine("HTTP/1.1 " + code + message + "\r\n")
         == Parsed((if sign == "-" then (0x1_0000_0000_0000_0000 - Value(digits)) % 0x1_0000_0000_0000_0000 else Value(digits))
                   % 0x1_0000_0000, message, Open(""))
  {
    hide ParseStatusLine, Stoul, NumberParts, Value;
    ReadsAnyCode(code, message);
    StoulOfSplit(code, sign, digits, rest);
  }

  /** A first line with another version is rejected. */
  lemma {:induction false} OtherVersion(line: string)
    requires Words(line) != [] && Words(line)[0] != "HTTP/1.1"
    ensures ParseStatusLine(line + CRLF).Malformed?
  {
    ExtractInLine(line);
    hide IStream.Extract, Words;
  }

  /** A rejected first line ends the request with invalid_response, whatever follows and whatever the
      chunking. */
  lemma {:induction false} RejectedLine(q: Request, line: string, x: string, end: ErrorCode, pick: Chunking)
    requires Sent(q) && FirstMatch(line + CRLF, CRLF, |line|) && Decides(line) && ParseStatusLine(line + CRLF).Malformed?
    ensures Receive(q, line + CRLF + x, end, pick).finished == [InvalidResponse]
  {
    hide ParseStatusLine, Receive, Decides;
    var y, wire := StatusPhase(q, line, x, end, pick);
  }

  lemma {:induction false} BadVersionIsReported(q: Request, line: string, x: string, end: ErrorCode, pick: Chunking)
    requires Sent(q) && FirstMatch(line + CRLF, CRLF, |line|) && Words(line) != [] && Words(line)[0] != "HTTP/1.1"
    ensures Receive(q, line + CRLF + x, end, pick).finished == [InvalidResponse]
  {
    OtherVersion(line);
    RejectedLine(q, line, x, end, pick);
  }

  lemma {:induction false} BadCodeIsReported(q: Request, code: string, message: string, x: string, end: ErrorCode, pick: Chunking)
    requires Sent(q) && code != "" && NoSpace(code) && message != "" && message[0] == ' ' && CR !in message
    requires !exists sign, digits, rest :: NumberParts(code, sign, digits, rest) && Value(digits) < 0x1_0000_0000_0000_0000
    ensures Receive(q, "HTTP/1.1 " + code + message + "\r\n" + x, end, pick).finished == [InvalidResponse]
  {
    hide ParseStatusLine, Receive, Decides, NumberParts, Value, StatusText, FirstMatch;
    var line := StatusText(code, message);
    assert "HTTP/1.1 " + code + message + "\r\n" == line + CRLF by { StatusTextSpelled(code, message); }
    CodeAcceptedIff(code, message);
    StatusTextIsLine(code, message);
    TwoWordsDecide(code, message);
    RejectedLine(q, line, x, end, pick);
  }

  lemma StatusTextSpelled(code: string, message: string)
    ensures "HTTP/1.1 " + code + message + "\r\n" == StatusText(code, message) + CRLF
  {
  }

  lemma {:induction false} TwoWordsDecide(code: string, message: string)
    requires code != "" && NoSpace(code) && message != "" && message[0] == ' '
    ensures Decides(StatusText(code, message))
  {
    var line := StatusText(code, message);
    var t := " " + code + message;
    assert line == "" + HTTP_VERSION + t;
    ExtractWord("", HTTP_VERSION, t, "");
    ExtractWord(" ", code, message, "");
    ExtractTakesWord(line);
    ExtractTakesWord(t);
  }
}
