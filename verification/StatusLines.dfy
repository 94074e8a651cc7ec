/** The client's status-line parser, and exactly when its result does not depend on how the
    response was cut into pieces. */
module StatusLines {
  import opened Streams
  import opened Decimal

  const HTTP_VERSION := "HTTP/1.1"

  /** Result of the parser together with the stream it leaves behind. */
  datatype StatusLine =
    | Malformed(stream: IStream)
    | Parsed(code: nat, message: string, stream: IStream)

  function ParseStatusLine(buf: string): StatusLine {
    var (afterVersion, version) := Open(buf).Extract("");
    if version != HTTP_VERSION then Malformed(afterVersion) else ParseCode(afterVersion)
  }

  function ParseCode(stream: IStream): StatusLine {
    var (afterCode, text) := stream.Extract("");
    match Stoul(text)
    case None => Malformed(afterCode)
    case Some(value) => ParseMessage(value, afterCode)
  }

  function ParseMessage(value: nat, stream: IStream): StatusLine {
    var (afterMessage, message) := stream.Getline("", CR);
    Parsed(value % UINT_RANGE, message, afterMessage.Get())
  }

  function Extended(r: StatusLine, x: string): StatusLine {
    r.(stream := Open(r.stream.rest + x))
  }

  lemma {:induction false} MessageExtends(value: nat, p: string, x: string)
    requires ParseMessage(value, Open(p)).stream.Good()
    ensures ParseMessage(value, Open(p + x)) == Extended(ParseMessage(value, Open(p)), x)
  {
    var after := Open(p).Getline("", CR).0;
    assert after.Good() && after.rest != "";
    GetlineExtends(p, x, "", CR);
    assert (after.rest + x)[1..] == after.rest[1..] + x;
  }

  lemma {:induction false} CodeExtends(p: string, x: string)
    requires ParseCode(Open(p)).stream.Good()
    ensures ParseCode(Open(p + x)) == Extended(ParseCode(Open(p)), x)
  {
    var (after, text) := Open(p).Extract("");
    assert after.Good() by {
      if Stoul(text).Some? {
        assert ParseCode(Open(p)) == ParseMessage(Stoul(text).value, after);
      }
    }
    ExtractExtends(p, x, "");
    if Stoul(text).Some? {
      MessageExtends(Stoul(text).value, after.rest, x);
    }
  }

  /** A parse that ends with the stream still good has not looked past the bytes it was given. */
  lemma {:induction false} ParseExtends(p: string, x: string)
    requires ParseStatusLine(p).stream.Good()
    ensures ParseStatusLine(p + x) == Extended(ParseStatusLine(p), x)
  {
    var (after, version) := Open(p).Extract("");
    assert after.Good() by {
      if version == HTTP_VERSION {
        assert ParseStatusLine(p) == ParseCode(after);
        StaysBad(after);
      }
    }
    ExtractExtends(p, x, "");
    if version == HTTP_VERSION {
      CodeExtends(after.rest, x);
    }
  }

  lemma {:induction false} StaysBad(stream: IStream)
    ensures ParseCode(stream).stream.Good() ==> stream.Good()
  {
  }

  /** The first line decides the parse: it holds a version and a code, or a version that is rejected. */
  predicate Decides(line: string) {
    |Words(line)| >= 2 || (|Words(line)| == 1 && Words(line)[0] != HTTP_VERSION)
  }

  lemma {:induction false} WordsNone(s: string)
    ensures Words(s) == [] <==> AllSpace(s)
  {
    var k := SkipSpaces(s);
    if k == |s| {
      assert s[..k] == s;
    }
  }

  lemma {:induction false} ExtractPastSpaces(a: string, t: string)
    requires AllSpace(a)
    ensures Open(a + t).Extract("") == Open(t).Extract("")
  {
    var k := SkipSpaces(t);
    forall i | 0 <= i < |a| + k
      ensures IsSpace((a + t)[i])
    {
      if i >= |a| {
        assert (a + t)[i] == t[..k][i - |a|];
      }
    }
    SkipSpacesIs(a + t, |a| + k);
    assert (a + t)[|a| + k..] == t[k..];
  }

  /** `>>` stays inside a line that still has a word, because CR ends the word. */
  lemma {:induction false} ExtractInLine(line: string)
    ensures var (after, word) := Open(line + CRLF).Extract("");
            if Words(line) == [] then after == IStream("", true, true) && word == ""
            else word == Words(line)[0]
                 && after == Open(Open(line).Extract("").0.rest + CRLF)
                 && Words(Open(line).Extract("").0.rest) == Words(line)[1..]
  {
    WordsNone(line);
    if Words(line) == [] {
      ExtractPastSpaces(line, CRLF);
      SkipSpacesIs(CRLF, 2);
    } else {
      var a := SkipSpaces(line);
      var t := line[a..];
      var b := TokenLength(t);
      assert (line + CRLF)[..a] == line[..a];
      SkipSpacesIs(line + CRLF, a);
      assert (line + CRLF)[a..] == t + CRLF;
      assert (t + CRLF)[..b] == t[..b];
      TokenLengthIs(t + CRLF, b);
      assert (t + CRLF)[b..] == t[b..] + CRLF;
    }
  }

  lemma {:induction false} MessageStaysInLine(value: nat, u: string)
    ensures ParseMessage(value, Open(u + CRLF)).stream.Good()
  {
    assert (u + CRLF)[|u|] == CR;
    if CR in u {
      var k := IndexOf(u, CR);
      GetlineExtends(u, CRLF, "", CR);
    } else {
      assert u + CRLF == u + [CR] + "\n";
      GetlineTakes(u, CR, "\n", "");
    }
  }

  lemma {:induction false} CodeStaysInLine(rest: string)
    ensures ParseCode(Open(rest + CRLF)).stream.Good() <==> Words(rest) != []
  {
    ExtractInLine(rest);
    var (after, text) := Open(rest + CRLF).Extract("");
    if Words(rest) == [] {
      StaysBadMessage(after);
    } else if Stoul(text).Some? {
      MessageStaysInLine(Stoul(text).value, Open(rest).Extract("").0.rest);
    }
  }

  lemma {:induction false} StaysBadMessage(stream: IStream)
    ensures forall v: nat :: ParseMessage(v, stream).stream.Good() ==> stream.Good()
  {
  }

  /** The parser stays inside the first line exactly when that line decides it. */
  lemma {:induction false} StaysInLine(line: string)
    ensures ParseStatusLine(line + CRLF).stream.Good() <==> Decides(line)
  {
    ExtractInLine(line);
    if Words(line) != [] {
      CodeStaysInLine(Open(line).Extract("").0.rest);
    }
  }

  /** What the client learns from the status line, and the bytes still ahead of it. */
  datatype Seen = Rejected | Accepted(code: nat, message: string, ahead: string)

  function StatusSeen(wire: string, pick: Chunking): Seen {
    var r := ReadUntil("", wire, CRLF, Unbounded, Eof, pick);
    match ParseStatusLine(r.buf)
    case Malformed(_) => Rejected
    case Parsed(code, message, stream) => Accepted(code, message, stream.rest + r.wire)
  }

  lemma {:induction false} ReadsPastLine(head: string, x: string, i: nat, end: ErrorCode, pick: Chunking) returns (y: string)
    requires FirstMatch(head, CRLF, i) && |head| == i + 2
    ensures var r := ReadUntil("", head + x, CRLF, Unbounded, end, pick);
            r.ec == Success && r.buf == head + y && y + r.wire == x
  {
    var total := head + x;
    FirstMatchExtends(head, x, CRLF, i);
    assert "" + total == total;
    ReadUntilFinds("", total, CRLF, Unbounded, end, pick, i);
    var r := ReadUntil("", total, CRLF, Unbounded, end, pick);
    y := r.buf[i + 2..];
    assert r.buf == total[..|r.buf|] && r.wire == total[|r.buf|..];
  }

  /** A deciding first line fixes the outcome for every continuation and every chunking. */
  lemma {:induction false} DecidedStatus(line: string, x: string, pick: Chunking)
    requires FirstMatch(line + CRLF, CRLF, |line|) && Decides(line)
    ensures var p := ParseStatusLine(line + CRLF);
            && p.stream.Good()
            && StatusSeen(line + CRLF + x, pick)
            == if p.Malformed? then Rejected else Accepted(p.code, p.message, p.stream.rest + x)
  {
    var y := ReadsPastLine(line + CRLF, x, |line|, Eof, pick);
    StaysInLine(line);
    ParseExtends(line + CRLF, y);
    ConcatAssoc(ParseStatusLine(line + CRLF).stream.rest, y,
                ReadUntil("", line + CRLF + x, CRLF, Unbounded, Eof, pick).wire);
  }

  lemma {:induction false} ReadsMessage(value: nat, message: string)
    requires CR !in message
    ensures ParseMessage(value, Open(message + CRLF)) == Parsed(value % UINT_RANGE, message, Open(""))
  {
    GetlineTakes(message, CR, "\n", "");
    assert message + CRLF == message + [CR] + "\n";
    assert "\n"[1..] == "";
  }

  lemma {:induction false} ReadsCode(blanks: string, code: string, message: string)
    requires AllSpace(blanks) && code != "" && NoSpace(code) && Stoul(code).Some?
    requires message != "" && message[0] == ' ' && CR !in message
    ensures ParseCode(Open(blanks + code + (message + CRLF)))
         == Parsed(Stoul(code).value % UINT_RANGE, message, Open(""))
  {
    ExtractWord(blanks, code, message + CRLF, "");
    ReadsMessage(Stoul(code).value, message);
  }

  lemma {:induction false} ReadsVersion(blanks: string, t: string)
    requires AllSpace(blanks) && t != "" && IsSpace(t[0])
    ensures ParseStatusLine(blanks + HTTP_VERSION + t) == ParseCode(Open(t))
  {
    ExtractWord(blanks, HTTP_VERSION, t, "");
  }

  /** The status line as it is printed, without its terminator. */
  function StatusText(code: string, message: string): string {
    HTTP_VERSION + " " + code + message
  }

  lemma {:induction false} StatusTextIsLine(code: string, message: string)
    requires NoSpace(code) && CR !in message
    ensures FirstMatch(StatusText(code, message) + CRLF, CRLF, |StatusText(code, message)|)
  {
    forall i | 0 <= i < |code|
      ensures code[i] != CR
    {
      assert !IsSpace(code[i]);
    }
    assert CR !in HTTP_VERSION;
    LineEndsFirst(StatusText(code, message));
  }

  lemma {:induction false} ReadsStatusLine(code: string, message: string)
    requires code != "" && NoSpace(code) && Stoul(code).Some?
    requires message != "" && message[0] == ' ' && CR !in message
    ensures ParseStatusLine(StatusText(code, message) + CRLF)
         == Parsed(Stoul(code).value % UINT_RANGE, message, Open(""))
    ensures Decides(StatusText(code, message))
  {
    var t := " " + code + (message + CRLF);
    var line := StatusText(code, message);
    assert line + CRLF == "" + HTTP_VERSION + t;
    ReadsVersion("", t);
    ReadsCode(" ", code, message);
    StaysInLine(line);
  }

  /** Status-line round trip: for every code and every CR-free reason, the printed line is read back
      as that code (narrowed to `unsigned int`) with the reason after its leading blank, and exactly
      the line is consumed. */
  lemma {:induction false} StatusLineRoundTrip(code: nat, reason: string)
    requires code < ULONG_RANGE && CR !in reason
    ensures ParseStatusLine(HTTP_VERSION + " " + Print(code) + (" " + reason) + CRLF)
         == Parsed(code % UINT_RANGE, " " + reason, Open(""))
  {
    PrintHasNoSpace(code);
    StoulOfPrint(code);
    ReadsStatusLine(Print(code), " " + reason);
  }

  lemma {:induction false} UndecidedIsMalformed(line: string)
    requires !Decides(line)
    ensures ParseStatusLine(line + CRLF).Malformed?
  {
    ExtractInLine(line);
    if Words(line) != [] {
      ExtractInLine(Open(line).Extract("").0.rest);
      SkipSpacesIs("", 0);
    }
  }

  lemma {:induction false} BlankLineAccepts(head: string, code: string, message: string)
    requires AllSpace(head) && code != "" && NoSpace(code) && Stoul(code).Some?
    requires message != "" && message[0] == ' ' && CR !in message
    ensures ParseStatusLine(head + (StatusText(code, message) + CRLF)).Parsed?
  {
    ExtractPastSpaces(head, StatusText(code, message) + CRLF);
    ReadsStatusLine(code, message);
  }

  lemma {:induction false} VersionLineStarts(line: string, x: string) returns (rest: string)
    requires Words(line) == [HTTP_VERSION]
    ensures AllSpace(rest) && ParseStatusLine(line + CRLF + x) == ParseCode(Open(rest + CRLF + x))
  {
    rest := Open(line).Extract("").0.rest;
    ExtractInLine(line);
    WordsNone(rest);
    ExtractExtends(line + CRLF, x, "");
  }

  lemma {:induction false} VersionLineAccepts(line: string, code: string, message: string)
    requires Words(line) == [HTTP_VERSION] && code != "" && NoSpace(code) && Stoul(code).Some?
    requires message != "" && message[0] == ' ' && CR !in message
    ensures ParseStatusLine(line + CRLF + (code + (message + CRLF))).Parsed?
  {
    var rest := VersionLineStarts(line, code + (message + CRLF));
    var blanks := rest + CRLF;
    assert AllSpace(blanks);
    ConcatAssoc(blanks, code, message + CRLF);
    ReadsCode(blanks, code, message);
  }

  /** A first line that does not decide the parse leaves it to chance: some continuation is
      rejected or accepted depending only on where the network happened to cut it. */
  lemma {:induction false} UndecidedStatus(line: string) returns (x: string, early: Chunking, late: Chunking)
    requires FirstMatch(line + CRLF, CRLF, |line|) && !Decides(line)
    ensures StatusSeen(line + CRLF + x, early) == Rejected
    ensures StatusSeen(line + CRLF + x, late).Accepted?
  {
    var head := line + CRLF;
    var code := Print(200);
    PrintHasNoSpace(200);
    StoulOfPrint(200);
    UndecidedIsMalformed(line);
    WordsNone(line);
    if Words(line) == [] {
      x := StatusText(code, " OK") + CRLF;
      BlankLineAccepts(head, code, " OK");
    } else {
      x := code + (" OK" + CRLF);
      VersionLineAccepts(line, code, " OK");
    }
    EarlyAndLate(head, x, CRLF, |line|);
    early := FirstPiece(head + x, |head|);
    late := FirstPiece(head + x, |head + x|);
  }

  /** Exactly when the status phase is independent of the chunking: the first line holds at least
      two words, or a single word that is not the accepted version. */
  lemma {:induction false} StatusIndependentIff(line: string)
    requires FirstMatch(line + CRLF, CRLF, |line|)
    ensures Decides(line) <==>
            forall x: string, p: Chunking, q: Chunking :: StatusSeen(line + CRLF + x, p) == StatusSeen(line + CRLF + x, q)
  {
    if Decides(line) {
      forall x: string, p: Chunking, q: Chunking
        ensures StatusSeen(line + CRLF + x, p) == StatusSeen(line + CRLF + x, q)
      {
        DecidedStatus(line, x, p);
        DecidedStatus(line, x, q);
      }
    } else {
      var x, p, q := UndecidedStatus(line);
      assert StatusSeen(line + CRLF + x, p) != StatusSeen(line + CRLF + x, q);
    }
  }

  /** A line without CR meets its terminator first. */
  lemma {:induction false} LineEndsFirst(line: string)
    requires CR !in line
    ensures FirstMatch(line + CRLF, CRLF, |line|)
  {
    forall j: nat | j < |line|
      ensures !MatchAt(line + CRLF, CRLF, j)
    {
      assert (line + CRLF)[j] == line[j] != CR;
    }
  }
}
