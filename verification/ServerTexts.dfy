/** The server's replies written out: every byte of them, for every request. */
module ServerTexts {
  import opened Streams
  import opened Decimal
  import opened StatusLines
  import opened HttpServer
  import opened ServerRuns

  // ------------------------------------------------------------------ the texts

  lemma {:induction false} ErrorShape(code: nat)
    requires Known(code)
    ensures ErrorReply(code) == "HTTP/1.1 " + StatusEntry(code) + "\r\n\r\n"
  {
    hide StatusEntry;
    assert ErrorReply(code) == HTTP_VERSION + " " + StatusEntry(code) + CRLF + CRLF;
    ConcatAssoc("HTTP/1.1 " + StatusEntry(code), CRLF, CRLF);
  }

  lemma {:induction false} NotFoundText()
    ensures ErrorReply(404) == "HTTP/1.1 " + "404 Not Found" + "\r\n\r\n"
  {
    hide ErrorReply, StatusLineText;
    ErrorShape(404);
  }

  lemma {:induction false} ServerErrorText()
    ensures ErrorReply(500) == "HTTP/1.1 " + "500 Server Error" + "\r\n\r\n"
  {
    hide ErrorReply, StatusLineText;
    ErrorShape(500);
  }

  lemma {:induction false} TooLargeText()
    ensures ErrorReply(413) == "HTTP/1.1 " + "413 Request Entity Too Large" + "\r\n\r\n"
  {
    hide ErrorReply, StatusLineText;
    ErrorShape(413);
  }

  lemma {:induction false} NotImplementedText()
    ensures ErrorReply(501) == "HTTP/1.1 " + "501 Not Implemented" + "\r\n\r\n"
  {
    hide ErrorReply, StatusLineText;
    ErrorShape(501);
  }

  lemma {:induction false} VersionText()
    ensures ErrorReply(505) == "HTTP/1.1 " + "505 HTTP Version Not Supported" + "\r\n\r\n"
  {
    hide ErrorReply, StatusLineText;
    ErrorShape(505);
  }

  lemma {:induction false} FileText(bytes: string)
    ensures FileReply(bytes) == "HTTP/1.1 200 OK\r\ncontent-length: " + Print(|bytes|) + "\r\n\r\n" + bytes
  {
    assert StatusLineText(200) == "HTTP/1.1 200 OK\r\n";
    assert "content-length" + ": " == "content-length: ";
    assert "HTTP/1.1 200 OK\r\ncontent-length: " == "HTTP/1.1 200 OK\r\n" + "content-length: ";
    hide StatusLineText;
    ConcatAssoc("HTTP/1.1 200 OK\r\n", "content-length: ", Print(|bytes|));
    ConcatAssoc("HTTP/1.1 200 OK\r\n", "content-length: " + Print(|bytes|), "\r\n\r\n");
  }

  // ------------------------------------------------------------------ the replies

  /** The part of the bytes that fits the server's buffer. */
  function Seen(s: string): string {
    s[..Min(4096, |s|)]
  }

  lemma {:induction false} SeenIsWindow(s: string)
    ensures LIMIT.Window(s) == Seen(s)
  {
    assert s[..|s|] == s;
  }

  /** Without the end of a line within 4096 bytes: 413 if there are that many, else no reply. */
  lemma {:induction false} AnswersNoLine(wire: string, end: ErrorCode, files: FileSystem, pick: Chunking)
    requires end.Failed() && end != NotFound && !Contains(Seen(wire), "\r\n")
    ensures CameTo(Serve(wire, end, files, pick),
                   if |wire| >= 4096 then Some("HTTP/1.1 " + "413 Request Entity Too Large" + "\r\n\r\n") else None)
  {
    ServerReplies(wire, end, files, pick);
    SeenIsWindow(wire);
    TooLargeText();
    hide Serve, CameTo, ErrorReply, Contains, Seen;
  }

  /** A line that is not a GET in HTTP/1.1: 501, or 505. */
  lemma {:induction false} AnswersBadLine(wire: string, end: ErrorCode, files: FileSystem, pick: Chunking)
    requires end.Failed() && end != NotFound && Contains(Seen(wire), "\r\n")
    ensures var words := Words(wire[..IndexOf(wire, '\r')]);
            var s := Serve(wire, end, files, pick);
            && (words == [] || words[0] != "GET" ==> CameTo(s, Some("HTTP/1.1 " + "501 Not Implemented" + "\r\n\r\n")))
            && (words != [] && words[0] == "GET" && (|words| < 3 || words[2] != "HTTP/1.1") ==>
                  CameTo(s, Some("HTTP/1.1 " + "505 HTTP Version Not Supported" + "\r\n\r\n")))
  {
    ServerReplies(wire, end, files, pick);
    SeenIsWindow(wire);
    NotImplementedText();
    VersionText();
    hide Serve, CameTo, ErrorReply, Contains, Seen, Words, IndexOf, JudgeHeaders;
  }

  lemma {:induction false} FetchText(path: string, files: FileSystem)
    ensures Fetch(path, files)
         == match files("http_root" + path)
            case Missing => "HTTP/1.1 " + "404 Not Found" + "\r\n\r\n"
            case Unopenable => "HTTP/1.1 " + "500 Server Error" + "\r\n\r\n"
            case Content(bytes) => "HTTP/1.1 200 OK\r\ncontent-length: " + Print(|bytes|) + "\r\n\r\n" + bytes
  {
    hide ErrorReply, FileReply, Print;
    match files("http_root" + path) {
      case Missing => NotFoundText();
      case Unopenable => ServerErrorText();
      case Content(bytes) => FileText(bytes);
    }
  }

  /** A GET in HTTP/1.1: the file, if the rest shows a blank line within 4096 bytes; otherwise 413 if
      it has that many, else no reply. */
  lemma {:induction false} AnswersTarget(wire: string, end: ErrorCode, files: FileSystem, pick: Chunking)
    requires end.Failed() && end != NotFound && Contains(Seen(wire), "\r\n")
    requires var words := Words(wire[..IndexOf(wire, '\r')]);
             |words| >= 3 && words[0] == "GET" && words[2] == "HTTP/1.1"
    ensures var path := Words(wire[..IndexOf(wire, '\r')])[1];
            var rest := wire[Min(IndexOf(wire, '\r') + 2, |wire|)..];
            CameTo(Serve(wire, end, files, pick),
                   if Contains(Seen(rest), "\r\n\r\n") then
                     Some(match files("http_root" + path)
                          case Missing => "HTTP/1.1 " + "404 Not Found" + "\r\n\r\n"
                          case Unopenable => "HTTP/1.1 " + "500 Server Error" + "\r\n\r\n"
                          case Content(bytes) => "HTTP/1.1 200 OK\r\ncontent-length: " + Print(|bytes|) + "\r\n\r\n" + bytes)
                   else if |rest| >= 4096 then Some("HTTP/1.1 " + "413 Request Entity Too Large" + "\r\n\r\n")
                   else None)
  {
    hide Serve, CameTo, ErrorReply, Contains, Seen, Words, IndexOf, Print, Judge, Fetch;
    ServerReplies(wire, end, files, pick);
    JudgedTarget(wire);
    FetchText(Words(wire[..IndexOf(wire, '\r')])[1], files);
    TooLargeText();
  }

  lemma {:induction false} JudgedTarget(wire: string)
    requires Contains(Seen(wire), "\r\n")
    requires var words := Words(wire[..IndexOf(wire, '\r')]);
             |words| >= 3 && words[0] == "GET" && words[2] == "HTTP/1.1"
    ensures var rest := wire[Min(IndexOf(wire, '\r') + 2, |wire|)..];
            Judge(wire) == if Contains(Seen(rest), "\r\n\r\n") then LookUp(Words(wire[..IndexOf(wire, '\r')])[1])
                           else if |rest| >= 4096 then Refuse(413)
                           else Ignore
  {
    hide Contains, Seen, Words, IndexOf;
    SeenIsWindow(wire);
    SeenIsWindow(wire[Min(IndexOf(wire, '\r') + 2, |wire|)..]);
  }
}
