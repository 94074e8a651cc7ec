/** The client's and the server's header parsers: two different loops over the same bytes. */
module HeaderBlocks {
  import opened Streams

  type Headers = map<string, string>

  // ------------------------------------------------------------------ the client's loop

  /** One header line, split at its first colon; a line without a colon is dropped. */
  function StoreHeader(headers: Headers, line: string): Headers {
    var k := IndexOf(line, ':');
    if k < |line| then headers[line[..k] := line[k + 1..]] else headers
  }

  /** Variables of the client's loop at the top of a turn. */
  datatype Turn = Turn(stream: IStream, header: string, headers: Headers)

  /** One turn of the client's `while (true)`, which is left when it produces an empty header. */
  function NextTurn(t: Turn): Turn {
    var (afterLine, header) := t.stream.Getline(t.header, CR);
    Turn(afterLine.Get(), header, if header == "" then t.headers else StoreHeader(t.headers, header))
  }

  function TurnsFrom(t: Turn, n: nat): Turn
    decreases n
  {
    if n == 0 then t else TurnsFrom(NextTurn(t), n - 1)
  }

  /** The loop is left at the end of turn `n` and not before. */
  ghost predicate LeftAfter(t: Turn, n: nat) {
    1 <= n && TurnsFrom(t, n).header == "" && forall m | 1 <= m < n :: TurnsFrom(t, m).header != ""
  }

  datatype Scan = Stopped(headers: Headers, rest: string) | Spins(headers: Headers)

  /** The loop as a function of the buffer. It spins once a non-empty line meets the end of the buffer
      with the stream no longer good: `getline` then never clears `header` again. */
  function ScanBlock(buf: string, headers: Headers): Scan
    decreases |buf|
  {
    if buf == "" then Stopped(headers, "")
    else
      var k := IndexOf(buf, CR);
      if k == 0 then Stopped(headers, buf[Min(2, |buf|)..])
      else if |buf| <= k + 1 then Spins(StoreHeader(headers, buf[..k]))
      else ScanBlock(buf[k + 2..], StoreHeader(headers, buf[..k]))
  }

  lemma {:induction false} StuckTurns(t: Turn, n: nat)
    requires !t.stream.Good() && t.header != ""
    ensures TurnsFrom(t, n).header == t.header
    decreases n
  {
    if n > 0 {
      StuckTurns(NextTurn(t), n - 1);
    }
  }

  /** What one turn does to a fresh stream. */
  lemma {:induction false} TurnOnBuffer(buf: string, header: string, headers: Headers)
    ensures var u := NextTurn(Turn(Open(buf), header, headers));
            var k := IndexOf(buf, CR);
            && (k == 0 ==> u.header == "" && u.headers == headers && u.stream.rest == buf[Min(2, |buf|)..])
            && (k > 0 ==> u.header == buf[..k] && u.headers == StoreHeader(headers, buf[..k]))
            && (0 < k && |buf| <= k + 1 ==> !u.stream.Good())
            && (0 < k && k + 1 < |buf| ==> u.stream == Open(buf[k + 2..]))
  {
    var k := IndexOf(buf, CR);
    if k == |buf| {
      assert buf[..k] == buf;
    } else if k + 1 < |buf| {
      assert buf[k + 1..][1..] == buf[k + 2..];
    }
  }

  /** One turn on a fresh stream is one step of `ScanBlock`. */
  lemma {:induction false} ScanStep(buf: string, header: string, headers: Headers)
    ensures var u := NextTurn(Turn(Open(buf), header, headers));
            if u.header == "" then ScanBlock(buf, headers) == Stopped(u.headers, u.stream.rest)
            else if u.stream.Good() then
              ScanBlock(buf, headers) == ScanBlock(u.stream.rest, u.headers) && |u.stream.rest| < |buf|
            else ScanBlock(buf, headers) == Spins(u.headers) && u.stream.rest == ""
  {
    TurnOnBuffer(buf, header, headers);
  }

  lemma {:induction false} LeftLater(t: Turn, m: nat)
    requires NextTurn(t).header != "" && LeftAfter(NextTurn(t), m)
    ensures LeftAfter(t, m + 1) && TurnsFrom(t, m + 1) == TurnsFrom(NextTurn(t), m)
  {
    forall j | 1 <= j < m + 1
      ensures TurnsFrom(t, j).header != ""
    {
      assert TurnsFrom(t, j) == TurnsFrom(NextTurn(t), j - 1);
    }
  }

  lemma {:induction false} ScanStops(buf: string, header: string, headers: Headers) returns (n: nat)
    requires ScanBlock(buf, headers).Stopped?
    ensures var t := Turn(Open(buf), header, headers);
            && LeftAfter(t, n)
            && ScanBlock(buf, headers) == Stopped(TurnsFrom(t, n).headers, TurnsFrom(t, n).stream.rest)
    decreases |buf|
  {
    var t := Turn(Open(buf), header, headers);
    var u := NextTurn(t);
    ScanStep(buf, header, headers);
    if u.header == "" {
      n := 1;
      assert TurnsFrom(t, 1) == TurnsFrom(u, 0) == u;
    } else {
      var m := ScanStops(u.stream.rest, u.header, u.headers);
      LeftLater(t, m);
      n := m + 1;
    }
  }

  lemma {:induction false} ScanSpins(buf: string, header: string, headers: Headers, n: nat)
    requires ScanBlock(buf, headers).Spins? && n >= 1
    ensures TurnsFrom(Turn(Open(buf), header, headers), n).header != ""
    decreases |buf|
  {
    var t := Turn(Open(buf), header, headers);
    var u := NextTurn(t);
    ScanStep(buf, header, headers);
    assert TurnsFrom(t, n) == TurnsFrom(u, n - 1);
    if !u.stream.Good() {
      StuckTurns(u, n - 1);
    } else if n > 1 {
      ScanSpins(u.stream.rest, u.header, u.headers, n - 1);
    } else {
      assert TurnsFrom(u, 0) == u;
    }
  }

  ghost predicate LoopEnds(t: Turn) {
    exists n: nat :: LeftAfter(t, n)
  }

  /** `ScanBlock` is the loop: it stops exactly when some turn leaves the loop, with the headers and
      the unread bytes of that turn; otherwise no turn ever produces an empty header. */
  lemma {:induction false} ScanIsLoop(buf: string, header: string, headers: Headers)
    ensures var t := Turn(Open(buf), header, headers);
            && (LoopEnds(t) <==> ScanBlock(buf, headers).Stopped?)
            && forall n: nat | LeftAfter(t, n) ::
                 ScanBlock(buf, headers) == Stopped(TurnsFrom(t, n).headers, TurnsFrom(t, n).stream.rest)
  {
    var t := Turn(Open(buf), header, headers);
    if ScanBlock(buf, headers).Stopped? {
      var m := ScanStops(buf, header, headers);
      forall n: nat | LeftAfter(t, n)
        ensures n == m
      {
        assert TurnsFrom(t, n).header == "" == TurnsFrom(t, m).header;
      }
    } else {
      forall n: nat | LeftAfter(t, n)
        ensures false
      {
        ScanSpins(buf, header, headers, n);
      }
    }
  }

  // ------------------------------------------------------------------ when the loop stops

  /** A header line as the client reads it: the text up to CR, then one byte it drops unseen. */
  datatype Line = Line(text: string, dropped: char)

  function Text(lines: seq<Line>): string {
    if lines == [] then "" else lines[0].text + [CR, lines[0].dropped] + Text(lines[1..])
  }

  predicate Proper(lines: seq<Line>) {
    forall i | 0 <= i < |lines| :: lines[i].text != "" && CR !in lines[i].text
  }

  function StoreAll(headers: Headers, lines: seq<Line>): Headers
    decreases |lines|
  {
    if lines == [] then headers else StoreAll(StoreHeader(headers, lines[0].text), lines[1..])
  }

  lemma {:induction false} TextCons(line: Line, lines: seq<Line>)
    ensures Text([line] + lines) == line.text + [CR, line.dropped] + Text(lines)
    ensures Proper([line] + lines) <==> line.text != "" && CR !in line.text && Proper(lines)
  {
    var all := [line] + lines;
    assert all[1..] == lines;
    assert forall i | 0 <= i < |lines| :: lines[i] == all[i + 1];
  }

  /** Proper lines followed by the end of the buffer or by an empty line stop the loop, whose
      headers are then exactly theirs. */
  lemma {:induction false} ScanLines(lines: seq<Line>, tail: string, headers: Headers)
    requires Proper(lines) && (tail == "" || tail[0] == CR)
    ensures ScanBlock(Text(lines) + tail, headers)
         == Stopped(StoreAll(headers, lines), tail[Min(2, |tail|)..])
  {
    if lines == [] {
      assert Text(lines) + tail == tail;
    } else {
      var line := lines[0];
      var more := Text(lines[1..]) + tail;
      var buf := Text(lines) + tail;
      assert buf == line.text + [CR, line.dropped] + more;
      assert buf[..|line.text|] == line.text && buf[|line.text| + 2..] == more;
      IndexOfIs(buf, CR, |line.text|);
      ScanLines(lines[1..], tail, StoreHeader(headers, line.text));
    }
  }

  /** Conversely a loop that stops has read proper lines up to the end or an empty line. */
  lemma {:induction false} StoppedLines(buf: string, headers: Headers) returns (lines: seq<Line>, tail: string)
    requires ScanBlock(buf, headers).Stopped?
    ensures Proper(lines) && buf == Text(lines) + tail && (tail == "" || tail[0] == CR)
    decreases |buf|
  {
    var k := IndexOf(buf, CR);
    if buf == "" || k == 0 {
      lines, tail := [], buf;
    } else {
      var rest := buf[k + 2..];
      var ls, t := StoppedLines(rest, StoreHeader(headers, buf[..k]));
      lines, tail := [Line(buf[..k], buf[k + 1])] + ls, t;
      ConsLine(buf, k, ls, t);
    }
  }

  lemma {:induction false} ConsLine(buf: string, k: nat, lines: seq<Line>, tail: string)
    requires 0 < k && k + 1 < |buf| && buf[k] == CR && CR !in buf[..k]
    requires Proper(lines) && buf[k + 2..] == Text(lines) + tail
    ensures Proper([Line(buf[..k], buf[k + 1])] + lines)
    ensures buf == Text([Line(buf[..k], buf[k + 1])] + lines) + tail
  {
    var line := Line(buf[..k], buf[k + 1]);
    TextCons(line, lines);
    assert buf == line.text + [CR, line.dropped] + buf[k + 2..];
    ConcatAssoc(line.text + [CR, line.dropped], Text(lines), tail);
  }

  /** The buffer splits into these proper lines and a tail that is empty or begins with an empty line. */
  ghost predicate Splits(buf: string, lines: seq<Line>, tail: string) {
    Proper(lines) && buf == Text(lines) + tail && (tail == "" || tail[0] == CR)
  }

  ghost predicate ProperBlock(buf: string) {
    exists lines, tail :: Splits(buf, lines, tail)
  }

  /** The client's header loop ends if and only if its buffer consists of proper lines followed by
      nothing or by an empty line. */
  lemma {:induction false} ClientLoopEndsIff(buf: string, headers: Headers)
    ensures LoopEnds(Turn(Open(buf), "", headers)) <==> ProperBlock(buf)
  {
    ScanIsLoop(buf, "", headers);
    if ProperBlock(buf) {
      var lines, tail :| Splits(buf, lines, tail);
      ScanLines(lines, tail, headers);
    }
    if ScanBlock(buf, headers).Stopped? {
      var lines, tail := StoppedLines(buf, headers);
      assert Splits(buf, lines, tail);
    }
  }

  /** A bare CR before the blank line can make the loop run for ever. */
  lemma {:induction false} BareCrSpins()
    ensures Contains("a\r\r\n\r\nb", BLANK) && !LoopEnds(Turn(Open("a\r\r\n\r\nb"), "", map[]))
  {
    var s := "a\r\r\n\r\nb";
    assert s[2..6] == BLANK && MatchAt(s, BLANK, 2);
    IndexOfIs(s, CR, 1);
    var t := s[3..];
    assert t == "\n\r\nb";
    IndexOfIs(t, CR, 1);
    var u := t[3..];
    assert u == "b";
    IndexOfIs(u, CR, 1);
    var h := StoreHeader(map[], s[..1]);
    assert ScanBlock(t, h) == ScanBlock(u, StoreHeader(h, t[..1]));
    assert ScanBlock(s, map[]).Spins?;
    ScanIsLoop(s, "", map[]);
  }

  predicate EveryCrHasLf(s: string) {
    forall i | 0 <= i < |s| && s[i] == CR :: i + 1 < |s| && s[i + 1] == '\n'
  }

  predicate AllLf(lines: seq<Line>) {
    forall i | 0 <= i < |lines| :: lines[i].dropped == '\n'
  }

  /** A block in which every CR has its LF is a sequence of lines followed by an empty one. */
  lemma {:induction false} SplitBlock(buf: string, i: nat) returns (lines: seq<Line>, body: string)
    requires FirstMatch(buf, BLANK, i) && EveryCrHasLf(buf[..i + 4])
    ensures Proper(lines) && AllLf(lines) && buf == Text(lines) + (CRLF + body)
    ensures |Text(lines)| <= i + 2
    decreases |buf|
  {
    var k := IndexOf(buf, CR);
    var block := buf[..i + 4];
    assert block[i] == buf[i] == buf[i..i + 4][0] == CR;
    assert block[i + 2] == buf[i..i + 4][2] == CR && block[i + 3] == '\n' && block[i + 1] == '\n';
    IndexOfBefore(buf, CR, i);
    assert block[k] == CR && block[k + 1] == '\n';
    var line := Line(buf[..k], '\n');
    if k == 0 {
      lines, body := [], buf[2..];
    } else {
      var ls: seq<Line>;
      if k == i {
        ls, body := [], buf[i + 4..];
        assert buf[k + 2..] == Text(ls) + (CRLF + body);
      } else {
        TailMatch(buf, i, k);
        ls, body := SplitBlock(buf[k + 2..], i - k - 2);
      }
      lines := [line] + ls;
      ConsLine(buf, k, ls, CRLF + body);
    }
  }

  /** When every CR up to the first blank line is followed by LF, the loop stops exactly after the
      first empty line, its headers are those of the lines before it, and the rest is untouched. */
  lemma {:induction false} StopsAtEmptyLine(buf: string, i: nat, headers: Headers) returns (lines: seq<Line>, body: string)
    requires FirstMatch(buf, BLANK, i) && EveryCrHasLf(buf[..i + 4])
    ensures Proper(lines) && AllLf(lines) && buf == Text(lines) + (CRLF + body)
    ensures |Text(lines)| <= i + 2
    ensures ScanBlock(buf, headers) == Stopped(StoreAll(headers, lines), body)
  {
    lines, body := SplitBlock(buf, i);
    ScanLines(lines, CRLF + body, headers);
    assert (CRLF + body)[2..] == body;
  }

  lemma {:induction false} TailMatch(buf: string, i: nat, k: nat)
    requires FirstMatch(buf, BLANK, i) && EveryCrHasLf(buf[..i + 4]) && k < i && buf[k] == CR
    ensures k + 2 <= i && FirstMatch(buf[k + 2..], BLANK, i - k - 2) && EveryCrHasLf(buf[k + 2..][..i - k + 2])
  {
    var block := buf[..i + 4];
    var tail := buf[k + 2..];
    assert block[k + 1] == '\n' && buf[i] == buf[i..i + 4][0];
    assert tail[i - k - 2..i - k + 2] == buf[i..i + 4];
    forall j: nat | j < i - k - 2
      ensures !MatchAt(tail, BLANK, j)
    {
      assert !MatchAt(buf, BLANK, j + k + 2);
      if j + 4 <= |tail| {
        assert tail[j..j + 4] == buf[j + k + 2..j + k + 6];
      }
    }
    var part := tail[..i - k + 2];
    forall j | 0 <= j < |part| && part[j] == CR
      ensures j + 1 < |part| && part[j + 1] == '\n'
    {
      assert block[j + k + 2] == CR;
    }
  }

  // ------------------------------------------------------------------ chunking

  /** What the client learns from the header block. `Starved` is the end of the wire before it. */
  datatype HeadersSeen = Starved | Hangs | Learned(headers: Headers, ahead: string)

  function ClientHeadersSeen(buf: string, wire: string, pick: Chunking): HeadersSeen {
    var r := ReadUntil(buf, wire, BLANK, Unbounded, Eof, pick);
    if r.ec.Failed() then Starved
    else
      match ScanBlock(r.buf, map[])
      case Stopped(headers, rest) => Learned(headers, rest + r.wire)
      case Spins(_) => Hangs
  }

  /** The loop meets an empty line inside the block. */
  ghost predicate HasEmptyLine(block: string) {
    exists lines, tail :: Splits(block, lines, tail) && |tail| >= 2
  }

  lemma {:induction false} ReadsPastBlock(block: string, body: string, buf: string, wire: string, end: ErrorCode, pick: Chunking)
    returns (y: string)
    requires |block| >= 4 && FirstMatch(block, BLANK, |block| - 4) && buf + wire == block + body
    ensures var r := ReadUntil(buf, wire, BLANK, Unbounded, end, pick);
            r.ec == Success && r.buf == block + y && y + r.wire == body
  {
    FirstMatchExtends(block, body, BLANK, |block| - 4);
    ReadUntilFinds(buf, wire, BLANK, Unbounded, end, pick, |block| - 4);
    var r := ReadUntil(buf, wire, BLANK, Unbounded, end, pick);
    y := r.buf[|block|..];
    assert r.buf == (block + body)[..|r.buf|] && r.wire == (block + body)[|r.buf|..];
  }

  lemma {:induction false} ScanExtends(block: string, lines: seq<Line>, tail: string, y: string, headers: Headers)
    requires Splits(block, lines, tail) && |tail| >= 2
    ensures ScanBlock(block + y, headers) == Stopped(StoreAll(headers, lines), tail[2..] + y)
  {
    ConcatAssoc(Text(lines), tail, y);
    ScanLines(lines, tail + y, headers);
    assert (tail + y)[2..] == tail[2..] + y;
  }

  /** An empty line inside the block fixes the outcome for every body, every chunking and however
      much of the response had already been read. */
  lemma {:induction false} FixedHeaders(block: string, lines: seq<Line>, tail: string, body: string, buf: string, wire: string, pick: Chunking)
    requires |block| >= 4 && FirstMatch(block, BLANK, |block| - 4)
    requires Splits(block, lines, tail) && |tail| >= 2
    requires buf + wire == block + body
    ensures ClientHeadersSeen(buf, wire, pick) == Learned(StoreAll(map[], lines), tail[2..] + body)
  {
    var y := ReadsPastBlock(block, body, buf, wire, Eof, pick);
    ScanExtends(block, lines, tail, y, map[]);
    ConcatAssoc(tail[2..], y, ReadUntil(buf, wire, BLANK, Unbounded, Eof, pick).wire);
  }

  lemma {:induction false} StoppedAtEnd(block: string)
    requires |block| >= 1 && block[|block| - 1] == '\n' && !HasEmptyLine(block) && ScanBlock(block, map[]).Stopped?
    ensures ScanBlock(block + "x", map[]).Spins?
  {
    var lines, tail := StoppedLines(block, map[]);
    assert Splits(block, lines, tail);
    assert |tail| < 2 && (Text(lines) + tail)[|block| - 1] == '\n';
    assert block == Text(lines);
    SpinsAfter(lines, "x", map[]);
  }

  lemma {:induction false} SpunToEnd(block: string)
    requires |block| >= 1 && block[|block| - 1] == '\n' && ScanBlock(block, map[]).Spins?
    ensures ScanBlock(block + BLANK, map[]).Stopped?
  {
    var lines, stuck := SpunLines(block, map[]);
    assert stuck[|stuck| - 1] == '\n';
    assert stuck == stuck[..|stuck| - 1] + "\n";
    var line := Line(stuck, '\n');
    TextSnoc(lines, line);
    ScanLines(lines + [line], CRLF, map[]);
    assert stuck + BLANK == stuck + [CR, '\n'] + CRLF;
    ConcatAssoc(Text(lines), stuck, BLANK);
    ConcatAssoc(Text(lines), stuck + [CR, '\n'], CRLF);
  }

  /** Without an empty line inside the block the outcome is left to chance: for some body one
      chunking makes the client hang or swallow body bytes that another does not. */
  lemma {:induction false} ChanceHeaders(block: string) returns (body: string, p: Chunking, q: Chunking)
    requires |block| >= 4 && FirstMatch(block, BLANK, |block| - 4) && !HasEmptyLine(block)
    ensures ClientHeadersSeen("", block + body, p) != ClientHeadersSeen("", block + body, q)
  {
    assert block[|block| - 1] == block[|block| - 4..][3] == '\n';
    if ScanBlock(block, map[]).Stopped? {
      body := "x";
      StoppedAtEnd(block);
    } else {
      body := BLANK;
      SpunToEnd(block);
    }
    EarlyAndLate(block, body, BLANK, |block| - 4);
    p := FirstPiece(block + body, |block|);
    q := FirstPiece(block + body, |block + body|);
  }

  lemma {:induction false} TextSnoc(lines: seq<Line>, line: Line)
    ensures Text(lines + [line]) == Text(lines) + (line.text + [CR, line.dropped])
    ensures Proper(lines) && line.text != "" && CR !in line.text ==> Proper(lines + [line])
  {
    if lines == [] {
      assert lines + [line] == [line];
      TextCons(line, []);
    } else {
      assert lines + [line] == [lines[0]] + (lines[1..] + [line]);
      assert lines == [lines[0]] + lines[1..];
      TextSnoc(lines[1..], line);
      TextCons(lines[0], lines[1..] + [line]);
      TextCons(lines[0], lines[1..]);
    }
  }

  lemma {:induction false} SpinsAfter(lines: seq<Line>, stuck: string, headers: Headers)
    requires Proper(lines) && stuck != "" && CR !in stuck
    ensures ScanBlock(Text(lines) + stuck, headers).Spins?
  {
    if lines == [] {
      assert Text(lines) + stuck == stuck;
      IndexOfIs(stuck, CR, |stuck|);
    } else {
      var line := lines[0];
      var more := Text(lines[1..]) + stuck;
      var buf := Text(lines) + stuck;
      assert buf == line.text + [CR, line.dropped] + more;
      assert buf[..|line.text|] == line.text && buf[|line.text| + 2..] == more;
      IndexOfIs(buf, CR, |line.text|);
      SpinsAfter(lines[1..], stuck, StoreHeader(headers, line.text));
    }
  }

  /** A loop that spins has read proper lines and is stuck on what follows them. */
  lemma {:induction false} SpunLines(buf: string, headers: Headers) returns (lines: seq<Line>, stuck: string)
    requires ScanBlock(buf, headers).Spins?
    ensures Proper(lines) && buf == Text(lines) + stuck && stuck != ""
    ensures stuck[0] != CR && CR !in stuck[..|stuck| - 1]
    decreases |buf|
  {
    var k := IndexOf(buf, CR);
    if |buf| <= k + 1 {
      lines, stuck := [], buf;
      assert buf[..|buf| - 1] == buf[..k][..|buf| - 1];
    } else {
      var ls, t := SpunLines(buf[k + 2..], StoreHeader(headers, buf[..k]));
      lines, stuck := [Line(buf[..k], buf[k + 1])] + ls, t;
      ConsLine(buf, k, ls, t);
    }
  }

  /** Exactly when the header phase is independent of the chunking: an empty line, as the client
      counts lines, lies inside the block that ends with the first blank line. */
  lemma {:induction false} HeadersIndependentIff(block: string)
    requires |block| >= 4 && FirstMatch(block, BLANK, |block| - 4)
    ensures HasEmptyLine(block) <==>
            forall body: string, p: Chunking, q: Chunking ::
              ClientHeadersSeen("", block + body, p) == ClientHeadersSeen("", block + body, q)
  {
    if HasEmptyLine(block) {
      var lines, tail :| Splits(block, lines, tail) && |tail| >= 2;
      forall body: string, p: Chunking, q: Chunking
        ensures ClientHeadersSeen("", block + body, p) == ClientHeadersSeen("", block + body, q)
      {
        assert "" + (block + body) == block + body;
        FixedHeaders(block, lines, tail, body, "", block + body, p);
        FixedHeaders(block, lines, tail, body, "", block + body, q);
      }
    } else {
      var body, p, q := ChanceHeaders(block);
    }
  }

  /** A block in which every CR has its LF has an empty line inside. */
  lemma {:induction false} RegularBlockHasEmptyLine(block: string)
    requires |block| >= 4 && FirstMatch(block, BLANK, |block| - 4) && EveryCrHasLf(block)
    ensures HasEmptyLine(block)
  {
    assert block[..|block|] == block;
    var lines, body := SplitBlock(block, |block| - 4);
    assert Splits(block, lines, CRLF + body);
  }

  // ------------------------------------------------------------------ the server's loop

  /** The server's `while (!eof)` loop: a name up to a colon, a value up to CR, one byte dropped. */
  function ServerScan(buf: string, headers: Headers): Headers
    decreases |buf|
  {
    var k := IndexOf(buf, ':');
    if k == |buf| then headers
    else
      var v := buf[k + 1..];
      var j := IndexOf(v, CR);
      ServerScan(v[Min(j + 2, |v|)..], headers[buf[..k] := v[..j]])
  }

  lemma {:induction false} ScannedOnce(buf: string, headers: Headers)
    ensures var k := IndexOf(buf, ':');
            if k == |buf| then ServerScan(buf, headers) == headers
            else
              var v := buf[k + 1..];
              var j := IndexOf(v, CR);
              ServerScan(buf, headers) == ServerScan(v[Min(j + 2, |v|)..], headers[buf[..k] := v[..j]])
  {
    hide IndexOf;
  }

  // ------------------------------------------------------------------ agreement

  datatype Field = Field(name: string, value: string)

  function PrintFields(fields: seq<Field>): string {
    if fields == [] then "" else fields[0].name + ":" + fields[0].value + CRLF + PrintFields(fields[1..])
  }

  /** Later fields overwrite earlier ones of the same name. */
  function LastWins(headers: Headers, fields: seq<Field>): Headers
    decreases |fields|
  {
    if fields == [] then headers else LastWins(headers[fields[0].name := fields[0].value], fields[1..])
  }

  predicate WellFormed(fields: seq<Field>) {
    forall i | 0 <= i < |fields| ::
      ':' !in fields[i].name && CR !in fields[i].name && CR !in fields[i].value
  }

  lemma {:induction false} LastWinsKeeps(headers: Headers, fields: seq<Field>, name: string)
    requires forall i | 0 <= i < |fields| :: fields[i].name != name
    ensures name in LastWins(headers, fields) <==> name in headers
    ensures name in headers ==> LastWins(headers, fields)[name] == headers[name]
    decreases |fields|
  {
    if fields != [] {
      LastWinsKeeps(headers[fields[0].name := fields[0].value], fields[1..], name);
    }
  }

  /** A name maps to the value of its last field. */
  lemma {:induction false} LastWinsMeaning(headers: Headers, fields: seq<Field>, i: nat)
    requires i < |fields| && forall j | i < j < |fields| :: fields[j].name != fields[i].name
    ensures fields[i].name in LastWins(headers, fields)
    ensures LastWins(headers, fields)[fields[i].name] == fields[i].value
    decreases |fields|
  {
    var updated := headers[fields[0].name := fields[0].value];
    if i == 0 {
      LastWinsKeeps(updated, fields[1..], fields[0].name);
    } else {
      LastWinsMeaning(updated, fields[1..], i - 1);
    }
  }

  lemma {:induction false} ClientReadsFields(fields: seq<Field>, headers: Headers)
    requires WellFormed(fields)
    ensures ScanBlock(PrintFields(fields) + CRLF, headers) == Stopped(LastWins(headers, fields), "")
    decreases |fields|
  {
    if fields == [] {
      assert PrintFields(fields) + CRLF == CRLF;
      IndexOfIs(CRLF, CR, 0);
    } else {
      var f := fields[0];
      var line := f.name + ":" + f.value;
      var more := PrintFields(fields[1..]) + CRLF;
      var buf := PrintFields(fields) + CRLF;
      assert buf == line + CRLF + more;
      assert buf[..|line|] == line && buf[|line| + 2..] == more;
      IndexOfIs(buf, CR, |line|);
      IndexOfIs(line, ':', |f.name|);
      assert line[..|f.name|] == f.name && line[|f.name| + 1..] == f.value;
      ClientReadsFields(fields[1..], headers[f.name := f.value]);
    }
  }

  lemma {:induction false} ServerStep(buf: string, name: string, v: string, value: string, more: string, headers: Headers)
    requires IndexOf(buf, ':') == |name| < |buf| && buf[..|name|] == name && buf[|name| + 1..] == v
    requires IndexOf(v, CR) == |value| && |value| + 2 <= |v| && v[..|value|] == value && v[|value| + 2..] == more
    ensures ServerScan(buf, headers) == ServerScan(more, headers[name := value])
  {
  }

  lemma {:induction false} ServerReadsField(name: string, value: string, more: string, headers: Headers)
    requires ':' !in name && CR !in value
    ensures ServerScan(name + ":" + (value + CRLF + more), headers) == ServerScan(more, headers[name := value])
  {
    var v := value + CRLF + more;
    SplitAt(name, ':', v);
    assert v == value + [CR] + ("\n" + more);
    SplitAt(value, CR, "\n" + more);
    assert v[|value| + 2..] == more;
    ServerStep(name + ":" + v, name, v, value, more, headers);
  }

  lemma {:induction false} ServerReadsFields(fields: seq<Field>, headers: Headers)
    requires WellFormed(fields)
    ensures ServerScan(PrintFields(fields) + CRLF, headers) == LastWins(headers, fields)
    decreases |fields|
  {
    if fields == [] {
      assert PrintFields(fields) + CRLF == CRLF;
      IndexOfIs(CRLF, ':', 2);
    } else {
      var f := fields[0];
      var more := PrintFields(fields[1..]) + CRLF;
      assert PrintFields(fields) + CRLF == f.name + ":" + (f.value + CRLF + more);
      ServerReadsField(f.name, f.value, more, headers);
      ServerReadsFields(fields[1..], headers[f.name := f.value]);
    }
  }

  /** The two parsers agree: on printed fields and a final CRLF both build the last-wins map. */
  lemma {:induction false} ParsersAgree(fields: seq<Field>, headers: Headers)
    requires WellFormed(fields)
    ensures ScanBlock(PrintFields(fields) + CRLF, headers)
         == Stopped(ServerScan(PrintFields(fields) + CRLF, headers), "")
    ensures ServerScan(PrintFields(fields) + CRLF, headers) == LastWins(headers, fields)
  {
    ClientReadsFields(fields, headers);
    ServerReadsFields(fields, headers);
  }
}
