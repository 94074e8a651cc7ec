/** Byte strings, C++ input streams and the asynchronous reads that fill their buffers.

    A byte is a `char`: every statement holds for all characters, so in particular for the
    256 byte values. */
module Streams {

  datatype Option<+T> = None | Some(value: T)

  /** What an asynchronous operation reports. `OtherError` stands for every remaining non-zero code. */
  datatype ErrorCode =
    | Success
    | Eof
    | NotFound
    | OperationAborted
    | InvalidResponse
    | OtherError(code: nat)
  {
    /** The sources' test `ec.value() != 0`. */
    predicate Failed() {
      !Success?
    }
  }

  const CR := '\r'
  const CRLF := "\r\n"
  const BLANK := "\r\n\r\n"

  function Min(a: nat, b: nat): nat {
    if a < b then a else b
  }

  /** `std::isspace` in the "C" locale: blank, \t, \n, \v, \f, \r. */
  predicate IsSpace(c: char) {
    c == ' ' || '\t' <= c <= '\r'
  }

  predicate AllSpace(s: string) {
    forall i | 0 <= i < |s| :: IsSpace(s[i])
  }

  predicate NoSpace(s: string) {
    forall i | 0 <= i < |s| :: !IsSpace(s[i])
  }

  lemma ConcatAssoc(a: string, b: string, c: string)
    ensures (a + b) + c == a + (b + c)
  {
  }

  // ------------------------------------------------------------------ searching

  /** Position of the first `c`, or `|s|`. */
  function IndexOf(s: string, c: char): (k: nat)
    ensures k <= |s|
    ensures k < |s| ==> s[k] == c
    ensures c !in s[..k]
  {
    if s == "" || s[0] == c then 0
    else
      var k := IndexOf(s[1..], c) + 1;
      assert s[..k] == [s[0]] + s[1..][..k - 1];
      k
  }

  lemma {:induction false} IndexOfIs(s: string, c: char, k: nat)
    requires k <= |s| && c !in s[..k]
    requires k < |s| ==> s[k] == c
    ensures IndexOf(s, c) == k
  {
  }

  lemma {:induction false} SplitAt(a: string, c: char, t: string)
    requires c !in a
    ensures var s := a + [c] + t;
            IndexOf(s, c) == |a| && s[..|a|] == a && s[|a| + 1..] == t
  {
    var s := a + [c] + t;
    assert s[..|a|] == a && s[|a| + 1..] == t;
    IndexOfIs(s, c, |a|);
  }

  lemma IndexOfBefore(s: string, c: char, i: nat)
    requires i < |s| && s[i] == c
    ensures IndexOf(s, c) <= i
  {
  }

  /** Number of leading white-space characters. */
  function SkipSpaces(s: string): (k: nat)
    ensures k <= |s| && AllSpace(s[..k])
    ensures k < |s| ==> !IsSpace(s[k])
  {
    if s == "" || !IsSpace(s[0]) then 0 else SkipSpaces(s[1..]) + 1
  }

  /** Number of leading characters that are not white space. */
  function TokenLength(s: string): (k: nat)
    ensures k <= |s| && NoSpace(s[..k])
    ensures k < |s| ==> IsSpace(s[k])
  {
    if s == "" || IsSpace(s[0]) then 0 else TokenLength(s[1..]) + 1
  }

  lemma {:induction false} SkipSpacesIs(s: string, k: nat)
    requires k <= |s| && AllSpace(s[..k])
    requires k < |s| ==> !IsSpace(s[k])
    ensures SkipSpaces(s) == k
  {
  }

  lemma {:induction false} TokenLengthIs(s: string, k: nat)
    requires k <= |s| && NoSpace(s[..k])
    requires k < |s| ==> IsSpace(s[k])
    ensures TokenLength(s) == k
  {
  }

  predicate MatchAt(s: string, d: string, i: nat) {
    i + |d| <= |s| && s[i..i + |d|] == d
  }

  predicate Contains(s: string, d: string) {
    exists i: nat | i <= |s| :: MatchAt(s, d, i)
  }

  ghost predicate FirstMatch(s: string, d: string, i: nat) {
    MatchAt(s, d, i) && forall j: nat | j < i :: !MatchAt(s, d, j)
  }

  lemma MatchInPrefix(s: string, n: nat, d: string, i: nat)
    requires n <= |s|
    ensures MatchAt(s[..n], d, i) <==> MatchAt(s, d, i) && i + |d| <= n
  {
    if i + |d| <= n {
      assert s[..n][i..i + |d|] == s[i..i + |d|];
    }
  }

  /** A prefix contains the delimiter exactly when it reaches past the first occurrence. */
  lemma PrefixContains(s: string, n: nat, d: string, i: nat)
    requires n <= |s| && FirstMatch(s, d, i)
    ensures Contains(s[..n], d) <==> i + |d| <= n
  {
    MatchInPrefix(s, n, d, i);
    if Contains(s[..n], d) {
      var j: nat :| j <= n && MatchAt(s[..n], d, j);
      MatchInPrefix(s, n, d, j);
    }
  }

  lemma ContainsExtends(s: string, n: nat, d: string)
    requires n <= |s| && Contains(s[..n], d)
    ensures Contains(s, d)
  {
    var j: nat :| j <= n && MatchAt(s[..n], d, j);
    MatchInPrefix(s, n, d, j);
    assert MatchAt(s, d, j);
  }

  lemma {:induction false} FirstMatchInPrefix(s: string, n: nat, d: string, i: nat)
    requires n <= |s| && FirstMatch(s, d, i) && i + |d| <= n
    ensures FirstMatch(s[..n], d, i)
  {
    MatchInPrefix(s, n, d, i);
    forall j: nat | j < i
      ensures !MatchAt(s[..n], d, j)
    {
      MatchInPrefix(s, n, d, j);
    }
  }

  lemma {:induction false} FirstMatchExtends(s: string, x: string, d: string, i: nat)
    requires FirstMatch(s, d, i)
    ensures FirstMatch(s + x, d, i)
  {
    assert (s + x)[..|s|] == s;
    MatchInPrefix(s + x, |s|, d, i);
    forall j: nat | j < i
      ensures !MatchAt(s + x, d, j)
    {
      MatchInPrefix(s + x, |s|, d, j);
    }
  }

  lemma {:induction false} FirstMatchExists(s: string, d: string, i: nat) returns (k: nat)
    requires MatchAt(s, d, i)
    ensures k <= i && FirstMatch(s, d, k)
  {
    if j: nat :| j < i && MatchAt(s, d, j) {
      k := FirstMatchExists(s, d, j);
    } else {
      k := i;
    }
  }

  // ------------------------------------------------------------------ std::istream

  /** An input stream over a buffer: the unread bytes and the two error bits that matter here. */
  datatype IStream = IStream(rest: string, eof: bool, fail: bool) {
    predicate Good() {
      !eof && !fail
    }

    /** `std::getline(stream, target, delim)`; returns the new stream and the new value of `target`.
        A stream that is not good only gains the fail bit and leaves the target as it was. */
    function Getline(target: string, delim: char): (r: (IStream, string)) {
      if !Good() then (this.(fail := true), target)
      else
        var k := IndexOf(rest, delim);
        if k < |rest| then (this.(rest := rest[k + 1..]), rest[..k])
        else (IStream("", true, rest == ""), rest)
    }

    /** `stream.get()`, its result unused. */
    function Get(): IStream {
      if !Good() then this.(fail := true)
      else if rest == "" then IStream("", true, true)
      else this.(rest := rest[1..])
    }

    /** `stream >> target`. */
    function Extract(target: string): (IStream, string) {
      if !Good() then (this.(fail := true), target)
      else
        var t := rest[SkipSpaces(rest)..];
        if t == "" then (IStream("", true, true), target)
        else
          var b := TokenLength(t);
          (IStream(t[b..], b == |t|, false), t[..b])
    }
  }

  /** A fresh stream over a buffer: every handler opens its own, so the error bits reset. */
  function Open(buf: string): IStream {
    IStream(buf, false, false)
  }

  /** An operation that leaves the stream good has not looked past the bytes it had:
      appending bytes to the buffer only appends them to what is left. */
  lemma GetlineExtends(p: string, x: string, target: string, delim: char)
    requires delim in p
    ensures Open(p).Getline(target, delim).0.Good()
    ensures Open(p + x).Getline(target, delim)
         == (Open(Open(p).Getline(target, delim).0.rest + x), Open(p).Getline(target, delim).1)
  {
    var k := IndexOf(p, delim);
    assert (p + x)[..k] == p[..k];
    IndexOfIs(p + x, delim, k);
    assert (p + x)[k + 1..] == p[k + 1..] + x;
  }

  /** `>>` skips white space and takes one word up to the next white space. */
  lemma {:induction false} ExtractWord(blanks: string, word: string, t: string, target: string)
    requires AllSpace(blanks) && word != "" && NoSpace(word) && t != "" && IsSpace(t[0])
    ensures Open(blanks + word + t).Extract(target) == (Open(t), word)
  {
    var s := blanks + word + t;
    assert s[..|blanks|] == blanks && s[|blanks|..] == word + t;
    SkipSpacesIs(s, |blanks|);
    assert (word + t)[..|word|] == word && (word + t)[|word|..] == t;
    TokenLengthIs(word + t, |word|);
  }

  lemma {:induction false} ExtractExtends(p: string, x: string, target: string)
    requires Open(p).Extract(target).0.Good()
    ensures Open(p + x).Extract(target)
         == (Open(Open(p).Extract(target).0.rest + x), Open(p).Extract(target).1)
  {
    var a := SkipSpaces(p);
    var b := TokenLength(p[a..]);
    var blanks, word, t := p[..a], p[a..][..b], p[a..][b..];
    assert p == blanks + word + t;
    ExtractWord(blanks, word, t + x, target);
    ConcatAssoc(blanks + word, t, x);
  }

  lemma {:induction false} GetlineTakes(line: string, delim: char, t: string, target: string)
    requires delim !in line
    ensures Open(line + [delim] + t).Getline(target, delim) == (Open(t), line)
  {
    var s := line + [delim] + t;
    assert s[..|line|] == line && s[|line| + 1..] == t;
    IndexOfIs(s, delim, |line|);
  }

  // ------------------------------------------------------------------ words

  /** The white-space separated words of a string. */
  function Words(s: string): seq<string>
    decreases |s|
  {
    var t := s[SkipSpaces(s)..];
    if t == "" then []
    else
      var b := TokenLength(t);
      [t[..b]] + Words(t[b..])
  }

  /** `>>` on a good stream takes the words off one by one. */
  lemma ExtractTakesWord(s: string)
    ensures Words(s) == [] ==> Open(s).Extract("") == (IStream("", true, true), "")
    ensures Words(s) != [] ==>
              Open(s).Extract("").1 == Words(s)[0]
              && Words(Open(s).Extract("").0.rest) == Words(s)[1..]
              && (Open(s).Extract("").0.eof ==> Open(s).Extract("").0.rest == "")
  {
  }

  // ------------------------------------------------------------------ async_read_until

  datatype Limit = Unbounded | AtMost(max: nat) {
    predicate Fits(n: nat) {
      Unbounded? || n <= max
    }

    predicate Full(n: nat) {
      AtMost? && n >= max
    }

    /** The part of the incoming bytes that a buffer of this size can ever hold. */
    function Window(s: string): string {
      if AtMost? && max < |s| then s[..max] else s
    }
  }

  /** How the environment cuts the wire into pieces: the size it wants to deliver next, given how
      many bytes are still to come. That number shrinks with every delivery, so every possible
      sequence of piece sizes is one such function. */
  type Chunking = nat -> nat

  datatype ReadResult = ReadResult(ec: ErrorCode, buf: string, wire: string)

  /** Size of the next piece: at least one byte, at most what is left and what the buffer has room for. */
  function Piece(pick: Chunking, buf: string, wire: string, limit: Limit): (k: nat)
    requires wire != "" && !limit.Full(|buf|)
    ensures 1 <= k <= |wire| && limit.Fits(|buf| + k)
  {
    var room := if limit.AtMost? then Min(limit.max - |buf|, |wire|) else |wire|;
    var wanted := pick(|wire|);
    if wanted < 1 then 1 else Min(wanted, room)
  }

  /** `async_read_until(sock, buf, delim)`: reads pieces until the buffer contains the delimiter, is
      full, or the wire ends with the code `end`. The buffer may hold bytes past the delimiter. */
  function ReadUntil(buf: string, wire: string, delim: string, limit: Limit, end: ErrorCode, pick: Chunking): ReadResult
    decreases |wire|
  {
    if Contains(buf, delim) then ReadResult(Success, buf, wire)
    else if limit.Full(|buf|) then ReadResult(NotFound, buf, wire)
    else if wire == "" then ReadResult(end, buf, wire)
    else
      var k := Piece(pick, buf, wire, limit);
      ReadUntil(buf + wire[..k], wire[k..], delim, limit, end, pick)
  }

  /** `async_read(sock, buf)`: everything up to the end of the wire. */
  function ReadAll(buf: string, wire: string, end: ErrorCode, pick: Chunking): ReadResult
    decreases |wire|
  {
    if wire == "" then ReadResult(end, buf, wire)
    else
      var k := Piece(pick, buf, wire, Unbounded);
      ReadAll(buf + wire[..k], wire[k..], end, pick)
  }

  /** No byte is lost, repeated or reordered between buffer and wire. */
  lemma {:induction false} ReadUntilConserves(buf: string, wire: string, delim: string, limit: Limit, end: ErrorCode, pick: Chunking)
    requires limit.Fits(|buf|)
    ensures var r := ReadUntil(buf, wire, delim, limit, end, pick);
            r.buf + r.wire == buf + wire && |buf| <= |r.buf| && limit.Fits(|r.buf|)
    decreases |wire|
  {
    if !Contains(buf, delim) && !limit.Full(|buf|) && wire != "" {
      var k := Piece(pick, buf, wire, limit);
      ReadUntilConserves(buf + wire[..k], wire[k..], delim, limit, end, pick);
      assert (buf + wire[..k]) + wire[k..] == buf + wire;
    }
  }

  /** What a delimited read reports depends on the bytes alone, however they are cut into pieces. */
  lemma {:induction false} ReadUntilOutcome(buf: string, wire: string, delim: string, limit: Limit, end: ErrorCode, pick: Chunking)
    requires limit.Fits(|buf|)
    ensures var r := ReadUntil(buf, wire, delim, limit, end, pick);
            var total := buf + wire;
            && (Contains(limit.Window(total), delim) ==> r.ec == Success && Contains(r.buf, delim))
            && (!Contains(limit.Window(total), delim) && limit.Full(|total|) ==> r.ec == NotFound)
            && (!Contains(limit.Window(total), delim) && !limit.Full(|total|) ==> r.ec == end && r.buf == total)
    decreases |wire|
  {
    var total := buf + wire;
    var w := limit.Window(total);
    if Contains(buf, delim) {
      assert buf == w[..|buf|];
      ContainsExtends(w, |buf|, delim);
    } else if limit.Full(|buf|) {
      assert w == buf;
    } else if wire == "" {
      assert total == buf && w == buf;
    } else {
      var k := Piece(pick, buf, wire, limit);
      assert (buf + wire[..k]) + wire[k..] == total;
      ReadUntilOutcome(buf + wire[..k], wire[k..], delim, limit, end, pick);
    }
  }

  lemma {:induction false} ReadAllOutcome(buf: string, wire: string, end: ErrorCode, pick: Chunking)
    ensures ReadAll(buf, wire, end, pick) == ReadResult(end, buf + wire, "")
    decreases |wire|
  {
    if wire == "" {
      assert buf + wire == buf;
    } else {
      var k := Piece(pick, buf, wire, Unbounded);
      ReadAllOutcome(buf + wire[..k], wire[k..], end, pick);
      assert (buf + wire[..k]) + wire[k..] == buf + wire;
    }
  }

  /** When the first delimiter is known and can be held, the read succeeds with a prefix of the
      incoming bytes that reaches at least past it. */
  lemma ReadUntilFinds(buf: string, wire: string, delim: string, limit: Limit, end: ErrorCode, pick: Chunking, i: nat)
    requires FirstMatch(buf + wire, delim, i) && limit.Fits(i + |delim|) && limit.Fits(|buf|)
    ensures var r := ReadUntil(buf, wire, delim, limit, end, pick);
            && r.ec == Success && r.buf + r.wire == buf + wire && i + |delim| <= |r.buf|
            && limit.Fits(|r.buf|)
  {
    var total := buf + wire;
    var w := limit.Window(total);
    ReadUntilOutcome(buf, wire, delim, limit, end, pick);
    ReadUntilConserves(buf, wire, delim, limit, end, pick);
    assert w == total[..|w|];
    PrefixContains(total, |w|, delim, i);
    var r := ReadUntil(buf, wire, delim, limit, end, pick);
    assert r.buf == total[..|r.buf|];
    PrefixContains(total, |r.buf|, delim, i);
  }

  /** The chunking that delivers `n` bytes of `total` first. */
  function FirstPiece(total: string, n: nat): Chunking {
    k => if k == |total| then n else k
  }

  /** A network that stops for a moment right after the delimiter, and one that delivers everything at once. */
  lemma {:induction false} EarlyAndLate(head: string, x: string, delim: string, i: nat)
    requires delim != "" && FirstMatch(head, delim, i) && |head| == i + |delim|
    ensures ReadUntil("", head + x, delim, Unbounded, Eof, FirstPiece(head + x, |head|)) == ReadResult(Success, head, x)
    ensures ReadUntil("", head + x, delim, Unbounded, Eof, FirstPiece(head + x, |head + x|)) == ReadResult(Success, head + x, "")
  {
    var total := head + x;
    FirstMatchExtends(head, x, delim, i);
    assert !MatchAt("", delim, 0);
    assert "" + total[..|head|] == head && total[|head|..] == x;
    assert "" + total[..|total|] == total && total[|total|..] == "";
    assert total[..|head|] == head && total[..|total|] == total;
    PrefixContains(total, |head|, delim, i);
    PrefixContains(total, |total|, delim, i);
  }
}
