/** Reading a fixed number of bytes from a socket, and writing a whole buffer to it, by calls that may
    transfer less than they are asked to: as a loop, and as a chain of completion handlers. */
module PartialTransfers {
  import opened Streams

  // ------------------------------------------------------------------ as functions

  /** `size` bytes are to be transferred, `done` have been; `source` is what the other side still
      supplies (or, when writing, what of the buffer the other side will still take). */
  datatype Transfer = Transfer(size: nat, done: string, source: string) {
    predicate Valid() {
      |done| <= size
    }

    predicate Complete() {
      |done| == size
    }
  }

  /** One partial transfer: at least one byte, no more than requested. */
  function Advance(t: Transfer, pick: Chunking): (u: Transfer)
    requires t.Valid() && !t.Complete() && t.source != ""
    ensures u.Valid() && u.size == t.size && |t.done| < |u.done| && u.done + u.source == t.done + t.source
  {
    var n := Piece(pick, t.done, t.source, AtMost(t.size));
    assert (t.done + t.source[..n]) + t.source[n..] == t.done + t.source;
    Transfer(t.size, t.done + t.source[..n], t.source[n..])
  }

  /** The loop: until everything is transferred, or the connection ends. */
  function Loop(t: Transfer, pick: Chunking): Transfer
    requires t.Valid()
    decreases t.size - |t.done|
  {
    if t.Complete() || t.source == "" then t else Loop(Advance(t, pick), pick)
  }

  /** A chain of handlers: is an operation pending, and which codes ended the chain. */
  datatype Chain = Chain(t: Transfer, pending: bool, codes: seq<ErrorCode>)

  function Started(size: nat, source: string): Chain {
    Chain(Transfer(size, "", source), true, [])
  }

  /** The pending operation completes and its handler runs. An operation on no bytes succeeds. */
  function Continue(c: Chain, end: ErrorCode, pick: Chunking): Chain
    requires c.pending && c.t.Valid()
  {
    if !c.t.Complete() && c.t.source == "" then c.(pending := false, codes := c.codes + [end])
    else
      var t := if c.t.Complete() then c.t else Advance(c.t, pick);
      if t.Complete() then Chain(t, false, c.codes + [Success]) else c.(t := t)
  }

  function RunChain(c: Chain, end: ErrorCode, pick: Chunking): Chain
    requires c.t.Valid()
    decreases if c.pending then 1 else 0, c.t.size - |c.t.done|
  {
    if !c.pending then c else RunChain(Continue(c, end, pick), end, pick)
  }

  /** What every loop achieves, for every size and every sequence of positive partial transfers: the
      first `size` bytes in order and not one more, or, if there are fewer, all there are. */
  lemma {:induction false} LoopOutcome(t: Transfer, pick: Chunking)
    requires t.Valid()
    ensures var total := t.done + t.source;
            var k := Min(t.size, |total|);
            Loop(t, pick) == Transfer(t.size, total[..k], total[k..])
    decreases t.size - |t.done|
  {
    hide Advance;
    if t.Complete() || t.source == "" {
      var total := t.done + t.source;
      assert total[..|t.done|] == t.done && total[|t.done|..] == t.source;
    } else {
      LoopOutcome(Advance(t, pick), pick);
    }
  }

  /** The chain of handlers refines the loop: it ends, after transferring the same bytes, with exactly
      one code, which is success exactly when all bytes were transferred. */
  lemma {:induction false} ChainRefinesLoop(c: Chain, end: ErrorCode, pick: Chunking)
    requires c.t.Valid() && c.pending && c.codes == []
    ensures var t := Loop(c.t, pick);
            RunChain(c, end, pick) == Chain(t, false, [if t.Complete() then Success else end])
    decreases c.t.size - |c.t.done|
  {
    var next := Continue(c, end, pick);
    if next.pending {
      ChainRefinesLoop(next, end, pick);
    }
  }

  /** Hence what a started chain leaves behind depends on the bytes supplied alone. */
  lemma {:induction false} ChainOutcome(size: nat, source: string, end: ErrorCode, pick: Chunking)
    requires end.Failed()
    ensures var c := RunChain(Started(size, source), end, pick);
            && c.t.done == source[..Min(size, |source|)] && c.t.done + c.t.source == source && !c.pending
            && c.codes == (if size <= |source| then [Success] else [end])
  {
    hide RunChain, Loop;
    ChainRefinesLoop(Started(size, source), end, pick);
    LoopOutcome(Transfer(size, "", source), pick);
    assert "" + source == source;
  }

  // ------------------------------------------------------------------ the socket

  /** The other side sends `incoming` and takes `quota` more bytes; then the connection ends. */
  class Socket {
    var incoming: string
    var sent: string
    var quota: nat
    const end: ErrorCode
    const pick: Chunking

    constructor (incoming: string, quota: nat, end: ErrorCode, pick: Chunking)
      ensures this.incoming == incoming && sent == "" && this.quota == quota && this.end == end && this.pick == pick
    {
      this.incoming, this.sent, this.quota, this.end, this.pick := incoming, "", quota, end, pick;
    }

    /** `read_some` into the buffer from an index on. */
    method ReadSome(buf: array<char>, at: nat) returns (ec: ErrorCode, n: nat)
      requires at <= buf.Length
      modifies this`incoming, buf
      ensures at + n <= buf.Length && buf[..at] == old(buf[..at])
      ensures at == buf.Length ==> ec == Success && n == 0 && incoming == old(incoming)
      ensures at < buf.Length && old(incoming) == "" ==> ec == end && n == 0 && incoming == ""
      ensures at < buf.Length && old(incoming) != "" ==>
                var t := Advance(Transfer(buf.Length, old(buf[..at]), old(incoming)), pick);
                ec == Success && at + n == |t.done| && buf[..at + n] == t.done && incoming == t.source
    {
      if at == buf.Length {
        return Success, 0;
      }
      if incoming == "" {
        return end, 0;
      }
      n := Piece(pick, buf[..at], incoming, AtMost(buf.Length));
      for i := 0 to n
        invariant incoming == old(incoming) && buf[..at] == old(buf[..at])
        invariant buf[at..at + i] == incoming[..i]
      {
        buf[at + i] := incoming[i];
      }
      assert buf[..at + n] == buf[..at] + buf[at..at + n];
      incoming := incoming[n..];
      ec := Success;
    }

    /** The bytes of a buffer that this connection can still take. */
    function Acceptable(s: string): string
      reads this`quota
    {
      s[..Min(|s|, quota)]
    }

    /** `write_some` of the bytes from an index on. */
    method WriteSome(buf: string, at: nat) returns (ec: ErrorCode, n: nat)
      requires at <= |buf|
      modifies this`sent, this`quota
      ensures at + n <= |buf| && n <= old(quota) && quota == old(quota) - n && sent == old(sent) + buf[at..at + n]
      ensures at == |buf| ==> ec == Success && n == 0
      ensures at < |buf| && old(quota) == 0 ==> ec == end && n == 0
      ensures at < |buf| && old(quota) > 0 ==>
                var t := Advance(Transfer(|buf|, buf[..at], old(Acceptable(buf[at..]))), pick);
                ec == Success && at + n == |t.done| && buf[..at + n] == t.done && Acceptable(buf[at + n..]) == t.source
    {
      if at == |buf| {
        assert sent == sent + buf[at..at + 0];
        return Success, 0;
      }
      if quota == 0 {
        assert sent == sent + buf[at..at + 0];
        return end, 0;
      }
      var window := Acceptable(buf[at..]);
      n := Piece(pick, buf[..at], window, AtMost(|buf|));
      assert buf[at..][..n] == buf[at..at + n] == window[..n];
      assert buf[..at + n] == buf[..at] + window[..n];
      var m := |window|;
      assert window == buf[at..at + m] && window[n..] == buf[at + n..at + m];
      assert buf[at + n..][..m - n] == buf[at + n..at + m];
      sent, quota := sent + buf[at..at + n], quota - n;
      ec := Success;
    }
  }

  // ------------------------------------------------------------------ the loops

  /** `readFromSocket`, synchronous: `size` bytes, or the error that ended the connection. */
  method ReadFromSocket(sock: Socket, size: nat) returns (ec: ErrorCode, message: string)
    requires sock.end.Failed()
    modifies sock`incoming
    ensures var t := Loop(Transfer(size, "", old(sock.incoming)), sock.pick);
            && sock.incoming == t.source
            && if t.Complete() then ec == Success && message == t.done else ec == sock.end && message == ""
  {
    var buf := new char[size];
    var total := 0;
    assert buf[..0] == "";
    while total != size
      invariant total <= size
      invariant Loop(Transfer(size, buf[..total], sock.incoming), sock.pick) == Loop(Transfer(size, "", old(sock.incoming)), sock.pick)
      decreases size - total
    {
      var code, n := sock.ReadSome(buf, total);
      if code.Failed() {
        return code, "";
      }
      total := total + n;
    }
    return Success, buf[..total];
  }

  /** `writeToSocket`, synchronous. */
  method WriteToSocket(sock: Socket, buf: string) returns (ec: ErrorCode)
    requires sock.end.Failed()
    modifies sock`sent, sock`quota
    ensures var t := Loop(Transfer(|buf|, "", old(sock.Acceptable(buf))), sock.pick);
            && sock.sent == old(sock.sent) + t.done && sock.quota == old(sock.quota) - |t.done|
            && ec == if t.Complete() then Success else sock.end
  {
    hide Advance;
    var total := 0;
    assert buf[..0] == "" && buf[0..] == buf;
    while total != |buf|
      invariant total <= |buf|
      invariant sock.sent == old(sock.sent) + buf[0..total] && sock.quota == old(sock.quota) - total
      invariant Loop(Transfer(|buf|, buf[..total], sock.Acceptable(buf[total..])), sock.pick)
             == Loop(Transfer(|buf|, "", old(sock.Acceptable(buf))), sock.pick)
      decreases |buf| - total
    {
      var code, n := sock.WriteSome(buf, total);
      SentSoFar(old(sock.sent), buf, 0, total, total + n);
      if code.Failed() {
        return code;
      }
      total := total + n;
    }
    return Success;
  }

  // ------------------------------------------------------------------ the chains

  class ReadSession {
    const sock: Socket
    const buf: array<char>
    var totalBytesRead: nat
    var pending: bool
    var codes: seq<ErrorCode>

    ghost predicate Valid()
      reads this, buf
    {
      totalBytesRead <= buf.Length
    }

    function Value(): Chain
      reads this, buf, sock
      requires Valid()
    {
      Chain(Transfer(buf.Length, buf[..totalBytesRead], sock.incoming), pending, codes)
    }

    /** `readFromSocket`, asynchronous: the session is set up and its first operation asked for. */
    constructor (sock: Socket, size: nat)
      ensures Valid() && this.sock == sock && fresh(buf) && buf.Length == size
      ensures Value() == Started(size, sock.incoming)
    {
      this.sock := sock;
      buf := new char[size];
      totalBytesRead, pending, codes := 0, true, [];
    }

    method Callback(ec: ErrorCode, bytesTransferred: nat)
      requires pending && totalBytesRead + bytesTransferred <= buf.Length
      modifies this
      ensures Valid() && codes == if pending then old(codes) else old(codes) + [if ec.Failed() then ec else Success]
      ensures totalBytesRead == old(totalBytesRead) + if ec.Failed() then 0 else bytesTransferred
      ensures pending == (!ec.Failed() && totalBytesRead != buf.Length)
    {
      pending := false;
      if ec.Failed() {
        codes := codes + [ec];
        return;
      }
      totalBytesRead := totalBytesRead + bytesTransferred;
      if totalBytesRead == buf.Length {
        codes := codes + [Success];
        return;
      }
      pending := true;
    }

    /** The pending operation completes. */
    method OnCompletion()
      requires Valid() && pending && sock.end.Failed()
      modifies this, buf, sock`incoming
      ensures Valid() && Value() == Continue(old(Value()), sock.end, sock.pick)
    {
      var ec, n := sock.ReadSome(buf, totalBytesRead);
      Callback(ec, n);
    }

    /** The event loop runs until nothing is pending. */
    method Run()
      requires Valid() && sock.end.Failed()
      modifies this, buf, sock`incoming
      ensures Valid() && Value() == RunChain(old(Value()), sock.end, sock.pick)
    {
      while pending
        invariant Valid() && RunChain(Value(), sock.end, sock.pick) == old(RunChain(Value(), sock.end, sock.pick))
        decreases if pending then 1 else 0, buf.Length - totalBytesRead
      {
        OnCompletion();
      }
    }
  }

  class WriteSession {
    const sock: Socket
    const buf: string
    var totalBytesWritten: nat
    var pending: bool
    var codes: seq<ErrorCode>

    ghost predicate Valid()
      reads this
    {
      totalBytesWritten <= |buf|
    }

    function Value(): Chain
      reads this, sock
      requires Valid()
    {
      Chain(Transfer(|buf|, buf[..totalBytesWritten], sock.Acceptable(buf[totalBytesWritten..])), pending, codes)
    }

    /** `writeToSocket`, asynchronous. */
    constructor (sock: Socket, buf: string)
      ensures Valid() && this.sock == sock && this.buf == buf && totalBytesWritten == 0
      ensures Value() == Started(|buf|, sock.Acceptable(buf))
    {
      this.sock, this.buf := sock, buf;
      totalBytesWritten, pending, codes := 0, true, [];
      new;
      assert buf[0..] == buf;
    }

    method Callback(ec: ErrorCode, bytesTransferred: nat)
      requires pending && totalBytesWritten + bytesTransferred <= |buf|
      modifies this
      ensures Valid() && codes == if pending then old(codes) else old(codes) + [if ec.Failed() then ec else Success]
      ensures totalBytesWritten == old(totalBytesWritten) + if ec.Failed() then 0 else bytesTransferred
      ensures pending == (!ec.Failed() && totalBytesWritten != |buf|)
    {
      pending := false;
      if ec.Failed() {
        codes := codes + [ec];
        return;
      }
      totalBytesWritten := totalBytesWritten + bytesTransferred;
      if totalBytesWritten == |buf| {
        codes := codes + [Success];
        return;
      }
      pending := true;
    }

    /** The pending operation completes. */
    method OnCompletion()
      requires Valid() && pending && sock.end.Failed()
      modifies this, sock`sent, sock`quota
      ensures Valid() && Value() == Continue(old(Value()), sock.end, sock.pick)
      ensures sock.sent == old(sock.sent) + buf[old(totalBytesWritten)..totalBytesWritten]
      ensures old(totalBytesWritten) <= totalBytesWritten
    {
      var ec, n := sock.WriteSome(buf, totalBytesWritten);
      Callback(ec, n);
    }

    /** The event loop runs until nothing is pending; what was sent is the part of the buffer done. */
    method Run()
      requires Valid() && sock.end.Failed()
      modifies this, sock`sent, sock`quota
      ensures Valid() && Value() == RunChain(old(Value()), sock.end, sock.pick)
      ensures old(totalBytesWritten) <= totalBytesWritten
      ensures sock.sent == old(sock.sent) + buf[old(totalBytesWritten)..totalBytesWritten]
    {
      while pending
        invariant Valid() && RunChain(Value(), sock.end, sock.pick) == old(RunChain(Value(), sock.end, sock.pick))
        invariant old(totalBytesWritten) <= totalBytesWritten
        invariant sock.sent == old(sock.sent) + buf[old(totalBytesWritten)..totalBytesWritten]
        decreases if pending then 1 else 0, |buf| - totalBytesWritten
      {
        ghost var k := totalBytesWritten;
        OnCompletion();
        SentSoFar(old(sock.sent), buf, old(totalBytesWritten), k, totalBytesWritten);
      }
    }
  }

  // ------------------------------------------------------------------ up to a delimiter

  datatype Received = Message(text: string) | Error(ec: ErrorCode)

  /** `readFromSocketDelim`: bytes up to a newline; what was read beyond it is dropped with the buffer. */
  function ReadDelim(wire: string, end: ErrorCode, pick: Chunking): (Received, string) {
    var r := ReadUntil("", wire, "\n", Unbounded, end, pick);
    (if r.ec.Failed() then Error(r.ec) else Message(Open(r.buf).Getline("", '\n').1), r.wire)
  }

  /** The message is the first line, and an error means that there is none; both for every chunking.
      What stays on the socket depends on the chunking: it is some suffix of what follows the line. */
  lemma {:induction false} ReadDelimOutcome(wire: string, end: ErrorCode, pick: Chunking)
    requires end.Failed()
    ensures var k := IndexOf(wire, '\n');
            var (received, left) := ReadDelim(wire, end, pick);
            && received == (if k < |wire| then Message(wire[..k]) else Error(end))
            && |left| <= |wire| - (if k < |wire| then k + 1 else k) && left == wire[|wire| - |left|..]
  {
    hide ReadUntil, Contains, FirstMatch, IndexOf;
    var k := IndexOf(wire, '\n');
    var r := ReadUntil("", wire, "\n", Unbounded, end, pick);
    NewlineIsMatch(wire);
    assert "" + wire == wire;
    ReadUntilConserves("", wire, "\n", Unbounded, end, pick);
    TwoParts(wire, r.buf, r.wire);
    if k < |wire| {
      ReadUntilFinds("", wire, "\n", Unbounded, end, pick, k);
      FirstLine(wire, k, |r.buf|);
    } else {
      ReadUntilOutcome("", wire, "\n", Unbounded, end, pick);
    }
  }

  lemma {:induction false} TwoParts(whole: string, a: string, b: string)
    requires a + b == whole
    ensures a == whole[..|a|] && |b| <= |whole| && b == whole[|whole| - |b|..]
  {
  }

  /** A first line is read from every piece that holds it. */
  lemma {:induction false} FirstLine(wire: string, k: nat, n: nat)
    requires k == IndexOf(wire, '\n') && k < n <= |wire|
    ensures Open(wire[..n]).Getline("", '\n').1 == wire[..k]
  {
    assert wire[..n][..k] == wire[..k];
    IndexOfIs(wire[..n], '\n', k);
  }

  /** What was sent before, and a further part of the buffer. */
  lemma {:induction false} SentSoFar(before: string, buf: string, from: nat, k: nat, m: nat)
    requires from <= k <= m <= |buf|
    ensures before + buf[from..k] + buf[k..m] == before + buf[from..m]
  {
    assert buf[from..k] + buf[k..m] == buf[from..m];
    ConcatAssoc(before, buf[from..k], buf[k..m]);
  }

  lemma {:induction false} NewlineIsMatch(s: string)
    ensures var k := IndexOf(s, '\n');
            if k < |s| then FirstMatch(s, "\n", k) else !Contains(s, "\n")
  {
    var k := IndexOf(s, '\n');
    forall j: nat | j <= |s| && MatchAt(s, "\n", j)
      ensures j >= k && j < |s|
    {
      assert s[j..j + 1] == "\n";
      assert s[j] == s[j..j + 1][0];
    }
    if k < |s| {
      assert s[k..k + 1] == "\n";
    }
  }
}
