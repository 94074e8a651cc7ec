/** What the two header parsers make of any lines and any bytes, said in terms of names, values and
    lines without a colon. */
module HeaderMeanings {
  import opened Streams
  import opened HeaderBlocks

  // ------------------------------------------------------------------ the keys of a header map

  function Names(fields: seq<Field>): set<string> {
    set i | 0 <= i < |fields| :: fields[i].name
  }

  /** Fields add exactly their own names to a map. */
  lemma {:induction false} LastWinsNames(headers: Headers, fields: seq<Field>)
    ensures LastWins(headers, fields).Keys == headers.Keys + Names(fields)
    decreases |fields|
  {
    if fields == [] {
      assert Names(fields) == {};
    } else {
      LastWinsNames(headers[fields[0].name := fields[0].value], fields[1..]);
      NamesCons(fields);
    }
  }

  lemma {:induction false} NamesCons(fields: seq<Field>)
    requires fields != []
    ensures Names(fields) == {fields[0].name} + Names(fields[1..])
  {
    forall name
      ensures name in Names(fields) <==> name in {fields[0].name} + Names(fields[1..])
    {
      if i :| 0 <= i < |fields| && fields[i].name == name {
        if i > 0 {
          assert fields[1..][i - 1].name == name;
        }
      }
      if j :| 0 <= j < |fields[1..]| && fields[1..][j].name == name {
        assert fields[j + 1].name == name;
      }
    }
  }

  // ------------------------------------------------------------------ the client

  /** A header line with a name before its first colon, and one without a colon. */
  datatype Entry = Named(name: string, value: string) | Bare(text: string)

  predicate Plain(e: Entry) {
    match e
    case Named(name, value) => ':' !in name && CR !in name && CR !in value
    case Bare(text) => text != "" && ':' !in text && CR !in text
  }

  function Spell(e: Entry): string {
    match e
    case Named(name, value) => name + ":" + value
    case Bare(text) => text
  }

  /** The fields among the entries: lines without a colon do not count. */
  function NamedFields(entries: seq<Entry>): seq<Field> {
    if entries == [] then []
    else if entries[0].Named? then [Field(entries[0].name, entries[0].value)] + NamedFields(entries[1..])
    else NamedFields(entries[1..])
  }

  predicate Spells(entries: seq<Entry>, lines: seq<Line>) {
    |entries| == |lines| && forall i | 0 <= i < |lines| :: Plain(entries[i]) && lines[i].text == Spell(entries[i])
  }

  lemma {:induction false} NamedIsStored(headers: Headers, name: string, value: string)
    requires ':' !in name
    ensures StoreHeader(headers, name + ":" + value) == headers[name := value]
  {
    assert name + ":" + value == name + [':'] + value;
    SplitAt(name, ':', value);
  }

  lemma {:induction false} BareIsDropped(headers: Headers, text: string)
    requires ':' !in text
    ensures StoreHeader(headers, text) == headers
  {
    IndexOfIs(text, ':', |text|);
  }

  lemma {:induction false} StoredLines(lines: seq<Line>, entries: seq<Entry>, headers: Headers)
    requires Spells(entries, lines)
    ensures StoreAll(headers, lines) == LastWins(headers, NamedFields(entries))
    decreases |lines|
  {
    hide StoreHeader, Spell, Plain;
    if lines != [] {
      var e := entries[0];
      assert Plain(e) && lines[0].text == Spell(e);
      if e.Named? {
        assert ':' !in e.name && Spell(e) == e.name + ":" + e.value by { SpelledNamed(e); }
        NamedIsStored(headers, e.name, e.value);
        StoredLines(lines[1..], entries[1..], headers[e.name := e.value]);
        var fields := NamedFields(entries[1..]);
        assert ([Field(e.name, e.value)] + fields)[1..] == fields;
      } else {
        assert ':' !in Spell(e) by { SpelledBare(e); }
        BareIsDropped(headers, Spell(e));
        StoredLines(lines[1..], entries[1..], headers);
      }
    }
  }

  lemma SpelledNamed(e: Entry)
    requires Plain(e) && e.Named?
    ensures ':' !in e.name && Spell(e) == e.name + ":" + e.value
  {
  }

  lemma SpelledBare(e: Entry)
    requires Plain(e) && e.Bare?
    ensures ':' !in Spell(e)
  {
  }

  /** Any lines that the client's loop reads can be told apart in this way. */
  lemma {:induction false} EntriesOf(lines: seq<Line>) returns (entries: seq<Entry>)
    requires Proper(lines)
    ensures Spells(entries, lines)
  {
    entries := [];
    if lines != [] {
      var more := EntriesOf(lines[1..]);
      var e := EntryOf(lines[0].text);
      entries := [e] + more;
      forall i | 0 <= i < |lines|
        ensures Plain(entries[i]) && lines[i].text == Spell(entries[i])
      {
        if i > 0 {
          assert entries[i] == more[i - 1] && lines[i] == lines[1..][i - 1];
        }
      }
    }
  }

  lemma {:induction false} EntryOf(text: string) returns (e: Entry)
    requires text != "" && CR !in text
    ensures Plain(e) && text == Spell(e)
  {
    var k := IndexOf(text, ':');
    if k < |text| {
      e := Named(text[..k], text[k + 1..]);
      assert text == text[..k] + ":" + text[k + 1..];
    } else {
      e := Bare(text);
      assert text[..k] == text;
    }
  }

  /** The client's headers, for any mixture of lines, each closed by CR and one more byte: exactly the
      names before a first colon get the rest of their last line as value, and lines without a colon
      leave no trace. */
  lemma {:induction false} ClientReadsLines(lines: seq<Line>, entries: seq<Entry>, tail: string, headers: Headers)
    requires Spells(entries, lines) && Proper(lines) && (tail == "" || tail[0] == CR)
    ensures ScanBlock(Text(lines) + tail, headers) == Stopped(LastWins(headers, NamedFields(entries)), tail[Min(2, |tail|)..])
    ensures LastWins(headers, NamedFields(entries)).Keys == headers.Keys + Names(NamedFields(entries))
  {
    ScanLines(lines, tail, headers);
    StoredLines(lines, entries, headers);
    LastWinsNames(headers, NamedFields(entries));
  }

  /** And every buffer on which the client's loop ends is such a mixture. */
  lemma {:induction false} ClientReadsEntries(buf: string, headers: Headers)
    returns (lines: seq<Line>, entries: seq<Entry>, tail: string)
    requires ScanBlock(buf, headers).Stopped?
    ensures Spells(entries, lines) && buf == Text(lines) + tail && (tail == "" || tail[0] == CR)
    ensures ScanBlock(buf, headers) == Stopped(LastWins(headers, NamedFields(entries)), tail[Min(2, |tail|)..])
  {
    lines, tail := StoppedLines(buf, headers);
    entries := EntriesOf(lines);
    ClientReadsLines(lines, entries, tail, headers);
  }

  // ------------------------------------------------------------------ the server

  /** The bytes split into these fields: a name up to a colon, a value up to CR or to the end, one more
      byte; and what is left holds no colon. Names may span lines. */
  predicate Reads(buf: string, fields: seq<Field>)
    decreases |fields|
  {
    if fields == [] then ':' !in buf
    else
      var f := fields[0];
      var n := |f.name| + 1 + |f.value|;
      && ':' !in f.name && CR !in f.value
      && n <= |buf| && buf[..n] == f.name + ":" + f.value
      && (n < |buf| ==> buf[n] == CR)
      && Reads(buf[Min(n + 2, |buf|)..], fields[1..])
  }

  lemma {:induction false} OneFieldRead(name: string, value: string, tail: string, headers: Headers)
    requires ':' !in name && CR !in value && (tail != "" ==> tail[0] == CR)
    ensures ServerScan(name + ":" + value + tail, headers) == ServerScan(tail[Min(2, |tail|)..], headers[name := value])
  {
    hide ServerScan, IndexOf, Min;
    NameEnds(name, value, tail);
    ScannedOnce(name + ":" + value + tail, headers);
    ValueEnds(value, tail);
  }

  lemma {:induction false} NameEnds(name: string, value: string, tail: string)
    requires ':' !in name
    ensures var buf := name + ":" + value + tail;
            IndexOf(buf, ':') == |name| < |buf| && buf[..|name|] == name && buf[|name| + 1..] == value + tail
  {
    assert name + ":" + value + tail == name + [':'] + (value + tail);
    SplitAt(name, ':', value + tail);
  }

  lemma {:induction false} ValueEnds(value: string, tail: string)
    requires CR !in value && (tail != "" ==> tail[0] == CR)
    ensures var v := value + tail;
            && IndexOf(v, CR) == |value| && v[..|value|] == value
            && v[Min(|value| + 2, |v|)..] == tail[Min(2, |tail|)..]
  {
    var v := value + tail;
    assert v[..|value|] == value;
    IndexOfIs(v, CR, |value|);
  }

  lemma {:induction false} FieldAndTail(buf: string, text: string, n: nat)
    requires n <= |buf| && buf[..n] == text
    ensures buf == text + buf[n..] && buf[n..][Min(2, |buf[n..]|)..] == buf[Min(n + 2, |buf|)..]
  {
    assert buf == buf[..n] + buf[n..];
  }

  /** The server's headers, for any bytes: the last value of each name. */
  lemma {:induction false} ServerReadsBytes(buf: string, fields: seq<Field>, headers: Headers)
    requires Reads(buf, fields)
    ensures ServerScan(buf, headers) == LastWins(headers, fields)
    ensures LastWins(headers, fields).Keys == headers.Keys + Names(fields)
    decreases |fields|
  {
    hide ServerScan, Names, IndexOf;
    LastWinsNames(headers, fields);
    if fields == [] {
      IndexOfIs(buf, ':', |buf|);
      ScannedOnce(buf, headers);
    } else {
      var f := fields[0];
      var n := |f.name| + 1 + |f.value|;
      var tail := buf[n..];
      FieldAndTail(buf, f.name + ":" + f.value, n);
      OneFieldRead(f.name, f.value, tail, headers);
      ServerReadsBytes(buf[Min(n + 2, |buf|)..], fields[1..], headers[f.name := f.value]);
    }
  }

  /** And all bytes split in this way. */
  lemma {:induction false} FieldsOf(buf: string) returns (fields: seq<Field>)
    ensures Reads(buf, fields)
    decreases |buf|
  {
    var k := IndexOf(buf, ':');
    if k == |buf| {
      fields := [];
      assert buf[..k] == buf;
    } else {
      var v := buf[k + 1..];
      var j := IndexOf(v, CR);
      var f := Field(buf[..k], v[..j]);
      var n := k + 1 + j;
      assert buf[..n] == f.name + ":" + f.value;
      assert n < |buf| ==> buf[n] == v[j];
      var more := FieldsOf(buf[Min(n + 2, |buf|)..]);
      fields := [f] + more;
      assert fields[1..] == more;
    }
  }
}
