/** Server-sent events as this system frames and re-reads them: the printer in `sse.go` and the
    incremental parser inside the browser's `generateReport` (section 9.2 of the WHATWG HTML
    Living Standard, restricted to what both sides use). */
module EventStream {
  import opened Seqs
  import opened Utf8

  datatype Event = Event(kind: string, data: string)

  const DELIMITER := "\n\n"

  /** The text `WriteEvent` prints for one event. */
  function Frame(e: Event): string {
    "event: " + e.kind + "\ndata: " + e.data + DELIMITER
  }

  function Frames(events: seq<Event>): string {
    if events == [] then "" else Frame(events[0]) + Frames(events[1..])
  }

  lemma {:induction false} FramesPush(events: seq<Event>, e: Event)
    ensures Frames(events + [e]) == Frames(events) + Frame(e)
  {
    if events == [] {
      assert Frames([e]) == Frame(e) + Frames([]);
      assert [] + [e] == [e];
    } else {
      FramesPush(events[1..], e);
      assert (events + [e])[1..] == events[1..] + [e];
      assert Frame(events[0]) + (Frames(events[1..]) + Frame(e)) == Frame(events[0]) + Frames(events[1..]) + Frame(e);
    }
  }

  /** The response body as the handler has written it so far. */
  class SseWriter {
    var body: seq<Byte>

    constructor ()
      ensures body == []
    {
      body := [];
    }

    /** `reachable` is false once the client is gone: the write fails and nothing is added. */
    method WriteEvent(kind: string, data: string, reachable: bool) returns (ok: bool)
      modifies this
      ensures ok == reachable
      ensures body == old(body) + if reachable then Encode("event: " + kind + "\ndata: " + data + "\n\n") else []
    {
      if !reachable {
        return false;
      }
      var text := "event: " + kind + "\ndata: " + data + "\n\n";
      body := body + Encode(text);
      return true;
    }
  }

  // ----- The parser

  /** The characters JavaScript's `trim` removes. */
  predicate IsSpace(c: char) {
    || '\t' <= c <= '\r' || c == ' ' || c == '\U{A0}' || c == '\U{1680}'
    || '\U{2000}' <= c <= '\U{200A}' || c == '\U{2028}' || c == '\U{2029}'
    || c == '\U{202F}' || c == '\U{205F}' || c == '\U{3000}' || c == '\U{FEFF}'
  }

  function TrimStart(s: string): (r: string)
    ensures r == "" || !IsSpace(r[0])
    ensures s != "" && !IsSpace(s[0]) ==> r == s
    ensures forall c :: c in r ==> c in s
  {
    if s != "" && IsSpace(s[0]) then TrimStart(s[1..]) else s
  }

  function TrimEnd(s: string): (r: string)
    ensures r == "" || (!IsSpace(r[|r| - 1]) && s != "" && r[0] == s[0])
    ensures s != "" && !IsSpace(s[|s| - 1]) ==> r == s
    ensures forall c :: c in r ==> c in s
  {
    if s != "" && IsSpace(s[|s| - 1]) then TrimEnd(s[..|s| - 1]) else s
  }

  function Trim(s: string): string {
    TrimEnd(TrimStart(s))
  }

  /** The effect of one line of a block on the event being assembled. */
  function ScanLine(line: string, e: Event): Event {
    if "event: " <= line then Event(Trim(line[7..]), e.data)
    else if "data: " <= line then Event(e.kind, line[6..])
    else e
  }

  function ScanLines(lines: seq<string>, e: Event): Event {
    if lines == [] then e else ScanLines(lines[1..], ScanLine(lines[0], e))
  }

  /** The events, at most one, of the text between two delimiters. */
  function ParseBlock(raw: string): seq<Event> {
    var e := ScanLines(Split(raw, '\n'), Event("", ""));
    if e.kind != "" && e.data != "" then [e] else []
  }

  datatype Drained = Drained(events: seq<Event>, rest: string)

  /** Taking every complete block off the front of the buffer. */
  function Drain(buffer: string): (d: Drained)
    ensures IndexOf(d.rest, DELIMITER) == -1
    decreases |buffer|
  {
    var end := IndexOf(buffer, DELIMITER);
    if end == -1 then Drained([], buffer)
    else
      Behind(ParseBlock(buffer[..end]), Drain(buffer[end + 2..]))
  }

  function Behind(block: seq<Event>, later: Drained): Drained {
    Drained(block + later.events, later.rest)
  }

  /** What the browser keeps of the stream between two reads. */
  class StreamReader {
    var decoder: Decoder
    var buffer: string

    ghost predicate Valid()
      reads this
    {
      Sound(decoder)
    }

    constructor ()
      ensures Valid() && decoder == START && buffer == ""
    {
      decoder, buffer := START, "";
    }

    /** One turn of the read loop: decode the chunk, then take every complete block. */
    method Read(value: seq<Byte>) returns (events: seq<Event>)
      requires Valid()
      modifies this
      ensures Valid()
      ensures var (text, next) := Decode(old(decoder), value);
              var d := Drain(old(buffer) + text);
              decoder == next && events == d.events && buffer == d.rest
      ensures IndexOf(buffer, DELIMITER) == -1
    {
      var (text, next) := Decode(decoder, value);
      decoder := next;
      buffer := buffer + text;
      events, buffer := TakeBlocks(buffer);
    }

    static method TakeBlocks(text: string) returns (events: seq<Event>, buffer: string)
      ensures Drained(events, buffer) == Drain(text)
    {
      events, buffer := [], text;
      TakenNone(text);
      var eventEnd := IndexOf(buffer, "\n\n");
      while eventEnd != -1
        invariant eventEnd == IndexOf(buffer, DELIMITER)
        invariant Taken(text, events, buffer)
        decreases |buffer|
      {
        var raw := buffer[..eventEnd];
        TakenBlock(text, events, buffer);
        buffer := buffer[eventEnd + 2..];
        var block := ReadBlock(raw);
        events := events + block;
        eventEnd := IndexOf(buffer, "\n\n");
      }
      TakenAll(text, events, buffer);
    }

    static method ReadBlock(raw: string) returns (block: seq<Event>)
      ensures block == ParseBlock(raw)
    {
      var lines := Split(raw, '\n');
      var eventType, eventData := "", "";
      for i := 0 to |lines|
        invariant ScanLines(lines[i..], Event(eventType, eventData)) == ScanLines(lines, Event("", ""))
      {
        var line := lines[i];
        if "event: " <= line {
          eventType := Trim(line[7..]);
        } else if "data: " <= line {
          eventData := line[6..];
        }
      }
      block := if eventType != "" && eventData != "" then [Event(eventType, eventData)] else [];
    }
  }

  // ----- Chunking does not matter

  /** Draining `a` and then, once `b` has arrived behind what was left of it, draining again
      is draining all of `a + b`: for every text, whether or not it was printed by the server. */
  lemma {:induction false} DrainAppend(a: string, b: string)
    ensures var first := Drain(a);
            Drain(a + b) == Behind(first.events, Drain(first.rest + b))
    decreases |a|
  {
    var end := IndexOf(a, DELIMITER);
    if end == -1 {
      DrainShort(a);
      NothingBefore(Drain(a + b));
    } else {
      var block, later := ParseBlock(a[..end]), Drain(a[end + 2..]);
      DrainAppend(a[end + 2..], b);
      DrainBlock(a);
      DrainBlockOf(a, b);
      BehindBoth(block, later.events, Drain(later.rest + b));
    }
  }

  lemma NothingBefore(later: Drained)
    ensures Behind([], later) == later
  {
    assert [] + later.events == later.events;
  }

  lemma BehindBoth(a: seq<Event>, b: seq<Event>, later: Drained)
    ensures Behind(a, Behind(b, later)) == Behind(a + b, later)
  {
    Regroup(a, b, later.events);
  }

  lemma DrainShort(a: string)
    requires IndexOf(a, DELIMITER) == -1
    ensures Drain(a) == Drained([], a)
  {
  }

  lemma DrainBlock(a: string)
    requires IndexOf(a, DELIMITER) != -1
    ensures var end := IndexOf(a, DELIMITER);
            Drain(a) == Behind(ParseBlock(a[..end]), Drain(a[end + 2..]))
  {
  }

  lemma FirstBlock(a: string, b: string)
    requires IndexOf(a, DELIMITER) != -1
    ensures var end := IndexOf(a, DELIMITER);
            IndexOf(a + b, DELIMITER) == end && (a + b)[..end] == a[..end] && (a + b)[end + 2..] == a[end + 2..] + b
  {
    IndexOfStable(a, b, DELIMITER);
  }

  /** The first block does not change when text arrives behind it. */
  lemma DrainBlockOf(a: string, b: string)
    requires IndexOf(a, DELIMITER) != -1
    ensures var end := IndexOf(a, DELIMITER);
            Drain(a + b) == Behind(ParseBlock(a[..end]), Drain(a[end + 2..] + b))
  {
    FirstBlock(a, b);
    DrainBlock(a + b);
  }

  /** `events` is what has been taken off `text` so far, and `buffer` what is left to drain. */
  ghost predicate Taken(text: string, events: seq<Event>, buffer: string) {
    Drain(text) == Behind(events, Drain(buffer))
  }

  lemma TakenNone(text: string)
    ensures Taken(text, [], text)
  {
    NothingBefore(Drain(text));
  }

  lemma TakenBlock(text: string, events: seq<Event>, buffer: string)
    requires Taken(text, events, buffer) && IndexOf(buffer, DELIMITER) != -1
    ensures var end := IndexOf(buffer, DELIMITER);
            Taken(text, events + ParseBlock(buffer[..end]), buffer[end + 2..])
  {
    var end := IndexOf(buffer, DELIMITER);
    DrainBlock(buffer);
    BehindBoth(events, ParseBlock(buffer[..end]), Drain(buffer[end + 2..]));
  }

  lemma TakenAll(text: string, events: seq<Event>, buffer: string)
    requires Taken(text, events, buffer) && IndexOf(buffer, DELIMITER) == -1
    ensures Drained(events, buffer) == Drain(text)
  {
    DrainShort(buffer);
    assert events + [] == events;
  }

  /** The reader's memory and the reads of a whole sequence of chunks. */
  datatype Reading = Reading(decoder: Decoder, buffer: string, events: seq<Event>)

  const UNREAD := Reading(START, "", [])

  function ReadChunk(r: Reading, value: seq<Byte>): (next: Reading)
    requires Sound(r.decoder)
    ensures Sound(next.decoder)
  {
    var (text, decoder) := Decode(r.decoder, value);
    var d := Drain(r.buffer + text);
    Reading(decoder, d.rest, r.events + d.events)
  }

  function ReadChunks(r: Reading, chunks: seq<seq<Byte>>): (next: Reading)
    requires Sound(r.decoder)
    ensures Sound(next.decoder)
    decreases |chunks|
  {
    if chunks == [] then r else ReadChunks(ReadChunk(r, chunks[0]), chunks[1..])
  }

  /** A reader that has taken in these bytes in some way or other. */
  ghost predicate HasRead(r: Reading, bytes: seq<Byte>) {
    var (text, decoder) := Decode(START, bytes);
    r == Reading(decoder, Drain(text).rest, Drain(text).events)
  }

  lemma ReadMore(r: Reading, bytes: seq<Byte>, value: seq<Byte>)
    requires Sound(r.decoder) && HasRead(r, bytes)
    ensures HasRead(ReadChunk(r, value), bytes + value)
  {
    DecodeAppend(START, bytes, value);
    DrainAppend(Decode(START, bytes).0, Decode(r.decoder, value).0);
  }

  /** However the bytes are cut into chunks, the reader ends up as if they had come at once. */
  lemma {:induction false} ChunkingIrrelevant(chunks: seq<seq<Byte>>)
    ensures HasRead(ReadChunks(UNREAD, chunks), Flatten(chunks))
  {
    assert HasRead(UNREAD, []);
    ReadAll(UNREAD, [], chunks, Flatten(chunks));
  }

  lemma {:induction false} ReadAll(r: Reading, bytes: seq<Byte>, chunks: seq<seq<Byte>>, all: seq<Byte>)
    requires Sound(r.decoder) && HasRead(r, bytes)
    requires all == bytes + Flatten(chunks)
    ensures HasRead(ReadChunks(r, chunks), all)
    decreases |chunks|
  {
    if chunks == [] {
      assert all == bytes;
    } else {
      Regroup(bytes, chunks[0], Flatten(chunks[1..]));
      ReadMore(r, bytes, chunks[0]);
      ReadAll(ReadChunk(r, chunks[0]), bytes + chunks[0], chunks[1..], all);
    }
  }

  // ----- Reading back what was printed

  /** The events that survive the trip. */
  predicate Printable(e: Event) {
    && e.kind != "" && '\n' !in e.kind && Trim(e.kind) == e.kind
    && e.data != "" && '\n' !in e.data
  }

  lemma FrameBlock(e: Event)
    requires Printable(e)
    ensures ParseBlock("event: " + e.kind + "\ndata: " + e.data) == [e]
  {
    var first, second := "event: " + e.kind, "data: " + e.data;
    var raw := "event: " + e.kind + "\ndata: " + e.data;
    assert raw == first + "\n" + second;
    assert Join([first, second], '\n') == first + ['\n'] + Join([second], '\n') by {
      assert [first, second][1..] == [second];
    }
    SplitJoin([first, second], '\n');
    assert first[7..] == e.kind && second[6..] == e.data;
    var start := Event("", "");
    calc {
      ScanLines([first, second], start);
      { assert [first, second][1..] == [second]; }
      ScanLines([second], Event(e.kind, ""));
      { assert !("event: " <= second) by { assert second[0] == 'd'; } }
      ScanLines([], e);
    }
  }

  lemma FrameEnd(e: Event, rest: string)
    requires Printable(e)
    ensures IndexOf(Frame(e) + rest, DELIMITER) == |Frame(e)| - 2
  {
    var text := Frame(e) + rest;
    var gap, end := 7 + |e.kind|, |Frame(e)| - 2;
    assert text[end..end + 2] == DELIMITER;
    forall j | 0 <= j < end
      ensures !OccursAt(text, DELIMITER, j)
    {
      if j < gap {
        assert text[j] == ("event: " + e.kind)[j];
      } else if j == gap {
        assert text[j + 1] == 'd';
      } else {
        assert text[j] == ("data: " + e.data)[j - gap - 1];
      }
      assert text[j..j + 2] == [text[j], text[j + 1]];
    }
    IndexOfFirst(text, DELIMITER, end);
  }

  lemma DrainFrame(e: Event, rest: string)
    requires Printable(e)
    ensures Drain(Frame(e) + rest) == Behind([e], Drain(rest))
  {
    FrameEnd(e, rest);
    FrameBlock(e);
    var text := Frame(e) + rest;
    var end := |Frame(e)| - 2;
    assert text[..end] == "event: " + e.kind + "\ndata: " + e.data;
    assert text[end + 2..] == rest;
    DrainBlock(text);
  }

  lemma {:induction false} DrainFrames(events: seq<Event>)
    requires forall e :: e in events ==> Printable(e)
    ensures Drain(Frames(events)) == Drained(events, "")
  {
    if events != [] {
      DrainFrames(events[1..]);
      DrainFrame(events[0], Frames(events[1..]));
      assert events == [events[0]] + events[1..];
    }
  }

  /** The reader undoes the printer, whatever the chunking: the same events in the same order,
      nothing left in the buffer and no character half decoded. */
  lemma ReadBack(events: seq<Event>, chunks: seq<seq<Byte>>)
    requires forall e :: e in events ==> Printable(e)
    requires Flatten(chunks) == Encode(Frames(events))
    ensures ReadChunks(UNREAD, chunks) == Reading(START, "", events)
  {
    ChunkingIrrelevant(chunks);
    DecodeEncode(Frames(events));
    DrainFrames(events);
  }

  /** A reader that has seen only the first bytes holds a prefix of the printed events. */
  lemma ReadPrefix(r: Reading, bytes: seq<Byte>, rest: seq<Byte>, events: seq<Event>)
    requires forall e :: e in events ==> Printable(e)
    requires HasRead(r, bytes) && bytes + rest == Encode(Frames(events))
    ensures r.events <= events
    ensures rest == [] ==> r.events == events
  {
    DecodeEncode(Frames(events));
    DrainFrames(events);
    DecodeAppend(START, bytes, rest);
    var (text, decoder) := Decode(START, bytes);
    var later := Decode(decoder, rest).0;
    DrainAppend(text, later);
    assert text + later == Frames(events);
    if rest == [] {
      assert bytes + rest == bytes;
    }
  }

  lemma {:induction false} ScannedIsPrintable(lines: seq<string>, e: Event)
    requires forall l :: l in lines ==> '\n' !in l
    requires '\n' !in e.kind && '\n' !in e.data && Trim(e.kind) == e.kind
    ensures var r := ScanLines(lines, e); '\n' !in r.kind && '\n' !in r.data && Trim(r.kind) == r.kind
  {
    if lines != [] {
      var next := ScanLine(lines[0], e);
      assert '\n' !in lines[0];
      ScannedIsPrintable(lines[1..], next);
    }
  }

  lemma BlockIsPrintable(block: string)
    ensures forall e :: e in ParseBlock(block) ==> Printable(e)
  {
    ScannedIsPrintable(Split(block, '\n'), Event("", ""));
  }

  /** Only printable events are ever parsed, from any text at all. */
  lemma {:induction false} ParsedIsPrintable(buffer: string)
    ensures forall e :: e in Drain(buffer).events ==> Printable(e)
    decreases |buffer|
  {
    var end := IndexOf(buffer, DELIMITER);
    if end != -1 {
      ParsedIsPrintable(buffer[end + 2..]);
      BlockIsPrintable(buffer[..end]);
    }
  }

  /** Exactly the printable events come back from their own frame. */
  lemma RecoveredExactly(e: Event)
    ensures Drain(Frame(e)) == Drained([e], "") <==> Printable(e)
  {
    if Printable(e) {
      DrainFrame(e, "");
      assert Frame(e) + "" == Frame(e);
    }
    ParsedIsPrintable(Frame(e));
    assert Drain(Frame(e)).events == [e] ==> e in Drain(Frame(e)).events;
  }

  // ----- Any block, whoever printed it

  /** Trimming takes the spaces at both ends and nothing else. */
  lemma {:induction false} TrimExactly(s: string) returns (before: string, after: string)
    ensures s == before + Trim(s) + after && forall c :: c in before || c in after ==> IsSpace(c)
    ensures Trim(s) != "" ==> !IsSpace(Trim(s)[0]) && !IsSpace(Trim(s)[|Trim(s)| - 1])
  {
    before := TrimmedStart(s);
    after := TrimmedEnd(TrimStart(s));
    Regroup(before, Trim(s), after);
  }

  lemma {:induction false} TrimmedStart(s: string) returns (before: string)
    ensures s == before + TrimStart(s) && forall c :: c in before ==> IsSpace(c)
  {
    if s != "" && IsSpace(s[0]) {
      before := TrimmedStart(s[1..]);
      assert s == [s[0]] + s[1..];
      before := [s[0]] + before;
    } else {
      before := "";
    }
  }

  lemma {:induction false} TrimmedEnd(s: string) returns (after: string)
    ensures s == TrimEnd(s) + after && forall c :: c in after ==> IsSpace(c)
  {
    if s != "" && IsSpace(s[|s| - 1]) {
      after := TrimmedEnd(s[..|s| - 1]);
      assert s == s[..|s| - 1] + [s[|s| - 1]];
      after := after + [s[|s| - 1]];
    } else {
      after := "";
    }
  }

  /** The last of the lines that begin so. */
  predicate LastWith(lines: seq<string>, field: string, k: nat) {
    k < |lines| && field <= lines[k] && forall j :: k < j < |lines| ==> !(field <= lines[j])
  }

  predicate NoneWith(lines: seq<string>, field: string) {
    forall j :: 0 <= j < |lines| ==> !(field <= lines[j])
  }

  lemma OneField(line: string)
    ensures "data: " <= line ==> !("event: " <= line)
  {
    if "data: " <= line {
      assert line[0] == 'd';
    }
  }

  lemma {:induction false} ScannedExactly(lines: seq<string>, e: Event)
    ensures var r := ScanLines(lines, e);
            && (forall k: nat :: LastWith(lines, "event: ", k) ==> r.kind == Trim(lines[k][7..]))
            && (forall k: nat :: LastWith(lines, "data: ", k) ==> r.data == lines[k][6..])
            && (NoneWith(lines, "event: ") ==> r.kind == e.kind) && (NoneWith(lines, "data: ") ==> r.data == e.data)
  {
    if lines != [] {
      OneField(lines[0]);
      ScannedExactly(lines[1..], ScanLine(lines[0], e));
      LaterField(lines, "event: ");
      LaterField(lines, "data: ");
    }
  }

  lemma LaterField(lines: seq<string>, field: string)
    requires lines != []
    ensures forall k: nat :: 0 < k && LastWith(lines, field, k) ==> LastWith(lines[1..], field, k - 1)
    ensures LastWith(lines, field, 0) ==> NoneWith(lines[1..], field)
    ensures NoneWith(lines, field) ==> NoneWith(lines[1..], field)
  {
  }

  /** Of any block the last line with an event type and the last with data count, the type trimmed and
      the data as it stands; without either, or with nothing in either, there is no event. */
  lemma BlockExactly(raw: string)
    ensures var lines := Split(raw, '\n');
            && (forall i: nat, j: nat :: LastWith(lines, "event: ", i) && LastWith(lines, "data: ", j) ==>
                  ParseBlock(raw) == if Trim(lines[i][7..]) != "" && lines[j][6..] != ""
                                     then [Event(Trim(lines[i][7..]), lines[j][6..])] else [])
            && (NoneWith(lines, "event: ") || NoneWith(lines, "data: ") ==> ParseBlock(raw) == [])
  {
    ScannedExactly(Split(raw, '\n'), Event("", ""));
  }
}
