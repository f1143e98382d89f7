/** The report handler: it drains the closed channel, event by event, into the response. */
module ReportHandlers {
  import opened Browser
  import opened EventStream
  import opened Seqs
  import opened Utf8

  lemma FrameAdded(codec: Codec, events: seq<ReportEvent>, i: nat)
    requires i < |events|
    ensures Encode(Frames(ToEvents(codec, events[..i + 1])))
         == Encode(Frames(ToEvents(codec, events[..i]))) + Encode(Frame(ToEvent(codec, events[i])))
  {
    assert ToEvents(codec, events[..i + 1]) == ToEvents(codec, events[..i]) + [ToEvent(codec, events[i])];
    FramesPush(ToEvents(codec, events[..i]), ToEvent(codec, events[i]));
    EncodeAppend(Frames(ToEvents(codec, events[..i])), Frame(ToEvent(codec, events[i])));
  }

  /** The events written before the client went away. */
  function Reached(events: seq<ReportEvent>, reachable: nat): seq<ReportEvent> {
    if reachable < |events| then events[..reachable] else events
  }

  /** The bytes of the frames of those events. */
  function Sent(codec: Codec, events: seq<ReportEvent>, reachable: nat): seq<Byte> {
    Encode(Frames(ToEvents(codec, Reached(events, reachable))))
  }

  class ReportHandler {
    const codec: Codec

    constructor (codec: Codec)
      ensures this.codec == codec
    {
      this.codec := codec;
    }

    /** `reachable` writes succeed, after that the client is gone; the errors are ignored. */
    method StreamReport(sse: SseWriter, events: seq<ReportEvent>, reachable: nat)
      modifies sse
      ensures sse.body == old(sse.body) + Sent(codec, events, reachable)
      ensures var reached := if reachable < |events| then events[..reachable] else events;
              sse.body == old(sse.body) + Encode(Frames(ToEvents(codec, reached)))
    {
      assert old(sse.body) + Sent(codec, [], reachable) == old(sse.body);
      for i := 0 to |events|
        invariant sse.body == old(sse.body) + Sent(codec, events[..i], reachable)
      {
        var event := ToEvent(codec, events[i]);
        var ok := sse.WriteEvent(event.kind, event.data, i < reachable);
        SentNext(codec, events, reachable, i);
        Regroup(old(sse.body), Sent(codec, events[..i], reachable), if ok then Encode(Frame(event)) else []);
      }
      assert events[..|events|] == events;
    }
  }

  lemma Written(events: seq<ReportEvent>, reachable: nat, i: nat)
    requires i < |events|
    ensures i < reachable ==>
              Reached(events[..i], reachable) == events[..i] && Reached(events[..i + 1], reachable) == events[..i + 1]
    ensures reachable <= i ==> Reached(events[..i], reachable) == Reached(events[..i + 1], reachable)
  {
    if reachable <= i {
      assert events[..i + 1][..reachable] == events[..reachable] == events[..i][..reachable];
      assert events[..i][..i] == events[..i];
    }
  }

  lemma SentNext(codec: Codec, events: seq<ReportEvent>, reachable: nat, i: nat)
    requires i < |events|
    ensures Sent(codec, events[..i + 1], reachable)
         == Sent(codec, events[..i], reachable) + if i < reachable then Encode(Frame(ToEvent(codec, events[i]))) else []
  {
    Written(events, reachable, i);
    if i < reachable {
      FrameAdded(codec, events, i);
    } else {
      assert Sent(codec, events[..i], reachable) + [] == Sent(codec, events[..i], reachable);
    }
  }

  /** What the handler wrote, read by the page in any chunks, shows exactly the events it wrote. */
  lemma WrittenIsShown(codec: Codec, events: seq<ReportEvent>, reachable: nat, chunks: seq<seq<Byte>>)
    requires Faithful(codec) && Flatten(chunks) == Sent(codec, events, reachable)
    ensures DispatchAll(codec, BLANK, ReadChunks(UNREAD, chunks).events) == Shown(Reached(events, reachable))
  {
    EventsPrintable(codec, Reached(events, reachable));
    ReadBack(ToEvents(codec, Reached(events, reachable)), chunks);
    DispatchShows(codec, Reached(events, reachable));
  }
}
