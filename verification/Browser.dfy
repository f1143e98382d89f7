/** The report page: what `generateReport` in the browser makes of the events it parses. */
module Browser {
  import opened Seqs
  import opened Utf8
  import opened Domain
  import opened Counting
  import opened EventStream

  /** The JSON object inside an event's data: a report, an error message, or neither. */
  datatype Payload = Payload(kind: string, report: Option<UserReport>, error: string)

  /** `json.Marshal` and `JSON.parse`. */
  datatype Codec = Codec(marshal: Payload -> string, parse: string -> Option<Payload>)

  /** Parsing undoes marshalling, and compact JSON is one non-empty line. */
  ghost predicate Faithful(codec: Codec) {
    forall p {:trigger codec.marshal(p)} ::
      codec.parse(codec.marshal(p)) == Some(p) && codec.marshal(p) != "" && '\n' !in codec.marshal(p)
  }

  /** The events the report service sends. */
  datatype ReportEvent = UserReportEvent(report: UserReport) | CompleteEvent | ErrorEvent(message: string)

  /** The event `StreamReport` hands to the writer. */
  function ToEvent(codec: Codec, e: ReportEvent): Event {
    match e
    case UserReportEvent(report) => Event("USER_REPORT", codec.marshal(Payload("USER_REPORT", Some(report), "")))
    case CompleteEvent => Event("COMPLETE", codec.marshal(Payload("COMPLETE", None, "")))
    case ErrorEvent(message) => Event("ERROR", codec.marshal(Payload("ERROR", None, message)))
  }

  function ToEvents(codec: Codec, events: seq<ReportEvent>): (r: seq<Event>)
    ensures |r| == |events|
    ensures forall i :: 0 <= i < |r| ==> r[i] == ToEvent(codec, events[i])
  {
    seq(|events|, i requires 0 <= i < |events| => ToEvent(codec, events[i]))
  }

  datatype Status = Streaming | Done(totals: Totals) | Failed(message: string)

  /** `allReports` and the status bar. */
  datatype View = View(allReports: seq<UserReport>, status: Status)

  const BLANK := View([], Streaming)

  function Dispatch(codec: Codec, v: View, evt: Event): View {
    match codec.parse(evt.data)
    case None => v
    case Some(parsed) =>
      if evt.kind == "USER_REPORT" then
        if parsed.report.None? then v else v.(allReports := v.allReports + [parsed.report.value])
      else if evt.kind == "COMPLETE" then
        v.(status := Done(CardTotals(v.allReports)))
      else if evt.kind == "ERROR" then
        v.(status := Failed(if parsed.error == "" then "Unknown error" else parsed.error))
      else v
  }

  function DispatchAll(codec: Codec, v: View, events: seq<Event>): View {
    if events == [] then v
    else Dispatch(codec, DispatchAll(codec, v, events[..|events| - 1]), events[|events| - 1])
  }

  lemma {:induction false} DispatchAppend(codec: Codec, v: View, a: seq<Event>, b: seq<Event>)
    ensures DispatchAll(codec, v, a + b) == DispatchAll(codec, DispatchAll(codec, v, a), b)
  {
    if b == [] {
      assert a + b == a;
    } else {
      DispatchAppend(codec, v, a, b[..|b| - 1]);
      assert (a + b)[..|a + b| - 1] == a + b[..|b| - 1];
    }
  }

  /** An event that does not parse, brings no report, or is of no known kind changes nothing, wherever in
      the stream it comes. */
  lemma Skipped(codec: Codec, v: View, before: seq<Event>, e: Event, after: seq<Event>)
    requires || codec.parse(e.data).None? || (e.kind == "USER_REPORT" && codec.parse(e.data).value.report.None?)
             || (e.kind != "USER_REPORT" && e.kind != "COMPLETE" && e.kind != "ERROR")
    ensures DispatchAll(codec, v, before + [e] + after) == DispatchAll(codec, v, before + after)
  {
    DispatchAppend(codec, v, before + [e], after);
    DispatchAppend(codec, v, before, after);
    assert (before + [e])[..|before|] == before;
  }

  /** What the page shows for a list of sent events. */
  function Shown(events: seq<ReportEvent>): View {
    if events == [] then BLANK
    else
      var v := Shown(events[..|events| - 1]);
      match events[|events| - 1]
      case UserReportEvent(report) => v.(allReports := v.allReports + [report])
      case CompleteEvent => v.(status := Done(CardTotals(v.allReports)))
      case ErrorEvent(message) => v.(status := Failed(if message == "" then "Unknown error" else message))
  }

  lemma {:induction false} DispatchShows(codec: Codec, events: seq<ReportEvent>)
    requires Faithful(codec)
    ensures DispatchAll(codec, BLANK, ToEvents(codec, events)) == Shown(events)
  {
    if events != [] {
      var last := |events| - 1;
      DispatchShows(codec, events[..last]);
      assert ToEvents(codec, events)[..last] == ToEvents(codec, events[..last]);
    }
  }

  predicate Tight(kind: string) {
    kind != "" && '\n' !in kind && Trim(kind) == kind
  }

  lemma TightReport()
    ensures Tight("USER_REPORT")
  {
    assert "USER_REPORT"[0] == 'U';
  }

  lemma TightComplete()
    ensures Tight("COMPLETE")
  {
    assert "COMPLETE"[0] == 'C';
  }

  lemma TightError()
    ensures Tight("ERROR")
  {
    assert "ERROR"[0] == 'E';
  }

  lemma EventPrintable(codec: Codec, e: ReportEvent)
    requires Faithful(codec)
    ensures Printable(ToEvent(codec, e))
  {
    match e {
      case UserReportEvent(_) => TightReport();
      case CompleteEvent => TightComplete();
      case ErrorEvent(_) => TightError();
    }
  }

  lemma EventsPrintable(codec: Codec, events: seq<ReportEvent>)
    requires Faithful(codec)
    ensures forall e :: e in ToEvents(codec, events) ==> Printable(e)
  {
    forall i | 0 <= i < |events|
      ensures Printable(ToEvents(codec, events)[i])
    {
      EventPrintable(codec, events[i]);
    }
  }

  /** The page while a stream is being read. */
  class ReportPage {
    const codec: Codec
    const reader: StreamReader
    var allReports: seq<UserReport>
    var status: Status

    constructor (codec: Codec)
      ensures this.codec == codec && View(allReports, status) == BLANK
      ensures fresh(reader) && reader.Valid() && reader.decoder == START && reader.buffer == ""
    {
      this.codec := codec;
      this.reader := new StreamReader();
      allReports, status := [], Streaming;
    }

    /** One turn of the read loop. */
    method OnChunk(value: seq<Byte>)
      requires reader.Valid()
      modifies this, reader
      ensures reader.Valid()
      ensures var r := ReadChunk(Reading(old(reader.decoder), old(reader.buffer), []), value);
              && reader.decoder == r.decoder && reader.buffer == r.buffer
              && View(allReports, status) == DispatchAll(codec, View(old(allReports), old(status)), r.events)
    {
      var events := reader.Read(value);
      assert [] + events == events;
      ShowEvents(events);
    }

    method ShowEvents(events: seq<Event>)
      modifies this
      ensures View(allReports, status) == DispatchAll(codec, View(old(allReports), old(status)), events)
    {
      for i := 0 to |events|
        invariant View(allReports, status) == DispatchAll(codec, View(old(allReports), old(status)), events[..i])
      {
        assert events[..i + 1][..i] == events[..i];
        ShowEvent(events[i]);
      }
      assert events[..|events|] == events;
    }

    method ShowEvent(evt: Event)
      modifies this
      ensures View(allReports, status) == Dispatch(codec, View(old(allReports), old(status)), evt)
    {
      var parsed := codec.parse(evt.data);
      if parsed.None? {
        return; // malformed events are skipped
      }
      if evt.kind == "USER_REPORT" {
        if parsed.value.report.Some? {
          allReports := allReports + [parsed.value.report.value];
        }
      } else if evt.kind == "COMPLETE" {
        var totals := SummaryTotals(allReports);
        status := Done(totals);
      } else if evt.kind == "ERROR" {
        status := Failed(if parsed.value.error == "" then "Unknown error" else parsed.value.error);
      }
    }
  }
}
